/** The size oracle for messages as it is computed, and the offset table it fills on the way. */
module NetworkCalc {
  import opened Bytes
  import opened Types
  import opened Wire
  import opened SizeOracle
  import opened CalcSize
  import opened NetworkMessage
  import opened Layout

  /** An encoded message with the places that may change, for publishers and subscribers in real time. */
  class OffsetBuffer {
    var buffer: array<u8>
    var offsets: seq<Offset>
    const rtSubscriber: bool
    var nm: NetworkMessage

    constructor (buffer: array<u8>, rtSubscriber: bool, nm: NetworkMessage)
      ensures this.buffer == buffer && offsets == [] && this.rtSubscriber == rtSubscriber && this.nm == nm
    {
      this.buffer := buffer;
      this.offsets := [];
      this.rtSubscriber := rtSubscriber;
      this.nm := nm;
    }

    method Record(src: Source, pos: nat)
      modifies `offsets
      ensures offsets == old(offsets) + [Offset(src, pos)]
    {
      offsets := offsets + [Offset(src, pos)];
    }
  }

  function Region(b: OffsetBuffer?): set<object> {
    if b == null then {} else {b}
  }

  /** The entries recorded so far, if a table is given, are the old ones and those of L from pos on. */
  twostate predicate Recorded(b: OffsetBuffer?, L: seq<Seg>, pos: nat)
    reads Region(b)
  {
    b != null ==> b.offsets == old(b.offsets) + OffsetsOf(L, pos) && b.buffer == old(b.buffer) && b.nm == old(b.nm)
  }

  /** Records an entry for the next octets, if the table is given and `on` holds. */
  method Note(b: OffsetBuffer?, on: bool, src: Source, pos: nat)
    modifies if b == null then {} else {b}
    ensures b != null ==> b.offsets == old(b.offsets) + (if on then [Offset(src, pos)] else [])
    ensures b != null ==> b.buffer == old(b.buffer) && b.nm == old(b.nm)
  {
    if b != null && on {
      b.Record(src, pos);
    }
  }

  // ----- DataSetMessages -----

  method CalcKeyField(T: Table, encoding: u8, f: DataValue) returns (n: nat)
    requires VariantTyped(T, f.value)
    ensures n == KeyFieldSize(T, encoding, f)
  {
    if encoding == ENC_VARIANT {
      n := CalcVariant(T, f.value);
    } else {
      n := CalcData(T, f);
    }
  }

  method CalcFields(T: Table, encoding: u8, fs: seq<DataValue>, i: nat, b: OffsetBuffer?, start: nat) returns (size: nat)
    requires FieldsAre(T, fs)
    modifies if b == null then {} else {b}
    ensures size == start + KeyFieldsSize(T, encoding, fs)
    ensures Recorded(b, LayoutFields(T, encoding, fs, i, 0), start)
  {
    hide KeyFieldSize, EncKeyField;
    size := start;
    var j := 0;
    assert fs[0..] == fs;
    while j < |fs|
      invariant j <= |fs| && FieldsAre(T, fs[j..])
      invariant size + KeyFieldsSize(T, encoding, fs[j..]) == start + KeyFieldsSize(T, encoding, fs)
      invariant b != null ==> b.buffer == old(b.buffer) && b.nm == old(b.nm)
      invariant b != null ==> b.offsets + OffsetsOf(LayoutFields(T, encoding, fs[j..], i, j), size) ==
                              old(b.offsets) + OffsetsOf(LayoutFields(T, encoding, fs, i, 0), start)
    {
      assert fs[j..][1..] == fs[j + 1..];
      Note(b, true, FieldSource(encoding, fs[j], i, j), size);
      var n := CalcKeyField(T, encoding, fs[j]);
      FieldsStep(T, encoding, fs[j..], i, j, size);
      size := size + n;
      j := j + 1;
    }
    assert LayoutFields(T, encoding, fs[j..], i, j) == [];
  }

  lemma FieldsStep(T: Table, encoding: u8, fs: seq<DataValue>, i: nat, j: nat, pos: nat)
    requires FieldsAre(T, fs) && fs != []
    ensures OffsetsOf(LayoutFields(T, encoding, fs, i, j), pos) ==
            [Offset(FieldSource(encoding, fs[0], i, j), pos)]
            + OffsetsOf(LayoutFields(T, encoding, fs[1..], i, j + 1), pos + KeyFieldSize(T, encoding, fs[0]))
  {
    hide KeyFieldSize, EncKeyField;
    var x := LayoutFields(T, encoding, fs, i, j);
    assert x[1..] == LayoutFields(T, encoding, fs[1..], i, j + 1);
  }

  method CalcDeltas(T: Table, encoding: u8, fs: seq<DeltaField>) returns (size: nat)
    requires DeltasAre(T, fs)
    ensures size == DeltaFieldsSize(T, encoding, fs)
  {
    hide KeyFieldSize;
    size := 0;
    var j := 0;
    assert fs[0..] == fs;
    while j < |fs|
      invariant j <= |fs| && DeltasAre(T, fs[j..])
      invariant size + DeltaFieldsSize(T, encoding, fs[j..]) == DeltaFieldsSize(T, encoding, fs)
    {
      assert fs[j..][1..] == fs[j + 1..];
      var n := CalcKeyField(T, encoding, fs[j].value);
      size := size + 2 + n;
      j := j + 1;
    }
  }

  /** Size of the header up to and including the optional versions, recording the sequence number. */
  method CalcDsmHeader(x: DataSetMessage, i: nat, b: OffsetBuffer?, start: nat) returns (size: nat)
    modifies if b == null then {} else {b}
    ensures size == start + |DsmHeader(x)|
    ensures Recorded(b, LayoutDsmHeader(x, i), start)
  {
    hide LE, DsmFlags1, DsmFlags2;
    size := start + 1;
    if DsmFlags2Enabled(x) { size := size + 1; }
    DsmHeaderSizes(x, i, start);
    Note(b, x.sequenceNr.Some?, DsmSequenceAt(i), size);
    if x.sequenceNr.Some? { size := size + 2; }
    if x.timestamp.Some? { size := size + 8; }
    if x.picoSeconds.Some? { size := size + 2; }
    if x.status.Some? { size := size + 2; }
    if x.major.Some? { size := size + 4; }
    if x.minor.Some? { size := size + 4; }
  }

  lemma DsmHeaderSizes(x: DataSetMessage, i: nat, start: nat)
    ensures OffsetsOf(LayoutDsmHeader(x, i), start) ==
            if x.sequenceNr.Some? then [Offset(DsmSequenceAt(i), start + |DsmFlags(x)|)] else []
    ensures |DsmFlags(x)| == if DsmFlags2Enabled(x) then 2 else 1
  {
    hide LE, DsmFlags1, DsmFlags2, DsmHeaderRest, OptLE;
    var L := LayoutDsmHeader(x, i);
    OffsetsOf3(L[0], L[1], L[2], start);
  }

  lemma OffsetsOf3(a: Seg, b: Seg, c: Seg, pos: nat)
    ensures OffsetsOf([a, b, c], pos) ==
            OffsetsOf([a], pos) + OffsetsOf([b], pos + a.n) + OffsetsOf([c], pos + a.n + b.n)
    ensures Total([a, b, c]) == a.n + b.n + c.n
  {
    hide OffsetsOf, Total, Octets;
    assert [a, b, c] == [a] + [b] + [c];
    Cat([a], [b], pos);
    Cat([a] + [b], [c], pos);
    Only(a, pos);
    Only(b, pos + a.n);
    Only(c, pos + a.n + b.n);
  }

  method CalcDsm(T: Table, x: DataSetMessage, i: nat, b: OffsetBuffer?, start: nat) returns (size: nat)
    requires DsmTyped(T, x)
    modifies if b == null then {} else {b}
    ensures size == start + DsmSize(T, x)
    ensures Recorded(b, LayoutDsm(T, x, i), start)
  {
    hide DsmHeader, LayoutDsmHeader, LayoutFields, KeyFieldsSize, DeltaFieldsSize, EncKeyFields, EncDeltaFields, FieldsAre,
         DeltasAre, LE, OffsetsOf, LayoutDsm;
    size := CalcDsmHeader(x, i, b, start);
    DsmParts(T, x, i, start);
    if x.messageType == DATAKEYFRAME && x.fieldEncoding != ENC_RAWDATA {
      size := size + 2;
      if HasFields(x.fieldEncoding) {
        size := CalcFields(T, x.fieldEncoding, x.frame.fields, i, b, size);
      }
    } else if x.messageType == DATADELTAFRAME && x.fieldEncoding != ENC_RAWDATA {
      size := size + 2;
      if HasFields(x.fieldEncoding) {
        var n := CalcDeltas(T, x.fieldEncoding, x.frame.deltas);
        size := size + n;
      }
    }
  }

  lemma DsmParts(T: Table, x: DataSetMessage, i: nat, start: nat)
    requires DsmTyped(T, x)
    ensures var q := start + |DsmHeader(x)|;
            OffsetsOf(LayoutDsm(T, x, i), start) == OffsetsOf(LayoutDsmHeader(x, i), start)
              + (if HasEntries(x) then OffsetsOf(LayoutFields(T, x.fieldEncoding, x.frame.fields, i, 0), q + 2) else [])
  {
    hide LayoutDsmHeader, LayoutFields, LE, FieldsAre, DsmHeader, EncFrame, FrameSize, OffsetsOf, Total, Octets, EncKeyFields,
         KeyFieldsSize, DeltasAre;
    var q := start + |DsmHeader(x)|;
    DsmHeaderTotal(x, i);
    Cat(LayoutDsmHeader(x, i), LayoutFrame(T, x, i), start);
    if HasEntries(x) {
      var n := [Lit(LE(|x.frame.fields|, 2), 2)];
      Cat(n, LayoutFields(T, x.fieldEncoding, x.frame.fields, i, 0), q);
      Only(n[0], q);
    } else {
      Only(Lit(EncFrame(T, x), FrameSize(T, x)), q);
    }
  }

  lemma DsmHeaderTotal(x: DataSetMessage, i: nat)
    ensures Total(LayoutDsmHeader(x, i)) == |DsmHeader(x)|
  {
    hide OptLE, DsmFlags, DsmHeaderRest;
    var L := LayoutDsmHeader(x, i);
    OffsetsOf3(L[0], L[1], L[2], 0);
    OptLength(x.sequenceNr, 2);
  }

  // ----- NetworkMessages -----

  /** Whether a subscriber's entries are recorded. */
  predicate Rt(b: OffsetBuffer?) {
    b != null && b.rtSubscriber
  }

  method CalcPublisherId(m: NetworkMessage) returns (n: nat)
    ensures n == PublisherIdSize(m)
  {
    n := 0;
    if m.publisherId.Some? {
      if m.publisherIdType == 0 { n := 1; }
      else if m.publisherIdType == 1 { n := 2; }
      else if m.publisherIdType == 2 { n := 4; }
      else if m.publisherIdType == 3 { n := 8; }
      else if m.publisherIdType == 4 && m.publisherId.value.IdString? { n := StrSize(m.publisherId.value.s); }
    }
  }

  method CalcFront(m: NetworkMessage, b: OffsetBuffer?) returns (size: nat)
    modifies if b == null then {} else {b}
    ensures size == |EncFlags(m)| + PublisherIdSize(m) + |EncClassId(m)|
    ensures Recorded(b, LayoutFront(m, Rt(b)), 0)
  {
    hide Flags0, Flags1, Flags2, EncPublisherId, EncGuid, PublisherIdSize, OffsetsOf, Flags1Enabled, Flags2Enabled;
    size := 1;
    if Flags1Enabled(m) {
      size := size + 1;
      if Flags2Enabled(m) { size := size + 1; }
    }
    FrontEntries(m, Rt(b));
    Note(b, Rt(b) && m.publisherId.Some?, PublisherIdAt, size);
    var n := CalcPublisherId(m);
    size := size + n;
    if m.dataSetClassId.Some? { size := size + 16; }
  }

  lemma FrontEntries(m: NetworkMessage, rt: bool)
    ensures OffsetsOf(LayoutFront(m, rt), 0) == if rt && m.publisherId.Some? then [Offset(PublisherIdAt, |EncFlags(m)|)] else []
  {
    hide EncFlags, EncPublisherId, EncClassId, PublisherIdSize, OffsetsOf;
    var L := LayoutFront(m, rt);
    OffsetsOf3(L[0], L[1], L[2], 0);
    OffsetsOfOne(L[0], 0);
    OffsetsOfOne(L[1], L[0].n);
    OffsetsOfOne(L[2], L[0].n + L[1].n);
  }

  lemma OffsetsOfOne(x: Seg, pos: nat)
    ensures OffsetsOf([x], pos) == if x.src.Some? then [Offset(x.src.value, pos)] else []
  {
    Only(x, pos);
  }

  method CalcGroup(m: NetworkMessage, b: OffsetBuffer?, start: nat) returns (size: nat)
    modifies if b == null then {} else {b}
    ensures size == start + |EncGroup(m)|
    ensures Recorded(b, LayoutGroup(m, Rt(b)), start)
  {
    hide GroupFlags, OffsetsOf, LE;
    size := start;
    if m.groupHeader.Some? {
      var g := m.groupHeader.value;
      GroupEntries(m, g, Rt(b), start);
      size := size + 1;
      Note(b, Rt(b) && g.writerGroupId.Some?, WriterGroupIdAt, size);
      if g.writerGroupId.Some? { size := size + 2; }
      if g.groupVersion.Some? { size := size + 4; }
      if g.networkMessageNumber.Some? { size := size + 2; }
      Note(b, g.sequenceNumber.Some?, NmSequenceAt, size);
      if g.sequenceNumber.Some? { size := size + 2; }
    } else {
      NoEntries(start);
    }
  }

  lemma NoEntries(pos: nat)
    ensures OffsetsOf([], pos) == []
  {
  }

  lemma GroupEntries(m: NetworkMessage, g: GroupHeader, rt: bool, start: nat)
    requires m.groupHeader == Some(g)
    ensures var q := start + 1 + OptSize(g.writerGroupId, 2) + OptSize(g.groupVersion, 4) + OptSize(g.networkMessageNumber, 2);
            OffsetsOf(LayoutGroup(m, rt), start) ==
            (if rt && g.writerGroupId.Some? then [Offset(WriterGroupIdAt, start + 1)] else [])
            + (if g.sequenceNumber.Some? then [Offset(NmSequenceAt, q)] else [])
  {
    hide GroupFlags, OffsetsOf, OptLE, Total, Octets;
    var L := LayoutGroup(m, rt);
    assert L == [L[0], L[1], L[2]] + ([L[3]] + [L[4]]);
    OffsetsOf3(L[0], L[1], L[2], start);
    var q := start + Total([L[0], L[1], L[2]]);
    Cat([L[0], L[1], L[2]], [L[3]] + [L[4]], start);
    Cat([L[3]], [L[4]], q);
    Only(L[3], q);
    OffsetsOfOne(L[0], start);
    OffsetsOfOne(L[1], start + 1);
    OffsetsOfOne(L[2], start + 1 + L[1].n);
    OffsetsOfOne(L[4], q + L[3].n);
  }

  method CalcPayloadHeader(m: NetworkMessage, b: OffsetBuffer?, start: nat) returns (size: nat)
    requires MessageCount(m) < 256 && m.payloadHeader != Some(NoWriterIds)
    modifies if b == null then {} else {b}
    ensures size == start + |EncPayloadHeader(m)|
    ensures Recorded(b, LayoutPayloadHeader(m, Rt(b)), start)
  {
    hide OffsetsOf;
    size := start;
    if m.payloadHeader.Some? {
      ghost var L := LayoutPayloadHeader(m, Rt(b));
      OffsetsOf3(L[0], L[1], L[2], start);
      OffsetsOfOne(L[0], start);
      OffsetsOfOne(L[1], start + 1);
      OffsetsOfOne(L[2], start + 1 + L[1].n);
      size := size + 1;
      Note(b, Rt(b), WriterIdAt, size);
      size := size + 2 * |m.payloadHeader.value.ids|;
    } else {
      NoEntries(start);
    }
  }

  method CalcVariants(T: Table, xs: seq<Variant>) returns (size: nat)
    requires VariantsAre(T, xs)
    ensures size == VariantsSize(T, xs)
  {
    hide VariantSize;
    size := 0;
    var j := 0;
    assert xs[0..] == xs;
    while j < |xs|
      invariant j <= |xs| && VariantsAre(T, xs[j..])
      invariant size + VariantsSize(T, xs[j..]) == VariantsSize(T, xs)
    {
      assert xs[j..][1..] == xs[j + 1..];
      var n := CalcVariant(T, xs[j]);
      size := size + n;
      j := j + 1;
    }
  }

  method CalcMiddle(T: Table, m: NetworkMessage, b: OffsetBuffer?, start: nat) returns (size: nat)
    requires NmTyped(T, m)
    modifies if b == null then {} else {b}
    ensures size == start + Total(LayoutMiddle(T, m))
    ensures Recorded(b, LayoutMiddle(T, m), start)
  {
    hide OffsetsOf, VariantsSize, EncVariants, LE, Total, VariantsAre, DsmsAre, SecurityFlags, IdTyped, MessageCount;
    ghost var L := LayoutMiddle(T, m);
    MiddleEntries(T, m, start);
    size := start;
    Note(b, m.timestamp.Some?, TimestampAt, size);
    if m.timestamp.Some? { size := size + 8; }
    Note(b, m.picoseconds.Some?, PicosecondsAt, size);
    if m.picoseconds.Some? { size := size + 2; }
    if m.promoted.Some? {
      var n := CalcVariants(T, m.promoted.value);
      size := size + 2 + n;
    }
    if m.security.Some? {
      size := size + 1 + 4 + 1 + |m.security.value.nonce|;
      if m.security.value.footer.Some? { size := size + 2; }
    }
  }

  lemma MiddleEntries(T: Table, m: NetworkMessage, start: nat)
    requires NmTyped(T, m)
    ensures OffsetsOf(LayoutMiddle(T, m), start) ==
            (if m.timestamp.Some? then [Offset(TimestampAt, start)] else [])
            + (if m.picoseconds.Some? then [Offset(PicosecondsAt, start + OptSize(m.timestamp, 8))] else [])
    ensures Total(LayoutMiddle(T, m)) == OptSize(m.timestamp, 8) + OptSize(m.picoseconds, 2)
              + (if m.promoted.Some? then 2 + VariantsSize(T, m.promoted.value) else 0) + |EncSecurity(m)|
  {
    hide OffsetsOf, VariantsSize, EncPromoted, EncSecurity, OptLE, Total, Octets;
    var L := LayoutMiddle(T, m);
    assert L == [L[0], L[1], L[2]] + [L[3]];
    OffsetsOf3(L[0], L[1], L[2], start);
    var q := start + Total([L[0], L[1], L[2]]);
    Cat([L[0], L[1], L[2]], [L[3]], start);
    OffsetsOfOne(L[0], start);
    OffsetsOfOne(L[1], start + L[0].n);
    OffsetsOfOne(L[2], start + L[0].n + L[1].n);
    Only(L[3], q);
  }

  method CalcDsms(T: Table, xs: seq<DataSetMessage>, b: OffsetBuffer?, start: nat) returns (size: nat)
    requires DsmsAre(T, xs)
    modifies if b == null then {} else {b}
    ensures size == start + DsmsSize(T, xs)
    ensures Recorded(b, LayoutDsms(T, xs, 0), start)
  {
    hide OffsetsOf, LayoutDsm, DsmSize, DsmTyped, DsmsAre, DsmsSize, LayoutDsms;
    size := start;
    var i := 0;
    assert xs[0..] == xs;
    while i < |xs|
      invariant i <= |xs| && DsmsAre(T, xs[i..])
      invariant size + DsmsSize(T, xs[i..]) == start + DsmsSize(T, xs)
      invariant b != null ==> b.buffer == old(b.buffer) && b.nm == old(b.nm)
      invariant b != null ==> b.offsets + OffsetsOf(LayoutDsms(T, xs[i..], i), size) ==
                              old(b.offsets) + OffsetsOf(LayoutDsms(T, xs, 0), start)
    {
      DsmsEntries(T, xs, i, size);
      if b != null {
        var end := CalcDsm(T, xs[i], i, b, size);
      }
      var n := CalcDsm(T, xs[i], i, null, 0);
      size := size + n;
      i := i + 1;
    }
    NoDsmEntries(T, i, size);
    assert xs[i..] == [];
  }

  lemma DsmsEntries(T: Table, xs: seq<DataSetMessage>, i: nat, pos: nat)
    requires i < |xs| && DsmsAre(T, xs[i..])
    ensures DsmTyped(T, xs[i]) && DsmsAre(T, xs[i + 1..])
    ensures DsmsSize(T, xs[i..]) == DsmSize(T, xs[i]) + DsmsSize(T, xs[i + 1..])
    ensures OffsetsOf(LayoutDsms(T, xs[i..], i), pos) ==
            OffsetsOf(LayoutDsm(T, xs[i], i), pos) + OffsetsOf(LayoutDsms(T, xs[i + 1..], i + 1), pos + DsmSize(T, xs[i]))
  {
    hide OffsetsOf, LayoutDsm, DsmSize, DsmTyped, Octets, Total, EncDsm;
    assert xs[i..][0] == xs[i] && xs[i..][1..] == xs[i + 1..];
    DsmOctets(T, xs[i], i);
    Cat(LayoutDsm(T, xs[i], i), LayoutDsms(T, xs[i + 1..], i + 1), pos);
  }

  lemma NoDsmEntries(T: Table, i: nat, pos: nat)
    ensures OffsetsOf(LayoutDsms(T, [], i), pos) == [] && DsmsSize(T, []) == 0
  {
  }

  /** The entries of a message's table: those of its layout, up to where the computation stops. */
  function Entries(T: Table, m: NetworkMessage, rt: bool): seq<Offset>
    requires NmTyped(T, m)
  {
    if m.messageType != DATASET then OffsetsOf(LayoutFront(m, rt) + LayoutGroup(m, rt) + LayoutMiddle(T, m), 0)
    else if m.payloadHeader == Some(NoWriterIds) then OffsetsOf(LayoutFront(m, rt) + LayoutGroup(m, rt), 0)
    else OffsetsOf(LayoutNm(T, m, rt), 0)
  }

  lemma EntriesParts(T: Table, m: NetworkMessage, rt: bool)
    requires NmTyped(T, m)
    ensures var p1 := |EncFlags(m)| + PublisherIdSize(m) + |EncClassId(m)|;
            var p2 := p1 + |EncGroup(m)|;
            var p3 := p2 + |EncPayloadHeader(m)|;
            var p4 := p3 + Total(LayoutMiddle(T, m));
            var front, group := OffsetsOf(LayoutFront(m, rt), 0), OffsetsOf(LayoutGroup(m, rt), p1);
            Entries(T, m, rt) ==
            if m.messageType != DATASET then front + group + OffsetsOf(LayoutMiddle(T, m), p2)
            else if m.payloadHeader == Some(NoWriterIds) then front + group
            else front + group + OffsetsOf(LayoutPayloadHeader(m, rt), p2) + OffsetsOf(LayoutMiddle(T, m), p3)
                 + OffsetsOf(LayoutDsms(T, m.messages, 0), p4 + SizesSize(m))
  {
    hide OffsetsOf, Octets, Total, EncFlags, PublisherIdSize, EncPublisherId, EncClassId, EncGroup, EncPayloadHeader, LayoutGroup,
         LayoutMiddle, LayoutDsms, LayoutPayloadHeader, NmTyped, EncSizes, SizesSize, EncTrailer, TrailerSize, EncDsms, DsmsSize;
    CountBound(T, m);
    FrontTotal(m, rt);
    GroupOctets(m, rt);
    var a, g, h := LayoutFront(m, rt), LayoutGroup(m, rt), LayoutPayloadHeader(m, rt);
    Cat(a, g, 0);
    Cat(a + g, LayoutMiddle(T, m), 0);
    if m.messageType == DATASET {
      PayloadHeaderOctets(m, rt);
      Cat(a + g, h, 0);
      Cat(a + g + h, LayoutMiddle(T, m), 0);
      Cat(a + g + h + LayoutMiddle(T, m), LayoutPayload(T, m), 0);
      PayloadEntries(T, m, Total(a + g + h + LayoutMiddle(T, m)));
    }
  }

  lemma FrontTotal(m: NetworkMessage, rt: bool)
    ensures Total(LayoutFront(m, rt)) == |EncFlags(m)| + PublisherIdSize(m) + |EncClassId(m)|
  {
    hide EncFlags, PublisherIdSize, EncPublisherId, EncClassId;
    var L := LayoutFront(m, rt);
    OctetsOf3(L[0], L[1], L[2]);
  }

  lemma PayloadEntries(T: Table, m: NetworkMessage, pos: nat)
    requires NmTyped(T, m)
    ensures OffsetsOf(LayoutPayload(T, m), pos) == OffsetsOf(LayoutDsms(T, m.messages, 0), pos + SizesSize(m))
  {
    hide OffsetsOf, Octets, Total, EncSizes, SizesSize, EncTrailer, TrailerSize, LayoutDsms, EncDsms, DsmsSize;
    var a, b, c := [Lit(EncSizes(T, m), SizesSize(m))], LayoutDsms(T, m.messages, 0), [Lit(EncTrailer(m), TrailerSize(m))];
    Cat(a, b, pos);
    Cat(a + b, c, pos);
    Only(a[0], pos);
    Only(c[0], pos + Total(a + b));
  }

  /** The size of a message; a table, if given, gets the message's entries and never changes the size. */
  method CalcNm(T: Table, m: NetworkMessage, b: OffsetBuffer?) returns (size: nat)
    requires NmTyped(T, m)
    modifies if b == null then {} else {b}
    ensures size == NmSize(T, m)
    ensures b != null ==> b.offsets == old(b.offsets) + Entries(T, m, Rt(b)) && b.buffer == old(b.buffer) && b.nm == old(b.nm)
  {
    hide OffsetsOf, Octets, Total, EncFlags, PublisherIdSize, EncPublisherId, EncClassId, EncGroup, EncPayloadHeader, LayoutGroup,
         LayoutMiddle, LayoutDsms, LayoutPayloadHeader, LayoutFront, NmTyped, SizesSize, TrailerSize, DsmsSize, Entries,
         VariantsSize, EncSecurity, MessageCount;
    EntriesParts(T, m, Rt(b));
    MiddleEntries(T, m, 0);
    CountBound(T, m);
    size := CalcFront(m, b);
    size := CalcGroup(m, b, size);
    if m.messageType == DATASET {
      if m.payloadHeader == Some(NoWriterIds) {
        return 0;
      }
      size := CalcPayloadHeader(m, b, size);
    }
    size := CalcRest(T, m, b, size);
  }

  function DsmEntries(T: Table, m: NetworkMessage, pos: nat): seq<Offset>
    requires NmTyped(T, m)
  {
    if m.messageType == DATASET then OffsetsOf(LayoutDsms(T, m.messages, 0), pos + SizesSize(m)) else []
  }

  method CalcRest(T: Table, m: NetworkMessage, b: OffsetBuffer?, start: nat) returns (size: nat)
    requires NmTyped(T, m)
    modifies if b == null then {} else {b}
    ensures size == start + Total(LayoutMiddle(T, m))
              + (if m.messageType == DATASET then SizesSize(m) + DsmsSize(T, m.messages) else 0) + TrailerSize(m)
    ensures b != null ==> b.buffer == old(b.buffer) && b.nm == old(b.nm)
    ensures b != null ==> b.offsets == old(b.offsets) + OffsetsOf(LayoutMiddle(T, m), start)
                                       + DsmEntries(T, m, start + Total(LayoutMiddle(T, m)))
  {
    hide OffsetsOf, Total, LayoutMiddle, LayoutDsms, NmTyped, SizesSize, TrailerSize, DsmsSize;
    size := CalcMiddle(T, m, b, start);
    NoEntries(size);
    size := CalcPayload(T, m, b, size);
  }

  lemma CountBound(T: Table, m: NetworkMessage)
    requires NmTyped(T, m)
    ensures MessageCount(m) < 256 && DsmsAre(T, m.messages)
  {
  }

  method CalcPayload(T: Table, m: NetworkMessage, b: OffsetBuffer?, start: nat) returns (size: nat)
    requires NmTyped(T, m)
    modifies if b == null then {} else {b}
    ensures size == start + (if m.messageType == DATASET then SizesSize(m) + DsmsSize(T, m.messages) else 0) + TrailerSize(m)
    ensures Recorded(b, if m.messageType == DATASET then LayoutDsms(T, m.messages, 0) else [],
                     start + if m.messageType == DATASET then SizesSize(m) else 0)
  {
    hide OffsetsOf, LayoutDsms, NmTyped, SizesSize, TrailerSize, DsmsSize;
    CountBound(T, m);
    NoEntries(start);
    size := start;
    if m.messageType == DATASET {
      size := size + SizesSize(m);
      size := CalcDsms(T, m.messages, b, size);
    }
    var trailer := CalcTrailer(m);
    size := size + trailer;
  }

  method CalcTrailer(m: NetworkMessage) returns (size: nat)
    ensures size == TrailerSize(m)
  {
    size := 0;
    if m.security.Some? {
      if m.security.value.footer.Some? { size := size + |m.security.value.footer.value|; }
      if m.security.value.signature.Some? { size := size + StrSize(m.security.value.signature.value); }
    }
  }
}
