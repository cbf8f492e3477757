/** A NetworkMessage as a list of segments: the octets that never change between two publications, and
    the places the offset table records. */
module Layout {
  import opened Bytes
  import opened Types
  import opened Wire
  import opened SizeOracle
  import opened NetworkMessage

  /** What an offset-table entry refers to. A Variant entry has captured its field's type. */
  datatype Source =
    | PublisherIdAt | WriterGroupIdAt | NmSequenceAt | WriterIdAt | TimestampAt | PicosecondsAt
    | DsmSequenceAt(i: nat) | VariantAt(i: nat, j: nat, ty: Option<nat>) | DataValueAt(i: nat, j: nat)

  datatype Offset = Offset(src: Source, pos: nat)

  /** Octets, the size the oracle gives them, and the entry recorded for them. */
  datatype Seg = Seg(src: Option<Source>, b: bytes, n: nat)

  function Lit(b: bytes, n: nat): Seg {
    Seg(None, b, n)
  }

  function Octets(L: seq<Seg>): bytes {
    if L == [] then [] else L[0].b + Octets(L[1..])
  }

  function Total(L: seq<Seg>): nat {
    if L == [] then 0 else L[0].n + Total(L[1..])
  }

  function OffsetsOf(L: seq<Seg>, pos: nat): seq<Offset> {
    if L == [] then []
    else (if L[0].src.Some? then [Offset(L[0].src.value, pos)] else []) + OffsetsOf(L[1..], pos + L[0].n)
  }

  lemma {:induction false} Cat(a: seq<Seg>, b: seq<Seg>, pos: nat)
    ensures Octets(a + b) == Octets(a) + Octets(b) && Total(a + b) == Total(a) + Total(b)
    ensures OffsetsOf(a + b, pos) == OffsetsOf(a, pos) + OffsetsOf(b, pos + Total(a))
    decreases a
  {
    hide Octets, Total, OffsetsOf;
    if a == [] {
      assert a + b == b;
      NoSegments(pos);
    } else {
      assert (a + b)[0] == a[0] && (a + b)[1..] == a[1..] + b;
      Cat(a[1..], b, pos + a[0].n);
      FirstSegment(a, pos);
      FirstSegment(a + b, pos);
      Regroup(a[0].b, Octets(a[1..]), Octets(b));
      Regroup(OffsetsOf([a[0]], pos), OffsetsOf(a[1..], pos + a[0].n), OffsetsOf(b, pos + Total(a)));
    }
  }

  lemma NoSegments(pos: nat)
    ensures Octets([]) == [] && Total([]) == 0 && OffsetsOf([], pos) == []
  {
  }

  lemma FirstSegment(L: seq<Seg>, pos: nat)
    requires L != []
    ensures Octets(L) == L[0].b + Octets(L[1..]) && Total(L) == L[0].n + Total(L[1..])
    ensures OffsetsOf(L, pos) == OffsetsOf([L[0]], pos) + OffsetsOf(L[1..], pos + L[0].n)
  {
    assert [L[0]][1..] == [];
  }

  lemma Regroup<A>(a: seq<A>, b: seq<A>, c: seq<A>)
    ensures a + b + c == a + (b + c)
  {
  }

  lemma Only(x: Seg, pos: nat)
    ensures Octets([x]) == x.b && Total([x]) == x.n
    ensures OffsetsOf([x], pos) == if x.src.Some? then [Offset(x.src.value, pos)] else []
  {
    assert [x][1..] == [];
  }

  // ----- the layout of a message -----

  function When(on: bool, src: Source): Option<Source> {
    if on then Some(src) else None
  }

  function LayoutGroup(m: NetworkMessage, rt: bool): seq<Seg> {
    match m.groupHeader
    case None => []
    case Some(g) =>
      [Lit([GroupFlags(g)], 1),
       Seg(When(rt && g.writerGroupId.Some?, WriterGroupIdAt), OptLE(g.writerGroupId, 2), OptSize(g.writerGroupId, 2)),
       Lit(OptLE(g.groupVersion, 4), OptSize(g.groupVersion, 4)),
       Lit(OptLE(g.networkMessageNumber, 2), OptSize(g.networkMessageNumber, 2)),
       Seg(When(g.sequenceNumber.Some?, NmSequenceAt), OptLE(g.sequenceNumber, 2), OptSize(g.sequenceNumber, 2))]
  }

  /** The entry for the writer ids points at the first of them. */
  function LayoutPayloadHeader(m: NetworkMessage, rt: bool): seq<Seg>
    requires MessageCount(m) < 256
  {
    if m.payloadHeader.Some? && m.payloadHeader.value.WriterIds? then
      var ids := m.payloadHeader.value.ids;
      var k := if |ids| == 0 then 0 else 1;
      [Lit([|ids|], 1), Seg(When(rt, WriterIdAt), EncU16s(ids[..k]), 2 * k), Lit(EncU16s(ids[k..]), 2 * (|ids| - k))]
    else []
  }

  function LayoutFront(m: NetworkMessage, rt: bool): seq<Seg> {
    [Lit(EncFlags(m), |EncFlags(m)|),
     Seg(When(rt && m.publisherId.Some?, PublisherIdAt), EncPublisherId(m), PublisherIdSize(m)),
     Lit(EncClassId(m), |EncClassId(m)|)]
  }

  function LayoutHead(m: NetworkMessage, rt: bool): seq<Seg>
    requires MessageCount(m) < 256
  {
    LayoutFront(m, rt) + LayoutGroup(m, rt) + LayoutPayloadHeader(m, rt)
  }

  function LayoutMiddle(T: Table, m: NetworkMessage): seq<Seg>
    requires NmTyped(T, m)
  {
    [Seg(When(m.timestamp.Some?, TimestampAt), OptLE(m.timestamp, 8), OptSize(m.timestamp, 8)),
     Seg(When(m.picoseconds.Some?, PicosecondsAt), OptLE(m.picoseconds, 2), OptSize(m.picoseconds, 2)),
     Lit(EncPromoted(T, m), if m.promoted.Some? then 2 + VariantsSize(T, m.promoted.value) else 0),
     Lit(EncSecurity(m), |EncSecurity(m)|)]
  }

  function CapturedType(x: Variant): Option<nat> {
    if x.Empty? then None else Some(x.ty)
  }

  function FieldSource(encoding: u8, f: DataValue, i: nat, j: nat): Source {
    if encoding == ENC_VARIANT then VariantAt(i, j, CapturedType(f.value)) else DataValueAt(i, j)
  }

  function LayoutFields(T: Table, encoding: u8, fs: seq<DataValue>, i: nat, j: nat): seq<Seg>
    requires FieldsAre(T, fs)
    decreases fs
  {
    if fs == [] then []
    else [Seg(Some(FieldSource(encoding, fs[0], i, j)), EncKeyField(T, encoding, fs[0]), KeyFieldSize(T, encoding, fs[0]))]
         + LayoutFields(T, encoding, fs[1..], i, j + 1)
  }

  /** Only key frames with encoded fields have entries. */
  predicate HasEntries(x: DataSetMessage) {
    x.messageType == DATAKEYFRAME && HasFields(x.fieldEncoding)
  }

  function LayoutFrame(T: Table, x: DataSetMessage, i: nat): seq<Seg>
    requires DsmTyped(T, x)
  {
    if HasEntries(x) then [Lit(LE(|x.frame.fields|, 2), 2)] + LayoutFields(T, x.fieldEncoding, x.frame.fields, i, 0)
    else [Lit(EncFrame(T, x), FrameSize(T, x))]
  }

  function LayoutDsmHeader(x: DataSetMessage, i: nat): seq<Seg> {
    [Lit(DsmFlags(x), |DsmFlags(x)|),
     Seg(When(x.sequenceNr.Some?, DsmSequenceAt(i)), OptLE(x.sequenceNr, 2), OptSize(x.sequenceNr, 2)),
     Lit(DsmHeaderRest(x), |DsmHeaderRest(x)|)]
  }

  function LayoutDsm(T: Table, x: DataSetMessage, i: nat): seq<Seg>
    requires DsmTyped(T, x)
  {
    LayoutDsmHeader(x, i) + LayoutFrame(T, x, i)
  }

  function LayoutDsms(T: Table, xs: seq<DataSetMessage>, i: nat): seq<Seg>
    requires DsmsAre(T, xs)
    decreases xs
  {
    if xs == [] then [] else LayoutDsm(T, xs[0], i) + LayoutDsms(T, xs[1..], i + 1)
  }

  function LayoutPayload(T: Table, m: NetworkMessage): seq<Seg>
    requires NmTyped(T, m)
  {
    [Lit(EncSizes(T, m), SizesSize(m))] + LayoutDsms(T, m.messages, 0) + [Lit(EncTrailer(m), TrailerSize(m))]
  }

  /** rt: whether the entries only a subscriber needs are recorded. */
  function LayoutNm(T: Table, m: NetworkMessage, rt: bool): seq<Seg>
    requires NmTyped(T, m)
  {
    LayoutHead(m, rt) + LayoutMiddle(T, m) + LayoutPayload(T, m)
  }

  // ----- the layout's octets are the encoding, its total the oracle's answer -----

  lemma OctetsOf3(a: Seg, b: Seg, c: Seg)
    ensures Octets([a, b, c]) == a.b + b.b + c.b && Total([a, b, c]) == a.n + b.n + c.n
  {
    assert [a, b, c] == [a] + [b] + [c];
    Cat([a], [b], 0);
    Cat([a] + [b], [c], 0);
    Only(a, 0);
    Only(b, 0);
    Only(c, 0);
  }

  lemma OctetsOf4(a: Seg, b: Seg, c: Seg, d: Seg)
    ensures Octets([a, b, c, d]) == a.b + b.b + c.b + d.b && Total([a, b, c, d]) == a.n + b.n + c.n + d.n
  {
    assert [a, b, c, d] == [a, b, c] + [d];
    OctetsOf3(a, b, c);
    Cat([a, b, c], [d], 0);
    Only(d, 0);
  }

  lemma GroupOctets(m: NetworkMessage, rt: bool)
    ensures Octets(LayoutGroup(m, rt)) == EncGroup(m) && Total(LayoutGroup(m, rt)) == |EncGroup(m)|
  {
    hide LE, GroupFlags;
    if m.groupHeader.Some? {
      var L := LayoutGroup(m, rt);
      assert L == [L[0], L[1], L[2], L[3]] + [L[4]];
      OctetsOf4(L[0], L[1], L[2], L[3]);
      Cat([L[0], L[1], L[2], L[3]], [L[4]], 0);
      Only(L[4], 0);
    }
  }

  lemma {:induction false} U16sCat(a: seq<u16>, b: seq<u16>)
    ensures EncU16s(a + b) == EncU16s(a) + EncU16s(b)
    decreases a
  {
    if a == [] {
      assert a + b == b;
    } else {
      assert (a + b)[1..] == a[1..] + b;
      U16sCat(a[1..], b);
    }
  }

  lemma PayloadHeaderOctets(m: NetworkMessage, rt: bool)
    requires MessageCount(m) < 256
    ensures Octets(LayoutPayloadHeader(m, rt)) == EncPayloadHeader(m)
    ensures Total(LayoutPayloadHeader(m, rt)) == |EncPayloadHeader(m)|
  {
    if m.payloadHeader.Some? && m.payloadHeader.value.WriterIds? {
      var L, ids := LayoutPayloadHeader(m, rt), m.payloadHeader.value.ids;
      var k := if |ids| == 0 then 0 else 1;
      OctetsOf3(L[0], L[1], L[2]);
      U16sCat(ids[..k], ids[k..]);
      assert ids == ids[..k] + ids[k..];
    }
  }

  lemma HeadOctets(m: NetworkMessage, rt: bool)
    requires MessageCount(m) < 256
    ensures Octets(LayoutHead(m, rt)) == EncHead(m)
    ensures Total(LayoutHead(m, rt)) ==
            |EncFlags(m)| + PublisherIdSize(m) + |EncClassId(m)| + |EncGroup(m)| + |EncPayloadHeader(m)|
  {
    hide EncFlags, EncPublisherId, EncClassId, EncGroup, EncPayloadHeader, PublisherIdSize, LayoutGroup, LayoutPayloadHeader;
    var L := LayoutFront(m, rt);
    OctetsOf3(L[0], L[1], L[2]);
    GroupOctets(m, rt);
    PayloadHeaderOctets(m, rt);
    Cat(L, LayoutGroup(m, rt), 0);
    Cat(L + LayoutGroup(m, rt), LayoutPayloadHeader(m, rt), 0);
  }

  lemma {:induction false} FieldsOctets(T: Table, encoding: u8, fs: seq<DataValue>, i: nat, j: nat)
    requires FieldsAre(T, fs)
    ensures Octets(LayoutFields(T, encoding, fs, i, j)) == EncKeyFields(T, encoding, fs)
    ensures Total(LayoutFields(T, encoding, fs, i, j)) == KeyFieldsSize(T, encoding, fs)
    decreases fs
  {
    hide EncKeyField, KeyFieldSize;
    if fs != [] {
      var x := LayoutFields(T, encoding, fs, i, j)[0];
      FieldsOctets(T, encoding, fs[1..], i, j + 1);
      Cat([x], LayoutFields(T, encoding, fs[1..], i, j + 1), 0);
      Only(x, 0);
    }
  }

  lemma DsmOctets(T: Table, x: DataSetMessage, i: nat)
    requires DsmTyped(T, x)
    ensures Octets(LayoutDsm(T, x, i)) == EncDsm(T, x) && Total(LayoutDsm(T, x, i)) == DsmSize(T, x)
  {
    hide DsmFlags, DsmHeaderRest, OptLE, LayoutFrame, EncFrame, FrameSize, Octets, Total, OffsetsOf;
    var L := LayoutDsmHeader(x, i);
    OctetsOf3(L[0], L[1], L[2]);
    Cat(L, LayoutFrame(T, x, i), 0);
    FrameOctets(T, x, i);
    OptLength(x.sequenceNr, 2);
  }

  lemma OptLength(x: Option<nat>, w: nat)
    ensures |OptLE(x, w)| == OptSize(x, w)
  {
  }

  lemma FrameOctets(T: Table, x: DataSetMessage, i: nat)
    requires DsmTyped(T, x)
    ensures Octets(LayoutFrame(T, x, i)) == EncFrame(T, x) && Total(LayoutFrame(T, x, i)) == FrameSize(T, x)
  {
    hide EncKeyFields, KeyFieldsSize, LayoutFields, EncDeltaFields, DeltaFieldsSize, LE, FieldsAre;
    if HasEntries(x) {
      var fs := x.frame.fields;
      FieldsOctets(T, x.fieldEncoding, fs, i, 0);
      Only(Lit(LE(|fs|, 2), 2), 0);
      Cat([Lit(LE(|fs|, 2), 2)], LayoutFields(T, x.fieldEncoding, fs, i, 0), 0);
    } else {
      Only(Lit(EncFrame(T, x), FrameSize(T, x)), 0);
    }
  }

  lemma {:induction false} DsmsOctets(T: Table, xs: seq<DataSetMessage>, i: nat)
    requires DsmsAre(T, xs)
    ensures Octets(LayoutDsms(T, xs, i)) == EncDsms(T, xs) && Total(LayoutDsms(T, xs, i)) == DsmsSize(T, xs)
    decreases xs
  {
    hide LayoutDsm, EncDsm, DsmSize, DsmTyped;
    if xs != [] {
      DsmOctets(T, xs[0], i);
      DsmsOctets(T, xs[1..], i + 1);
      Cat(LayoutDsm(T, xs[0], i), LayoutDsms(T, xs[1..], i + 1), 0);
    }
  }

  lemma PayloadOctets(T: Table, m: NetworkMessage)
    requires NmTyped(T, m)
    ensures Octets(LayoutPayload(T, m)) == EncPayload(T, m)
    ensures Total(LayoutPayload(T, m)) == SizesSize(m) + DsmsSize(T, m.messages) + TrailerSize(m)
  {
    hide EncSizes, EncDsms, EncTrailer, SizesSize, DsmsSize, TrailerSize, LayoutDsms;
    var a, b, c := [Lit(EncSizes(T, m), SizesSize(m))], LayoutDsms(T, m.messages, 0), [Lit(EncTrailer(m), TrailerSize(m))];
    DsmsOctets(T, m.messages, 0);
    Cat(a, b, 0);
    Cat(a + b, c, 0);
    Only(a[0], 0);
    Only(c[0], 0);
  }

  lemma MiddleOctets(T: Table, m: NetworkMessage)
    requires NmTyped(T, m)
    ensures Octets(LayoutMiddle(T, m)) == EncMiddle(T, m)
    ensures Total(LayoutMiddle(T, m)) == OptSize(m.timestamp, 8) + OptSize(m.picoseconds, 2)
              + (if m.promoted.Some? then 2 + VariantsSize(T, m.promoted.value) else 0) + |EncSecurity(m)|
  {
    hide EncPromoted, EncSecurity, OptLE, VariantsSize;
    var L := LayoutMiddle(T, m);
    OctetsOf4(L[0], L[1], L[2], L[3]);
  }

  lemma LayoutOctets(T: Table, m: NetworkMessage, rt: bool)
    requires NmTyped(T, m)
    ensures Octets(LayoutNm(T, m, rt)) == EncNm(T, m)
    ensures m.messageType == DATASET && m.payloadHeader != Some(NoWriterIds) ==> Total(LayoutNm(T, m, rt)) == NmSize(T, m)
  {
    hide LayoutHead, LayoutMiddle, LayoutPayload, EncHead, EncMiddle, EncPayload, EncFlags, PublisherIdSize, EncClassId,
         EncGroup, EncPayloadHeader, VariantsSize, EncSecurity, SizesSize, DsmsSize, TrailerSize;
    HeadOctets(m, rt);
    MiddleOctets(T, m);
    PayloadOctets(T, m);
    Cat(LayoutHead(m, rt), LayoutMiddle(T, m), 0);
    Cat(LayoutHead(m, rt) + LayoutMiddle(T, m), LayoutPayload(T, m), 0);
  }
}
