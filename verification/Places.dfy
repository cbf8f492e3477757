/** What the offset table records: which entries there are, and what stands in the message at the place of each. */
module Places {
  import opened Bytes
  import opened Types
  import opened Wire
  import opened SizeOracle
  import opened NetworkMessage
  import opened Layout
  import opened NetworkSizes
  import opened NetworkCalc
  import opened Publisher
  import opened PublisherRefines

  /** m has what src refers to, and b is its encoding. Ids are for subscribers alone, and fields are those of key frames
      (type 0), as Variants (field encoding 0) or as DataValues (2). */
  ghost predicate Stands(T: Table, m: NetworkMessage, rt: bool, src: Source, b: bytes) {
    match src
    case PublisherIdAt => rt && m.publisherId.Some? && b == EncPublisherId(m)
    case WriterGroupIdAt =>
      rt && m.groupHeader.Some? && m.groupHeader.value.writerGroupId.Some? && b == LE(m.groupHeader.value.writerGroupId.value, 2)
    case NmSequenceAt =>
      m.groupHeader.Some? && m.groupHeader.value.sequenceNumber.Some? && b == LE(m.groupHeader.value.sequenceNumber.value, 2)
    case WriterIdAt =>
      && rt && m.payloadHeader.Some? && m.payloadHeader.value.WriterIds?
      && b == if m.payloadHeader.value.ids == [] then [] else LE(m.payloadHeader.value.ids[0], 2)
    case TimestampAt => m.timestamp.Some? && b == LE(m.timestamp.value, 8)
    case PicosecondsAt => m.picoseconds.Some? && b == LE(m.picoseconds.value, 2)
    case DsmSequenceAt(i) => i < |m.messages| && m.messages[i].sequenceNr.Some? && b == LE(m.messages[i].sequenceNr.value, 2)
    case VariantAt(i, j, ty) =>
      && i < |m.messages| && KeyField(T, m.messages[i], 0, j)
      && var x := m.messages[i].frame.fields[j].value;
      ty == (match x case Empty => None case Scalar(t, _) => Some(t) case Array(t, _, _) => Some(t)) && b == EncVariant(T, x)
    case DataValueAt(i, j) =>
      i < |m.messages| && KeyField(T, m.messages[i], 2, j) && b == EncData(T, m.messages[i].frame.fields[j])
  }

  ghost predicate KeyField(T: Table, x: DataSetMessage, encoding: u8, j: nat) {
    && x.messageType == 0 && x.fieldEncoding == encoding && x.frame.KeyFrame? && j < |x.frame.fields|
    && VariantTyped(T, x.frame.fields[j].value)
  }

  ghost predicate AllStand(T: Table, m: NetworkMessage, rt: bool, L: seq<Seg>) {
    forall y | y in L && y.src.Some? :: Stands(T, m, rt, y.src.value, y.b)
  }

  // ----- every entry stands for something -----

  lemma {:induction false} FieldsStand(T: Table, m: NetworkMessage, rt: bool, i: nat, j: nat)
    requires i < |m.messages| && DsmTyped(T, m.messages[i]) && HasEntries(m.messages[i])
    requires j <= |m.messages[i].frame.fields|
    ensures var x := m.messages[i]; AllStand(T, m, rt, LayoutFields(T, x.fieldEncoding, x.frame.fields[j..], i, j))
    decreases |m.messages[i].frame.fields| - j
  {
    hide EncVariant, EncData, KeyFieldSize, VariantTyped;
    var fs := m.messages[i].frame.fields;
    if j < |fs| {
      FieldsStand(T, m, rt, i, j + 1);
      assert fs[j..][0] == fs[j] && fs[j..][1..] == fs[j + 1..];
    }
  }

  lemma DsmStands(T: Table, m: NetworkMessage, rt: bool, i: nat)
    requires i < |m.messages| && DsmTyped(T, m.messages[i])
    ensures AllStand(T, m, rt, LayoutDsm(T, m.messages[i], i))
  {
    hide LayoutFields, EncFrame, FrameSize, DsmFlags, DsmHeaderRest, FieldsAre, DeltasAre, EncKeyField, LE;
    var x := m.messages[i];
    if HasEntries(x) {
      FieldsStand(T, m, rt, i, 0);
      assert x.frame.fields[0..] == x.frame.fields;
    }
  }

  lemma {:induction false} DsmsStand(T: Table, m: NetworkMessage, rt: bool, i: nat)
    requires i <= |m.messages| && DsmsAre(T, m.messages[i..])
    ensures AllStand(T, m, rt, LayoutDsms(T, m.messages[i..], i))
    decreases |m.messages| - i
  {
    hide LayoutDsm, DsmTyped, Stands;
    if i < |m.messages| {
      var xs := m.messages[i..];
      assert xs[0] == m.messages[i] && xs[1..] == m.messages[i + 1..];
      DsmStands(T, m, rt, i);
      DsmsStand(T, m, rt, i + 1);
    }
  }

  lemma HeadStands(T: Table, m: NetworkMessage, rt: bool)
    requires MessageCount(m) < 256
    ensures AllStand(T, m, rt, LayoutHead(m, rt))
  {
    hide LayoutFront, LayoutGroup, LayoutPayloadHeader, Stands;
    FrontStands(T, m, rt);
    GroupStands(T, m, rt);
    WritersStand(T, m, rt);
  }

  lemma FrontStands(T: Table, m: NetworkMessage, rt: bool)
    ensures AllStand(T, m, rt, LayoutFront(m, rt))
  {
    hide EncFlags, EncPublisherId, EncClassId, PublisherIdSize, LE, KeyField;
  }

  lemma GroupStands(T: Table, m: NetworkMessage, rt: bool)
    ensures AllStand(T, m, rt, LayoutGroup(m, rt))
  {
    hide GroupFlags, LE, KeyField, EncPublisherId;
  }

  lemma WritersStand(T: Table, m: NetworkMessage, rt: bool)
    requires MessageCount(m) < 256
    ensures AllStand(T, m, rt, LayoutPayloadHeader(m, rt))
  {
    hide LE, KeyField, EncPublisherId;
    var h := m.payloadHeader;
    if h.Some? && h.value.WriterIds? && h.value.ids != [] {
      assert h.value.ids[..1][1..] == [];
      assert EncU16s(h.value.ids[..1]) == LE(h.value.ids[0], 2);
    }
  }

  lemma MiddleStands(T: Table, m: NetworkMessage, rt: bool)
    requires NmTyped(T, m)
    ensures AllStand(T, m, rt, LayoutMiddle(T, m))
  {
    hide NmTyped, EncPromoted, EncSecurity, LE, VariantsSize;
  }

  lemma LayoutStands(T: Table, m: NetworkMessage, rt: bool)
    requires NmTyped(T, m)
    ensures AllStand(T, m, rt, LayoutNm(T, m, rt))
  {
    hide LayoutDsms, EncSizes, SizesSize, EncTrailer, TrailerSize, LayoutHead, LayoutMiddle, Stands, VariantsAre, IdTyped;
    assert m.messages[0..] == m.messages;
    DsmsStand(T, m, rt, 0);
    HeadStands(T, m, rt);
    MiddleStands(T, m, rt);
  }

  lemma {:induction false} PlaceOf(L: seq<Seg>, pre: bytes, o: Offset)
    requires Tight(L) && o in OffsetsOf(L, |pre|)
    ensures exists y :: y in L && y.src == Some(o.src) && At(pre + Octets(L), o.pos, y.b)
    decreases L
  {
    var x, rest := L[0], Octets(L[1..]);
    Glue(pre, x.b, rest);
    assert x in L && forall y | y in L[1..] :: y in L;
    if x.src.Some? && o == Offset(x.src.value, |pre|) {
      assert (pre + x.b + rest)[|pre|..|pre| + |x.b|] == x.b;
    } else {
      PlaceOf(L[1..], pre + x.b, o);
      var y :| y in L[1..] && y.src == Some(o.src) && At(pre + x.b + rest, o.pos, y.b);
    }
  }

  /** At the place of every entry stands the encoding of what the entry refers to. */
  lemma EntriesInPlace(T: Table, m: NetworkMessage, rt: bool, o: Offset)
    requires NmTyped(T, m) && NmOk(T, m) && Measured(T, m) && o in OffsetsOf(LayoutNm(T, m, rt), 0)
    ensures exists b :: Stands(T, m, rt, o.src, b) && At(EncNm(T, m), o.pos, b)
  {
    hide LayoutNm, EncNm, Stands, NmTyped, NmOk, Measured, Tight, OffsetsOf, Octets;
    LayoutTight(T, m, rt);
    LayoutOctets(T, m, rt);
    LayoutStands(T, m, rt);
    PlaceOf(LayoutNm(T, m, rt), [], o);
    assert [] + Octets(LayoutNm(T, m, rt)) == Octets(LayoutNm(T, m, rt));
  }

  // ----- everything that could have an entry has one -----

  lemma DsmComplete(T: Table, m: NetworkMessage, rt: bool, src: Source, b: bytes)
    requires Stands(T, m, rt, src, b) && (src.DsmSequenceAt? || src.VariantAt? || src.DataValueAt?)
    requires DsmTyped(T, m.messages[src.i])
    ensures Holds(LayoutDsm(T, m.messages[src.i], src.i), src)
  {
    hide LayoutFields, LayoutFrame, DsmFlags, DsmHeaderRest, OptLE, LE, EncVariant, EncData, DsmTyped, VariantTyped;
    var x := m.messages[src.i];
    if src.DsmSequenceAt? {
      var L := LayoutDsmHeader(x, src.i);
      assert L[1] in L && L[1].src == Some(src);
      HoldsCat(L, LayoutFrame(T, x, src.i), src);
    } else {
      DsmFieldEntry(T, x, src.i, src.j);
    }
  }

  lemma HeadComplete(T: Table, m: NetworkMessage, rt: bool, src: Source, b: bytes)
    requires MessageCount(m) < 256 && Stands(T, m, rt, src, b)
    requires src.PublisherIdAt? || src.WriterGroupIdAt? || src.NmSequenceAt? || src.WriterIdAt?
    ensures Holds(LayoutHead(m, rt), src)
  {
    hide EncFlags, EncPublisherId, EncClassId, GroupFlags, PublisherIdSize, LE, EncU16s, OptLE;
    var f, g, h := LayoutFront(m, rt), LayoutGroup(m, rt), LayoutPayloadHeader(m, rt);
    match src {
      case PublisherIdAt => assert f[1] in f;
      case WriterGroupIdAt => assert g[1] in g;
      case NmSequenceAt => assert g[4] in g;
      case WriterIdAt => assert h[1] in h;
    }
    HoldsIn(f, g, h, src);
  }

  lemma HoldsIn(a: seq<Seg>, b: seq<Seg>, c: seq<Seg>, src: Source)
    requires Holds(a, src) || Holds(b, src) || Holds(c, src)
    ensures Holds(a + b + c, src)
  {
    hide Holds;
    if !Holds(c, src) {
      HoldsCat(a, b, src);
    }
    HoldsCat(a + b, c, src);
  }

  lemma MiddleComplete(T: Table, m: NetworkMessage, rt: bool, src: Source, b: bytes)
    requires NmTyped(T, m) && Stands(T, m, rt, src, b) && (src.TimestampAt? || src.PicosecondsAt?)
    ensures Holds(LayoutMiddle(T, m), src)
  {
    hide NmTyped, EncPromoted, EncSecurity, LE, VariantsSize;
    var L := LayoutMiddle(T, m);
    assert L[0] in L && L[1] in L;
  }

  /** The table has an entry for everything it can refer to, and for nothing else. */
  lemma EntriesExact(T: Table, m: NetworkMessage, rt: bool, src: Source)
    requires NmTyped(T, m)
    ensures (exists o :: o in OffsetsOf(LayoutNm(T, m, rt), 0) && o.src == src) <==> (exists b :: Stands(T, m, rt, src, b))
  {
    hide LayoutNm, Stands, NmTyped, OffsetsOf;
    LayoutStands(T, m, rt);
    if o :| o in OffsetsOf(LayoutNm(T, m, rt), 0) && o.src == src {
      SegmentOfEntry(LayoutNm(T, m, rt), 0, o);
    }
    if b :| Stands(T, m, rt, src, b) {
      EntryExists(T, m, rt, src, b);
      var y :| y in LayoutNm(T, m, rt) && y.src == Some(src);
      EntryOfSegment(LayoutNm(T, m, rt), 0, y);
    }
  }

  lemma EntryExists(T: Table, m: NetworkMessage, rt: bool, src: Source, b: bytes)
    requires NmTyped(T, m) && Stands(T, m, rt, src, b)
    ensures Holds(LayoutNm(T, m, rt), src)
  {
    hide LayoutHead, LayoutMiddle, LayoutDsm, LayoutDsms, Holds, EncSizes, SizesSize, EncTrailer, TrailerSize, LE, EncVariant, EncData,
         DsmTyped, VariantsAre, IdTyped;
    var a, z := [Lit(EncSizes(T, m), SizesSize(m))], [Lit(EncTrailer(m), TrailerSize(m))];
    if src.DsmSequenceAt? || src.VariantAt? || src.DataValueAt? {
      DsmComplete(T, m, rt, src, b);
      DsmsHold(T, m.messages, 0, src.i, src);
      HoldsIn(a, LayoutDsms(T, m.messages, 0), z, src);
    } else if src.TimestampAt? || src.PicosecondsAt? {
      MiddleComplete(T, m, rt, src, b);
    } else {
      HeadComplete(T, m, rt, src, b);
    }
    HoldsIn(LayoutHead(m, rt), LayoutMiddle(T, m), LayoutPayload(T, m), src);
  }
}
