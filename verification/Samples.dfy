/** Encodings octet by octet, and messages that meet the hypotheses of the theorems. */
module Samples {
  import opened Bytes
  import opened Types
  import opened Wire
  import opened Parse
  import opened Survival
  import opened WireFormat
  import opened SizeOracle
  import opened Framing
  import opened Prefixes
  import opened NetworkMessage
  import opened NetworkParse
  import opened NetworkFaithful
  import opened NetworkPrefixes
  import opened NetworkSizes
  import opened Layout
  import opened NetworkCalc
  import opened Publisher
  import opened PublisherRefines
  import opened SubscriberRefines

  // ----- NodeIds: each form -----

  const TEXT: bytes := [72, 111, 116]

  lemma NodeOctets()
    ensures EncNode(NodeId(0, Numeric(72))) == [0, 72]
    ensures EncNode(NodeId(5, Numeric(1025))) == [1, 5, 1, 4]
    ensures EncNode(NodeId(0x102, Numeric(7))) == [2, 2, 1, 7, 0, 0, 0]
    ensures EncNode(NodeId(1, StringId(Str(TEXT)))) == [3, 1, 0, 3, 0, 0, 0, 72, 111, 116]
    ensures EncNode(NodeId(1, ByteStringId(NoStr))) == [5, 1, 0, 255, 255, 255, 255]
  {
    hide LE, NodeByte;
    NodeBytes(0, false, false);
    NodeBytes(1, false, false);
    NodeBytes(2, false, false);
    NodeBytes(3, false, false);
    NodeBytes(5, false, false);
    Two(1025);
    Two(0x102);
    Small(7);
    Small(1);
    Small(3);
    Ones();
  }

  /** A uri sets bit 7 of the first octet and a server index bit 6; both follow the NodeId. */
  lemma ExpandedOctets()
    ensures EncExpanded(NodeId(0, Numeric(72)), Str(TEXT), 4) == [0xC0, 72, 3, 0, 0, 0, 72, 111, 116, 4, 0, 0, 0]
  {
    hide LE, NodeByte;
    NodeBytes(0, true, true);
    Small(3);
    Small(4);
  }

  // ----- values -----

  lemma IntTyped(T: Table, n: u32)
    ensures HasType(T, INT32, Fixed(n)) && Enc(T, INT32, Fixed(n)) == LE(n, 4) && !Wrapped(T, INT32) && VariantKind(T, INT32) == INT32
  {
    hide LE;
    Pow256Values();
  }

  lemma ScalarOctets(T: Table, n: u8)
    ensures VariantTyped(T, Scalar(INT32, Fixed(n))) && EncVariant(T, Scalar(INT32, Fixed(n))) == [6, n, 0, 0, 0]
  {
    hide LE, Enc, HasType, Wrapped, VariantKind;
    IntTyped(T, n);
    Small(n);
  }

  lemma ArrayMarks()
    ensures Mark(Mark(6, 7, true), 6, false) == 0x86 && Mark(Mark(6, 7, true), 6, true) == 0xC6
  {
    hide Mark, Pow2, Has;
    Powers();
    MarkTop(6, 7, true);
    HighBits(6, 6, 6);
    MarkHas(6, 7, true, 6);
    MarkAdds(Mark(6, 7, true), 6, false);
    MarkAdds(Mark(6, 7, true), 6, true);
  }

  /** A missing array and an empty one are different. */
  lemma NoArrayOctets(T: Table)
    ensures EncVariant(T, Array(INT32, NoArr, [])) == [0x86, 255, 255, 255, 255]
    ensures EncVariant(T, Array(INT32, Arr([]), [])) == [0x86, 0, 0, 0, 0]
  {
    hide LE, Enc, HasType, Wrapped, VariantKind, Mark;
    IntTyped(T, 0);
    ArrayMarks();
    Small(0);
    Ones();
  }

  lemma TwoElements(T: Table, a: u8, b: u8)
    ensures ElemsTyped(T, INT32, [Fixed(a), Fixed(b)])
    ensures EncElems(T, INT32, [Fixed(a), Fixed(b)]) == [a, 0, 0, 0] + [b, 0, 0, 0]
  {
    hide LE, Enc, HasType;
    IntTyped(T, a);
    IntTyped(T, b);
    Small(a);
    Small(b);
    var es := [Fixed(a), Fixed(b)];
    assert es[1..] == [Fixed(b)] && es[1..][1..] == [];
    assert ElemsTyped(T, INT32, es[1..]);
    assert EncElems(T, INT32, es[1..]) == Enc(T, INT32, Fixed(b)) + EncElems(T, INT32, []);
  }

  /** Encoding byte with both flags, length, elements, number of dimensions, dimensions. */
  lemma ArrayOctets(T: Table, a: u8, b: u8)
    ensures VariantTyped(T, Array(INT32, Arr([Fixed(a), Fixed(b)]), [2]))
    ensures EncVariant(T, Array(INT32, Arr([Fixed(a), Fixed(b)]), [2])) ==
            [0xC6] + [2, 0, 0, 0] + ([a, 0, 0, 0] + [b, 0, 0, 0]) + ([1, 0, 0, 0] + [2, 0, 0, 0])
  {
    hide LE, Enc, HasType, Wrapped, VariantKind, Mark, EncElems, ElemsTyped;
    IntTyped(T, 0);
    TwoElements(T, a, b);
    ArrayMarks();
    Small(1);
    Small(2);
    assert EncU32s([2]) == LE(2, 4) + EncU32s([2][1..]) && [2][1..] == [];
    var es, first: bytes := EncElems(T, INT32, [Fixed(a), Fixed(b)]), [0xC6];
    assert EncContent(T, INT32, Arr([Fixed(a), Fixed(b)])) == [2, 0, 0, 0] + es;
    assert first + ([2, 0, 0, 0] + es) == first + [2, 0, 0, 0] + es;
  }

  /** Status, source time, source picoseconds, server time and server picoseconds, in this order. */
  lemma StampOctets(a: u8, b: u8, c: u8, d: u8, e: u8)
    ensures EncStamps(DataValue(false, Empty, Some(a), Some(b), Some(c), Some(d), Some(e))) ==
            [a, 0, 0, 0] + [b, 0, 0, 0, 0, 0, 0, 0] + [c, 0] + [d, 0, 0, 0, 0, 0, 0, 0] + [e, 0]
    ensures DataByte(DataValue(false, Empty, Some(a), Some(b), Some(c), Some(d), Some(e))) == 0x3E
  {
    hide LE, Mark, Pow2;
    Small(a);
    Small(b);
    Small(c);
    Small(d);
    Small(e);
    Powers();
    NotMarked(0, 0);
    MarkTop(0, 1, true);
    MarkTop(2, 2, true);
    MarkTop(6, 3, true);
    MarkTop(14, 4, true);
    MarkTop(30, 5, true);
  }

  // ----- a message that meets every hypothesis -----

  const BUILTINS: Table := BuiltinsOnly()

  /** Over the built-in types alone no ExtensionObject has slack, and no decode ends beyond the source. */
  lemma BuiltinsFit(d: nat)
    ensures WidthsAgree(BUILTINS) && !HollowTable(BUILTINS, d)
  {
    forall ty | 0 <= ty < |BUILTINS| ensures WidthGap(BUILTINS, ty) == 0 {
      GapIsClass(BUILTINS, ty);
    }
    forall t: nat | t < |BUILTINS| ensures !Hollow(BUILTINS, t, d) {
      assert BUILTINS[t].kind == t;
    }
  }

  /** Publisher 7, writer group 100, sequence number nr, writer 62, one Int32 field. */
  function Reading(nr: u8, n: u8): NetworkMessage {
    NetworkMessage(1, 0, Some(IdNumber(7)), None, Some(GroupHeader(Some(100), None, None, Some(nr))), Some(WriterIds([62])),
                   None, None, false, DATASET, None, None, None, [ReadingDsm(n)])
  }

  function ReadingDsm(n: u8): DataSetMessage {
    DataSetMessage(true, ENC_VARIANT, DATAKEYFRAME, None, None, None, None, None, None,
                   KeyFrame([ValueOnly(Scalar(INT32, Fixed(n)))]))
  }

  lemma ReadingTyped(T: Table, n: u8)
    ensures DsmTyped(T, ReadingDsm(n)) && DsmOk(T, ReadingDsm(n)) && CanonDsm(T, ReadingDsm(n)) == ReadingDsm(n)
    ensures forall r: nat {:trigger DsmSurvives(T, ReadingDsm(n), r)} :: DsmSurvives(T, ReadingDsm(n), r)
  {
    hide VariantOk, VariantTyped, NormVariant, VariantSurvives, EncVariant;
    IntOk(T, n);
    var x := ReadingDsm(n);
    var fs := x.frame.fields;
    assert fs[1..] == [] && fs[0].value == Scalar(INT32, Fixed(n));
    assert FieldsAre(T, fs);
    assert KeyFieldsOk(T, ENC_VARIANT, fs);
    assert CanonFields(T, ENC_VARIANT, fs) == [CanonField(T, ENC_VARIANT, fs[0])] + CanonFields(T, ENC_VARIANT, []);
    assert CanonField(T, ENC_VARIANT, fs[0]) == fs[0];
    forall r: nat ensures DsmSurvives(T, x, r) {
      assert KeyFieldsSurvive(T, ENC_VARIANT, fs[1..], r);
      assert KeyFieldSurvives(T, ENC_VARIANT, fs[0], |EncKeyFields(T, ENC_VARIANT, fs[1..])| + r);
    }
  }

  lemma ReadingFrame(T: Table, n: u8)
    ensures DsmTyped(T, ReadingDsm(n)) && EncDsm(T, ReadingDsm(n)) == [1] + [1, 0] + [6, n, 0, 0, 0]
  {
    hide LE, Mark, VariantTyped, EncVariant, DsmOk;
    ReadingTyped(T, n);
    ScalarOctets(T, n);
    Small(1);
    var x := ReadingDsm(n);
    var fs := x.frame.fields;
    assert fs[1..] == [];
    assert DsmFlags1(x) == 1 by { FlagOne(); }
    assert EncKeyFields(T, ENC_VARIANT, fs) == EncKeyField(T, ENC_VARIANT, fs[0]) + EncKeyFields(T, ENC_VARIANT, []);
    assert DsmHeaderRest(x) == [] && DsmHeader(x) == [1];
    assert EncFrame(T, x) == [1, 0] + [6, n, 0, 0, 0];
    assert [1] + ([1, 0] + [6, n, 0, 0, 0]) == [1] + [1, 0] + [6, n, 0, 0, 0];
  }

  lemma FlagOne()
    ensures Mark(Mark(Mark(Mark(Mark(Mark(0, 0, true), 3, false), 4, false), 5, false), 6, false), 7, false) == 1
  {
    hide Mark, Pow2;
    Powers();
    MarkTop(0, 0, true);
    NotMarked(1, 3);
    NotMarked(1, 4);
    NotMarked(1, 5);
    NotMarked(1, 6);
    NotMarked(1, 7);
  }

  lemma IntOk(T: Table, n: u8)
    ensures VariantTyped(T, Scalar(INT32, Fixed(n))) && VariantOk(T, Scalar(INT32, Fixed(n)), 0)
    ensures NormVariant(T, Scalar(INT32, Fixed(n))) == Scalar(INT32, Fixed(n))
    ensures forall r: nat {:trigger VariantSurvives(T, Scalar(INT32, Fixed(n)), r, 0)} :: VariantSurvives(T, Scalar(INT32, Fixed(n)), r, 0)
  {
    hide LE;
    IntTyped(T, n);
  }

  lemma ReadingFits(T: Table, nr: u8, n: u8)
    ensures NmTyped(T, Reading(nr, n)) && NmOk(T, Reading(nr, n)) && CanonNm(T, Reading(nr, n)) == Reading(nr, n)
  {
    hide DsmTyped, DsmOk, CanonDsm, EncDsm, SentSizes, Pow256;
    ReadingTyped(T, n);
    Pow256Values();
    var m := Reading(nr, n);
    var xs := m.messages;
    assert xs[1..] == [] && DsmsAre(T, xs);
    assert NmTyped(T, m);
    assert DsmsOk(T, xs[1..]) && DsmsOk(T, xs);
    assert CanonDsms(T, xs) == [CanonDsm(T, xs[0])] + CanonDsms(T, []);
    assert CanonDsms(T, xs) == xs;
  }

  lemma ReadingFlags(nr: u8, n: u8)
    ensures EncFlags(Reading(nr, n)) == [0x71] && GroupFlags(Reading(nr, n).groupHeader.value) == 9
  {
    hide Mark, Pow2;
    Powers();
    MarkTop(1, 4, true);
    MarkTop(17, 5, true);
    MarkTop(49, 6, true);
    NotMarked(113, 7);
    MarkTop(0, 0, true);
    NotMarked(1, 1);
    NotMarked(1, 2);
    MarkTop(1, 3, true);
  }

  lemma ReadingHead(nr: u8, n: u8)
    ensures EncHead(Reading(nr, n)) == [0x71, 7] + [9, 100, 0, nr, 0] + [1, 62, 0]
  {
    hide LE, EncFlags, GroupFlags, EncU16s;
    ReadingFlags(nr, n);
    Small(7);
    Small(100);
    Small(nr);
    OneU16(62);
    assert EncGroup(Reading(nr, n)) == [9, 100, 0, nr, 0];
    assert EncFlags(Reading(nr, n)) + EncPublisherId(Reading(nr, n)) + EncClassId(Reading(nr, n)) == [0x71, 7];
  }

  lemma OneU16(n: u8)
    ensures EncU16s([n]) == [n, 0]
  {
    hide LE;
    Small(n);
    assert EncU16s([n]) == LE(n, 2) + EncU16s([n][1..]) && [n][1..] == [];
  }

  /** Version and flags, publisher id, group header, payload header, DataSetMessage. */
  lemma ReadingOctets(T: Table, nr: u8, n: u8)
    ensures NmTyped(T, Reading(nr, n))
    ensures EncNm(T, Reading(nr, n)) == [0x71, 7] + [9, 100, 0, nr, 0] + [1, 62, 0] + [1, 1, 0, 6, n, 0, 0, 0]
  {
    hide EncDsm, EncHead, NmTyped, DsmTyped, NmOk, CanonNm, EncDsms, EncMiddle, EncPayload;
    ReadingFits(T, nr, n);
    ReadingHead(nr, n);
    ReadingParts(T, nr, n);
  }

  lemma ReadingParts(T: Table, nr: u8, n: u8)
    requires NmTyped(T, Reading(nr, n))
    ensures EncMiddle(T, Reading(nr, n)) == [] && EncPayload(T, Reading(nr, n)) == [1, 1, 0, 6, n, 0, 0, 0]
  {
    hide EncDsm, NmTyped, DsmTyped, EncDsms, SentSizes, EncU16s, LE, DsmsAre;
    var m := Reading(nr, n);
    ReadingFrame(T, n);
    NmDsms(T, m);
    DsmAlone(T, m.messages);
    Eight(n);
  }

  lemma Eight(n: u8)
    ensures [1] + [1, 0] + [6, n, 0, 0, 0] == [1, 1, 0, 6, n, 0, 0, 0]
  {
  }

  lemma ReadingSurvives(T: Table, nr: u8, n: u8, r: nat)
    ensures NmTyped(T, Reading(nr, n)) && NmSurvives(T, Reading(nr, n), r)
  {
    hide DsmSurvives, DsmTyped, NmTyped, EncDsm, EncTrailer, NmOk, DsmsSurvive, CanonNm, EncPayload;
    ReadingFits(T, nr, n);
    ReadingTyped(T, n);
    NmDsms(T, Reading(nr, n));
    DsmAlone(T, Reading(nr, n).messages);
  }

  lemma ReadingFields(T: Table, n: u8, n': u8)
    ensures FrameOfShape(T, ReadingDsm(n), ReadingDsm(n'))
    ensures SameDsm(T, ReadingDsm(n), ReadingDsm(n')) && DsmPatchable(T, ReadingDsm(n'))
  {
    hide EncVariant, VariantTyped, DsmOk, CanonDsm;
    ReadingTyped(T, n);
    ReadingTyped(T, n');
    ScalarOctets(T, n);
    ScalarOctets(T, n');
    var fs, gs := ReadingDsm(n).frame.fields, ReadingDsm(n').frame.fields;
    assert fs[1..] == [] && gs[1..] == [] && FieldsAre(T, fs) && FieldsAre(T, gs);
    assert SizesEqual(T, ENC_VARIANT, fs[1..], gs[1..]) && SameFields(T, ENC_VARIANT, fs[1..], gs[1..]);
    assert SameField(T, ENC_VARIANT, fs[0], gs[0]);
  }

  /** Readings meet the hypotheses of both fast paths: a template for subscribers, and the same shape whatever the
      sequence number and the value. */
  lemma ReadingShapes(T: Table, nr: u8, n: u8, nr': u8, n': u8)
    ensures NmTyped(T, Reading(nr, n)) && NmTyped(T, Reading(nr', n')) && DsmsAre(T, Reading(nr', n').messages)
    ensures Template(T, Reading(nr, n)) && OfShape(T, Reading(nr, n), Reading(nr', n'))
    ensures SameShape(T, Reading(nr, n), Reading(nr', n')) && Patchable(T, Reading(nr', n'))
    ensures DataFieldsSurvive(T, Reading(nr', n'))
  {
    hide DsmTyped, NmTyped, CanonNm, FrameOfShape, SameDsm, DsmPatchable, NmOk, DataSurvives, DsmsAre;
    ReadingFits(T, nr, n);
    ReadingFits(T, nr', n');
    ReadingFields(T, n, n');
    NmDsms(T, Reading(nr, n));
    NmDsms(T, Reading(nr', n'));
    ReadingTyped(T, n);
    ReadingTyped(T, n');
    OneDsm(T, Reading(nr, n).messages, Reading(nr', n').messages);
    NoDataFields(T, nr', n');
  }

  /** Whatever the table holds, readings are measured, and no strict prefix of one decodes. */
  lemma ReadingMeasured(T: Table, nr: u8, n: u8)
    ensures NmTyped(T, Reading(nr, n)) && Measured(T, Reading(nr, n)) && NmEnd(T, Reading(nr, n)) == Read
  {
    hide NmTyped, DsmTyped, MiddleEnd, EncSizes, EncTrailer, VariantTyped;
    ReadingFits(T, nr, n);
    ReadingTyped(T, n);
    IntPlain(T, n);
    var x, xs := ReadingDsm(n), Reading(nr, n).messages;
    NmDsms(T, Reading(nr, n));
    var fs := x.frame.fields;
    assert fs[1..] == [] && xs[1..] == [] && FieldsAre(T, fs);
    assert FieldsMeasured(T, ENC_VARIANT, fs[1..]) && DsmsMeasured(T, xs[1..]);
    assert KeyFieldsEnd(T, ENC_VARIANT, fs[1..]) == Nothing && DsmsEnd(T, xs[1..]) == Nothing;
    assert EncTrailer(Reading(nr, n)) == [] by { NoReadingTrailer(nr, n); }
  }

  lemma NoReadingTrailer(nr: u8, n: u8)
    ensures EncTrailer(Reading(nr, n)) == []
  {
  }

  lemma IntPlain(T: Table, n: u8)
    ensures VariantTyped(T, Scalar(INT32, Fixed(n))) && VariantSlack(T, Scalar(INT32, Fixed(n))) == 0
    ensures VariantEnd(T, Scalar(INT32, Fixed(n))) == Read
  {
    IntTyped(T, n);
    PlainSlack(T, Scalar(INT32, Fixed(n)));
  }

  lemma OneDsm(T: Table, xs: seq<DataSetMessage>, ys: seq<DataSetMessage>)
    requires DsmsAre(T, xs) && DsmsAre(T, ys) && |xs| == |ys| == 1 && SameDsm(T, xs[0], ys[0])
    ensures SameDsms(T, xs, ys)
  {
    hide SameDsm;
    assert xs[1..] == [] && ys[1..] == [];
    assert SameDsms(T, xs[1..], ys[1..]);
  }

  lemma NoDataFields(T: Table, nr: u8, n: u8)
    requires NmTyped(T, Reading(nr, n))
    ensures DataFieldsSurvive(T, Reading(nr, n))
  {
    hide NmTyped, DataSurvives;
  }

  // ----- every optional header field, in its place -----

  function FullDsm(): DataSetMessage {
    DataSetMessage(true, ENC_DATAVALUE, KEEPALIVE, Some(1), Some(2), Some(3), Some(4), Some(5), Some(6), NoData)
  }

  lemma FullDsmFlags()
    ensures DsmFlags1(FullDsm()) == 0xFD && DsmFlags2(FullDsm()) == 0x33
  {
    hide Mark, Pow2, Has;
    Powers();
    EvenBits(4, 0);
    MarkAdds(4, 0, true);
    MarkTop(5, 3, true);
    MarkTop(13, 4, true);
    MarkTop(29, 5, true);
    MarkTop(61, 6, true);
    MarkTop(125, 7, true);
    MarkTop(3, 4, true);
    MarkTop(19, 5, true);
  }

  /** Sequence number, timestamp, picoseconds, status, major and minor version follow the two flag octets. */
  lemma FullDsmOctets()
    ensures DsmHeader(FullDsm()) == [0xFD, 0x33] + [1, 0] + ([2, 0, 0, 0, 0, 0, 0, 0] + [3, 0] + [4, 0] + [5, 0, 0, 0] + [6, 0, 0, 0])
  {
    hide LE, DsmFlags1, DsmFlags2;
    FullDsmFlags();
    Small(1);
    Small(2);
    Small(3);
    Small(4);
    Small(5);
    Small(6);
  }

  const CLASS: Guid := Guid(1, 2, 3, [10, 11, 12, 13, 14, 15, 16, 17])

  /** A message without payload header, with all other optional parts. */
  function FullHeader(): NetworkMessage {
    NetworkMessage(1, 1, Some(IdNumber(258)), Some(CLASS), Some(GroupHeader(Some(20), Some(21), Some(22), Some(23))), None,
                   Some(5), Some(6), true, DATASET, Some([]), Some(Security(Some(Str([9])), true, Some([8]), true, 7, [3])), None,
                   [FullDsm()])
  }

  lemma FullFlags()
    ensures EncFlags(FullHeader()) == [0xB1, 0xF9, 3]
  {
    hide Mark, Pow2, Has;
    Powers();
    MarkTop(1, 4, true);
    MarkTop(17, 5, true);
    NotMarked(49, 6);
    MarkTop(49, 7, true);
    MarkTop(1, 3, true);
    MarkTop(9, 4, true);
    MarkTop(25, 5, true);
    MarkTop(57, 6, true);
    MarkTop(121, 7, true);
    MarkTop(0, 0, true);
    MarkTop(1, 1, true);
  }

  lemma FourFlags()
    ensures Mark(Mark(Mark(Mark(0, 0, true), 1, true), 2, true), 3, true) == 15
  {
    hide Mark, Pow2, Has;
    Powers();
    MarkTop(0, 0, true);
    MarkTop(1, 1, true);
    MarkTop(3, 2, true);
    MarkTop(7, 3, true);
  }

  /** Publisher id, class id, then the group header: writer group, version, message number, sequence number. */
  lemma FullHeadOctets()
    ensures EncPublisherId(FullHeader()) == [2, 1]
    ensures EncClassId(FullHeader()) == [1, 0, 0, 0] + [2, 0] + [3, 0] + [10, 11, 12, 13, 14, 15, 16, 17]
    ensures EncGroup(FullHeader()) == [15] + [20, 0] + [21, 0, 0, 0] + [22, 0] + [23, 0]
    ensures EncHead(FullHeader()) ==
            EncFlags(FullHeader()) + EncPublisherId(FullHeader()) + EncClassId(FullHeader()) + EncGroup(FullHeader())
  {
    hide LE, Mark, EncFlags;
    FourFlags();
    Two(258);
    Small(1);
    Small(2);
    Small(3);
    Small(20);
    Small(21);
    Small(22);
    Small(23);
  }

  /** Timestamp, picoseconds, size of the promoted fields, then flags, token, nonce length, nonce and footer size. */
  lemma FullMiddleOctets(T: Table)
    ensures NmTyped(T, FullHeader())
    ensures EncMiddle(T, FullHeader()) ==
            [5, 0, 0, 0, 0, 0, 0, 0] + [6, 0] + [0, 0] + ([15] + [7, 0, 0, 0] + [1] + [3] + [1, 0])
    ensures EncTrailer(FullHeader()) == [8] + ([1, 0, 0, 0] + [9])
  {
    hide LE, Mark;
    FourFlags();
    Pow256Values();
    Small(0);
    Small(1);
    Small(5);
    Small(6);
    Small(7);
    assert VariantsSize(T, []) == 0 && EncVariants(T, []) == [];
    assert [0, 0] + [] == [0, 0];
  }
}
