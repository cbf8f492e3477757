/** When decoding only the recorded places gives the same message as decoding everything. */
module SubscriberRefines {
  import opened Bytes
  import opened Types
  import opened Wire
  import opened Parse
  import opened Survival
  import opened Faithful
  import opened SizeOracle
  import opened NetworkMessage
  import opened NetworkParse
  import opened NetworkFaithful
  import opened Layout
  import opened NetworkSizes
  import opened NetworkCalc
  import opened EncodeState
  import opened Subscriber
  import opened PublisherRefines

  lemma {:induction false} PayloadsCat(a: seq<Offset>, b: seq<Offset>)
    ensures Payloads(a + b) == Payloads(a) + Payloads(b)
    decreases a
  {
    if a == [] {
      assert a + b == b;
    } else {
      assert (a + b)[1..] == a[1..] + b;
      PayloadsCat(a[1..], b);
    }
  }

  lemma MatchesPrefix(m: NetworkMessage, k: nat, a: seq<Offset>, b: seq<Offset>)
    requires Matches(m, k, a + b)
    ensures Matches(m, k, a)
  {
    PayloadsCat(a, b);
    assert forall o | o in a :: o in a + b;
  }

  lemma {:induction false} RunCat(T: Table, s: bytes, base: nat, a: seq<Offset>, b: seq<Offset>, x: Progress)
    requires x.Going? ==> Matches(x.nm, x.k, a + b)
    ensures x.Going? ==> Matches(x.nm, x.k, a)
    ensures var y := RunAll(T, s, base, a, x);
            (y.Going? ==> Matches(y.nm, y.k, b)) && RunAll(T, s, base, a + b, x) == RunAll(T, s, base, b, y)
    decreases a
  {
    hide StepOne, Matches, Present;
    if x.Going? {
      MatchesPrefix(x.nm, x.k, a, b);
    }
    if a == [] {
      assert a + b == b;
    } else if x.Going? {
      assert (a + b)[1..] == a[1..] + b && (a + b)[0] == a[0];
      MatchesStep(T, s, base, a + b, x);
      MatchesStep(T, s, base, a, x);
      RunCat(T, s, base, a[1..], b, StepOne(T, s, base, a[0], x));
    }
  }

  lemma RunOne(T: Table, s: bytes, base: nat, o: Offset, x: Progress)
    requires x.Going? && Present(x.nm, x.k, o.src) && Matches(x.nm, x.k, [o])
    ensures RunAll(T, s, base, [o], x) == StepOne(T, s, base, o, x)
  {
    hide StepOne, Matches, Present;
    MatchesStep(T, s, base, [o], x);
    assert [o][1..] == [];
  }

  // ----- payload fields -----

  ghost predicate SizesEqual(T: Table, encoding: u8, fs: seq<DataValue>, gs: seq<DataValue>)
    requires FieldsAre(T, fs) && FieldsAre(T, gs)
  {
    |fs| == |gs| && (fs != [] ==>
                       && |EncKeyField(T, encoding, fs[0])| == |EncKeyField(T, encoding, gs[0])|
                       && SizesEqual(T, encoding, fs[1..], gs[1..]))
  }

  /** The prepared fields are as decoding would leave them. */
  predicate Prepared(encoding: u8, fs: seq<DataValue>) {
    encoding == ENC_VARIANT ==> forall f | f in fs :: f == ValueOnly(f.value)
  }

  function WithFields(m: NetworkMessage, fs: seq<DataValue>): NetworkMessage
    requires |m.messages| > 0
  {
    m.(messages := m.messages[0 := m.messages[0].(frame := KeyFrame(fs))])
  }

  lemma {:induction false} FieldPayloads(T: Table, encoding: u8, fs: seq<DataValue>, i: nat, j: nat, pos: nat)
    requires FieldsAre(T, fs)
    ensures Payloads(OffsetsOf(LayoutFields(T, encoding, fs, i, j), pos)) == |fs|
    ensures forall o | o in OffsetsOf(LayoutFields(T, encoding, fs, i, j), pos) :: o.src.VariantAt? || o.src.DataValueAt?
    decreases fs
  {
    hide KeyFieldSize, EncKeyField;
    if fs != [] {
      FieldsStep(T, encoding, fs, i, j, pos);
      FieldPayloads(T, encoding, fs[1..], i, j + 1, pos + KeyFieldSize(T, encoding, fs[0]));
    }
  }

  /** One field: its new value replaces the prepared one. */
  lemma FieldStep(T: Table, s: bytes, base: nat, encoding: u8, was: DataValue, f: DataValue, pos: nat, m: NetworkMessage, k: nat,
                  i: nat, j: nat, end: nat)
    requires VariantTyped(T, f.value) && KeyFieldOk(T, encoding, f) && At(s, base + pos, EncKeyField(T, encoding, f))
    requires var q := base + pos + |EncKeyField(T, encoding, f)|; KeyFieldSurvives(T, encoding, f, Rest(s, q))
    requires HasField(m, k) && m.messages[0].frame.fields[k] == was && (encoding == ENC_VARIANT ==> was == ValueOnly(was.value))
    requires HasFields(encoding)
    ensures StepOne(T, s, base, Offset(FieldSource(encoding, was, i, j), pos), Going(Good, m, k, end)) ==
            Going(Good, WithField(m, k, CanonField(T, encoding, f)), k + 1, base + pos + |EncKeyField(T, encoding, f)|)
  {
    hide At, EncVariant, EncData, DecVariant, DecData, VariantSurvives, DataSurvives, NormVariant, NormData, VariantOk;
    KeyFieldRoundTrip(T, encoding, f, s, base + pos);
  }

  lemma RunCons(T: Table, s: bytes, base: nat, o: Offset, rest: seq<Offset>, x: Progress, y: Progress)
    requires x.Going? && Matches(x.nm, x.k, [o] + rest) && Present(x.nm, x.k, o.src) && StepOne(T, s, base, o, x) == y
    ensures (y.Going? ==> Matches(y.nm, y.k, rest)) && RunAll(T, s, base, [o] + rest, x) == RunAll(T, s, base, rest, y)
  {
    hide StepOne, Matches, Present;
    MatchesStep(T, s, base, [o] + rest, x);
    assert ([o] + rest)[1..] == rest && ([o] + rest)[0] == o;
  }

  lemma FieldsMatch(T: Table, encoding: u8, done: seq<DataValue>, fs: seq<DataValue>, pos: nat, m: NetworkMessage)
    requires FieldsAre(T, fs) && |m.messages| > 0
    ensures Matches(WithFields(m, done + fs), |done|, OffsetsOf(LayoutFields(T, encoding, fs, 0, |done|), pos))
  {
    hide LayoutFields, OffsetsOf;
    FieldPayloads(T, encoding, fs, 0, |done|, pos);
  }

  lemma {:induction false} FieldsRun(T: Table, s: bytes, base: nat, encoding: u8, done: seq<DataValue>, fs: seq<DataValue>,
                                     gs: seq<DataValue>, pos: nat, m: NetworkMessage, end: nat)
    requires FieldsAre(T, fs) && FieldsAre(T, gs) && SizesEqual(T, encoding, fs, gs) && FieldsMeasured(T, encoding, fs) && HasFields(encoding)
    requires KeyFieldsOk(T, encoding, fs) && KeyFieldsOk(T, encoding, gs) && Prepared(encoding, fs) && |m.messages| > 0
    requires At(s, base + pos, EncKeyFields(T, encoding, gs))
    requires KeyFieldsSurvive(T, encoding, gs, Rest(s, base + pos + |EncKeyFields(T, encoding, gs)|))
    ensures var offs := OffsetsOf(LayoutFields(T, encoding, fs, 0, |done|), pos);
            var x := Going(Good, WithFields(m, done + fs), |done|, end);
            && Matches(x.nm, x.k, offs)
            && RunAll(T, s, base, offs, x) ==
               Going(Good, WithFields(m, done + CanonFields(T, encoding, gs)), |done| + |gs|,
                     if gs == [] then end else base + pos + |EncKeyFields(T, encoding, gs)|)
    decreases fs
  {
    hide At, EncKeyField, KeyFieldSize, KeyFieldSurvives, KeyFieldOk, CanonField, StepOne, FieldsMeasured, Matches, OffsetsOf, LayoutFields,
         Present, FieldSource, HasFields;
    FieldsMatch(T, encoding, done, fs, pos, m);
    var x := Going(Good, WithFields(m, done + fs), |done|, end);
    if fs == [] {
      NoFieldEntries(T, encoding, |done|, pos);
      assert done + fs == done && done + CanonFields(T, encoding, gs) == done;
    } else {
      var a, tail, f := EncKeyField(T, encoding, gs[0]), EncKeyFields(T, encoding, gs[1..]), CanonField(T, encoding, gs[0]);
      FieldsStep(T, encoding, fs, 0, |done|, pos);
      MeasuredTail(T, encoding, fs);
      AtSplit(s, base + pos, a, tail);
      AtEnd(s, base + pos + |a|, tail);
      var o := Offset(FieldSource(encoding, fs[0], 0, |done|), pos);
      assert Prepared(encoding, fs[1..]) && (encoding == ENC_VARIANT ==> fs[0] == ValueOnly(fs[0].value)) by { PreparedTail(encoding, fs); }
      FieldPresent(m, done, fs, encoding);
      FieldStep(T, s, base, encoding, fs[0], gs[0], pos, x.nm, |done|, 0, |done|, end);
      var y := Going(Good, WithFields(m, done + [f] + fs[1..]), |done + [f]|, base + pos + |a|);
      assert StepOne(T, s, base, o, x) == y by { Replaced(m, done, fs, f); }
      RunCons(T, s, base, o, OffsetsOf(LayoutFields(T, encoding, fs[1..], 0, |done + [f]|), pos + |a|), x, y);
      FieldsRun(T, s, base, encoding, done + [f], fs[1..], gs[1..], pos + |a|, m, base + pos + |a|);
      assert done + [f] + CanonFields(T, encoding, gs[1..]) == done + CanonFields(T, encoding, gs);
      assert gs[1..] == [] ==> tail == [];
    }
  }

  lemma MeasuredTail(T: Table, encoding: u8, fs: seq<DataValue>)
    requires FieldsAre(T, fs) && KeyFieldsOk(T, encoding, fs) && FieldsMeasured(T, encoding, fs) && fs != []
    ensures KeyFieldSize(T, encoding, fs[0]) == |EncKeyField(T, encoding, fs[0])| && FieldsMeasured(T, encoding, fs[1..])
  {
    hide KeyFieldSize, EncKeyField, KeyFieldOk, KeyFieldSlack;
    KeyFieldSizeExact(T, encoding, fs[0]);
  }

  lemma NoFieldEntries(T: Table, encoding: u8, j: nat, pos: nat)
    ensures OffsetsOf(LayoutFields(T, encoding, [], 0, j), pos) == []
  {
  }

  lemma PreparedTail(encoding: u8, fs: seq<DataValue>)
    requires Prepared(encoding, fs) && fs != []
    ensures Prepared(encoding, fs[1..]) && (encoding == ENC_VARIANT ==> fs[0] == ValueOnly(fs[0].value))
  {
    assert fs[0] in fs && forall g | g in fs[1..] :: g in fs;
  }

  lemma FieldPresent(m: NetworkMessage, done: seq<DataValue>, fs: seq<DataValue>, encoding: u8)
    requires |m.messages| > 0 && fs != []
    ensures Present(WithFields(m, done + fs), |done|, FieldSource(encoding, fs[0], 0, |done|))
    ensures HasField(WithFields(m, done + fs), |done|)
    ensures (done + fs)[|done|] == fs[0]
  {
  }

  lemma Replaced(m: NetworkMessage, done: seq<DataValue>, fs: seq<DataValue>, f: DataValue)
    requires |m.messages| > 0 && fs != []
    ensures HasField(WithFields(m, done + fs), |done|)
    ensures WithField(WithFields(m, done + fs), |done|, f) == WithFields(m, done + [f] + fs[1..])
  {
    assert (done + fs)[|done| := f] == done + [f] + fs[1..];
  }

  // ----- the entries in front of the payload -----

  /** A message prepared for the fast path: one key frame with fields, a numeric publisher id if any, no
      timestamps and no sequence number in the frame's header. */
  ghost predicate Template(T: Table, t: NetworkMessage)
    requires NmTyped(T, t)
  {
    && t.timestamp.None? && t.picoseconds.None? && (t.publisherId.Some? ==> t.publisherIdType <= 3)
    && |t.messages| == 1 && HasEntries(t.messages[0]) && t.messages[0].sequenceNr.None?
    && t.messages[0].frame.KeyFrame? && t.messages[0].frame.fields != [] && CanonNm(T, t) == t
  }

  predicate SubGroup(a: Option<GroupHeader>, b: Option<GroupHeader>) {
    if a.None? || b.None? then a == b
    else b.value == a.value.(writerGroupId := b.value.writerGroupId, sequenceNumber := b.value.sequenceNumber)
         && a.value.writerGroupId.Some? == b.value.writerGroupId.Some?
         && a.value.sequenceNumber.Some? == b.value.sequenceNumber.Some?
  }

  /** n is of the template's shape: ids, sequence number and fields may differ, but not the fields' sizes. */
  ghost predicate OfShape(T: Table, t: NetworkMessage, n: NetworkMessage)
    requires NmTyped(T, t) && NmTyped(T, n) && |t.messages| == 1 && HasEntries(t.messages[0])
  {
    && n == t.(publisherId := n.publisherId, groupHeader := n.groupHeader, payloadHeader := n.payloadHeader, messages := n.messages)
    && t.publisherId.Some? == n.publisherId.Some? && SubGroup(t.groupHeader, n.groupHeader)
    && t.payloadHeader.Some? == n.payloadHeader.Some? && |n.messages| == 1
    && FrameOfShape(T, t.messages[0], n.messages[0])
  }

  ghost predicate FrameOfShape(T: Table, x: DataSetMessage, y: DataSetMessage) {
    && DsmTyped(T, x) && DsmTyped(T, y) && HasEntries(x) && y == x.(frame := y.frame)
    && SizesEqual(T, x.fieldEncoding, x.frame.fields, y.frame.fields)
  }

  /** Before the payload: the template with the new message's ids and sequence number. */
  function HeadRefreshed(t: NetworkMessage, n: NetworkMessage): NetworkMessage {
    t.(publisherId := n.publisherId, groupHeader := n.groupHeader, payloadHeader := n.payloadHeader)
  }

  lemma {:induction false} NoPayloads(offs: seq<Offset>)
    requires forall o | o in offs :: !o.src.VariantAt? && !o.src.DataValueAt?
    ensures Payloads(offs) == 0
  {
    if offs != [] {
      assert offs[0] in offs && forall o | o in offs[1..] :: o in offs;
      NoPayloads(offs[1..]);
    }
  }

  lemma FrontRun(T: Table, s: bytes, base: nat, t: NetworkMessage, n: NetworkMessage, end: nat)
    requires n.publisherIdType == t.publisherIdType && t.publisherId.Some? == n.publisherId.Some?
    requires t.publisherId.Some? ==> t.publisherIdType <= 3 && IdTyped(n.publisherIdType, n.publisherId.value)
    requires |EncFlags(n)| == |EncFlags(t)| && At(s, base + |EncFlags(n)|, EncPublisherId(n))
    ensures var offs := OffsetsOf(LayoutFront(t, true), 0); Matches(t, 0, offs)
    ensures var offs := OffsetsOf(LayoutFront(t, true), 0);
            var y := RunAll(T, s, base, offs, Going(Good, t, 0, end));
            y.Going? && y == Going(Good, t.(publisherId := n.publisherId), 0, y.end)
  {
    hide At, EncFlags, LE, LayoutFront, OffsetsOf, Pow256;
    FrontEntries(t, true);
    if t.publisherId.Some? {
      var o := Offset(PublisherIdAt, |EncFlags(t)|);
      FixedAt(s, base + |EncFlags(t)|, n.publisherId.value.n, IdWidth(t.publisherIdType));
      NoPayloads([o]);
      RunOne(T, s, base, o, Going(Good, t, 0, end));
    }
  }

  lemma GroupValues(T: Table, s: bytes, p: nat, n: NetworkMessage, g: GroupHeader)
    requires n.groupHeader == Some(g) && At(s, p, EncGroup(n))
    ensures g.writerGroupId.Some? ==> DecU16(s, p + 1) == Done(g.writerGroupId.value, p + 3)
    ensures var q := p + 1 + OptSize(g.writerGroupId, 2) + OptSize(g.groupVersion, 4) + OptSize(g.networkMessageNumber, 2);
            g.sequenceNumber.Some? ==> DecU16(s, q) == Done(g.sequenceNumber.value, q + 2)
  {
    hide At, GroupFlags, DecU16, LE;
    AtSplit5(s, p, [GroupFlags(g)], OptLE(g.writerGroupId, 2), OptLE(g.groupVersion, 4), OptLE(g.networkMessageNumber, 2),
             OptLE(g.sequenceNumber, 2));
    Pow256Values();
    if g.writerGroupId.Some? {
      FixedAt(s, p + 1, g.writerGroupId.value, 2);
    }
    var q := p + 1 + OptSize(g.writerGroupId, 2) + OptSize(g.groupVersion, 4) + OptSize(g.networkMessageNumber, 2);
    if g.sequenceNumber.Some? {
      FixedAt(s, q, g.sequenceNumber.value, 2);
    }
  }

  lemma GroupRun(T: Table, s: bytes, base: nat, t: NetworkMessage, n: NetworkMessage, pos: nat, end: nat)
    requires SubGroup(t.groupHeader, n.groupHeader) && At(s, base + pos, EncGroup(n))
    ensures var offs := OffsetsOf(LayoutGroup(t, true), pos); Matches(t, 0, offs)
    ensures var offs := OffsetsOf(LayoutGroup(t, true), pos);
            var y := RunAll(T, s, base, offs, Going(Good, t, 0, end));
            y.Going? && y == Going(Good, t.(groupHeader := n.groupHeader), 0, y.end)
  {
    hide At, EncGroup, LayoutGroup, OffsetsOf, DecU16;
    if t.groupHeader.Some? {
      var g, h := t.groupHeader.value, n.groupHeader.value;
      GroupEntries(t, g, true, pos);
      GroupValues(T, s, base + pos, n, h);
      var q := pos + 1 + OptSize(g.writerGroupId, 2) + OptSize(g.groupVersion, 4) + OptSize(g.networkMessageNumber, 2);
      var a := if g.writerGroupId.Some? then [Offset(WriterGroupIdAt, pos + 1)] else [];
      var b := if g.sequenceNumber.Some? then [Offset(NmSequenceAt, q)] else [];
      var x := Going(Good, t, 0, end);
      NoPayloads(a + b);
      NoPayloads(b);
      assert Matches(t, 0, a + b);
      RunCat(T, s, base, a, b, x);
      if g.writerGroupId.Some? {
        RunOne(T, s, base, Offset(WriterGroupIdAt, pos + 1), x);
      }
      var y := RunAll(T, s, base, a, x);
      assert y.Going? && y == Going(Good, WithGroup(t, g.(writerGroupId := h.writerGroupId)), 0, y.end);
      if g.sequenceNumber.Some? {
        RunOne(T, s, base, Offset(NmSequenceAt, q), y);
      }
    } else {
      NoGroupEntries(t, pos);
    }
  }

  lemma NoGroupEntries(t: NetworkMessage, pos: nat)
    requires t.groupHeader.None?
    ensures OffsetsOf(LayoutGroup(t, true), pos) == []
  {
  }

  lemma IdsRun(T: Table, s: bytes, base: nat, t: NetworkMessage, n: NetworkMessage, pos: nat, end: nat)
    requires t.payloadHeader.Some? == n.payloadHeader.Some? && MessageCount(t) == MessageCount(n) == 1
    requires t.payloadHeader != Some(NoWriterIds) && n.payloadHeader != Some(NoWriterIds)
    requires At(s, base + pos, EncPayloadHeader(n))
    ensures var offs := OffsetsOf(LayoutPayloadHeader(t, true), pos); Matches(t, 0, offs)
    ensures var offs := OffsetsOf(LayoutPayloadHeader(t, true), pos);
            var y := RunAll(T, s, base, offs, Going(Good, t, 0, end));
            y.Going? && y == Going(Good, t.(payloadHeader := n.payloadHeader), 0, y.end)
  {
    hide At, DecU16, LE;
    if t.payloadHeader.Some? {
      var ids, ns := t.payloadHeader.value.ids, n.payloadHeader.value.ids;
      IdEntries(t, pos);
      assert EncU16s(ns) == LE(ns[0], 2) + EncU16s(ns[1..]) && EncU16s(ns[1..]) == [];
      assert EncPayloadHeader(n) == [1] + LE(ns[0], 2);
      NoPayloads([Offset(WriterIdAt, pos + 1)]);
      AtSplit(s, base + pos, [1], LE(ns[0], 2));
      Pow256Values();
      FixedAt(s, base + pos + 1, ns[0], 2);
      RunOne(T, s, base, Offset(WriterIdAt, pos + 1), Going(Good, t, 0, end));
      assert ids[0 := ns[0]] == ns;
    }
  }

  lemma IdEntries(t: NetworkMessage, pos: nat)
    requires MessageCount(t) == 1 && t.payloadHeader.Some? && t.payloadHeader.value.WriterIds?
    ensures OffsetsOf(LayoutPayloadHeader(t, true), pos) == [Offset(WriterIdAt, pos + 1)]
  {
    hide OffsetsOf, EncU16s;
    var L := LayoutPayloadHeader(t, true);
    OffsetsOf3(L[0], L[1], L[2], pos);
    OffsetsOfOne(L[0], pos);
    OffsetsOfOne(L[1], pos + 1);
    OffsetsOfOne(L[2], pos + 1 + L[1].n);
  }

  // ----- where the parts of a message are -----

  /** Positions of the group header, the payload header, the frame header and the first field. */
  function P1(t: NetworkMessage): nat {
    |EncFlags(t)| + PublisherIdSize(t) + |EncClassId(t)|
  }

  function P2(t: NetworkMessage): nat {
    P1(t) + |EncGroup(t)|
  }

  function P4(T: Table, t: NetworkMessage): nat
    requires NmTyped(T, t)
  {
    P2(t) + |EncPayloadHeader(t)| + Total(LayoutMiddle(T, t))
  }

  function P5(T: Table, t: NetworkMessage): nat
    requires NmTyped(T, t) && |t.messages| == 1
  {
    P4(T, t) + |DsmHeader(t.messages[0])| + 2
  }

  lemma OneDsmEntries(T: Table, x: DataSetMessage, pos: nat)
    requires DsmTyped(T, x) && HasEntries(x) && x.sequenceNr.None?
    ensures OffsetsOf(LayoutDsms(T, [x], 0), pos) ==
            OffsetsOf(LayoutFields(T, x.fieldEncoding, x.frame.fields, 0, 0), pos + |DsmHeader(x)| + 2)
  {
    hide OffsetsOf, LayoutDsm, LayoutFields, DsmHeader, LayoutDsmHeader, Octets, Total;
    assert [x][1..] == [] && LayoutDsms(T, [x][1..], 1) == [];
    assert LayoutDsms(T, [x], 0) == LayoutDsm(T, x, 0);
    DsmParts(T, x, 0, pos);
    DsmHeaderSizes(x, 0, pos);
  }

  lemma TemplateEntries(T: Table, t: NetworkMessage)
    requires NmTyped(T, t) && NmOk(T, t) && Template(T, t) && DsmTyped(T, t.messages[0]) && MessageCount(t) == 1
    ensures var x := t.messages[0];
      Entries(T, t, true) == OffsetsOf(LayoutFront(t, true), 0) + (OffsetsOf(LayoutGroup(t, true), P1(t))
        + (OffsetsOf(LayoutPayloadHeader(t, true), P2(t))
           + OffsetsOf(LayoutFields(T, x.fieldEncoding, x.frame.fields, 0, 0), P5(T, t))))
  {
    hide OffsetsOf, LayoutFields, LayoutDsms, LayoutFront, LayoutGroup, LayoutPayloadHeader, LayoutMiddle, Octets, Total, EncFlags,
         PublisherIdSize, EncClassId, EncGroup, EncPayloadHeader, DsmHeader, NmTyped, NmOk, CanonNm, EncSecurity, VariantsSize, Entries;
    NmOkParts(T, t);
    EntriesParts(T, t, true);
    MiddleEntries(T, t, P2(t) + |EncPayloadHeader(t)|);
    assert t.messages == [t.messages[0]];
    OneDsmEntries(T, t.messages[0], P4(T, t));
  }

  lemma NmOkParts(T: Table, m: NetworkMessage)
    requires NmTyped(T, m) && NmOk(T, m)
    ensures HeadOk(m) && m.messageType == DATASET && m.payloadHeader != Some(NoWriterIds) && TrailerOk(m)
    ensures |m.messages| == MessageCount(m) && (forall i | 0 <= i < |m.messages| :: DsmTyped(T, m.messages[i]))
    ensures m.publisherId.Some? ==> IdTyped(m.publisherIdType, m.publisherId.value)
    ensures |m.messages| == 1 ==> DsmOk(T, m.messages[0])
  {
    hide DsmOk, DsmTyped, IdTyped;
  }

  /** Entries in front of the payload that the template has. */
  predicate HeadEntries(t: NetworkMessage, offs: seq<Offset>) {
    forall o | o in offs ::
      && !o.src.VariantAt? && !o.src.DataValueAt?
      && (o.src.WriterGroupIdAt? || o.src.NmSequenceAt? ==> t.groupHeader.Some?) && (o.src.WriterIdAt? ==> HasWriterId(t))
  }

  lemma HeadThenFields(t: NetworkMessage, a: seq<Offset>, g: seq<Offset>, h: seq<Offset>, f: seq<Offset>)
    requires HeadEntries(t, a) && HeadEntries(t, g) && HeadEntries(t, h)
    requires (forall o | o in f :: o.src.VariantAt? || o.src.DataValueAt?) && (Payloads(f) > 0 ==> HasField(t, Payloads(f) - 1))
    ensures Matches(t, 0, a + (g + (h + f)))
  {
    NoPayloads(a);
    NoPayloads(g);
    NoPayloads(h);
    PayloadsCat(h, f);
    PayloadsCat(g, h + f);
    PayloadsCat(a, g + (h + f));
  }

  lemma TemplateMatches(T: Table, t: NetworkMessage)
    requires NmTyped(T, t) && NmOk(T, t) && Template(T, t) && DsmTyped(T, t.messages[0]) && MessageCount(t) == 1
    ensures Matches(t, 0, Entries(T, t, true))
  {
    hide OffsetsOf, LayoutFields, LayoutFront, LayoutGroup, LayoutPayloadHeader, EncFlags, NmTyped, NmOk, CanonNm, Entries, P1, P2, P5,
         Matches, Payloads, FieldsAre;
    var x := t.messages[0];
    TemplateEntries(T, t);
    NmOkParts(T, t);
    HeadPresent(t, P1(t), P2(t));
    FieldPayloads(T, x.fieldEncoding, x.frame.fields, 0, 0, P5(T, t));
    HeadThenFields(t, OffsetsOf(LayoutFront(t, true), 0), OffsetsOf(LayoutGroup(t, true), P1(t)),
                   OffsetsOf(LayoutPayloadHeader(t, true), P2(t)),
                   OffsetsOf(LayoutFields(T, x.fieldEncoding, x.frame.fields, 0, 0), P5(T, t)));
  }

  lemma HeadPresent(t: NetworkMessage, p1: nat, p2: nat)
    requires MessageCount(t) == 1 && t.payloadHeader != Some(NoWriterIds)
    ensures HeadEntries(t, OffsetsOf(LayoutFront(t, true), 0)) && HeadEntries(t, OffsetsOf(LayoutGroup(t, true), p1))
    ensures HeadEntries(t, OffsetsOf(LayoutPayloadHeader(t, true), p2))
  {
    hide OffsetsOf, LayoutFront, LayoutGroup, LayoutPayloadHeader, EncFlags;
    FrontEntries(t, true);
    if t.groupHeader.Some? {
      GroupEntries(t, t.groupHeader.value, true, p1);
    } else {
      NoGroupEntries(t, p1);
    }
    if t.payloadHeader.Some? {
      IdEntries(t, p2);
    } else {
      NoIdEntries(t, p2);
    }
  }

  lemma NoIdEntries(t: NetworkMessage, pos: nat)
    requires t.payloadHeader.None?
    ensures OffsetsOf(LayoutPayloadHeader(t, true), pos) == []
  {
  }

  /** The parts of a message of the template's shape are where the template has them. */
  lemma SamePlaces(T: Table, t: NetworkMessage, n: NetworkMessage)
    requires NmTyped(T, t) && NmTyped(T, n) && NmOk(T, t) && NmOk(T, n) && PromotedSlack(T, t) == 0
    requires |t.messages| == 1 && HasEntries(t.messages[0]) && OfShape(T, t, n) && (t.publisherId.Some? ==> t.publisherIdType <= 3)
    ensures |EncFlags(n)| == |EncFlags(t)| && |EncFlags(n) + EncPublisherId(n) + EncClassId(n)| == P1(t)
    ensures |EncGroup(n)| == |EncGroup(t)| && |EncPayloadHeader(n)| == |EncPayloadHeader(t)|
    ensures |EncMiddle(T, n)| == Total(LayoutMiddle(T, t))
    ensures |DsmHeader(n.messages[0])| == |DsmHeader(t.messages[0])|
  {
    hide OffsetsOf, Octets, Total, EncPublisherId, PublisherIdSize, EncClassId, EncGroup, EncPayloadHeader, EncMiddle,
         LayoutMiddle, NmTyped, NmOk, PromotedSlack, Tight, MessageCount, SubGroup, DsmHeader, FrameOfShape, HasEntries, Flags0, Flags1, Flags2;
    NmOkParts(T, t);
    NmOkParts(T, n);
    SamePromoted(T, t, n);
    MiddleTight(T, n);
    MiddleOctets(T, n);
    TightTotal(LayoutMiddle(T, n));
    SameMiddle(T, t, n);
    SameGroupLength(t, n);
    SameHeads(t, n);
    SameFrameHeader(T, t.messages[0], n.messages[0]);
  }

  lemma SamePromoted(T: Table, t: NetworkMessage, n: NetworkMessage)
    requires NmTyped(T, t) && NmTyped(T, n) && n.promoted == t.promoted
    ensures PromotedSlack(T, t) == PromotedSlack(T, n)
  {
  }

  lemma SameMiddle(T: Table, t: NetworkMessage, n: NetworkMessage)
    requires NmTyped(T, t) && NmTyped(T, n)
    requires n == t.(publisherId := n.publisherId, groupHeader := n.groupHeader, payloadHeader := n.payloadHeader, messages := n.messages)
    ensures LayoutMiddle(T, t) == LayoutMiddle(T, n)
  {
    hide NmTyped, VariantsSize, EncVariants, OptLE, LE, SecurityFlags;
  }

  lemma SameGroupLength(t: NetworkMessage, n: NetworkMessage)
    requires SubGroup(t.groupHeader, n.groupHeader)
    ensures |EncGroup(n)| == |EncGroup(t)|
  {
    hide LE, GroupFlags;
  }

  lemma SameHeads(t: NetworkMessage, n: NetworkMessage)
    requires n == t.(publisherId := n.publisherId, groupHeader := n.groupHeader, payloadHeader := n.payloadHeader, messages := n.messages)
    requires t.publisherId.Some? == n.publisherId.Some? && (t.publisherId.Some? ==> t.publisherIdType <= 3)
    requires n.publisherId.Some? ==> IdTyped(n.publisherIdType, n.publisherId.value)
    requires |t.messages| == MessageCount(t) == 1 == MessageCount(n) && t.payloadHeader.Some? == n.payloadHeader.Some?
    requires t.payloadHeader != Some(NoWriterIds) && n.payloadHeader != Some(NoWriterIds)
    ensures |EncPublisherId(n)| == PublisherIdSize(t) && EncClassId(n) == EncClassId(t) && |EncFlags(n)| == |EncFlags(t)|
    ensures |EncPayloadHeader(n)| == |EncPayloadHeader(t)|
  {
    hide LE, EncGuid, Flags0, Flags1, Flags2, EncStr, EncU16s, Pow256;
  }

  lemma SameFrameHeader(T: Table, x: DataSetMessage, y: DataSetMessage)
    requires FrameOfShape(T, x, y)
    ensures |DsmHeader(x)| == |DsmHeader(y)|
  {
    hide OptLE, Mark, SizesEqual, DsmTyped, HasEntries;
  }

  /** The pieces of n's encoding that the template's entries point at. */
  lemma Pieces(T: Table, n: NetworkMessage, s: bytes, p: nat)
    requires NmTyped(T, n) && NmOk(T, n) && At(s, p, EncNm(T, n)) && |n.messages| == 1 && HasEntries(n.messages[0])
    ensures DsmTyped(T, n.messages[0])
    ensures var y := n.messages[0];
            var q1 := p + |EncFlags(n) + EncPublisherId(n) + EncClassId(n)|;
            var q2 := q1 + |EncGroup(n)|;
            var q4 := q2 + |EncPayloadHeader(n)| + |EncMiddle(T, n)|;
            var q5 := q4 + |DsmHeader(y)| + 2;
            var fields := EncKeyFields(T, y.fieldEncoding, y.frame.fields);
      && At(s, p + |EncFlags(n)|, EncPublisherId(n)) && At(s, q1, EncGroup(n)) && At(s, q2, EncPayloadHeader(n))
      && At(s, q5, fields) && p + |EncNm(T, n)| == q5 + |fields| + |EncTrailer(n)|
      && Rest(s, q5 + |fields|) == |EncTrailer(n)| + Rest(s, p + |EncNm(T, n)|)
  {
    hide At, EncFlags, EncPublisherId, EncClassId, EncGroup, EncPayloadHeader, EncMiddle, NmTyped, NmOk, DsmHeader, EncKeyFields, LE,
         EncTrailer, DsmTyped, FieldsAre, DeltasAre, EncPayload, MessageCount, HasEntries;
    NmOkParts(T, n);
    SevenParts(s, p, EncFlags(n), EncPublisherId(n), EncClassId(n), EncGroup(n), EncPayloadHeader(n), EncMiddle(T, n), EncPayload(T, n));
    FramePieces(T, n, s, p + |EncFlags(n) + EncPublisherId(n) + EncClassId(n)| + |EncGroup(n)| + |EncPayloadHeader(n)| + |EncMiddle(T, n)|);
  }

  lemma SevenParts(s: bytes, p: nat, a: bytes, b: bytes, c: bytes, d: bytes, e: bytes, f: bytes, g: bytes)
    requires At(s, p, a + b + c + d + e + f + g)
    ensures At(s, p + |a|, b) && At(s, p + |a + b + c|, d) && At(s, p + |a + b + c| + |d|, e)
    ensures At(s, p + |a + b + c| + |d| + |e| + |f|, g)
    ensures p + |a + b + c + d + e + f + g| == p + |a + b + c| + |d| + |e| + |f| + |g|
  {
    hide At;
    AtSplit(s, p, a + b + c + d + e + f, g);
    AtSplit(s, p, a + b + c + d + e, f);
    AtSplit5(s, p, a, b, c, d, e);
  }

  lemma FramePieces(T: Table, n: NetworkMessage, s: bytes, p: nat)
    requires NmTyped(T, n) && MessageCount(n) == |n.messages| == 1 && DsmTyped(T, n.messages[0]) && HasEntries(n.messages[0])
    requires At(s, p, EncPayload(T, n))
    ensures var y := n.messages[0];
            var q5 := p + |DsmHeader(y)| + 2;
            var fields := EncKeyFields(T, y.fieldEncoding, y.frame.fields);
      && At(s, q5, fields) && p + |EncPayload(T, n)| == q5 + |fields| + |EncTrailer(n)|
      && Rest(s, q5 + |fields|) == |EncTrailer(n)| + Rest(s, p + |EncPayload(T, n)|)
  {
    hide At, NmTyped, DsmHeader, EncKeyFields, LE, EncTrailer, DsmTyped, FieldsAre, EncPayload, MessageCount, HasEntries;
    var y := n.messages[0];
    EntryFields(T, y);
    FramePayload(T, n);
    FourParts(s, p, DsmHeader(y), LE(|y.frame.fields|, 2), EncKeyFields(T, y.fieldEncoding, y.frame.fields), EncTrailer(n));
  }

  lemma EntryFields(T: Table, y: DataSetMessage)
    requires DsmTyped(T, y) && HasEntries(y)
    ensures y.frame.KeyFrame? && FieldsAre(T, y.frame.fields)
  {
    hide FieldsAre, DeltasAre;
  }

  lemma FourParts(s: bytes, p: nat, a: bytes, b: bytes, c: bytes, d: bytes)
    requires At(s, p, a + (b + c) + d)
    ensures At(s, p + |a| + |b|, c) && |a + (b + c) + d| == |a| + |b| + |c| + |d|
    ensures Rest(s, p + |a| + |b| + |c|) == |d| + Rest(s, p + |a + (b + c) + d|)
  {
    hide At;
    AtSplit(s, p, a + (b + c), d);
    AtSplit(s, p, a, b + c);
    AtSplit(s, p + |a|, b, c);
    AtEnd(s, p + |a| + |b| + |c|, d);
  }

  lemma FramePayload(T: Table, n: NetworkMessage)
    requires NmTyped(T, n) && MessageCount(n) == |n.messages| == 1 && DsmTyped(T, n.messages[0]) && HasEntries(n.messages[0])
    ensures var y := n.messages[0];
            EncPayload(T, n) == DsmHeader(y) + (LE(|y.frame.fields|, 2) + EncKeyFields(T, y.fieldEncoding, y.frame.fields)) + EncTrailer(n)
  {
    hide NmTyped, DsmHeader, EncKeyFields, LE, EncTrailer, SentSizes, DsmTyped, FieldsAre;
    var y := n.messages[0];
    DsmAlone(T, n.messages);
    EntriesFrame(T, y);
  }

  lemma EntriesFrame(T: Table, y: DataSetMessage)
    requires DsmTyped(T, y) && HasEntries(y)
    ensures EncFrame(T, y) == LE(|y.frame.fields|, 2) + EncKeyFields(T, y.fieldEncoding, y.frame.fields)
  {
    hide EncKeyFields, LE;
  }

  lemma DsmAlone(T: Table, xs: seq<DataSetMessage>)
    requires DsmsAre(T, xs) && |xs| == 1
    ensures EncDsms(T, xs) == EncDsm(T, xs[0])
    ensures DsmsOk(T, xs) == DsmOk(T, xs[0]) && CanonDsms(T, xs) == [CanonDsm(T, xs[0])]
    ensures forall r: nat {:trigger DsmsSurvive(T, xs, r)} :: DsmsSurvive(T, xs, r) == DsmSurvives(T, xs[0], r)
  {
    hide EncDsm, DsmTyped, DsmOk, CanonDsm, DsmSurvives;
    assert EncDsms(T, xs[1..]) == [] && xs[1..] == [];
    forall r: nat ensures DsmsSurvive(T, xs, r) == DsmSurvives(T, xs[0], r) {
      assert |EncDsms(T, xs[1..])| + r == r;
    }
  }

  // ----- the fast path refines the decoder -----

  lemma Survivor(T: Table, n: NetworkMessage, r: nat)
    requires NmTyped(T, n) && NmOk(T, n) && NmSurvives(T, n, r) && |n.messages| == 1 && HasEntries(n.messages[0])
    ensures var y := n.messages[0]; DsmTyped(T, y) && KeyFieldsOk(T, y.fieldEncoding, y.frame.fields)
                                    && KeyFieldsSurvive(T, y.fieldEncoding, y.frame.fields, |EncTrailer(n)| + r)
                                    && CanonDsms(T, n.messages) == [y.(frame := KeyFrame(CanonFields(T, y.fieldEncoding, y.frame.fields)))]
  {
    hide PromotedSurvive, EncTrailer, EncPayload, EncSecurity, KeyFieldsSurvive, KeyFieldsOk, CanonFields, FieldsAre, DsmsSurvive, DsmsOk,
         EncDsms, CanonDsms;
    DsmAlone(T, n.messages);
  }

  lemma PreparedTemplate(T: Table, t: NetworkMessage)
    requires NmTyped(T, t) && Template(T, t) && DsmTyped(T, t.messages[0])
    ensures Prepared(t.messages[0].fieldEncoding, t.messages[0].frame.fields)
  {
    hide SentSizes, CanonVariants, CanonDsms, CanonFields;
    var x := t.messages[0];
    assert DsmsAre(T, t.messages);
    DsmAlone(T, t.messages);
    assert CanonDsm(T, x) == x;
    assert CanonFields(T, x.fieldEncoding, x.frame.fields) == x.frame.fields;
    CanonIsPrepared(T, x.fieldEncoding, x.frame.fields);
  }

  lemma {:induction false} CanonIsPrepared(T: Table, encoding: u8, fs: seq<DataValue>)
    ensures Prepared(encoding, CanonFields(T, encoding, fs))
  {
    hide CanonField;
    if fs != [] {
      CanonIsPrepared(T, encoding, fs[1..]);
      if encoding == ENC_VARIANT {
        ValueOnlyField(T, encoding, fs[0]);
      }
    }
  }

  lemma ValueOnlyField(T: Table, encoding: u8, f: DataValue)
    requires encoding == ENC_VARIANT
    ensures var g := CanonField(T, encoding, f); g == ValueOnly(g.value)
  {
  }

  /** The four groups of entries in turn. */
  lemma RunFour(T: Table, s: bytes, base: nat, a: seq<Offset>, g: seq<Offset>, h: seq<Offset>, f: seq<Offset>, x: Progress)
    requires x.Going? && Matches(x.nm, x.k, a + (g + (h + f)))
    ensures Matches(x.nm, x.k, a)
    ensures var y1 := RunAll(T, s, base, a, x); y1.Going? ==> Matches(y1.nm, y1.k, g)
    ensures var y1 := RunAll(T, s, base, a, x);
            var y2 := RunAll(T, s, base, g, y1); y2.Going? ==> Matches(y2.nm, y2.k, h)
    ensures var y1 := RunAll(T, s, base, a, x);
            var y2 := RunAll(T, s, base, g, y1);
            var y3 := RunAll(T, s, base, h, y2); y3.Going? ==> Matches(y3.nm, y3.k, f)
    ensures var y1 := RunAll(T, s, base, a, x);
            var y2 := RunAll(T, s, base, g, y1);
            var y3 := RunAll(T, s, base, h, y2);
            RunAll(T, s, base, a + (g + (h + f)), x) == RunAll(T, s, base, f, y3)
  {
    hide Matches, StepOne, RunAll;
    RunCat(T, s, base, a, g + (h + f), x);
    var y1 := RunAll(T, s, base, a, x);
    RunCat(T, s, base, g, h + f, y1);
    var y2 := RunAll(T, s, base, g, y1);
    RunCat(T, s, base, h, f, y2);
  }

  /** The entries in front of the payload refresh the ids and the sequence number. */
  lemma HeadRun(T: Table, t: NetworkMessage, n: NetworkMessage, s: bytes, p: nat)
    requires NmTyped(T, t) && NmTyped(T, n) && NmOk(T, t) && NmOk(T, n) && Measured(T, t) && Template(T, t) && OfShape(T, t, n)
    requires At(s, p, EncNm(T, n)) && DsmTyped(T, t.messages[0]) && Matches(t, 0, Entries(T, t, true))
    ensures DsmTyped(T, t.messages[0])
    ensures var x := t.messages[0];
            var f := OffsetsOf(LayoutFields(T, x.fieldEncoding, x.frame.fields, 0, 0), P5(T, t));
      exists end :: Matches(HeadRefreshed(t, n), 0, f) &&
                    RunAll(T, s, p, Entries(T, t, true), Going(Good, t, 0, 0)) == RunAll(T, s, p, f, Going(Good, HeadRefreshed(t, n), 0, end))
  {
    hide At, OffsetsOf, LayoutFields, LayoutFront, LayoutGroup, LayoutPayloadHeader, NmTyped, NmOk, Entries, P5, P1,
         Matches, RunAll, EncFlags, EncPublisherId, EncClassId, EncGroup, EncPayloadHeader, EncMiddle, EncNm, CanonNm, DsmHeader,
         EncKeyFields, EncTrailer, Total, Octets, FrameOfShape, SubGroup, LayoutMiddle, PromotedSlack, DsmsMeasured, IdTyped, MessageCount, DsmTyped;
    HeadPieces(T, t, n, s, p);
    TemplateEntries(T, t);
    ThreeRuns(T, t, n, s, p, FieldOffsets(T, t));
  }

  /** Where the pieces in front of the payload stand. */
  lemma HeadPieces(T: Table, t: NetworkMessage, n: NetworkMessage, s: bytes, p: nat)
    requires NmTyped(T, t) && NmTyped(T, n) && NmOk(T, t) && NmOk(T, n) && Measured(T, t) && Template(T, t) && OfShape(T, t, n)
    requires At(s, p, EncNm(T, n)) && DsmTyped(T, t.messages[0])
    ensures t.publisherId.Some? ==> IdTyped(n.publisherIdType, n.publisherId.value)
    ensures |EncFlags(n)| == |EncFlags(t)| && At(s, p + |EncFlags(n)|, EncPublisherId(n))
    ensures At(s, p + P1(t), EncGroup(n)) && At(s, p + P2(t), EncPayloadHeader(n)) && MessageCount(t) == MessageCount(n) == 1
    ensures t.payloadHeader != Some(NoWriterIds) && n.payloadHeader != Some(NoWriterIds)
  {
    hide At, LayoutFields, LayoutFront, LayoutGroup, LayoutPayloadHeader, NmTyped, NmOk, Entries, P1, EncFlags, EncPublisherId,
         EncClassId, EncGroup, EncPayloadHeader, EncMiddle, EncNm, CanonNm, DsmHeader, EncKeyFields, EncTrailer, Total, Octets, FrameOfShape,
         SubGroup, LayoutMiddle, PromotedSlack, DsmsMeasured, IdTyped, MessageCount, DsmTyped;
    NmOkParts(T, t);
    NmOkParts(T, n);
    SamePlaces(T, t, n);
    FrameParts(T, t.messages[0], n.messages[0]);
    Pieces(T, n, s, p);
  }

  /** Entries of the front, the group header and the payload header, and then others. */
  lemma ThreeRuns(T: Table, t: NetworkMessage, n: NetworkMessage, s: bytes, p: nat, f: seq<Offset>)
    requires n.publisherIdType == t.publisherIdType && t.publisherId.Some? == n.publisherId.Some?
    requires t.publisherId.Some? ==> t.publisherIdType <= 3 && IdTyped(n.publisherIdType, n.publisherId.value)
    requires |EncFlags(n)| == |EncFlags(t)| && At(s, p + |EncFlags(n)|, EncPublisherId(n))
    requires SubGroup(t.groupHeader, n.groupHeader) && At(s, p + P1(t), EncGroup(n))
    requires t.payloadHeader.Some? == n.payloadHeader.Some? && MessageCount(t) == MessageCount(n) == 1
    requires t.payloadHeader != Some(NoWriterIds) && n.payloadHeader != Some(NoWriterIds)
    requires At(s, p + P2(t), EncPayloadHeader(n))
    requires Matches(t, 0, HeadOffsets(t, f))
    ensures exists end :: Matches(HeadRefreshed(t, n), 0, f) &&
                    RunAll(T, s, p, HeadOffsets(t, f), Going(Good, t, 0, 0)) == RunAll(T, s, p, f, Going(Good, HeadRefreshed(t, n), 0, end))
  {
    hide At, OffsetsOf, LayoutFront, LayoutGroup, LayoutPayloadHeader, P1, P2, Matches, RunAll, EncFlags, EncPublisherId, EncGroup,
         EncPayloadHeader, SubGroup, IdTyped, MessageCount;
    var a, g, h := OffsetsOf(LayoutFront(t, true), 0), OffsetsOf(LayoutGroup(t, true), P1(t)), OffsetsOf(LayoutPayloadHeader(t, true), P2(t));
    var x0 := Going(Good, t, 0, 0);
    RunFour(T, s, p, a, g, h, f, x0);
    FrontRun(T, s, p, t, n, 0);
    var y1 := RunAll(T, s, p, a, x0);
    SameLayouts(t, n);
    var t1 := t.(publisherId := n.publisherId);
    GroupRun(T, s, p, t1, n, P1(t), y1.end);
    var y2 := RunAll(T, s, p, g, y1);
    var t2 := t1.(groupHeader := n.groupHeader);
    IdsRun(T, s, p, t2, n, P2(t), y2.end);
    var y3 := RunAll(T, s, p, h, y2);
    assert y3 == Going(Good, HeadRefreshed(t, n), 0, y3.end);
  }

  function HeadOffsets(t: NetworkMessage, f: seq<Offset>): seq<Offset>
    requires MessageCount(t) < 256
  {
    OffsetsOf(LayoutFront(t, true), 0) + (OffsetsOf(LayoutGroup(t, true), P1(t)) + (OffsetsOf(LayoutPayloadHeader(t, true), P2(t)) + f))
  }

  function FieldOffsets(T: Table, t: NetworkMessage): seq<Offset>
    requires NmTyped(T, t) && |t.messages| == 1 && DsmTyped(T, t.messages[0]) && HasEntries(t.messages[0])
  {
    OffsetsOf(LayoutFields(T, t.messages[0].fieldEncoding, t.messages[0].frame.fields, 0, 0), P5(T, t))
  }

  lemma SameLayouts(t: NetworkMessage, n: NetworkMessage)
    requires MessageCount(t) < 256
    ensures var t1 := t.(publisherId := n.publisherId);
            LayoutGroup(t1, true) == LayoutGroup(t, true) && MessageCount(t1) == MessageCount(t)
    ensures var t2 := t.(publisherId := n.publisherId, groupHeader := n.groupHeader);
            MessageCount(t2) == MessageCount(t) && LayoutPayloadHeader(t2, true) == LayoutPayloadHeader(t, true)
  {
    hide OptLE, GroupFlags, EncU16s;
  }

  /** The subscriber's fast path refines the full decoder: for every surviving message of the template's shape, at any
      position, refreshing the template at the recorded places gives the message that full decoding gives, and ends
      where the payload ends: at the message's end exactly when it has no footer octets and no signature. */
  lemma FastPathDecodes(T: Table, t: NetworkMessage, n: NetworkMessage, s: bytes, p: nat)
    requires NmTyped(T, t) && NmTyped(T, n) && NmOk(T, t) && NmOk(T, n) && Measured(T, t) && Template(T, t) && OfShape(T, t, n)
    requires At(s, p, EncNm(T, n)) && NmSurvives(T, n, Rest(s, p + |EncNm(T, n)|))
    ensures Matches(t, 0, Entries(T, t, true))
    ensures var y, r := RunAll(T, s, p, Entries(T, t, true), Going(Good, t, 0, 0)), DecNm(T, s, p);
      && r.Done? && r.pos == p + |EncNm(T, n)|
      && y.Going? && y.ret.Good? && y.nm == r.v && y.end == r.pos - |EncTrailer(n)|
  {
    hide At, NmTyped, NmOk, Entries, Matches, RunAll, EncNm, CanonNm, DecNm, NmSurvives, FrameOfShape, SubGroup, Measured, EncTrailer,
         P5, EncKeyFields, KeyFieldsSurvive, KeyFieldsOk, CanonFields, OffsetsOf, LayoutFields, HeadRefreshed, WithFields, DsmTyped,
         FieldsAre, HasEntries, Prepared, HasFields, EncFlags, EncPublisherId, EncClassId, EncGroup, EncPayloadHeader, EncMiddle, DsmHeader,
         Total, Octets, LayoutMiddle, CanonDsms;
    NmOkParts(T, t);
    NmOkParts(T, n);
    TemplateMatches(T, t);
    HeadRun(T, t, n, s, p);
    FrameParts(T, t.messages[0], n.messages[0]);
    var f, m := FieldOffsets(T, t), HeadRefreshed(t, n);
    var end :| Matches(m, 0, f) &&
               RunAll(T, s, p, Entries(T, t, true), Going(Good, t, 0, 0)) == RunAll(T, s, p, f, Going(Good, m, 0, end));
    PayloadRun(T, t, n, s, p, end);
    NmRoundTrip(T, n, s, p);
    RefreshedIsCanon(T, t, n);
  }

  lemma PayloadRun(T: Table, t: NetworkMessage, n: NetworkMessage, s: bytes, p: nat, end: nat)
    requires NmTyped(T, t) && NmTyped(T, n) && NmOk(T, t) && NmOk(T, n) && Measured(T, t) && Template(T, t) && OfShape(T, t, n)
    requires At(s, p, EncNm(T, n)) && NmSurvives(T, n, Rest(s, p + |EncNm(T, n)|)) && DsmTyped(T, t.messages[0]) && DsmTyped(T, n.messages[0])
    requires Matches(HeadRefreshed(t, n), 0, FieldOffsets(T, t)) && HasEntries(n.messages[0])
    ensures RunAll(T, s, p, FieldOffsets(T, t), Going(Good, HeadRefreshed(t, n), 0, end)) ==
            Going(Good, WithFields(HeadRefreshed(t, n), CanonFields(T, n.messages[0].fieldEncoding, n.messages[0].frame.fields)),
                  |n.messages[0].frame.fields|, p + |EncNm(T, n)| - |EncTrailer(n)|)
  {
    hide At, NmTyped, NmOk, Matches, RunAll, EncNm, CanonNm, NmSurvives, SubGroup, Measured, EncTrailer, EncKeyFields, KeyFieldsSurvive,
         KeyFieldsOk, CanonFields, OffsetsOf, LayoutFields, DsmTyped, FieldsAre, Prepared, EncFlags, EncPublisherId,
         EncClassId, EncGroup, EncPayloadHeader, EncMiddle, DsmHeader, Total, Octets, LayoutMiddle, CanonDsms, SizesEqual;
    NmOkParts(T, t);
    TemplateMeasured(T, t);
    SamePlaces(T, t, n);
    Pieces(T, n, s, p);
    Survivor(T, n, Rest(s, p + |EncNm(T, n)|));
    PreparedTemplate(T, t);
    TemplateFieldsOk(T, t.messages[0]);
    FrameParts(T, t.messages[0], n.messages[0]);
    var fs, m := t.messages[0].frame.fields, HeadRefreshed(t, n);
    assert [] + fs == fs && WithFields(m, fs) == m by { Unchanged(m); }
    assert [] + CanonFields(T, n.messages[0].fieldEncoding, n.messages[0].frame.fields)
           == CanonFields(T, n.messages[0].fieldEncoding, n.messages[0].frame.fields);
    FieldsRun(T, s, p, t.messages[0].fieldEncoding, [], fs, n.messages[0].frame.fields, P5(T, t), m, end);
  }

  lemma Unchanged(m: NetworkMessage)
    requires |m.messages| == 1 && m.messages[0].frame.KeyFrame?
    ensures WithFields(m, m.messages[0].frame.fields) == m
  {
    assert m.messages[0 := m.messages[0]] == m.messages;
  }

  lemma TemplateMeasured(T: Table, t: NetworkMessage)
    requires NmTyped(T, t) && Measured(T, t) && |t.messages| == 1 && DsmTyped(T, t.messages[0]) && HasEntries(t.messages[0])
    ensures PromotedSlack(T, t) == 0
    ensures FieldsMeasured(T, t.messages[0].fieldEncoding, t.messages[0].frame.fields)
  {
    hide PromotedSlack, FieldsMeasured, DsmTyped;
  }

  lemma TemplateFieldsOk(T: Table, x: DataSetMessage)
    requires DsmTyped(T, x) && DsmOk(T, x) && HasEntries(x)
    ensures KeyFieldsOk(T, x.fieldEncoding, x.frame.fields) && FieldsAre(T, x.frame.fields) && HasFields(x.fieldEncoding)
  {
    hide KeyFieldsOk, FieldsAre, DeltasAre;
  }

  lemma FrameParts(T: Table, x: DataSetMessage, y: DataSetMessage)
    requires FrameOfShape(T, x, y)
    ensures x.frame.KeyFrame? && y.frame.KeyFrame? && HasEntries(y) && DsmTyped(T, x) && DsmTyped(T, y)
    ensures FieldsAre(T, x.frame.fields) && FieldsAre(T, y.frame.fields) && y.fieldEncoding == x.fieldEncoding
    ensures SizesEqual(T, x.fieldEncoding, x.frame.fields, y.frame.fields) && |x.frame.fields| == |y.frame.fields|
  {
    hide FieldsAre, DeltasAre;
  }

  lemma RefreshedIsCanon(T: Table, t: NetworkMessage, n: NetworkMessage)
    requires NmTyped(T, t) && NmTyped(T, n) && NmOk(T, n) && Template(T, t) && OfShape(T, t, n) && DsmTyped(T, n.messages[0])
    requires HasEntries(n.messages[0]) && MessageCount(t) == 1 && MessageCount(n) == 1 && n.messages[0].frame.KeyFrame?
    ensures WithFields(HeadRefreshed(t, n), CanonFields(T, n.messages[0].fieldEncoding, n.messages[0].frame.fields)) == CanonNm(T, n)
  {
    hide SentSizes, CanonVariants, CanonFields, SubGroup, DsmTyped, VariantsOk, DsmsOk, SizesEqual, NmOk, IdTyped, MessageCount, VariantsAre,
         CanonDsms, DsmsAre;
    NmDsms(T, n);
    DsmAlone(T, n.messages);
    assert n.messages == [n.messages[0]];
  }

  lemma NmDsms(T: Table, n: NetworkMessage)
    requires NmTyped(T, n)
    ensures DsmsAre(T, n.messages)
  {
  }

  // ----- what the subscriber's fast path does not support -----

  /** An entry that is not supported stops the update, whatever the source holds. */
  lemma {:induction false} UnsupportedStops(T: Table, s: bytes, base: nat, offs: seq<Offset>, x: Progress, o: Offset)
    requires x.Going? && Matches(x.nm, x.k, offs) && o in offs && !Refreshable(x.nm, o.src)
    ensures RunAll(T, s, base, offs, x).Stopped?
    decreases offs
  {
    hide Matches, DecFixed, DecU16, DecData, DecVariant;
    MatchesStep(T, s, base, offs, x);
    var y := StepOne(T, s, base, offs[0], x);
    if y.Going? {
      assert y.nm.publisherIdType == x.nm.publisherIdType;
      UnsupportedStops(T, s, base, offs[1..], y, o);
    }
  }

  lemma InDsms(T: Table, xs: seq<DataSetMessage>, i0: nat, i: nat)
    requires DsmsAre(T, xs) && i < |xs| && xs[i].sequenceNr.Some?
    ensures Holds(LayoutDsms(T, xs, i0), DsmSequenceAt(i0 + i))
  {
    hide LayoutDsms, OptLE, LayoutFrame, DsmFlags, DsmHeaderRest;
    assert DsmTyped(T, xs[i]);
    var L := LayoutDsm(T, xs[i], i0 + i);
    assert L[1] in L && L[1].src == Some(DsmSequenceAt(i0 + i));
    DsmsHold(T, xs, i0, i, DsmSequenceAt(i0 + i));
  }

  lemma LayoutHolds(T: Table, t: NetworkMessage, rt: bool, src: Source)
    requires NmTyped(T, t) && MessageCount(t) < 256
    requires Holds(LayoutHead(t, rt), src) || Holds(LayoutMiddle(T, t), src) || (DsmsAre(T, t.messages) && Holds(LayoutDsms(T, t.messages, 0), src))
    ensures Holds(LayoutNm(T, t, rt), src)
  {
    hide NmTyped, LayoutHead, LayoutMiddle, LayoutDsms, EncSizes, EncTrailer, SizesSize, TrailerSize, MessageCount, Holds, DsmsAre;
    var a, z := [Lit(EncSizes(T, t), SizesSize(t))], [Lit(EncTrailer(t), TrailerSize(t))];
    if Holds(LayoutHead(t, rt), src) || Holds(LayoutMiddle(T, t), src) {
      HoldsCat(LayoutHead(t, rt), LayoutMiddle(T, t), src);
    } else {
      HoldsCat(a, LayoutDsms(T, t.messages, 0), src);
      HoldsCat(a + LayoutDsms(T, t.messages, 0), z, src);
    }
    HoldsCat(LayoutHead(t, rt) + LayoutMiddle(T, t), LayoutPayload(T, t), src);
  }

  lemma FrontHolds(T: Table, t: NetworkMessage)
    requires NmTyped(T, t) && MessageCount(t) < 256
    ensures t.publisherId.Some? ==> Holds(LayoutHead(t, true), PublisherIdAt)
    ensures t.timestamp.Some? ==> Holds(LayoutMiddle(T, t), TimestampAt)
    ensures t.picoseconds.Some? ==> Holds(LayoutMiddle(T, t), PicosecondsAt)
  {
    hide NmTyped, LayoutGroup, LayoutPayloadHeader, EncPromoted, EncSecurity, OptLE, EncFlags, EncPublisherId, EncClassId, VariantsSize;
    var L := LayoutFront(t, true);
    assert L[1] in L;
    if t.publisherId.Some? {
      assert L[1].src == Some(PublisherIdAt);
      HoldsCat(L, LayoutGroup(t, true), PublisherIdAt);
      HoldsCat(L + LayoutGroup(t, true), LayoutPayloadHeader(t, true), PublisherIdAt);
    }
    var M := LayoutMiddle(T, t);
    assert M[0] in M && M[1] in M;
  }

  /** A message with a timestamp, picoseconds, a publisher id that is not a number, or a sequence number in a frame's
      header has a table the fast path always stops at. */
  lemma NotRefreshable(T: Table, t: NetworkMessage, s: bytes, base: nat)
    requires NmTyped(T, t) && t.messageType == DATASET && t.payloadHeader != Some(NoWriterIds)
    requires Matches(t, 0, Entries(T, t, true))
    requires t.timestamp.Some? || t.picoseconds.Some? || (t.publisherId.Some? && t.publisherIdType > 3)
             || exists i :: 0 <= i < |t.messages| && t.messages[i].sequenceNr.Some?
    ensures RunAll(T, s, base, Entries(T, t, true), Going(Good, t, 0, 0)).Stopped?
  {
    hide NmTyped, LayoutHead, LayoutMiddle, LayoutDsms, OffsetsOf, LayoutNm, Holds, Matches, RunAll;
    CountBound(T, t);
    FrontHolds(T, t);
    var src;
    if t.timestamp.Some? {
      src := TimestampAt;
    } else if t.picoseconds.Some? {
      src := PicosecondsAt;
    } else if t.publisherId.Some? && t.publisherIdType > 3 {
      src := PublisherIdAt;
    } else {
      var i :| 0 <= i < |t.messages| && t.messages[i].sequenceNr.Some?;
      InDsms(T, t.messages, 0, i);
      src := DsmSequenceAt(0 + i);
    }
    LayoutHolds(T, t, true, src);
    HoldsEntry(LayoutNm(T, t, true), src);
    var o :| o in OffsetsOf(LayoutNm(T, t, true), 0) && o.src == src;
    UnsupportedStops(T, s, base, Entries(T, t, true), Going(Good, t, 0, 0), o);
  }

  lemma HoldsEntry(L: seq<Seg>, src: Source)
    requires Holds(L, src)
    ensures exists o :: o in OffsetsOf(L, 0) && o.src == src
  {
    hide OffsetsOf;
    var y :| y in L && y.src == Some(src);
    EntryOfSegment(L, 0, y);
  }
}
