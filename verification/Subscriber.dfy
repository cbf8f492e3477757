/** The subscriber's fast path: only the recorded places of a received message are decoded, into a
    message that was prepared beforehand. */
module Subscriber {
  import opened Bytes
  import opened Types
  import opened Wire
  import opened Parse
  import opened Survival
  import opened Faithful
  import opened SizeOracle
  import opened NetworkMessage
  import opened NetworkParse
  import opened NetworkFaithful
  import opened Layout
  import opened NetworkSizes
  import opened NetworkCalc
  import opened EncodeState
  import opened Decoder

  // ----- one entry after the other -----

  /** While entries are decoded: the last result, the message so far, the next payload field and the last
      position; or stopped with an error. */
  datatype Progress = Going(ret: Status, nm: NetworkMessage, k: nat, end: nat) | Stopped(nm: NetworkMessage)

  function WithGroup(m: NetworkMessage, g: GroupHeader): NetworkMessage {
    m.(groupHeader := Some(g))
  }

  function WithField(m: NetworkMessage, k: nat, f: DataValue): NetworkMessage
    requires HasField(m, k)
  {
    m.(messages := m.messages[0 := m.messages[0].(frame := KeyFrame(m.messages[0].frame.fields[k := f]))])
  }

  /** The first DataSetMessage has a field k. */
  predicate HasField(m: NetworkMessage, k: nat) {
    |m.messages| > 0 && m.messages[0].frame.KeyFrame? && k < |m.messages[0].frame.fields|
  }

  predicate HasWriterId(m: NetworkMessage) {
    m.payloadHeader.Some? && m.payloadHeader.value.WriterIds? && m.payloadHeader.value.ids != []
  }

  /** What the entry refers to exists in the prepared message. */
  predicate Present(m: NetworkMessage, k: nat, src: Source) {
    match src
    case WriterGroupIdAt => m.groupHeader.Some?
    case NmSequenceAt => m.groupHeader.Some?
    case WriterIdAt => HasWriterId(m)
    case VariantAt(_, _, _) => HasField(m, k)
    case DataValueAt(_, _) => HasField(m, k)
    case _ => true
  }

  function BlankField(): DataValue {
    DataValue(false, Empty, None, None, None, None, None)
  }

  function StepOne(T: Table, s: bytes, base: nat, o: Offset, x: Progress): Progress
    requires x.Going? ==> Present(x.nm, x.k, o.src)
  {
    if x.Stopped? then x
    else
      var p, m := base + o.pos, x.nm;
      match o.src
      case PublisherIdAt =>
        if m.publisherIdType > 3 then Stopped(m)
        else
          (match DecFixed(s, p, IdWidth(m.publisherIdType))
           case Done(n, q) => Going(Good, m.(publisherId := Some(IdNumber(n))), x.k, q)
           case Fail => Going(Bad, m.(publisherId := Some(IdNumber(0))), x.k, p))
      case WriterGroupIdAt =>
        (match DecU16(s, p)
         case Done(n, q) => Going(Good, WithGroup(m, m.groupHeader.value.(writerGroupId := Some(n))), x.k, q)
         case Fail => Stopped(WithGroup(m, m.groupHeader.value.(writerGroupId := Some(0)))))
      case NmSequenceAt =>
        (match DecU16(s, p)
         case Done(n, q) => Going(Good, WithGroup(m, m.groupHeader.value.(sequenceNumber := Some(n))), x.k, q)
         case Fail => Stopped(WithGroup(m, m.groupHeader.value.(sequenceNumber := Some(0)))))
      case WriterIdAt =>
        (match DecU16(s, p)
         case Done(n, q) => Going(Good, m.(payloadHeader := Some(WriterIds(m.payloadHeader.value.ids[0 := n]))), x.k, q)
         case Fail => Stopped(m.(payloadHeader := Some(WriterIds(m.payloadHeader.value.ids[0 := 0])))))
      case DataValueAt(_, _) =>
        (match DecData(T, s, p, 0)
         case Done(f, q) => Going(Good, WithField(m, x.k, f), x.k + 1, q)
         case Fail => Stopped(WithField(m, x.k, BlankField())))
      case VariantAt(_, _, _) =>
        var f := m.messages[0].frame.fields[x.k];
        (match DecVariant(T, s, p, 0)
         case Done(v, q) => Going(Good, WithField(m, x.k, f.(value := v, hasValue := true)), x.k + 1, q)
         case Fail => Stopped(WithField(m, x.k, f.(value := Empty))))
      case _ => Stopped(m)
  }

  function Payloads(offs: seq<Offset>): nat {
    if offs == [] then 0
    else (if offs[0].src.VariantAt? || offs[0].src.DataValueAt? then 1 else 0) + Payloads(offs[1..])
  }

  /** The table was made for the prepared message. */
  predicate Matches(m: NetworkMessage, k: nat, offs: seq<Offset>) {
    && (forall o | o in offs && (o.src.WriterGroupIdAt? || o.src.NmSequenceAt?) :: m.groupHeader.Some?)
    && (forall o | o in offs && o.src.WriterIdAt? :: HasWriterId(m))
    && (Payloads(offs) > 0 ==> HasField(m, k + Payloads(offs) - 1))
  }

  lemma MatchesStep(T: Table, s: bytes, base: nat, offs: seq<Offset>, x: Progress)
    requires offs != [] && x.Going? && Matches(x.nm, x.k, offs)
    ensures Present(x.nm, x.k, offs[0].src)
    ensures var y := StepOne(T, s, base, offs[0], x); y.Going? ==> Matches(y.nm, y.k, offs[1..])
  {
    hide DecFixed, DecU16, DecData, DecVariant;
    assert offs[0] in offs;
    assert forall o | o in offs[1..] :: o in offs;
  }

  function RunAll(T: Table, s: bytes, base: nat, offs: seq<Offset>, x: Progress): Progress
    requires x.Going? ==> Matches(x.nm, x.k, offs)
    decreases offs
  {
    if offs == [] || x.Stopped? then x
    else
      MatchesStep(T, s, base, offs, x);
      RunAll(T, s, base, offs[1..], StepOne(T, s, base, offs[0], x))
  }

  // ----- which entries stop the update, and what it returns -----

  predicate Refreshable(m: NetworkMessage, src: Source) {
    && !src.DsmSequenceAt? && !src.TimestampAt? && !src.PicosecondsAt?
    && (src.PublisherIdAt? ==> m.publisherIdType <= 3)
  }

  /** Where decoding what the entry stands for ends, if there is enough of the source at p and it can be decoded. */
  function EntryEnd(T: Table, s: bytes, p: nat, idType: u8, src: Source): (r: Option<nat>)
    ensures r.Some? ==> p <= r.value
  {
    match src
    case PublisherIdAt =>
      var w := if idType == 0 then 1 else if idType == 1 then 2 else if idType == 2 then 4 else 8;
      if idType <= 3 && p + w <= |s| then Some(p + w) else None
    case WriterGroupIdAt => if p + 2 <= |s| then Some(p + 2) else None
    case NmSequenceAt => if p + 2 <= |s| then Some(p + 2) else None
    case WriterIdAt => if p + 2 <= |s| then Some(p + 2) else None
    case VariantAt(_, _, _) => if DecVariant(T, s, p, 0).Done? then Some(DecVariant(T, s, p, 0).pos) else None
    case DataValueAt(_, _) => if DecData(T, s, p, 0).Done? then Some(DecData(T, s, p, 0).pos) else None
    case _ => None
  }

  /** The entry ends the update: it is not supported, or it cannot be decoded and is not a publisher id. */
  predicate Halts(T: Table, s: bytes, base: nat, m: NetworkMessage, o: Offset) {
    !Refreshable(m, o.src) || (!o.src.PublisherIdAt? && EntryEnd(T, s, base + o.pos, m.publisherIdType, o.src).None?)
  }

  lemma StepExact(T: Table, s: bytes, base: nat, o: Offset, x: Progress)
    requires x.Going? && Present(x.nm, x.k, o.src)
    ensures var y, e := StepOne(T, s, base, o, x), EntryEnd(T, s, base + o.pos, x.nm.publisherIdType, o.src);
            && (y.Stopped? <==> Halts(T, s, base, x.nm, o))
            && y.nm.publisherIdType == x.nm.publisherIdType
            && (y.Going? ==>
                  y.ret == (if e.Some? then Good else Bad) && y.end == (if e.Some? then e.value else base + o.pos)
                  && y.k == x.k + Payloads([o]))
  {
    hide DecData, DecVariant, FromLE, Pow256;
    assert [o][1..] == [];
  }

  /** The update is stopped exactly by an entry that halts it. Otherwise its result and end are those of the last entry,
      and only a publisher id that cannot be decoded makes them a failure at the entry itself. */
  lemma {:induction false} RunExact(T: Table, s: bytes, base: nat, offs: seq<Offset>, x: Progress)
    requires x.Going? && Matches(x.nm, x.k, offs)
    ensures var y := RunAll(T, s, base, offs, x);
            && (y.Stopped? <==> exists o :: o in offs && Halts(T, s, base, x.nm, o))
            && (y.Going? && offs == [] ==> y == x)
            && (y.Going? && offs != [] ==>
                  var o := offs[|offs| - 1];
                  var e := EntryEnd(T, s, base + o.pos, x.nm.publisherIdType, o.src);
                  && (e.None? ==> o.src.PublisherIdAt?)
                  && y.ret == (if e.Some? then Good else Bad) && y.end == (if e.Some? then e.value else base + o.pos))
    decreases offs
  {
    hide StepOne, Matches, Present, EntryEnd;
    if offs != [] {
      MatchesStep(T, s, base, offs, x);
      StepExact(T, s, base, offs[0], x);
      var y := StepOne(T, s, base, offs[0], x);
      assert offs == [offs[0]] + offs[1..];
      if y.Going? {
        RunExact(T, s, base, offs[1..], y);
        SameHalts(T, s, base, x.nm, y.nm, offs);
      }
    }
  }

  lemma SameHalts(T: Table, s: bytes, base: nat, m: NetworkMessage, n: NetworkMessage, offs: seq<Offset>)
    requires m.publisherIdType == n.publisherIdType
    ensures forall o | o in offs :: Halts(T, s, base, m, o) == Halts(T, s, base, n, o)
  {
    hide EntryEnd;
  }

  // ----- as it runs -----

  /** Decodes what one entry refers to; `stop` when the whole update ends with its result. */
  method RefreshOne(T: Table, r: Reader, o: Offset, m: NetworkMessage, k: nat, base: nat)
    returns (ret: Status, n: NetworkMessage, next: nat, stop: bool)
    requires Present(m, k, o.src) && r.depth == 0 && r.pos == base + o.pos
    modifies r
    ensures r.depth == 0 && !ret.LimitsExceeded?
    ensures forall prev, end :: StepOne(T, r.src, base, o, Going(prev, m, k, end)) ==
                                (if stop then Stopped(n) else Going(ret, n, next, r.pos))
    ensures stop ==> ret.Bad?
  {
    hide DecFixed, DecU16, DecData, DecVariant, Pow256;
    n, next, stop := m, k, false;
    match o.src
    case PublisherIdAt =>
      if m.publisherIdType > 3 {
        return Bad, m, k, true;
      }
      var id;
      ret, id := r.DecodeFixed(IdWidth(m.publisherIdType));
      n := m.(publisherId := Some(IdNumber(if ret.Good? then id else 0)));
      if !ret.Good? {
        r.pos := base + o.pos;
      }
    case WriterGroupIdAt =>
      var v;
      ret, v := r.DecodeU16();
      n, stop := WithGroup(m, m.groupHeader.value.(writerGroupId := Some(if ret.Good? then v else 0))), !ret.Good?;
    case NmSequenceAt =>
      var v;
      ret, v := r.DecodeU16();
      n, stop := WithGroup(m, m.groupHeader.value.(sequenceNumber := Some(if ret.Good? then v else 0))), !ret.Good?;
    case WriterIdAt =>
      var v;
      ret, v := r.DecodeU16();
      n := m.(payloadHeader := Some(WriterIds(m.payloadHeader.value.ids[0 := if ret.Good? then v else 0])));
      stop := !ret.Good?;
    case DataValueAt(_, _) =>
      var f;
      ret, f := r.DecodeData(T);
      n, stop := WithField(m, k, if ret.Good? then f else BlankField()), !ret.Good?;
      next := k + 1;
    case VariantAt(_, _, _) =>
      var f, v := m.messages[0].frame.fields[k], Empty;
      ret, v := r.DecodeVariant(T);
      n, stop := WithField(m, k, if ret.Good? then f.(value := v, hasValue := true) else f.(value := Empty)), !ret.Good?;
      next := k + 1;
    case _ => return Bad, m, k, true;
  }

  /** Decodes the recorded places of the message at a position; on success the position moves to the end of the
      last of them. */
  method UpdateBufferedNwMessage(T: Table, b: OffsetBuffer, src: bytes, position: nat) returns (ret: Status, end: nat)
    requires Matches(b.nm, 0, b.offsets)
    modifies b`nm
    ensures match RunAll(T, src, position, b.offsets, Going(Good, old(b.nm), 0, 0))
            case Going(r, m, _, q) => ret == r && b.nm == m && end == q
            case Stopped(m) => ret.Bad? && b.nm == m && end == position
    ensures if exists o :: o in b.offsets && Halts(T, src, position, old(b.nm), o) then ret.Bad? && end == position
            else if b.offsets == [] then ret.Good? && end == 0
            else
              var o := b.offsets[|b.offsets| - 1];
              var e := EntryEnd(T, src, position + o.pos, old(b.nm).publisherIdType, o.src);
              && (e.None? ==> o.src.PublisherIdAt?)
              && ret == (if e.Some? then Good else Bad) && end == (if e.Some? then e.value else position + o.pos)
  {
    hide StepOne, Matches, Present, Halts, EntryEnd;
    RunExact(T, src, position, b.offsets, Going(Good, b.nm, 0, 0));
    ret, end := Good, 0;
    var i, k := 0, 0;
    ghost var all := RunAll(T, src, position, b.offsets, Going(Good, b.nm, 0, 0));
    assert b.offsets[0..] == b.offsets;
    while i < |b.offsets|
      invariant i <= |b.offsets| && !ret.LimitsExceeded?
      invariant Matches(b.nm, k, b.offsets[i..])
      invariant RunAll(T, src, position, b.offsets[i..], Going(ret, b.nm, k, end)) == all
    {
      var o := b.offsets[i];
      assert b.offsets[i..][0] == o && b.offsets[i..][1..] == b.offsets[i + 1..];
      ghost var x := Going(ret, b.nm, k, end);
      MatchesStep(T, src, position, b.offsets[i..], x);
      var r := new Reader(src, position + o.pos);
      var m, stop;
      ret, m, k, stop := RefreshOne(T, r, o, b.nm, k, position);
      b.nm := m;
      if stop {
        return Bad, position;
      }
      end := r.pos;
      i := i + 1;
    }
  }
}
