/** The publisher's fast path as it runs: the encoded message is patched in place. */
module FastPath {
  import opened Bytes
  import opened Types
  import opened Wire
  import opened SizeOracle
  import opened EncodeState
  import opened Encoder
  import opened NetworkMessage
  import opened NetworkSizes
  import opened NetworkEncoder
  import opened NetworkCalc
  import opened Layout
  import opened Publisher
  import opened PublisherRefines

  /** Encodes what one entry refers to at the context's position. */
  method PatchOne(T: Table, m: NetworkMessage, src: Source, c: Context) returns (ret: Status)
    requires Ready(c) && NmTyped(T, m) && Live(m, src) && Supported(src)
    modifies c, c.buf
    ensures NetworkEncoder.Did(c, PatchOk(T, m, src), Patch(T, m, src), ret)
  {
    hide Exact, Flat, NmTyped, EncVariant, EncData, VariantOk, LE, Enc, Encodable;
    match src
    case NmSequenceAt => ret := NetworkEncoder.Put(c, LE(m.groupHeader.value.sequenceNumber.value, 2));
    case DsmSequenceAt(i) => ret := NetworkEncoder.Put(c, LE(m.messages[i].sequenceNr.value, 2));
    case VariantAt(i, j, _) =>
      assert FieldAt(T, m, src) == m.messages[i].frame.fields[j];
      PinnedTyped(T, m.messages[i].frame.fields[j].value);
      ret := EncodeOneVariant(T, c, Pinned(m.messages[i].frame.fields[j].value));
    case DataValueAt(i, _) =>
      assert PatchField(T, m, src) == m.messages[i].frame.fields[0];
      ret := EncodeField(T, c, ENC_DATAVALUE, m.messages[i].frame.fields[0]);
  }

  lemma Patched(a: Snap, ok: bool, e: bytes, ret: Status, z: Snap, s: bytes, t: bytes, p: nat)
    requires Exact(a, ok, e, ret, z) && p <= |s| && a.cur == s[..p] && a.tail == s[p..]
    requires |t| == |s| && z.cur + z.tail == t
    ensures ret.Good? <==> ok && p + |e| <= |s|
    ensures ret.Good? ==> t == Overwrite(s, p, e)
  {
    if ret.Good? {
      assert s[p..][|e|..] == s[p + |e|..];
    }
  }

  /** The entry can be encoded and fits into n octets. */
  ghost predicate Takes(T: Table, m: NetworkMessage, o: Offset, n: nat)
    requires NmTyped(T, m) && Live(m, o.src)
  {
    PatchOk(T, m, o.src) && o.pos + |Patch(T, m, o.src)| <= n
  }

  /** Patches every entry in turn. An entry that is not supported stops the patching; the result of a failed
      entry is overwritten by the next one's, so the result tells of the last entry alone. */
  method UpdateBufferedMessage(T: Table, m: NetworkMessage, b: OffsetBuffer) returns (ret: Status)
    requires NmTyped(T, m) && AllLive(m, b.offsets) && forall o | o in b.offsets :: o.pos <= b.buffer.Length
    modifies b.buffer
    ensures match PatchAll(T, m, b.offsets, old(b.buffer[..]))
            case Some(z) => ret.Good? && b.buffer[..] == z
            case None => true
    ensures (exists o :: o in b.offsets && !Supported(o.src)) ==> ret.Bad?
    ensures (forall o | o in b.offsets :: Supported(o.src)) ==>
              (ret.Good? <==> b.offsets == [] || Takes(T, m, b.offsets[|b.offsets| - 1], b.buffer.Length))
  {
    hide Exact, Flat, NmTyped, Live, PatchOk, Patch, Overwrite, Takes;
    ret := Good;
    ghost var all, good := PatchAll(T, m, b.offsets, b.buffer[..]), true;
    var i := 0;
    assert b.offsets[0..] == b.offsets;
    while i < |b.offsets|
      invariant i <= |b.offsets| && AllLive(m, b.offsets[i..])
      invariant good ==> ret.Good? && PatchAll(T, m, b.offsets[i..], b.buffer[..]) == all
      invariant !good ==> all.None?
      invariant forall k | 0 <= k < i :: Supported(b.offsets[k].src)
      invariant ret.Good? <==> i == 0 || Takes(T, m, b.offsets[i - 1], b.buffer.Length)
    {
      var o := b.offsets[i];
      assert o in b.offsets && b.offsets[i..][0] == o && b.offsets[i..][1..] == b.offsets[i + 1..];
      assert AllLive(m, b.offsets[i + 1..]) by { assert forall x | x in b.offsets[i + 1..] :: x in b.offsets; }
      if !Supported(o.src) {
        return Bad;
      }
      ghost var s := b.buffer[..];
      var c := new Context.Over(b.buffer, o.pos);
      ghost var a := c.View();
      ret := PatchOne(T, m, o.src, c);
      TakesIs(T, m, o, b.buffer.Length);
      Patched(a, PatchOk(T, m, o.src), Patch(T, m, o.src), ret, c.View(), s, b.buffer[..], o.pos);
      if !ret.Good? {
        good := false;
      }
      i := i + 1;
    }
    assert b.offsets[i..] == [];
  }

  lemma TakesIs(T: Table, m: NetworkMessage, o: Offset, n: nat)
    requires NmTyped(T, m) && Live(m, o.src) && Supported(o.src)
    ensures Takes(T, m, o, n) <==> PatchOk(T, m, o.src) && o.pos + |Patch(T, m, o.src)| <= n
  {
    hide NmTyped, Live, PatchOk, Patch;
  }

  /** An encodable message is written as a whole exactly when the oracle's size less the slack fits the buffer:
      a buffer of the oracle's size suffices unless the slack is negative, and then exactly the slack is left over. */
  method EncodeSized(T: Table, m: NetworkMessage, buffer: array<u8>) returns (ret: Status, n: nat)
    requires NmTyped(T, m) && NmOk(T, m)
    modifies buffer
    ensures n <= buffer.Length
    ensures ret.Good? && buffer[..n] == EncNm(T, m) <==> NmSize(T, m) - NmSlack(T, m) <= buffer.Length
    ensures NmSize(T, m) - NmSlack(T, m) <= buffer.Length ==>
              n == NmSize(T, m) - NmSlack(T, m) && buffer[n..] == old(buffer[n..])
  {
    hide NmTyped, NmOk, NmSlack, EncNm, NmSize, Written, CoreOk, Flat, Exact;
    NmSizeExact(T, m);
    var c := new Context.Over(buffer, 0);
    ghost var a := c.View();
    ret := EncodeNm(T, c, m);
    n := c.pos;
    if |EncNm(T, m)| <= buffer.Length {
      assert a.cur + EncNm(T, m) == EncNm(T, m);
      assert c.View() == a.Plus(EncNm(T, m));
      assert buffer[n..] == old(buffer[..])[n..];
    }
  }

  /** One publication after another in the same buffer. */
  method Republish(T: Table, m: NetworkMessage, n: NetworkMessage) returns (ret: Status, sent: bytes)
    requires NmTyped(T, m) && NmTyped(T, n) && SameShape(T, m, n) && NmOk(T, m) && NmOk(T, n)
    requires Measured(T, m) && Measured(T, n)
    requires DsmsAre(T, n.messages) && Patchable(T, n)
    ensures ret.Good? && sent == EncNm(T, n)
  {
    hide NmTyped, NmOk, SameShape, Measured, Entries, PatchAll, Patchable, EncNm, NmSize, DsmsAre, Written, CoreOk, Flat, Exact, Live,
         LayoutNm, OffsetsOf, AllEntriesOk, SameDsms;
    var none := new u8[0];
    var b := new OffsetBuffer(none, false, m);
    var size := CalcNm(T, m, b);
    assert b.offsets == Entries(T, m, false);
    NmSizeExact(T, m);
    MeasuredSum(T, m);
    b.buffer := new u8[size];
    var c := new Context.Over(b.buffer, 0);
    ret := EncodeNm(T, c, m);
    assert b.buffer[..] == EncNm(T, m);
    TableLive(T, m, n, false);
    LayoutAligned(T, m, n, false);
    SameOffsets(LayoutNm(T, m, false), LayoutNm(T, n, false), 0);
    PatchableEntries(T, n, b.offsets);
    FastPathRight(T, m, n, false);
    TablePositions(T, m);
    ret := UpdateBufferedMessage(T, n, b);
    sent := b.buffer[..];
  }

  /** Entries lie inside the message. */
  lemma TablePositions(T: Table, m: NetworkMessage)
    requires NmTyped(T, m) && NmOk(T, m) && Measured(T, m)
    ensures forall o | o in Entries(T, m, false) :: o.pos <= |EncNm(T, m)|
  {
    hide NmTyped, NmOk, Measured, LayoutNm, EncNm, OffsetsOf, Octets, Total;
    NmOkHead(T, m);
    LayoutTight(T, m, false);
    LayoutOctets(T, m, false);
    TightTotal(LayoutNm(T, m, false));
    EntriesInside(LayoutNm(T, m, false), 0);
  }

  lemma {:induction false} EntriesInside(L: seq<Seg>, pos: nat)
    ensures forall o | o in OffsetsOf(L, pos) :: o.pos <= pos + Total(L)
    decreases L
  {
    if L != [] {
      EntriesInside(L[1..], pos + L[0].n);
    }
  }
}
