/** The publisher's fast path: an encoded message is patched at the recorded places instead of being
    encoded again. */
module Publisher {
  import opened Bytes
  import opened Types
  import opened Wire
  import opened Parse
  import opened Survival
  import opened Faithful
  import opened SizeOracle
  import opened Framing
  import opened NetworkMessage
  import opened Layout
  import opened NetworkSizes
  import opened NetworkCalc

  // ----- what one entry writes -----

  /** The value a Variant entry encodes: it has captured the data pointer and the type, as a scalar. */
  function Pinned(x: Variant): Variant {
    match x
    case Array(ty, arr, _) => if Count(arr) > 0 then Scalar(ty, arr.elems[0]) else Array(ty, arr, [])
    case _ => x
  }

  lemma PinnedTyped(T: Table, x: Variant)
    requires VariantTyped(T, x)
    ensures VariantTyped(T, Pinned(x))
  {
    if x.Array? && Count(x.arr) > 0 {
      assert ElemsTyped(T, x.ty, x.arr.elems);
    }
  }

  predicate Supported(src: Source) {
    src.NmSequenceAt? || src.DsmSequenceAt? || src.VariantAt? || src.DataValueAt?
  }

  /** The entry still refers to something of m, of the type it has captured. */
  predicate Live(m: NetworkMessage, src: Source) {
    match src
    case NmSequenceAt => m.groupHeader.Some? && m.groupHeader.value.sequenceNumber.Some?
    case DsmSequenceAt(i) => i < |m.messages| && m.messages[i].sequenceNr.Some?
    case VariantAt(i, j, ty) =>
      && i < |m.messages| && HasEntries(m.messages[i]) && m.messages[i].frame.KeyFrame?
      && j < |m.messages[i].frame.fields| && ty == CapturedType(m.messages[i].frame.fields[j].value)
    case DataValueAt(i, j) =>
      i < |m.messages| && HasEntries(m.messages[i]) && m.messages[i].frame.KeyFrame? && j < |m.messages[i].frame.fields|
    case _ => true
  }

  /** A DataValue entry always refers to the first field. */
  ghost function PatchField(T: Table, m: NetworkMessage, src: Source): (f: DataValue)
    requires NmTyped(T, m) && Live(m, src) && (src.VariantAt? || src.DataValueAt?)
    ensures VariantTyped(T, f.value)
  {
    var x := m.messages[src.i];
    assert DsmTyped(T, x);
    var f := x.frame.fields[if src.VariantAt? then src.j else 0];
    if src.VariantAt? then PinnedTyped(T, f.value); f.(value := Pinned(f.value)) else f
  }

  ghost function Patch(T: Table, m: NetworkMessage, src: Source): bytes
    requires NmTyped(T, m) && Live(m, src) && Supported(src)
  {
    match src
    case NmSequenceAt => OptLE(m.groupHeader.value.sequenceNumber, 2)
    case DsmSequenceAt(i) => OptLE(m.messages[i].sequenceNr, 2)
    case VariantAt(_, _, _) => EncKeyField(T, ENC_VARIANT, PatchField(T, m, src))
    case DataValueAt(_, _) => EncKeyField(T, ENC_DATAVALUE, PatchField(T, m, src))
  }

  ghost predicate PatchOk(T: Table, m: NetworkMessage, src: Source)
    requires NmTyped(T, m) && Live(m, src)
    ensures PatchOk(T, m, src) ==> Supported(src)
  {
    && Supported(src)
    && (src.VariantAt? ==> KeyFieldOk(T, ENC_VARIANT, PatchField(T, m, src)))
    && (src.DataValueAt? ==> KeyFieldOk(T, ENC_DATAVALUE, PatchField(T, m, src)))
  }

  // ----- patching -----

  function Overwrite(s: bytes, p: nat, e: bytes): (r: bytes)
    requires p + |e| <= |s|
    ensures |r| == |s|
  {
    s[..p] + e + s[p + |e|..]
  }

  ghost predicate AllLive(m: NetworkMessage, offs: seq<Offset>) {
    forall o | o in offs :: Live(m, o.src)
  }

  /** All entries in turn; None when one is not supported, cannot be encoded or does not fit. */
  ghost function PatchAll(T: Table, m: NetworkMessage, offs: seq<Offset>, s: bytes): (r: Option<bytes>)
    requires NmTyped(T, m) && AllLive(m, offs)
    ensures r.Some? ==> |r.value| == |s|
  {
    if offs == [] then Some(s)
    else
      var o := offs[0];
      if !PatchOk(T, m, o.src) || o.pos + |Patch(T, m, o.src)| > |s| then None
      else PatchAll(T, m, offs[1..], Overwrite(s, o.pos, Patch(T, m, o.src)))
  }

  lemma OverwrittenAt(s: bytes, p: nat, e: bytes, k: nat)
    requires p + |e| <= |s| && k < |s|
    ensures Overwrite(s, p, e)[k] == if p <= k < p + |e| then e[k - p] else s[k]
  {
  }

  /** Only sequence numbers and fields of key frames are patched; fields have to be encodable, and a
      DataValue entry stands for the first field of its frame. */
  lemma EntryPatches(T: Table, m: NetworkMessage, src: Source)
    requires NmTyped(T, m) && Live(m, src)
    ensures src.NmSequenceAt? ==> PatchOk(T, m, src) && Patch(T, m, src) == LE(m.groupHeader.value.sequenceNumber.value, 2)
    ensures src.DsmSequenceAt? ==> PatchOk(T, m, src) && Patch(T, m, src) == LE(m.messages[src.i].sequenceNr.value, 2)
    ensures src.VariantAt? ==>
      var x := Pinned(m.messages[src.i].frame.fields[src.j].value);
      VariantTyped(T, x) && (PatchOk(T, m, src) <==> VariantOk(T, x, 0)) && Patch(T, m, src) == EncVariant(T, x)
    ensures src.DataValueAt? ==>
      var f := m.messages[src.i].frame.fields[0];
      VariantTyped(T, f.value) && (PatchOk(T, m, src) <==> (f.hasValue ==> VariantOk(T, f.value, 0))) && Patch(T, m, src) == EncData(T, f)
    ensures !src.NmSequenceAt? && !src.DsmSequenceAt? && !src.VariantAt? && !src.DataValueAt? ==> !PatchOk(T, m, src)
  {
    hide NmTyped, VariantOk, EncVariant, EncData, LE, VariantTyped;
    assert src.VariantAt? || src.DataValueAt? ==> VariantTyped(T, PatchField(T, m, src).value);
  }

  /** Patching as a whole fails exactly when some entry is not supported, cannot be encoded, or does not fit at its place. */
  lemma {:induction false} PatchStops(T: Table, m: NetworkMessage, offs: seq<Offset>, s: bytes)
    requires NmTyped(T, m) && AllLive(m, offs)
    ensures PatchAll(T, m, offs, s).None? <==>
      exists k :: 0 <= k < |offs| && (!PatchOk(T, m, offs[k].src) || offs[k].pos + |Patch(T, m, offs[k].src)| > |s|)
    decreases offs
  {
    hide NmTyped, PatchOk, Patch, Live, Overwrite;
    if offs != [] {
      var o := offs[0];
      if PatchOk(T, m, o.src) && o.pos + |Patch(T, m, o.src)| <= |s| {
        PatchStops(T, m, offs[1..], Overwrite(s, o.pos, Patch(T, m, o.src)));
        assert forall k | 1 <= k < |offs| :: offs[k] == offs[1..][k - 1];
        assert forall k | 0 <= k < |offs| - 1 :: offs[1..][k] == offs[k + 1];
      }
    }
  }

  /** Each hole gets its new octets: then patching gives the new message. */
  lemma {:induction false} PatchRight(T: Table, m: NetworkMessage, pre: bytes, L: seq<Seg>, N: seq<Seg>)
    requires NmTyped(T, m) && Aligned(L, N) && AllLive(m, OffsetsOf(L, |pre|))
    requires forall y | y in N && y.src.Some? :: Live(m, y.src.value) && PatchOk(T, m, y.src.value) && Patch(T, m, y.src.value) == y.b
    ensures PatchAll(T, m, OffsetsOf(L, |pre|), pre + Octets(L)) == Some(pre + Octets(N))
    decreases L
  {
    hide NmTyped, PatchOk, Patch, Live, Overwrite;
    if L != [] {
      var x, y, rest := L[0], N[0], Octets(L[1..]);
      assert Twin(x, y) && y in N;
      assert AlignedTail(L, N);
      Glue(pre, x.b, rest);
      Glue(pre, y.b, Octets(N[1..]));
      OverwriteMiddle(pre, x.b, y.b, rest);
      assert x.src.Some? ==> OffsetsOf(L, |pre|)[0] == Offset(x.src.value, |pre|)
                             && OffsetsOf(L, |pre|)[1..] == OffsetsOf(L[1..], |pre + y.b|);
      assert x.src.None? ==> OffsetsOf(L, |pre|) == OffsetsOf(L[1..], |pre + y.b|);
      PatchRight(T, m, pre + y.b, L[1..], N[1..]);
    } else {
      assert N == [];
    }
  }

  lemma Glue(a: bytes, b: bytes, c: bytes)
    ensures a + (b + c) == a + b + c
  {
  }

  lemma OverwriteMiddle(pre: bytes, x: bytes, y: bytes, post: bytes)
    requires |x| == |y|
    ensures Overwrite(pre + x + post, |pre|, y) == pre + y + post
  {
    var s := pre + x + post;
    assert s[..|pre|] == pre && s[|pre| + |y|..] == post;
  }

  /** Same places and sizes, and the same octets outside the holes. */
  predicate Twin(x: Seg, y: Seg) {
    x.src == y.src && x.n == y.n == |x.b| == |y.b| && (x.src.None? ==> x.b == y.b)
  }

  predicate Aligned(L: seq<Seg>, N: seq<Seg>) {
    |L| == |N| && forall k | 0 <= k < |L| :: Twin(L[k], N[k])
  }

  predicate AlignedTail(L: seq<Seg>, N: seq<Seg>)
    requires Aligned(L, N) && L != []
    ensures AlignedTail(L, N)
  {
    assert forall k | 0 <= k < |L[1..]| :: L[1..][k] == L[k + 1] && N[1..][k] == N[k + 1];
    Aligned(L[1..], N[1..])
  }

  lemma AlignedCat(a: seq<Seg>, b: seq<Seg>, c: seq<Seg>, d: seq<Seg>)
    requires Aligned(a, b) && Aligned(c, d)
    ensures Aligned(a + c, b + d)
  {
    hide Twin;
  }

  /** Octets before all remaining entries stay. */
  lemma {:induction false} PatchBehind(T: Table, m: NetworkMessage, offs: seq<Offset>, s: bytes, q: nat)
    requires NmTyped(T, m) && AllLive(m, offs) && q <= |s| && (forall o | o in offs :: o.pos >= q)
    ensures var z := PatchAll(T, m, offs, s); z.Some? ==> z.value[..q] == s[..q]
    decreases offs
  {
    hide NmTyped, PatchOk, Patch, Live;
    if offs != [] {
      var o := offs[0];
      assert o in offs;
      if PatchOk(T, m, o.src) && o.pos + |Patch(T, m, o.src)| <= |s| {
        var s1 := Overwrite(s, o.pos, Patch(T, m, o.src));
        assert s1[..q] == s[..q];
        assert forall x | x in offs[1..] :: x in offs;
        PatchBehind(T, m, offs[1..], s1, q);
      }
    }
  }

  lemma {:induction false} Later(L: seq<Seg>, pos: nat)
    ensures forall o | o in OffsetsOf(L, pos) :: o.pos >= pos
    decreases L
  {
    if L != [] {
      Later(L[1..], pos + L[0].n);
    }
  }

  /** Two strings agree as far as both go. */
  predicate Agree(a: bytes, b: bytes) {
    forall i | 0 <= i < |a| && i < |b| :: a[i] == b[i]
  }

  lemma HoleAgrees(s: bytes, pre: bytes, e: bytes, b: bytes, post: bytes)
    requires |s| == |pre + b + post| && |pre| + |e| <= |s|
    requires Overwrite(s, |pre|, e)[..|pre + b|] == (pre + b + post)[..|pre + b|]
    ensures Agree(e, b)
  {
    forall i | 0 <= i < |e| && i < |b| ensures e[i] == b[i] {
      assert Overwrite(s, |pre|, e)[|pre| + i] == e[i];
      assert Overwrite(s, |pre|, e)[..|pre + b|][|pre| + i] == (pre + b + post)[..|pre + b|][|pre| + i];
    }
  }

  /** If patching gives the new message, each entry's octets agree with the new octets of its hole. */
  lemma {:induction false} PatchNecessary(T: Table, m: NetworkMessage, pre: bytes, L: seq<Seg>, N: seq<Seg>, s: bytes, y: Seg)
    requires NmTyped(T, m) && Aligned(L, N) && AllLive(m, OffsetsOf(L, |pre|)) && |s| == |pre| + |Octets(N)|
    requires PatchAll(T, m, OffsetsOf(L, |pre|), s) == Some(pre + Octets(N))
    requires y in N && y.src.Some?
    ensures Live(m, y.src.value) && PatchOk(T, m, y.src.value) && Agree(Patch(T, m, y.src.value), y.b)
    decreases L
  {
    hide NmTyped, PatchOk, Patch, Live;
    var x, y0 := L[0], N[0];
    assert Twin(x, y0);
    assert AlignedTail(L, N);
    var pre1 := pre + y0.b;
    assert pre + Octets(N) == pre1 + Octets(N[1..]);
    if x.src.Some? {
      var offs := OffsetsOf(L, |pre|);
      assert offs[0] == Offset(x.src.value, |pre|) && offs[0] in offs;
      assert offs[1..] == OffsetsOf(L[1..], |pre1|);
      var e := Patch(T, m, x.src.value);
      var s1 := Overwrite(s, |pre|, e);
      Later(L[1..], |pre1|);
      assert AllLive(m, offs[1..]) by { assert forall o | o in offs[1..] :: o in offs; }
      PatchBehind(T, m, offs[1..], s1, |pre1|);
      HoleAgrees(s, pre, e, y0.b, Octets(N[1..]));
      if y in N[1..] {
        PatchNecessary(T, m, pre1, L[1..], N[1..], s1, y);
      }
    } else {
      assert OffsetsOf(L, |pre|) == OffsetsOf(L[1..], |pre1|);
      assert y != y0 && y in N[1..];
      PatchNecessary(T, m, pre1, L[1..], N[1..], s, y);
    }
  }

  // ----- messages that differ only in sequence numbers and field data of the same size -----

  ghost predicate SameField(T: Table, encoding: u8, f: DataValue, g: DataValue)
    requires VariantTyped(T, f.value) && VariantTyped(T, g.value)
  {
    && |EncKeyField(T, encoding, f)| == |EncKeyField(T, encoding, g)|
    && (encoding == ENC_VARIANT ==> CapturedType(f.value) == CapturedType(g.value))
  }

  ghost predicate SameFields(T: Table, encoding: u8, fs: seq<DataValue>, gs: seq<DataValue>)
    requires FieldsAre(T, fs) && FieldsAre(T, gs)
  {
    |fs| == |gs| && (fs != [] ==> SameField(T, encoding, fs[0], gs[0]) && SameFields(T, encoding, fs[1..], gs[1..]))
  }

  ghost predicate SameDsm(T: Table, x: DataSetMessage, y: DataSetMessage)
    requires DsmTyped(T, x) && DsmTyped(T, y)
  {
    && y == x.(sequenceNr := y.sequenceNr, frame := y.frame) && x.sequenceNr.Some? == y.sequenceNr.Some?
    && (if HasEntries(x) then SameFields(T, x.fieldEncoding, x.frame.fields, y.frame.fields) else y.frame == x.frame)
  }

  ghost predicate SameDsms(T: Table, xs: seq<DataSetMessage>, ys: seq<DataSetMessage>)
    requires DsmsAre(T, xs) && DsmsAre(T, ys)
  {
    |xs| == |ys| && (xs != [] ==> SameDsm(T, xs[0], ys[0]) && SameDsms(T, xs[1..], ys[1..]))
  }

  predicate SameGroup(a: Option<GroupHeader>, b: Option<GroupHeader>) {
    if a.None? || b.None? then a == b
    else b.value == a.value.(sequenceNumber := b.value.sequenceNumber)
         && a.value.sequenceNumber.Some? == b.value.sequenceNumber.Some?
  }

  ghost predicate SameShape(T: Table, m: NetworkMessage, n: NetworkMessage)
    requires NmTyped(T, m) && NmTyped(T, n)
  {
    && n == m.(groupHeader := n.groupHeader, messages := n.messages)
    && SameGroup(m.groupHeader, n.groupHeader) && SameDsms(T, m.messages, n.messages)
  }

  lemma {:induction false} FieldsAligned(T: Table, encoding: u8, fs: seq<DataValue>, gs: seq<DataValue>, i: nat, j: nat)
    requires FieldsAre(T, fs) && FieldsAre(T, gs) && SameFields(T, encoding, fs, gs)
    requires KeyFieldsOk(T, encoding, fs) && KeyFieldsOk(T, encoding, gs)
    requires FieldsMeasured(T, encoding, fs) && FieldsMeasured(T, encoding, gs)
    ensures Aligned(LayoutFields(T, encoding, fs, i, j), LayoutFields(T, encoding, gs, i, j))
    ensures KeyFieldsSize(T, encoding, fs) == KeyFieldsSize(T, encoding, gs)
    decreases fs
  {
    hide EncKeyField, KeyFieldSize, KeyFieldOk, KeyFieldSlack;
    if fs != [] {
      KeyFieldSizeExact(T, encoding, fs[0]);
      KeyFieldSizeExact(T, encoding, gs[0]);
      FieldsAligned(T, encoding, fs[1..], gs[1..], i, j + 1);
      AlignedCat([LayoutFields(T, encoding, fs, i, j)[0]], [LayoutFields(T, encoding, gs, i, j)[0]],
                 LayoutFields(T, encoding, fs[1..], i, j + 1), LayoutFields(T, encoding, gs[1..], i, j + 1));
    }
  }

  lemma SelfAligned(L: seq<Seg>)
    requires Tight(L)
    ensures Aligned(L, L)
  {
    forall k | 0 <= k < |L| ensures Twin(L[k], L[k]) {
      assert L[k] in L;
    }
  }

  lemma DsmAligned(T: Table, x: DataSetMessage, y: DataSetMessage, i: nat)
    requires DsmTyped(T, x) && DsmTyped(T, y) && DsmOk(T, x) && DsmOk(T, y) && SameDsm(T, x, y)
    requires DsmMeasured(T, x) && DsmMeasured(T, y)
    ensures Aligned(LayoutDsm(T, x, i), LayoutDsm(T, y, i)) && DsmSize(T, x) == DsmSize(T, y)
  {
    hide FieldsAre, DeltasAre, KeyFieldsOk, DeltaFieldsOk, SameFields, FieldsMeasured, DsmSlack, LayoutFields, LE, DsmFlags1, DsmFlags2,
         KeyFieldsSize, EncKeyFields, DeltaFieldsSize, EncDeltaFields, Aligned;
    HeaderAligned(x, y, i);
    FrameAligned(T, x, y, i);
    AlignedCat(LayoutDsmHeader(x, i), LayoutDsmHeader(y, i), LayoutFrame(T, x, i), LayoutFrame(T, y, i));
  }

  lemma HeaderAligned(x: DataSetMessage, y: DataSetMessage, i: nat)
    requires y == x.(sequenceNr := y.sequenceNr, frame := y.frame) && x.sequenceNr.Some? == y.sequenceNr.Some?
    ensures Aligned(LayoutDsmHeader(x, i), LayoutDsmHeader(y, i)) && |DsmHeader(x)| == |DsmHeader(y)|
  {
    hide OptLE, Mark;
    OptLength(x.sequenceNr, 2);
    OptLength(y.sequenceNr, 2);
  }

  lemma FrameAligned(T: Table, x: DataSetMessage, y: DataSetMessage, i: nat)
    requires DsmTyped(T, x) && DsmTyped(T, y) && DsmOk(T, x) && DsmOk(T, y) && SameDsm(T, x, y)
    requires DsmMeasured(T, x) && DsmMeasured(T, y)
    ensures Aligned(LayoutFrame(T, x, i), LayoutFrame(T, y, i)) && FrameSize(T, x) == FrameSize(T, y)
  {
    hide FieldsAre, DeltasAre, KeyFieldsOk, DeltaFieldsOk, SameFields, FieldsMeasured, DsmSlack, LayoutFields, LE,
         KeyFieldsSize, EncKeyFields, DeltaFieldsSize, EncDeltaFields, EncFrame, FrameSize, Aligned;
    if HasEntries(x) {
      var fs, gs, n := x.frame.fields, y.frame.fields, [Lit(LE(|x.frame.fields|, 2), 2)];
      assert |fs| == |gs| && DsmFieldsOk(T, x) && DsmFieldsOk(T, y) by { SameCount(T, x.fieldEncoding, fs, gs); }
      FieldsAligned(T, x.fieldEncoding, fs, gs, i, 0);
      assert Aligned(n, n) by { SelfAligned(n); }
      AlignedCat(n, n, LayoutFields(T, x.fieldEncoding, fs, i, 0), LayoutFields(T, x.fieldEncoding, gs, i, 0));
      KeyFrameSize(T, x);
      KeyFrameSize(T, y);
    } else {
      assert y.frame == x.frame;
      OtherFrame(T, x, y);
      FrameTight(T, x, i);
      SelfAligned(LayoutFrame(T, x, i));
    }
  }

  predicate DsmFieldsOk(T: Table, x: DataSetMessage)
    requires DsmTyped(T, x) && HasEntries(x)
  {
    KeyFieldsOk(T, x.fieldEncoding, x.frame.fields)
  }

  lemma SameCount(T: Table, encoding: u8, fs: seq<DataValue>, gs: seq<DataValue>)
    requires FieldsAre(T, fs) && FieldsAre(T, gs) && SameFields(T, encoding, fs, gs)
    ensures |fs| == |gs|
  {
  }

  lemma KeyFrameSize(T: Table, x: DataSetMessage)
    requires DsmTyped(T, x) && HasEntries(x)
    ensures FrameSize(T, x) == 2 + KeyFieldsSize(T, x.fieldEncoding, x.frame.fields)
  {
    hide KeyFieldsSize;
  }

  lemma OtherFrame(T: Table, x: DataSetMessage, y: DataSetMessage)
    requires DsmTyped(T, x) && DsmTyped(T, y) && y == x.(sequenceNr := y.sequenceNr, frame := x.frame)
    ensures FrameSize(T, x) == FrameSize(T, y) && EncFrame(T, x) == EncFrame(T, y)
  {
    hide KeyFieldsSize, EncKeyFields, DeltaFieldsSize, EncDeltaFields, LE;
  }

  lemma {:induction false} DsmsAligned(T: Table, xs: seq<DataSetMessage>, ys: seq<DataSetMessage>, i: nat)
    requires DsmsAre(T, xs) && DsmsAre(T, ys) && DsmsOk(T, xs) && DsmsOk(T, ys) && SameDsms(T, xs, ys)
    requires DsmsMeasured(T, xs) && DsmsMeasured(T, ys)
    ensures Aligned(LayoutDsms(T, xs, i), LayoutDsms(T, ys, i))
    decreases xs
  {
    hide DsmTyped, DsmOk, SameDsm, DsmMeasured, LayoutDsm, Aligned;
    if xs == [] {
      assert Aligned([], []) by { SelfAligned([]); }
    } else {
      DsmAligned(T, xs[0], ys[0], i);
      DsmsAligned(T, xs[1..], ys[1..], i + 1);
      AlignedCat(LayoutDsm(T, xs[0], i), LayoutDsm(T, ys[0], i), LayoutDsms(T, xs[1..], i + 1), LayoutDsms(T, ys[1..], i + 1));
    }
  }

  lemma {:induction false} SizesSame(T: Table, xs: seq<DataSetMessage>, ys: seq<DataSetMessage>, given: Option<seq<u16>>)
    requires DsmsAre(T, xs) && DsmsAre(T, ys) && DsmsOk(T, xs) && DsmsOk(T, ys) && SameDsms(T, xs, ys)
    requires DsmsMeasured(T, xs) && DsmsMeasured(T, ys)
    requires given.Some? ==> |given.value| == |xs|
    ensures SentSizes(T, xs, given) == SentSizes(T, ys, given)
    decreases xs
  {
    hide DsmTyped, DsmOk, SameDsm, DsmMeasured, DsmSize, Aligned;
    if xs != [] {
      DsmAligned(T, xs[0], ys[0], 0);
      SizesSame(T, xs[1..], ys[1..], if given.Some? then Some(given.value[1..]) else None);
    }
  }

  lemma GroupAligned(m: NetworkMessage, n: NetworkMessage, rt: bool)
    requires SameGroup(m.groupHeader, n.groupHeader)
    ensures Aligned(LayoutGroup(m, rt), LayoutGroup(n, rt))
  {
    hide OptLE, Mark;
    if m.groupHeader.Some? {
      var g, h := m.groupHeader.value, n.groupHeader.value;
      OptLength(g.writerGroupId, 2);
      OptLength(g.groupVersion, 4);
      OptLength(g.networkMessageNumber, 2);
      OptLength(g.sequenceNumber, 2);
      OptLength(h.sequenceNumber, 2);
    }
  }

  lemma PiecesTight(T: Table, m: NetworkMessage, rt: bool)
    requires NmTyped(T, m) && NmOk(T, m) && PromotedSlack(T, m) == 0
    ensures Aligned(LayoutFront(m, rt), LayoutFront(m, rt)) && Aligned(LayoutPayloadHeader(m, rt), LayoutPayloadHeader(m, rt))
    ensures Aligned(LayoutMiddle(T, m), LayoutMiddle(T, m))
    ensures var a, z := [Lit(EncSizes(T, m), SizesSize(m))], [Lit(EncTrailer(m), TrailerSize(m))]; Aligned(a, a) && Aligned(z, z)
  {
    hide LayoutFront, LayoutGroup, LayoutMiddle, LayoutPayloadHeader, LayoutDsms, EncSizes, SizesSize, EncTrailer, TrailerSize, Aligned,
         NmTyped, NmOk, Tight, PromotedSlack;
    NmOkHead(T, m);
    HeadTight(T, m, rt);
    TightCat(LayoutFront(m, rt), LayoutGroup(m, rt));
    TightCat(LayoutFront(m, rt) + LayoutGroup(m, rt), LayoutPayloadHeader(m, rt));
    SelfAligned(LayoutFront(m, rt));
    SelfAligned(LayoutPayloadHeader(m, rt));
    MiddleTight(T, m);
    SelfAligned(LayoutMiddle(T, m));
    PayloadTight(T, m);
    var a, z := Lit(EncSizes(T, m), SizesSize(m)), Lit(EncTrailer(m), TrailerSize(m));
    SelfAligned([a]);
    SelfAligned([z]);
  }

  lemma NmOkHead(T: Table, m: NetworkMessage)
    requires NmTyped(T, m) && NmOk(T, m)
    ensures HeadOk(m) && MessageCount(m) < 256 && DsmsOk(T, m.messages) && DsmsAre(T, m.messages)
    ensures m.sizes.Some? ==> |m.sizes.value| == |m.messages|
    ensures m.payloadHeader != Some(NoWriterIds) && m.messageType == DATASET
  {
  }

  /** The messages differ in their group headers and DataSetMessages alone. */
  predicate SameRest(m: NetworkMessage, n: NetworkMessage) {
    n == m.(groupHeader := n.groupHeader, messages := n.messages) && m.groupHeader.Some? == n.groupHeader.Some?
  }

  lemma SameFront(m: NetworkMessage, n: NetworkMessage, rt: bool)
    requires SameRest(m, n) && MessageCount(m) < 256
    ensures MessageCount(m) == MessageCount(n)
    ensures LayoutFront(m, rt) == LayoutFront(n, rt) && LayoutPayloadHeader(m, rt) == LayoutPayloadHeader(n, rt)
    ensures SizesSize(m) == SizesSize(n) && EncTrailer(m) == EncTrailer(n) && TrailerSize(m) == TrailerSize(n)
  {
    hide Mark, LE, EncU16s, EncStr, StrSize, EncGuid;
  }

  lemma SameMiddles(T: Table, m: NetworkMessage, n: NetworkMessage)
    requires NmTyped(T, m) && NmTyped(T, n) && SameRest(m, n)
    ensures LayoutMiddle(T, m) == LayoutMiddle(T, n)
  {
    hide NmTyped, Mark, LE, EncVariants, VariantsSize, OptLE;
  }

  lemma SamePieces(T: Table, m: NetworkMessage, n: NetworkMessage, rt: bool)
    requires NmTyped(T, m) && NmTyped(T, n) && SameShape(T, m, n)
    requires SentSizes(T, m.messages, m.sizes) == SentSizes(T, n.messages, n.sizes)
    ensures LayoutFront(m, rt) == LayoutFront(n, rt) && LayoutPayloadHeader(m, rt) == LayoutPayloadHeader(n, rt)
    ensures LayoutMiddle(T, m) == LayoutMiddle(T, n) && EncSizes(T, m) == EncSizes(T, n) && SizesSize(m) == SizesSize(n)
    ensures EncTrailer(m) == EncTrailer(n) && TrailerSize(m) == TrailerSize(n)
  {
    hide DsmsAre, SameDsms, VariantsAre, EncU16s, SentSizes, LayoutFront, LayoutPayloadHeader, LayoutMiddle, SizesSize, EncTrailer,
         TrailerSize, IdTyped, MessageCount;
    SameFront(m, n, rt);
    SameMiddles(T, m, n);
  }

  lemma LayoutAligned(T: Table, m: NetworkMessage, n: NetworkMessage, rt: bool)
    requires NmTyped(T, m) && NmTyped(T, n) && SameShape(T, m, n) && NmOk(T, m) && NmOk(T, n)
    requires Measured(T, m) && Measured(T, n)
    ensures Aligned(LayoutNm(T, m, rt), LayoutNm(T, n, rt))
  {
    hide Aligned, LayoutFront, LayoutGroup, LayoutMiddle, LayoutPayloadHeader, LayoutDsms, EncSizes, SizesSize, EncTrailer,
         TrailerSize, NmTyped, NmOk, PromotedSlack, DsmsMeasured, SameDsms, SameGroup, SentSizes, DsmsOk, DsmsAre;
    NmOkHead(T, m);
    NmOkHead(T, n);
    SizesSame(T, m.messages, n.messages, m.sizes);
    SamePieces(T, m, n, rt);
    PiecesTight(T, m, rt);
    GroupAligned(m, n, rt);
    DsmsAligned(T, m.messages, n.messages, 0);
    var a, z := [Lit(EncSizes(T, m), SizesSize(m))], [Lit(EncTrailer(m), TrailerSize(m))];
    var f, h := LayoutFront(m, rt), LayoutPayloadHeader(m, rt);
    AlignedCat(f, f, LayoutGroup(m, rt), LayoutGroup(n, rt));
    AlignedCat(f + LayoutGroup(m, rt), f + LayoutGroup(n, rt), h, h);
    AlignedCat(LayoutHead(m, rt), LayoutHead(n, rt), LayoutMiddle(T, m), LayoutMiddle(T, m));
    AlignedCat(a, a, LayoutDsms(T, m.messages, 0), LayoutDsms(T, n.messages, 0));
    AlignedCat(a + LayoutDsms(T, m.messages, 0), a + LayoutDsms(T, n.messages, 0), z, z);
    AlignedCat(LayoutHead(m, rt) + LayoutMiddle(T, m), LayoutHead(n, rt) + LayoutMiddle(T, m), LayoutPayload(T, m), LayoutPayload(T, n));
  }
}
