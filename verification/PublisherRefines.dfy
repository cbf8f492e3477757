/** When patching an encoded message gives the same octets as encoding the changed message. */
module PublisherRefines {
  import opened Bytes
  import opened Types
  import opened Wire
  import opened Parse
  import opened Survival
  import opened Faithful
  import opened SizeOracle
  import opened Framing
  import opened NetworkMessage
  import opened Layout
  import opened NetworkSizes
  import opened NetworkCalc
  import opened Publisher

  // ----- what the segments of a message hold -----

  ghost function FieldAt(T: Table, n: NetworkMessage, src: Source): (f: DataValue)
    requires NmTyped(T, n) && Live(n, src) && (src.VariantAt? || src.DataValueAt?)
    ensures VariantTyped(T, f.value)
  {
    assert DsmTyped(T, n.messages[src.i]);
    n.messages[src.i].frame.fields[src.j]
  }

  function EncodingOf(src: Source): u8 {
    if src.VariantAt? then ENC_VARIANT else ENC_DATAVALUE
  }

  /** The segment's octets are those of what its entry refers to. */
  ghost predicate Sound(T: Table, n: NetworkMessage, y: Seg)
    requires NmTyped(T, n)
  {
    y.src.Some? ==>
      var src := y.src.value;
      && Live(n, src)
      && (src.NmSequenceAt? || src.DsmSequenceAt? ==> y.b == Patch(T, n, src))
      && (src.VariantAt? || src.DataValueAt? ==>
            && y.b == EncKeyField(T, EncodingOf(src), FieldAt(T, n, src)) && KeyFieldOk(T, EncodingOf(src), FieldAt(T, n, src)))
      && (src.DataValueAt? ==> KeyFieldOk(T, ENC_DATAVALUE, PatchField(T, n, src)))
      && (src.VariantAt? ==> n.messages[src.i].fieldEncoding == ENC_VARIANT)
      && (src.DataValueAt? ==> n.messages[src.i].fieldEncoding != ENC_VARIANT)
  }

  ghost predicate AllSound(T: Table, n: NetworkMessage, L: seq<Seg>)
    requires NmTyped(T, n)
  {
    forall y | y in L :: Sound(T, n, y)
  }

  lemma {:induction false} FieldOkAt(T: Table, encoding: u8, fs: seq<DataValue>, j: nat)
    requires FieldsAre(T, fs) && KeyFieldsOk(T, encoding, fs) && j < |fs|
    ensures KeyFieldOk(T, encoding, fs[j])
  {
    hide KeyFieldOk;
    if j > 0 {
      FieldOkAt(T, encoding, fs[1..], j - 1);
    }
  }

  lemma {:induction false} FieldsSound(T: Table, n: NetworkMessage, i: nat, j: nat)
    requires NmTyped(T, n) && i < |n.messages| && HasEntries(n.messages[i]) && DsmTyped(T, n.messages[i])
    requires DsmFieldsOk(T, n.messages[i]) && j <= |n.messages[i].frame.fields|
    ensures var x := n.messages[i]; AllSound(T, n, LayoutFields(T, x.fieldEncoding, x.frame.fields[j..], i, j))
    decreases |n.messages[i].frame.fields| - j
  {
    hide NmTyped, EncKeyField, KeyFieldSize, KeyFieldOk, KeyFieldsOk;
    var x := n.messages[i];
    var fs, encoding := x.frame.fields, x.fieldEncoding;
    if j < |fs| {
      FieldsSound(T, n, i, j + 1);
      FieldOkAt(T, encoding, fs, j);
      FieldOkAt(T, encoding, fs, 0);
      assert fs[j..][0] == fs[j] && fs[j..][1..] == fs[j + 1..];
    }
  }

  lemma DsmSound(T: Table, n: NetworkMessage, i: nat)
    requires NmTyped(T, n) && i < |n.messages| && DsmTyped(T, n.messages[i]) && DsmOk(T, n.messages[i])
    ensures AllSound(T, n, LayoutDsm(T, n.messages[i], i))
  {
    hide NmTyped, LayoutFields, EncFrame, FrameSize, DsmFlags, DsmHeaderRest, OptLE, FieldsAre, DeltasAre, KeyFieldsOk, DeltaFieldsOk,
         FieldAt, PatchField, EncKeyField, KeyFieldOk, LE;
    var x := n.messages[i];
    if HasEntries(x) {
      assert DsmFieldsOk(T, x);
      FieldsSound(T, n, i, 0);
      assert x.frame.fields[0..] == x.frame.fields;
    }
  }

  lemma {:induction false} DsmsSound(T: Table, n: NetworkMessage, i: nat)
    requires NmTyped(T, n) && i <= |n.messages| && DsmsAre(T, n.messages[i..]) && DsmsOk(T, n.messages[i..])
    ensures AllSound(T, n, LayoutDsms(T, n.messages[i..], i))
    decreases |n.messages| - i
  {
    hide NmTyped, LayoutDsm, DsmTyped, DsmOk, Sound;
    if i < |n.messages| {
      var xs := n.messages[i..];
      assert xs[0] == n.messages[i] && xs[1..] == n.messages[i + 1..];
      DsmSound(T, n, i);
      DsmsSound(T, n, i + 1);
    }
  }

  lemma HeadSound(T: Table, n: NetworkMessage, rt: bool)
    requires NmTyped(T, n) && MessageCount(n) < 256
    ensures AllSound(T, n, LayoutHead(n, rt))
  {
    hide NmTyped, OptLE, EncFlags, EncPublisherId, EncClassId, EncU16s, GroupFlags, PublisherIdSize, FieldAt, PatchField, EncKeyField,
         KeyFieldOk, LE;
  }

  lemma MiddleSound(T: Table, n: NetworkMessage)
    requires NmTyped(T, n)
    ensures AllSound(T, n, LayoutMiddle(T, n))
  {
    hide NmTyped, EncPromoted, EncSecurity, OptLE, VariantsSize, FieldAt, PatchField, EncKeyField, KeyFieldOk;
  }

  lemma LayoutSound(T: Table, n: NetworkMessage, rt: bool)
    requires NmTyped(T, n) && NmOk(T, n)
    ensures AllSound(T, n, LayoutNm(T, n, rt))
  {
    hide NmTyped, NmOk, LayoutDsms, EncSizes, SizesSize, EncTrailer, TrailerSize, LayoutHead, LayoutMiddle, Sound, DsmsAre, DsmsOk;
    NmOkHead(T, n);
    assert n.messages[0..] == n.messages;
    DsmsSound(T, n, 0);
    HeadSound(T, n, rt);
    MiddleSound(T, n);
    assert Sound(T, n, Lit(EncSizes(T, n), SizesSize(n))) by { LitSound(T, n, EncSizes(T, n), SizesSize(n)); }
    assert Sound(T, n, Lit(EncTrailer(n), TrailerSize(n))) by { LitSound(T, n, EncTrailer(n), TrailerSize(n)); }
  }

  lemma LitSound(T: Table, n: NetworkMessage, b: bytes, k: nat)
    requires NmTyped(T, n)
    ensures Sound(T, n, Lit(b, k))
  {
    hide NmTyped;
  }

  // ----- which entries are patched with the octets of their own hole -----

  /** The entry writes what the full encoder writes there: a scalar or empty Variant, or a DataValue encoded
      like the first one of its frame; other contents are patched wrongly or not supported at all. */
  ghost predicate EntryOk(T: Table, n: NetworkMessage, src: Source)
    requires NmTyped(T, n) && Live(n, src)
  {
    match src
    case NmSequenceAt => true
    case DsmSequenceAt(_) => true
    case VariantAt(_, _, _) => Pinned(FieldAt(T, n, src).value) == FieldAt(T, n, src).value
    case DataValueAt(_, _) =>
      EncKeyField(T, ENC_DATAVALUE, PatchField(T, n, src)) == EncKeyField(T, ENC_DATAVALUE, FieldAt(T, n, src))
    case _ => false
  }

  lemma EntryRight(T: Table, n: NetworkMessage, y: Seg)
    requires NmTyped(T, n) && Sound(T, n, y) && y.src.Some? && EntryOk(T, n, y.src.value)
    ensures PatchOk(T, n, y.src.value) && Patch(T, n, y.src.value) == y.b
  {
    hide NmTyped, EncKeyField, KeyFieldOk, OptLE;
  }

  lemma FirstByte(T: Table, x: Variant)
    requires VariantTyped(T, x)
    ensures |EncVariant(T, x)| > 0 && EncVariant(T, x)[0] == VariantByte(T, x)
  {
    hide VariantByte;
    assert VariantByte(T, Empty) == 0 by { ByteOfEmpty(T); }
  }

  lemma ByteOfEmpty(T: Table)
    ensures VariantByte(T, Empty) == 0
  {
  }

  /** The first octet tells scalars from arrays, and arrays with dimensions from those without. */
  lemma VariantByteBits(T: Table, x: Variant)
    requires VariantTyped(T, x)
    ensures Has(VariantByte(T, x), 7) == x.Array? && (x.Array? ==> Has(VariantByte(T, x), 6) == (x.dims != []))
  {
    hide Mark, Has;
    var v := if x.Empty? then 0 else VariantKind(T, x.ty) + 1;
    assert Pow2(6) == 64 by { assert Pow2(3) == 8; }
    HighBits(v, 6, 6);
    HighBits(v, 6, 7);
    if x.Array? {
      var m := Mark(v, 7, true);
      MarkHas(v, 7, true, 7);
      MarkHas(v, 7, true, 6);
      MarkHas(m, 6, x.dims != [], 7);
      MarkHas(m, 6, x.dims != [], 6);
    }
  }

  /** A pinned value that differs is encoded differently from the first octet on. */
  lemma PinnedDiffers(T: Table, x: Variant)
    requires VariantTyped(T, x) && Pinned(x) != x
    ensures VariantTyped(T, Pinned(x)) && !Agree(EncVariant(T, Pinned(x)), EncVariant(T, x))
  {
    hide VariantByte, EncVariant, Has;
    PinnedTyped(T, x);
    FirstByte(T, x);
    FirstByte(T, Pinned(x));
    VariantByteBits(T, x);
    VariantByteBits(T, Pinned(x));
    assert EncVariant(T, Pinned(x))[0] != EncVariant(T, x)[0];
  }

  /** Two surviving DataValues whose encodings agree as far as both go have the same encoding. */
  lemma DataPrefixFree(T: Table, f: DataValue, g: DataValue)
    requires VariantTyped(T, f.value) && VariantTyped(T, g.value)
    requires KeyFieldOk(T, ENC_DATAVALUE, f) && KeyFieldOk(T, ENC_DATAVALUE, g)
    requires DataSurvives(T, f, 0, 0) && DataSurvives(T, g, 0, 0)
    requires Agree(EncData(T, f), EncData(T, g)) && |EncData(T, f)| <= |EncData(T, g)|
    ensures EncData(T, f) == EncData(T, g)
  {
    hide EncData, DataSurvives, VariantOk, DecData, NormData;
    var a, b := EncData(T, f), EncData(T, g);
    assert a == b[..|a|];
    assert At(a, 0, a) && At(b, 0, b) && Rest(a, |a|) == 0 && Rest(b, |b|) == 0;
    DataRoundTrip(T, f, 0, a, 0, 0);
    DataRoundTrip(T, g, 0, b, 0, 0);
    DataKept(T, a, b, 0, 0);
  }

  /** The fields of all frames with DataValue entries survive by themselves. */
  ghost predicate DataFieldsSurvive(T: Table, n: NetworkMessage)
    requires NmTyped(T, n)
  {
    forall i, j | 0 <= i < |n.messages| && 0 <= j && Live(n, DataValueAt(i, j)) && n.messages[i].fieldEncoding != ENC_VARIANT ::
      DataSurvives(T, FieldAt(T, n, DataValueAt(i, j)), 0, 0)
  }

  lemma EntryWrong(T: Table, n: NetworkMessage, y: Seg)
    requires NmTyped(T, n) && Sound(T, n, y) && y.src.Some? && DataFieldsSurvive(T, n)
    requires PatchOk(T, n, y.src.value) && Agree(Patch(T, n, y.src.value), y.b)
    ensures EntryOk(T, n, y.src.value)
  {
    hide NmTyped, EncVariant, EncData, VariantOk, OptLE, DataSurvives, Agree, VariantTyped;
    var src := y.src.value;
    match src
    case VariantAt(_, _, _) =>
      var x := FieldAt(T, n, src).value;
      if Pinned(x) != x {
        PinnedDiffers(T, x);
      }
    case DataValueAt(i, j) =>
      var f, g := PatchField(T, n, src), FieldAt(T, n, src);
      assert Live(n, DataValueAt(i, 0)) && f == FieldAt(T, n, DataValueAt(i, 0));
      if |EncData(T, f)| <= |EncData(T, g)| {
        DataPrefixFree(T, f, g);
      } else {
        AgreeBack(EncData(T, f), EncData(T, g));
        DataPrefixFree(T, g, f);
      }
    case _ =>
  }

  lemma AgreeBack(a: bytes, b: bytes)
    requires Agree(a, b)
    ensures Agree(b, a)
  {
  }

  // ----- entries and segments -----

  lemma {:induction false} EntryOfSegment(L: seq<Seg>, pos: nat, y: Seg)
    requires y in L && y.src.Some?
    ensures exists o :: o in OffsetsOf(L, pos) && o.src == y.src.value
    decreases L
  {
    if y == L[0] {
      assert OffsetsOf(L, pos)[0] == Offset(y.src.value, pos);
    } else {
      EntryOfSegment(L[1..], pos + L[0].n, y);
      var o :| o in OffsetsOf(L[1..], pos + L[0].n) && o.src == y.src.value;
      assert o in OffsetsOf(L, pos);
    }
  }

  lemma {:induction false} SegmentOfEntry(L: seq<Seg>, pos: nat, o: Offset)
    requires o in OffsetsOf(L, pos)
    ensures exists y :: y in L && y.src == Some(o.src)
    decreases L
  {
    if L[0].src.Some? && o == Offset(L[0].src.value, pos) {
      assert L[0] in L;
    } else {
      SegmentOfEntry(L[1..], pos + L[0].n, o);
      var y :| y in L[1..] && y.src == Some(o.src);
      assert y in L;
    }
  }

  lemma {:induction false} SameOffsets(L: seq<Seg>, N: seq<Seg>, pos: nat)
    requires Aligned(L, N)
    ensures OffsetsOf(L, pos) == OffsetsOf(N, pos) && |Octets(L)| == |Octets(N)|
    decreases L
  {
    if L != [] {
      assert Twin(L[0], N[0]) && AlignedTail(L, N);
      SameOffsets(L[1..], N[1..], pos + L[0].n);
    }
  }

  /** Every entry recorded for the old message is live in the new one and patches its own hole. */
  ghost predicate AllEntriesOk(T: Table, n: NetworkMessage, offs: seq<Offset>)
    requires NmTyped(T, n)
  {
    forall o | o in offs :: Live(n, o.src) && EntryOk(T, n, o.src)
  }

  /** The table of the old message fits the new message. */
  lemma TableLive(T: Table, m: NetworkMessage, n: NetworkMessage, rt: bool)
    requires NmTyped(T, m) && NmTyped(T, n) && SameShape(T, m, n) && NmOk(T, m) && NmOk(T, n)
    requires Measured(T, m) && Measured(T, n)
    ensures Entries(T, m, rt) == Entries(T, n, rt) == OffsetsOf(LayoutNm(T, m, rt), 0) && AllLive(n, Entries(T, m, rt))
  {
    hide NmTyped, NmOk, SameShape, LayoutNm, Measured, Aligned, LayoutFront, LayoutGroup, LayoutMiddle;
    NmOkHead(T, m);
    NmOkHead(T, n);
    LayoutAligned(T, m, n, rt);
    SameOffsets(LayoutNm(T, m, rt), LayoutNm(T, n, rt), 0);
    LayoutSound(T, n, rt);
    forall o | o in Entries(T, m, rt) ensures Live(n, o.src) {
      SegmentOfEntry(LayoutNm(T, n, rt), 0, o);
    }
  }

  /** The fast path refines the full encoder: if every entry patches its own hole, patching the encoding of the
      old message gives the encoding of the new one. */
  lemma FastPathRight(T: Table, m: NetworkMessage, n: NetworkMessage, rt: bool)
    requires NmTyped(T, m) && NmTyped(T, n) && SameShape(T, m, n) && NmOk(T, m) && NmOk(T, n)
    requires Measured(T, m) && Measured(T, n)
    requires AllEntriesOk(T, n, Entries(T, m, rt))
    ensures AllLive(n, Entries(T, m, rt))
    ensures PatchAll(T, n, Entries(T, m, rt), EncNm(T, m)) == Some(EncNm(T, n))
  {
    hide NmTyped, NmOk, SameShape, LayoutNm, EncNm, Measured, Aligned, Entries, Octets, OffsetsOf, Sound, EntryOk, PatchAll, Live;
    TableLive(T, m, n, rt);
    LayoutAligned(T, m, n, rt);
    LayoutSound(T, n, rt);
    LayoutOctets(T, m, rt);
    LayoutOctets(T, n, rt);
    var L, N := LayoutNm(T, m, rt), LayoutNm(T, n, rt);
    SameOffsets(L, N, 0);
    forall y | y in N && y.src.Some?
      ensures Live(n, y.src.value) && PatchOk(T, n, y.src.value) && Patch(T, n, y.src.value) == y.b
    {
      EntryOfSegment(N, 0, y);
      EntryRight(T, n, y);
    }
    PatchRight(T, n, [], L, N);
    assert [] + Octets(L) == Octets(L) && [] + Octets(N) == Octets(N);
  }

  /** And only then, provided the DataValue fields themselves survive decoding. */
  lemma FastPathExact(T: Table, m: NetworkMessage, n: NetworkMessage, rt: bool)
    requires NmTyped(T, m) && NmTyped(T, n) && SameShape(T, m, n) && NmOk(T, m) && NmOk(T, n)
    requires Measured(T, m) && Measured(T, n)
    requires DataFieldsSurvive(T, n)
    ensures AllLive(n, Entries(T, m, rt))
    ensures PatchAll(T, n, Entries(T, m, rt), EncNm(T, m)) == Some(EncNm(T, n)) <==> AllEntriesOk(T, n, Entries(T, m, rt))
  {
    hide NmTyped, NmOk, SameShape, LayoutNm, EncNm, Measured, Aligned, Entries, Octets, OffsetsOf, Sound, EntryOk, PatchAll, Live,
         DataFieldsSurvive, Agree;
    TableLive(T, m, n, rt);
    var offs := Entries(T, m, rt);
    if AllEntriesOk(T, n, offs) {
      FastPathRight(T, m, n, rt);
    }
    if PatchAll(T, n, offs, EncNm(T, m)) == Some(EncNm(T, n)) {
      LayoutAligned(T, m, n, rt);
      LayoutSound(T, n, rt);
      LayoutOctets(T, m, rt);
      LayoutOctets(T, n, rt);
      var L, N := LayoutNm(T, m, rt), LayoutNm(T, n, rt);
      SameOffsets(L, N, 0);
      assert [] + Octets(N) == Octets(N);
      forall o | o in offs ensures EntryOk(T, n, o.src) {
        SegmentOfEntry(N, 0, o);
        var y :| y in N && y.src == Some(o.src);
        PatchNecessary(T, n, [], L, N, EncNm(T, m), y);
        EntryWrong(T, n, y);
      }
    }
  }

  // ----- the condition in terms of the message -----

  ghost predicate FieldPatchable(T: Table, encoding: u8, fs: seq<DataValue>, j: nat)
    requires FieldsAre(T, fs) && j < |fs|
  {
    if encoding == ENC_VARIANT then Pinned(fs[j].value) == fs[j].value else EncData(T, fs[j]) == EncData(T, fs[0])
  }

  ghost predicate DsmPatchable(T: Table, x: DataSetMessage)
    requires DsmTyped(T, x)
  {
    HasEntries(x) ==> forall j | 0 <= j < |x.frame.fields| :: FieldPatchable(T, x.fieldEncoding, x.frame.fields, j)
  }

  /** No network timestamp or picoseconds; Variant fields are scalars, empty, or arrays without elements and
      dimensions; all DataValue fields of a frame are encoded like its first one. */
  ghost predicate Patchable(T: Table, n: NetworkMessage)
    requires DsmsAre(T, n.messages)
  {
    && n.timestamp.None? && n.picoseconds.None?
    && forall i | 0 <= i < |n.messages| :: DsmPatchable(T, n.messages[i])
  }

  predicate OnlySupported(L: seq<Seg>) {
    forall y | y in L && y.src.Some? :: Supported(y.src.value)
  }

  lemma {:induction false} DsmsSupported(T: Table, xs: seq<DataSetMessage>, i: nat)
    requires DsmsAre(T, xs)
    ensures OnlySupported(LayoutDsms(T, xs, i))
    decreases xs
  {
    hide DsmTyped, LayoutDsm;
    if xs != [] {
      DsmSupported(T, xs[0], i);
      DsmsSupported(T, xs[1..], i + 1);
    }
  }

  lemma DsmSupported(T: Table, x: DataSetMessage, i: nat)
    requires DsmTyped(T, x)
    ensures OnlySupported(LayoutDsm(T, x, i))
  {
    hide LayoutFields, FieldsAre, DeltasAre, EncFrame, FrameSize, OptLE, DsmFlags, DsmHeaderRest, LE;
    if HasEntries(x) {
      FieldsSupported(T, x.fieldEncoding, x.frame.fields, i, 0);
    }
  }

  /** Some segment is recorded for src. */
  predicate Holds(L: seq<Seg>, src: Source) {
    exists y :: y in L && y.src == Some(src)
  }

  lemma HoldsCat(a: seq<Seg>, b: seq<Seg>, src: Source)
    requires Holds(a, src) || Holds(b, src)
    ensures Holds(a + b, src)
  {
    if Holds(a, src) {
      var y :| y in a && y.src == Some(src);
      assert y in a + b;
    } else {
      var y :| y in b && y.src == Some(src);
      assert y in a + b;
    }
  }

  lemma {:induction false} FieldsSupported(T: Table, encoding: u8, fs: seq<DataValue>, i: nat, j: nat)
    requires FieldsAre(T, fs)
    ensures OnlySupported(LayoutFields(T, encoding, fs, i, j))
    ensures forall k | 0 <= k < |fs| :: Holds(LayoutFields(T, encoding, fs, i, j), FieldSource(encoding, fs[k], i, j + k))
    decreases fs
  {
    hide EncKeyField, KeyFieldSize, Holds;
    if fs != [] {
      var L := LayoutFields(T, encoding, fs, i, j);
      var rest := LayoutFields(T, encoding, fs[1..], i, j + 1);
      FieldsSupported(T, encoding, fs[1..], i, j + 1);
      assert L == [L[0]] + rest;
      forall k | 0 <= k < |fs| ensures Holds(L, FieldSource(encoding, fs[k], i, j + k)) {
        if k == 0 {
          HoldsFirst(L);
        } else {
          assert fs[1..][k - 1] == fs[k] && j + 1 + (k - 1) == j + k;
          HoldsCat([L[0]], rest, FieldSource(encoding, fs[k], i, j + k));
        }
      }
    }
  }

  lemma HoldsFirst(L: seq<Seg>)
    requires L != [] && L[0].src.Some?
    ensures Holds(L, L[0].src.value)
  {
    assert L[0] in L;
  }

  lemma OnlyMessageEntries(T: Table, n: NetworkMessage)
    requires NmTyped(T, n) && MessageCount(n) < 256 && DsmsAre(T, n.messages) && n.timestamp.None? && n.picoseconds.None?
    ensures OnlySupported(LayoutNm(T, n, false))
  {
    hide NmTyped, LayoutDsms, EncSizes, SizesSize, EncTrailer, TrailerSize, EncPromoted, EncSecurity, OptLE, EncFlags, EncPublisherId,
         EncClassId, EncU16s, GroupFlags, PublisherIdSize, VariantsSize, LE, DsmsAre;
    DsmsSupported(T, n.messages, 0);
    assert OnlySupported(LayoutHead(n, false));
    assert OnlySupported(LayoutMiddle(T, n));
  }

  lemma DsmFieldEntry(T: Table, x: DataSetMessage, i: nat, j: nat)
    requires DsmTyped(T, x) && HasEntries(x) && j < |x.frame.fields|
    ensures Holds(LayoutDsm(T, x, i), FieldSource(x.fieldEncoding, x.frame.fields[j], i, j))
  {
    hide LayoutFields, FieldsAre, DeltasAre, LE, LayoutDsmHeader, Holds, FieldSource;
    var src := FieldSource(x.fieldEncoding, x.frame.fields[j], i, j);
    FieldsSupported(T, x.fieldEncoding, x.frame.fields, i, 0);
    assert Holds(LayoutFields(T, x.fieldEncoding, x.frame.fields, i, 0), FieldSource(x.fieldEncoding, x.frame.fields[j], i, 0 + j));
    HoldsCat([Lit(LE(|x.frame.fields|, 2), 2)], LayoutFields(T, x.fieldEncoding, x.frame.fields, i, 0), src);
    HoldsCat(LayoutDsmHeader(x, i), LayoutFrame(T, x, i), src);
  }

  lemma {:induction false} DsmsHold(T: Table, xs: seq<DataSetMessage>, i0: nat, i: nat, src: Source)
    requires DsmsAre(T, xs) && i < |xs| && DsmTyped(T, xs[i]) && Holds(LayoutDsm(T, xs[i], i0 + i), src)
    ensures Holds(LayoutDsms(T, xs, i0), src)
    decreases xs
  {
    hide LayoutDsm, DsmTyped, Holds;
    if i > 0 {
      assert xs[1..][i - 1] == xs[i];
      DsmsHold(T, xs[1..], i0 + 1, i - 1, src);
    }
    HoldsCat(LayoutDsm(T, xs[0], i0), LayoutDsms(T, xs[1..], i0 + 1), src);
  }

  lemma PatchableEntries(T: Table, n: NetworkMessage, offs: seq<Offset>)
    requires NmTyped(T, n) && NmOk(T, n) && DsmsAre(T, n.messages) && offs == OffsetsOf(LayoutNm(T, n, false), 0)
    requires Patchable(T, n)
    ensures AllEntriesOk(T, n, offs)
  {
    hide NmTyped, NmOk, LayoutNm, OffsetsOf, EncData, DsmsAre;
    NmOkHead(T, n);
    OnlyMessageEntries(T, n);
    LayoutSound(T, n, false);
    forall o | o in offs ensures Live(n, o.src) && EntryOk(T, n, o.src) {
      SegmentOfEntry(LayoutNm(T, n, false), 0, o);
      var y :| y in LayoutNm(T, n, false) && y.src == Some(o.src);
      LiveEntryOk(T, n, o.src);
    }
  }

  lemma LiveEntryOk(T: Table, n: NetworkMessage, src: Source)
    requires NmTyped(T, n) && Live(n, src) && Supported(src) && DsmsAre(T, n.messages) && Patchable(T, n)
    requires src.VariantAt? ==> n.messages[src.i].fieldEncoding == ENC_VARIANT
    requires src.DataValueAt? ==> n.messages[src.i].fieldEncoding != ENC_VARIANT
    ensures EntryOk(T, n, src)
  {
    hide NmTyped, EncData;
    if src.VariantAt? || src.DataValueAt? {
      assert DsmPatchable(T, n.messages[src.i]);
      assert FieldPatchable(T, n.messages[src.i].fieldEncoding, n.messages[src.i].frame.fields, src.j);
    }
  }

  lemma EntriesPatchable(T: Table, n: NetworkMessage, offs: seq<Offset>)
    requires NmTyped(T, n) && NmOk(T, n) && DsmsAre(T, n.messages) && offs == OffsetsOf(LayoutNm(T, n, false), 0)
    requires AllEntriesOk(T, n, offs)
    ensures Patchable(T, n)
  {
    hide NmTyped, NmOk, LayoutNm, OffsetsOf, EntryOk, Live, LayoutDsms, FieldPatchable, DsmsAre, AllEntriesOk, LayoutMiddle;
    NmOkHead(T, n);
    NoStamps(T, n, offs);
    forall i | 0 <= i < |n.messages| ensures DsmTyped(T, n.messages[i]) && DsmPatchable(T, n.messages[i]) {
      TypedAt(T, n.messages, i);
      var x := n.messages[i];
      if HasEntries(x) {
        forall j | 0 <= j < |x.frame.fields| ensures FieldPatchable(T, x.fieldEncoding, x.frame.fields, j) {
          FieldEntryPatchable(T, n, offs, i, j);
        }
      }
    }
  }

  lemma TypedAt(T: Table, xs: seq<DataSetMessage>, i: nat)
    requires DsmsAre(T, xs) && i < |xs|
    ensures DsmTyped(T, xs[i])
  {
  }

  lemma FieldEntryPatchable(T: Table, n: NetworkMessage, offs: seq<Offset>, i: nat, j: nat)
    requires NmTyped(T, n) && DsmsAre(T, n.messages) && offs == OffsetsOf(LayoutNm(T, n, false), 0) && AllEntriesOk(T, n, offs)
    requires i < |n.messages| && DsmTyped(T, n.messages[i]) && HasEntries(n.messages[i]) && j < |n.messages[i].frame.fields|
    ensures FieldPatchable(T, n.messages[i].fieldEncoding, n.messages[i].frame.fields, j)
  {
    hide NmTyped, LayoutNm, OffsetsOf, EntryOk, Live, LayoutDsms, FieldPatchable, DsmsAre, DsmTyped, HasEntries, FieldSource, LayoutDsm;
    FieldsThere(T, n.messages[i]);
    var x := n.messages[i];
    var src := FieldSource(x.fieldEncoding, x.frame.fields[j], i, j);
    DsmFieldEntry(T, x, i, j);
    DsmsHold(T, n.messages, 0, i, src);
    var y :| y in LayoutDsms(T, n.messages, 0) && y.src == Some(src);
    InLayout(T, n, y);
    EntryOfSegment(LayoutNm(T, n, false), 0, y);
    EntryField(T, n, i, j);
  }

  lemma FieldsThere(T: Table, x: DataSetMessage)
    requires DsmTyped(T, x) && HasEntries(x)
    ensures x.frame.KeyFrame? && FieldsAre(T, x.frame.fields)
  {
    hide FieldsAre, DeltasAre;
  }

  lemma InLayout(T: Table, n: NetworkMessage, y: Seg)
    requires NmTyped(T, n) && DsmsAre(T, n.messages) && (y in LayoutDsms(T, n.messages, 0) || y in LayoutMiddle(T, n))
    ensures y in LayoutNm(T, n, false)
  {
    hide NmTyped, LayoutDsms, LayoutMiddle, LayoutHead, EncSizes, EncTrailer, SizesSize, TrailerSize;
    assert y in LayoutDsms(T, n.messages, 0) ==> y in LayoutPayload(T, n);
  }

  lemma EntryField(T: Table, n: NetworkMessage, i: nat, j: nat)
    requires NmTyped(T, n) && i < |n.messages| && DsmTyped(T, n.messages[i]) && HasEntries(n.messages[i])
    requires j < |n.messages[i].frame.fields|
    requires var src := FieldSource(n.messages[i].fieldEncoding, n.messages[i].frame.fields[j], i, j); Live(n, src) && EntryOk(T, n, src)
    ensures FieldPatchable(T, n.messages[i].fieldEncoding, n.messages[i].frame.fields, j)
  {
    hide NmTyped, EncData;
  }

  lemma NoStamps(T: Table, n: NetworkMessage, offs: seq<Offset>)
    requires NmTyped(T, n) && offs == OffsetsOf(LayoutNm(T, n, false), 0) && AllEntriesOk(T, n, offs)
    ensures n.timestamp.None? && n.picoseconds.None?
  {
    assert DsmsAre(T, n.messages);
    hide NmTyped, LayoutNm, OffsetsOf, EncPromoted, EncSecurity, OptLE, VariantsSize, EncData;
    var L := LayoutMiddle(T, n);
    InLayout(T, n, L[0]);
    InLayout(T, n, L[1]);
    if L[0].src.Some? {
      EntryOfSegment(LayoutNm(T, n, false), 0, L[0]);
    }
    if L[1].src.Some? {
      EntryOfSegment(LayoutNm(T, n, false), 0, L[1]);
    }
  }

  /** For a publisher's table, patching the old message gives the encoding of the new one exactly when the new
      message is patchable. */
  lemma FastPathCondition(T: Table, m: NetworkMessage, n: NetworkMessage)
    requires NmTyped(T, m) && NmTyped(T, n) && SameShape(T, m, n) && NmOk(T, m) && NmOk(T, n)
    requires Measured(T, m) && Measured(T, n)
    requires DataFieldsSurvive(T, n) && DsmsAre(T, n.messages)
    ensures AllLive(n, Entries(T, m, false))
    ensures PatchAll(T, n, Entries(T, m, false), EncNm(T, m)) == Some(EncNm(T, n)) <==> Patchable(T, n)
  {
    hide NmTyped, NmOk, SameShape, LayoutNm, EncNm, Measured, Entries, OffsetsOf, PatchAll, DataFieldsSurvive, DsmsAre, Patchable,
         AllEntriesOk;
    TableLive(T, m, n, false);
    LayoutAligned(T, m, n, false);
    SameOffsets(LayoutNm(T, m, false), LayoutNm(T, n, false), 0);
    FastPathExact(T, m, n, false);
    if Patchable(T, n) {
      PatchableEntries(T, n, Entries(T, m, false));
    }
    if AllEntriesOk(T, n, Entries(T, m, false)) {
      EntriesPatchable(T, n, Entries(T, m, false));
    }
  }

  /** Scalar Variant fields, and DataValue frames with at most one field, are always patchable. */
  lemma ScalarsPatchable(T: Table, n: NetworkMessage)
    requires DsmsAre(T, n.messages) && n.timestamp.None? && n.picoseconds.None?
    requires forall i | 0 <= i < |n.messages| :: HasEntries(n.messages[i]) ==>
               if n.messages[i].fieldEncoding == ENC_VARIANT
               then forall j | 0 <= j < |n.messages[i].frame.fields| :: n.messages[i].frame.fields[j].value.Scalar?
               else |n.messages[i].frame.fields| <= 1
    ensures Patchable(T, n)
  {
    hide EncData;
    forall i | 0 <= i < |n.messages| ensures DsmPatchable(T, n.messages[i]) {
      var x := n.messages[i];
      assert DsmTyped(T, x);
      if HasEntries(x) {
        forall j | 0 <= j < |x.frame.fields| ensures FieldPatchable(T, x.fieldEncoding, x.frame.fields, j) {
        }
      }
    }
  }
}
