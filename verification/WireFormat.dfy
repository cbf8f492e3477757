/** The wire format in numbers: kinds, widths, masks and limits written out, for all values and all sources. */
module WireFormat {
  import opened Bytes
  import opened Types
  import opened Wire
  import opened Parse
  import opened Survival

  // ----- numbers and flags, evaluated -----

  lemma Small(n: u8)
    ensures LE(n, 1) == [n] && LE(n, 2) == [n, 0] && LE(n, 4) == [n, 0, 0, 0] && LE(n, 8) == [n, 0, 0, 0, 0, 0, 0, 0]
  {
    assert LE(0, 1) == [0];
    assert LE(0, 2) == [0, 0];
    assert LE(0, 3) == [0, 0, 0];
    assert LE(0, 4) == [0, 0, 0, 0];
    assert LE(0, 5) == [0, 0, 0, 0, 0];
    assert LE(0, 6) == [0, 0, 0, 0, 0, 0];
    assert LE(0, 7) == [0, 0, 0, 0, 0, 0, 0];
  }

  lemma Two(n: u16)
    ensures LE(n, 2) == [n % 256, n / 256]
  {
    assert LE(n / 256, 1) == [n / 256];
  }

  lemma Ones()
    ensures LE(0xFFFF_FFFF, 4) == [255, 255, 255, 255]
  {
    assert LE(0xFF, 1) == [255];
    assert LE(0xFFFF, 2) == [255, 255];
    assert LE(0xFF_FFFF, 3) == [255, 255, 255];
  }

  /** The octets of a number, least significant first. */
  lemma {:induction false} Digits(n: nat, w: nat, i: nat)
    requires i < w
    ensures LE(n, w)[i] == n / Pow256(i) % 256
    decreases w
  {
    if i > 0 {
      Digits(n / 256, w - 1, i - 1);
      QuotientTwice(n, 256, Pow256(i - 1));
    }
  }

  lemma QuotientTwice(n: nat, a: nat, b: nat)
    requires b > 0 && (a == 2 || a == 256)
    ensures n / a / b == n / (a * b)
  {
    var q, r := n / a / b, n / a % b;
    if a == 2 {
      assert n == q * (2 * b) + (2 * r + n % 2);
      DivUnique(n, 2 * b, q, 2 * r + n % 2);
    } else {
      assert n == q * (256 * b) + (256 * r + n % 256);
      DivUnique(n, 256 * b, q, 256 * r + n % 256);
    }
  }

  /** Setting a clear flag adds its power of two. */
  lemma {:induction false} MarkAdds(v: nat, k: nat, on: bool)
    requires !Has(v, k)
    ensures Mark(v, k, on) == if on then v + Pow2(k) else v
  {
    if k > 0 {
      MarkAdds(v / 2, k - 1, on);
    }
  }

  lemma NotMarked(v: nat, k: nat)
    ensures Mark(v, k, false) == v
    decreases k
  {
    if k > 0 {
      NotMarked(v / 2, k - 1);
    }
  }

  lemma Powers()
    ensures Pow2(0) == 1 && Pow2(1) == 2 && Pow2(2) == 4 && Pow2(3) == 8 && Pow2(4) == 16 && Pow2(5) == 32 && Pow2(6) == 64 && Pow2(7) == 128
  {
    assert Pow2(3) == 8;
    assert Pow2(5) == 32;
  }

  /** A number below 2^k gets bit k by adding 2^k. */
  lemma MarkTop(v: nat, k: nat, on: bool)
    requires v < Pow2(k)
    ensures Mark(v, k, on) == if on then v + Pow2(k) else v
  {
    HighBits(v, k, k);
    MarkAdds(v, k, on);
  }

  function Weight(on: bool, n: nat): nat {
    if on then n else 0
  }

  /** Six flags from the lowest bit on are the sum of their weights. */
  lemma SixWeights(a: bool, b: bool, c: bool, d: bool, e: bool, f: bool)
    ensures Mark(Mark(Mark(Mark(Mark(Mark(0, 0, a), 1, b), 2, c), 3, d), 4, e), 5, f) ==
            Weight(a, 1) + Weight(b, 2) + Weight(c, 4) + Weight(d, 8) + Weight(e, 16) + Weight(f, 32)
  {
    hide Mark, Pow2;
    Powers();
    MarkTop(0, 0, a);
    var m1 := Weight(a, 1);
    MarkTop(m1, 1, b);
    var m2 := m1 + Weight(b, 2);
    MarkTop(m2, 2, c);
    var m3 := m2 + Weight(c, 4);
    MarkTop(m3, 3, d);
    var m4 := m3 + Weight(d, 8);
    MarkTop(m4, 4, e);
    MarkTop(m4 + Weight(e, 16), 5, f);
  }

  /** Reading a flag is dividing by its weight. */
  lemma FlagRead(b: nat)
    ensures Has(b, 0) == (b % 2 == 1) && Has(b, 1) == (b / 2 % 2 == 1) && Has(b, 2) == (b / 4 % 2 == 1)
    ensures Has(b, 3) == (b / 8 % 2 == 1) && Has(b, 4) == (b / 16 % 2 == 1) && Has(b, 5) == (b / 32 % 2 == 1)
    ensures Has(b, 6) == (b / 64 % 2 == 1) && Has(b, 7) == (b / 128 % 2 == 1)
  {
    hide Has;
    ShiftedBit(b, 0);
    ShiftedBit(b, 1);
    ShiftedBit(b, 2);
    ShiftedBit(b, 3);
    ShiftedBit(b, 4);
    ShiftedBit(b, 5);
    ShiftedBit(b, 6);
    ShiftedBit(b, 7);
    Powers();
  }

  lemma {:induction false} ShiftedBit(b: nat, k: nat)
    ensures Has(b, k) == (b / Pow2(k) % 2 == 1)
    decreases k
  {
    if k > 0 {
      ShiftedBit(b / 2, k - 1);
      QuotientTwice(b, 2, Pow2(k - 1));
    }
  }

  lemma NodeBytes(form: nat, hasUri: bool, hasServer: bool)
    requires form <= 5
    ensures NodeByte(form, hasUri, hasServer) == form + Weight(hasUri, 128) + Weight(hasServer, 64)
  {
    hide Mark, Pow2, Has;
    Powers();
    MarkTop(form, 7, hasUri);
    HighBits(form, 6, 6);
    MarkHas(form, 7, hasUri, 6);
    MarkAdds(Mark(form, 7, hasUri), 6, hasServer);
  }

  // ----- kinds -----

  /** Type tables: the 25 built-in types at their kinds' indices, Byte and Int32 overlayable, members within the table, and
      overlayable types of one, two, four or eight octets. */
  lemma TableExact(T: seq<DataType>)
    ensures TableOk(T) <==>
      && |T| > 24 && (forall k | 0 <= k <= 24 :: T[k].kind == k) && T[2].overlayable && T[5].overlayable
      && (forall t | 0 <= t < |T| :: forall i | 0 <= i < |T[t].members| :: T[t].members[i].ty < |T|)
      && (forall t | 0 <= t < |T| :: T[t].overlayable ==>
            match T[t].kind
            case 0 => T[t].memSize == 1 case 1 => T[t].memSize == 1 case 2 => T[t].memSize == 1
            case 3 => T[t].memSize == 2 case 4 => T[t].memSize == 2
            case 5 => T[t].memSize == 4 case 6 => T[t].memSize == 4 case 9 => T[t].memSize == 4
            case 18 => T[t].memSize == 4 case 26 => T[t].memSize == 4
            case 7 => T[t].memSize == 8 case 8 => T[t].memSize == 8 case 10 => T[t].memSize == 8 case 12 => T[t].memSize == 8
            case _ => false)
  {
    if TableOk(T) {
      forall t | 0 <= t < |T| ensures forall i | 0 <= i < |T[t].members| :: T[t].members[i].ty < |T| {
        assert TypeOk(|T|, T[t]);
      }
      assert forall t | 0 <= t < |T| :: TypeOk(|T|, T[t]);
    }
  }

  /** Any type can be added whose members are in the table. */
  lemma TableGrows(T: Table, t: DataType)
    requires !t.overlayable && forall i | 0 <= i < |t.members| :: t.members[i].ty <= |T|
    ensures TableOk(T + [t])
  {
    forall i | 0 <= i < |T| + 1 ensures TypeOk(|T| + 1, (T + [t])[i]) {
      if i < |T| {
        assert TypeOk(|T|, T[i]);
      }
    }
  }

  /** Which trees are values of which kind: 25 is Decimal, 26 an enumeration, 27 a structure and 29 a union. */
  lemma TypedKinds(T: Table, t: nat, v: Value)
    requires t < |T|
    ensures var k := T[t].kind;
      HasType(T, t, v) <==>
      match v
      case Fixed(n) =>
        || (k == 0 && n < 2) || ((k == 1 || k == 2) && n < 0x100) || ((k == 3 || k == 4) && n < 0x1_0000)
        || ((k == 5 || k == 6 || k == 9 || k == 18 || k == 26) && n < 0x1_0000_0000)
        || ((k == 7 || k == 8 || k == 10 || k == 12) && n < 0x1_0000_0000_0000_0000)
      case Text(_) => k == 11 || k == 14 || k == 15
      case GuidV(_) => k == 13
      case NodeV(_) => k == 16
      case ExpandedV(_, _, _) => k == 17
      case NameV(_, _) => k == 19
      case LocalizedV(_, _) => k == 20
      case ExtV(e) => k == 21 && (e.Decoded? ==> e.ty < |T| && HasType(T, e.ty, e.content))
      case DataV(dv) => k == 22 && VariantTyped(T, dv.value)
      case VariantV(x) => k == 23 && VariantTyped(T, x)
      case DiagV(_) => k == 24
      case DecimalV => k == 25
      case StructV(fs) => k == 27 && FieldsTyped(T, T[t].members, fs)
      case UnionV(sel, arm) =>
        && k == 29 && sel <= |T[t].members| && (sel == 0 <==> arm.None?)
        && (arm.Some? ==> T[t].members[sel - 1].ty < |T| && HasType(T, T[t].members[sel - 1].ty, arm.value))
  {
    hide Pow256, VariantTyped, FieldsTyped;
    Pow256Values();
  }

  /** What a Variant, an array and a structure hold: values of one type, and one field for each member. */
  lemma TypedParts(T: Table, ty: nat, es: seq<Value>, ms: seq<Member>, fs: seq<Field>, v: Value, dims: seq<u32>)
    ensures ArrTyped(T, ty, NoArr) <==> ty < |T|
    ensures ArrTyped(T, ty, Arr(es)) <==> ty < |T| && forall i | 0 <= i < |es| :: HasType(T, ty, es[i])
    ensures VariantTyped(T, Empty) && (VariantTyped(T, Scalar(ty, v)) <==> HasType(T, ty, v))
    ensures VariantTyped(T, Array(ty, NoArr, dims)) <==> ty < |T|
    ensures VariantTyped(T, Array(ty, Arr(es), dims)) <==> ty < |T| && forall i | 0 <= i < |es| :: HasType(T, ty, es[i])
    ensures FieldsTyped(T, ms, fs) <==>
      |ms| == |fs| && forall i | 0 <= i < |fs| ::
                        match fs[i]
                        case One(x) => !ms[i].isArray && HasType(T, ms[i].ty, x)
                        case Many(a) => ms[i].isArray && ArrTyped(T, ms[i].ty, a)
  {
    hide ElemsTyped, FieldsTyped;
    assert HasType(T, ty, v) ==> ty < |T|;
    if ty < |T| {
      ElemsAre(T, ty, es);
    }
    FieldsAll(T, ms, fs);
  }

  lemma {:induction false} ElemsAre(T: Table, ty: nat, es: seq<Value>)
    requires ty < |T|
    ensures ElemsTyped(T, ty, es) <==> forall i | 0 <= i < |es| :: HasType(T, ty, es[i])
    decreases es
  {
    hide HasType;
    if es != [] {
      ElemsAre(T, ty, es[1..]);
      assert forall i | 1 <= i < |es| :: es[i] == es[1..][i - 1];
    }
  }

  lemma {:induction false} FieldsAll(T: Table, ms: seq<Member>, fs: seq<Field>)
    ensures FieldsTyped(T, ms, fs) <==>
      |ms| == |fs| && forall i | 0 <= i < |fs| ::
                        match fs[i]
                        case One(x) => !ms[i].isArray && HasType(T, ms[i].ty, x)
                        case Many(a) => ms[i].isArray && ArrTyped(T, ms[i].ty, a)
    decreases fs
  {
    hide ArrTyped;
    if |ms| == |fs| && fs != [] {
      FieldsAll(T, ms[1..], fs[1..]);
      assert forall i | 1 <= i < |fs| :: fs[i] == fs[1..][i - 1] && ms[i] == ms[1..][i - 1];
    }
  }

  /** Numbers of all kinds: one, two, four or eight octets, written, counted and read. */
  lemma FixedFormat(T: Table, t: nat, n: nat, s: bytes, p: nat, d: nat)
    requires t < |T| && d <= MAX_RECURSION + 1
    ensures var k := T[t].kind;
      && (k <= 2 && HasType(T, t, Fixed(n)) ==> Enc(T, t, Fixed(n)) == LE(n, 1) && Size(T, t, Fixed(n)) == 1)
      && ((k == 3 || k == 4) && HasType(T, t, Fixed(n)) ==> Enc(T, t, Fixed(n)) == LE(n, 2) && Size(T, t, Fixed(n)) == 2)
      && ((k == 5 || k == 6 || k == 9 || k == 18 || k == 26) && HasType(T, t, Fixed(n)) ==>
            Enc(T, t, Fixed(n)) == LE(n, 4) && Size(T, t, Fixed(n)) == 4)
      && ((k == 7 || k == 8 || k == 10 || k == 12) && HasType(T, t, Fixed(n)) ==>
            Enc(T, t, Fixed(n)) == LE(n, 8) && Size(T, t, Fixed(n)) == 8)
    ensures var k, r := T[t].kind, Dec(T, t, s, p, d);
      && (k == 0 ==> r == if p + 1 > |s| then Fail else Done(Fixed(if s[p] == 0 then 0 else 1), p + 1))
      && (k == 1 || k == 2 ==> r == if p + 1 > |s| then Fail else Done(Fixed(s[p]), p + 1))
      && (k == 3 || k == 4 ==> r == if p + 2 > |s| then Fail else Done(Fixed(FromLE(s[p..p + 2])), p + 2))
      && (k == 5 || k == 6 || k == 9 || k == 18 || k == 26 ==>
            r == if p + 4 > |s| then Fail else Done(Fixed(FromLE(s[p..p + 4])), p + 4))
      && (k == 7 || k == 8 || k == 10 || k == 12 ==>
            r == if p + 8 > |s| then Fail else Done(Fixed(FromLE(s[p..p + 8])), p + 8))
  {
    hide LE, Pow256, DecStr, DecGuid, DecNode, DecExpanded, DecU16, DecLocalized, DecDiag, DecExt, DecData, DecVariant, DecFields;
    if p + 1 <= |s| {
      OneOctet(s, p);
    }
  }

  lemma OneOctet(s: bytes, p: nat)
    requires p + 1 <= |s|
    ensures FromLE(s[p..p + 1]) == s[p]
  {
    assert s[p..p + 1] == [s[p]] && [s[p]][1..] == [];
  }

  // ----- what is written -----

  lemma StrFormat(b: bytes)
    ensures EncStr(NoStr) == [255, 255, 255, 255] && EncStr(Str(b)) == LE(|b|, 4) + b
  {
    hide LE;
    Ones();
  }

  /** Six forms of NodeIds, with the two flags an ExpandedNodeId adds. */
  lemma NodeFormat(id: NodeId, hasUri: bool, hasServer: bool)
    ensures var f, e := Weight(hasUri, 128) + Weight(hasServer, 64), EncNodeMasked(id, hasUri, hasServer);
      match id.id
      case Numeric(n) =>
        e == if n > 0xFFFF || id.ns > 0xFF then [2 + f] + (LE(id.ns, 2) + LE(n, 4))
             else if n > 0xFF || id.ns > 0 then [1 + f] + ([id.ns] + LE(n, 2))
             else [f] + [n]
      case StringId(x) => e == [3 + f] + (LE(id.ns, 2) + EncStr(x))
      case GuidId(g) => e == [4 + f] + (LE(id.ns, 2) + (LE(g.data1, 4) + LE(g.data2, 2) + LE(g.data3, 2) + g.data4))
      case ByteStringId(x) => e == [5 + f] + (LE(id.ns, 2) + EncStr(x))
      case Unknown => true
  {
    hide NodeByte, EncStr, LE;
    NodeBytes(NodeForm(id), hasUri, hasServer);
  }

  /** A uri is sent unless it is missing or empty, a server index unless it is zero. */
  lemma ExpandedFormat(id: NodeId, uri: Str, server: u32)
    ensures var sent := uri.Str? && |uri.data| > 0;
      EncExpanded(id, uri, server) ==
      EncNodeMasked(id, sent, server != 0) + (if sent then LE(|uri.data|, 4) + uri.data else []) + (if server != 0 then LE(server, 4) else [])
  {
    hide EncNodeMasked, LE;
  }

  /** Namespaces take two octets and selectors four. */
  lemma NameFormat(T: Table, t: nat, v: Value)
    requires t < |T| && HasType(T, t, v)
    ensures match v
      case GuidV(g) => Enc(T, t, v) == LE(g.data1, 4) + LE(g.data2, 2) + LE(g.data3, 2) + g.data4
      case NameV(ns, name) => Enc(T, t, v) == LE(ns, 2) + EncStr(name)
      case UnionV(sel, arm) =>
        (arm.Some? ==> 0 < sel <= |T[t].members| && HasType(T, T[t].members[sel - 1].ty, arm.value))
        && Enc(T, t, v) == if sel == 0 then [0, 0, 0, 0] else LE(sel, 4) + Enc(T, T[t].members[sel - 1].ty, arm.value)
      case _ => true
  {
    hide LE, EncStr, VariantTyped, FieldsTyped, ExtTyped, EncFields, EncVariant, EncData, EncExt, EncDiag, EncNodeMasked, Pow256;
    Small(0);
  }

  lemma LocalizedFormat(locale: Str, local: Str)
    ensures EncLocalized(locale, local) ==
      [Weight(locale.Str?, 1) + Weight(local.Str?, 2)] + (if locale.Str? then EncStr(locale) else []) + (if local.Str? then EncStr(local) else [])
  {
    hide Mark, EncStr;
    MarkTop(0, 0, locale.Str?);
    Powers();
    MarkTop(Weight(locale.Str?, 1), 1, local.Str?);
  }

  lemma DiagFormat(g: Diag)
    ensures EncDiag(g) ==
      [Weight(g.symbolicId.Some?, 1) + Weight(g.namespaceUri.Some?, 2) + Weight(g.localizedText.Some?, 4) + Weight(g.locale.Some?, 8)
       + Weight(g.additionalInfo.Some?, 16) + Weight(g.inner.Some?, 32)]
      + (OptLE(g.symbolicId, 4) + OptLE(g.namespaceUri, 4) + OptLE(g.localizedText, 4) + OptLE(g.locale, 4))
      + (if g.additionalInfo.Some? then EncStr(g.additionalInfo.value) else []) + OptLE(g.innerStatus, 4)
      + (if g.inner.Some? then EncDiag(g.inner.value) else [])
  {
    hide Mark, OptLE, EncStr;
    SixWeights(g.symbolicId.Some?, g.namespaceUri.Some?, g.localizedText.Some?, g.locale.Some?, g.additionalInfo.Some?, g.inner.Some?);
  }

  lemma DataFormat(T: Table, dv: DataValue)
    requires VariantTyped(T, dv.value)
    ensures EncData(T, dv) ==
      [Weight(dv.hasValue, 1) + Weight(dv.status.Some?, 2) + Weight(dv.sourceTime.Some?, 4) + Weight(dv.serverTime.Some?, 8)
       + Weight(dv.sourcePico.Some?, 16) + Weight(dv.serverPico.Some?, 32)]
      + (if dv.hasValue then EncVariant(T, dv.value) else [])
      + (OptLE(dv.status, 4) + OptLE(dv.sourceTime, 8) + OptLE(dv.sourcePico, 2) + OptLE(dv.serverTime, 8) + OptLE(dv.serverPico, 2))
  {
    hide Mark, OptLE, EncVariant;
    SixWeights(dv.hasValue, dv.status.Some?, dv.sourceTime.Some?, dv.serverTime.Some?, dv.sourcePico.Some?, dv.serverPico.Some?);
  }

  /** Encoding bytes of an ExtensionObject: 0 without a body, 1 for octets or content, 2 for XML. */
  lemma ExtFormat(T: Table, e: ExtObj)
    requires ExtTyped(T, e)
    ensures match e
      case NoBody(id) => EncExt(T, e) == EncNode(id) + [0]
      case Encoded(id, xml, body) => EncExt(T, e) == EncNode(id) + [if xml then 2 else 1] + EncStr(body)
      case Decoded(ty, v) =>
        EncExt(T, e) == EncNode(NodeId(T[ty].typeId.ns, Numeric(T[ty].binId))) + [1] + LE(Size(T, ty, v), 4) + Enc(T, ty, v)
      case Missing => true
  {
    hide EncNodeMasked, EncStr, LE, Enc, Size;
  }

  /** The kind a Variant announces, plus one: enumerations as 6, all other types that are not built in as 22. */
  lemma VariantFormat(T: Table, x: Variant)
    requires VariantTyped(T, x)
    ensures match x
      case Empty => EncVariant(T, x) == [0]
      case Scalar(ty, v) =>
        var k := T[ty].kind;
        EncVariant(T, x) == [if k <= 24 then k + 1 else if k == 26 then 6 else 22]
                            + (if k > 24 && k != 26 then EncExt(T, Decoded(ty, v)) else Enc(T, ty, v))
      case Array(ty, arr, dims) =>
        var k := T[ty].kind;
        EncVariant(T, x) == [(if k <= 24 then k + 1 else if k == 26 then 6 else 22) + 128 + Weight(dims != [], 64)]
                            + EncContent(T, ty, arr)
                            + (if dims == [] then [] else LE(|dims|, 4) + EncU32s(dims))
  {
    hide Mark, Enc, EncExtHead, Size, EncContent, EncU32s, LE, HasType, Pow2, Has;
    if x.Array? {
      ArrayMask(VariantKind(T, x.ty) + 1, x.dims != []);
    }
  }

  /** Only structures, unions and the like are wrapped; a missing array has the count 0xFFFFFFFF. */
  lemma PlainFormat(T: Table, ty: nat, arr: Arr)
    requires ArrTyped(T, ty, arr) && (T[ty].kind <= 24 || T[ty].kind == 26)
    ensures EncContent(T, ty, arr) == EncArr(T, ty, arr)
    ensures EncArr(T, ty, arr) == if arr.NoArr? then [255, 255, 255, 255] else LE(|arr.elems|, 4) + EncElems(T, ty, arr.elems)
  {
    hide EncElems, LE, Pow2, Has;
    Ones();
  }

  lemma ArrayMask(k: nat, dims: bool)
    requires k < 64
    ensures Mark(Mark(k, 7, true), 6, dims) == k + 128 + Weight(dims, 64)
  {
    hide Mark, Pow2, Has;
    Powers();
    MarkTop(k, 7, true);
    HighBits(k, 6, 6);
    MarkHas(k, 7, true, 6);
    MarkAdds(k + 128, 6, dims);
  }

  /** Every element of an array stands in its place. */
  lemma {:induction false} ElemsFormat(T: Table, ty: nat, es: seq<Value>, i: nat)
    requires ty < |T| && ElemsTyped(T, ty, es) && i < |es|
    ensures HasType(T, ty, es[i]) && ElemsTyped(T, ty, es[..i]) && ElemsTyped(T, ty, es[i + 1..])
    ensures EncElems(T, ty, es) == EncElems(T, ty, es[..i]) + Enc(T, ty, es[i]) + EncElems(T, ty, es[i + 1..])
    decreases es
  {
    hide Enc, HasType;
    if i == 0 {
      assert es[..0] == [];
    } else {
      ElemsFormat(T, ty, es[1..], i - 1);
      assert es[..i][1..] == es[1..][..i - 1] && es[1..][i..] == es[i + 1..];
      assert es[1..][i - 1] == es[i] && es[..i][0] == es[0];
      assert EncElems(T, ty, es[..i]) == Enc(T, ty, es[0]) + EncElems(T, ty, es[..i][1..]);
    }
  }

  lemma FieldFormat(T: Table, m: Member, f: Field)
    requires FieldTyped(T, m, f)
    ensures EncField(T, m, f) == match f case One(v) => Enc(T, m.ty, v) case Many(a) => EncArr(T, m.ty, a)
  {
    hide Enc, EncArr, HasType, ArrTyped;
  }

  lemma {:induction false} FieldsSplit(T: Table, ms: seq<Member>, fs: seq<Field>, i: nat)
    requires FieldsTyped(T, ms, fs) && i < |fs|
    ensures |ms| == |fs| && FieldTyped(T, ms[i], fs[i])
    ensures FieldsTyped(T, ms[..i], fs[..i]) && FieldsTyped(T, ms[i + 1..], fs[i + 1..])
    decreases fs
  {
    hide FieldTyped;
    if i == 0 {
      assert fs[..0] == [] && ms[..0] == [];
    } else {
      FieldsSplit(T, ms[1..], fs[1..], i - 1);
      assert fs[..i][1..] == fs[1..][..i - 1] && fs[1..][i..] == fs[i + 1..];
      assert ms[..i][1..] == ms[1..][..i - 1] && ms[1..][i..] == ms[i + 1..];
    }
  }

  /** Every member of a structure stands in its place. */
  lemma {:induction false} FieldsFormat(T: Table, ms: seq<Member>, fs: seq<Field>, i: nat)
    requires FieldsTyped(T, ms, fs) && i < |fs|
    ensures |ms| == |fs| && FieldTyped(T, ms[i], fs[i])
    ensures FieldsTyped(T, ms[..i], fs[..i]) && FieldsTyped(T, ms[i + 1..], fs[i + 1..])
    ensures EncFields(T, ms, fs) ==
      EncFields(T, ms[..i], fs[..i]) + EncField(T, ms[i], fs[i]) + EncFields(T, ms[i + 1..], fs[i + 1..])
    decreases fs
  {
    hide EncField, EncFields, FieldTyped, FieldsTyped;
    FieldsSplit(T, ms, fs, i);
    FirstField(T, ms, fs);
    if i == 0 {
      assert fs[..0] == [] && ms[..0] == [];
      NoFields(T);
    } else {
      FieldsFormat(T, ms[1..], fs[1..], i - 1);
      assert fs[..i][1..] == fs[1..][..i - 1] && fs[1..][i..] == fs[i + 1..];
      assert ms[..i][1..] == ms[1..][..i - 1] && ms[1..][i..] == ms[i + 1..];
      FirstField(T, ms[..i], fs[..i]);
      Shift(EncField(T, ms[0], fs[0]), EncFields(T, ms[..i][1..], fs[..i][1..]), EncField(T, ms[i], fs[i]),
            EncFields(T, ms[i + 1..], fs[i + 1..]));
    }
  }

  lemma NoFields(T: Table)
    ensures FieldsTyped(T, [], []) && EncFields(T, [], []) == []
  {
  }

  lemma Shift(a: bytes, x: bytes, y: bytes, z: bytes)
    ensures a + (x + y + z) == a + x + y + z
  {
  }

  lemma FirstField(T: Table, ms: seq<Member>, fs: seq<Field>)
    requires FieldsTyped(T, ms, fs) && fs != []
    ensures |ms| == |fs| && FieldTyped(T, ms[0], fs[0]) && FieldsTyped(T, ms[1..], fs[1..])
    ensures EncFields(T, ms, fs) == EncField(T, ms[0], fs[0]) + EncFields(T, ms[1..], fs[1..])
  {
    hide EncField, FieldTyped;
  }

  /** A Variant array of structures: the count, zero for a missing array, then one ExtensionObject for each. */
  lemma {:induction false} WrappedFormat(T: Table, ty: nat, es: seq<Value>, i: nat)
    requires ty < |T| && ElemsTyped(T, ty, es) && T[ty].kind > 24 && T[ty].kind != 26 && i < |es|
    ensures EncContent(T, ty, NoArr) == [0, 0, 0, 0] && EncContent(T, ty, Arr(es)) == LE(|es|, 4) + EncWrapped(T, ty, es)
    ensures HasType(T, ty, es[i]) && ElemsTyped(T, ty, es[..i]) && ElemsTyped(T, ty, es[i + 1..])
    ensures EncWrapped(T, ty, es) == EncWrapped(T, ty, es[..i]) + EncExt(T, Decoded(ty, es[i])) + EncWrapped(T, ty, es[i + 1..])
    decreases es
  {
    hide EncExtHead, Enc, Size, LE, HasType;
    Small(0);
    if i == 0 {
      assert es[..0] == [] && [] + EncExt(T, Decoded(ty, es[0])) == EncExt(T, Decoded(ty, es[0]));
    } else {
      WrappedFormat(T, ty, es[1..], i - 1);
      assert es[..i][1..] == es[1..][..i - 1] && es[1..][i..] == es[i + 1..];
      assert es[1..][i - 1] == es[i] && es[..i][0] == es[0];
      var h := EncExtHead(T, ty, Size(T, ty, es[0])) + Enc(T, ty, es[0]);
      assert EncWrapped(T, ty, es[..i]) == h + EncWrapped(T, ty, es[..i][1..]);
    }
  }

  // ----- what is read, also where nothing is written like that -----

  /** Lengths from 2^31 on are negative: an absent string. */
  lemma StrRead(s: bytes, p: nat)
    ensures DecStr(s, p) ==
      if p + 4 > |s| then Fail
      else
        var n := FromLE(s[p..p + 4]);
        if n >= 0x8000_0000 then Done(NoStr, p + 4)
        else if p + 4 + n > |s| then Fail
        else Done(Str(s[p + 4..p + 4 + n]), p + 4 + n)
  {
    hide FromLE;
  }

  /** The low six bits of the first octet select the form; every form is read, whether it is the shortest or not. */
  lemma NodeRead(s: bytes, p: nat)
    requires p < |s|
    ensures var r := DecNode(s, p);
      match s[p] % 64
      case 0 => r == if p + 2 > |s| then Fail else Done(NodeId(0, Numeric(s[p + 1])), p + 2)
      case 1 => if p + 4 > |s| then r == Fail else r == Done(NodeId(s[p + 1], Numeric(DecU16(s, p + 2).v)), p + 4)
      case 2 => if p + 7 > |s| then r == Fail else r == Done(NodeId(DecU16(s, p + 1).v, Numeric(DecU32(s, p + 3).v)), p + 7)
      case 3 => p + 3 <= |s| && DecStr(s, p + 3).Done? ==> r == Done(NodeId(DecU16(s, p + 1).v, StringId(DecStr(s, p + 3).v)), DecStr(s, p + 3).pos)
      case 4 => p + 19 <= |s| ==> r == Done(NodeId(DecU16(s, p + 1).v, GuidId(DecGuid(s, p + 3).v)), p + 19)
      case 5 => p + 3 <= |s| && DecStr(s, p + 3).Done? ==> r == Done(NodeId(DecU16(s, p + 1).v, ByteStringId(DecStr(s, p + 3).v)), DecStr(s, p + 3).pos)
      case _ => r == Fail
  {
    hide FromLE, DecStr;
  }

  /** The flags of a LocalizedText, whatever the other bits are. */
  lemma LocalizedRead(s: bytes, p: nat)
    requires p < |s|
    ensures var on1, on2 := s[p] % 2 == 1, s[p] / 2 % 2 == 1;
      DecLocalized(s, p) ==
      match DecOptStr(s, p + 1, on1)
      case Fail => Fail
      case Done(a, q) =>
        match DecOptStr(s, q, on2)
        case Fail => Fail
        case Done(b, e) => Done(LocalizedV(if on1 then a.value else NoStr, if on2 then b.value else NoStr), e)
  {
    hide Has, DecStr;
    FlagRead(s[p]);
  }

  /** A DiagnosticInfo, as the decoder's mask has it: the inner status at 32 and the inner info at 64. */
  lemma DiagRead(s: bytes, p: nat, d: nat, g: Diag, p1: nat, p2: nat, p3: nat, p4: nat, p5: nat, p6: nat)
    requires p < |s| && d <= MAX_RECURSION + 1
    requires DecOpt32(s, p + 1, s[p] % 2 == 1) == Done(g.symbolicId, p1)
    requires DecOpt32(s, p1, s[p] / 2 % 2 == 1) == Done(g.namespaceUri, p2)
    requires DecOpt32(s, p2, s[p] / 4 % 2 == 1) == Done(g.localizedText, p3)
    requires DecOpt32(s, p3, s[p] / 8 % 2 == 1) == Done(g.locale, p4)
    requires DecOptStr(s, p4, s[p] / 16 % 2 == 1) == Done(g.additionalInfo, p5)
    requires DecOpt32(s, p5, s[p] / 32 % 2 == 1) == Done(g.innerStatus, p6)
    ensures DecDiag(s, p, d) ==
      if s[p] / 64 % 2 == 0 then Done(g.(inner := None), p6)
      else if d > 100 then Fail
      else match DecDiag(s, p6, d + 1)
           case Fail => Fail
           case Done(i, q) => Done(g.(inner := Some(i)), q)
  {
    hide Has, DecOpt32, DecOptStr;
    FlagRead(s[p]);
  }

  /** Picoseconds above 9999 are read as 9999. */
  lemma StampsRead(s: bytes, p: nat, b: u8, dv: DataValue, p2: nat, p3: nat, p4: nat, p5: nat, p6: nat)
    requires DecOpt32(s, p, b / 2 % 2 == 1) == Done(dv.status, p2)
    requires DecOpt64(s, p2, b / 4 % 2 == 1) == Done(dv.sourceTime, p3)
    requires DecOpt16(s, p3, b / 16 % 2 == 1) == Done(dv.sourcePico, p4)
    requires DecOpt64(s, p4, b / 8 % 2 == 1) == Done(dv.serverTime, p5)
    requires DecOpt16(s, p5, b / 32 % 2 == 1) == Done(dv.serverPico, p6)
    ensures DecStamps(s, p, b, dv.value) ==
      Done(DataValue(b % 2 == 1, dv.value, dv.status,
                     dv.sourceTime, if dv.sourcePico.Some? && dv.sourcePico.value > 9999 then Some(9999) else dv.sourcePico,
                     dv.serverTime, if dv.serverPico.Some? && dv.serverPico.value > 9999 then Some(9999) else dv.serverPico), p6)
  {
    hide Has, DecOpt16, DecOpt32, DecOpt64;
    FlagRead(b);
  }

  /** Four kinds of first octets of a Variant are refused: none of the 25 kinds, and a Variant that is no array; nesting
      above 100 is refused for all that are not empty. */
  lemma VariantRead(T: Table, s: bytes, p: nat, d: nat)
    requires p < |s| && d <= MAX_RECURSION + 1
    ensures var b, r := s[p], DecVariant(T, s, p, d);
      && (b == 0 ==> r == Done(Empty, p + 1))
      && (b != 0 && (b % 64 == 0 || b % 64 > 25 || (b % 64 == 24 && b < 128) || d > 100) ==> r == Fail)
      && (b != 0 && 0 < b % 64 <= 25 && (b % 64 != 24 || b >= 128) && d <= 100 ==>
            r == if b >= 128 then
                   (match DecArr(T, b % 64 - 1, s, p + 1, d + 1)
                    case Fail => Fail
                    case Done(a, q) =>
                      match DecDims(s, q, b / 64 % 2 == 1)
                      case Fail => Fail
                      case Done(dims, e) => Done(Array(b % 64 - 1, a, dims), e))
                 else if b % 64 != 22 then
                   (match Dec(T, b % 64 - 1, s, p + 1, d + 1)
                    case Fail => Fail
                    case Done(v, e) => Done(Scalar(b % 64 - 1, v), e))
                 else DecUnwrap(T, s, p + 1, d + 1))
  {
    hide Has, Dec, DecArr, DecDims, DecUnwrap;
    FlagRead(s[p]);
  }

  /** A negative length is a missing array; an array with more than 32 octets of memory for each octet left is refused. */
  lemma ArrRead(T: Table, t: nat, s: bytes, p: nat, d: nat)
    requires t < |T| && d <= MAX_RECURSION + 1 && p + 4 <= |s|
    ensures var n, r := FromLE(s[p..p + 4]), DecArr(T, t, s, p, d);
      && (n >= 0x8000_0000 ==> r == Done(NoArr, p + 4))
      && (n == 0 ==> r == Done(Arr([]), p + 4))
      && (0 < n < 0x8000_0000 && T[t].memSize * n / 32 > |s| - (p + 4) ==> r == Fail)
      && (0 < n < 0x8000_0000 && T[t].memSize * n / 32 <= |s| - (p + 4) && !T[t].overlayable ==>
            r == match DecElems(T, t, s, p + 4, d, n) case Fail => Fail case Done(es, e) => Done(Arr(es), e))
  {
    hide FromLE, DecElems, Raw;
  }

  lemma DimsRead(s: bytes, p: nat)
    requires p + 4 <= |s|
    ensures var n, r := FromLE(s[p..p + 4]), DecDims(s, p, true);
      && (n >= 0x8000_0000 ==> r == Done([], p + 4))
      && (n < 0x8000_0000 ==> r.Done? == (p + 4 + 4 * n <= |s|) && (r.Done? ==> r.pos == p + 4 + 4 * n))
  {
    hide FromLE, RawU32s;
  }

  /** The encoding byte after the NodeId; three and more are refused. */
  lemma ExtRead(T: Table, s: bytes, p: nat, d: nat, id: NodeId, q: nat)
    requires d <= MAX_RECURSION + 1 && DecNode(s, p) == Done(id, q)
    ensures var r := DecExt(T, s, p, d);
      && (q >= |s| || s[q] > 2 ==> r == Fail)
      && (q < |s| && s[q] == 0 ==> r == Done(NoBody(id), q + 1))
      && (q < |s| && s[q] == 2 ==> r == match DecStr(s, q + 1) case Fail => Fail case Done(x, e) => Done(Encoded(id, true, x), e))
      && (q < |s| && s[q] == 1 && Find(T, id).None? ==>
            r == match DecStr(s, q + 1) case Fail => Fail case Done(x, e) => Done(Encoded(id, false, x), e))
      && (q < |s| && s[q] == 1 && Find(T, id).Some? ==>
            r == match Dec(T, Find(T, id).value, s, q + 5, d)
                 case Fail => Fail
                 case Done(v, e) => Done(Decoded(Find(T, id).value, v), e))
  {
    hide DecNode, DecStr, Dec;
  }

  /** DataValues, structures and unions are refused above 100 levels. */
  lemma NestedRead(T: Table, t: nat, s: bytes, p: nat, d: nat)
    requires t < |T| && d <= MAX_RECURSION + 1
    ensures d > 100 ==> DecData(T, s, p, d) == Fail && (T[t].kind == 27 || T[t].kind == 29 ==> Dec(T, t, s, p, d) == Fail)
    ensures d <= 100 && p < |s| && s[p] % 2 == 0 ==> DecData(T, s, p, d) == DecStamps(s, p + 1, s[p], Empty)
    ensures d <= 100 && p < |s| && s[p] % 2 == 1 ==>
      DecData(T, s, p, d) == match DecVariant(T, s, p + 1, d + 1) case Fail => Fail case Done(x, e) => DecStamps(s, e, s[p], x)
    ensures d <= 100 && T[t].kind == 27 ==>
      Dec(T, t, s, p, d) == match DecFields(T, T[t].members, s, p, d + 1) case Fail => Fail case Done(fs, e) => Done(StructV(fs), e)
    ensures d <= 100 && T[t].kind == 29 && p + 4 <= |s| ==>
      var sel, ms, r := FromLE(s[p..p + 4]), T[t].members, Dec(T, t, s, p, d);
      && (sel == 0 ==> r == Done(UnionV(0, None), p + 4))
      && (sel > |ms| ==> r == Fail)
      && (0 < sel <= |ms| ==>
            r == match Dec(T, ms[sel - 1].ty, s, p + 4, d + 1) case Fail => Fail case Done(v, e) => Done(UnionV(sel, Some(v)), e))
    ensures T[t].kind == 25 || T[t].kind == 28 || T[t].kind == 30 ==> Dec(T, t, s, p, d) == Fail
  {
    hide Has, FromLE, DecStr, DecGuid, DecNode, DecExpanded, DecLocalized, DecDiag, DecExt, DecVariant, DecFields, DecStamps;
    if p < |s| {
      FlagRead(s[p]);
    }
  }

  // ----- what can be encoded -----

  /** Leaf values are refused for nothing but a string above 2^31 - 1 octets, or an identifier type outside the enumeration. */
  lemma LeafEncodable(T: Table, t: nat, v: Value, d: nat)
    requires t < |T| && HasType(T, t, v)
    ensures match v
      case Fixed(_) => Encodable(T, t, v, d)
      case Text(x) => Encodable(T, t, v, d) <==> Short(x)
      case GuidV(_) => Encodable(T, t, v, d)
      case NodeV(id) => Encodable(T, t, v, d) <==> ShortId(id)
      case ExpandedV(id, uri, _) => Encodable(T, t, v, d) <==> ShortId(id) && Short(uri)
      case NameV(_, x) => Encodable(T, t, v, d) <==> Short(x)
      case LocalizedV(x, y) => Encodable(T, t, v, d) <==> Short(x) && Short(y)
      case DecimalV => !Encodable(T, t, v, d)
      case _ => true
  {
    hide Pow256, ExtTyped, VariantTyped, FieldsTyped;
  }

  /** What the size oracle answers for parts that the encoder refuses: nothing, or what their fields would take. */
  lemma RefusedSizes(T: Table, t: nat, e: ExtObj, ns: u16)
    requires t < |T| && ExtTyped(T, e)
    ensures NodeSize(NodeId(ns, Unknown)) == 0 && (T[t].kind == 25 ==> HasType(T, t, DecimalV) && Size(T, t, DecimalV) == 0)
    ensures e.Missing? || (e.Decoded? && !T[e.ty].typeId.id.Numeric?) ==> ExtSize(T, e) == 0
  {
  }

  predicate Short(x: Str) {
    x == NoStr || |x.data| < 0x8000_0000
  }

  predicate ShortId(id: NodeId) {
    match id.id
    case Numeric(_) => true
    case GuidId(_) => true
    case StringId(x) => Short(x)
    case ByteStringId(x) => Short(x)
    case Unknown => false
  }

  lemma DiagEncodable(g: Diag)
    ensures DiagOk(g) <==>
      (g.additionalInfo.Some? ==> Short(g.additionalInfo.value)) && (g.inner.Some? ==> DiagOk(g.inner.value))
  {
  }

  lemma {:induction false} EachElem(T: Table, t: nat, es: seq<Value>, d: nat)
    requires t < |T| && ElemsTyped(T, t, es)
    ensures forall i | 0 <= i < |es| :: HasType(T, t, es[i])
    ensures ElemsOk(T, t, es, d) <==> forall i | 0 <= i < |es| :: Encodable(T, t, es[i], d)
    ensures WrappedOk(T, t, es, d) <==> forall i | 0 <= i < |es| :: ContentOk(T, t, es[i], d)
    decreases es
  {
    hide HasType, Encodable, ContentOk;
    if es != [] {
      EachElem(T, t, es[1..], d);
      assert forall i | 1 <= i < |es| :: es[i] == es[1..][i - 1];
    }
  }

  lemma {:induction false} EachField(T: Table, ms: seq<Member>, fs: seq<Field>, d: nat)
    requires FieldsTyped(T, ms, fs)
    ensures |ms| == |fs| && forall i | 0 <= i < |fs| :: FieldTyped(T, ms[i], fs[i])
    ensures FieldsOk(T, ms, fs, d) <==> forall i | 0 <= i < |fs| :: FieldOk(T, ms[i], fs[i], d)
    decreases fs
  {
    hide FieldTyped, FieldOk;
    if fs != [] {
      EachField(T, ms[1..], fs[1..], d);
      assert forall i | 1 <= i < |fs| :: fs[i] == fs[1..][i - 1] && ms[i] == ms[1..][i - 1];
    }
  }

  /** Content needs a numeric type id and a size below 2^31. */
  lemma ContentEncodable(T: Table, ty: nat, v: Value, d: nat)
    requires ty < |T| && HasType(T, ty, v)
    ensures ContentOk(T, ty, v, d) <==> T[ty].typeId.id.Numeric? && Size(T, ty, v) < 0x8000_0000 && Encodable(T, ty, v, d)
  {
    hide Encodable, Size;
  }

  /** An ExtensionObject is refused for its parts, and when its content is missing. */
  lemma ExtEncodable(T: Table, e: ExtObj, d: nat)
    requires ExtTyped(T, e)
    ensures match e
      case NoBody(id) => ExtOk(T, e, d) <==> ShortId(id)
      case Encoded(id, _, body) => ExtOk(T, e, d) <==> ShortId(id) && Short(body)
      case Decoded(ty, v) => ExtOk(T, e, d) <==> ContentOk(T, ty, v, d)
      case Missing => !ExtOk(T, e, d)
  {
    hide ContentOk;
  }

  /** A Variant is refused for its content, and for 2^31 dimensions. */
  lemma VariantEncodable(T: Table, x: Variant, d: nat)
    requires VariantTyped(T, x)
    ensures match x
      case Empty => VariantOk(T, x, d)
      case Scalar(ty, v) =>
        VariantOk(T, x, d) <==> if T[ty].kind > 24 && T[ty].kind != 26 then ContentOk(T, ty, v, d) else Encodable(T, ty, v, d)
      case Array(ty, arr, dims) => VariantOk(T, x, d) <==> ArraySendable(T, ty, arr, d) && |dims| < 0x8000_0000
  {
    hide ContentOk, Encodable, ArraySendable;
  }

  /** Arrays, in a Variant or in a structure, are refused for nothing but their elements and 2^31 of them. */
  lemma ArraysEncodable(T: Table, ty: nat, es: seq<Value>, d: nat)
    requires ty < |T| && ElemsTyped(T, ty, es)
    ensures forall i | 0 <= i < |es| :: HasType(T, ty, es[i])
    ensures ArrOk(T, ty, NoArr, d) && ArraySendable(T, ty, NoArr, d)
    ensures ArrOk(T, ty, Arr(es), d) <==> |es| < 0x8000_0000 && forall i | 0 <= i < |es| :: Encodable(T, ty, es[i], d)
    ensures ArraySendable(T, ty, Arr(es), d) <==>
      |es| < 0x8000_0000
      && forall i | 0 <= i < |es| ::
           if T[ty].kind > 24 && T[ty].kind != 26 then ContentOk(T, ty, es[i], d) else Encodable(T, ty, es[i], d)
  {
    hide Encodable, ContentOk, ElemsOk, WrappedOk, ElemsTyped;
    EachElem(T, ty, es, d);
  }

  /** Structures and unions are refused above 100 levels, and otherwise only for their members. */
  lemma NestedEncodable(T: Table, t: nat, v: Value, d: nat)
    requires t < |T| && HasType(T, t, v)
    ensures v.StructV? ==>
      && |T[t].members| == |v.fields| && (forall i | 0 <= i < |v.fields| :: FieldTyped(T, T[t].members[i], v.fields[i]))
      && (Encodable(T, t, v, d) <==> d <= 100 && forall i | 0 <= i < |v.fields| :: FieldOk(T, T[t].members[i], v.fields[i], d + 1))
    ensures v == UnionV(0, None) ==> (Encodable(T, t, v, d) <==> d <= 100)
    ensures v.UnionV? && v.arm.Some? ==>
      && 0 < v.sel <= |T[t].members| && T[t].members[v.sel - 1].ty < |T| && HasType(T, T[t].members[v.sel - 1].ty, v.arm.value)
      && (Encodable(T, t, v, d) <==> d <= 100 && Encodable(T, T[t].members[v.sel - 1].ty, v.arm.value, d + 1))
  {
    hide FieldsTyped, FieldsOk, FieldTyped, FieldOk, ExtTyped, VariantTyped, Pow256;
    if v.StructV? {
      EachField(T, T[t].members, v.fields, d + 1);
    }
  }
}
