/** Which encodings decode to the value they came from. */
module Survival {
  import opened Bytes
  import opened Types
  import opened Wire
  import opened Parse

  // ----- the value a decoder is expected to return -----

  function NormExpanded(id: NodeId, uri: Str, server: u32): Value {
    if HasUri(uri) then ExpandedV(id.(ns := 0), uri, server) else ExpandedV(id, NoStr, server)
  }

  function Norm(T: Table, v: Value): Value
    decreases v
  {
    match v
    case ExpandedV(id, uri, server) => NormExpanded(id, uri, server)
    case ExtV(e) => ExtV(NormExt(T, e))
    case DataV(dv) => DataV(NormData(T, dv))
    case VariantV(x) => VariantV(NormVariant(T, x))
    case StructV(fs) => StructV(NormFields(T, fs))
    case UnionV(sel, arm) => UnionV(sel, if arm.Some? then Some(Norm(T, arm.value)) else None)
    case _ => v
  }

  function NormExt(T: Table, e: ExtObj): ExtObj
    decreases e
  {
    if e.Decoded? then Decoded(e.ty, Norm(T, e.content)) else e
  }

  function NormData(T: Table, dv: DataValue): DataValue
    decreases dv
  {
    dv.(value := if dv.hasValue then NormVariant(T, dv.value) else Empty)
  }

  /** Enumerations become Int32, aliases their built-in type, arrays of structures arrays of
      ExtensionObjects; a scalar ExtensionObject with decoded content becomes that content. */
  function NormVariant(T: Table, x: Variant): Variant
    decreases x
  {
    match x
    case Empty => Empty
    case Scalar(ty, v) =>
      if ty >= |T| then x
      else if Wrapped(T, ty) then Scalar(ty, Norm(T, v))
      else if v.ExtV? && v.ext.Decoded? then Scalar(v.ext.ty, Norm(T, v.ext.content))
      else Scalar(VariantKind(T, ty), Norm(T, v))
    case Array(ty, arr, dims) =>
      if ty >= |T| then x
      else if Wrapped(T, ty) then
        Array(EXTENSIONOBJECT, Arr(if arr.Arr? then NormWrapped(T, ty, arr.elems) else []), dims)
      else Array(VariantKind(T, ty), NormArr(T, arr), dims)
  }

  function NormArr(T: Table, a: Arr): Arr
    decreases a
  {
    if a.Arr? then Arr(NormElems(T, a.elems)) else a
  }

  function NormElems(T: Table, es: seq<Value>): (r: seq<Value>)
    ensures |r| == |es|
    decreases es
  {
    if es == [] then [] else [Norm(T, es[0])] + NormElems(T, es[1..])
  }

  function NormWrapped(T: Table, ty: nat, es: seq<Value>): (r: seq<Value>)
    ensures |r| == |es|
    decreases es
  {
    if es == [] then [] else [ExtV(Decoded(ty, Norm(T, es[0])))] + NormWrapped(T, ty, es[1..])
  }

  function NormFields(T: Table, fs: seq<Field>): seq<Field>
    decreases fs
  {
    if fs == [] then [] else [NormField(T, fs[0])] + NormFields(T, fs[1..])
  }

  function NormField(T: Table, f: Field): Field
    decreases f
  {
    match f
    case One(v) => One(Norm(T, v))
    case Many(a) => Many(NormArr(T, a))
  }

  // ----- which values survive, decoded at depth d with r octets following; a negative r means that the source
  // ends -r octets too early -----

  predicate Survives(T: Table, t: nat, v: Value, r: int, d: nat)
    requires t < |T| && HasType(T, t, v)
    decreases v, 0
  {
    match v
    case ExtV(e) => ExtSurvives(T, e, r, d)
    case DataV(dv) => DataSurvives(T, dv, r, d)
    case VariantV(x) => VariantSurvives(T, x, r, d)
    case DiagV(g) => g.innerStatus.None? && g.inner.None?
    case StructV(fs) => d <= MAX_RECURSION && FieldsSurvive(T, T[t].members, fs, r, d + 1)
    case UnionV(sel, arm) =>
      d <= MAX_RECURSION && (arm.Some? ==> Survives(T, T[t].members[sel - 1].ty, arm.value, r, d + 1))
    case _ => true
  }

  /** Content in an ExtensionObject: the type must be the first the decoder's lookup finds. */
  predicate ContentSurvives(T: Table, ty: nat, v: Value, r: int, d: nat)
    requires ty < |T| && HasType(T, ty, v)
    decreases v, 1
  {
    Find(T, BinaryId(T[ty])) == Some(ty) && Survives(T, ty, v, r, d)
  }

  predicate ExtSurvives(T: Table, e: ExtObj, r: int, d: nat)
    requires ExtTyped(T, e)
    decreases e
  {
    match e
    case NoBody(_) => true
    case Encoded(id, xml, _) => xml || Find(T, id).None?
    case Decoded(ty, v) => ContentSurvives(T, ty, v, r, d)
    case Missing => true
  }

  predicate PicoOk(x: Option<u16>) {
    x.Some? ==> x.value <= MAX_PICO
  }

  predicate DataSurvives(T: Table, dv: DataValue, r: int, d: nat)
    requires VariantTyped(T, dv.value)
    decreases dv
  {
    && d <= MAX_RECURSION && PicoOk(dv.sourcePico) && PicoOk(dv.serverPico)
    && (dv.hasValue ==> VariantSurvives(T, dv.value, r + |EncStamps(dv)|, d + 1))
  }

  predicate VariantSurvives(T: Table, x: Variant, r: int, d: nat)
    requires VariantTyped(T, x)
    decreases x
  {
    match x
    case Empty => true
    case Scalar(ty, v) =>
      && d <= MAX_RECURSION && VariantKind(T, ty) != VARIANT
      && (if Wrapped(T, ty) then ContentSurvives(T, ty, v, r, d + 1) else Survives(T, ty, v, r, d + 1))
    case Array(ty, arr, dims) =>
      d <= MAX_RECURSION && ArraySurvives(T, ty, arr, r + |EncDims(dims)|, d + 1)
  }

  predicate ArraySurvives(T: Table, ty: nat, arr: Arr, r: int, d: nat)
    requires ArrTyped(T, ty, arr)
    decreases arr, 1
  {
    if Wrapped(T, ty) then
      arr.Arr? && arr.elems != [] ==>
        && (T[EXTENSIONOBJECT].memSize * |arr.elems|) / 32 <= |EncWrapped(T, ty, arr.elems)| + r
        && WrappedSurvive(T, ty, arr.elems, r, d)
    else ArrSurvives(T, ty, VariantKind(T, ty), arr, r, d)
  }

  /** Elements of type t, read back as type u; the length guard uses the memory size of u. */
  predicate ArrSurvives(T: Table, t: nat, u: nat, a: Arr, r: int, d: nat)
    requires ArrTyped(T, t, a) && u < |T|
    decreases a, 0
  {
    a.Arr? && a.elems != [] && !T[u].overlayable ==>
      && (T[u].memSize * |a.elems|) / 32 <= |EncElems(T, t, a.elems)| + r
      && ElemsSurvive(T, t, a.elems, r, d)
  }

  predicate ElemsSurvive(T: Table, t: nat, es: seq<Value>, r: int, d: nat)
    requires t < |T| && ElemsTyped(T, t, es)
    decreases es
  {
    es != [] ==> Survives(T, t, es[0], |EncElems(T, t, es[1..])| + r, d) && ElemsSurvive(T, t, es[1..], r, d)
  }

  predicate WrappedSurvive(T: Table, t: nat, es: seq<Value>, r: int, d: nat)
    requires t < |T| && ElemsTyped(T, t, es)
    decreases es
  {
    es != [] ==>
      ContentSurvives(T, t, es[0], |EncWrapped(T, t, es[1..])| + r, d) && WrappedSurvive(T, t, es[1..], r, d)
  }

  predicate FieldsSurvive(T: Table, ms: seq<Member>, fs: seq<Field>, r: int, d: nat)
    requires FieldsTyped(T, ms, fs)
    decreases fs
  {
    fs != [] ==>
      && FieldSurvives(T, ms[0], fs[0], |EncFields(T, ms[1..], fs[1..])| + r, d)
      && FieldsSurvive(T, ms[1..], fs[1..], r, d)
  }

  predicate FieldSurvives(T: Table, m: Member, f: Field, r: int, d: nat)
    requires FieldTyped(T, m, f)
    decreases f
  {
    match f
    case One(v) => Survives(T, m.ty, v, r, d)
    case Many(a) => ArrSurvives(T, m.ty, m.ty, a, r, d)
  }

  /** Decoding gives exactly v and stops at q when ok, and never gives v otherwise. */
  ghost predicate Outcome<A>(ok: bool, r: Res<A>, v: A, q: nat) {
    && (ok ==> r == Done(v, q))
    && (!ok && r.Done? ==> r.v != v)
  }

  // ----- leaf types -----

  lemma ByteAt(s: bytes, p: nat, b: u8)
    requires At(s, p, [b])
    ensures DecByte(s, p) == Done(b, p + 1)
  {
    assert s[p] == s[p..p + 1][0];
  }

  lemma FixedAt(s: bytes, p: nat, n: nat, w: nat)
    requires At(s, p, LE(n, w)) && n < Pow256(w)
    ensures DecFixed(s, p, w) == Done(n, p + w)
    ensures w == 2 && n < 0x1_0000 ==> DecU16(s, p) == Done(n, p + 2)
    ensures w == 4 && n < 0x1_0000_0000 ==> DecU32(s, p) == Done(n, p + 4)
    ensures w == 8 && n < 0x1_0000_0000_0000_0000 ==> DecU64(s, p) == Done(n, p + 8)
  {
    FromLEInvertsLE(n, w);
  }

  lemma StrAt(s: bytes, p: nat, x: Str)
    requires At(s, p, EncStr(x)) && StrOk(x)
    ensures DecStr(s, p) == Done(x, p + |EncStr(x)|)
  {
    Pow256Values();
    match x
    case NoStr => FixedAt(s, p, 0xFFFF_FFFF, 4);
    case Str(b) =>
      AtSplit(s, p, LE(|b|, 4), b);
      FixedAt(s, p, |b|, 4);
  }

  lemma GuidAt(s: bytes, p: nat, g: Guid)
    requires At(s, p, EncGuid(g))
    ensures DecGuid(s, p) == Done(g, p + 16)
  {
    Pow256Values();
    var a, b, c := LE(g.data1, 4), LE(g.data2, 2), LE(g.data3, 2);
    AtSplit(s, p, a + b + c, g.data4);
    AtSplit(s, p, a + b, c);
    AtSplit(s, p, a, b);
    FixedAt(s, p, g.data1, 4);
    FixedAt(s, p + 4, g.data2, 2);
    FixedAt(s, p + 6, g.data3, 2);
  }

  /** The two top bits set on a six-bit number read back, and leave it alone. */
  lemma TopBits(form: nat, hasUri: bool, hasServer: bool)
    requires form < 64
    ensures var b := Mark(Mark(form, 7, hasUri), 6, hasServer);
            b % 64 == form && Has(b, 7) == hasUri && Has(b, 6) == hasServer
  {
    hide Mark, Has, Pow2;
    var b := Mark(form, 7, hasUri);
    SixtyFour();
    MarkLow(form, 7, hasUri, 6);
    MarkLow(b, 6, hasServer, 6);
    HighBits(form, 6, 6);
    HighBits(form, 6, 7);
    MarkHas(form, 7, hasUri, 7);
    MarkHas(form, 7, hasUri, 6);
    MarkHas(b, 6, hasServer, 7);
    MarkHas(b, 6, hasServer, 6);
  }

  lemma SixtyFour()
    ensures Pow2(6) == 64
  {
    assert Pow2(3) == 8;
  }

  /** A number below 2^n has no bit from n on. */
  lemma {:induction false} HighBits(v: nat, n: nat, j: nat)
    requires v < Pow2(n) && n <= j
    ensures !Has(v, j)
  {
    if j > 0 {
      HighBits(v / 2, if n == 0 then 0 else n - 1, j - 1);
    }
  }

  lemma NodeAt(s: bytes, p: nat, id: NodeId, hasUri: bool, hasServer: bool)
    requires NodeOk(id) && At(s, p, EncNodeMasked(id, hasUri, hasServer))
    ensures DecNode(s, p) == Done(id, p + |EncNodeMasked(id, hasUri, hasServer)|)
    ensures p < |s| && Has(s[p], 7) == hasUri && Has(s[p], 6) == hasServer
  {
    var b := NodeByte(NodeForm(id), hasUri, hasServer);
    AtSplit(s, p, [b], NodeTail(id));
    ByteAt(s, p, b);
    TopBits(NodeForm(id), hasUri, hasServer);
    NodeTailAt(s, p + 1, id);
  }

  lemma NodeTailAt(s: bytes, p: nat, id: NodeId)
    requires NodeOk(id) && At(s, p, NodeTail(id))
    ensures DecNodeTail(s, p, NodeForm(id)) == Done(id, p + |NodeTail(id)|)
  {
    Pow256Values();
    match id.id
    case Numeric(n) =>
      var form := NumericForm(id.ns, n);
      if form == 2 {
        AtSplit(s, p, LE(id.ns, 2), LE(n, 4));
        FixedAt(s, p, id.ns, 2);
        FixedAt(s, p + 2, n, 4);
      } else if form == 1 {
        AtSplit(s, p, [id.ns], LE(n, 2));
        ByteAt(s, p, id.ns);
        FixedAt(s, p + 1, n, 2);
      } else {
        ByteAt(s, p, n);
      }
    case GuidId(g) =>
      AtSplit(s, p, LE(id.ns, 2), EncGuid(g));
      FixedAt(s, p, id.ns, 2);
      GuidAt(s, p + 2, g);
    case StringId(x) => TextIdAt(s, p, id.ns, x);
    case ByteStringId(x) => TextIdAt(s, p, id.ns, x);
  }

  lemma TextIdAt(s: bytes, p: nat, ns: u16, x: Str)
    requires StrOk(x) && At(s, p, LE(ns, 2) + EncStr(x))
    ensures DecU16(s, p) == Done(ns, p + 2)
    ensures DecStr(s, p + 2) == Done(x, p + |LE(ns, 2) + EncStr(x)|)
  {
    Pow256Values();
    AtSplit(s, p, LE(ns, 2), EncStr(x));
    FixedAt(s, p, ns, 2);
    StrAt(s, p + 2, x);
  }

  lemma ExpandedAt(s: bytes, p: nat, id: NodeId, uri: Str, server: u32)
    requires NodeOk(id) && StrOk(uri) && At(s, p, EncExpanded(id, uri, server))
    ensures DecExpanded(s, p) == Done(NormExpanded(id, uri, server), p + |EncExpanded(id, uri, server)|)
  {
    hide At, Has, EncNodeMasked, DecNode, DecStr, DecU32, LE, EncStr;
    var a := EncNodeMasked(id, HasUri(uri), server > 0);
    var b := if HasUri(uri) then EncStr(uri) else [];
    var c := if server > 0 then LE(server, 4) else [];
    AtSplit(s, p, a + b, c);
    AtSplit(s, p, a, b);
    NodeAt(s, p, id, HasUri(uri), server > 0);
    if HasUri(uri) {
      StrAt(s, p + |a|, uri);
    }
    if server > 0 {
      FixedAt(s, p + |a| + |b|, server, 4);
    }
  }

  lemma MarkTwo(a: bool, b: bool)
    ensures var m := Mark(Mark(0, 0, a), 1, b); Has(m, 0) == a && Has(m, 1) == b
  {
    MarkHas(0, 0, a, 0);
    MarkHas(0, 0, a, 1);
    MarkHas(Mark(0, 0, a), 1, b, 0);
    MarkHas(Mark(0, 0, a), 1, b, 1);
  }

  lemma LocalizedAt(s: bytes, p: nat, locale: Str, local: Str)
    requires StrOk(locale) && StrOk(local) && At(s, p, EncLocalized(locale, local))
    ensures DecLocalized(s, p) == Done(LocalizedV(locale, local), p + |EncLocalized(locale, local)|)
  {
    var b := LocalizedByte(locale, local);
    AtSplit(s, p, [b] + EncPresent(locale), EncPresent(local));
    AtSplit(s, p, [b], EncPresent(locale));
    ByteAt(s, p, b);
    MarkTwo(locale.Str?, local.Str?);
    if locale.Str? {
      StrAt(s, p + 1, locale);
    }
    if local.Str? {
      StrAt(s, p + 1 + |EncPresent(locale)|, local);
    }
  }

  lemma Opt16At(s: bytes, p: nat, x: Option<u16>)
    requires At(s, p, OptLE(x, 2))
    ensures DecOpt16(s, p, x.Some?) == Done(x, p + |OptLE(x, 2)|)
  {
    Pow256Values();
    if x.Some? {
      FixedAt(s, p, x.value, 2);
    }
  }

  lemma Opt32At(s: bytes, p: nat, x: Option<u32>)
    requires At(s, p, OptLE(x, 4))
    ensures DecOpt32(s, p, x.Some?) == Done(x, p + |OptLE(x, 4)|)
  {
    Pow256Values();
    if x.Some? {
      FixedAt(s, p, x.value, 4);
    }
  }

  lemma Opt64At(s: bytes, p: nat, x: Option<u64>)
    requires At(s, p, OptLE(x, 8))
    ensures DecOpt64(s, p, x.Some?) == Done(x, p + |OptLE(x, 8)|)
  {
    Pow256Values();
    if x.Some? {
      FixedAt(s, p, x.value, 8);
    }
  }

  /** Six flags set one after the other: a bit is set if its flag is, or if it was. */
  lemma SixMarks(v: nat, k0: nat, a0: bool, k1: nat, a1: bool, k2: nat, a2: bool, k3: nat, a3: bool, k4: nat, a4: bool,
                 k5: nat, a5: bool, j: nat)
    ensures var m := Mark(Mark(Mark(Mark(Mark(Mark(v, k0, a0), k1, a1), k2, a2), k3, a3), k4, a4), k5, a5);
            Has(m, j) <==> (j == k0 && a0) || (j == k1 && a1) || (j == k2 && a2) || (j == k3 && a3) || (j == k4 && a4)
                           || (j == k5 && a5) || Has(v, j)
  {
    hide Mark, Has;
    var m1 := Mark(v, k0, a0);
    var m2 := Mark(m1, k1, a1);
    var m3 := Mark(m2, k2, a2);
    var m4 := Mark(m3, k3, a3);
    var m5 := Mark(m4, k4, a4);
    MarkHas(v, k0, a0, j);
    MarkHas(m1, k1, a1, j);
    MarkHas(m2, k2, a2, j);
    MarkHas(m3, k3, a3, j);
    MarkHas(m4, k4, a4, j);
    MarkHas(m5, k5, a5, j);
  }

  /** Six flags set on an empty mask read back as they were given, and no seventh is set. */
  lemma MarkSix(a: bool, b: bool, c: bool, d: bool, e: bool, f: bool)
    ensures var m := Mark(Mark(Mark(Mark(Mark(Mark(0, 0, a), 1, b), 2, c), 3, d), 4, e), 5, f);
            && Has(m, 0) == a && Has(m, 1) == b && Has(m, 2) == c && Has(m, 3) == d && Has(m, 4) == e
            && Has(m, 5) == f && !Has(m, 6)
  {
    hide Mark, Has;
    forall j: nat | j <= 6
      ensures var m := Mark(Mark(Mark(Mark(Mark(Mark(0, 0, a), 1, b), 2, c), 3, d), 4, e), 5, f);
              Has(m, j) <==> (j == 0 && a) || (j == 1 && b) || (j == 2 && c) || (j == 3 && d) || (j == 4 && e) || (j == 5 && f)
    {
      HighBits(0, 0, j);
      SixMarks(0, 0, a, 1, b, 2, c, 3, d, 4, e, 5, f, j);
    }
  }

  lemma DiagByteHas(g: Diag)
    ensures var b := DiagByte(g);
            && Has(b, 0) == g.symbolicId.Some? && Has(b, 1) == g.namespaceUri.Some?
            && Has(b, 2) == g.localizedText.Some? && Has(b, 3) == g.locale.Some?
            && Has(b, 4) == g.additionalInfo.Some? && Has(b, 5) == g.inner.Some? && !Has(b, 6)
  {
    MarkSix(g.symbolicId.Some?, g.namespaceUri.Some?, g.localizedText.Some?, g.locale.Some?,
            g.additionalInfo.Some?, g.inner.Some?);
  }

  lemma DataByteHas(dv: DataValue)
    ensures var b := DataByte(dv);
            && Has(b, 0) == dv.hasValue && Has(b, 1) == dv.status.Some? && Has(b, 2) == dv.sourceTime.Some?
            && Has(b, 3) == dv.serverTime.Some? && Has(b, 4) == dv.sourcePico.Some? && Has(b, 5) == dv.serverPico.Some?
  {
    MarkSix(dv.hasValue, dv.status.Some?, dv.sourceTime.Some?, dv.serverTime.Some?,
            dv.sourcePico.Some?, dv.serverPico.Some?);
  }

  lemma OptStrAt(s: bytes, p: nat, x: Option<Str>)
    requires (x.Some? ==> StrOk(x.value)) && At(s, p, if x.Some? then EncStr(x.value) else [])
    ensures DecOptStr(s, p, x.Some?) == Done(x, p + |if x.Some? then EncStr(x.value) else []|)
  {
    if x.Some? {
      StrAt(s, p, x.value);
    }
  }

  lemma DiagNumbersAt(s: bytes, p: nat, g: Diag) returns (p1: nat, p2: nat, p3: nat)
    requires At(s, p, DiagNumbers(g))
    ensures DecOpt32(s, p, g.symbolicId.Some?) == Done(g.symbolicId, p1)
    ensures DecOpt32(s, p1, g.namespaceUri.Some?) == Done(g.namespaceUri, p2)
    ensures DecOpt32(s, p2, g.localizedText.Some?) == Done(g.localizedText, p3)
    ensures DecOpt32(s, p3, g.locale.Some?) == Done(g.locale, p + |DiagNumbers(g)|)
  {
    var a, b, c, e := OptLE(g.symbolicId, 4), OptLE(g.namespaceUri, 4), OptLE(g.localizedText, 4), OptLE(g.locale, 4);
    AtSplit(s, p, a + b + c, e);
    AtSplit(s, p, a + b, c);
    AtSplit(s, p, a, b);
    Opt32At(s, p, g.symbolicId);
    p1, p2, p3 := p + |a|, p + |a + b|, p + |a + b + c|;
    Opt32At(s, p1, g.namespaceUri);
    Opt32At(s, p2, g.localizedText);
    Opt32At(s, p3, g.locale);
  }

  lemma EmptyOpt(w: nat)
    ensures OptLE(None, w) == []
  {
  }

  lemma BitFollows(s: bytes, p: nat, on: bool)
    ensures var r := DecOpt32(s, p, on); r.Done? ==> r.v.Some? == on
  {
  }

  lemma AtSplit5(s: bytes, p: nat, a: bytes, b: bytes, c: bytes, d: bytes, e: bytes)
    requires At(s, p, a + b + c + d + e)
    ensures |a + b + c + d + e| == |a| + |b| + |c| + |d| + |e|
    ensures At(s, p, a) && At(s, p + |a|, b) && At(s, p + |a| + |b|, c) && At(s, p + |a| + |b| + |c|, d)
    ensures At(s, p + |a| + |b| + |c| + |d|, e)
  {
    AtSplit(s, p, a + b + c + d, e);
    AtSplit(s, p, a + b + c, d);
    AtSplit(s, p, a + b, c);
    AtSplit(s, p, a, b);
  }

  lemma DiagChain(s: bytes, p: nat, b: u8, g: Diag, p1: nat, p2: nat, p3: nat, p4: nat, p5: nat)
    requires DecOpt32(s, p, Has(b, 0)) == Done(g.symbolicId, p1)
    requires DecOpt32(s, p1, Has(b, 1)) == Done(g.namespaceUri, p2)
    requires DecOpt32(s, p2, Has(b, 2)) == Done(g.localizedText, p3)
    requires DecOpt32(s, p3, Has(b, 3)) == Done(g.locale, p4)
    requires DecOptStr(s, p4, Has(b, 4)) == Done(g.additionalInfo, p5)
    ensures DecDiagFlat(s, p, b) ==
            match DecOpt32(s, p5, Has(b, 5))
            case Fail => Fail
            case Done(status, p6) => Done(g.(innerStatus := status, inner := None), p6)
  {
    hide Has, DecOptStr, DecOpt32;
  }

  /** A DiagnosticInfo survives exactly when it has neither inner part. */
  lemma DiagAt(s: bytes, p: nat, g: Diag, d: nat)
    requires DiagOk(g) && d <= MAX_RECURSION + 1 && At(s, p, EncDiag(g))
    ensures Outcome(g.innerStatus.None? && g.inner.None?, DecDiag(s, p, d), g, p + |EncDiag(g)|)
  {
    hide At, Has, DecOpt32, DecOptStr, OptLE, DiagNumbers, EncStr, DiagByte, DecDiagFlat, DecByte;
    var b, nums := DiagByte(g), DiagNumbers(g);
    var info := if g.additionalInfo.Some? then EncStr(g.additionalInfo.value) else [];
    AtSplit5(s, p, [b], nums, info, OptLE(g.innerStatus, 4), if g.inner.Some? then EncDiag(g.inner.value) else []);
    ByteAt(s, p, b);
    DiagByteHas(g);
    var p1, p2, p3 := DiagNumbersAt(s, p + 1, g);
    OptStrAt(s, p + 1 + |nums|, g.additionalInfo);
    Opt32At(s, p + 1 + |nums| + |info|, g.innerStatus);
    DiagChain(s, p + 1, b, g, p1, p2, p3, p + 1 + |nums|, p + 1 + |nums| + |info|);
    if g.innerStatus.None? && g.inner.None? {
      assert OptLE(g.innerStatus, 4) == [] by { EmptyOpt(4); }
    } else {
      BitFollows(s, p + 1 + |nums| + |info|, Has(b, 5));
    }
  }

  lemma {:induction false} U32sAt(s: bytes, p: nat, ns: seq<u32>)
    requires At(s, p, EncU32s(ns))
    ensures RawU32s(s, p, |ns|) == ns
    decreases ns
  {
    if ns != [] {
      AtSplit(s, p, LE(ns[0], 4), EncU32s(ns[1..]));
      Pow256Values();
      FixedAt(s, p, ns[0], 4);
      U32sAt(s, p + 4, ns[1..]);
    }
  }

  lemma DimsAt(s: bytes, p: nat, dims: seq<u32>)
    requires At(s, p, EncDims(dims)) && |dims| <= INT32_MAX
    ensures DecDims(s, p, dims != []) == Done(dims, p + |EncDims(dims)|)
  {
    if dims != [] {
      Pow256Values();
      AtSplit(s, p, LE(|dims|, 4), EncU32s(dims));
      FixedAt(s, p, |dims|, 4);
      U32sAt(s, p + 4, dims);
    }
  }

  lemma StampsChain(s: bytes, p: nat, b: u8, dv: DataValue, x: Variant, p2: nat, p3: nat, p4: nat, p5: nat, p6: nat)
    requires Has(b, 0) == dv.hasValue
    requires DecOpt32(s, p, Has(b, 1)) == Done(dv.status, p2)
    requires DecOpt64(s, p2, Has(b, 2)) == Done(dv.sourceTime, p3)
    requires DecOpt16(s, p3, Has(b, 4)) == Done(dv.sourcePico, p4)
    requires DecOpt64(s, p4, Has(b, 3)) == Done(dv.serverTime, p5)
    requires DecOpt16(s, p5, Has(b, 5)) == Done(dv.serverPico, p6)
    ensures DecStamps(s, p, b, x) ==
            Done(dv.(value := x, sourcePico := Clip(dv.sourcePico), serverPico := Clip(dv.serverPico)), p6)
  {
    hide Has, DecOpt16, DecOpt32, DecOpt64, Clip;
  }

  lemma StampsAt(s: bytes, p: nat, dv: DataValue, x: Variant)
    requires At(s, p, EncStamps(dv))
    ensures Outcome(PicoOk(dv.sourcePico) && PicoOk(dv.serverPico), DecStamps(s, p, DataByte(dv), x),
                    dv.(value := x), p + |EncStamps(dv)|)
  {
    hide At, Has, DecOpt16, DecOpt32, DecOpt64, OptLE, DataByte, DecStamps;
    var b := DataByte(dv);
    var p2 := p + |OptLE(dv.status, 4)|;
    var p3 := p2 + |OptLE(dv.sourceTime, 8)|;
    var p4 := p3 + |OptLE(dv.sourcePico, 2)|;
    var p5 := p4 + |OptLE(dv.serverTime, 8)|;
    AtSplit5(s, p, OptLE(dv.status, 4), OptLE(dv.sourceTime, 8), OptLE(dv.sourcePico, 2),
             OptLE(dv.serverTime, 8), OptLE(dv.serverPico, 2));
    DataByteHas(dv);
    Opt32At(s, p, dv.status);
    Opt64At(s, p2, dv.sourceTime);
    Opt16At(s, p3, dv.sourcePico);
    Opt64At(s, p4, dv.serverTime);
    Opt16At(s, p5, dv.serverPico);
    StampsChain(s, p, b, dv, x, p2, p3, p4, p5, p + |EncStamps(dv)|);
  }
}
