/** The exact round trip: decoding an encoding returns the normalised value and stops at its end
    precisely for the values that survive. */
module Faithful {
  import opened Bytes
  import opened Types
  import opened Wire
  import opened Parse
  import opened Survival

  /** A value written as type t may be read back as type u. */
  predicate Alike(T: Table, t: nat, u: nat) {
    && t < |T| && u < |T|
    && (u == t
        || (IsBuiltin(T[t].kind) && T[u].kind == T[t].kind)
        || (T[t].kind == ENUM && u == INT32))
  }

  lemma {:induction false} RoundTrip(T: Table, t: nat, u: nat, v: Value, e: nat, s: bytes, p: nat, d: nat)
    requires Alike(T, t, u) && HasType(T, t, v) && Encodable(T, t, v, e)
    requires At(s, p, Enc(T, t, v)) && d <= MAX_RECURSION + 1
    ensures Outcome(Survives(T, t, v, Rest(s, p + |Enc(T, t, v)|), d), Dec(T, u, s, p, d), Norm(T, v), p + |Enc(T, t, v)|)
    decreases v, 0
  {
    hide At, Enc, Dec, Norm, Survives, Encodable, EncExt, EncData, EncVariant, EncFields, ExtOk, VariantOk, FieldsOk,
         DecExt, DecData, DecVariant, DecFields, FieldsSurvive, ExtSurvives, DataSurvives, VariantSurvives,
         NormExt, NormData, NormVariant, NormFields, FieldsTyped;
    Unfold(T, t, v, e, Rest(s, p + |Enc(T, t, v)|), d);
    match v
    case ExtV(x) =>
      ExtRoundTrip(T, x, e, s, p, d);
      UnfoldDec(T, u, s, p, d);
    case DataV(dv) =>
      DataRoundTrip(T, dv, e, s, p, d);
      UnfoldDec(T, u, s, p, d);
    case VariantV(x) =>
      VariantRoundTrip(T, x, e, s, p, d);
      UnfoldDec(T, u, s, p, d);
    case StructV(fs) =>
      UnfoldDec(T, u, s, p, d);
      if d <= MAX_RECURSION {
        FieldsRoundTrip(T, T[t].members, fs, e + 1, s, p, d + 1);
      }
    case UnionV(sel, arm) => UnionRoundTrip(T, t, sel, arm, e, s, p, d);
    case _ => LeafRoundTrip(T, t, u, v, e, s, p, d);
  }

  lemma Unfold(T: Table, t: nat, v: Value, e: nat, r: int, d: nat)
    requires t < |T| && HasType(T, t, v)
    ensures v.ExtV? ==>
      && T[t].kind == EXTENSIONOBJECT && ExtTyped(T, v.ext) && Enc(T, t, v) == EncExt(T, v.ext)
      && Encodable(T, t, v, e) == ExtOk(T, v.ext, e) && Survives(T, t, v, r, d) == ExtSurvives(T, v.ext, r, d)
      && Norm(T, v) == ExtV(NormExt(T, v.ext))
    ensures v.DataV? ==>
      && T[t].kind == DATAVALUE && VariantTyped(T, v.dv.value) && Enc(T, t, v) == EncData(T, v.dv)
      && Encodable(T, t, v, e) == (v.dv.hasValue ==> VariantOk(T, v.dv.value, e))
      && Survives(T, t, v, r, d) == DataSurvives(T, v.dv, r, d) && Norm(T, v) == DataV(NormData(T, v.dv))
    ensures v.VariantV? ==>
      && T[t].kind == VARIANT && VariantTyped(T, v.vr) && Enc(T, t, v) == EncVariant(T, v.vr)
      && Encodable(T, t, v, e) == VariantOk(T, v.vr, e) && Survives(T, t, v, r, d) == VariantSurvives(T, v.vr, r, d)
      && Norm(T, v) == VariantV(NormVariant(T, v.vr))
    ensures v.StructV? ==>
      && T[t].kind == STRUCTURE && FieldsTyped(T, T[t].members, v.fields)
      && Enc(T, t, v) == EncFields(T, T[t].members, v.fields)
      && Encodable(T, t, v, e) == (e <= MAX_RECURSION && FieldsOk(T, T[t].members, v.fields, e + 1))
      && Survives(T, t, v, r, d) == (d <= MAX_RECURSION && FieldsSurvive(T, T[t].members, v.fields, r, d + 1))
      && Norm(T, v) == StructV(NormFields(T, v.fields))
    ensures v.UnionV? ==> T[t].kind == UNION
  {
    hide EncExt, EncData, EncVariant, EncFields, ExtOk, VariantOk, FieldsOk, FieldsSurvive, ExtSurvives, DataSurvives,
         VariantSurvives, NormExt, NormData, NormVariant, NormFields, FieldsTyped, ExtTyped, VariantTyped;
  }

  lemma UnfoldDec(T: Table, u: nat, s: bytes, p: nat, d: nat)
    requires u < |T| && d <= MAX_RECURSION + 1
    ensures var k, r := T[u].kind, Dec(T, u, s, p, d);
      && (k == EXTENSIONOBJECT ==> r == (match DecExt(T, s, p, d) case Fail => Fail case Done(x, q) => Done(ExtV(x), q)))
      && (k == DATAVALUE ==> r == (match DecData(T, s, p, d) case Fail => Fail case Done(x, q) => Done(DataV(x), q)))
      && (k == VARIANT ==> r == (match DecVariant(T, s, p, d) case Fail => Fail case Done(x, q) => Done(VariantV(x), q)))
      && (k == STRUCTURE ==> r == if d > MAX_RECURSION then Fail else
            (match DecFields(T, T[u].members, s, p, d + 1) case Fail => Fail case Done(fs, q) => Done(StructV(fs), q)))
  {
    hide DecExt, DecData, DecVariant, DecFields;
  }

  predicate IsLeaf(v: Value) {
    !v.ExtV? && !v.DataV? && !v.VariantV? && !v.StructV? && !v.UnionV?
  }

  lemma LeafRoundTrip(T: Table, t: nat, u: nat, v: Value, e: nat, s: bytes, p: nat, d: nat)
    requires Alike(T, t, u) && HasType(T, t, v) && Encodable(T, t, v, e) && IsLeaf(v)
    requires At(s, p, Enc(T, t, v)) && d <= MAX_RECURSION + 1
    ensures Outcome(Survives(T, t, v, Rest(s, p + |Enc(T, t, v)|), d), Dec(T, u, s, p, d), Norm(T, v), p + |Enc(T, t, v)|)
  {
    hide At, LE, EncStr, EncNodeMasked, EncExpanded, EncLocalized, EncDiag, DecExpanded, DecLocalized, DecDiag, DecStr,
         DecNode, DecGuid, EncGuid, DecFixed, DecU16, Pow256;
    match v
    case Fixed(n) => FixedAt(s, p, n, Width(T[t].kind));
    case Text(x) => StrAt(s, p, x);
    case GuidV(g) => GuidAt(s, p, g);
    case NodeV(id) => NodeAt(s, p, id, false, false);
    case ExpandedV(id, uri, server) => ExpandedAt(s, p, id, uri, server);
    case NameV(ns, name) => TextIdAt(s, p, ns, name);
    case LocalizedV(locale, local) => LocalizedAt(s, p, locale, local);
    case DiagV(g) => DiagAt(s, p, g, d);
  }

  lemma UnionChain(T: Table, t: nat, s: bytes, p: nat, d: nat, sel: u32, q: nat)
    requires t < |T| && T[t].kind == UNION && d <= MAX_RECURSION && DecU32(s, p) == Done(sel, q)
    requires sel <= |T[t].members|
    ensures Dec(T, t, s, p, d) ==
            if sel == 0 then Done(UnionV(0, None), q)
            else match Dec(T, T[t].members[sel - 1].ty, s, q, d + 1)
                 case Fail => Fail
                 case Done(x, e) => Done(UnionV(sel, Some(x)), e)
  {
    hide DecU32;
  }

  lemma {:induction false} UnionRoundTrip(T: Table, t: nat, sel: u32, arm: Option<Value>, e: nat, s: bytes, p: nat, d: nat)
    requires t < |T| && HasType(T, t, UnionV(sel, arm)) && Encodable(T, t, UnionV(sel, arm), e)
    requires At(s, p, Enc(T, t, UnionV(sel, arm))) && d <= MAX_RECURSION + 1
    ensures var b := Enc(T, t, UnionV(sel, arm));
            Outcome(Survives(T, t, UnionV(sel, arm), Rest(s, p + |b|), d), Dec(T, t, s, p, d),
                    Norm(T, UnionV(sel, arm)), p + |b|)
    decreases arm, 1
  {
    hide At, DecU32, LE, Enc, Dec, Norm, Survives, Encodable;
    Pow256Values();
    var v := UnionV(sel, arm);
    UnfoldUnion(T, t, sel, arm, e, Rest(s, p + |Enc(T, t, v)|), d);
    var c := if arm.Some? then Enc(T, T[t].members[sel - 1].ty, arm.value) else [];
    AtSplit(s, p, LE(sel, 4), c);
    FixedAt(s, p, sel, 4);
    if d > MAX_RECURSION {
      TooDeep(T, t, s, p, d);
    } else {
      UnionChain(T, t, s, p, d, sel, p + 4);
      if arm.Some? {
        RoundTrip(T, T[t].members[sel - 1].ty, T[t].members[sel - 1].ty, arm.value, e + 1, s, p + 4, d + 1);
      }
    }
  }

  lemma UnfoldUnion(T: Table, t: nat, sel: u32, arm: Option<Value>, e: nat, r: int, d: nat)
    requires t < |T| && HasType(T, t, UnionV(sel, arm))
    ensures var v := UnionV(sel, arm);
      && T[t].kind == UNION && sel <= |T[t].members| && (sel == 0 <==> arm.None?)
      && (arm.None? ==>
            Enc(T, t, v) == LE(sel, 4) + [] && Norm(T, v) == v && Survives(T, t, v, r, d) == (d <= MAX_RECURSION))
      && (arm.Some? ==>
            var ty := T[t].members[sel - 1].ty;
            && ty < |T| && HasType(T, ty, arm.value) && Enc(T, t, v) == LE(sel, 4) + Enc(T, ty, arm.value)
            && Encodable(T, t, v, e) == (e <= MAX_RECURSION && Encodable(T, ty, arm.value, e + 1))
            && Survives(T, t, v, r, d) == (d <= MAX_RECURSION && Survives(T, ty, arm.value, r, d + 1))
            && Norm(T, v) == UnionV(sel, Some(Norm(T, arm.value))))
  {
    hide LE, ExtTyped, VariantTyped, FieldsTyped;
  }

  lemma TooDeep(T: Table, t: nat, s: bytes, p: nat, d: nat)
    requires t < |T| && (T[t].kind == UNION || T[t].kind == STRUCTURE) && d == MAX_RECURSION + 1
    ensures Dec(T, t, s, p, d).Fail?
  {
  }

  lemma ExtHeadAt(T: Table, ty: nat, len: nat, s: bytes, p: nat)
    requires ty < |T| && At(s, p, EncExtHead(T, ty, len))
    ensures var q := p + |EncNode(BinaryId(T[ty]))|;
            DecNode(s, p) == Done(BinaryId(T[ty]), q) && DecByte(s, q) == Done(1, q + 1)
            && p + |EncExtHead(T, ty, len)| == q + 1 + 4
  {
    AtSplit(s, p, EncNode(BinaryId(T[ty])) + [1], LE(len, 4));
    AtSplit(s, p, EncNode(BinaryId(T[ty])), [1]);
    NodeAt(s, p, BinaryId(T[ty]), false, false);
    ByteAt(s, p + |EncNode(BinaryId(T[ty]))|, 1);
  }

  lemma ContentChain(T: Table, ty: nat, s: bytes, p: nat, d: nat, q: nat)
    requires ty < |T| && d <= MAX_RECURSION + 1
    requires DecNode(s, p) == Done(BinaryId(T[ty]), q) && DecByte(s, q) == Done(1, q + 1)
    ensures Find(T, BinaryId(T[ty])).Some?
    ensures var k := Find(T, BinaryId(T[ty])).value;
            && DecExt(T, s, p, d) == (match Dec(T, k, s, q + 5, d) case Fail => Fail case Done(v, e) => Done(Decoded(k, v), e))
            && DecUnwrap(T, s, p, d) == (match Dec(T, k, s, q + 5, d) case Fail => Fail case Done(v, e) => Done(Scalar(k, v), e))
  {
    hide Dec, DecNode, DecByte, DecStr;
    assert T[ty].binId == BinaryId(T[ty]).id.n;
  }

  /** The ExtensionObject wrapping a decoded value, as a member of a Variant array or on its own. */
  lemma {:induction false} ContentRoundTrip(T: Table, ty: nat, v: Value, e: nat, s: bytes, p: nat, d: nat)
    requires ty < |T| && HasType(T, ty, v) && ContentOk(T, ty, v, e) && d <= MAX_RECURSION + 1
    requires At(s, p, EncExtHead(T, ty, Size(T, ty, v)) + Enc(T, ty, v))
    ensures var q := p + |EncExtHead(T, ty, Size(T, ty, v)) + Enc(T, ty, v)|;
            && Outcome(ContentSurvives(T, ty, v, Rest(s, q), d), DecExt(T, s, p, d), Decoded(ty, Norm(T, v)), q)
            && Outcome(ContentSurvives(T, ty, v, Rest(s, q), d), DecUnwrap(T, s, p, d), Scalar(ty, Norm(T, v)), q)
    decreases v, 1
  {
    hide At, Dec, Enc, EncExtHead, DecNode, DecByte, Size, Survives, Norm, DecStr, DecExt, DecUnwrap, EncNodeMasked;
    AtSplit(s, p, EncExtHead(T, ty, Size(T, ty, v)), Enc(T, ty, v));
    ExtHeadAt(T, ty, Size(T, ty, v), s, p);
    ContentChain(T, ty, s, p, d, p + |EncNode(BinaryId(T[ty]))|);
    RoundTrip(T, ty, ty, v, e, s, p + |EncExtHead(T, ty, Size(T, ty, v))|, d);
  }

  lemma {:induction false} ExtRoundTrip(T: Table, x: ExtObj, e: nat, s: bytes, p: nat, d: nat)
    requires ExtTyped(T, x) && ExtOk(T, x, e) && d <= MAX_RECURSION + 1 && At(s, p, EncExt(T, x))
    ensures var q := p + |EncExt(T, x)|;
            Outcome(ExtSurvives(T, x, Rest(s, q), d), DecExt(T, s, p, d), NormExt(T, x), q)
    decreases x
  {
    hide At, Dec, Enc, EncExtHead, EncNodeMasked, EncStr, DecNode, DecByte, DecStr, Size, Survives, Norm;
    match x
    case NoBody(id) =>
      AtSplit(s, p, EncNode(id), [0]);
      NodeAt(s, p, id, false, false);
      ByteAt(s, p + |EncNode(id)|, 0);
    case Encoded(id, xml, body) =>
      var b := if xml then 2 else 1;
      AtSplit(s, p, EncNode(id) + [b], EncStr(body));
      AtSplit(s, p, EncNode(id), [b]);
      NodeAt(s, p, id, false, false);
      ByteAt(s, p + |EncNode(id)|, b);
      StrAt(s, p + |EncNode(id)| + 1, body);
    case Decoded(ty, v) => ContentRoundTrip(T, ty, v, e, s, p, d);
  }

  lemma {:induction false} DataRoundTrip(T: Table, dv: DataValue, e: nat, s: bytes, p: nat, d: nat)
    requires VariantTyped(T, dv.value) && (dv.hasValue ==> VariantOk(T, dv.value, e))
    requires d <= MAX_RECURSION + 1 && At(s, p, EncData(T, dv))
    ensures var q := p + |EncData(T, dv)|;
            Outcome(DataSurvives(T, dv, Rest(s, q), d), DecData(T, s, p, d), NormData(T, dv), q)
    decreases dv
  {
    hide At, Has, DecByte, DecVariant, DecStamps, DataByte, EncStamps, EncVariant, NormVariant, VariantSurvives, PicoOk;
    var b := DataByte(dv);
    var x := if dv.hasValue then EncVariant(T, dv.value) else [];
    AtSplit(s, p, [b] + x, EncStamps(dv));
    AtSplit(s, p, [b], x);
    ByteAt(s, p, b);
    DataByteHas(dv);
    AtEnd(s, p + 1 + |x|, EncStamps(dv));
    StampsAt(s, p + 1 + |x|, dv, if dv.hasValue then NormVariant(T, dv.value) else Empty);
    if dv.hasValue && d <= MAX_RECURSION {
      VariantRoundTrip(T, dv.value, e, s, p + 1, d + 1);
      StampsKeep(s, p + 1 + |x|, b);
    }
  }

  lemma AtEnd(s: bytes, p: nat, e: bytes)
    requires At(s, p, e)
    ensures p + |e| <= |s| && Rest(s, p) == |e| + Rest(s, p + |e|)
  {
  }

  lemma StampsKeep(s: bytes, p: nat, b: u8)
    ensures forall x, q :: DecStamps(s, q, b, x).Done? ==> DecStamps(s, q, b, x).v.value == x
  {
  }

  lemma {:induction false} VariantRoundTrip(T: Table, x: Variant, e: nat, s: bytes, p: nat, d: nat)
    requires VariantTyped(T, x) && VariantOk(T, x, e) && d <= MAX_RECURSION + 1 && At(s, p, EncVariant(T, x))
    ensures var q := p + |EncVariant(T, x)|;
            Outcome(VariantSurvives(T, x, Rest(s, q), d), DecVariant(T, s, p, d), NormVariant(T, x), q)
    decreases x, 1
  {
    hide At, Has, DecByte, Enc, EncContent, EncDims, DecUnwrap, DecArr, DecDims;
    match x
    case Empty => ByteAt(s, p, 0);
    case Scalar(_, _) => ScalarRoundTrip(T, x, e, s, p, d);
    case Array(_, _, _) => ArrayRoundTrip(T, x, e, s, p, d);
  }

  lemma ScalarByte(T: Table, x: Variant)
    requires VariantTyped(T, x) && x.Scalar?
    ensures var b := VariantByte(T, x);
            b != 0 && b % 64 - 1 == VariantKind(T, x.ty) && !Has(b, 7)
  {
    assert Pow2(3) == 8 && Pow2(6) == 64;
    HighBits(VariantByte(T, x), 6, 7);
  }

  lemma ArrayByte(T: Table, x: Variant)
    requires VariantTyped(T, x) && x.Array?
    ensures var b := VariantByte(T, x);
            b != 0 && b % 64 - 1 == VariantKind(T, x.ty) && Has(b, 7) && Has(b, 6) == (x.dims != [])
  {
    hide Mark, Has;
    TopBits(VariantKind(T, x.ty) + 1, true, x.dims != []);
  }

  lemma {:induction false} ScalarRoundTrip(T: Table, x: Variant, e: nat, s: bytes, p: nat, d: nat)
    requires VariantTyped(T, x) && VariantOk(T, x, e) && d <= MAX_RECURSION + 1 && At(s, p, EncVariant(T, x))
    requires x.Scalar?
    ensures var q := p + |EncVariant(T, x)|;
            Outcome(VariantSurvives(T, x, Rest(s, q), d), DecVariant(T, s, p, d), NormVariant(T, x), q)
    decreases x, 0
  {
    hide At, Has, DecByte, Dec, Enc, EncExtHead, Size, Survives, ContentSurvives, Norm, DecUnwrap, DecArr, DecDims,
         VariantByte, Encodable;
    var ty, v := x.ty, x.v;
    var b := VariantByte(T, x);
    var c := if Wrapped(T, ty) then EncExtHead(T, ty, Size(T, ty, v)) + Enc(T, ty, v) else Enc(T, ty, v);
    AtSplit(s, p, [b], c);
    ByteAt(s, p, b);
    ScalarByte(T, x);
    if d <= MAX_RECURSION {
      if Wrapped(T, ty) {
        ContentRoundTrip(T, ty, v, e, s, p + 1, d + 1);
      } else if T[ty].kind == EXTENSIONOBJECT {
        ExtScalar(T, ty, v, e, s, p + 1, d + 1);
      } else {
        NotExt(T, ty, v);
        RoundTrip(T, ty, VariantKind(T, ty), v, e, s, p + 1, d + 1);
      }
    }
  }

  lemma NotExt(T: Table, ty: nat, v: Value)
    requires ty < |T| && HasType(T, ty, v)
    ensures v.ExtV? <==> T[ty].kind == EXTENSIONOBJECT
  {
  }

  /** An ExtensionObject as a Variant's scalar: decoded content is unwrapped, other bodies are not. */
  lemma {:induction false} ExtScalar(T: Table, ty: nat, v: Value, e: nat, s: bytes, p: nat, d: nat)
    requires ty < |T| && HasType(T, ty, v) && T[ty].kind == EXTENSIONOBJECT && Encodable(T, ty, v, e)
    requires d <= MAX_RECURSION + 1 && At(s, p, Enc(T, ty, v))
    ensures var q := p + |Enc(T, ty, v)|;
            Outcome(Survives(T, ty, v, Rest(s, q), d), DecUnwrap(T, s, p, d),
                    NormVariant(T, Scalar(ty, v)), q)
    decreases v, 0
  {
    hide At, DecByte, Dec, EncExtHead, Size, ContentSurvives, Norm, DecUnwrap, DecExt, DecNode, EncNodeMasked, EncStr, ContentOk;
    NotExt(T, ty, v);
    var x := v.ext;
    if x.Decoded? {
      ContentRoundTrip(T, x.ty, x.content, e, s, p, d);
    } else {
      ExtRoundTrip(T, x, e, s, p, d);
      ExtScalarHead(T, x, s, p);
      UnwrapOther(T, x, s, p, d);
      assert Norm(T, v) == v by { OtherNorm(T, x); }
    }
  }

  lemma OtherNorm(T: Table, x: ExtObj)
    requires !x.Decoded?
    ensures Norm(T, ExtV(x)) == ExtV(x)
  {
  }

  lemma ExtScalarHead(T: Table, x: ExtObj, s: bytes, p: nat)
    requires (x.NoBody? || x.Encoded?) && NodeOk(x.id) && At(s, p, EncExt(T, x))
    ensures DecNode(s, p) == Done(x.id, p + |EncNode(x.id)|)
    ensures DecByte(s, p + |EncNode(x.id)|) ==
            Done(if x.NoBody? then 0 else if x.xml then 2 else 1, p + |EncNode(x.id)| + 1)
  {
    hide At, EncNodeMasked, EncStr, DecNode, DecByte;
    var b := if x.NoBody? then 0 else if x.xml then 2 else 1;
    if x.Encoded? {
      AtSplit(s, p, EncNode(x.id) + [b], EncStr(x.body));
    }
    AtSplit(s, p, EncNode(x.id), [b]);
    NodeAt(s, p, x.id, false, false);
    ByteAt(s, p + |EncNode(x.id)|, b);
  }

  /** A body that is not decoded content is never unwrapped into itself when its type is known. */
  lemma UnwrapOther(T: Table, x: ExtObj, s: bytes, p: nat, d: nat)
    requires (x.NoBody? || x.Encoded?) && d <= MAX_RECURSION + 1
    requires DecNode(s, p) == Done(x.id, p + |EncNode(x.id)|)
    requires DecByte(s, p + |EncNode(x.id)|) ==
             Done(if x.NoBody? then 0 else if x.xml then 2 else 1, p + |EncNode(x.id)| + 1)
    ensures if x.Encoded? && !x.xml && Find(T, x.id).Some?
            then DecUnwrap(T, s, p, d).Done? ==> DecUnwrap(T, s, p, d).v != Scalar(EXTENSIONOBJECT, ExtV(x))
            else DecUnwrap(T, s, p, d) == match DecExt(T, s, p, d)
                                          case Fail => Fail
                                          case Done(y, q) => Done(Scalar(EXTENSIONOBJECT, ExtV(y)), q)
  {
    hide DecNode, DecByte, EncNodeMasked, DecStr;
    if x.Encoded? && !x.xml && Find(T, x.id).Some? && Find(T, x.id).value == EXTENSIONOBJECT {
      var q := p + |EncNode(x.id)| + 1 + 4;
      KnownIsDecoded(T, s, q, d);
    }
  }

  lemma KnownIsDecoded(T: Table, s: bytes, p: nat, d: nat)
    requires d <= MAX_RECURSION + 1
    ensures var r := Dec(T, EXTENSIONOBJECT, s, p, d);
            r.Done? && r.v.ExtV? && r.v.ext.Encoded? && !r.v.ext.xml ==> Find(T, r.v.ext.id).None?
  {
    hide DecNode, DecByte, DecStr;
  }

  lemma {:induction false} ArrayRoundTrip(T: Table, x: Variant, e: nat, s: bytes, p: nat, d: nat)
    requires VariantTyped(T, x) && VariantOk(T, x, e) && d <= MAX_RECURSION + 1 && At(s, p, EncVariant(T, x))
    requires x.Array?
    ensures var q := p + |EncVariant(T, x)|;
            Outcome(VariantSurvives(T, x, Rest(s, q), d), DecVariant(T, s, p, d), NormVariant(T, x), q)
    decreases x, 0
  {
    hide At, Has, DecByte, EncArr, ArrSurvives, NormArr, NormWrapped, EncWrapped, WrappedSurvive, DecArr, DecDims, EncDims,
         VariantByte, EncContent, ArraySurvives, ArrOk, WrappedOk;
    var ty, arr, dims := x.ty, x.arr, x.dims;
    var b, c := VariantByte(T, x), EncContent(T, ty, arr);
    AtSplit(s, p, [b] + c, EncDims(dims));
    AtSplit(s, p, [b], c);
    ByteAt(s, p, b);
    ArrayByte(T, x);
    AtEnd(s, p + 1 + |c|, EncDims(dims));
    DimsAt(s, p + 1 + |c|, dims);
    if d <= MAX_RECURSION {
      ContentsRoundTrip(T, ty, arr, e, s, p + 1, d + 1);
    }
  }

  lemma {:induction false} ContentsRoundTrip(T: Table, ty: nat, arr: Arr, e: nat, s: bytes, p: nat, d: nat)
    requires ArrTyped(T, ty, arr) && ArraySendable(T, ty, arr, e) && d <= MAX_RECURSION + 1
    requires At(s, p, EncContent(T, ty, arr))
    ensures var q := p + |EncContent(T, ty, arr)|;
            Outcome(ArraySurvives(T, ty, arr, Rest(s, q), d), DecArr(T, VariantKind(T, ty), s, p, d),
                    if Wrapped(T, ty) then Arr(if arr.Arr? then NormWrapped(T, ty, arr.elems) else []) else NormArr(T, arr), q)
    decreases arr, 1
  {
    hide At, EncArr, ArrSurvives, NormArr, NormWrapped, EncWrapped, WrappedSurvive, DecElems, LE, DecU32;
    Pow256Values();
    if !Wrapped(T, ty) {
      ArrRoundTrip(T, ty, VariantKind(T, ty), arr, e, s, p, d);
    } else if arr.NoArr? {
      FixedAt(s, p, 0, 4);
    } else {
      AtSplit(s, p, LE(|arr.elems|, 4), EncWrapped(T, ty, arr.elems));
      FixedAt(s, p, |arr.elems|, 4);
      AtEnd(s, p + 4, EncWrapped(T, ty, arr.elems));
      NoElems(T, ty);
      WrappedRoundTrip(T, ty, arr.elems, e, s, p + 4, d);
      assert T[EXTENSIONOBJECT].kind == EXTENSIONOBJECT && !T[EXTENSIONOBJECT].overlayable by {
        assert TypeOk(|T|, T[EXTENSIONOBJECT]);
      }
    }
  }

  lemma {:induction false} WrappedRoundTrip(T: Table, t: nat, es: seq<Value>, e: nat, s: bytes, p: nat, d: nat)
    requires t < |T| && ElemsTyped(T, t, es) && WrappedOk(T, t, es, e) && d <= MAX_RECURSION + 1
    requires At(s, p, EncWrapped(T, t, es))
    ensures var q := p + |EncWrapped(T, t, es)|;
            Outcome(WrappedSurvive(T, t, es, Rest(s, q), d), DecElems(T, EXTENSIONOBJECT, s, p, d, |es|),
                    NormWrapped(T, t, es), q)
    decreases es
  {
    hide At, Enc, EncExtHead, Size, ContentSurvives, DecExt, Norm, ContentOk, Dec, HasType, Alike;
    if es == [] {
      NoWrapped(T, t, s, p, d);
    } else {
      var a := EncExtHead(T, t, Size(T, t, es[0])) + Enc(T, t, es[0]);
      AtSplit(s, p, a, EncWrapped(T, t, es[1..]));
      AtEnd(s, p + |a|, EncWrapped(T, t, es[1..]));
      ContentRoundTrip(T, t, es[0], e, s, p, d);
      WrappedRoundTrip(T, t, es[1..], e, s, p + |a|, d);
      var r1 := Dec(T, EXTENSIONOBJECT, s, p, d);
      var q := p + |EncWrapped(T, t, es)|;
      ElemOutcome(T, s, p, d, ContentSurvives(T, t, es[0], |EncWrapped(T, t, es[1..])| + Rest(s, q), d),
                  Decoded(t, Norm(T, es[0])), p + |a|);
      ConsOutcome(ContentSurvives(T, t, es[0], |EncWrapped(T, t, es[1..])| + Rest(s, q), d), r1,
                  ExtV(Decoded(t, Norm(T, es[0]))), p + |a|,
                  WrappedSurvive(T, t, es[1..], Rest(s, q), d),
                  if r1.Fail? then Fail else DecElems(T, EXTENSIONOBJECT, s, r1.pos, d, |es| - 1),
                  NormWrapped(T, t, es[1..]), q, DecElems(T, EXTENSIONOBJECT, s, p, d, |es|));
    }
  }

  lemma NoWrapped(T: Table, t: nat, s: bytes, p: nat, d: nat)
    requires t < |T| && d <= MAX_RECURSION + 1
    ensures Outcome(WrappedSurvive(T, t, [], Rest(s, p), d), DecElems(T, EXTENSIONOBJECT, s, p, d, 0), NormWrapped(T, t, []), p)
    ensures EncWrapped(T, t, []) == []
  {
  }

  /** An ExtensionObject decoded as an array element. */
  lemma ElemOutcome(T: Table, s: bytes, p: nat, d: nat, ok: bool, x: ExtObj, q: nat)
    requires d <= MAX_RECURSION + 1 && Outcome(ok, DecExt(T, s, p, d), x, q)
    ensures Outcome(ok, Dec(T, EXTENSIONOBJECT, s, p, d), ExtV(x), q)
  {
    hide Dec, DecExt;
    UnfoldDec(T, EXTENSIONOBJECT, s, p, d);
  }

  lemma {:induction false} ArrRoundTrip(T: Table, t: nat, u: nat, a: Arr, e: nat, s: bytes, p: nat, d: nat)
    requires Alike(T, t, u) && ArrTyped(T, t, a) && ArrOk(T, t, a, e) && d <= MAX_RECURSION + 1
    requires At(s, p, EncArr(T, t, a))
    ensures var q := p + |EncArr(T, t, a)|;
            Outcome(ArrSurvives(T, t, u, a, Rest(s, q), d), DecArr(T, u, s, p, d), NormArr(T, a), q)
    decreases a, 0
  {
    hide At, EncElems, ElemsSurvive, DecElems, NormElems, LE, DecU32, ElemsOk;
    Pow256Values();
    match a
    case NoArr => FixedAt(s, p, 0xFFFF_FFFF, 4);
    case Arr(es) =>
      AtSplit(s, p, LE(|es|, 4), EncElems(T, t, es));
      FixedAt(s, p, |es|, 4);
      AtEnd(s, p + 4, EncElems(T, t, es));
      if es == [] {
        assert EncElems(T, t, es) == [] && NormElems(T, es) == [] by { NoElems(T, t); }
      } else if T[u].overlayable {
        RawAt(T, t, es, s, p + 4, T[u].memSize);
      } else {
        ElemsRoundTrip(T, t, u, es, e, s, p + 4, d);
      }
  }

  /** Element by element: the first component that does not survive decides the whole. */
  lemma ConsOutcome<A>(ok1: bool, r1: Res<A>, v1: A, q1: nat, ok2: bool, r2: Res<seq<A>>, v2: seq<A>, q2: nat, r: Res<seq<A>>)
    requires Outcome(ok1, r1, v1, q1) && (ok1 ==> Outcome(ok2, r2, v2, q2))
    requires r == if r1.Fail? || r2.Fail? then Fail else Done([r1.v] + r2.v, r2.pos)
    ensures Outcome(ok1 && ok2, r, [v1] + v2, q2)
  {
    if r.Done? && r.v == [v1] + v2 {
      assert r.v[0] == r1.v && r.v[1..] == r2.v && ([v1] + v2)[1..] == v2;
    }
  }

  lemma NoElems(T: Table, t: nat)
    requires t < |T|
    ensures EncElems(T, t, []) == [] && NormElems(T, []) == []
    ensures EncWrapped(T, t, []) == [] && NormWrapped(T, t, []) == []
  {
  }

  /** Elements of a fixed-width type can be copied without decoding them. */
  lemma {:induction false} RawAt(T: Table, t: nat, es: seq<Value>, s: bytes, p: nat, w: nat)
    requires t < |T| && ElemsTyped(T, t, es) && w == Width(T[t].kind) > 0 && At(s, p, EncElems(T, t, es))
    ensures |EncElems(T, t, es)| == w * |es| && Raw(s, p, w, |es|) == es == NormElems(T, es)
    decreases es
  {
    hide At, LE, Pow256, Enc, Norm, DecFixed;
    if es != [] {
      FixedElem(T, t, es[0], w);
      AtSplit(s, p, LE(es[0].n, w), EncElems(T, t, es[1..]));
      FixedAt(s, p, es[0].n, w);
      FixedRead(s, p, w, es[0].n);
      RawAt(T, t, es[1..], s, p + w, w);
      OneMore(w, |es[1..]|);
      assert es == [es[0]] + es[1..];
    }
  }

  lemma FixedElem(T: Table, t: nat, v: Value, w: nat)
    requires t < |T| && HasType(T, t, v) && w == Width(T[t].kind) > 0
    ensures v.Fixed? && Enc(T, t, v) == LE(v.n, w) && v.n < Pow256(w) && Norm(T, v) == v
  {
    hide LE, Pow256;
  }

  lemma FixedRead(s: bytes, p: nat, w: nat, n: nat)
    requires DecFixed(s, p, w) == Done(n, p + w)
    ensures p + w <= |s| && FromLE(s[p..p + w]) == n
  {
  }

  lemma OneMore(w: nat, n: nat)
    ensures w * (n + 1) == w + w * n
  {
  }

  lemma {:induction false} ElemsRoundTrip(T: Table, t: nat, u: nat, es: seq<Value>, e: nat, s: bytes, p: nat, d: nat)
    requires Alike(T, t, u) && ElemsTyped(T, t, es) && ElemsOk(T, t, es, e) && d <= MAX_RECURSION + 1
    requires At(s, p, EncElems(T, t, es))
    ensures var q := p + |EncElems(T, t, es)|;
            Outcome(ElemsSurvive(T, t, es, Rest(s, q), d), DecElems(T, u, s, p, d, |es|), NormElems(T, es), q)
    decreases es
  {
    hide At, Enc, Survives, Dec, Norm, Encodable;
    if es != [] {
      AtSplit(s, p, Enc(T, t, es[0]), EncElems(T, t, es[1..]));
      AtEnd(s, p + |Enc(T, t, es[0])|, EncElems(T, t, es[1..]));
      RoundTrip(T, t, u, es[0], e, s, p, d);
      ElemsRoundTrip(T, t, u, es[1..], e, s, p + |Enc(T, t, es[0])|, d);
      var r1, q := Dec(T, u, s, p, d), p + |EncElems(T, t, es)|;
      ConsOutcome(Survives(T, t, es[0], |EncElems(T, t, es[1..])| + Rest(s, q), d), r1, Norm(T, es[0]), p + |Enc(T, t, es[0])|,
                  ElemsSurvive(T, t, es[1..], Rest(s, q), d),
                  if r1.Fail? then Fail else DecElems(T, u, s, r1.pos, d, |es| - 1),
                  NormElems(T, es[1..]), q, DecElems(T, u, s, p, d, |es|));
    }
  }

  lemma {:induction false} FieldsRoundTrip(T: Table, ms: seq<Member>, fs: seq<Field>, e: nat, s: bytes, p: nat, d: nat)
    requires MembersOk(|T|, ms) && FieldsTyped(T, ms, fs) && FieldsOk(T, ms, fs, e) && d <= MAX_RECURSION + 1
    requires At(s, p, EncFields(T, ms, fs))
    ensures var q := p + |EncFields(T, ms, fs)|;
            Outcome(FieldsSurvive(T, ms, fs, Rest(s, q), d), DecFields(T, ms, s, p, d), NormFields(T, fs), q)
    decreases fs
  {
    hide At, EncField, FieldSurvives, DecField, NormField, FieldOk, FieldTyped;
    if fs != [] {
      AtSplit(s, p, EncField(T, ms[0], fs[0]), EncFields(T, ms[1..], fs[1..]));
      AtEnd(s, p + |EncField(T, ms[0], fs[0])|, EncFields(T, ms[1..], fs[1..]));
      FieldRoundTrip(T, ms[0], fs[0], e, s, p, d);
      FieldsRoundTrip(T, ms[1..], fs[1..], e, s, p + |EncField(T, ms[0], fs[0])|, d);
      var r1, q := DecField(T, ms[0], s, p, d), p + |EncFields(T, ms, fs)|;
      ConsOutcome(FieldSurvives(T, ms[0], fs[0], |EncFields(T, ms[1..], fs[1..])| + Rest(s, q), d), r1,
                  NormField(T, fs[0]), p + |EncField(T, ms[0], fs[0])|,
                  FieldsSurvive(T, ms[1..], fs[1..], Rest(s, q), d),
                  if r1.Fail? then Fail else DecFields(T, ms[1..], s, r1.pos, d),
                  NormFields(T, fs[1..]), q, DecFields(T, ms, s, p, d));
    }
  }

  lemma {:induction false} FieldRoundTrip(T: Table, m: Member, f: Field, e: nat, s: bytes, p: nat, d: nat)
    requires m.ty < |T| && FieldTyped(T, m, f) && FieldOk(T, m, f, e) && d <= MAX_RECURSION + 1
    requires At(s, p, EncField(T, m, f))
    ensures var q := p + |EncField(T, m, f)|;
            Outcome(FieldSurvives(T, m, f, Rest(s, q), d), DecField(T, m, s, p, d), NormField(T, f), q)
    decreases f
  {
    hide At, Enc, Survives, Dec, Norm, EncArr, ArrSurvives, DecArr, NormArr, ArrOk, Encodable;
    match f
    case One(v) => RoundTrip(T, m.ty, m.ty, v, e, s, p, d);
    case Many(a) => ArrRoundTrip(T, m.ty, m.ty, a, e, s, p, d);
  }
}
