/** Which prefixes of an encoding decode: those that lack no octet a decoder reads. */
module Prefixes {
  import opened Bytes
  import opened Types
  import opened Wire
  import opened Parse
  import opened Survival
  import opened Faithful
  import opened Framing

  // ----- how an encoding ends -----

  /** Nothing was written; the last octets are a length field that decoding skips; or the last octet is read. */
  datatype Ending = Nothing | Skipped | Read

  function Then(a: Ending, b: Ending): Ending {
    if b.Nothing? then a else b
  }

  /** Whether all that is read is there, with r octets following; a negative r says how many are missing. */
  predicate Allows(e: Ending, r: int) {
    match e
    case Nothing => true
    case Skipped => r >= -4
    case Read => r >= 0
  }

  predicate Shaped(e: Ending, n: nat) {
    (e.Nothing? ==> n == 0) && (e.Skipped? ==> n >= 4)
  }

  function EndOf(T: Table, v: Value): Ending
    decreases v
  {
    match v
    case ExtV(e) => ExtEnd(T, e)
    case DataV(dv) => DataEnd(T, dv)
    case VariantV(x) => VariantEnd(T, x)
    case StructV(fs) => FieldsEnd(T, fs)
    case UnionV(_, arm) => if arm.Some? then Then(Read, EndOf(T, arm.value)) else Read
    case _ => Read
  }

  /** The length field in front of decoded content is never read. */
  function ExtEnd(T: Table, e: ExtObj): Ending
    decreases e
  {
    if e.Decoded? then Then(Skipped, EndOf(T, e.content)) else Read
  }

  function VariantEnd(T: Table, x: Variant): Ending
    decreases x
  {
    match x
    case Empty => Read
    case Scalar(ty, v) => Then(if ty < |T| && Wrapped(T, ty) then Skipped else Read, EndOf(T, v))
    case Array(ty, arr, dims) => if dims != [] then Read else ContentsEnd(T, ty, arr)
  }

  function ContentsEnd(T: Table, ty: nat, arr: Arr): Ending
    decreases arr, 1
  {
    if ty < |T| && Wrapped(T, ty) then (if arr.Arr? then Then(Read, WrappedEnd(T, arr.elems)) else Read) else ArrEnd(T, arr)
  }

  function ArrEnd(T: Table, a: Arr): Ending
    decreases a, 0
  {
    if a.Arr? then Then(Read, ElemsEnd(T, a.elems)) else Read
  }

  function ElemsEnd(T: Table, es: seq<Value>): Ending
    decreases es
  {
    if es == [] then Nothing else Then(EndOf(T, es[0]), ElemsEnd(T, es[1..]))
  }

  function WrappedEnd(T: Table, es: seq<Value>): Ending
    decreases es
  {
    if es == [] then Nothing else Then(Then(Skipped, EndOf(T, es[0])), WrappedEnd(T, es[1..]))
  }

  /** A part that is read to its end, or not there at all. */
  function PartEnd(e: bytes): Ending {
    if e == [] then Nothing else Read
  }

  function DataEnd(T: Table, dv: DataValue): Ending
    decreases dv
  {
    Then(Then(Read, if dv.hasValue then VariantEnd(T, dv.value) else Nothing), PartEnd(EncStamps(dv)))
  }

  function FieldsEnd(T: Table, fs: seq<Field>): Ending
    decreases fs
  {
    if fs == [] then Nothing else Then(FieldEnd(T, fs[0]), FieldsEnd(T, fs[1..]))
  }

  function FieldEnd(T: Table, f: Field): Ending
    decreases f
  {
    match f
    case One(v) => EndOf(T, v)
    case Many(a) => ArrEnd(T, a)
  }

  lemma ThenAllows(a: Ending, b: Ending, n: nat, r: int)
    requires Shaped(b, n)
    ensures Allows(Then(a, b), r) <==> Allows(a, r + n) && Allows(b, r)
  {
  }

  // ----- sources that hold an encoding as far as they go -----

  ghost predicate Agrees(s: bytes, p: nat, e: bytes) {
    forall i | 0 <= i < |e| && p + i < |s| :: s[p + i] == e[i]
  }

  lemma AgreesSplit(s: bytes, p: nat, a: bytes, b: bytes)
    requires Agrees(s, p, a + b)
    ensures Agrees(s, p, a) && Agrees(s, p + |a|, b)
  {
    forall i | 0 <= i < |a| && p + i < |s| ensures s[p + i] == a[i] {
      assert (a + b)[i] == a[i];
    }
    forall i | 0 <= i < |b| && p + |a| + i < |s| ensures s[p + |a| + i] == b[i] {
      assert s[p + (|a| + i)] == (a + b)[|a| + i];
    }
  }

  /** A source that goes on where s stops, so that all of e is there. */
  lemma Completed(s: bytes, p: nat, e: bytes) returns (z: bytes)
    requires Agrees(s, p, e)
    ensures s <= z && At(z, p, e) && (p + |e| <= |s| ==> z == s)
  {
    if p + |e| <= |s| {
      z := s;
      assert s[p..p + |e|] == e;
    } else if p <= |s| {
      z := s[..p] + e;
      assert z[..|s|] == s;
    } else {
      z := s + seq(p - |s|, _ => 0) + e;
    }
  }

  function Result<A>(ok: bool, v: A, q: nat): Res<A> {
    if ok then Done(v, q) else Fail
  }

  /** A part that is read to its end gives its value when it is complete or empty, and fails when it is not. */
  lemma PartCut<A>(r: Res<A>, z: Res<A>, v: A, p: nat, e: bytes, n: nat)
    requires Kept(r, z) && z == Done(v, p + |e|) && Inside(r, p, n, 0) && (e == [] || p + |e| <= n ==> r.Done?)
    ensures r == Result(Allows(PartEnd(e), n - p - |e|), v, p + |e|)
  {
  }

  lemma ByteCut(s: bytes, p: nat, b: u8)
    requires Agrees(s, p, [b])
    ensures DecByte(s, p) == Result(p + 1 <= |s|, b, p + 1)
  {
    if p < |s| {
      assert s[p + 0] == [b][0];
    }
  }

  lemma U32Cut(s: bytes, p: nat, n: u32)
    requires Agrees(s, p, LE(n, 4))
    ensures DecU32(s, p) == Result(p + 4 <= |s|, n, p + 4)
  {
    hide LE, DecFixed;
    Pow256Values();
    var z := Completed(s, p, LE(n, 4));
    if p + 4 <= |s| {
      FixedAt(s, p, n, 4);
    }
  }

  lemma NodeCut(s: bytes, p: nat, id: NodeId)
    requires NodeOk(id) && Agrees(s, p, EncNode(id))
    ensures DecNode(s, p) == Result(p + |EncNode(id)| <= |s|, id, p + |EncNode(id)|)
  {
    hide EncNodeMasked, DecNode, NodeOk, At;
    var z := Completed(s, p, EncNode(id));
    NodeAt(z, p, id, false, false);
    NodeKept(s, z, p);
  }

  lemma DimsCut(s: bytes, p: nat, dims: seq<u32>)
    requires Agrees(s, p, EncDims(dims)) && |dims| <= INT32_MAX
    ensures var n := |EncDims(dims)|;
            DecDims(s, p, dims != []) == Result(Allows(PartEnd(EncDims(dims)), |s| - p - n), dims, p + n)
  {
    hide At, DecU32, EncU32s;
    if dims != [] {
      var z := Completed(s, p, EncDims(dims));
      DimsAt(z, p, dims);
      DimsKept(s, z, p, true);
    }
  }

  lemma NoStampsAt(s: bytes, p: nat, dv: DataValue, x: Variant)
    requires EncStamps(dv) == []
    ensures DecStamps(s, p, DataByte(dv), x) == Done(dv.(value := x), p)
  {
    hide Has, DataByte, DecU16, DecU32, DecU64, LE;
    DataByteHas(dv);
  }

  lemma StampsCut(s: bytes, p: nat, dv: DataValue, x: Variant)
    requires Agrees(s, p, EncStamps(dv)) && PicoOk(dv.sourcePico) && PicoOk(dv.serverPico)
    ensures var n := |EncStamps(dv)|;
            DecStamps(s, p, DataByte(dv), x) == Result(Allows(PartEnd(EncStamps(dv)), |s| - p - n), dv.(value := x), p + n)
  {
    hide At, Agrees, DecStamps, EncStamps, DataByte;
    if EncStamps(dv) == [] {
      NoStampsAt(s, p, dv, x);
    } else {
      var z := Completed(s, p, EncStamps(dv));
      StampsAt(z, p, dv, x);
      StampsKept(s, z, p, DataByte(dv), x);
      StampsInside(s, p, DataByte(dv), x);
    }
  }

  // ----- values -----

  /** Octets that hold the encoding of a surviving value as far as they go decode exactly when no array's length
      guard fails for what there is of them, and nothing is missing but a length field that is skipped; and then
      they decode to the value, and end where the whole encoding ends. */
  lemma {:induction false} CutAt(T: Table, t: nat, u: nat, v: Value, e: nat, s: bytes, p: nat, d: nat, w: int)
    requires Alike(T, t, u) && HasType(T, t, v) && Encodable(T, t, v, e) && d <= MAX_RECURSION + 1
    requires Agrees(s, p, Enc(T, t, v)) && Survives(T, t, v, w, d)
    ensures var r := |s| - p - |Enc(T, t, v)|;
            Dec(T, u, s, p, d) == Result(Survives(T, t, v, r, d) && Allows(EndOf(T, v), r), Norm(T, v), p + |Enc(T, t, v)|)
    ensures Shaped(EndOf(T, v), |Enc(T, t, v)|)
    decreases v, 0
  {
    hide Agrees, Enc, Dec, Norm, Survives, Encodable, EncExt, EncData, EncVariant, EncFields, ExtOk, VariantOk, FieldsOk, EndOf,
         DecExt, DecData, DecVariant, DecFields, FieldsSurvive, ExtSurvives, DataSurvives, VariantSurvives, Allows, Shaped,
         ExtEnd, DataEnd, VariantEnd, FieldsEnd, NormExt, NormData, NormVariant, NormFields, FieldsTyped;
    var r := |s| - p - |Enc(T, t, v)|;
    Unfold(T, t, v, e, r, d);
    Unfold(T, t, v, e, w, d);
    UnfoldEnd(T, v);
    match v
    case ExtV(x) =>
      ExtCut(T, x, e, s, p, d, w);
      UnfoldDec(T, u, s, p, d);
    case DataV(dv) =>
      DataCut(T, dv, e, s, p, d, w);
      UnfoldDec(T, u, s, p, d);
    case VariantV(x) =>
      VariantCut(T, x, e, s, p, d, w);
      UnfoldDec(T, u, s, p, d);
    case StructV(fs) =>
      FieldsCut(T, T[t].members, fs, e + 1, s, p, d + 1, w);
      UnfoldDec(T, u, s, p, d);
    case UnionV(sel, arm) => UnionCut(T, t, sel, arm, e, s, p, d, w);
    case _ => LeafCut(T, t, u, v, e, s, p, d, w);
  }

  lemma UnfoldEnd(T: Table, v: Value)
    ensures v.ExtV? ==> EndOf(T, v) == ExtEnd(T, v.ext)
    ensures v.DataV? ==> EndOf(T, v) == DataEnd(T, v.dv)
    ensures v.VariantV? ==> EndOf(T, v) == VariantEnd(T, v.vr)
    ensures v.StructV? ==> EndOf(T, v) == FieldsEnd(T, v.fields)
    ensures v.UnionV? ==> EndOf(T, v) == if v.arm.Some? then Then(Read, EndOf(T, v.arm.value)) else Read
    ensures IsLeaf(v) ==> EndOf(T, v) == Read
  {
    hide ExtEnd, DataEnd, VariantEnd, FieldsEnd;
  }

  lemma LeafCut(T: Table, t: nat, u: nat, v: Value, e: nat, s: bytes, p: nat, d: nat, w: int)
    requires Alike(T, t, u) && HasType(T, t, v) && Encodable(T, t, v, e) && d <= MAX_RECURSION + 1 && IsLeaf(v)
    requires Agrees(s, p, Enc(T, t, v)) && Survives(T, t, v, w, d)
    ensures var r := |s| - p - |Enc(T, t, v)|;
            Dec(T, u, s, p, d) == Result(Survives(T, t, v, r, d) && Allows(EndOf(T, v), r), Norm(T, v), p + |Enc(T, t, v)|)
    ensures Shaped(EndOf(T, v), |Enc(T, t, v)|)
  {
    hide At, Agrees, Enc, Dec, Norm, Survives, Encodable, HasType, EndOf;
    var b := Enc(T, t, v);
    var z := Completed(s, p, b);
    RoundTrip(T, t, u, v, e, z, p, d);
    LeafSurvives(T, t, v, w, |s| - p - |b|, d);
    LeafSurvives(T, t, v, w, Rest(z, p + |b|), d);
    DecKept(T, u, s, z, p, d);
    LeafInside(T, t, u, v, s, p, d);
    UnfoldEnd(T, v);
  }

  lemma LeafSurvives(T: Table, t: nat, v: Value, w: int, r: int, d: nat)
    requires t < |T| && HasType(T, t, v) && IsLeaf(v)
    ensures Survives(T, t, v, w, d) == Survives(T, t, v, r, d)
  {
  }

  lemma LeafInside(T: Table, t: nat, u: nat, v: Value, s: bytes, p: nat, d: nat)
    requires Alike(T, t, u) && HasType(T, t, v) && IsLeaf(v) && d <= MAX_RECURSION + 1
    ensures Dec(T, u, s, p, d).Done? ==> Dec(T, u, s, p, d).pos <= |s|
  {
    hide DecFixed, DecStr, DecGuid, DecNode, DecExpanded, DecU16, DecLocalized, DecDiag, DecExt, DecData, DecVariant, DecFields;
  }

  lemma {:induction false} UnionCut(T: Table, t: nat, sel: u32, arm: Option<Value>, e: nat, s: bytes, p: nat, d: nat, w: int)
    requires t < |T| && HasType(T, t, UnionV(sel, arm)) && Encodable(T, t, UnionV(sel, arm), e) && d <= MAX_RECURSION + 1
    requires Agrees(s, p, Enc(T, t, UnionV(sel, arm))) && Survives(T, t, UnionV(sel, arm), w, d)
    ensures var v := UnionV(sel, arm);
            var r := |s| - p - |Enc(T, t, v)|;
            && Dec(T, t, s, p, d) == Result(Survives(T, t, v, r, d) && Allows(EndOf(T, v), r), Norm(T, v), p + |Enc(T, t, v)|)
            && Shaped(EndOf(T, v), |Enc(T, t, v)|)
    decreases arm, 1
  {
    hide Agrees, DecU32, LE, Enc, Dec, Norm, Survives, Encodable, EndOf, Allows;
    var v := UnionV(sel, arm);
    var r := |s| - p - |Enc(T, t, v)|;
    UnfoldUnion(T, t, sel, arm, e, r, d);
    UnfoldUnion(T, t, sel, arm, e, w, d);
    UnfoldEnd(T, v);
    var c := if arm.Some? then Enc(T, T[t].members[sel - 1].ty, arm.value) else [];
    AgreesSplit(s, p, LE(sel, 4), c);
    U32Cut(s, p, sel);
    ReadAllows(r + |c|);
    if arm.Some? {
      CutAt(T, T[t].members[sel - 1].ty, T[t].members[sel - 1].ty, arm.value, e + 1, s, p + 4, d + 1, w);
      ThenAllows(Read, EndOf(T, arm.value), |c|, r);
    }
    if p + 4 <= |s| {
      UnionChain(T, t, s, p, d, sel, p + 4);
    } else {
      NoSelector(T, t, s, p, d);
    }
  }

  lemma ReadAllows(r: int)
    ensures Allows(Read, r) <==> r >= 0
    ensures Allows(Skipped, r) <==> r >= -4
    ensures Allows(Nothing, r)
  {
  }

  lemma NoSelector(T: Table, t: nat, s: bytes, p: nat, d: nat)
    requires t < |T| && T[t].kind == UNION && d <= MAX_RECURSION + 1 && DecU32(s, p).Fail?
    ensures Dec(T, t, s, p, d).Fail?
  {
    hide DecU32;
  }

  /** The NodeId, the encoding byte, and content after the skipped length field. */
  lemma {:induction false} ContentCut(T: Table, ty: nat, v: Value, e: nat, s: bytes, p: nat, d: nat, w: int)
    requires ty < |T| && HasType(T, ty, v) && ContentOk(T, ty, v, e) && d <= MAX_RECURSION + 1
    requires Agrees(s, p, EncExtHead(T, ty, Size(T, ty, v)) + Enc(T, ty, v)) && ContentSurvives(T, ty, v, w, d)
    ensures var n := |EncExtHead(T, ty, Size(T, ty, v)) + Enc(T, ty, v)|;
            var ok := ContentSurvives(T, ty, v, |s| - p - n, d) && Allows(Then(Skipped, EndOf(T, v)), |s| - p - n);
            && DecExt(T, s, p, d) == Result(ok, Decoded(ty, Norm(T, v)), p + n)
            && DecUnwrap(T, s, p, d) == Result(ok, Scalar(ty, Norm(T, v)), p + n)
            && Shaped(Then(Skipped, EndOf(T, v)), n)
    decreases v, 1
  {
    hide Agrees, Dec, Enc, EncExtHead, DecNode, DecByte, Size, Survives, Norm, DecStr, DecExt, DecUnwrap, EncNodeMasked, EndOf, Allows;
    var a, b := EncExtHead(T, ty, Size(T, ty, v)), Enc(T, ty, v);
    var r := |s| - p - |a + b|;
    AgreesSplit(s, p, a, b);
    HeadCut(T, ty, Size(T, ty, v), s, p, d);
    CutAt(T, ty, ty, v, e, s, p + |a|, d, w);
    ThenAllows(Skipped, EndOf(T, v), |b|, r);
    ReadAllows(r + |b|);
    if p + |a| - 4 <= |s| {
      ContentChain(T, ty, s, p, d, p + |EncNode(BinaryId(T[ty]))|);
    }
  }

  lemma HeadCut(T: Table, ty: nat, len: nat, s: bytes, p: nat, d: nat)
    requires ty < |T| && Agrees(s, p, EncExtHead(T, ty, len)) && d <= MAX_RECURSION + 1
    ensures var q := p + |EncNode(BinaryId(T[ty]))|;
            && p + |EncExtHead(T, ty, len)| == q + 5
            && (if q + 1 <= |s| then DecNode(s, p) == Done(BinaryId(T[ty]), q) && DecByte(s, q) == Done(1, q + 1)
                else DecExt(T, s, p, d).Fail? && DecUnwrap(T, s, p, d).Fail?)
  {
    hide Agrees, EncNodeMasked, DecNode, DecByte, LE, Dec, DecStr;
    var a := EncNode(BinaryId(T[ty]));
    AgreesSplit(s, p, a + [1], LE(len, 4));
    AgreesSplit(s, p, a, [1]);
    NodeCut(s, p, BinaryId(T[ty]));
    ByteCut(s, p + |a|, 1);
  }

  lemma {:induction false} ExtCut(T: Table, x: ExtObj, e: nat, s: bytes, p: nat, d: nat, w: int)
    requires ExtTyped(T, x) && ExtOk(T, x, e) && d <= MAX_RECURSION + 1
    requires Agrees(s, p, EncExt(T, x)) && ExtSurvives(T, x, w, d)
    ensures var r := |s| - p - |EncExt(T, x)|;
            && DecExt(T, s, p, d) == Result(ExtSurvives(T, x, r, d) && Allows(ExtEnd(T, x), r), NormExt(T, x), p + |EncExt(T, x)|)
            && Shaped(ExtEnd(T, x), |EncExt(T, x)|)
    decreases x
  {
    hide At, Agrees, Dec, Enc, EncExtHead, EncNodeMasked, EncStr, DecNode, DecByte, DecStr, Size, Survives, Norm, EndOf, DecExt, ContentOk;
    if x.Decoded? {
      ContentCut(T, x.ty, x.content, e, s, p, d, w);
    } else {
      var z := Completed(s, p, EncExt(T, x));
      ExtRoundTrip(T, x, e, z, p, d);
      ExtKept(T, s, z, p, d);
      BodyInside(T, s, p, d);
    }
  }

  lemma BodyInside(T: Table, s: bytes, p: nat, d: nat)
    requires d <= MAX_RECURSION + 1
    ensures DecExt(T, s, p, d).Done? && !DecExt(T, s, p, d).v.Decoded? ==> DecExt(T, s, p, d).pos <= |s|
  {
    hide DecNode, Dec;
  }

  lemma {:induction false} DataCut(T: Table, dv: DataValue, e: nat, s: bytes, p: nat, d: nat, w: int)
    requires VariantTyped(T, dv.value) && (dv.hasValue ==> VariantOk(T, dv.value, e)) && d <= MAX_RECURSION + 1
    requires Agrees(s, p, EncData(T, dv)) && DataSurvives(T, dv, w, d)
    ensures var r := |s| - p - |EncData(T, dv)|;
            && DecData(T, s, p, d) == Result(DataSurvives(T, dv, r, d) && Allows(DataEnd(T, dv), r), NormData(T, dv), p + |EncData(T, dv)|)
            && Shaped(DataEnd(T, dv), |EncData(T, dv)|)
    decreases dv
  {
    hide Agrees, Has, DecByte, DecVariant, DecStamps, DataByte, EncStamps, EncVariant, NormVariant, VariantSurvives, PicoOk, VariantEnd,
         Allows;
    var b, st := DataByte(dv), EncStamps(dv);
    var x := if dv.hasValue then EncVariant(T, dv.value) else [];
    var y := if dv.hasValue then NormVariant(T, dv.value) else Empty;
    var m := if dv.hasValue then VariantEnd(T, dv.value) else Nothing;
    var r := |s| - p - |EncData(T, dv)|;
    AgreesSplit(s, p, [b] + x, st);
    AgreesSplit(s, p, [b], x);
    ByteCut(s, p, b);
    DataByteHas(dv);
    StampsCut(s, p + 1 + |x|, dv, y);
    if dv.hasValue {
      VariantCut(T, dv.value, e, s, p + 1, d + 1, w + |st|);
    }
    ThenAllows(Then(Read, m), PartEnd(EncStamps(dv)), |st|, r);
    ThenAllows(Read, m, |x|, r + |st|);
    ReadAllows(r + |st| + |x|);
    ReadAllows(r + |st|);
    ReadAllows(r);
  }

  lemma {:induction false} VariantCut(T: Table, x: Variant, e: nat, s: bytes, p: nat, d: nat, w: int)
    requires VariantTyped(T, x) && VariantOk(T, x, e) && d <= MAX_RECURSION + 1
    requires Agrees(s, p, EncVariant(T, x)) && VariantSurvives(T, x, w, d)
    ensures var r := |s| - p - |EncVariant(T, x)|;
            && DecVariant(T, s, p, d) ==
               Result(VariantSurvives(T, x, r, d) && Allows(VariantEnd(T, x), r), NormVariant(T, x), p + |EncVariant(T, x)|)
            && Shaped(VariantEnd(T, x), |EncVariant(T, x)|)
    decreases x, 1
  {
    hide Agrees, Has, DecByte, Enc, EncContent, EncDims, DecUnwrap, DecArr, DecDims, EndOf, ContentsEnd;
    match x
    case Empty => ByteCut(s, p, 0);
    case Scalar(_, _) => ScalarCut(T, x, e, s, p, d, w);
    case Array(_, _, _) => ArrayCut(T, x, e, s, p, d, w);
  }

  lemma {:induction false} ScalarCut(T: Table, x: Variant, e: nat, s: bytes, p: nat, d: nat, w: int)
    requires VariantTyped(T, x) && VariantOk(T, x, e) && d <= MAX_RECURSION + 1 && x.Scalar?
    requires Agrees(s, p, EncVariant(T, x)) && VariantSurvives(T, x, w, d)
    ensures var r := |s| - p - |EncVariant(T, x)|;
            && DecVariant(T, s, p, d) ==
               Result(VariantSurvives(T, x, r, d) && Allows(VariantEnd(T, x), r), NormVariant(T, x), p + |EncVariant(T, x)|)
            && Shaped(VariantEnd(T, x), |EncVariant(T, x)|)
    decreases x, 0
  {
    hide Agrees, Has, DecByte, Dec, Enc, EncExtHead, Size, Survives, ContentSurvives, Norm, DecUnwrap, DecArr, DecDims, EndOf, Allows,
         VariantByte, Encodable;
    var ty, v := x.ty, x.v;
    var b := VariantByte(T, x);
    var c := if Wrapped(T, ty) then EncExtHead(T, ty, Size(T, ty, v)) + Enc(T, ty, v) else Enc(T, ty, v);
    var r := |s| - p - 1 - |c|;
    AgreesSplit(s, p, [b], c);
    ByteCut(s, p, b);
    ScalarByte(T, x);
    ReadAllows(r + |c|);
    if Wrapped(T, ty) {
      ContentCut(T, ty, v, e, s, p + 1, d + 1, w);
      ThenAllows(Read, Then(Skipped, EndOf(T, v)), |c|, r);
    } else if T[ty].kind == EXTENSIONOBJECT {
      ExtScalarCut(T, ty, v, e, s, p + 1, d + 1, w);
      ThenAllows(Read, EndOf(T, v), |c|, r);
    } else {
      NotExt(T, ty, v);
      CutAt(T, ty, VariantKind(T, ty), v, e, s, p + 1, d + 1, w);
      ThenAllows(Read, EndOf(T, v), |c|, r);
    }
  }

  lemma {:induction false} ExtScalarCut(T: Table, ty: nat, v: Value, e: nat, s: bytes, p: nat, d: nat, w: int)
    requires ty < |T| && HasType(T, ty, v) && T[ty].kind == EXTENSIONOBJECT && Encodable(T, ty, v, e) && d <= MAX_RECURSION + 1
    requires Agrees(s, p, Enc(T, ty, v)) && Survives(T, ty, v, w, d)
    ensures var r := |s| - p - |Enc(T, ty, v)|;
            && DecUnwrap(T, s, p, d) == Result(Survives(T, ty, v, r, d) && Allows(EndOf(T, v), r),
                                               NormVariant(T, Scalar(ty, v)), p + |Enc(T, ty, v)|)
            && Shaped(EndOf(T, v), |Enc(T, ty, v)|)
    decreases v, 0
  {
    hide Agrees, DecByte, Dec, EncExtHead, Size, ContentSurvives, Norm, DecUnwrap, DecExt, DecNode, EncNodeMasked, EncStr, ContentOk,
         Allows;
    NotExt(T, ty, v);
    var x := v.ext;
    if x.Decoded? {
      ContentCut(T, x.ty, x.content, e, s, p, d, w);
    } else {
      ExtCut(T, x, e, s, p, d, w);
      BodyUnwrap(T, x, s, p, d);
      assert Norm(T, v) == v by { OtherNorm(T, x); }
    }
  }

  /** Unwrapping a body that is not decoded content is decoding the ExtensionObject, also when it is cut off. */
  lemma BodyUnwrap(T: Table, x: ExtObj, s: bytes, p: nat, d: nat)
    requires ExtTyped(T, x) && (x.NoBody? || (x.Encoded? && (x.xml || Find(T, x.id).None?))) && NodeOk(x.id) && d <= MAX_RECURSION + 1
    requires Agrees(s, p, EncExt(T, x))
    ensures DecUnwrap(T, s, p, d) == match DecExt(T, s, p, d)
                                     case Fail => Fail
                                     case Done(y, q) => Done(Scalar(EXTENSIONOBJECT, ExtV(y)), q)
  {
    hide Agrees, EncNodeMasked, EncStr, DecNode, DecByte, Dec, DecStr;
    var b := if x.NoBody? then 0 else if x.xml then 2 else 1;
    if x.Encoded? {
      AgreesSplit(s, p, EncNode(x.id) + [b], EncStr(x.body));
    }
    AgreesSplit(s, p, EncNode(x.id), [b]);
    NodeCut(s, p, x.id);
    ByteCut(s, p + |EncNode(x.id)|, b);
  }

  lemma {:induction false} ArrayCut(T: Table, x: Variant, e: nat, s: bytes, p: nat, d: nat, w: int)
    requires VariantTyped(T, x) && VariantOk(T, x, e) && d <= MAX_RECURSION + 1 && x.Array?
    requires Agrees(s, p, EncVariant(T, x)) && VariantSurvives(T, x, w, d)
    ensures var r := |s| - p - |EncVariant(T, x)|;
            && DecVariant(T, s, p, d) ==
               Result(VariantSurvives(T, x, r, d) && Allows(VariantEnd(T, x), r), NormVariant(T, x), p + |EncVariant(T, x)|)
            && Shaped(VariantEnd(T, x), |EncVariant(T, x)|)
    decreases x, 0
  {
    hide Agrees, Has, DecByte, EncArr, ArrSurvives, NormArr, NormWrapped, EncWrapped, WrappedSurvive, DecArr, DecDims, EncDims, Allows,
         VariantByte, EncContent, ArraySurvives, ArrOk, WrappedOk, ContentsEnd;
    var ty, arr, dims := x.ty, x.arr, x.dims;
    var b, c, m := VariantByte(T, x), EncContent(T, ty, arr), EncDims(dims);
    var r := |s| - p - 1 - |c| - |m|;
    AgreesSplit(s, p, [b] + c, m);
    AgreesSplit(s, p, [b], c);
    ByteCut(s, p, b);
    ArrayByte(T, x);
    DimsCut(s, p + 1 + |c|, dims);
    ContentsCut(T, ty, arr, e, s, p + 1, d + 1, w + |m|);
    NoDims(dims);
    ThenAllows(ContentsEnd(T, ty, arr), PartEnd(m), |m|, r);
    ThenAllows(Read, ContentsEnd(T, ty, arr), |c|, r + |m|);
    ReadAllows(r);
    ReadAllows(r + |m|);
    ReadAllows(r + |m| + |c|);
    NeverEmpty(T, ty, arr);
  }

  lemma NoDims(dims: seq<u32>)
    ensures EncDims(dims) == [] <==> dims == []
  {
    assert dims != [] ==> |EncDims(dims)| >= 4;
  }

  lemma NeverEmpty(T: Table, ty: nat, arr: Arr)
    ensures !ContentsEnd(T, ty, arr).Nothing?
  {
  }

  lemma {:induction false} ContentsCut(T: Table, ty: nat, arr: Arr, e: nat, s: bytes, p: nat, d: nat, w: int)
    requires ArrTyped(T, ty, arr) && ArraySendable(T, ty, arr, e) && d <= MAX_RECURSION + 1
    requires Agrees(s, p, EncContent(T, ty, arr)) && ArraySurvives(T, ty, arr, w, d)
    ensures var r := |s| - p - |EncContent(T, ty, arr)|;
            && DecArr(T, VariantKind(T, ty), s, p, d) ==
               Result(ArraySurvives(T, ty, arr, r, d) && Allows(ContentsEnd(T, ty, arr), r),
                      if Wrapped(T, ty) then Arr(if arr.Arr? then NormWrapped(T, ty, arr.elems) else []) else NormArr(T, arr),
                      p + |EncContent(T, ty, arr)|)
            && Shaped(ContentsEnd(T, ty, arr), |EncContent(T, ty, arr)|)
    decreases arr, 1
  {
    hide Agrees, EncArr, ArrSurvives, NormArr, NormWrapped, EncWrapped, WrappedSurvive, DecElems, LE, DecU32, Allows, ArrEnd, WrappedEnd;
    if !Wrapped(T, ty) {
      ArrCut(T, ty, VariantKind(T, ty), arr, e, s, p, d, w);
    } else {
      ReadAllows(|s| - p - |EncContent(T, ty, arr)|);
      if arr.NoArr? {
        U32Cut(s, p, 0);
      } else {
        ManyWrappedCut(T, ty, arr.elems, e, s, p, d, w);
      }
    }
  }

  /** The count and the wrapped elements. */
  lemma {:induction false} ManyWrappedCut(T: Table, ty: nat, es: seq<Value>, e: nat, s: bytes, p: nat, d: nat, w: int)
    requires ty < |T| && ElemsTyped(T, ty, es) && |es| <= INT32_MAX && WrappedOk(T, ty, es, e) && d <= MAX_RECURSION + 1
    requires Agrees(s, p, LE(|es|, 4) + EncWrapped(T, ty, es)) && (es != [] ==> WrappedSurvive(T, ty, es, w, d))
    ensures var n := |LE(|es|, 4) + EncWrapped(T, ty, es)|;
            var r := |s| - p - n;
            var fits := es == []
                        || ((T[EXTENSIONOBJECT].memSize * |es|) / 32 <= |EncWrapped(T, ty, es)| + r && WrappedSurvive(T, ty, es, r, d));
            && DecArr(T, EXTENSIONOBJECT, s, p, d) ==
               Result(fits && Allows(Then(Read, WrappedEnd(T, es)), r), Arr(NormWrapped(T, ty, es)), p + n)
            && Shaped(Then(Read, WrappedEnd(T, es)), n)
    decreases es, 1
  {
    hide Agrees, NormWrapped, EncWrapped, WrappedSurvive, DecElems, LE, DecU32, Allows, WrappedEnd, WrappedOk, ElemsTyped;
    var tail := EncWrapped(T, ty, es);
    var r := |s| - p - 4 - |tail|;
    AgreesSplit(s, p, LE(|es|, 4), tail);
    U32Cut(s, p, |es|);
    NoElems(T, ty);
    NoEnds(T);
    ReadAllows(r + |tail|);
    if es == [] {
      ReadAllows(r);
    } else {
      WrappedCut(T, ty, es, e, s, p + 4, d, w);
      ThenAllows(Read, WrappedEnd(T, es), |tail|, r);
      assert !T[EXTENSIONOBJECT].overlayable by {
        assert TypeOk(|T|, T[EXTENSIONOBJECT]) && T[EXTENSIONOBJECT].kind == EXTENSIONOBJECT;
      }
    }
  }

  lemma NoEnds(T: Table)
    ensures ElemsEnd(T, []) == WrappedEnd(T, []) == FieldsEnd(T, []) == Nothing
  {
  }

  lemma ConsResult<A>(ok1: bool, r1: Res<A>, v1: A, q1: nat, ok2: bool, r2: Res<seq<A>>, v2: seq<A>, q2: nat, r: Res<seq<A>>)
    requires r1 == Result(ok1, v1, q1) && (ok1 ==> r2 == Result(ok2, v2, q2))
    requires r == if r1.Fail? || r2.Fail? then Fail else Done([r1.v] + r2.v, r2.pos)
    ensures r == Result(ok1 && ok2, [v1] + v2, q2)
  {
  }

  lemma {:induction false} WrappedCut(T: Table, t: nat, es: seq<Value>, e: nat, s: bytes, p: nat, d: nat, w: int)
    requires t < |T| && ElemsTyped(T, t, es) && WrappedOk(T, t, es, e) && d <= MAX_RECURSION + 1
    requires Agrees(s, p, EncWrapped(T, t, es)) && WrappedSurvive(T, t, es, w, d)
    ensures var r := |s| - p - |EncWrapped(T, t, es)|;
            && DecElems(T, EXTENSIONOBJECT, s, p, d, |es|) ==
               Result(WrappedSurvive(T, t, es, r, d) && Allows(WrappedEnd(T, es), r), NormWrapped(T, t, es), p + |EncWrapped(T, t, es)|)
            && Shaped(WrappedEnd(T, es), |EncWrapped(T, t, es)|)
    decreases es, 0
  {
    hide Agrees, Enc, EncExtHead, Size, ContentSurvives, DecExt, Norm, ContentOk, Dec, HasType, EndOf, Allows, Then, Shaped;
    if es == [] {
      NothingShaped();
      ReadAllows(|s| - p);
    } else {
      var a, tail := EncExtHead(T, t, Size(T, t, es[0])) + Enc(T, t, es[0]), EncWrapped(T, t, es[1..]);
      var q := p + |EncWrapped(T, t, es)|;
      var r := |s| - q;
      AgreesSplit(s, p, a, tail);
      WrappedElemCut(T, t, es[0], e, s, p, d, w + |tail|);
      WrappedCut(T, t, es[1..], e, s, p + |a|, d, w);
      var end, rest := Then(Skipped, EndOf(T, es[0])), WrappedEnd(T, es[1..]);
      ThenAllows(end, rest, |tail|, r);
      ShapedThen(end, |a|, rest, |tail|);
      var r1 := Dec(T, EXTENSIONOBJECT, s, p, d);
      ConsResult(ContentSurvives(T, t, es[0], |tail| + r, d) && Allows(end, |tail| + r), r1, ExtV(Decoded(t, Norm(T, es[0]))), p + |a|,
                 WrappedSurvive(T, t, es[1..], r, d) && Allows(rest, r),
                 if r1.Fail? then Fail else DecElems(T, EXTENSIONOBJECT, s, r1.pos, d, |es| - 1),
                 NormWrapped(T, t, es[1..]), q, DecElems(T, EXTENSIONOBJECT, s, p, d, |es|));
    }
  }

  /** An element of an array of wrapped structures. */
  lemma {:induction false} WrappedElemCut(T: Table, t: nat, v: Value, e: nat, s: bytes, p: nat, d: nat, w: int)
    requires t < |T| && HasType(T, t, v) && ContentOk(T, t, v, e) && d <= MAX_RECURSION + 1
    requires Agrees(s, p, EncExtHead(T, t, Size(T, t, v)) + Enc(T, t, v)) && ContentSurvives(T, t, v, w, d)
    ensures var n := |EncExtHead(T, t, Size(T, t, v)) + Enc(T, t, v)|;
            var ok := ContentSurvives(T, t, v, |s| - p - n, d) && Allows(Then(Skipped, EndOf(T, v)), |s| - p - n);
            && Dec(T, EXTENSIONOBJECT, s, p, d) == Result(ok, ExtV(Decoded(t, Norm(T, v))), p + n)
            && Shaped(Then(Skipped, EndOf(T, v)), n)
    decreases v, 2
  {
    hide Agrees, Enc, EncExtHead, Size, ContentSurvives, DecExt, Norm, ContentOk, Dec, HasType, EndOf, Allows, Then, Shaped;
    ContentCut(T, t, v, e, s, p, d, w);
    UnfoldDec(T, EXTENSIONOBJECT, s, p, d);
  }

  lemma NothingShaped()
    ensures Shaped(Nothing, 0)
  {
  }

  lemma ShapedThen(a: Ending, m: nat, b: Ending, n: nat)
    requires Shaped(a, m) && Shaped(b, n)
    ensures Shaped(Then(a, b), m + n)
  {
  }

  lemma {:induction false} ArrCut(T: Table, t: nat, u: nat, a: Arr, e: nat, s: bytes, p: nat, d: nat, w: int)
    requires Alike(T, t, u) && ArrTyped(T, t, a) && ArrOk(T, t, a, e) && d <= MAX_RECURSION + 1
    requires Agrees(s, p, EncArr(T, t, a)) && ArrSurvives(T, t, u, a, w, d)
    ensures var r := |s| - p - |EncArr(T, t, a)|;
            && DecArr(T, u, s, p, d) == Result(ArrSurvives(T, t, u, a, r, d) && Allows(ArrEnd(T, a), r), NormArr(T, a), p + |EncArr(T, t, a)|)
            && Shaped(ArrEnd(T, a), |EncArr(T, t, a)|)
    decreases a, 0
  {
    hide Agrees, At, EncElems, ElemsSurvive, DecElems, NormElems, LE, DecU32, ElemsOk, Allows, ElemsEnd, ElemsTyped;
    match a
    case NoArr =>
      U32Cut(s, p, 0xFFFF_FFFF);
      ReadAllows(|s| - p - 4);
    case Arr(es) =>
      var tail := EncElems(T, t, es);
      var r := |s| - p - 4 - |tail|;
      AgreesSplit(s, p, LE(|es|, 4), tail);
      U32Cut(s, p, |es|);
      NoElems(T, t);
      NoEnds(T);
      ReadAllows(r + |tail|);
      if es == [] {
        ReadAllows(r);
      } else if T[u].overlayable {
        CopiedCut(T, t, u, es, s, p + 4);
        ReadAllows(r);
      } else {
        ElemsCut(T, t, u, es, e, s, p + 4, d, w);
        ThenAllows(Read, ElemsEnd(T, es), |tail|, r);
      }
  }

  /** Elements that are copied: all of their octets are needed. */
  lemma CopiedCut(T: Table, t: nat, u: nat, es: seq<Value>, s: bytes, p: nat)
    requires Alike(T, t, u) && T[u].overlayable && ElemsTyped(T, t, es) && es != [] && Agrees(s, p, EncElems(T, t, es))
    ensures ElemsEnd(T, es) == Read && |EncElems(T, t, es)| == T[u].memSize * |es|
    ensures p + |EncElems(T, t, es)| <= |s| ==> Raw(s, p, T[u].memSize, |es|) == NormElems(T, es)
  {
    hide Agrees, At, EncElems, ElemsEnd, NormElems, ElemsTyped, Pow256;
    assert TypeOk(|T|, T[u]);
    var z := Completed(s, p, EncElems(T, t, es));
    RawAt(T, t, es, z, p, T[u].memSize);
    CopiedEnd(T, t, es);
  }

  lemma {:induction false} CopiedEnd(T: Table, t: nat, es: seq<Value>)
    requires t < |T| && Width(T[t].kind) > 0 && ElemsTyped(T, t, es) && es != []
    ensures ElemsEnd(T, es) == Read
    decreases es
  {
    if |es| > 1 {
      CopiedEnd(T, t, es[1..]);
    }
  }

  lemma {:induction false} ElemsCut(T: Table, t: nat, u: nat, es: seq<Value>, e: nat, s: bytes, p: nat, d: nat, w: int)
    requires Alike(T, t, u) && ElemsTyped(T, t, es) && ElemsOk(T, t, es, e) && d <= MAX_RECURSION + 1
    requires Agrees(s, p, EncElems(T, t, es)) && ElemsSurvive(T, t, es, w, d)
    ensures var r := |s| - p - |EncElems(T, t, es)|;
            && DecElems(T, u, s, p, d, |es|) ==
               Result(ElemsSurvive(T, t, es, r, d) && Allows(ElemsEnd(T, es), r), NormElems(T, es), p + |EncElems(T, t, es)|)
            && Shaped(ElemsEnd(T, es), |EncElems(T, t, es)|)
    decreases es
  {
    hide Agrees, Enc, Survives, Dec, Norm, Encodable, EndOf, Allows, Then;
    if es == [] {
      ReadAllows(|s| - p);
    } else {
      var a, tail := Enc(T, t, es[0]), EncElems(T, t, es[1..]);
      var q := p + |EncElems(T, t, es)|;
      var r := |s| - q;
      AgreesSplit(s, p, a, tail);
      CutAt(T, t, u, es[0], e, s, p, d, w + |tail|);
      ElemsCut(T, t, u, es[1..], e, s, p + |a|, d, w);
      var end, rest := EndOf(T, es[0]), ElemsEnd(T, es[1..]);
      ThenAllows(end, rest, |tail|, r);
      ShapedThen(end, |a|, rest, |tail|);
      var r1 := Dec(T, u, s, p, d);
      ConsResult(Survives(T, t, es[0], |tail| + r, d) && Allows(end, |tail| + r), r1, Norm(T, es[0]), p + |a|,
                 ElemsSurvive(T, t, es[1..], r, d) && Allows(rest, r),
                 if r1.Fail? then Fail else DecElems(T, u, s, r1.pos, d, |es| - 1),
                 NormElems(T, es[1..]), q, DecElems(T, u, s, p, d, |es|));
    }
  }

  lemma {:induction false} FieldsCut(T: Table, ms: seq<Member>, fs: seq<Field>, e: nat, s: bytes, p: nat, d: nat, w: int)
    requires MembersOk(|T|, ms) && FieldsTyped(T, ms, fs) && FieldsOk(T, ms, fs, e) && d <= MAX_RECURSION + 1
    requires Agrees(s, p, EncFields(T, ms, fs)) && FieldsSurvive(T, ms, fs, w, d)
    ensures var r := |s| - p - |EncFields(T, ms, fs)|;
            && DecFields(T, ms, s, p, d) ==
               Result(FieldsSurvive(T, ms, fs, r, d) && Allows(FieldsEnd(T, fs), r), NormFields(T, fs), p + |EncFields(T, ms, fs)|)
            && Shaped(FieldsEnd(T, fs), |EncFields(T, ms, fs)|)
    decreases fs
  {
    hide Agrees, EncField, FieldSurvives, DecField, NormField, FieldOk, FieldTyped, FieldEnd, Allows, Then;
    if fs == [] {
      ReadAllows(|s| - p);
    } else {
      var a, tail := EncField(T, ms[0], fs[0]), EncFields(T, ms[1..], fs[1..]);
      var q := p + |EncFields(T, ms, fs)|;
      var r := |s| - q;
      AgreesSplit(s, p, a, tail);
      FieldCut(T, ms[0], fs[0], e, s, p, d, w + |tail|);
      FieldsCut(T, ms[1..], fs[1..], e, s, p + |a|, d, w);
      var end, rest := FieldEnd(T, fs[0]), FieldsEnd(T, fs[1..]);
      ThenAllows(end, rest, |tail|, r);
      ShapedThen(end, |a|, rest, |tail|);
      var r1 := DecField(T, ms[0], s, p, d);
      ConsResult(FieldSurvives(T, ms[0], fs[0], |tail| + r, d) && Allows(end, |tail| + r), r1, NormField(T, fs[0]), p + |a|,
                 FieldsSurvive(T, ms[1..], fs[1..], r, d) && Allows(rest, r),
                 if r1.Fail? then Fail else DecFields(T, ms[1..], s, r1.pos, d),
                 NormFields(T, fs[1..]), q, DecFields(T, ms, s, p, d));
    }
  }

  lemma {:induction false} FieldCut(T: Table, m: Member, f: Field, e: nat, s: bytes, p: nat, d: nat, w: int)
    requires m.ty < |T| && FieldTyped(T, m, f) && FieldOk(T, m, f, e) && d <= MAX_RECURSION + 1
    requires Agrees(s, p, EncField(T, m, f)) && FieldSurvives(T, m, f, w, d)
    ensures var r := |s| - p - |EncField(T, m, f)|;
            && DecField(T, m, s, p, d) ==
               Result(FieldSurvives(T, m, f, r, d) && Allows(FieldEnd(T, f), r), NormField(T, f), p + |EncField(T, m, f)|)
            && Shaped(FieldEnd(T, f), |EncField(T, m, f)|)
    decreases f
  {
    hide Agrees, Enc, Survives, Dec, Norm, EncArr, ArrSurvives, DecArr, NormArr, ArrOk, Encodable, EndOf, ArrEnd, Allows;
    match f
    case One(v) => CutAt(T, m.ty, m.ty, v, e, s, p, d, w);
    case Many(a) => ArrCut(T, m.ty, m.ty, a, e, s, p, d, w);
  }

  // ----- strict prefixes -----

  /** The first n octets of a surviving encoding decode exactly when the rest is part of a length field that is
      skipped, at the end of the encoding, and the length guards of its arrays still hold. */
  lemma PrefixExact(T: Table, t: nat, v: Value, e: nat, d: nat, n: nat)
    requires t < |T| && HasType(T, t, v) && Encodable(T, t, v, e) && d <= MAX_RECURSION + 1
    requires Survives(T, t, v, 0, d) && n < |Enc(T, t, v)|
    ensures var b := Enc(T, t, v);
            Dec(T, t, b[..n], 0, d) ==
            if EndOf(T, v).Skipped? && |b| - n <= 4 && Survives(T, t, v, n - |b|, d) then Done(Norm(T, v), |b|) else Fail
  {
    hide Dec, Enc, Survives, Norm, EndOf, Encodable, HasType;
    var b := Enc(T, t, v);
    assert Agrees(b[..n], 0, b);
    CutAt(T, t, t, v, e, b[..n], 0, d, 0);
  }

  /** Without such a length field no strict prefix decodes. */
  lemma NoStrictPrefix(T: Table, t: nat, v: Value, e: nat, d: nat, n: nat)
    requires t < |T| && HasType(T, t, v) && Encodable(T, t, v, e) && d <= MAX_RECURSION + 1
    requires Survives(T, t, v, 0, d) && n < |Enc(T, t, v)| && (!EndOf(T, v).Skipped? || !HollowTable(T, d))
    ensures Dec(T, t, Enc(T, t, v)[..n], 0, d).Fail?
  {
    hide Dec, Enc, Survives, Norm, EndOf, Encodable, HasType, HollowTable;
    PrefixExact(T, t, v, e, d, n);
    DecInside(T, t, Enc(T, t, v)[..n], 0, d);
  }

  /** Values of the hollow types, and no others, leave no octet behind the skipped length field. */
  lemma HollowEnd(T: Table, t: nat, v: Value, e: nat, d: nat)
    requires t < |T| && HasType(T, t, v) && Encodable(T, t, v, e) && d <= MAX_RECURSION + 1 && Survives(T, t, v, 0, d)
    ensures EndOf(T, v).Nothing? <==> Hollow(T, t, d)
    ensures EndOf(T, v).Nothing? <==> Enc(T, t, v) == []
  {
    hide Dec, Enc, Survives, Norm, EndOf, Encodable, HasType, Hollow;
    CutAt(T, t, t, v, e, [], 0, d, 0);
    CutAt(T, t, t, v, e, [], 1, d, 0);
    DecReads(T, t, [], 0, d);
    DecReads(T, t, [], 1, d);
  }
}
