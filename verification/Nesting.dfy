/** The decoder's nesting limit. */
module Nesting {
  import opened Bytes
  import opened Types
  import opened Wire
  import opened Parse
  import opened Survival
  import opened Faithful

  function Max(a: nat, b: nat): nat {
    if a < b then b else a
  }

  /** Nesting levels the decoder counts: Variants that are not empty, DataValues, structures and unions. */
  function Levels(T: Table, t: nat, v: Value): nat
    requires t < |T| && HasType(T, t, v)
    decreases v
  {
    match v
    case ExtV(e) => if e.Decoded? then ExtLevels(T, e) else 0
    case DataV(dv) => DataLevels(T, dv)
    case VariantV(x) => VariantLevels(T, x)
    case StructV(fs) => 1 + FieldsLevels(T, T[t].members, fs)
    case UnionV(sel, arm) => 1 + (if arm.Some? then Levels(T, T[t].members[sel - 1].ty, arm.value) else 0)
    case _ => 0
  }

  function ExtLevels(T: Table, e: ExtObj): nat
    requires ExtTyped(T, e)
    decreases e
  {
    if e.Decoded? then Levels(T, e.ty, e.content) else 0
  }

  function DataLevels(T: Table, dv: DataValue): nat
    requires VariantTyped(T, dv.value)
    decreases dv
  {
    1 + (if dv.hasValue then VariantLevels(T, dv.value) else 0)
  }

  function VariantLevels(T: Table, x: Variant): nat
    requires VariantTyped(T, x)
    decreases x
  {
    match x
    case Empty => 0
    case Scalar(ty, v) => 1 + Levels(T, ty, v)
    case Array(ty, arr, _) => 1 + ArrLevels(T, ty, VariantKind(T, ty), arr)
  }

  function ArrLevels(T: Table, t: nat, u: nat, a: Arr): nat
    requires ArrTyped(T, t, a) && u < |T|
    decreases a
  {
    if a.Arr? && !T[u].overlayable then ElemsLevels(T, t, a.elems) else 0
  }

  function ElemsLevels(T: Table, t: nat, es: seq<Value>): nat
    requires t < |T| && ElemsTyped(T, t, es)
    decreases es
  {
    if es == [] then 0 else Max(Levels(T, t, es[0]), ElemsLevels(T, t, es[1..]))
  }

  function FieldsLevels(T: Table, ms: seq<Member>, fs: seq<Field>): nat
    requires MembersOk(|T|, ms) && FieldsTyped(T, ms, fs)
    decreases fs
  {
    if fs == [] then 0 else Max(FieldLevels(T, ms[0], fs[0]), FieldsLevels(T, ms[1..], fs[1..]))
  }

  function FieldLevels(T: Table, m: Member, f: Field): nat
    requires m.ty < |T| && FieldTyped(T, m, f)
    decreases f
  {
    match f
    case One(v) => Levels(T, m.ty, v)
    case Many(a) => ArrLevels(T, m.ty, m.ty, a)
  }

  /** `fits`, for whether a value survives at depth d, given that it does at some depth c:
      exactly when its levels fit between d and the limit. */
  predicate Exactly(atC: bool, atD: bool, c: nat, d: nat, n: nat) {
    && (atC ==> n == 0 || c + n <= MAX_RECURSION + 1)
    && (atC ==> (atD <==> n == 0 || d + n <= MAX_RECURSION + 1))
  }

  lemma {:induction false} DepthExact(T: Table, t: nat, v: Value, r: int, c: nat, d: nat)
    requires t < |T| && HasType(T, t, v)
    ensures Exactly(Survives(T, t, v, r, c), Survives(T, t, v, r, d), c, d, Levels(T, t, v))
    decreases v, 0
  {
    hide VariantLevels, DataLevels, FieldsLevels, VariantSurvives, DataSurvives, FieldsSurvive, ContentSurvives;
    match v
    case ExtV(e) =>
      if e.Decoded? {
        ContentDepth(T, e.ty, e.content, r, c, d);
      }
    case DataV(dv) => DataDepth(T, dv, r, c, d);
    case VariantV(x) => VariantDepth(T, x, r, c, d);
    case StructV(fs) => FieldsDepth(T, T[t].members, fs, r, c + 1, d + 1);
    case UnionV(sel, arm) =>
      if arm.Some? {
        DepthExact(T, T[t].members[sel - 1].ty, arm.value, r, c + 1, d + 1);
      }
    case _ =>
  }

  lemma {:induction false} ContentDepth(T: Table, ty: nat, v: Value, r: int, c: nat, d: nat)
    requires ty < |T| && HasType(T, ty, v)
    ensures Exactly(ContentSurvives(T, ty, v, r, c), ContentSurvives(T, ty, v, r, d), c, d, Levels(T, ty, v))
    decreases v, 1
  {
    hide Levels, Survives;
    DepthExact(T, ty, v, r, c, d);
  }

  lemma {:induction false} DataDepth(T: Table, dv: DataValue, r: int, c: nat, d: nat)
    requires VariantTyped(T, dv.value)
    ensures Exactly(DataSurvives(T, dv, r, c), DataSurvives(T, dv, r, d), c, d, DataLevels(T, dv))
    decreases dv
  {
    hide VariantLevels, VariantSurvives, EncStamps;
    if dv.hasValue {
      VariantDepth(T, dv.value, r + |EncStamps(dv)|, c + 1, d + 1);
    }
  }

  lemma {:induction false} VariantDepth(T: Table, x: Variant, r: int, c: nat, d: nat)
    requires VariantTyped(T, x)
    ensures Exactly(VariantSurvives(T, x, r, c), VariantSurvives(T, x, r, d), c, d, VariantLevels(T, x))
    decreases x
  {
    hide Levels, Survives, ContentSurvives, ArrSurvives, ArrLevels, EncDims, WrappedSurvive, ElemsLevels, EncWrapped;
    match x
    case Empty =>
    case Scalar(ty, v) =>
      ContentDepth(T, ty, v, r, c + 1, d + 1);
      DepthExact(T, ty, v, r, c + 1, d + 1);
    case Array(ty, arr, dims) =>
      var q := r + |EncDims(dims)|;
      if !Wrapped(T, ty) {
        ArrDepth(T, ty, VariantKind(T, ty), arr, q, c + 1, d + 1);
      } else {
        WrappedLevels(T, ty, arr);
        NoLevels(T, ty);
        if arr.Arr? && arr.elems != [] {
          WrappedDepth(T, ty, arr.elems, q, c + 1, d + 1);
        }
      }
  }

  lemma WrappedLevels(T: Table, ty: nat, arr: Arr)
    requires ArrTyped(T, ty, arr) && Wrapped(T, ty)
    ensures ArrLevels(T, ty, VariantKind(T, ty), arr) == if arr.Arr? then ElemsLevels(T, ty, arr.elems) else 0
  {
    assert T[EXTENSIONOBJECT].kind == EXTENSIONOBJECT && TypeOk(|T|, T[EXTENSIONOBJECT]);
  }

  lemma {:induction false} WrappedDepth(T: Table, t: nat, es: seq<Value>, r: int, c: nat, d: nat)
    requires t < |T| && ElemsTyped(T, t, es)
    ensures Exactly(WrappedSurvive(T, t, es, r, c), WrappedSurvive(T, t, es, r, d), c, d, ElemsLevels(T, t, es))
    decreases es
  {
    hide Levels, ContentSurvives, EncWrapped;
    if es != [] {
      ContentDepth(T, t, es[0], |EncWrapped(T, t, es[1..])| + r, c, d);
      WrappedDepth(T, t, es[1..], r, c, d);
    }
  }

  lemma {:induction false} ArrDepth(T: Table, t: nat, u: nat, a: Arr, r: int, c: nat, d: nat)
    requires ArrTyped(T, t, a) && u < |T|
    ensures Exactly(ArrSurvives(T, t, u, a, r, c), ArrSurvives(T, t, u, a, r, d), c, d, ArrLevels(T, t, u, a))
    decreases a
  {
    hide ElemsLevels, ElemsSurvive, EncElems;
    if a.Arr? {
      ElemsDepth(T, t, a.elems, r, c, d);
      if a.elems == [] {
        assert ElemsLevels(T, t, a.elems) == 0 by { NoLevels(T, t); }
      }
    }
  }

  lemma NoLevels(T: Table, t: nat)
    requires t < |T|
    ensures ElemsLevels(T, t, []) == 0
  {
  }

  lemma {:induction false} ElemsDepth(T: Table, t: nat, es: seq<Value>, r: int, c: nat, d: nat)
    requires t < |T| && ElemsTyped(T, t, es)
    ensures Exactly(ElemsSurvive(T, t, es, r, c), ElemsSurvive(T, t, es, r, d), c, d, ElemsLevels(T, t, es))
    decreases es
  {
    hide Levels, Survives, EncElems;
    if es != [] {
      DepthExact(T, t, es[0], |EncElems(T, t, es[1..])| + r, c, d);
      ElemsDepth(T, t, es[1..], r, c, d);
    }
  }

  lemma {:induction false} FieldsDepth(T: Table, ms: seq<Member>, fs: seq<Field>, r: int, c: nat, d: nat)
    requires MembersOk(|T|, ms) && FieldsTyped(T, ms, fs)
    ensures Exactly(FieldsSurvive(T, ms, fs, r, c), FieldsSurvive(T, ms, fs, r, d), c, d, FieldsLevels(T, ms, fs))
    decreases fs
  {
    hide FieldLevels, FieldSurvives, EncFields;
    if fs != [] {
      FieldDepth(T, ms[0], fs[0], |EncFields(T, ms[1..], fs[1..])| + r, c, d);
      FieldsDepth(T, ms[1..], fs[1..], r, c, d);
    }
  }

  lemma {:induction false} FieldDepth(T: Table, m: Member, f: Field, r: int, c: nat, d: nat)
    requires m.ty < |T| && FieldTyped(T, m, f)
    ensures Exactly(FieldSurvives(T, m, f, r, c), FieldSurvives(T, m, f, r, d), c, d, FieldLevels(T, m, f))
    decreases f
  {
    hide Levels, Survives, ArrLevels, ArrSurvives;
    match f
    case One(v) => DepthExact(T, m.ty, v, r, c, d);
    case Many(a) => ArrDepth(T, m.ty, m.ty, a, r, c, d);
  }

  /** A value that survives when decoded at the top level decodes at depth d exactly when its
      nesting fits under the limit of 101 counted levels. */
  lemma LimitExact(T: Table, t: nat, v: Value, e: nat, s: bytes, p: nat, d: nat)
    requires t < |T| && HasType(T, t, v) && Encodable(T, t, v, e) && At(s, p, Enc(T, t, v)) && d <= MAX_RECURSION + 1
    requires Survives(T, t, v, Rest(s, p + |Enc(T, t, v)|), 0)
    ensures Dec(T, t, s, p, d) == Done(Norm(T, v), p + |Enc(T, t, v)|)
            <==> Levels(T, t, v) == 0 || d + Levels(T, t, v) <= 101
  {
    hide Dec, Norm, Survives, Levels, Enc, At;
    DepthExact(T, t, v, Rest(s, p + |Enc(T, t, v)|), 0, d);
    RoundTrip(T, t, t, v, e, s, p, d);
  }

  /** A value nested more than 101 counted levels deep is never returned, whatever follows it. */
  lemma TooDeepNeverReturned(T: Table, t: nat, v: Value, e: nat, s: bytes, p: nat)
    requires t < |T| && HasType(T, t, v) && Encodable(T, t, v, e) && At(s, p, Enc(T, t, v))
    requires Levels(T, t, v) > 101
    ensures Dec(T, t, s, p, 0).Done? ==> Dec(T, t, s, p, 0).v != Norm(T, v)
  {
    hide Dec, Norm, Survives, Levels, Enc, At;
    DepthExact(T, t, v, Rest(s, p + |Enc(T, t, v)|), 0, 0);
    RoundTrip(T, t, t, v, e, s, p, 0);
  }
}
