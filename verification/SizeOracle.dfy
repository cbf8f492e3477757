/** The size oracle against the writer: they differ exactly by the width of type ids. */
module SizeOracle {
  import opened Bytes
  import opened Types
  import opened Wire

  /** How much longer a type's own NodeId is than the binary encoding id that is written. */
  function WidthGap(T: Table, ty: nat): int
    requires ty < |T|
  {
    if !T[ty].typeId.id.Numeric? then 0 else TypeIdSize(T, ty) - |EncNode(BinaryId(T[ty]))|
  }

  /** Every type's own id and binary encoding id are in the same width class. */
  ghost predicate WidthsAgree(T: Table) {
    forall ty | 0 <= ty < |T| :: WidthGap(T, ty) == 0
  }

  lemma GapIsClass(T: Table, ty: nat)
    requires ty < |T| && T[ty].typeId.id.Numeric?
    ensures WidthGap(T, ty) == 0 <==> NumericForm(T[ty].typeId.ns, T[ty].typeId.id.n) == NumericForm(T[ty].typeId.ns, T[ty].binId)
  {
    hide LE, Mark;
  }

  /** The oracle's excess over the encoding: one width gap per ExtensionObject written. */
  function Slack(T: Table, t: nat, v: Value): (r: int)
    requires t < |T| && HasType(T, t, v)
    ensures WidthsAgree(T) ==> r == 0
    decreases v, 0
  {
    match v
    case ExtV(e) => ExtSlack(T, e)
    case DataV(dv) => if dv.hasValue then VariantSlack(T, dv.value) else 0
    case VariantV(x) => VariantSlack(T, x)
    case StructV(fs) => FieldsSlack(T, T[t].members, fs)
    case UnionV(sel, arm) => if arm.Some? then Slack(T, T[t].members[sel - 1].ty, arm.value) else 0
    case _ => 0
  }

  function ExtSlack(T: Table, e: ExtObj): (r: int)
    requires ExtTyped(T, e)
    ensures WidthsAgree(T) ==> r == 0
    decreases e
  {
    if e.Decoded? then ContentSlack(T, e.ty, e.content) else 0
  }

  function ContentSlack(T: Table, ty: nat, v: Value): (r: int)
    requires ty < |T| && HasType(T, ty, v)
    ensures WidthsAgree(T) ==> r == 0
    decreases v, 1
  {
    WidthGap(T, ty) + Slack(T, ty, v)
  }

  function VariantSlack(T: Table, x: Variant): (r: int)
    requires VariantTyped(T, x)
    ensures WidthsAgree(T) ==> r == 0
    decreases x
  {
    match x
    case Empty => 0
    case Scalar(ty, v) => if Wrapped(T, ty) then ContentSlack(T, ty, v) else Slack(T, ty, v)
    case Array(ty, arr, _) =>
      (if Wrapped(T, ty) then WidthGap(T, ty) * Count(arr) else 0) + ArrSlack(T, ty, arr)
  }

  function ArrSlack(T: Table, t: nat, a: Arr): (r: int)
    requires ArrTyped(T, t, a)
    ensures WidthsAgree(T) ==> r == 0
    decreases a
  {
    if a.Arr? && !T[t].overlayable then ElemsSlack(T, t, a.elems) else 0
  }

  function ElemsSlack(T: Table, t: nat, es: seq<Value>): (r: int)
    requires t < |T| && ElemsTyped(T, t, es)
    ensures WidthsAgree(T) ==> r == 0
    decreases es
  {
    if es == [] then 0 else Slack(T, t, es[0]) + ElemsSlack(T, t, es[1..])
  }

  function FieldsSlack(T: Table, ms: seq<Member>, fs: seq<Field>): (r: int)
    requires FieldsTyped(T, ms, fs)
    ensures WidthsAgree(T) ==> r == 0
    decreases fs
  {
    if fs == [] then 0 else FieldSlack(T, ms[0], fs[0]) + FieldsSlack(T, ms[1..], fs[1..])
  }

  function FieldSlack(T: Table, m: Member, f: Field): (r: int)
    requires FieldTyped(T, m, f)
    ensures WidthsAgree(T) ==> r == 0
    decreases f
  {
    match f
    case One(v) => Slack(T, m.ty, v)
    case Many(a) => ArrSlack(T, m.ty, a)
  }

  // ----- leaf sizes -----

  lemma StrSizeExact(s: Str)
    ensures |EncStr(s)| == StrSize(s)
  {
  }

  lemma NodeSizeExact(id: NodeId, hasUri: bool, hasServer: bool)
    requires id.id != Unknown
    ensures |EncNodeMasked(id, hasUri, hasServer)| == NodeSize(id)
  {
    hide EncStr, LE, Mark;
    match id.id
    case StringId(s) => StrSizeExact(s);
    case ByteStringId(b) => StrSizeExact(b);
    case _ =>
  }

  lemma {:induction false} DiagSizeExact(g: Diag)
    ensures |EncDiag(g)| == DiagSize(g)
    decreases g
  {
    hide EncStr, LE, Mark, StrSize;
    if g.additionalInfo.Some? {
      StrSizeExact(g.additionalInfo.value);
    }
    if g.inner.Some? {
      DiagSizeExact(g.inner.value);
    }
  }

  lemma HeadSize(T: Table, ty: nat, len: nat)
    requires ty < |T| && T[ty].typeId.id.Numeric?
    ensures |EncExtHead(T, ty, len)| == TypeIdSize(T, ty) - WidthGap(T, ty) + 5
  {
  }

  /** The oracle's answer is the encoded length plus the slack. */
  lemma {:induction false} SizeExact(T: Table, t: nat, v: Value, d: nat)
    requires t < |T| && HasType(T, t, v) && Encodable(T, t, v, d)
    ensures Size(T, t, v) == |Enc(T, t, v)| + Slack(T, t, v)
    decreases v, 0
  {
    hide EncStr, EncNodeMasked, EncDiag, DiagSize, NodeSize, StrSize, LE, EncVariant, VariantSize, VariantSlack,
         EncFields, FieldsSize, FieldsSlack, EncStamps, ExtSlack, EncExtHead, TypeIdSize, VariantOk, FieldsOk, ContentOk;
    match v
    case Fixed(n) => assert |LE(n, Width(T[t].kind))| == Width(T[t].kind);
    case Text(s) => StrSizeExact(s);
    case GuidV(g) =>
    case NodeV(id) => NodeSizeExact(id, false, false);
    case ExpandedV(id, uri, server) =>
      NodeSizeExact(id, HasUri(uri), server > 0);
      StrSizeExact(uri);
    case NameV(ns, name) => StrSizeExact(name);
    case LocalizedV(locale, local) =>
      StrSizeExact(locale);
      StrSizeExact(local);
    case DiagV(g) => DiagSizeExact(g);
    case ExtV(e) => ExtSizeExact(T, e, d);
    case DataV(dv) =>
      StampsSize(dv);
      if dv.hasValue {
        VariantSizeExact(T, dv.value, d);
      }
    case VariantV(x) => VariantSizeExact(T, x, d);
    case StructV(fs) => FieldsSizeExact(T, T[t].members, fs, d + 1);
    case UnionV(sel, arm) =>
      if arm.Some? {
        SizeExact(T, T[t].members[sel - 1].ty, arm.value, d + 1);
      }
  }

  lemma StampsSize(dv: DataValue)
    ensures |EncStamps(dv)| == OptSize(dv.status, 4) + OptSize(dv.sourceTime, 8) + OptSize(dv.sourcePico, 2)
                               + OptSize(dv.serverTime, 8) + OptSize(dv.serverPico, 2)
  {
  }

  lemma {:induction false} ExtSizeExact(T: Table, e: ExtObj, d: nat)
    requires ExtTyped(T, e) && ExtOk(T, e, d)
    ensures ExtSize(T, e) == |EncExt(T, e)| + ExtSlack(T, e)
    decreases e
  {
    hide EncStr, EncNodeMasked, NodeSize, StrSize, EncExtHead, TypeIdSize;
    match e
    case NoBody(id) => NodeSizeExact(id, false, false);
    case Encoded(id, _, body) =>
      NodeSizeExact(id, false, false);
      StrSizeExact(body);
    case Decoded(ty, v) =>
      SizeExact(T, ty, v, d);
      HeadSize(T, ty, Size(T, ty, v));
  }

  lemma {:induction false} VariantSizeExact(T: Table, x: Variant, d: nat)
    requires VariantTyped(T, x) && VariantOk(T, x, d)
    ensures VariantSize(T, x) == |EncVariant(T, x)| + VariantSlack(T, x)
    decreases x
  {
    hide EncExtHead, TypeIdSize, Enc, Size, Slack, ArrSize, ArrSlack, EncContent, VariantByte, LE, Encodable, ArraySendable, WidthGap, Count,
         HasType, ArrTyped;
    match x
    case Empty =>
    case Scalar(ty, v) =>
      SizeExact(T, ty, v, d);
      if Wrapped(T, ty) {
        HeadSize(T, ty, Size(T, ty, v));
      }
    case Array(ty, arr, dims) => ContentSizeExact(T, ty, arr, d);
  }

  lemma {:induction false} ContentSizeExact(T: Table, ty: nat, arr: Arr, d: nat)
    requires ArrTyped(T, ty, arr) && ArraySendable(T, ty, arr, d)
    ensures ArrSize(T, ty, arr) + (if Wrapped(T, ty) then (TypeIdSize(T, ty) + 5) * Count(arr) else 0) ==
            |EncContent(T, ty, arr)| + (if Wrapped(T, ty) then WidthGap(T, ty) * Count(arr) else 0) + ArrSlack(T, ty, arr)
    decreases arr, 1
  {
    hide EncWrapped, ElemsSize, ElemsSlack, TypeIdSize, WidthGap, EncArr, WrappedOk, ArrOk;
    if !Wrapped(T, ty) {
      ArrSizeExact(T, ty, arr, d);
    } else if arr.Arr? {
      assert TypeOk(|T|, T[ty]);
      WrappedSizeExact(T, ty, arr.elems, d);
    }
  }

  lemma {:induction false} WrappedSizeExact(T: Table, t: nat, es: seq<Value>, d: nat)
    requires t < |T| && ElemsTyped(T, t, es) && WrappedOk(T, t, es, d)
    ensures ElemsSize(T, t, es) + (TypeIdSize(T, t) + 5) * |es| ==
            |EncWrapped(T, t, es)| + WidthGap(T, t) * |es| + ElemsSlack(T, t, es)
    decreases es
  {
    hide EncExtHead, TypeIdSize, WidthGap, Enc, Size, Slack, Encodable;
    if es != [] {
      SizeExact(T, t, es[0], d);
      HeadSize(T, t, Size(T, t, es[0]));
      WrappedSizeExact(T, t, es[1..], d);
      var a, g, n := TypeIdSize(T, t) + 5, WidthGap(T, t), |es[1..]|;
      assert a * |es| == a + a * n && g * |es| == g + g * n by { Successor(a, n); Successor(g, n); }
    }
  }

  lemma Successor(a: int, n: nat)
    ensures a * (n + 1) == a + a * n
  {
  }

  lemma {:induction false} ArrSizeExact(T: Table, t: nat, a: Arr, d: nat)
    requires ArrTyped(T, t, a) && ArrOk(T, t, a, d)
    ensures ArrSize(T, t, a) == |EncArr(T, t, a)| + ArrSlack(T, t, a)
    decreases a, 0
  {
    hide EncElems, ElemsSize, ElemsSlack, ElemsOk, ElemsTyped;
    if a.Arr? {
      if T[t].overlayable {
        assert TypeOk(|T|, T[t]);
        FlatSize(T, t, a.elems);
      } else {
        ElemsSizeExact(T, t, a.elems, d);
      }
    }
  }

  lemma {:induction false} FlatSize(T: Table, t: nat, es: seq<Value>)
    requires t < |T| && ElemsTyped(T, t, es) && Width(T[t].kind) > 0
    ensures |EncElems(T, t, es)| == Width(T[t].kind) * |es|
    decreases es
  {
    if es != [] {
      FlatSize(T, t, es[1..]);
      assert Enc(T, t, es[0]) == LE(es[0].n, Width(T[t].kind));
      Successor(Width(T[t].kind), |es[1..]|);
    }
  }

  lemma {:induction false} ElemsSizeExact(T: Table, t: nat, es: seq<Value>, d: nat)
    requires t < |T| && ElemsTyped(T, t, es) && ElemsOk(T, t, es, d)
    ensures ElemsSize(T, t, es) == |EncElems(T, t, es)| + ElemsSlack(T, t, es)
    decreases es
  {
    hide Enc, Size, Slack, Encodable;
    if es != [] {
      SizeExact(T, t, es[0], d);
      ElemsSizeExact(T, t, es[1..], d);
    }
  }

  lemma {:induction false} FieldsSizeExact(T: Table, ms: seq<Member>, fs: seq<Field>, d: nat)
    requires FieldsTyped(T, ms, fs) && FieldsOk(T, ms, fs, d)
    ensures FieldsSize(T, ms, fs) == |EncFields(T, ms, fs)| + FieldsSlack(T, ms, fs)
    decreases fs
  {
    hide EncField, FieldSize, FieldSlack, FieldOk;
    if fs != [] {
      FieldSizeExact(T, ms[0], fs[0], d);
      FieldsSizeExact(T, ms[1..], fs[1..], d);
    }
  }

  lemma {:induction false} FieldSizeExact(T: Table, m: Member, f: Field, d: nat)
    requires FieldTyped(T, m, f) && FieldOk(T, m, f, d)
    ensures FieldSize(T, m, f) == |EncField(T, m, f)| + FieldSlack(T, m, f)
    decreases f
  {
    hide Enc, Size, Slack, EncArr, ArrSize, ArrSlack, Encodable, ArrOk;
    match f
    case One(v) => SizeExact(T, m.ty, v, d);
    case Many(a) => ArrSizeExact(T, m.ty, a, d);
  }

  /** The oracle is exact precisely for the values without slack, whatever else the table holds. */
  lemma OracleExact(T: Table, t: nat, v: Value, d: nat)
    requires t < |T| && HasType(T, t, v) && Encodable(T, t, v, d)
    ensures Size(T, t, v) == |Enc(T, t, v)| <==> Slack(T, t, v) == 0
  {
    SizeExact(T, t, v, d);
  }
}
