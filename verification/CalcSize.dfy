/** The size oracle as it is computed: accumulators and loops over elements and members. */
module CalcSize {
  import opened Bytes
  import opened Types
  import opened Wire

  method CalcDiag(g: Diag) returns (n: nat)
    ensures n == DiagSize(g)
    decreases g
  {
    n := 1;
    if g.symbolicId.Some? { n := n + 4; }
    if g.namespaceUri.Some? { n := n + 4; }
    if g.localizedText.Some? { n := n + 4; }
    if g.locale.Some? { n := n + 4; }
    if g.additionalInfo.Some? { n := n + StrSize(g.additionalInfo.value); }
    if g.innerStatus.Some? { n := n + 4; }
    if g.inner.Some? {
      var inner := CalcDiag(g.inner.value);
      n := n + inner;
    }
  }

  /** Jump table of the size functions. */
  method Calc(T: Table, t: nat, v: Value) returns (n: nat)
    requires t < |T| && HasType(T, t, v)
    ensures n == Size(T, t, v)
    decreases v
  {
    match v
    case Fixed(_) => n := Width(T[t].kind);
    case Text(s) => n := StrSize(s);
    case GuidV(_) => n := 16;
    case NodeV(id) => n := NodeSize(id);
    case ExpandedV(id, uri, server) =>
      n := NodeSize(id);
      if HasUri(uri) { n := n + StrSize(uri); }
      if server > 0 { n := n + 4; }
    case NameV(_, name) => n := 2 + StrSize(name);
    case LocalizedV(locale, local) =>
      n := 1;
      if locale.Str? { n := n + StrSize(locale); }
      if local.Str? { n := n + StrSize(local); }
    case ExtV(e) => n := CalcExt(T, e);
    case DataV(dv) => n := CalcData(T, dv);
    case VariantV(x) => n := CalcVariant(T, x);
    case DiagV(g) => n := CalcDiag(g);
    case DecimalV => n := 0;
    case StructV(fs) => n := CalcStruct(T, T[t].members, fs);
    case UnionV(sel, arm) =>
      n := 4;
      if sel != 0 {
        var m := Calc(T, T[t].members[sel - 1].ty, arm.value);
        n := n + m;
      }
  }

  method CalcExt(T: Table, e: ExtObj) returns (n: nat)
    requires ExtTyped(T, e)
    ensures n == ExtSize(T, e)
    decreases e
  {
    n := 1;
    match e
    case NoBody(id) => n := n + NodeSize(id);
    case Encoded(id, _, body) => n := n + NodeSize(id) + StrSize(body);
    case Missing => n := 0;
    case Decoded(ty, v) =>
      if !T[ty].typeId.id.Numeric? {
        return 0;
      }
      n := n + TypeIdSize(T, ty) + 4;
      var m := Calc(T, ty, v);
      n := n + m;
  }

  method CalcVariant(T: Table, x: Variant) returns (n: nat)
    requires VariantTyped(T, x)
    ensures n == VariantSize(T, x)
    decreases x
  {
    hide Size, ArrSize;
    n := 1;
    if x.Empty? {
      return;
    }
    if x.Array? {
      var m := CalcArray(T, x.ty, x.arr);
      n := n + m;
    } else {
      var m := Calc(T, x.ty, x.v);
      n := n + m;
    }
    if Wrapped(T, x.ty) {
      var length := if x.Array? then Count(x.arr) else 1;
      n := n + (TypeIdSize(T, x.ty) + 1 + 4) * length;
    }
    if x.Array? && x.dims != [] {
      n := n + 4 + 4 * |x.dims|;
    }
  }

  method CalcArray(T: Table, t: nat, a: Arr) returns (n: nat)
    requires ArrTyped(T, t, a)
    ensures n == ArrSize(T, t, a)
    decreases a
  {
    n := 4;
    if a.NoArr? {
      return;
    }
    if T[t].overlayable {
      n := n + T[t].memSize * |a.elems|;
      return;
    }
    var i := 0;
    assert a.elems[0..] == a.elems;
    while i < |a.elems|
      invariant i <= |a.elems| && ElemsTyped(T, t, a.elems[i..])
      invariant n + ElemsSize(T, t, a.elems[i..]) == 4 + ElemsSize(T, t, a.elems)
    {
      assert a.elems[i..][1..] == a.elems[i + 1..];
      var m := Calc(T, t, a.elems[i]);
      n := n + m;
      i := i + 1;
    }
  }

  method CalcData(T: Table, dv: DataValue) returns (n: nat)
    requires VariantTyped(T, dv.value)
    ensures n == DataSize(T, dv)
    decreases dv
  {
    n := 1;
    if dv.hasValue {
      var m := CalcVariant(T, dv.value);
      n := n + m;
    }
    if dv.status.Some? { n := n + 4; }
    if dv.sourceTime.Some? { n := n + 8; }
    if dv.sourcePico.Some? { n := n + 2; }
    if dv.serverTime.Some? { n := n + 8; }
    if dv.serverPico.Some? { n := n + 2; }
  }

  method CalcStruct(T: Table, ms: seq<Member>, fs: seq<Field>) returns (n: nat)
    requires FieldsTyped(T, ms, fs)
    ensures n == FieldsSize(T, ms, fs)
    decreases fs
  {
    hide Size, ArrSize;
    n := 0;
    var i := 0;
    assert fs[0..] == fs && ms[0..] == ms;
    while i < |ms|
      invariant i <= |ms| == |fs| && FieldsTyped(T, ms[i..], fs[i..])
      invariant n + FieldsSize(T, ms[i..], fs[i..]) == FieldsSize(T, ms, fs)
    {
      assert fs[i..][1..] == fs[i + 1..] && ms[i..][1..] == ms[i + 1..];
      assert FieldTyped(T, ms[i], fs[i]);
      var m := CalcField(T, ms[i], fs[i]);
      n := n + m;
      i := i + 1;
    }
  }

  method CalcField(T: Table, m: Member, f: Field) returns (n: nat)
    requires FieldTyped(T, m, f)
    ensures n == FieldSize(T, m, f)
    decreases f
  {
    if m.isArray {
      n := CalcArray(T, m.ty, f.arr);
    } else {
      n := Calc(T, m.ty, f.v);
    }
  }
}
