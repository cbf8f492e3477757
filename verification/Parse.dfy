/** What decoding means: a result and the position after it, or failure.
    A position may lie beyond the end of the source, because one skip is not checked. */
module Parse {
  import opened Bytes
  import opened Types
  import opened Wire

  datatype Res<+T> = Done(v: T, pos: nat) | Fail {
    predicate IsFailure() { Fail? }
    function PropagateFailure<U>(): Res<U>
      requires Fail?
    {
      Fail
    }
    function Extract(): (T, nat)
      requires Done?
    {
      (v, pos)
    }
  }

  function Rest(s: bytes, p: nat): nat {
    if p <= |s| then |s| - p else 0
  }

  // ----- leaf types -----

  function DecByte(s: bytes, p: nat): (r: Res<u8>)
    ensures r.Done? ==> r.pos == p + 1 <= |s|
  {
    if p + 1 > |s| then Fail else Done(s[p], p + 1)
  }

  function DecFixed(s: bytes, p: nat, w: nat): (r: Res<nat>)
    ensures r.Done? ==> r.pos == p + w <= |s| && r.v < Pow256(w)
  {
    if p + w > |s| then Fail
    else
      FromLEBound(s[p..p + w]);
      Done(FromLE(s[p..p + w]), p + w)
  }

  function DecU16(s: bytes, p: nat): (r: Res<u16>)
    ensures r.Done? ==> r.pos == p + 2 <= |s|
  {
    Pow256Values();
    var (n, q) :- DecFixed(s, p, 2);
    Done(n, q)
  }

  function DecU32(s: bytes, p: nat): (r: Res<u32>)
    ensures r.Done? ==> r.pos == p + 4 <= |s|
  {
    Pow256Values();
    var (n, q) :- DecFixed(s, p, 4);
    Done(n, q)
  }

  function DecU64(s: bytes, p: nat): (r: Res<u64>)
    ensures r.Done? ==> r.pos == p + 8 <= |s|
  {
    Pow256Values();
    var (n, q) :- DecFixed(s, p, 8);
    Done(n, q)
  }

  /** A length field: lengths from 2^31 on are negative, which marks an absent string or array. */
  function DecStr(s: bytes, p: nat): (r: Res<Str>)
    ensures r.Done? ==> p + 4 <= r.pos <= |s|
  {
    var (n, q) :- DecU32(s, p);
    if n > INT32_MAX then Done(NoStr, q)
    else if q + n > |s| then Fail
    else Done(Str(s[q..q + n]), q + n)
  }

  function DecGuid(s: bytes, p: nat): (r: Res<Guid>)
    ensures r.Done? ==> r.pos == p + 16 <= |s|
  {
    var (d1, p1) :- DecU32(s, p);
    var (d2, p2) :- DecU16(s, p1);
    var (d3, p3) :- DecU16(s, p2);
    if p3 + 8 > |s| then Fail else Done(Guid(d1, d2, d3, s[p3..p3 + 8]), p3 + 8)
  }

  function DecNode(s: bytes, p: nat): (r: Res<NodeId>)
    ensures r.Done? ==> p + 2 <= r.pos <= |s| && r.v.id != Unknown
  {
    var (b, q) :- DecByte(s, p);
    DecNodeTail(s, q, b % 64)
  }

  function DecNodeTail(s: bytes, p: nat, form: nat): (r: Res<NodeId>)
    ensures r.Done? ==> p + 1 <= r.pos <= |s| && r.v.id != Unknown
  {
    match form
    case 0 => var (n, q) :- DecByte(s, p); Done(NodeId(0, Numeric(n)), q)
    case 1 =>
      var (ns, q) :- DecByte(s, p);
      var (n, e) :- DecU16(s, q);
      Done(NodeId(ns, Numeric(n)), e)
    case 2 =>
      var (ns, q) :- DecU16(s, p);
      var (n, e) :- DecU32(s, q);
      Done(NodeId(ns, Numeric(n)), e)
    case 3 =>
      var (ns, q) :- DecU16(s, p);
      var (x, e) :- DecStr(s, q);
      Done(NodeId(ns, StringId(x)), e)
    case 4 =>
      var (ns, q) :- DecU16(s, p);
      var (g, e) :- DecGuid(s, q);
      Done(NodeId(ns, GuidId(g)), e)
    case 5 =>
      var (ns, q) :- DecU16(s, p);
      var (x, e) :- DecStr(s, q);
      Done(NodeId(ns, ByteStringId(x)), e)
    case _ => Fail
  }

  function DecExpanded(s: bytes, p: nat): (r: Res<Value>)
    ensures r.Done? ==> p < r.pos <= |s|
  {
    if p >= |s| then Fail
    else
      var (id, p1) :- DecNode(s, p);
      var (uri, p2) :- if Has(s[p], 7) then DecStr(s, p1) else Done(NoStr, p1);
      var (server, p3) :- if Has(s[p], 6) then DecU32(s, p2) else Done(0, p2);
      Done(ExpandedV(if Has(s[p], 7) then id.(ns := 0) else id, uri, server), p3)
  }

  function DecOptStr(s: bytes, p: nat, on: bool): (r: Res<Option<Str>>)
    ensures r.Done? ==> p <= r.pos && (p <= |s| ==> r.pos <= |s|) && (r.v.Some? <==> on)
  {
    if !on then Done(None, p)
    else
      var (x, q) :- DecStr(s, p);
      Done(Some(x), q)
  }

  function DecLocalized(s: bytes, p: nat): (r: Res<Value>)
    ensures r.Done? ==> p < r.pos <= |s|
  {
    var (b, p1) :- DecByte(s, p);
    var (locale, p2) :- DecOptStr(s, p1, Has(b, 0));
    var (local, p3) :- DecOptStr(s, p2, Has(b, 1));
    Done(LocalizedV(if locale.Some? then locale.value else NoStr, if local.Some? then local.value else NoStr), p3)
  }

  function DecOpt16(s: bytes, p: nat, on: bool): (r: Res<Option<u16>>)
    ensures r.Done? ==> p <= r.pos && (p <= |s| ==> r.pos <= |s|) && (r.v.Some? <==> on)
  {
    if !on then Done(None, p)
    else
      var (n, q) :- DecU16(s, p);
      Done(Some(n), q)
  }

  function DecOpt32(s: bytes, p: nat, on: bool): (r: Res<Option<u32>>)
    ensures r.Done? ==> p <= r.pos && (p <= |s| ==> r.pos <= |s|) && (r.v.Some? <==> on)
  {
    if !on then Done(None, p)
    else
      var (n, q) :- DecU32(s, p);
      Done(Some(n), q)
  }

  function DecOpt64(s: bytes, p: nat, on: bool): (r: Res<Option<u64>>)
    ensures r.Done? ==> p <= r.pos && (p <= |s| ==> r.pos <= |s|) && (r.v.Some? <==> on)
  {
    if !on then Done(None, p)
    else
      var (n, q) :- DecU64(s, p);
      Done(Some(n), q)
  }

  function DecDiagNumbers(s: bytes, p: nat, b: u8): (r: Res<Diag>)
    ensures r.Done? ==> p <= r.pos && (p <= |s| ==> r.pos <= |s|)
  {
    var (symbolicId, p1) :- DecOpt32(s, p, Has(b, 0));
    var (uri, p2) :- DecOpt32(s, p1, Has(b, 1));
    var (text, p3) :- DecOpt32(s, p2, Has(b, 2));
    var (locale, p4) :- DecOpt32(s, p3, Has(b, 3));
    Done(Diag(symbolicId, uri, text, locale, None, None, None), p4)
  }

  /** Everything but the inner DiagnosticInfo. */
  function DecDiagFlat(s: bytes, p: nat, b: u8): (r: Res<Diag>)
    ensures r.Done? ==> p <= r.pos && (p <= |s| ==> r.pos <= |s|)
  {
    var (g, p4) :- DecDiagNumbers(s, p, b);
    var (info, p5) :- DecOptStr(s, p4, Has(b, 4));
    var (status, p6) :- DecOpt32(s, p5, Has(b, 5));
    Done(g.(additionalInfo := info, innerStatus := status), p6)
  }

  function DecDiag(s: bytes, p: nat, d: nat): (r: Res<Diag>)
    requires d <= MAX_RECURSION + 1
    ensures r.Done? ==> p < r.pos <= |s|
    decreases MAX_RECURSION + 1 - d
  {
    var (b, q) :- DecByte(s, p);
    var (g, e) :- DecDiagFlat(s, q, b);
    if !Has(b, 6) then Done(g, e)
    else if d > MAX_RECURSION then Fail
    else
      var (inner, i) :- DecDiag(s, e, d + 1);
      Done(g.(inner := Some(inner)), i)
  }

  /** A 32-bit integer array; absent and empty both give no elements. */
  function DecDims(s: bytes, p: nat, on: bool): (r: Res<seq<u32>>)
    ensures r.Done? ==> p <= r.pos && (p <= |s| ==> r.pos <= |s|)
  {
    if !on then Done([], p)
    else
      var (n, q) :- DecU32(s, p);
      if n > INT32_MAX then Done([], q)
      else if q + 4 * n > |s| then Fail
      else Done(RawU32s(s, q, n), q + 4 * n)
  }

  function RawU32s(s: bytes, p: nat, n: nat): seq<u32>
    requires p + 4 * n <= |s|
    decreases n
  {
    if n == 0 then []
    else
      FromLEBound(s[p..p + 4]);
      Pow256Values();
      [FromLE(s[p..p + 4])] + RawU32s(s, p + 4, n - 1)
  }

  /** n elements copied from the source without decoding. */
  function Raw(s: bytes, p: nat, w: nat, n: nat): seq<Value>
    requires p + w * n <= |s|
    decreases n
  {
    if n == 0 then []
    else
      assert w * n == w + w * (n - 1);
      [Fixed(FromLE(s[p..p + w]))] + Raw(s, p + w, w, n - 1)
  }

  // ----- the mutually recursive types, at nesting depth d -----

  function Dec(T: Table, t: nat, s: bytes, p: nat, d: nat): (r: Res<Value>)
    requires t < |T| && d <= MAX_RECURSION + 1
    ensures r.Done? ==> p <= r.pos
    decreases MAX_RECURSION + 1 - d, Rest(s, p), 2
  {
    var k := T[t].kind;
    if Width(k) > 0 then
      var (n, q) :- DecFixed(s, p, Width(k));
      Done(Fixed(if k == BOOLEAN && n > 0 then 1 else n), q)
    else if IsText(k) then var (x, q) :- DecStr(s, p); Done(Text(x), q)
    else if k == GUID then var (g, q) :- DecGuid(s, p); Done(GuidV(g), q)
    else if k == NODEID then var (id, q) :- DecNode(s, p); Done(NodeV(id), q)
    else if k == EXPANDEDNODEID then DecExpanded(s, p)
    else if k == QUALIFIEDNAME then
      var (ns, q) :- DecU16(s, p);
      var (name, e) :- DecStr(s, q);
      Done(NameV(ns, name), e)
    else if k == LOCALIZEDTEXT then DecLocalized(s, p)
    else if k == EXTENSIONOBJECT then var (x, q) :- DecExt(T, s, p, d); Done(ExtV(x), q)
    else if k == DATAVALUE then var (x, q) :- DecData(T, s, p, d); Done(DataV(x), q)
    else if k == VARIANT then var (x, q) :- DecVariant(T, s, p, d); Done(VariantV(x), q)
    else if k == DIAGNOSTICINFO then var (x, q) :- DecDiag(s, p, d); Done(DiagV(x), q)
    else if k == STRUCTURE then
      if d > MAX_RECURSION then Fail
      else var (fs, q) :- DecFields(T, T[t].members, s, p, d + 1); Done(StructV(fs), q)
    else if k == UNION then
      if d > MAX_RECURSION then Fail
      else
        var (sel, q) :- DecU32(s, p);
        if sel == 0 then Done(UnionV(0, None), q)
        else if sel > |T[t].members| then Fail
        else
          var (x, e) :- Dec(T, T[t].members[sel - 1].ty, s, q, d + 1);
          Done(UnionV(sel, Some(x)), e)
    else Fail
  }

  function DecExt(T: Table, s: bytes, p: nat, d: nat): (r: Res<ExtObj>)
    requires d <= MAX_RECURSION + 1
    ensures r.Done? ==> p < r.pos
    decreases MAX_RECURSION + 1 - d, Rest(s, p), 0
  {
    var (id, q) :- DecNode(s, p);
    var (b, q1) :- DecByte(s, q);
    if b == 0 then Done(NoBody(id), q1)
    else if b == 1 then
      match Find(T, id)
      case None => var (body, e) :- DecStr(s, q1); Done(Encoded(id, false, body), e)
      case Some(ty) => var (v, e) :- Dec(T, ty, s, q1 + 4, d); Done(Decoded(ty, v), e)
    else if b == 2 then var (body, e) :- DecStr(s, q1); Done(Encoded(id, true, body), e)
    else Fail
  }

  function DecVariant(T: Table, s: bytes, p: nat, d: nat): (r: Res<Variant>)
    requires d <= MAX_RECURSION + 1
    ensures r.Done? ==> p < r.pos
    decreases MAX_RECURSION + 1 - d, Rest(s, p), 0
  {
    var (b, q) :- DecByte(s, p);
    var k := b % 64 - 1;
    if b == 0 then Done(Empty, q)
    else if k < 0 || k > DIAGNOSTICINFO || (k == VARIANT && !Has(b, 7)) || d > MAX_RECURSION then Fail
    else if Has(b, 7) then
      var (arr, q1) :- DecArr(T, k, s, q, d + 1);
      var (dims, q2) :- DecDims(s, q1, Has(b, 6));
      Done(Array(k, arr, dims), q2)
    else if k != EXTENSIONOBJECT then var (v, e) :- Dec(T, k, s, q, d + 1); Done(Scalar(k, v), e)
    else DecUnwrap(T, s, q, d + 1)
  }

  /** A scalar ExtensionObject in a Variant is unwrapped when its type is known. */
  function DecUnwrap(T: Table, s: bytes, p: nat, d: nat): (r: Res<Variant>)
    requires d <= MAX_RECURSION + 1
    ensures r.Done? ==> p < r.pos
    decreases MAX_RECURSION + 1 - d, Rest(s, p), 1
  {
    var (id, q) :- DecNode(s, p);
    var (b, q1) :- DecByte(s, q);
    if b == 1 && Find(T, id).Some? then
      var (v, e) :- Dec(T, Find(T, id).value, s, q1 + 4, d);
      Done(Scalar(Find(T, id).value, v), e)
    else
      var (x, e) :- DecExt(T, s, p, d);
      Done(Scalar(EXTENSIONOBJECT, ExtV(x)), e)
  }

  const MAX_PICO: u16 := 9999

  function Clip(x: Option<u16>): Option<u16> {
    if x.Some? && x.value > MAX_PICO then Some(MAX_PICO) else x
  }

  function DecData(T: Table, s: bytes, p: nat, d: nat): (r: Res<DataValue>)
    requires d <= MAX_RECURSION + 1
    ensures r.Done? ==> p < r.pos
    decreases MAX_RECURSION + 1 - d, Rest(s, p), 0
  {
    var (b, p0) :- DecByte(s, p);
    if d > MAX_RECURSION then Fail
    else
      var (x, p1) :- if Has(b, 0) then DecVariant(T, s, p0, d + 1) else Done(Empty, p0);
      DecStamps(s, p1, b, x)
  }

  function DecStamps(s: bytes, p: nat, b: u8, x: Variant): (r: Res<DataValue>)
    ensures r.Done? ==> p <= r.pos && (p <= |s| ==> r.pos <= |s|)
  {
    var (status, p2) :- DecOpt32(s, p, Has(b, 1));
    var (sourceTime, p3) :- DecOpt64(s, p2, Has(b, 2));
    var (sourcePico, p4) :- DecOpt16(s, p3, Has(b, 4));
    var (serverTime, p5) :- DecOpt64(s, p4, Has(b, 3));
    var (serverPico, p6) :- DecOpt16(s, p5, Has(b, 5));
    Done(DataValue(Has(b, 0), x, status, sourceTime, Clip(sourcePico), serverTime, Clip(serverPico)), p6)
  }

  function DecArr(T: Table, t: nat, s: bytes, p: nat, d: nat): (r: Res<Arr>)
    requires t < |T| && d <= MAX_RECURSION + 1
    ensures r.Done? ==> p < r.pos
    decreases MAX_RECURSION + 1 - d, Rest(s, p), 4
  {
    var (n, q) :- DecU32(s, p);
    if n > INT32_MAX then Done(NoArr, q)
    else if n == 0 then Done(Arr([]), q)
    else if q + (T[t].memSize * n) / 32 > |s| then Fail
    else if T[t].overlayable then
      if q + T[t].memSize * n > |s| then Fail
      else Done(Arr(Raw(s, q, T[t].memSize, n)), q + T[t].memSize * n)
    else
      var (es, e) :- DecElems(T, t, s, q, d, n);
      Done(Arr(es), e)
  }

  function DecElems(T: Table, t: nat, s: bytes, p: nat, d: nat, n: nat): (r: Res<seq<Value>>)
    requires t < |T| && d <= MAX_RECURSION + 1
    ensures r.Done? ==> p <= r.pos
    decreases MAX_RECURSION + 1 - d, Rest(s, p), 3, n
  {
    if n == 0 then Done([], p)
    else
      var (v, q) :- Dec(T, t, s, p, d);
      var (vs, e) :- DecElems(T, t, s, q, d, n - 1);
      Done([v] + vs, e)
  }

  function DecFields(T: Table, ms: seq<Member>, s: bytes, p: nat, d: nat): (r: Res<seq<Field>>)
    requires MembersOk(|T|, ms) && d <= MAX_RECURSION + 1
    ensures r.Done? ==> p <= r.pos
    decreases MAX_RECURSION + 1 - d, Rest(s, p), 6, |ms|
  {
    if ms == [] then Done([], p)
    else
      var (f, q) :- DecField(T, ms[0], s, p, d);
      var (fs, e) :- DecFields(T, ms[1..], s, q, d);
      Done([f] + fs, e)
  }

  function DecField(T: Table, m: Member, s: bytes, p: nat, d: nat): (r: Res<Field>)
    requires m.ty < |T| && d <= MAX_RECURSION + 1
    ensures r.Done? ==> p <= r.pos
    decreases MAX_RECURSION + 1 - d, Rest(s, p), 5
  {
    if m.isArray then var (a, q) :- DecArr(T, m.ty, s, p, d); Done(Many(a), q)
    else var (v, q) :- Dec(T, m.ty, s, p, d); Done(One(v), q)
  }
}
