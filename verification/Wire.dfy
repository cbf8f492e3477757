/** What the binary encoding of a value is, which values have one, and the size oracle. */
module Wire {
  import opened Bytes
  import opened Types

  const MAX_RECURSION: nat := 100

  // ----- encodings of the leaf types -----

  function EncStr(s: Str): bytes {
    match s
    case NoStr => LE(0xFFFF_FFFF, 4)
    case Str(b) => LE(|b|, 4) + b
  }

  function EncGuid(g: Guid): (r: bytes)
    ensures |r| == 16
  {
    LE(g.data1, 4) + LE(g.data2, 2) + LE(g.data3, 2) + g.data4
  }

  /** The width class of a numeric NodeId: two-byte, four-byte or complete form. */
  function NumericForm(ns: u16, n: u32): nat {
    if n > 0xFFFF || ns > 0xFF then 2 else if n > 0xFF || ns > 0 then 1 else 0
  }

  /** The encoding byte: the form, and the two flags only an ExpandedNodeId sets. */
  function NodeByte(form: nat, hasUri: bool, hasServer: bool): (r: u8)
    requires form <= 5
  {
    Mark(Mark(form, 7, hasUri), 6, hasServer)
  }

  function NodeForm(id: NodeId): nat {
    match id.id
    case Numeric(n) => NumericForm(id.ns, n)
    case StringId(_) => 3
    case GuidId(_) => 4
    case ByteStringId(_) => 5
    case Unknown => 0
  }

  function NodeTail(id: NodeId): bytes {
    match id.id
    case Numeric(n) =>
      var form := NumericForm(id.ns, n);
      if form == 2 then LE(id.ns, 2) + LE(n, 4)
      else if form == 1 then [id.ns] + LE(n, 2)
      else [n]
    case StringId(s) => LE(id.ns, 2) + EncStr(s)
    case GuidId(g) => LE(id.ns, 2) + EncGuid(g)
    case ByteStringId(b) => LE(id.ns, 2) + EncStr(b)
    case Unknown => []
  }

  function EncNodeMasked(id: NodeId, hasUri: bool, hasServer: bool): bytes {
    [NodeByte(NodeForm(id), hasUri, hasServer)] + NodeTail(id)
  }

  function EncNode(id: NodeId): bytes {
    EncNodeMasked(id, false, false)
  }

  predicate HasUri(uri: Str) {
    uri.Str? && uri.data != []
  }

  function EncExpanded(id: NodeId, uri: Str, server: u32): bytes {
    EncNodeMasked(id, HasUri(uri), server > 0)
    + (if HasUri(uri) then EncStr(uri) else [])
    + (if server > 0 then LE(server, 4) else [])
  }

  function LocalizedByte(locale: Str, local: Str): u8 {
    Mark(Mark(0, 0, locale.Str?), 1, local.Str?)
  }

  function EncPresent(s: Str): bytes {
    if s.Str? then EncStr(s) else []
  }

  function EncLocalized(locale: Str, local: Str): bytes {
    [LocalizedByte(locale, local)] + EncPresent(locale) + EncPresent(local)
  }

  function OptLE(x: Option<nat>, w: nat): bytes {
    match x
    case None => []
    case Some(n) => LE(n, w)
  }

  function EncU32s(ns: seq<u32>): (r: bytes)
    ensures |r| == 4 * |ns|
  {
    if ns == [] then [] else LE(ns[0], 4) + EncU32s(ns[1..])
  }

  function DiagByte(g: Diag): u8 {
    Mark(Mark(Mark(Mark(Mark(Mark(0, 0, g.symbolicId.Some?), 1, g.namespaceUri.Some?), 2, g.localizedText.Some?),
                   3, g.locale.Some?), 4, g.additionalInfo.Some?), 5, g.inner.Some?)
  }

  function DiagNumbers(g: Diag): bytes {
    OptLE(g.symbolicId, 4) + OptLE(g.namespaceUri, 4) + OptLE(g.localizedText, 4) + OptLE(g.locale, 4)
  }

  function EncDiag(g: Diag): bytes
    decreases g
  {
    [DiagByte(g)] + DiagNumbers(g)
    + (if g.additionalInfo.Some? then EncStr(g.additionalInfo.value) else [])
    + OptLE(g.innerStatus, 4)
    + (if g.inner.Some? then EncDiag(g.inner.value) else [])
  }

  // ----- encodings of the mutually recursive types -----

  function Enc(T: Table, t: nat, v: Value): bytes
    requires t < |T|
    requires HasType(T, t, v)
    decreases v
  {
    match v
    case Fixed(n) => LE(n, Width(T[t].kind))
    case Text(s) => EncStr(s)
    case GuidV(g) => EncGuid(g)
    case NodeV(id) => EncNode(id)
    case ExpandedV(id, uri, server) => EncExpanded(id, uri, server)
    case NameV(ns, name) => LE(ns, 2) + EncStr(name)
    case LocalizedV(locale, local) => EncLocalized(locale, local)
    case ExtV(e) => EncExt(T, e)
    case DataV(dv) => EncData(T, dv)
    case VariantV(x) => EncVariant(T, x)
    case DiagV(g) => EncDiag(g)
    case DecimalV => []
    case StructV(fs) => EncFields(T, T[t].members, fs)
    case UnionV(sel, arm) =>
      LE(sel, 4) + (if arm.Some? then Enc(T, T[t].members[sel - 1].ty, arm.value) else [])
  }

  function EncExt(T: Table, e: ExtObj): bytes
    requires ExtTyped(T, e)
    decreases e
  {
    match e
    case NoBody(id) => EncNode(id) + [0]
    case Encoded(id, xml, body) => EncNode(id) + [if xml then 2 else 1] + EncStr(body)
    case Decoded(ty, v) => EncExtHead(T, ty, Size(T, ty, v)) + Enc(T, ty, v)
    case Missing => []
  }

  /** NodeId, encoding byte and length field in front of a decoded content. */
  function EncExtHead(T: Table, ty: nat, len: nat): bytes
    requires ty < |T|
  {
    EncNode(BinaryId(T[ty])) + [1] + LE(len, 4)
  }

  function VariantByte(T: Table, x: Variant): u8
    requires VariantTyped(T, x)
  {
    match x
    case Empty => 0
    case Scalar(ty, _) => VariantKind(T, ty) + 1
    case Array(ty, _, dims) => Mark(Mark(VariantKind(T, ty) + 1, 7, true), 6, dims != [])
  }

  predicate Wrapped(T: Table, ty: nat)
    requires ty < |T|
  {
    !IsBuiltin(T[ty].kind) && T[ty].kind != ENUM
  }

  /** The built-in kind a Variant announces: enumerations travel as Int32, other types as ExtensionObject. */
  function VariantKind(T: Table, ty: nat): (k: Kind)
    requires ty < |T|
    ensures IsBuiltin(k)
  {
    if IsBuiltin(T[ty].kind) then T[ty].kind else if T[ty].kind == ENUM then INT32 else EXTENSIONOBJECT
  }

  function EncVariant(T: Table, x: Variant): bytes
    requires VariantTyped(T, x)
    decreases x
  {
    match x
    case Empty => [0]
    case Scalar(ty, v) =>
      [VariantByte(T, x)] + (if Wrapped(T, ty) then EncExtHead(T, ty, Size(T, ty, v)) + Enc(T, ty, v) else Enc(T, ty, v))
    case Array(ty, arr, dims) =>
      [VariantByte(T, x)] + EncContent(T, ty, arr) + EncDims(dims)
  }

  function EncContent(T: Table, ty: nat, arr: Arr): bytes
    requires ArrTyped(T, ty, arr)
    decreases arr, 1
  {
    if Wrapped(T, ty) then
      match arr
      case NoArr => LE(0, 4)
      case Arr(es) => LE(|es|, 4) + EncWrapped(T, ty, es)
    else EncArr(T, ty, arr)
  }

  function EncDims(dims: seq<u32>): bytes {
    if dims == [] then [] else LE(|dims|, 4) + EncU32s(dims)
  }

  function EncArr(T: Table, t: nat, a: Arr): bytes
    requires ArrTyped(T, t, a)
    decreases a, 0
  {
    match a
    case NoArr => LE(0xFFFF_FFFF, 4)
    case Arr(es) => LE(|es|, 4) + EncElems(T, t, es)
  }

  function EncElems(T: Table, t: nat, es: seq<Value>): bytes
    requires t < |T| && ElemsTyped(T, t, es)
    decreases es
  {
    if es == [] then [] else Enc(T, t, es[0]) + EncElems(T, t, es[1..])
  }

  /** Structures in a Variant array: each element travels in its own ExtensionObject. */
  function EncWrapped(T: Table, t: nat, es: seq<Value>): bytes
    requires t < |T| && ElemsTyped(T, t, es)
    decreases es
  {
    if es == [] then []
    else EncExtHead(T, t, Size(T, t, es[0])) + Enc(T, t, es[0]) + EncWrapped(T, t, es[1..])
  }

  function DataByte(dv: DataValue): u8 {
    Mark(Mark(Mark(Mark(Mark(Mark(0, 0, dv.hasValue), 1, dv.status.Some?), 2, dv.sourceTime.Some?),
                   3, dv.serverTime.Some?), 4, dv.sourcePico.Some?), 5, dv.serverPico.Some?)
  }

  function EncStamps(dv: DataValue): bytes {
    OptLE(dv.status, 4) + OptLE(dv.sourceTime, 8) + OptLE(dv.sourcePico, 2)
    + OptLE(dv.serverTime, 8) + OptLE(dv.serverPico, 2)
  }

  function EncData(T: Table, dv: DataValue): bytes
    requires VariantTyped(T, dv.value)
    decreases dv
  {
    [DataByte(dv)] + (if dv.hasValue then EncVariant(T, dv.value) else []) + EncStamps(dv)
  }

  function EncFields(T: Table, ms: seq<Member>, fs: seq<Field>): bytes
    requires FieldsTyped(T, ms, fs)
    decreases fs
  {
    if fs == [] then [] else EncField(T, ms[0], fs[0]) + EncFields(T, ms[1..], fs[1..])
  }

  function EncField(T: Table, m: Member, f: Field): bytes
    requires FieldTyped(T, m, f)
    decreases f
  {
    match f
    case One(v) => Enc(T, m.ty, v)
    case Many(a) => EncArr(T, m.ty, a)
  }

  // ----- the size oracle -----

  function StrSize(s: Str): nat {
    match s
    case NoStr => 4
    case Str(b) => 4 + |b|
  }

  function NodeSize(id: NodeId): nat {
    match id.id
    case Numeric(n) => if n > 0xFFFF || id.ns > 0xFF then 7 else if n > 0xFF || id.ns > 0 then 4 else 2
    case StringId(s) => 3 + StrSize(s)
    case ByteStringId(b) => 3 + StrSize(b)
    case GuidId(_) => 19
    case Unknown => 0
  }

  function OptSize(x: Option<nat>, w: nat): nat {
    if x.Some? then w else 0
  }

  function DiagSize(g: Diag): nat
    decreases g
  {
    1 + OptSize(g.symbolicId, 4) + OptSize(g.namespaceUri, 4) + OptSize(g.localizedText, 4) + OptSize(g.locale, 4)
    + (if g.additionalInfo.Some? then StrSize(g.additionalInfo.value) else 0)
    + OptSize(g.innerStatus, 4)
    + (if g.inner.Some? then DiagSize(g.inner.value) else 0)
  }

  function Size(T: Table, t: nat, v: Value): nat
    requires t < |T| && HasType(T, t, v)
    decreases v
  {
    match v
    case Fixed(n) => Width(T[t].kind)
    case Text(s) => StrSize(s)
    case GuidV(g) => 16
    case NodeV(id) => NodeSize(id)
    case ExpandedV(id, uri, server) =>
      NodeSize(id) + (if HasUri(uri) then StrSize(uri) else 0) + (if server > 0 then 4 else 0)
    case NameV(ns, name) => 2 + StrSize(name)
    case LocalizedV(locale, local) =>
      1 + (if locale.Str? then StrSize(locale) else 0) + (if local.Str? then StrSize(local) else 0)
    case ExtV(e) => ExtSize(T, e)
    case DataV(dv) => DataSize(T, dv)
    case VariantV(x) => VariantSize(T, x)
    case DiagV(g) => DiagSize(g)
    case DecimalV => 0
    case StructV(fs) => FieldsSize(T, T[t].members, fs)
    case UnionV(sel, arm) => 4 + (if arm.Some? then Size(T, T[t].members[sel - 1].ty, arm.value) else 0)
  }

  function ExtSize(T: Table, e: ExtObj): nat
    requires ExtTyped(T, e)
    decreases e
  {
    match e
    case NoBody(id) => 1 + NodeSize(id)
    case Encoded(id, _, body) => 1 + NodeSize(id) + StrSize(body)
    case Decoded(ty, v) => if !T[ty].typeId.id.Numeric? then 0 else 5 + TypeIdSize(T, ty) + Size(T, ty, v)
    case Missing => 0
  }

  /** Size of the type's own NodeId, which the oracle uses in place of the binary encoding id. */
  function TypeIdSize(T: Table, ty: nat): nat
    requires ty < |T|
  {
    NodeSize(T[ty].typeId)
  }

  function VariantSize(T: Table, x: Variant): nat
    requires VariantTyped(T, x)
    decreases x
  {
    match x
    case Empty => 1
    case Scalar(ty, v) => 1 + Size(T, ty, v) + (if Wrapped(T, ty) then TypeIdSize(T, ty) + 5 else 0)
    case Array(ty, arr, dims) =>
      1 + ArrSize(T, ty, arr) + (if Wrapped(T, ty) then (TypeIdSize(T, ty) + 5) * Count(arr) else 0)
      + (if dims == [] then 0 else 4 + 4 * |dims|)
  }

  function Count(a: Arr): nat {
    match a
    case NoArr => 0
    case Arr(es) => |es|
  }

  function ArrSize(T: Table, t: nat, a: Arr): nat
    requires ArrTyped(T, t, a)
    decreases a
  {
    match a
    case NoArr => 4
    case Arr(es) => 4 + (if T[t].overlayable then T[t].memSize * |es| else ElemsSize(T, t, es))
  }

  function ElemsSize(T: Table, t: nat, es: seq<Value>): nat
    requires t < |T| && ElemsTyped(T, t, es)
    decreases es
  {
    if es == [] then 0 else Size(T, t, es[0]) + ElemsSize(T, t, es[1..])
  }

  function DataSize(T: Table, dv: DataValue): nat
    requires VariantTyped(T, dv.value)
    decreases dv
  {
    1 + (if dv.hasValue then VariantSize(T, dv.value) else 0)
    + OptSize(dv.status, 4) + OptSize(dv.sourceTime, 8) + OptSize(dv.sourcePico, 2)
    + OptSize(dv.serverTime, 8) + OptSize(dv.serverPico, 2)
  }

  function FieldsSize(T: Table, ms: seq<Member>, fs: seq<Field>): nat
    requires FieldsTyped(T, ms, fs)
    decreases fs
  {
    if fs == [] then 0 else FieldSize(T, ms[0], fs[0]) + FieldsSize(T, ms[1..], fs[1..])
  }

  function FieldSize(T: Table, m: Member, f: Field): nat
    requires FieldTyped(T, m, f)
    decreases f
  {
    match f
    case One(v) => Size(T, m.ty, v)
    case Many(a) => ArrSize(T, m.ty, a)
  }

  // ----- which values the encoder accepts at nesting depth d -----

  predicate StrOk(s: Str) {
    s.Str? ==> |s.data| <= INT32_MAX
  }

  predicate NodeOk(id: NodeId) {
    match id.id
    case StringId(s) => StrOk(s)
    case ByteStringId(b) => StrOk(b)
    case Unknown => false
    case _ => true
  }

  predicate DiagOk(g: Diag)
    decreases g
  {
    && (g.additionalInfo.Some? ==> StrOk(g.additionalInfo.value))
    && (g.inner.Some? ==> DiagOk(g.inner.value))
  }

  predicate Encodable(T: Table, t: nat, v: Value, d: nat)
    requires t < |T| && HasType(T, t, v)
    decreases v, 0
  {
    match v
    case Fixed(n) => true
    case Text(s) => StrOk(s)
    case GuidV(g) => true
    case NodeV(id) => NodeOk(id)
    case ExpandedV(id, uri, server) => NodeOk(id) && StrOk(uri)
    case NameV(ns, name) => StrOk(name)
    case LocalizedV(locale, local) => StrOk(locale) && StrOk(local)
    case ExtV(e) => ExtOk(T, e, d)
    case DataV(dv) => dv.hasValue ==> VariantOk(T, dv.value, d)
    case VariantV(x) => VariantOk(T, x, d)
    case DiagV(g) => DiagOk(g)
    case DecimalV => false
    case StructV(fs) => d <= MAX_RECURSION && FieldsOk(T, T[t].members, fs, d + 1)
    case UnionV(sel, arm) =>
      d <= MAX_RECURSION && (arm.Some? ==> Encodable(T, T[t].members[sel - 1].ty, arm.value, d + 1))
  }

  predicate ContentOk(T: Table, ty: nat, v: Value, d: nat)
    requires ty < |T| && HasType(T, ty, v)
    decreases v, 1
  {
    T[ty].typeId.id.Numeric? && Size(T, ty, v) <= INT32_MAX && Encodable(T, ty, v, d)
  }

  predicate ExtOk(T: Table, e: ExtObj, d: nat)
    requires ExtTyped(T, e)
    decreases e
  {
    match e
    case NoBody(id) => NodeOk(id)
    case Encoded(id, _, body) => NodeOk(id) && StrOk(body)
    case Decoded(ty, v) => ContentOk(T, ty, v, d)
    case Missing => false
  }

  predicate VariantOk(T: Table, x: Variant, d: nat)
    requires VariantTyped(T, x)
    decreases x
  {
    match x
    case Empty => true
    case Scalar(ty, v) => if Wrapped(T, ty) then ContentOk(T, ty, v, d) else Encodable(T, ty, v, d)
    case Array(ty, arr, dims) =>
      ArraySendable(T, ty, arr, d) && |dims| <= INT32_MAX
  }

  predicate ArraySendable(T: Table, ty: nat, arr: Arr, d: nat)
    requires ArrTyped(T, ty, arr)
    decreases arr, 1
  {
    if Wrapped(T, ty) then Count(arr) <= INT32_MAX && (arr.Arr? ==> WrappedOk(T, ty, arr.elems, d))
    else ArrOk(T, ty, arr, d)
  }

  predicate ArrOk(T: Table, t: nat, a: Arr, d: nat)
    requires ArrTyped(T, t, a)
    decreases a, 0
  {
    Count(a) <= INT32_MAX && (a.Arr? ==> ElemsOk(T, t, a.elems, d))
  }

  predicate ElemsOk(T: Table, t: nat, es: seq<Value>, d: nat)
    requires t < |T| && ElemsTyped(T, t, es)
    decreases es
  {
    es != [] ==> Encodable(T, t, es[0], d) && ElemsOk(T, t, es[1..], d)
  }

  predicate WrappedOk(T: Table, t: nat, es: seq<Value>, d: nat)
    requires t < |T| && ElemsTyped(T, t, es)
    decreases es
  {
    es != [] ==> ContentOk(T, t, es[0], d) && WrappedOk(T, t, es[1..], d)
  }

  predicate FieldsOk(T: Table, ms: seq<Member>, fs: seq<Field>, d: nat)
    requires FieldsTyped(T, ms, fs)
    decreases fs
  {
    fs != [] ==> FieldOk(T, ms[0], fs[0], d) && FieldsOk(T, ms[1..], fs[1..], d)
  }

  predicate FieldOk(T: Table, m: Member, f: Field, d: nat)
    requires FieldTyped(T, m, f)
    decreases f
  {
    match f
    case One(v) => Encodable(T, m.ty, v, d)
    case Many(a) => ArrOk(T, m.ty, a, d)
  }
}
