/** Data types, the type table, and values as trees. */
module Types {
  import opened Bytes

  // ----- type kinds, in jump-table order -----

  type Kind = k: nat | k < 31

  const BOOLEAN: Kind := 0
  const BYTE: Kind := 2
  const INT32: Kind := 5
  const STRING: Kind := 11
  const GUID: Kind := 13
  const BYTESTRING: Kind := 14
  const XMLELEMENT: Kind := 15
  const NODEID: Kind := 16
  const EXPANDEDNODEID: Kind := 17
  const QUALIFIEDNAME: Kind := 19
  const LOCALIZEDTEXT: Kind := 20
  const EXTENSIONOBJECT: Kind := 21
  const DATAVALUE: Kind := 22
  const VARIANT: Kind := 23
  const DIAGNOSTICINFO: Kind := 24
  const DECIMAL: Kind := 25
  const ENUM: Kind := 26
  const STRUCTURE: Kind := 27
  const UNION: Kind := 29

  /** Encoded width of the kinds that share a fixed-width codec; 0 for all other kinds. */
  function Width(k: Kind): nat {
    if k <= 2 then 1
    else if k <= 4 then 2
    else if k == 5 || k == 6 || k == 9 || k == 18 || k == ENUM then 4
    else if k == 7 || k == 8 || k == 10 || k == 12 then 8
    else 0
  }

  predicate IsText(k: Kind) {
    k == STRING || k == BYTESTRING || k == XMLELEMENT
  }

  predicate IsBuiltin(k: Kind) {
    k <= DIAGNOSTICINFO
  }

  // ----- the type table -----

  datatype Member = Member(ty: nat, isArray: bool)

  /** `binId` is the numeric id that is written in front of encoded content, in the namespace of the type's own id. */
  datatype DataType = DataType(
    kind: Kind, typeId: NodeId, binId: u32,
    memSize: nat, overlayable: bool, members: seq<Member>)

  predicate MembersOk(size: nat, ms: seq<Member>) {
    forall i | 0 <= i < |ms| :: ms[i].ty < size
  }

  predicate TypeOk(size: nat, t: DataType) {
    && MembersOk(size, t.members)
    && (t.overlayable ==> Width(t.kind) > 0 && t.memSize == Width(t.kind))
  }

  predicate TableOk(T: seq<DataType>) {
    && |T| > DIAGNOSTICINFO
    && (forall k | 0 <= k <= DIAGNOSTICINFO :: T[k].kind == k)
    && T[BYTE].overlayable && T[INT32].overlayable
    && (forall t | 0 <= t < |T| :: TypeOk(|T|, T[t]))
  }

  function BuiltinsOnly(): seq<DataType> {
    seq(25, (k: nat) requires k < 25 =>
      DataType(k, NodeId(0, Numeric(k + 1)), 0, if Width(k) > 0 then Width(k) else 8, Width(k) > 0, []))
  }

  /** The built-in types at their kind's index, followed by any further types. */
  type Table = T: seq<DataType> | TableOk(T) witness BuiltinsOnly()

  // ----- values -----

  /** A string, byte string or XML element: absent, or present and possibly empty. */
  datatype Str = NoStr | Str(data: bytes)

  type Octets8 = b: bytes | |b| == 8 witness [0, 0, 0, 0, 0, 0, 0, 0]

  datatype Guid = Guid(data1: u32, data2: u16, data3: u16, data4: Octets8)

  /** `Unknown` stands for an identifier type outside the enumeration. */
  datatype Identifier = Numeric(n: u32) | StringId(s: Str) | GuidId(g: Guid) | ByteStringId(b: Str) | Unknown

  datatype NodeId = NodeId(ns: u16, id: Identifier)

  datatype Value =
    | Fixed(n: nat)
    | Text(text: Str)
    | GuidV(guid: Guid)
    | NodeV(node: NodeId)
    | ExpandedV(inner: NodeId, uri: Str, server: u32)
    | NameV(ns: u16, name: Str)
    | LocalizedV(locale: Str, local: Str)
    | ExtV(ext: ExtObj)
    | DataV(dv: DataValue)
    | VariantV(vr: Variant)
    | DiagV(diag: Diag)
    | DecimalV
    | StructV(fields: seq<Field>)
    | UnionV(sel: u32, arm: Option<Value>)

  /** A structure member: a scalar or an array. */
  datatype Field = One(v: Value) | Many(arr: Arr)

  datatype Arr = NoArr | Arr(elems: seq<Value>)

  datatype ExtObj =
    | NoBody(id: NodeId)
    | Encoded(id: NodeId, xml: bool, body: Str)
    | Decoded(ty: nat, content: Value)
    | Missing

  datatype Variant =
    | Empty
    | Scalar(ty: nat, v: Value)
    | Array(ty: nat, arr: Arr, dims: seq<u32>)

  datatype DataValue = DataValue(
    hasValue: bool, value: Variant, status: Option<u32>,
    sourceTime: Option<u64>, sourcePico: Option<u16>,
    serverTime: Option<u64>, serverPico: Option<u16>)

  datatype Diag = Diag(
    symbolicId: Option<u32>, namespaceUri: Option<u32>, localizedText: Option<u32>, locale: Option<u32>,
    additionalInfo: Option<Str>, innerStatus: Option<u32>, inner: Option<Diag>)

  // ----- which value trees are images of a type's memory layout -----

  ghost predicate HasType(T: Table, t: nat, v: Value)
    decreases v
  {
    && t < |T|
    && var k := T[t].kind;
    match v
    case Fixed(n) => Width(k) > 0 && n < Pow256(Width(k)) && (k == BOOLEAN ==> n < 2)
    case Text(_) => IsText(k)
    case GuidV(_) => k == GUID
    case NodeV(_) => k == NODEID
    case ExpandedV(_, _, _) => k == EXPANDEDNODEID
    case NameV(_, _) => k == QUALIFIEDNAME
    case LocalizedV(_, _) => k == LOCALIZEDTEXT
    case ExtV(e) => k == EXTENSIONOBJECT && ExtTyped(T, e)
    case DataV(dv) => k == DATAVALUE && VariantTyped(T, dv.value)
    case VariantV(x) => k == VARIANT && VariantTyped(T, x)
    case DiagV(_) => k == DIAGNOSTICINFO
    case DecimalV => k == DECIMAL
    case StructV(fs) => k == STRUCTURE && FieldsTyped(T, T[t].members, fs)
    case UnionV(sel, arm) =>
      && k == UNION && sel <= |T[t].members| && (sel == 0 <==> arm.None?)
      && (arm.Some? ==> T[t].members[sel - 1].ty < |T| && HasType(T, T[t].members[sel - 1].ty, arm.value))
  }

  ghost predicate ExtTyped(T: Table, e: ExtObj)
    decreases e
  {
    e.Decoded? ==> e.ty < |T| && HasType(T, e.ty, e.content)
  }

  ghost predicate VariantTyped(T: Table, x: Variant)
    decreases x
  {
    match x
    case Empty => true
    case Scalar(ty, v) => ty < |T| && HasType(T, ty, v)
    case Array(ty, arr, _) => ty < |T| && ArrTyped(T, ty, arr)
  }

  ghost predicate ArrTyped(T: Table, t: nat, a: Arr)
    decreases a
  {
    t < |T| && (a.Arr? ==> ElemsTyped(T, t, a.elems))
  }

  ghost predicate ElemsTyped(T: Table, t: nat, es: seq<Value>)
    decreases es
  {
    es != [] ==> HasType(T, t, es[0]) && ElemsTyped(T, t, es[1..])
  }

  ghost predicate FieldsTyped(T: Table, ms: seq<Member>, fs: seq<Field>)
    decreases fs
  {
    && |ms| == |fs|
    && (fs != [] ==> FieldTyped(T, ms[0], fs[0]) && FieldsTyped(T, ms[1..], fs[1..]))
  }

  ghost predicate FieldTyped(T: Table, m: Member, f: Field)
    decreases f
  {
    match f
    case One(v) => !m.isArray && m.ty < |T| && HasType(T, m.ty, v)
    case Many(a) => m.isArray && ArrTyped(T, m.ty, a)
  }

  /** The first table entry whose namespace and binary encoding id match. */
  function Find(T: Table, id: NodeId): (r: Option<nat>)
    ensures r.Some? ==> r.value < |T| && id.id.Numeric? && T[r.value].binId == id.id.n && T[r.value].typeId.ns == id.ns
    ensures r.None? && id.id.Numeric? ==> forall i | 0 <= i < |T| :: T[i].binId != id.id.n || T[i].typeId.ns != id.ns
    ensures r.Some? ==> forall i | 0 <= i < r.value :: T[i].binId != id.id.n || T[i].typeId.ns != id.ns
  {
    if id.id.Numeric? then FindFrom(T, id.id.n, id.ns, 0) else None
  }

  function FindFrom(T: Table, bin: u32, ns: u16, i: nat): (r: Option<nat>)
    requires i <= |T|
    ensures r.Some? ==> i <= r.value < |T| && T[r.value].binId == bin && T[r.value].typeId.ns == ns
    ensures r.None? ==> forall j | i <= j < |T| :: T[j].binId != bin || T[j].typeId.ns != ns
    ensures r.Some? ==> forall j | i <= j < r.value :: T[j].binId != bin || T[j].typeId.ns != ns
    decreases |T| - i
  {
    if i == |T| then None
    else if T[i].binId == bin && T[i].typeId.ns == ns then Some(i)
    else FindFrom(T, bin, ns, i + 1)
  }

  /** The NodeId written in front of a decoded ExtensionObject's content. */
  function BinaryId(t: DataType): NodeId {
    NodeId(t.typeId.ns, Numeric(t.binId))
  }
}
