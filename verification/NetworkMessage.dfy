/** UADP NetworkMessages and DataSetMessages, and their encoding. */
module NetworkMessage {
  import opened Bytes
  import opened Types
  import opened Wire

  // ----- entities: a flag and the field it enables are one optional field -----

  /** The publisher id: a number for types 0 to 3, a string for type 4. */
  datatype PublisherId = IdNumber(n: nat) | IdString(s: Str)

  datatype GroupHeader = GroupHeader(
    writerGroupId: Option<u16>, groupVersion: Option<u32>,
    networkMessageNumber: Option<u16>, sequenceNumber: Option<u16>)

  /** `NoWriterIds`: the header is enabled but its id array is missing. */
  datatype PayloadHeader = NoWriterIds | WriterIds(ids: seq<u16>)

  datatype Security = Security(
    signature: Option<Str>, encrypted: bool, footer: Option<bytes>, forceKeyReset: bool, tokenId: u32, nonce: bytes)

  const ENC_VARIANT: u8 := 0
  const ENC_RAWDATA: u8 := 1
  const ENC_DATAVALUE: u8 := 2

  const DATAKEYFRAME: u8 := 0
  const DATADELTAFRAME: u8 := 1
  const KEEPALIVE: u8 := 3

  datatype DeltaField = DeltaField(index: u16, value: DataValue)

  /** `BareCount`: a field count without fields, for a field encoding outside the enumeration. */
  datatype Frame = KeyFrame(fields: seq<DataValue>) | DeltaFrame(deltas: seq<DeltaField>) | BareCount(count: u16) | NoData

  datatype DataSetMessage = DataSetMessage(
    valid: bool, fieldEncoding: u8, messageType: u8, sequenceNr: Option<u16>, timestamp: Option<u64>,
    picoSeconds: Option<u16>, status: Option<u16>, major: Option<u32>, minor: Option<u32>, frame: Frame)

  const DATASET: u8 := 0

  datatype NetworkMessage = NetworkMessage(
    version: u8, publisherIdType: u8, publisherId: Option<PublisherId>, dataSetClassId: Option<Guid>,
    groupHeader: Option<GroupHeader>, payloadHeader: Option<PayloadHeader>, timestamp: Option<u64>,
    picoseconds: Option<u16>, chunkMessage: bool, messageType: u8, promoted: Option<seq<Variant>>,
    security: Option<Security>, sizes: Option<seq<u16>>, messages: seq<DataSetMessage>)

  // ----- what a caller's structures satisfy by their memory layout -----

  /** Width of a numeric publisher id. */
  function IdWidth(ty: nat): nat {
    if ty == 0 then 1 else if ty == 1 then 2 else if ty == 2 then 4 else 8
  }

  ghost predicate IdTyped(ty: u8, id: PublisherId) {
    && (ty <= 3 ==> id.IdNumber? && id.n < Pow256(IdWidth(ty)))
    && (ty == 4 ==> id.IdString?)
  }

  ghost predicate FieldsAre(T: Table, fs: seq<DataValue>) {
    forall i | 0 <= i < |fs| :: VariantTyped(T, fs[i].value)
  }

  ghost predicate DeltasAre(T: Table, fs: seq<DeltaField>) {
    forall i | 0 <= i < |fs| :: VariantTyped(T, fs[i].value.value)
  }

  predicate HasFields(encoding: u8) {
    encoding == ENC_VARIANT || encoding == ENC_DATAVALUE
  }

  ghost predicate DsmTyped(T: Table, x: DataSetMessage) {
    && (x.messageType == DATAKEYFRAME ==>
          if HasFields(x.fieldEncoding) then x.frame.KeyFrame? && |x.frame.fields| < 0x1_0000 && FieldsAre(T, x.frame.fields)
          else x.fieldEncoding == ENC_RAWDATA || x.frame.BareCount?)
    && (x.messageType == DATADELTAFRAME ==>
          if HasFields(x.fieldEncoding) then x.frame.DeltaFrame? && |x.frame.deltas| < 0x1_0000 && DeltasAre(T, x.frame.deltas)
          else x.fieldEncoding == ENC_RAWDATA || x.frame.BareCount?)
  }

  ghost predicate VariantsAre(T: Table, xs: seq<Variant>) {
    forall i | 0 <= i < |xs| :: VariantTyped(T, xs[i])
  }

  ghost predicate DsmsAre(T: Table, xs: seq<DataSetMessage>) {
    forall i | 0 <= i < |xs| :: DsmTyped(T, xs[i])
  }

  /** Number of DataSetMessages: one per writer id, or a single one. */
  function MessageCount(m: NetworkMessage): nat {
    if m.payloadHeader.Some? && m.payloadHeader.value.WriterIds? then |m.payloadHeader.value.ids| else 1
  }

  ghost predicate NmTyped(T: Table, m: NetworkMessage) {
    && (m.publisherId.Some? ==> IdTyped(m.publisherIdType, m.publisherId.value))
    && MessageCount(m) < 256
    && |m.messages| == MessageCount(m) && DsmsAre(T, m.messages)
    && (m.promoted.Some? ==> |m.promoted.value| < 0x1_0000 && VariantsAre(T, m.promoted.value))
    && (m.sizes.Some? ==> |m.sizes.value| == MessageCount(m))
    && (m.security.Some? ==> |m.security.value.nonce| < 256
                             && (m.security.value.footer.Some? ==> |m.security.value.footer.value| < 0x1_0000))
  }

  // ----- DataSetMessage encoding -----

  predicate DsmFlags2Enabled(x: DataSetMessage) {
    x.messageType != DATAKEYFRAME || x.timestamp.Some? || x.picoSeconds.Some?
  }

  function DsmFlags1(x: DataSetMessage): u8 {
    Mark(Mark(Mark(Mark(Mark(Mark((2 * x.fieldEncoding) % 256, 0, x.valid), 3, x.sequenceNr.Some?), 4, x.status.Some?),
                   5, x.major.Some?), 6, x.minor.Some?), 7, DsmFlags2Enabled(x))
  }

  function DsmFlags2(x: DataSetMessage): u8 {
    Mark(Mark(x.messageType, 4, x.timestamp.Some?), 5, x.picoSeconds.Some?)
  }

  function DsmFlags(x: DataSetMessage): bytes {
    if DsmFlags2Enabled(x) then [DsmFlags1(x), DsmFlags2(x)] else [DsmFlags1(x)]
  }

  /** Header fields after the sequence number. */
  function DsmHeaderRest(x: DataSetMessage): bytes {
    OptLE(x.timestamp, 8) + OptLE(x.picoSeconds, 2) + OptLE(x.status, 2) + OptLE(x.major, 4) + OptLE(x.minor, 4)
  }

  function DsmHeader(x: DataSetMessage): bytes {
    DsmFlags(x) + OptLE(x.sequenceNr, 2) + DsmHeaderRest(x)
  }

  function EncKeyField(T: Table, encoding: u8, f: DataValue): bytes
    requires VariantTyped(T, f.value)
  {
    if encoding == ENC_VARIANT then EncVariant(T, f.value) else EncData(T, f)
  }

  function EncKeyFields(T: Table, encoding: u8, fs: seq<DataValue>): bytes
    requires FieldsAre(T, fs)
  {
    if fs == [] then [] else EncKeyField(T, encoding, fs[0]) + EncKeyFields(T, encoding, fs[1..])
  }

  function EncDeltaField(T: Table, encoding: u8, f: DeltaField): bytes
    requires VariantTyped(T, f.value.value)
  {
    LE(f.index, 2) + EncKeyField(T, encoding, f.value)
  }

  function EncDeltaFields(T: Table, encoding: u8, fs: seq<DeltaField>): bytes
    requires DeltasAre(T, fs)
  {
    if fs == [] then [] else EncDeltaField(T, encoding, fs[0]) + EncDeltaFields(T, encoding, fs[1..])
  }

  function EncFrame(T: Table, x: DataSetMessage): bytes
    requires DsmTyped(T, x)
  {
    if (x.messageType != DATAKEYFRAME && x.messageType != DATADELTAFRAME) || x.fieldEncoding == ENC_RAWDATA then []
    else
      match x.frame
      case KeyFrame(fs) => LE(|fs|, 2) + EncKeyFields(T, x.fieldEncoding, fs)
      case DeltaFrame(fs) => LE(|fs|, 2) + EncDeltaFields(T, x.fieldEncoding, fs)
      case BareCount(n) => LE(n, 2)
      case NoData => []
  }

  function EncDsm(T: Table, x: DataSetMessage): bytes
    requires DsmTyped(T, x)
  {
    DsmHeader(x) + EncFrame(T, x)
  }

  function EncDsms(T: Table, xs: seq<DataSetMessage>): bytes
    requires DsmsAre(T, xs)
  {
    if xs == [] then [] else EncDsm(T, xs[0]) + EncDsms(T, xs[1..])
  }

  /** Raw data and messages that are neither key frame, delta frame nor keep-alive are not implemented. */
  predicate DsmOk(T: Table, x: DataSetMessage)
    requires DsmTyped(T, x)
  {
    && (x.messageType == DATAKEYFRAME || x.messageType == DATADELTAFRAME || x.messageType == KEEPALIVE)
    && (x.messageType != KEEPALIVE ==> x.fieldEncoding != ENC_RAWDATA)
    && (x.messageType == DATAKEYFRAME && HasFields(x.fieldEncoding) ==> KeyFieldsOk(T, x.fieldEncoding, x.frame.fields))
    && (x.messageType == DATADELTAFRAME && HasFields(x.fieldEncoding) ==> DeltaFieldsOk(T, x.fieldEncoding, x.frame.deltas))
  }

  predicate KeyFieldOk(T: Table, encoding: u8, f: DataValue)
    requires VariantTyped(T, f.value)
  {
    encoding == ENC_VARIANT || f.hasValue ==> VariantOk(T, f.value, 0)
  }

  predicate KeyFieldsOk(T: Table, encoding: u8, fs: seq<DataValue>)
    requires FieldsAre(T, fs)
  {
    fs != [] ==> KeyFieldOk(T, encoding, fs[0]) && KeyFieldsOk(T, encoding, fs[1..])
  }

  predicate DeltaFieldsOk(T: Table, encoding: u8, fs: seq<DeltaField>)
    requires DeltasAre(T, fs)
  {
    fs != [] ==> KeyFieldOk(T, encoding, fs[0].value) && DeltaFieldsOk(T, encoding, fs[1..])
  }

  predicate DsmsOk(T: Table, xs: seq<DataSetMessage>)
    requires DsmsAre(T, xs)
  {
    xs != [] ==> DsmOk(T, xs[0]) && DsmsOk(T, xs[1..])
  }

  // ----- DataSetMessage size -----

  function KeyFieldSize(T: Table, encoding: u8, f: DataValue): nat
    requires VariantTyped(T, f.value)
  {
    if encoding == ENC_VARIANT then VariantSize(T, f.value) else DataSize(T, f)
  }

  function KeyFieldsSize(T: Table, encoding: u8, fs: seq<DataValue>): nat
    requires FieldsAre(T, fs)
  {
    if fs == [] then 0 else KeyFieldSize(T, encoding, fs[0]) + KeyFieldsSize(T, encoding, fs[1..])
  }

  function DeltaFieldsSize(T: Table, encoding: u8, fs: seq<DeltaField>): nat
    requires DeltasAre(T, fs)
  {
    if fs == [] then 0 else 2 + KeyFieldSize(T, encoding, fs[0].value) + DeltaFieldsSize(T, encoding, fs[1..])
  }

  function FrameSize(T: Table, x: DataSetMessage): nat
    requires DsmTyped(T, x)
  {
    if (x.messageType != DATAKEYFRAME && x.messageType != DATADELTAFRAME) || x.fieldEncoding == ENC_RAWDATA then 0
    else
      match x.frame
      case KeyFrame(fs) => 2 + KeyFieldsSize(T, x.fieldEncoding, fs)
      case DeltaFrame(fs) => 2 + DeltaFieldsSize(T, x.fieldEncoding, fs)
      case BareCount(_) => 2
      case NoData => 0
  }

  function DsmSize(T: Table, x: DataSetMessage): nat
    requires DsmTyped(T, x)
  {
    |DsmHeader(x)| + FrameSize(T, x)
  }

  // ----- NetworkMessage encoding -----

  predicate Flags2Enabled(m: NetworkMessage) {
    m.chunkMessage || m.promoted.Some? || m.messageType != DATASET
  }

  predicate Flags1Enabled(m: NetworkMessage) {
    m.publisherIdType != 0 || m.dataSetClassId.Some? || m.security.Some? || m.timestamp.Some?
    || m.picoseconds.Some? || Flags2Enabled(m)
  }

  function Flags0(m: NetworkMessage): u8 {
    Mark(Mark(Mark(Mark(m.version, 4, m.publisherId.Some?), 5, m.groupHeader.Some?), 6, m.payloadHeader.Some?),
         7, Flags1Enabled(m))
  }

  function Flags1(m: NetworkMessage): u8 {
    Mark(Mark(Mark(Mark(Mark(m.publisherIdType, 3, m.dataSetClassId.Some?), 4, m.security.Some?), 5, m.timestamp.Some?),
              6, m.picoseconds.Some?), 7, Flags2Enabled(m))
  }

  function Flags2(m: NetworkMessage): u8 {
    Mark(Mark((4 * m.messageType) % 256, 0, m.chunkMessage), 1, m.promoted.Some?)
  }

  function EncFlags(m: NetworkMessage): bytes {
    if !Flags1Enabled(m) then [Flags0(m)]
    else if !Flags2Enabled(m) then [Flags0(m), Flags1(m)]
    else [Flags0(m), Flags1(m), Flags2(m)]
  }

  function EncPublisherId(m: NetworkMessage): bytes {
    match m.publisherId
    case None => []
    case Some(IdNumber(n)) => LE(n, IdWidth(m.publisherIdType))
    case Some(IdString(s)) => EncStr(s)
  }

  function EncClassId(m: NetworkMessage): bytes {
    if m.dataSetClassId.Some? then EncGuid(m.dataSetClassId.value) else []
  }

  function GroupFlags(g: GroupHeader): u8 {
    Mark(Mark(Mark(Mark(0, 0, g.writerGroupId.Some?), 1, g.groupVersion.Some?), 2, g.networkMessageNumber.Some?),
         3, g.sequenceNumber.Some?)
  }

  function EncGroup(m: NetworkMessage): bytes {
    match m.groupHeader
    case None => []
    case Some(g) =>
      [GroupFlags(g)] + OptLE(g.writerGroupId, 2) + OptLE(g.groupVersion, 4) + OptLE(g.networkMessageNumber, 2)
      + OptLE(g.sequenceNumber, 2)
  }

  function EncU16s(ns: seq<u16>): (r: bytes)
    ensures |r| == 2 * |ns|
  {
    if ns == [] then [] else LE(ns[0], 2) + EncU16s(ns[1..])
  }

  function EncPayloadHeader(m: NetworkMessage): bytes
    requires MessageCount(m) < 256
  {
    if m.payloadHeader.Some? && m.payloadHeader.value.WriterIds?
    then [MessageCount(m)] + EncU16s(m.payloadHeader.value.ids) else []
  }

  function VariantsSize(T: Table, xs: seq<Variant>): nat
    requires VariantsAre(T, xs)
  {
    if xs == [] then 0 else VariantSize(T, xs[0]) + VariantsSize(T, xs[1..])
  }

  function EncVariants(T: Table, xs: seq<Variant>): bytes
    requires VariantsAre(T, xs)
  {
    if xs == [] then [] else EncVariant(T, xs[0]) + EncVariants(T, xs[1..])
  }

  /** The size field is a 16-bit sum of the oracle's answers. */
  function PromotedLength(T: Table, xs: seq<Variant>): nat
    requires VariantsAre(T, xs)
  {
    VariantsSize(T, xs) % 0x1_0000
  }

  function EncPromoted(T: Table, m: NetworkMessage): bytes
    requires m.promoted.Some? ==> VariantsAre(T, m.promoted.value)
  {
    match m.promoted
    case None => []
    case Some(xs) => LE(PromotedLength(T, xs), 2) + EncVariants(T, xs)
  }

  function SecurityFlags(x: Security): u8 {
    Mark(Mark(Mark(Mark(0, 0, x.signature.Some?), 1, x.encrypted), 2, x.footer.Some?), 3, x.forceKeyReset)
  }

  function EncSecurity(m: NetworkMessage): bytes
    requires m.security.Some? ==> |m.security.value.nonce| < 256
  {
    match m.security
    case None => []
    case Some(x) =>
      [SecurityFlags(x)] + LE(x.tokenId, 4) + [|x.nonce|] + x.nonce
      + (if x.footer.Some? then LE(|x.footer.value|, 2) else [])
  }

  /** The size sent for a DataSetMessage: the caller's, unless it is absent or zero. */
  function SentSize(T: Table, x: DataSetMessage, given: Option<u16>): u16
    requires DsmTyped(T, x)
  {
    if given.Some? && given.value != 0 then given.value else DsmSize(T, x) % 0x1_0000
  }

  function SentSizes(T: Table, xs: seq<DataSetMessage>, given: Option<seq<u16>>): (r: seq<u16>)
    requires DsmsAre(T, xs) && (given.Some? ==> |given.value| == |xs|)
    ensures |r| == |xs|
    decreases xs
  {
    if xs == [] then []
    else [SentSize(T, xs[0], if given.Some? then Some(given.value[0]) else None)]
         + SentSizes(T, xs[1..], if given.Some? then Some(given.value[1..]) else None)
  }

  function EncSizes(T: Table, m: NetworkMessage): bytes
    requires NmTyped(T, m)
  {
    if m.payloadHeader.Some? && MessageCount(m) > 1 then EncU16s(SentSizes(T, m.messages, m.sizes)) else []
  }

  function EncTrailer(m: NetworkMessage): bytes {
    match m.security
    case None => []
    case Some(x) =>
      (if x.footer.Some? then x.footer.value else []) + (if x.signature.Some? then EncStr(x.signature.value) else [])
  }

  /** Everything before the payload header's successor: flags, ids, class, group and payload headers. */
  function EncHead(m: NetworkMessage): bytes
    requires MessageCount(m) < 256
  {
    EncFlags(m) + EncPublisherId(m) + EncClassId(m) + EncGroup(m) + EncPayloadHeader(m)
  }

  function EncMiddle(T: Table, m: NetworkMessage): bytes
    requires NmTyped(T, m)
  {
    OptLE(m.timestamp, 8) + OptLE(m.picoseconds, 2) + EncPromoted(T, m) + EncSecurity(m)
  }

  function EncPayload(T: Table, m: NetworkMessage): bytes
    requires NmTyped(T, m)
  {
    EncSizes(T, m) + EncDsms(T, m.messages) + EncTrailer(m)
  }

  function EncNm(T: Table, m: NetworkMessage): bytes
    requires NmTyped(T, m)
  {
    EncHead(m) + EncMiddle(T, m) + EncPayload(T, m)
  }

  // ----- which messages can be encoded -----

  predicate VariantsOk(T: Table, xs: seq<Variant>)
    requires VariantsAre(T, xs)
  {
    xs != [] ==> VariantOk(T, xs[0], 0) && VariantsOk(T, xs[1..])
  }

  predicate HeadOk(m: NetworkMessage) {
    && (m.publisherId.Some? ==> m.publisherIdType <= 4 && (m.publisherId.value.IdString? ==> StrOk(m.publisherId.value.s)))
    && (m.payloadHeader.Some? ==> m.messageType == DATASET && m.payloadHeader.value.WriterIds?)
  }

  /** A footer is counted with an 8-bit loop variable, so only sizes up to 255 can be sent. */
  predicate TrailerOk(m: NetworkMessage) {
    m.security.Some? ==>
      && (m.security.value.footer.Some? ==> |m.security.value.footer.value| <= 255)
      && (m.security.value.signature.Some? ==> StrOk(m.security.value.signature.value))
  }

  predicate NmOk(T: Table, m: NetworkMessage)
    requires NmTyped(T, m)
  {
    && HeadOk(m) && m.messageType == DATASET
    && (m.promoted.Some? ==> VariantsOk(T, m.promoted.value))
    && DsmsOk(T, m.messages) && TrailerOk(m)
  }

  // ----- NetworkMessage size -----

  function PublisherIdSize(m: NetworkMessage): nat {
    match m.publisherId
    case None => 0
    case Some(id) =>
      if m.publisherIdType <= 3 then IdWidth(m.publisherIdType)
      else if m.publisherIdType == 4 && id.IdString? then StrSize(id.s) else 0
  }

  function SizesSize(m: NetworkMessage): nat {
    if m.payloadHeader.Some? && MessageCount(m) > 1 then 2 * MessageCount(m) else 0
  }

  function DsmsSize(T: Table, xs: seq<DataSetMessage>): nat
    requires DsmsAre(T, xs)
  {
    if xs == [] then 0 else DsmSize(T, xs[0]) + DsmsSize(T, xs[1..])
  }

  function TrailerSize(m: NetworkMessage): nat {
    match m.security
    case None => 0
    case Some(x) =>
      (if x.footer.Some? then |x.footer.value| else 0) + (if x.signature.Some? then StrSize(x.signature.value) else 0)
  }

  /** Zero when the payload header lacks its writer ids; only DataSet messages have a payload. */
  function NmSize(T: Table, m: NetworkMessage): nat
    requires NmTyped(T, m)
  {
    if m.messageType == DATASET && m.payloadHeader == Some(NoWriterIds) then 0
    else
      |EncFlags(m)| + PublisherIdSize(m) + |EncClassId(m)| + |EncGroup(m)|
      + (if m.messageType == DATASET then |EncPayloadHeader(m)| else 0)
      + OptSize(m.timestamp, 8) + OptSize(m.picoseconds, 2)
      + (if m.promoted.Some? then 2 + VariantsSize(T, m.promoted.value) else 0)
      + |EncSecurity(m)|
      + (if m.messageType == DATASET then SizesSize(m) + DsmsSize(T, m.messages) else 0)
      + TrailerSize(m)
  }
}
