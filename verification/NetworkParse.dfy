/** What decoding a NetworkMessage means. */
module NetworkParse {
  import opened Bytes
  import opened Types
  import opened Wire
  import opened Parse
  import opened NetworkMessage

  // ----- DataSetMessage -----

  /** The header with an empty frame. */
  function DecDsmHeader(s: bytes, p: nat): (r: Res<DataSetMessage>)
    ensures r.Done? ==> p < r.pos <= |s|
  {
    var (b, p1) :- DecByte(s, p);
    var (b2, p2) :- if Has(b, 7) then DecByte(s, p1) else Done(0, p1);
    DecDsmFields(s, p2, b, b2)
  }

  /** The optional header fields, as the two flag bytes announce them. */
  function DecDsmFields(s: bytes, p: nat, b: u8, b2: u8): (r: Res<DataSetMessage>)
    ensures r.Done? ==> p <= r.pos && (p <= |s| ==> r.pos <= |s|)
  {
    var (sequenceNr, q1) :- DecOpt16(s, p, Has(b, 3));
    DecDsmRest(s, q1, b, b2, sequenceNr)
  }

  function DecDsmRest(s: bytes, p: nat, b: u8, b2: u8, sequenceNr: Option<u16>): (r: Res<DataSetMessage>)
    ensures r.Done? ==> p <= r.pos && (p <= |s| ==> r.pos <= |s|)
  {
    var (timestamp, q2) :- DecOpt64(s, p, Has(b2, 4));
    var (pico, q3) :- DecOpt16(s, q2, Has(b2, 5));
    var (status, q4) :- DecOpt16(s, q3, Has(b, 4));
    var (major, q5) :- DecOpt32(s, q4, Has(b, 5));
    var (minor, q6) :- DecOpt32(s, q5, Has(b, 6));
    Done(DataSetMessage(Has(b, 0), (b / 2) % 4, b2 % 16, sequenceNr, timestamp, pico, status, major, minor, NoData), q6)
  }

  /** A DataValue holding only a value. */
  function ValueOnly(x: Variant): DataValue {
    DataValue(true, x, None, None, None, None, None)
  }

  function DecKeyField(T: Table, s: bytes, p: nat, encoding: u8): (r: Res<DataValue>)
    ensures r.Done? ==> p < r.pos
  {
    if encoding == ENC_VARIANT then
      var (x, q) :- DecVariant(T, s, p, 0);
      Done(ValueOnly(x), q)
    else DecData(T, s, p, 0)
  }

  function DecKeyFields(T: Table, s: bytes, p: nat, encoding: u8, n: nat): (r: Res<seq<DataValue>>)
    ensures r.Done? ==> p <= r.pos && |r.v| == n
    decreases n
  {
    if n == 0 then Done([], p)
    else
      var (f, q) :- DecKeyField(T, s, p, encoding);
      var (fs, e) :- DecKeyFields(T, s, q, encoding, n - 1);
      Done([f] + fs, e)
  }

  function DecDeltaField(T: Table, s: bytes, p: nat, encoding: u8): (r: Res<DeltaField>)
    ensures r.Done? ==> p < r.pos
  {
    var (index, q) :- DecU16(s, p);
    var (f, e) :- DecKeyField(T, s, q, encoding);
    Done(DeltaField(index, f), e)
  }

  function DecDeltaFields(T: Table, s: bytes, p: nat, encoding: u8, n: nat): (r: Res<seq<DeltaField>>)
    ensures r.Done? ==> p <= r.pos && |r.v| == n
    decreases n
  {
    if n == 0 then Done([], p)
    else
      var (f, q) :- DecDeltaField(T, s, p, encoding);
      var (fs, e) :- DecDeltaFields(T, s, q, encoding, n - 1);
      Done([f] + fs, e)
  }

  function DecFrame(T: Table, s: bytes, p: nat, messageType: u8, encoding: u8): (r: Res<Frame>)
    ensures r.Done? ==> p <= r.pos
  {
    if messageType != DATAKEYFRAME && messageType != DATADELTAFRAME then
      if messageType == KEEPALIVE then Done(NoData, p) else Fail
    else if encoding == ENC_RAWDATA then Done(NoData, p)
    else
      var (n, q) :- DecU16(s, p);
      if !HasFields(encoding) then Done(BareCount(n), q)
      else if messageType == DATAKEYFRAME then
        var (fs, e) :- DecKeyFields(T, s, q, encoding, n);
        Done(KeyFrame(fs), e)
      else
        var (fs, e) :- DecDeltaFields(T, s, q, encoding, n);
        Done(DeltaFrame(fs), e)
  }

  function DecDsm(T: Table, s: bytes, p: nat): (r: Res<DataSetMessage>)
    ensures r.Done? ==> p < r.pos
  {
    var (x, q) :- DecDsmHeader(s, p);
    var (frame, e) :- DecFrame(T, s, q, x.messageType, x.fieldEncoding);
    Done(x.(frame := frame), e)
  }

  function DecDsms(T: Table, s: bytes, p: nat, n: nat): (r: Res<seq<DataSetMessage>>)
    ensures r.Done? ==> p <= r.pos && |r.v| == n
    decreases n
  {
    if n == 0 then Done([], p)
    else
      var (x, q) :- DecDsm(T, s, p);
      var (xs, e) :- DecDsms(T, s, q, n - 1);
      Done([x] + xs, e)
  }

  // ----- NetworkMessage -----

  /** The three flag bytes; an absent one reads as zero. */
  datatype Flags = Flags(b0: u8, b1: u8, b2: u8)

  function DecFlags(s: bytes, p: nat): (r: Res<Flags>)
    ensures r.Done? ==> p < r.pos <= |s|
  {
    var (b0, p1) :- DecByte(s, p);
    if !Has(b0, 7) then Done(Flags(b0, 0, 0), p1)
    else
      var (b1, p2) :- DecByte(s, p1);
      if !Has(b1, 7) then Done(Flags(b0, b1, 0), p2)
      else
        var (b2, p3) :- DecByte(s, p2);
        Done(Flags(b0, b1, b2), p3)
  }

  function TypeOf(f: Flags): u8 {
    (f.b2 / 4) % 8
  }

  function DecPublisherId(s: bytes, p: nat, on: bool, ty: u8): (r: Res<Option<PublisherId>>)
    ensures r.Done? ==> p <= r.pos && (p <= |s| ==> r.pos <= |s|)
  {
    if !on then Done(None, p)
    else if ty <= 3 then var (n, q) :- DecFixed(s, p, IdWidth(ty)); Done(Some(IdNumber(n)), q)
    else if ty == 4 then var (x, q) :- DecStr(s, p); Done(Some(IdString(x)), q)
    else Fail
  }

  function DecClassId(s: bytes, p: nat, on: bool): (r: Res<Option<Guid>>)
    ensures r.Done? ==> p <= r.pos && (p <= |s| ==> r.pos <= |s|)
  {
    if !on then Done(None, p)
    else
      var (g, q) :- DecGuid(s, p);
      Done(Some(g), q)
  }

  function DecGroup(s: bytes, p: nat, on: bool): (r: Res<Option<GroupHeader>>)
    ensures r.Done? ==> p <= r.pos && (p <= |s| ==> r.pos <= |s|)
  {
    if !on then Done(None, p)
    else
      var (b, p1) :- DecByte(s, p);
      var (g, q) :- DecGroupFields(s, p1, b);
      Done(Some(g), q)
  }

  function DecGroupFields(s: bytes, p: nat, b: u8): (r: Res<GroupHeader>)
    ensures r.Done? ==> p <= r.pos && (p <= |s| ==> r.pos <= |s|)
  {
    var (writerGroupId, p1) :- DecOpt16(s, p, Has(b, 0));
    var (groupVersion, p2) :- DecOpt32(s, p1, Has(b, 1));
    var (number, p3) :- DecOpt16(s, p2, Has(b, 2));
    var (sequenceNumber, p4) :- DecOpt16(s, p3, Has(b, 3));
    Done(GroupHeader(writerGroupId, groupVersion, number, sequenceNumber), p4)
  }

  function DecU16s(s: bytes, p: nat, n: nat): (r: Res<seq<u16>>)
    ensures r.Done? ==> r.pos == p + 2 * n && |r.v| == n && (p <= |s| ==> r.pos <= |s|)
    decreases n
  {
    if n == 0 then Done([], p)
    else
      var (x, q) :- DecU16(s, p);
      var (xs, e) :- DecU16s(s, q, n - 1);
      Done([x] + xs, e)
  }

  function DecPayloadHeader(s: bytes, p: nat, on: bool, messageType: u8): (r: Res<Option<PayloadHeader>>)
    ensures r.Done? ==> p <= r.pos && (p <= |s| ==> r.pos <= |s|)
    ensures r.Done? && r.v.Some? ==> r.v.value.WriterIds? && |r.v.value.ids| < 256
  {
    if !on then Done(None, p)
    else if messageType != DATASET then Fail
    else
      var (n, p1) :- DecByte(s, p);
      var (ids, q) :- DecU16s(s, p1, n);
      Done(Some(WriterIds(ids)), q)
  }

  /** The fields up to the payload header, and the flags. */
  datatype Head = Head(
    flags: Flags, publisherId: Option<PublisherId>, classId: Option<Guid>, group: Option<GroupHeader>,
    payloadHeader: Option<PayloadHeader>)

  function DecHead(s: bytes, p: nat): (r: Res<Head>)
    ensures r.Done? ==> p < r.pos <= |s|
    ensures r.Done? && r.v.payloadHeader.Some? ==>
      r.v.payloadHeader.value.WriterIds? && |r.v.payloadHeader.value.ids| < 256
  {
    var (f, p1) :- DecFlags(s, p);
    var (id, p2) :- DecPublisherId(s, p1, Has(f.b0, 4), f.b1 % 8);
    var (classId, p3) :- DecClassId(s, p2, Has(f.b1, 3));
    var (group, p4) :- DecGroup(s, p3, Has(f.b0, 5));
    var (header, p5) :- DecPayloadHeader(s, p4, Has(f.b0, 6), TypeOf(f));
    Done(Head(f, id, classId, group, header), p5)
  }

  /** Variants until the position reaches `end`; at least one. */
  function DecPromotedFields(T: Table, s: bytes, p: nat, end: nat): (r: Res<seq<Variant>>)
    ensures r.Done? ==> p < r.pos && |r.v| >= 1
    decreases if p < end then end - p else 0
  {
    var (x, q) :- DecVariant(T, s, p, 0);
    if q < end then
      var (xs, e) :- DecPromotedFields(T, s, q, end);
      Done([x] + xs, e)
    else Done([x], q)
  }

  /** The fields fit the 16-bit counter: each takes at least one octet of a 16-bit budget. */
  lemma {:induction false} PromotedCount(T: Table, s: bytes, p: nat, end: nat)
    requires p < end
    ensures DecPromotedFields(T, s, p, end).Done? ==> |DecPromotedFields(T, s, p, end).v| <= end - p
    decreases end - p
  {
    hide DecVariant;
    var r := DecVariant(T, s, p, 0);
    if r.Done? && r.pos < end {
      PromotedCount(T, s, r.pos, end);
    }
  }

  function DecPromoted(T: Table, s: bytes, p: nat, on: bool): (r: Res<Option<seq<Variant>>>)
    ensures r.Done? ==> p <= r.pos
  {
    if !on then Done(None, p)
    else
      var (n, q) :- DecU16(s, p);
      if n == 0 then Done(Some([]), q)
      else
        var (xs, e) :- DecPromotedFields(T, s, q, q + n);
        Done(Some(xs), e)
  }

  /** The security header; the footer is announced by its size. */
  datatype SecurityHead = SecurityHead(
    signed: bool, encrypted: bool, forceKeyReset: bool, tokenId: u32, nonce: bytes, footerSize: Option<u16>)

  function DecOctets(s: bytes, p: nat, n: nat): (r: Res<bytes>)
    ensures r.Done? ==> r.pos == p + n && |r.v| == n && (p <= |s| ==> r.pos <= |s|)
  {
    if n == 0 then Done([], p) else if p + n > |s| then Fail else Done(s[p..p + n], p + n)
  }

  function DecSecurity(s: bytes, p: nat, on: bool): (r: Res<Option<SecurityHead>>)
    ensures r.Done? ==> p <= r.pos && (p <= |s| ==> r.pos <= |s|)
  {
    if !on then Done(None, p)
    else
      var (b, p1) :- DecByte(s, p);
      var (tokenId, p2) :- DecU32(s, p1);
      var (n, p3) :- DecByte(s, p2);
      var (nonce, p4) :- DecOctets(s, p3, n);
      var (footerSize, p5) :- DecOpt16(s, p4, Has(b, 2));
      Done(Some(SecurityHead(Has(b, 0), Has(b, 1), Has(b, 3), tokenId, nonce, footerSize)), p5)
  }

  datatype Middle = Middle(
    timestamp: Option<u64>, pico: Option<u16>, promoted: Option<seq<Variant>>, security: Option<SecurityHead>)

  function DecMiddle(T: Table, s: bytes, p: nat, f: Flags): (r: Res<Middle>)
    ensures r.Done? ==> p <= r.pos
  {
    var (timestamp, p1) :- DecOpt64(s, p, Has(f.b1, 5));
    var (pico, p2) :- DecOpt16(s, p1, Has(f.b1, 6));
    var (promoted, p3) :- DecPromoted(T, s, p2, Has(f.b2, 1));
    var (security, p4) :- DecSecurity(s, p3, Has(f.b1, 4));
    Done(Middle(timestamp, pico, promoted, security), p4)
  }

  function HeaderCount(h: Option<PayloadHeader>): nat {
    if h.Some? && h.value.WriterIds? then |h.value.ids| else 1
  }

  function DecSizes(s: bytes, p: nat, h: Option<PayloadHeader>): (r: Res<Option<seq<u16>>>)
    ensures r.Done? ==> p <= r.pos && (p <= |s| ==> r.pos <= |s|)
  {
    if h.None? || HeaderCount(h) <= 1 then Done(None, p)
    else
      var (xs, q) :- DecU16s(s, p, HeaderCount(h));
      Done(Some(xs), q)
  }

  /** Footers are read with an 8-bit loop variable: sizes above 255 are never completed. */
  function DecTrailer(s: bytes, p: nat, h: Option<SecurityHead>): (r: Res<Option<Security>>)
    ensures r.Done? ==> p <= r.pos && (p <= |s| ==> r.pos <= |s|)
  {
    match h
    case None => Done(None, p)
    case Some(x) =>
      if x.footerSize.Some? && x.footerSize.value > 255 then Fail
      else
        var (footer, p1) :- DecOctets(s, p, if x.footerSize.Some? then x.footerSize.value else 0);
        var (signature, p2) :- DecOptStr(s, p1, x.signed);
        Done(Some(Security(signature, x.encrypted, if x.footerSize.Some? then Some(footer) else None,
                           x.forceKeyReset, x.tokenId, x.nonce)), p2)
  }

  datatype Payload = Payload(sizes: Option<seq<u16>>, messages: seq<DataSetMessage>, security: Option<Security>)

  function DecPayload(T: Table, s: bytes, p: nat, h: Option<PayloadHeader>, x: Option<SecurityHead>): (r: Res<Payload>)
    ensures r.Done? ==> p <= r.pos
  {
    var (sizes, p1) :- DecSizes(s, p, h);
    var (messages, p2) :- DecDsms(T, s, p1, HeaderCount(h));
    var (security, p3) :- DecTrailer(s, p2, x);
    Done(Payload(sizes, messages, security), p3)
  }

  function Assemble(h: Head, x: Middle, y: Payload): NetworkMessage {
    NetworkMessage(h.flags.b0 % 16, h.flags.b1 % 8, h.publisherId, h.classId, h.group, h.payloadHeader,
                   x.timestamp, x.pico, Has(h.flags.b2, 0), TypeOf(h.flags), x.promoted, y.security, y.sizes, y.messages)
  }

  function DecNm(T: Table, s: bytes, p: nat): (r: Res<NetworkMessage>)
    ensures r.Done? ==> p < r.pos
  {
    var (h, p1) :- DecHead(s, p);
    var (x, p2) :- DecMiddle(T, s, p1, h.flags);
    if TypeOf(h.flags) != DATASET then Fail
    else
      var (y, p3) :- DecPayload(T, s, p2, h.payloadHeader, x.security);
      Done(Assemble(h, x, y), p3)
  }
}
