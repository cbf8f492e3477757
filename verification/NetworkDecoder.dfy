/** The message decoder: it advances a reader and stops at the first failure. */
module NetworkDecoder {
  import opened Bytes
  import opened Types
  import opened Wire
  import opened Parse
  import opened EncodeState
  import opened Decoder
  import opened NetworkMessage
  import opened NetworkParse

  // ----- DataSetMessages -----

  method DecodeDsmRest(r: Reader, b: u8, b2: u8, nr: Option<u16>) returns (ret: Status, x: DataSetMessage)
    modifies r
    ensures r.Got(DecDsmRest(r.src, old(r.pos), b, b2, nr), ret, x)
  {
    hide DecOpt16, DecOpt32, DecOpt64, Has;
    x := BlankDsm();
    var timestamp, pico, status, major, minor;
    ret, timestamp := r.DecodeOpt64(Has(b2, 4));
    if !ret.Good? { return; }
    ret, pico := r.DecodeOpt16(Has(b2, 5));
    if !ret.Good? { return; }
    ret, status := r.DecodeOpt16(Has(b, 4));
    if !ret.Good? { return; }
    ret, major := r.DecodeOpt32(Has(b, 5));
    if !ret.Good? { return; }
    ret, minor := r.DecodeOpt32(Has(b, 6));
    x := DataSetMessage(Has(b, 0), (b / 2) % 4, b2 % 16, nr, timestamp, pico, status, major, minor, NoData);
  }

  function BlankDsm(): DataSetMessage {
    DataSetMessage(false, 0, 0, None, None, None, None, None, None, NoData)
  }

  method DecodeDsmHeader(r: Reader) returns (ret: Status, x: DataSetMessage)
    modifies r
    ensures r.Got(DecDsmHeader(r.src, old(r.pos)), ret, x)
  {
    hide DecByte, DecOpt16, DecDsmRest, Has;
    x := BlankDsm();
    var b, b2, nr := 0, 0, None;
    ret, b := r.DecodeByte();
    if !ret.Good? { return; }
    if Has(b, 7) {
      ret, b2 := r.DecodeByte();
      if !ret.Good? { return; }
    }
    ret, nr := r.DecodeOpt16(Has(b, 3));
    if !ret.Good? { return; }
    ret, x := DecodeDsmRest(r, b, b2, nr);
  }

  method DecodeKeyField(T: Table, r: Reader, encoding: u8) returns (ret: Status, f: DataValue)
    requires r.depth == 0
    modifies r
    ensures r.Got(DecKeyField(T, r.src, old(r.pos), encoding), ret, f)
  {
    hide DecVariant, DecData;
    if encoding == ENC_VARIANT {
      var x;
      ret, x := r.DecodeVariant(T);
      f := ValueOnly(x);
    } else {
      ret, f := r.DecodeData(T);
    }
  }

  method DecodeKeyFields(T: Table, r: Reader, encoding: u8, n: nat) returns (ret: Status, fs: seq<DataValue>)
    requires r.depth == 0
    modifies r
    ensures r.Got(DecKeyFields(T, r.src, old(r.pos), encoding, n), ret, fs)
  {
    hide DecKeyField;
    fs, ret := [], Good;
    ghost var all := DecKeyFields(T, r.src, r.pos, encoding, n);
    ContStart(all);
    var i := 0;
    while i < n && ret.Good?
      invariant i <= n && |fs| == i && old(r.pos) <= r.pos && r.depth == 0 && !ret.LimitsExceeded?
      invariant ret.Good? ==> all == Cont(fs, DecKeyFields(T, r.src, r.pos, encoding, n - i))
      invariant ret.Bad? ==> all.Fail?
    {
      var f;
      ret, f := DecodeKeyField(T, r, encoding);
      if ret.Good? {
        ContStep(fs, f, DecKeyFields(T, r.src, r.pos, encoding, n - i - 1));
      }
      fs := fs + [f];
      i := i + 1;
    }
    assert ret.Good? ==> fs + [] == fs;
  }

  method DecodeDelta(T: Table, r: Reader, encoding: u8) returns (ret: Status, f: DeltaField)
    requires r.depth == 0
    modifies r
    ensures r.Got(DecDeltaField(T, r.src, old(r.pos), encoding), ret, f)
  {
    hide DecKeyField, DecU16;
    f := DeltaField(0, ValueOnly(Empty));
    var index, value;
    ret, index := r.DecodeU16();
    if !ret.Good? { return; }
    ret, value := DecodeKeyField(T, r, encoding);
    f := DeltaField(index, value);
  }

  method DecodeDeltas(T: Table, r: Reader, encoding: u8, n: nat) returns (ret: Status, fs: seq<DeltaField>)
    requires r.depth == 0
    modifies r
    ensures r.Got(DecDeltaFields(T, r.src, old(r.pos), encoding, n), ret, fs)
  {
    hide DecDeltaField;
    fs, ret := [], Good;
    ghost var all := DecDeltaFields(T, r.src, r.pos, encoding, n);
    ContStart(all);
    var i := 0;
    while i < n && ret.Good?
      invariant i <= n && |fs| == i && old(r.pos) <= r.pos && r.depth == 0 && !ret.LimitsExceeded?
      invariant ret.Good? ==> all == Cont(fs, DecDeltaFields(T, r.src, r.pos, encoding, n - i))
      invariant ret.Bad? ==> all.Fail?
    {
      var f;
      ret, f := DecodeDelta(T, r, encoding);
      if ret.Good? {
        ContStep(fs, f, DecDeltaFields(T, r.src, r.pos, encoding, n - i - 1));
      }
      fs := fs + [f];
      i := i + 1;
    }
    assert ret.Good? ==> fs + [] == fs;
  }

  method DecodeFrame(T: Table, r: Reader, messageType: u8, encoding: u8) returns (ret: Status, x: Frame)
    requires r.depth == 0
    modifies r
    ensures r.Got(DecFrame(T, r.src, old(r.pos), messageType, encoding), ret, x)
  {
    hide DecU16, DecKeyFields, DecDeltaFields;
    x, ret := NoData, Good;
    var n := 0;
    if messageType == DATAKEYFRAME {
      if encoding != ENC_RAWDATA {
        ret, n := r.DecodeU16();
        if !ret.Good? { return; }
        if HasFields(encoding) {
          var fs;
          ret, fs := DecodeKeyFields(T, r, encoding, n);
          x := KeyFrame(fs);
        } else {
          x := BareCount(n);
        }
      }
    } else if messageType == DATADELTAFRAME {
      if encoding != ENC_RAWDATA {
        ret, n := r.DecodeU16();
        if !ret.Good? { return; }
        if HasFields(encoding) {
          var fs;
          ret, fs := DecodeDeltas(T, r, encoding, n);
          x := DeltaFrame(fs);
        } else {
          x := BareCount(n);
        }
      }
    } else if messageType != KEEPALIVE {
      ret := Bad;
    }
  }

  method DecodeDsm(T: Table, r: Reader) returns (ret: Status, x: DataSetMessage)
    requires r.depth == 0
    modifies r
    ensures r.Got(DecDsm(T, r.src, old(r.pos)), ret, x)
  {
    hide DecDsmHeader, DecFrame;
    ret, x := DecodeDsmHeader(r);
    if !ret.Good? { return; }
    var frame;
    ret, frame := DecodeFrame(T, r, x.messageType, x.fieldEncoding);
    x := x.(frame := frame);
  }

  method DecodeDsms(T: Table, r: Reader, n: nat) returns (ret: Status, xs: seq<DataSetMessage>)
    requires r.depth == 0
    modifies r
    ensures r.Got(DecDsms(T, r.src, old(r.pos), n), ret, xs)
  {
    hide DecDsm;
    xs, ret := [], Good;
    ghost var all := DecDsms(T, r.src, r.pos, n);
    ContStart(all);
    var i := 0;
    while i < n && ret.Good?
      invariant i <= n && |xs| == i && old(r.pos) <= r.pos && r.depth == 0 && !ret.LimitsExceeded?
      invariant ret.Good? ==> all == Cont(xs, DecDsms(T, r.src, r.pos, n - i))
      invariant ret.Bad? ==> all.Fail?
    {
      var x;
      ret, x := DecodeDsm(T, r);
      if ret.Good? {
        ContStep(xs, x, DecDsms(T, r.src, r.pos, n - i - 1));
      }
      xs := xs + [x];
      i := i + 1;
    }
    assert ret.Good? ==> xs + [] == xs;
  }

  // ----- NetworkMessage header -----

  method DecodeFlags(r: Reader) returns (ret: Status, f: Flags)
    modifies r
    ensures r.Got(DecFlags(r.src, old(r.pos)), ret, f)
  {
    hide DecByte, Has;
    f := Flags(0, 0, 0);
    var v;
    ret, v := r.DecodeByte();
    if !ret.Good? { return; }
    f := f.(b0 := v);
    if Has(f.b0, 7) {
      ret, v := r.DecodeByte();
      if !ret.Good? { return; }
      f := f.(b1 := v);
      if Has(f.b1, 7) {
        ret, v := r.DecodeByte();
        if !ret.Good? { return; }
        f := f.(b2 := v);
      }
    }
  }

  method DecodePublisherId(r: Reader, on: bool, ty: u8) returns (ret: Status, id: Option<PublisherId>)
    modifies r
    ensures r.Got(DecPublisherId(r.src, old(r.pos), on, ty), ret, id)
  {
    hide DecFixed, DecStr, Pow256;
    id, ret := None, Good;
    if on {
      if ty == 0 || ty == 1 || ty == 2 || ty == 3 {
        var n;
        ret, n := r.DecodeFixed(IdWidth(ty));
        id := Some(IdNumber(n));
      } else if ty == 4 {
        var s;
        ret, s := r.DecodeStr();
        id := Some(IdString(s));
      } else {
        ret := Bad;
      }
    }
  }

  method DecodeClassId(r: Reader, on: bool) returns (ret: Status, id: Option<Guid>)
    modifies r
    ensures r.Got(DecClassId(r.src, old(r.pos), on), ret, id)
  {
    hide DecGuid;
    id, ret := None, Good;
    if on {
      var g;
      ret, g := r.DecodeGuid();
      id := Some(g);
    }
  }

  method DecodeGroup(r: Reader, on: bool) returns (ret: Status, group: Option<GroupHeader>)
    modifies r
    ensures r.Got(DecGroup(r.src, old(r.pos), on), ret, group)
  {
    hide DecByte, DecOpt16, DecOpt32, Has;
    group, ret := None, Good;
    if on {
      var b, writerGroupId, version, number, sequence;
      ret, b := r.DecodeByte();
      if !ret.Good? { return; }
      ret, writerGroupId := r.DecodeOpt16(Has(b, 0));
      if !ret.Good? { return; }
      ret, version := r.DecodeOpt32(Has(b, 1));
      if !ret.Good? { return; }
      ret, number := r.DecodeOpt16(Has(b, 2));
      if !ret.Good? { return; }
      ret, sequence := r.DecodeOpt16(Has(b, 3));
      group := Some(GroupHeader(writerGroupId, version, number, sequence));
    }
  }

  method DecodeU16s(r: Reader, n: nat) returns (ret: Status, xs: seq<u16>)
    modifies r
    ensures r.Got(DecU16s(r.src, old(r.pos), n), ret, xs)
    ensures ret.Good? ==> |xs| == n
  {
    hide DecU16;
    xs, ret := [], Good;
    ghost var all := DecU16s(r.src, r.pos, n);
    ContStart(all);
    var i := 0;
    while i < n && ret.Good?
      invariant i <= n && |xs| == i && old(r.pos) <= r.pos && r.depth == old(r.depth) && !ret.LimitsExceeded?
      invariant ret.Good? ==> all == Cont(xs, DecU16s(r.src, r.pos, n - i))
      invariant ret.Bad? ==> all.Fail?
    {
      var x;
      ret, x := r.DecodeU16();
      if ret.Good? {
        ContStep(xs, x, DecU16s(r.src, r.pos, n - i - 1));
      }
      xs := xs + [x];
      i := i + 1;
    }
    assert ret.Good? ==> xs + [] == xs;
  }

  method DecodePayloadHeader(r: Reader, on: bool, messageType: u8) returns (ret: Status, header: Option<PayloadHeader>)
    modifies r
    ensures r.Got(DecPayloadHeader(r.src, old(r.pos), on, messageType), ret, header)
  {
    hide DecByte, DecU16s;
    header, ret := None, Good;
    if on {
      if messageType != DATASET {
        return Bad, None;
      }
      var count, ids;
      ret, count := r.DecodeByte();
      if !ret.Good? { return; }
      ret, ids := DecodeU16s(r, count);
      header := Some(WriterIds(ids));
    }
  }

  method DecodeHead(r: Reader) returns (ret: Status, h: Head)
    modifies r
    ensures r.Got(DecHead(r.src, old(r.pos)), ret, h)
  {
    hide DecFlags, DecPublisherId, DecClassId, DecGroup, DecPayloadHeader, Has;
    h := Head(Flags(0, 0, 0), None, None, None, None);
    var f, id, classId, group, header;
    ret, f := DecodeFlags(r);
    if !ret.Good? { return; }
    ret, id := DecodePublisherId(r, Has(f.b0, 4), f.b1 % 8);
    if !ret.Good? { return; }
    ret, classId := DecodeClassId(r, Has(f.b1, 3));
    if !ret.Good? { return; }
    ret, group := DecodeGroup(r, Has(f.b0, 5));
    if !ret.Good? { return; }
    ret, header := DecodePayloadHeader(r, Has(f.b0, 6), TypeOf(f));
    h := Head(f, id, classId, group, header);
  }

  // ----- promoted fields and security header -----

  /** Decodes one field at least, and further ones until the position reaches the announced end. The
      16-bit count of fields never wraps around: each field takes at least one octet. */
  method DecodePromotedFields(T: Table, r: Reader, size: u16) returns (ret: Status, xs: seq<Variant>, count: u16)
    requires r.depth == 0 && size > 0
    modifies r
    ensures r.Got(DecPromotedFields(T, r.src, old(r.pos), old(r.pos) + size), ret, xs)
    ensures ret.Good? ==> count == |xs|
  {
    hide DecVariant;
    xs, ret, count := [], Good, 0;
    var end := r.pos + size;
    ghost var all := DecPromotedFields(T, r.src, r.pos, end);
    ContStart(all);
    var more := true;
    while more
      invariant old(r.pos) <= r.pos && r.depth == 0 && !ret.LimitsExceeded?
      invariant more ==> ret.Good? && r.pos < end && all == Cont(xs, DecPromotedFields(T, r.src, r.pos, end))
      invariant |xs| <= r.pos - old(r.pos) || !ret.Good?
      invariant ret.Good? ==> count == |xs|
      invariant !more ==> if ret.Good? then all == Done(xs, r.pos) else all.Fail?
      decreases if more then 1 + end - r.pos else 0
    {
      var x;
      ghost var p := r.pos;
      ret, x := r.DecodeVariant(T);
      if ret.Good? {
        count := (|xs| + 1) % 0x1_0000;
        if r.pos < end {
          ContStep(xs, x, DecPromotedFields(T, r.src, r.pos, end));
        }
        xs := xs + [x];
      }
      more := ret.Good? && r.pos < end;
    }
  }

  method DecodePromoted(T: Table, r: Reader, on: bool) returns (ret: Status, xs: Option<seq<Variant>>)
    requires r.depth == 0
    modifies r
    ensures r.Got(DecPromoted(T, r.src, old(r.pos), on), ret, xs)
  {
    hide DecU16, DecPromotedFields;
    xs, ret := None, Good;
    if on {
      var size;
      ret, size := r.DecodeU16();
      if !ret.Good? { return; }
      xs := Some([]);
      if size > 0 {
        var fields, count;
        ret, fields, count := DecodePromotedFields(T, r, size);
        xs := Some(fields);
      }
    }
  }

  /** Octets read one by one into a buffer; the index is an octet, so longer input is never completed:
      the loop runs on until the source is exhausted. */
  method DecodeOctets(r: Reader, size: u16) returns (ret: Status, b: bytes)
    modifies r
    ensures r.Got(if size > 255 then Fail else DecOctets(r.src, old(r.pos), size), ret, b)
  {
    hide DecByte;
    var data := new u8[size];
    ret, b := Good, [];
    var i: u8 := 0;
    while i < size && ret.Good?
      invariant old(r.pos) <= r.pos && r.depth == old(r.depth) && !ret.LimitsExceeded?
      invariant size <= 255 ==> i <= size && (ret.Good? ==> r.pos == old(r.pos) + i && (i > 0 ==> r.pos <= |r.src|))
      invariant size <= 255 && ret.Good? && i > 0 ==> data[..i] == r.src[old(r.pos)..r.pos]
      invariant !ret.Good? ==> size > 0 && (size <= 255 ==> |r.src| < old(r.pos) + size)
      decreases if ret.Good? then 1 + Rest(r.src, r.pos) else 0
    {
      ghost var p := r.pos;
      var v;
      ret, v := r.DecodeByte();
      ByteRead(r.src, p);
      if ret.Good? {
        data[i] := v;
        i := (i + 1) % 256;
      }
    }
    b := data[..];
    if size <= 255 && ret.Good? {
      assert b == data[..i];
    }
  }

  lemma ByteRead(s: bytes, p: nat)
    ensures DecByte(s, p) == if p < |s| then Done(s[p], p + 1) else Fail
  {
  }

  method DecodeSecurity(r: Reader, on: bool) returns (ret: Status, h: Option<SecurityHead>)
    modifies r
    ensures r.Got(DecSecurity(r.src, old(r.pos), on), ret, h)
  {
    hide DecByte, DecU32, DecOpt16, DecOctets, Has;
    h, ret := None, Good;
    if on {
      var b, tokenId, n, nonce, size;
      ret, b := r.DecodeByte();
      if !ret.Good? { return; }
      ret, tokenId := r.DecodeU32();
      if !ret.Good? { return; }
      ret, n := r.DecodeByte();
      if !ret.Good? { return; }
      ret, nonce := DecodeOctets(r, n);
      if !ret.Good? { return; }
      ret, size := r.DecodeOpt16(Has(b, 2));
      h := Some(SecurityHead(Has(b, 0), Has(b, 1), Has(b, 3), tokenId, nonce, size));
    }
  }

  method DecodeMiddle(T: Table, r: Reader, f: Flags) returns (ret: Status, x: Middle)
    requires r.depth == 0
    modifies r
    ensures r.Got(DecMiddle(T, r.src, old(r.pos), f), ret, x)
  {
    hide DecOpt64, DecOpt16, DecPromoted, DecSecurity, Has;
    x := Middle(None, None, None, None);
    var timestamp, pico, promoted, security;
    ret, timestamp := r.DecodeOpt64(Has(f.b1, 5));
    if !ret.Good? { return; }
    ret, pico := r.DecodeOpt16(Has(f.b1, 6));
    if !ret.Good? { return; }
    ret, promoted := DecodePromoted(T, r, Has(f.b2, 1));
    if !ret.Good? { return; }
    ret, security := DecodeSecurity(r, Has(f.b1, 4));
    x := Middle(timestamp, pico, promoted, security);
  }

  // ----- payload -----

  method DecodeSizes(r: Reader, h: Option<PayloadHeader>) returns (ret: Status, xs: Option<seq<u16>>)
    modifies r
    ensures r.Got(DecSizes(r.src, old(r.pos), h), ret, xs)
  {
    hide DecU16s;
    xs, ret := None, Good;
    if h.Some? && HeaderCount(h) > 1 {
      var ns;
      ret, ns := DecodeU16s(r, HeaderCount(h));
      xs := Some(ns);
    }
  }

  method DecodeTrailer(r: Reader, h: Option<SecurityHead>) returns (ret: Status, x: Option<Security>)
    modifies r
    ensures r.Got(DecTrailer(r.src, old(r.pos), h), ret, x)
  {
    hide DecOctets, DecOptStr;
    x, ret := None, Good;
    if h.Some? {
      var head := h.value;
      var footer: bytes, signature := [], None;
      NoOctets(r.src, r.pos);
      if head.footerSize.Some? && head.footerSize.value > 0 {
        ret, footer := DecodeOctets(r, head.footerSize.value);
        if !ret.Good? { return; }
      }
      ret, signature := r.DecodeOptStr(head.signed);
      x := Some(Security(signature, head.encrypted, if head.footerSize.Some? then Some(footer) else None,
                         head.forceKeyReset, head.tokenId, head.nonce));
    }
  }

  lemma NoOctets(s: bytes, p: nat)
    ensures DecOctets(s, p, 0) == Done([], p)
  {
  }

  method DecodePayload(T: Table, r: Reader, h: Option<PayloadHeader>, security: Option<SecurityHead>) returns (ret: Status, x: Payload)
    requires r.depth == 0
    modifies r
    ensures r.Got(DecPayload(T, r.src, old(r.pos), h, security), ret, x)
  {
    hide DecSizes, DecDsms, DecTrailer;
    x := Payload(None, [], None);
    var sizes, messages, trailer;
    ret, sizes := DecodeSizes(r, h);
    if !ret.Good? { return; }
    ret, messages := DecodeDsms(T, r, HeaderCount(h));
    if !ret.Good? { return; }
    ret, trailer := DecodeTrailer(r, security);
    x := Payload(sizes, messages, trailer);
  }

  method DecodeNm(T: Table, r: Reader) returns (ret: Status, m: NetworkMessage)
    requires r.depth == 0
    modifies r
    ensures r.Got(DecNm(T, r.src, old(r.pos)), ret, m)
  {
    hide DecHead, DecMiddle, DecPayload, Has;
    m := Assemble(Head(Flags(0, 0, 0), None, None, None, None), Middle(None, None, None, None), Payload(None, [], None));
    var h, x, y;
    ret, h := DecodeHead(r);
    if !ret.Good? { return; }
    ret, x := DecodeMiddle(T, r, h.flags);
    if !ret.Good? { return; }
    if TypeOf(h.flags) != DATASET {
      return Bad, m;
    }
    ret, y := DecodePayload(T, r, h.payloadHeader, x.security);
    m := Assemble(h, x, y);
  }
}
