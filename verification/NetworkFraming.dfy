/** Messages delimit themselves. */
module NetworkFraming {
  import opened Bytes
  import opened Types
  import opened Wire
  import opened Parse
  import opened Survival
  import opened Framing
  import opened NetworkMessage
  import opened NetworkParse
  import opened NetworkFaithful

  lemma DsmRestKept(s: bytes, z: bytes, p: nat, b: u8, b2: u8, nr: Option<u16>)
    requires s <= z
    ensures DecDsmRest(s, p, b, b2, nr).Done? ==> DecDsmRest(z, p, b, b2, nr) == DecDsmRest(s, p, b, b2, nr)
  {
    hide DecOpt16, DecOpt32, DecOpt64, Has;
    var r1 := DecOpt64(s, p, Has(b2, 4));
    if r1.Done? {
      OptsKept(s, z, p, Has(b2, 4));
      var r2 := DecOpt16(s, r1.pos, Has(b2, 5));
      if r2.Done? {
        OptsKept(s, z, r1.pos, Has(b2, 5));
        var r3 := DecOpt16(s, r2.pos, Has(b, 4));
        if r3.Done? {
          OptsKept(s, z, r2.pos, Has(b, 4));
          var r4 := DecOpt32(s, r3.pos, Has(b, 5));
          if r4.Done? {
            OptsKept(s, z, r3.pos, Has(b, 5));
            OptsKept(s, z, r4.pos, Has(b, 6));
          }
        }
      }
    }
  }

  lemma DsmHeaderKept(s: bytes, z: bytes, p: nat)
    requires s <= z
    ensures DecDsmHeader(s, p).Done? ==> DecDsmHeader(z, p) == DecDsmHeader(s, p)
  {
    hide DecOpt16, DecDsmRest, Has, DecByte;
    NumbersKept(s, z, p);
    var r := DecByte(s, p);
    if r.Done? {
      var b := r.v;
      NumbersKept(s, z, r.pos);
      var r2 := if Has(b, 7) then DecByte(s, r.pos) else Done(0, r.pos);
      if r2.Done? {
        OptsKept(s, z, r2.pos, Has(b, 3));
        var r3 := DecOpt16(s, r2.pos, Has(b, 3));
        if r3.Done? {
          DsmRestKept(s, z, r3.pos, b, r2.v, r3.v);
        }
      }
    }
  }

  lemma KeyFieldKept(T: Table, s: bytes, z: bytes, p: nat, encoding: u8)
    requires s <= z
    ensures Kept(DecKeyField(T, s, p, encoding), DecKeyField(T, z, p, encoding))
  {
    hide DecVariant, DecData;
    VariantKept(T, s, z, p, 0);
    DataKept(T, s, z, p, 0);
  }

  lemma {:induction false} KeyFieldsKept(T: Table, s: bytes, z: bytes, p: nat, encoding: u8, n: nat)
    requires s <= z
    ensures Kept(DecKeyFields(T, s, p, encoding, n), DecKeyFields(T, z, p, encoding, n))
    decreases n
  {
    hide DecKeyField;
    if n > 0 {
      KeyFieldKept(T, s, z, p, encoding);
      var r := DecKeyField(T, s, p, encoding);
      if r.Done? {
        KeyFieldsKept(T, s, z, r.pos, encoding, n - 1);
      }
    }
  }

  lemma {:induction false} DeltasKept(T: Table, s: bytes, z: bytes, p: nat, encoding: u8, n: nat)
    requires s <= z
    ensures Kept(DecDeltaFields(T, s, p, encoding, n), DecDeltaFields(T, z, p, encoding, n))
    decreases n
  {
    hide DecKeyField, DecU16;
    if n > 0 {
      NumbersKept(s, z, p);
      var i := DecU16(s, p);
      if i.Done? {
        KeyFieldKept(T, s, z, i.pos, encoding);
      }
      var r := DecDeltaField(T, s, p, encoding);
      if r.Done? {
        DeltasKept(T, s, z, r.pos, encoding, n - 1);
      }
    }
  }

  lemma FrameKept(T: Table, s: bytes, z: bytes, p: nat, messageType: u8, encoding: u8)
    requires s <= z
    ensures Kept(DecFrame(T, s, p, messageType, encoding), DecFrame(T, z, p, messageType, encoding))
  {
    hide DecU16, DecKeyFields, DecDeltaFields;
    NumbersKept(s, z, p);
    var r := DecU16(s, p);
    if r.Done? {
      KeyFieldsKept(T, s, z, r.pos, encoding, r.v);
      DeltasKept(T, s, z, r.pos, encoding, r.v);
    }
  }

  lemma DsmKept(T: Table, s: bytes, z: bytes, p: nat)
    requires s <= z
    ensures Kept(DecDsm(T, s, p), DecDsm(T, z, p))
  {
    hide DecDsmHeader, DecFrame;
    DsmHeaderKept(s, z, p);
    var r := DecDsmHeader(s, p);
    if r.Done? {
      FrameKept(T, s, z, r.pos, r.v.messageType, r.v.fieldEncoding);
    }
  }

  lemma {:induction false} DsmsKept(T: Table, s: bytes, z: bytes, p: nat, n: nat)
    requires s <= z
    ensures Kept(DecDsms(T, s, p, n), DecDsms(T, z, p, n))
    decreases n
  {
    hide DecDsm;
    if n > 0 {
      DsmKept(T, s, z, p);
      var r := DecDsm(T, s, p);
      if r.Done? {
        DsmsKept(T, s, z, r.pos, n - 1);
      }
    }
  }

  lemma FlagsKept(s: bytes, z: bytes, p: nat)
    requires s <= z
    ensures DecFlags(s, p).Done? ==> DecFlags(z, p) == DecFlags(s, p)
  {
    hide Has;
  }

  lemma {:induction false} U16sKept(s: bytes, z: bytes, p: nat, n: nat)
    requires s <= z
    ensures DecU16s(s, p, n).Done? ==> DecU16s(z, p, n) == DecU16s(s, p, n)
    decreases n
  {
    hide DecU16;
    if n > 0 {
      NumbersKept(s, z, p);
      if DecU16(s, p).Done? {
        U16sKept(s, z, p + 2, n - 1);
      }
    }
  }

  lemma GroupKept(s: bytes, z: bytes, p: nat, on: bool)
    requires s <= z
    ensures DecGroup(s, p, on).Done? ==> DecGroup(z, p, on) == DecGroup(s, p, on)
  {
    hide DecOpt16, DecOpt32, Has, DecByte;
    NumbersKept(s, z, p);
    var r := DecByte(s, p);
    if on && r.Done? {
      var b := r.v;
      OptsKept(s, z, r.pos, Has(b, 0));
      var r1 := DecOpt16(s, r.pos, Has(b, 0));
      if r1.Done? {
        OptsKept(s, z, r1.pos, Has(b, 1));
        var r2 := DecOpt32(s, r1.pos, Has(b, 1));
        if r2.Done? {
          OptsKept(s, z, r2.pos, Has(b, 2));
          var r3 := DecOpt16(s, r2.pos, Has(b, 2));
          if r3.Done? {
            OptsKept(s, z, r3.pos, Has(b, 3));
          }
        }
      }
    }
  }

  lemma PublisherKept(s: bytes, z: bytes, p: nat, on: bool, ty: u8)
    requires s <= z
    ensures DecPublisherId(s, p, on, ty).Done? ==> DecPublisherId(z, p, on, ty) == DecPublisherId(s, p, on, ty)
  {
    hide DecFixed, DecStr, Pow256;
    StrKept(s, z, p);
    FixedKept(s, z, p, IdWidth(ty));
  }

  lemma PayloadHeaderKept(s: bytes, z: bytes, p: nat, on: bool, ty: u8)
    requires s <= z
    ensures DecPayloadHeader(s, p, on, ty).Done? ==> DecPayloadHeader(z, p, on, ty) == DecPayloadHeader(s, p, on, ty)
  {
    hide DecByte, DecU16s;
    NumbersKept(s, z, p);
    var r := DecByte(s, p);
    if r.Done? {
      U16sKept(s, z, r.pos, r.v);
    }
  }

  lemma HeadKept(s: bytes, z: bytes, p: nat)
    requires s <= z
    ensures DecHead(s, p).Done? ==> DecHead(z, p) == DecHead(s, p)
  {
    hide DecFlags, DecPublisherId, DecClassId, DecGroup, DecPayloadHeader, Has;
    FlagsKept(s, z, p);
    var r1 := DecFlags(s, p);
    if r1.Done? {
      var f := r1.v;
      PublisherKept(s, z, r1.pos, Has(f.b0, 4), f.b1 % 8);
      var r2 := DecPublisherId(s, r1.pos, Has(f.b0, 4), f.b1 % 8);
      if r2.Done? {
        ClassKept(s, z, r2.pos, Has(f.b1, 3));
        var r3 := DecClassId(s, r2.pos, Has(f.b1, 3));
        if r3.Done? {
          GroupKept(s, z, r3.pos, Has(f.b0, 5));
          var r4 := DecGroup(s, r3.pos, Has(f.b0, 5));
          if r4.Done? {
            PayloadHeaderKept(s, z, r4.pos, Has(f.b0, 6), TypeOf(f));
          }
        }
      }
    }
  }

  lemma ClassKept(s: bytes, z: bytes, p: nat, on: bool)
    requires s <= z
    ensures DecClassId(s, p, on).Done? ==> DecClassId(z, p, on) == DecClassId(s, p, on)
  {
    hide DecGuid;
    GuidKept(s, z, p);
  }

  lemma {:induction false} PromotedFieldsKept(T: Table, s: bytes, z: bytes, p: nat, end: nat)
    requires s <= z
    ensures Kept(DecPromotedFields(T, s, p, end), DecPromotedFields(T, z, p, end))
    decreases if p < end then end - p else 0
  {
    hide DecVariant;
    VariantKept(T, s, z, p, 0);
    var r := DecVariant(T, s, p, 0);
    if r.Done? && r.pos < end {
      PromotedFieldsKept(T, s, z, r.pos, end);
    }
  }

  lemma PromotedKept(T: Table, s: bytes, z: bytes, p: nat, on: bool)
    requires s <= z
    ensures Kept(DecPromoted(T, s, p, on), DecPromoted(T, z, p, on))
  {
    hide DecU16, DecPromotedFields;
    NumbersKept(s, z, p);
    var r := DecU16(s, p);
    if r.Done? {
      PromotedFieldsKept(T, s, z, r.pos, r.pos + r.v);
    }
  }

  lemma OctetsKept(s: bytes, z: bytes, p: nat, n: nat)
    requires s <= z
    ensures DecOctets(s, p, n).Done? ==> DecOctets(z, p, n) == DecOctets(s, p, n)
  {
    if p + n <= |s| {
      SliceKept(s, z, p, n);
    }
  }

  lemma SecurityKept(s: bytes, z: bytes, p: nat, on: bool)
    requires s <= z
    ensures DecSecurity(s, p, on).Done? ==> DecSecurity(z, p, on) == DecSecurity(s, p, on)
  {
    hide DecByte, DecU32, DecOctets, DecOpt16, Has;
    if on && DecSecurity(s, p, on).Done? {
      ByteKept(s, z, p);
      U32Kept(s, z, p + 1);
      ByteKept(s, z, p + 5);
      var b, n := DecByte(s, p), DecByte(s, p + 5);
      OctetsKept(s, z, p + 6, n.v);
      Opt16Kept(s, z, p + 6 + n.v, Has(b.v, 2));
    }
  }

  lemma ByteKept(s: bytes, z: bytes, p: nat)
    requires s <= z
    ensures DecByte(s, p).Done? ==> DecByte(z, p) == DecByte(s, p)
  {
  }

  lemma U32Kept(s: bytes, z: bytes, p: nat)
    requires s <= z
    ensures DecU32(s, p).Done? ==> DecU32(z, p) == DecU32(s, p)
  {
    hide DecU32, DecByte, DecU16, DecU64;
    NumbersKept(s, z, p);
  }

  lemma Opt16Kept(s: bytes, z: bytes, p: nat, on: bool)
    requires s <= z
    ensures DecOpt16(s, p, on).Done? ==> DecOpt16(z, p, on) == DecOpt16(s, p, on)
  {
    hide DecOpt16, DecOpt32, DecOpt64, DecOptStr;
    OptsKept(s, z, p, on);
  }

  lemma MiddleKept(T: Table, s: bytes, z: bytes, p: nat, f: Flags)
    requires s <= z
    ensures Kept(DecMiddle(T, s, p, f), DecMiddle(T, z, p, f))
  {
    hide DecOpt64, DecOpt16, DecPromoted, DecSecurity, Has;
    OptsKept(s, z, p, Has(f.b1, 5));
    var r1 := DecOpt64(s, p, Has(f.b1, 5));
    if r1.Done? {
      OptsKept(s, z, r1.pos, Has(f.b1, 6));
      var r2 := DecOpt16(s, r1.pos, Has(f.b1, 6));
      if r2.Done? {
        PromotedKept(T, s, z, r2.pos, Has(f.b2, 1));
        var r3 := DecPromoted(T, s, r2.pos, Has(f.b2, 1));
        if r3.Done? {
          SecurityKept(s, z, r3.pos, Has(f.b1, 4));
        }
      }
    }
  }

  lemma TrailerKept(s: bytes, z: bytes, p: nat, h: Option<SecurityHead>)
    requires s <= z
    ensures DecTrailer(s, p, h).Done? ==> DecTrailer(z, p, h) == DecTrailer(s, p, h)
  {
    hide DecOctets, DecOptStr;
    if h.Some? {
      var n := if h.value.footerSize.Some? then h.value.footerSize.value else 0;
      OctetsKept(s, z, p, n);
      OptsKept(s, z, p + n, h.value.signed);
    }
  }

  lemma PayloadKept(T: Table, s: bytes, z: bytes, p: nat, h: Option<PayloadHeader>, x: Option<SecurityHead>)
    requires s <= z
    ensures Kept(DecPayload(T, s, p, h, x), DecPayload(T, z, p, h, x))
  {
    hide DecU16s, DecDsms, DecTrailer;
    U16sKept(s, z, p, HeaderCount(h));
    var r1 := DecSizes(s, p, h);
    if r1.Done? {
      DsmsKept(T, s, z, r1.pos, HeaderCount(h));
      var r2 := DecDsms(T, s, r1.pos, HeaderCount(h));
      if r2.Done? {
        TrailerKept(s, z, r2.pos, x);
      }
    }
  }

  lemma NmKept(T: Table, s: bytes, z: bytes, p: nat)
    requires s <= z
    ensures Kept(DecNm(T, s, p), DecNm(T, z, p))
  {
    hide DecHead, DecMiddle, DecPayload;
    HeadKept(s, z, p);
    var r1 := DecHead(s, p);
    if r1.Done? {
      MiddleKept(T, s, z, r1.pos, r1.v.flags);
      var r2 := DecMiddle(T, s, r1.pos, r1.v.flags);
      if r2.Done? {
        PayloadKept(T, s, z, r2.pos, r1.v.payloadHeader, r2.v.security);
      }
    }
  }

  // ----- positions: nothing is read further beyond the source than an ExtensionObject can lead -----

  lemma KeyFieldInside(T: Table, s: bytes, p: nat, encoding: u8)
    ensures Inside(DecKeyField(T, s, p, encoding), p, |s|, Overrun(T, 1))
  {
    hide DecVariant, DecData, Overrun;
    VariantInside(T, s, p, 0);
    DataInside(T, s, p, 0);
  }

  lemma {:induction false} KeyFieldsInside(T: Table, s: bytes, p: nat, encoding: u8, n: nat)
    ensures Inside(DecKeyFields(T, s, p, encoding, n), p, |s|, Overrun(T, 1))
    decreases n
  {
    hide DecKeyField, Overrun;
    if n > 0 {
      KeyFieldInside(T, s, p, encoding);
      var r := DecKeyField(T, s, p, encoding);
      if r.Done? {
        KeyFieldsInside(T, s, r.pos, encoding, n - 1);
      }
    }
  }

  lemma {:induction false} DeltasInside(T: Table, s: bytes, p: nat, encoding: u8, n: nat)
    ensures Inside(DecDeltaFields(T, s, p, encoding, n), p, |s|, Overrun(T, 1))
    decreases n
  {
    hide DecKeyField, Overrun, DecU16;
    if n > 0 {
      KeyFieldInside(T, s, p + 2, encoding);
      var r := DecDeltaField(T, s, p, encoding);
      if r.Done? {
        DeltasInside(T, s, r.pos, encoding, n - 1);
      }
    }
  }

  lemma DsmInside(T: Table, s: bytes, p: nat)
    ensures Inside(DecDsm(T, s, p), 0, |s|, Overrun(T, 1))
  {
    hide DecDsmHeader, DecKeyFields, DecDeltaFields, DecU16, Overrun;
    var h := DecDsmHeader(s, p);
    if h.Done? {
      var c := DecU16(s, h.pos);
      if c.Done? {
        KeyFieldsInside(T, s, c.pos, h.v.fieldEncoding, c.v);
        DeltasInside(T, s, c.pos, h.v.fieldEncoding, c.v);
      }
    }
  }

  lemma {:induction false} DsmsInside(T: Table, s: bytes, p: nat, n: nat)
    ensures Inside(DecDsms(T, s, p, n), p, |s|, Overrun(T, 1))
    decreases n
  {
    hide DecDsm, Overrun;
    if n > 0 {
      DsmInside(T, s, p);
      var r := DecDsm(T, s, p);
      if r.Done? {
        DsmsInside(T, s, r.pos, n - 1);
      }
    }
  }

  lemma {:induction false} PromotedFieldsInside(T: Table, s: bytes, p: nat, end: nat)
    ensures Inside(DecPromotedFields(T, s, p, end), p, |s|, Overrun(T, 1))
    decreases if p < end then end - p else 0
  {
    hide DecVariant, Overrun;
    VariantInside(T, s, p, 0);
    var r := DecVariant(T, s, p, 0);
    if r.Done? && r.pos < end {
      PromotedFieldsInside(T, s, r.pos, end);
    }
  }

  lemma PromotedInside(T: Table, s: bytes, p: nat, on: bool)
    ensures Inside(DecPromoted(T, s, p, on), p, |s|, Overrun(T, 1))
  {
    hide DecU16, DecPromotedFields, Overrun;
    var n := DecU16(s, p);
    if n.Done? {
      PromotedFieldsInside(T, s, n.pos, n.pos + n.v);
    }
  }

  lemma SecurityInside(s: bytes, p: nat, on: bool)
    ensures Inside(DecSecurity(s, p, on), p, |s|, 0)
  {
    hide DecU32, DecOctets, DecOpt16, Has;
  }

  lemma MiddleInside(T: Table, s: bytes, p: nat, f: Flags)
    ensures Inside(DecMiddle(T, s, p, f), p, |s|, Overrun(T, 1))
  {
    hide DecU64, DecU16, DecPromoted, DecSecurity, Has, Overrun;
    var r1 := DecOpt64(s, p, Has(f.b1, 5));
    if r1.Done? {
      var r2 := DecOpt16(s, r1.pos, Has(f.b1, 6));
      if r2.Done? {
        PromotedInside(T, s, r2.pos, Has(f.b2, 1));
        var r3 := DecPromoted(T, s, r2.pos, Has(f.b2, 1));
        if r3.Done? {
          SecurityInside(s, r3.pos, Has(f.b1, 4));
        }
      }
    }
  }

  lemma SizesInside(s: bytes, p: nat, h: Option<PayloadHeader>)
    ensures Inside(DecSizes(s, p, h), p, |s|, 0)
  {
    hide DecU16;
  }

  lemma TrailerInside(s: bytes, p: nat, h: Option<SecurityHead>)
    ensures Inside(DecTrailer(s, p, h), p, |s|, 0)
  {
    hide DecStr;
  }

  /** A decoded message ends at most four octets beyond the source, and inside it unless some type that the lookup
      finds is hollow. */
  lemma NmInside(T: Table, s: bytes, p: nat)
    ensures DecNm(T, s, p).Done? ==> p < DecNm(T, s, p).pos <= |s| + Overrun(T, 1)
  {
    hide DecHead, DecMiddle, DecSizes, DecDsms, DecTrailer, Overrun;
    var r1 := DecHead(s, p);
    if r1.Done? {
      MiddleInside(T, s, r1.pos, r1.v.flags);
      var r2 := DecMiddle(T, s, r1.pos, r1.v.flags);
      if r2.Done? {
        var h := r1.v.payloadHeader;
        SizesInside(s, r2.pos, h);
        var r3 := DecSizes(s, r2.pos, h);
        if r3.Done? {
          DsmsInside(T, s, r3.pos, HeaderCount(h));
          var r4 := DecDsms(T, s, r3.pos, HeaderCount(h));
          if r4.Done? {
            TrailerInside(s, r4.pos, r2.v.security);
          }
        }
      }
    }
  }

  /** A message that starts inside the source and ends beyond it. */
  ghost predicate NmOverruns(T: Table, s: bytes, p: nat) {
    DecNm(T, s, p).Done? && DecNm(T, s, p).pos > |s|
  }

  /** A message without headers whose one key-frame field is an ExtensionObject. */
  const BEFORE_FIELD: bytes := [0, 1, 1, 0, 22]

  lemma ShortBits()
    ensures forall k: nat {:trigger Has(0, k)} :: !Has(0, k)
    ensures !Has(1, 3) && !Has(1, 4) && !Has(1, 5) && !Has(1, 6) && !Has(1, 7) && !Has(22, 6) && !Has(22, 7)
  {
    hide Has;
    forall k: nat ensures !Has(0, k) { ZeroBits(k); }
    LowPow();
    assert Pow2(5) == 2 * Pow2(4);
    forall k: nat | k >= 3 ensures !Has(1, k) { HighBits(1, 3, k); }
    HighBits(22, 5, 6);
    HighBits(22, 5, 7);
  }

  lemma ShortHead(T: Table, s: bytes)
    requires |s| > 0 && s[0] == 0
    ensures DecHead(s, 0) == Done(Head(Flags(0, 0, 0), None, None, None, None), 1)
    ensures DecMiddle(T, s, 1, Flags(0, 0, 0)) == Done(Middle(None, None, None, None), 1)
  {
    hide Has;
    ShortBits();
  }

  lemma ShortDsmHeader(s: bytes)
    requires |s| > 1 && s[1] == 1
    ensures DecDsmHeader(s, 1) == Done(DataSetMessage(Has(1, 0), ENC_VARIANT, DATAKEYFRAME, None, None, None, None, None, None, NoData), 2)
  {
    hide Has;
    ShortBits();
  }

  lemma ShortCount(s: bytes)
    requires |s| > 3 && s[2] == 1 && s[3] == 0
    ensures DecU16(s, 2) == Done(1, 4)
  {
    assert s[2..4] == [1, 0];
    assert FromLE([1, 0]) == 1 + 256 * FromLE([0]) && FromLE([0]) == 0;
  }

  lemma ShortField(T: Table, s: bytes)
    requires |s| > 4 && s[4] == 22 && DecUnwrap(T, s, 5, 1).Done?
    ensures DecKeyFields(T, s, 4, ENC_VARIANT, 1).Done?
    ensures DecKeyFields(T, s, 4, ENC_VARIANT, 1).pos == DecUnwrap(T, s, 5, 1).pos
  {
    hide DecUnwrap, Has, DecKeyFields, Dec, DecArr;
    ShortBits();
    assert DecVariant(T, s, 4, 0) == DecUnwrap(T, s, 5, 1);
    OneField(T, s, 4);
  }

  lemma OneField(T: Table, s: bytes, p: nat)
    requires DecVariant(T, s, p, 0).Done?
    ensures DecKeyFields(T, s, p, ENC_VARIANT, 1).Done?
    ensures DecKeyFields(T, s, p, ENC_VARIANT, 1).pos == DecVariant(T, s, p, 0).pos
  {
    hide DecVariant;
    var q := DecVariant(T, s, p, 0).pos;
    assert DecKeyFields(T, s, q, ENC_VARIANT, 0) == Done([], q);
  }

  lemma ShortMessage(T: Table, s: bytes)
    requires |s| > 5 && s[..5] == BEFORE_FIELD && DecUnwrap(T, s, 5, 1).Done?
    ensures DecNm(T, s, 0).Done? && DecNm(T, s, 0).pos == DecUnwrap(T, s, 5, 1).pos
  {
    hide DecUnwrap, DecHead, DecMiddle, DecDsmHeader, DecKeyFields, DecU16;
    assert s[0] == s[..5][0] && s[1] == s[..5][1] && s[2] == s[..5][2] && s[3] == s[..5][3] && s[4] == s[..5][4];
    ShortHead(T, s);
    ShortDsmHeader(s);
    ShortCount(s);
    ShortField(T, s);
    var q := DecUnwrap(T, s, 5, 1).pos;
    assert DecDsm(T, s, 1).Done? && DecDsm(T, s, 1).pos == q;
    assert DecDsms(T, s, q, 0) == Done([], q);
    assert DecDsms(T, s, 1, 1).Done? && DecDsms(T, s, 1, 1).pos == q;
  }

  /** Message decoding stays inside the source exactly for the tables whose found types all have something to read one
      level deep. */
  lemma NmOverrunExact(T: Table)
    ensures HollowTable(T, 1) <==> exists s: bytes, p: nat :: NmOverruns(T, s, p)
  {
    hide DecNm, DecUnwrap, Dec, Hollow, EncNodeMasked;
    if HollowTable(T, 1) {
      var t: nat :| t < |T| && Found(T, t) && Hollow(T, t, 1);
      var s := BEFORE_FIELD + (EncNode(BinaryId(T[t])) + [1]);
      PastTheEnd(T, t, BEFORE_FIELD, 1);
      assert s[..5] == BEFORE_FIELD;
      ShortMessage(T, s);
      assert NmOverruns(T, s, 0);
    } else if exists s: bytes, p: nat :: NmOverruns(T, s, p) {
      var s: bytes, p: nat :| NmOverruns(T, s, p);
      NmInside(T, s, p);
    }
  }

  // ----- self-delimiting messages -----

  /** A message that decodes also decodes, to the same message and position, with anything appended. */
  lemma NmExtend(T: Table, s: bytes, x: bytes, p: nat)
    requires DecNm(T, s, p).Done?
    ensures DecNm(T, s + x, p) == DecNm(T, s, p)
  {
    hide DecNm;
    NmKept(T, s, s + x, p);
  }
}
