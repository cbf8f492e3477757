/** What the message decoder returns: which messages are typed, and which of them can be sent again. */
module NetworkReturned {
  import opened Bytes
  import opened Types
  import opened Wire
  import opened Parse
  import opened Returned
  import opened WireFormat
  import opened NetworkMessage
  import opened NetworkParse
  import opened NetworkFormat

  predicate FieldFits(T: Table, e: u8, f: DataValue)
    requires VariantTyped(T, f.value)
  {
    (e == 2 && !f.hasValue) || FitsVariant(T, f.value)
  }

  // ----- fields -----

  lemma KeyFieldReturned(T: Table, s: bytes, p: nat, e: u8)
    requires (e == 0 || e == 2) && DecKeyField(T, s, p, e).Done?
    ensures var f := DecKeyField(T, s, p, e).v;
      && (VariantTyped(T, f.value) <==> CleanVariant(T, f.value))
      && (VariantTyped(T, f.value) ==> (CanSend(T, e, f) <==> FieldFits(T, e, f)))
  {
    hide DecVariant, DecData, VariantTyped, CleanVariant, FitsVariant, VariantOk;
    KeyFieldRead(T, s, p, e);
    if e == 0 {
      VariantReturned(T, s, p, 0);
      if VariantTyped(T, DecVariant(T, s, p, 0).v) {
        VariantSendable(T, s, p, 0, 0);
      }
    } else {
      DataReturned(T, s, p, 0);
      if VariantTyped(T, DecData(T, s, p, 0).v.value) {
        DataSendable(T, s, p, 0, 0);
      }
    }
  }

  /** What a read field is: clean or not typed, and then fit or not sendable. */
  ghost predicate Judged(T: Table, e: u8, f: DataValue) {
    && (VariantTyped(T, f.value) <==> CleanVariant(T, f.value))
    && (VariantTyped(T, f.value) ==> (CanSend(T, e, f) <==> FieldFits(T, e, f)))
  }

  lemma {:induction false} KeyFieldsReturned(T: Table, s: bytes, p: nat, e: u8, n: nat)
    requires (e == 0 || e == 2) && DecKeyFields(T, s, p, e, n).Done?
    ensures var fs := DecKeyFields(T, s, p, e, n).v; |fs| == n && forall i | 0 <= i < n :: Judged(T, e, fs[i])
    decreases n
  {
    hide DecKeyField, VariantTyped, CleanVariant, FitsVariant, VariantOk, CanSend, FieldFits;
    if n > 0 {
      KeyFieldReturned(T, s, p, e);
      KeyFieldsReturned(T, s, DecKeyField(T, s, p, e).pos, e, n - 1);
    }
  }

  lemma {:induction false} DeltaFieldsReturned(T: Table, s: bytes, p: nat, e: u8, n: nat)
    requires (e == 0 || e == 2) && DecDeltaFields(T, s, p, e, n).Done?
    ensures var fs := DecDeltaFields(T, s, p, e, n).v; |fs| == n && forall i | 0 <= i < n :: Judged(T, e, fs[i].value)
    decreases n
  {
    hide DecKeyField, VariantTyped, CleanVariant, FitsVariant, VariantOk, CanSend, FieldFits, DecU16;
    if n > 0 {
      KeyFieldReturned(T, s, p + 2, e);
      DeltaFieldsReturned(T, s, DecDeltaField(T, s, p, e).pos, e, n - 1);
    }
  }

  // ----- DataSetMessages -----

  ghost predicate DsmClean(T: Table, x: DataSetMessage) {
    x.fieldEncoding == 0 || x.fieldEncoding == 2 ==>
      && (x.messageType == 0 && x.frame.KeyFrame? ==> forall i | 0 <= i < |x.frame.fields| :: CleanVariant(T, x.frame.fields[i].value))
      && (x.messageType == 1 && x.frame.DeltaFrame? ==> forall i | 0 <= i < |x.frame.deltas| :: CleanVariant(T, x.frame.deltas[i].value.value))
  }

  /** Raw data cannot be sent, and fields have to fit. */
  ghost predicate DsmFits(T: Table, x: DataSetMessage)
    requires DsmTyped(T, x)
  {
    && (x.messageType <= 1 ==> x.fieldEncoding != 1)
    && (x.fieldEncoding == 0 || x.fieldEncoding == 2 ==>
          && (x.messageType == 0 ==> forall i | 0 <= i < |x.frame.fields| :: FieldFits(T, x.fieldEncoding, x.frame.fields[i]))
          && (x.messageType == 1 ==> forall i | 0 <= i < |x.frame.deltas| :: FieldFits(T, x.fieldEncoding, x.frame.deltas[i].value)))
  }

  ghost predicate DsmJudged(T: Table, x: DataSetMessage) {
    && (DsmTyped(T, x) <==> DsmClean(T, x))
    && (DsmTyped(T, x) ==> (DsmOk(T, x) <==> DsmFits(T, x)))
  }

  lemma FrameReturned(T: Table, s: bytes, p: nat, x: DataSetMessage)
    requires DecFrame(T, s, p, x.messageType, x.fieldEncoding).Done?
    ensures DsmJudged(T, x.(frame := DecFrame(T, s, p, x.messageType, x.fieldEncoding).v))
  {
    hide DecKeyFields, DecDeltaFields, VariantTyped, CleanVariant, CanSend, FieldFits, DsmTyped, DsmOk, DecU16, DecFrame;
    var t, e := x.messageType, x.fieldEncoding;
    var y := x.(frame := DecFrame(T, s, p, t, e).v);
    FrameRead(T, s, p, t, e);
    if t <= 1 && e != 1 && p + 2 <= |s| && (e == 0 || e == 2) {
      if t == 0 {
        KeyFieldsReturned(T, s, p + 2, e, U16At(s, p));
      } else {
        DeltaFieldsReturned(T, s, p + 2, e, U16At(s, p));
      }
    }
    DsmTypedExact(T, y);
    if DsmTyped(T, y) {
      DsmSendable(T, y);
    }
  }

  lemma DsmReturned(T: Table, s: bytes, p: nat)
    requires DecDsm(T, s, p).Done?
    ensures DsmJudged(T, DecDsm(T, s, p).v)
  {
    hide DecFrame, DsmJudged, DecDsmHeader;
    var h := DecDsmHeader(s, p);
    FrameReturned(T, s, h.pos, h.v);
  }

  lemma {:induction false} DsmsReturned(T: Table, s: bytes, p: nat, n: nat)
    requires DecDsms(T, s, p, n).Done?
    ensures var xs := DecDsms(T, s, p, n).v; |xs| == n && forall i | 0 <= i < n :: DsmJudged(T, xs[i])
    decreases n
  {
    hide DecDsm, DsmJudged;
    if n > 0 {
      DsmReturned(T, s, p);
      DsmsReturned(T, s, DecDsm(T, s, p).pos, n - 1);
    }
  }

  // ----- promoted fields -----

  ghost predicate VariantJudged(T: Table, x: Variant) {
    && (VariantTyped(T, x) <==> CleanVariant(T, x))
    && (VariantTyped(T, x) ==> (VariantOk(T, x, 0) <==> FitsVariant(T, x)))
  }

  lemma {:induction false} PromotedFieldsReturned(T: Table, s: bytes, p: nat, end: nat)
    requires DecPromotedFields(T, s, p, end).Done?
    ensures var xs := DecPromotedFields(T, s, p, end).v; forall i | 0 <= i < |xs| :: VariantJudged(T, xs[i])
    decreases if p < end then end - p else 0
  {
    hide DecVariant, VariantTyped, CleanVariant, FitsVariant, VariantOk;
    var r := DecVariant(T, s, p, 0);
    VariantReturned(T, s, p, 0);
    if VariantTyped(T, r.v) {
      VariantSendable(T, s, p, 0, 0);
    }
    if r.pos < end {
      PromotedFieldsReturned(T, s, r.pos, end);
    }
  }

  lemma PromotedReturned(T: Table, s: bytes, p: nat, on: bool)
    requires DecPromoted(T, s, p, on).Done?
    ensures var x := DecPromoted(T, s, p, on).v;
      x.Some? ==> |x.value| < 0x1_0000 && forall i | 0 <= i < |x.value| :: VariantJudged(T, x.value[i])
  {
    hide DecPromotedFields, DecU16, VariantJudged;
    var r := DecU16(s, p);
    if on && r.v > 0 {
      PromotedFieldsReturned(T, s, r.pos, r.pos + r.v);
      PromotedCount(T, s, r.pos, r.pos + r.v);
    }
  }

  // ----- NetworkMessages -----

  lemma IdReturned(s: bytes, p: nat, on: bool, t: u8)
    requires DecPublisherId(s, p, on, t).Done? && DecPublisherId(s, p, on, t).v.Some?
    ensures var id := DecPublisherId(s, p, on, t).v.value; t <= 4 && IdTyped(t, id) && (id.IdString? ==> Short(id.s))
  {
    hide DecFixed, DecStr;
    StrSendable(s, p);
  }

  lemma SecurityReturned(s: bytes, p: nat, on: bool)
    requires DecSecurity(s, p, on).Done? && DecSecurity(s, p, on).v.Some?
    ensures |DecSecurity(s, p, on).v.value.nonce| < 256
  {
    hide Has, DecU32, DecOpt16;
  }

  lemma TrailerReturned(s: bytes, p: nat, h: Option<SecurityHead>)
    requires DecTrailer(s, p, h).Done?
    ensures var x := DecTrailer(s, p, h).v;
      && x.Some? == h.Some?
      && (x.Some? ==> x.value.nonce == h.value.nonce && (x.value.footer.Some? ==> |x.value.footer.value| <= 255)
                      && (x.value.signature.Some? ==> Short(x.value.signature.value)))
  {
    hide DecStr;
    if h.Some? {
      var x := h.value;
      var r := DecOctets(s, p, if x.footerSize.Some? then x.footerSize.value else 0);
      StrSendable(s, r.pos);
    }
  }

  ghost predicate NmClean(T: Table, m: NetworkMessage) {
    && (m.promoted.Some? ==> forall i | 0 <= i < |m.promoted.value| :: CleanVariant(T, m.promoted.value[i]))
    && (forall i | 0 <= i < |m.messages| :: DsmClean(T, m.messages[i]))
  }

  ghost predicate NmFits(T: Table, m: NetworkMessage)
    requires NmTyped(T, m)
  {
    && (m.promoted.Some? ==> forall i | 0 <= i < |m.promoted.value| :: FitsVariant(T, m.promoted.value[i]))
    && (forall i | 0 <= i < |m.messages| :: DsmFits(T, m.messages[i]))
  }

  /** Whatever was received: it is typed unless a copied Boolean is neither 0 nor 1, and it can be sent again exactly
      when no DataSetMessage is raw data and all fields and promoted fields fit. */
  lemma NmReturned(T: Table, s: bytes, p: nat)
    requires DecNm(T, s, p).Done?
    ensures var m := DecNm(T, s, p).v;
      && (NmTyped(T, m) <==> NmClean(T, m))
      && (NmTyped(T, m) ==> (NmOk(T, m) <==> NmFits(T, m)))
  {
    hide DecHead, DecMiddle, DecPayload, NmTyped, NmOk, DsmTyped, DsmClean, DsmFits, DsmOk, VariantTyped, CleanVariant, VariantOk, FitsVariant, Has,
         IdTyped;
    var m := DecNm(T, s, p).v;
    HeadReturned(s, p);
    var h := DecHead(s, p);
    MiddleReturned(T, s, h.pos, h.v.flags);
    var x := DecMiddle(T, s, h.pos, h.v.flags);
    PayloadReturned(T, s, x.pos, h.v.payloadHeader, x.v.security);
    TypedOnceCounted(T, m);
    if NmTyped(T, m) {
      NmSendable(T, m);
    }
  }

  lemma HeadReturned(s: bytes, p: nat)
    requires DecHead(s, p).Done?
    ensures var h := DecHead(s, p).v;
      && HeaderCount(h.payloadHeader) < 256 && h.payloadHeader != Some(NoWriterIds)
      && (h.publisherId.Some? ==> var t := h.flags.b1 % 8;
            t <= 4 && IdTyped(t, h.publisherId.value) && (h.publisherId.value.IdString? ==> Short(h.publisherId.value.s)))
  {
    hide DecFlags, DecPublisherId, DecClassId, DecGroup, DecPayloadHeader, Has, IdTyped, Short;
    var f := DecFlags(s, p);
    if DecPublisherId(s, f.pos, Has(f.v.b0, 4), f.v.b1 % 8).v.Some? {
      IdReturned(s, f.pos, Has(f.v.b0, 4), f.v.b1 % 8);
    }
  }

  lemma MiddleReturned(T: Table, s: bytes, p: nat, f: Flags)
    requires DecMiddle(T, s, p, f).Done?
    ensures var x := DecMiddle(T, s, p, f).v;
      && (x.promoted.Some? ==> |x.promoted.value| < 0x1_0000 && forall i | 0 <= i < |x.promoted.value| :: VariantJudged(T, x.promoted.value[i]))
      && (x.security.Some? ==> |x.security.value.nonce| < 256)
  {
    hide DecOpt64, DecOpt16, DecPromoted, DecSecurity, Has, VariantJudged;
    var r1 := DecOpt64(s, p, Has(f.b1, 5));
    var r2 := DecOpt16(s, r1.pos, Has(f.b1, 6));
    PromotedReturned(T, s, r2.pos, Has(f.b2, 1));
    var r3 := DecPromoted(T, s, r2.pos, Has(f.b2, 1));
    if DecSecurity(s, r3.pos, Has(f.b1, 4)).v.Some? {
      SecurityReturned(s, r3.pos, Has(f.b1, 4));
    }
  }

  lemma PayloadReturned(T: Table, s: bytes, p: nat, h: Option<PayloadHeader>, x: Option<SecurityHead>)
    requires DecPayload(T, s, p, h, x).Done?
    ensures var y := DecPayload(T, s, p, h, x).v;
      && |y.messages| == HeaderCount(h) && (forall i | 0 <= i < |y.messages| :: DsmJudged(T, y.messages[i]))
      && (y.sizes.Some? ==> |y.sizes.value| == HeaderCount(h))
      && y.security.Some? == x.Some?
      && (y.security.Some? ==> y.security.value.nonce == x.value.nonce)
      && (y.security.Some? && y.security.value.footer.Some? ==> |y.security.value.footer.value| <= 255)
      && (y.security.Some? && y.security.value.signature.Some? ==> Short(y.security.value.signature.value))
  {
    hide DecU16s, DecDsms, DecTrailer, DsmJudged, Short;
    var r1 := DecSizes(s, p, h);
    DsmsReturned(T, s, r1.pos, HeaderCount(h));
    var r2 := DecDsms(T, s, r1.pos, HeaderCount(h));
    TrailerReturned(s, r2.pos, x);
  }

  /** Once the counts are right, a message is typed when its Variants are. */
  lemma TypedOnceCounted(T: Table, m: NetworkMessage)
    requires MessageCount(m) < 256 && |m.messages| == MessageCount(m) && (m.sizes.Some? ==> |m.sizes.value| == MessageCount(m))
    requires m.publisherId.Some? ==> IdTyped(m.publisherIdType, m.publisherId.value)
    requires m.promoted.Some? ==> |m.promoted.value| < 0x1_0000
    requires m.security.Some? ==> |m.security.value.nonce| < 256
    requires m.security.Some? && m.security.value.footer.Some? ==> |m.security.value.footer.value| < 0x1_0000
    ensures NmTyped(T, m) <==>
      && (m.promoted.Some? ==> forall i | 0 <= i < |m.promoted.value| :: VariantTyped(T, m.promoted.value[i]))
      && (forall i | 0 <= i < |m.messages| :: DsmTyped(T, m.messages[i]))
  {
    hide DsmTyped, VariantTyped, IdTyped;
  }
}
