/** Which prefixes of an encoded NetworkMessage decode. */
module NetworkPrefixes {
  import opened Bytes
  import opened Types
  import opened Wire
  import opened Parse
  import opened Survival
  import opened Faithful
  import opened Framing
  import opened Prefixes
  import opened NetworkMessage
  import opened NetworkParse
  import opened NetworkFaithful
  import opened NetworkFraming

  // ----- how a message ends -----

  function KeyFieldEnd(T: Table, encoding: u8, f: DataValue): Ending {
    if encoding == ENC_VARIANT then VariantEnd(T, f.value) else DataEnd(T, f)
  }

  function KeyFieldsEnd(T: Table, encoding: u8, fs: seq<DataValue>): Ending {
    if fs == [] then Nothing else Then(KeyFieldEnd(T, encoding, fs[0]), KeyFieldsEnd(T, encoding, fs[1..]))
  }

  function DeltasEnd(T: Table, encoding: u8, fs: seq<DeltaField>): Ending {
    if fs == [] then Nothing else Then(Then(Read, KeyFieldEnd(T, encoding, fs[0].value)), DeltasEnd(T, encoding, fs[1..]))
  }

  function FrameEnd(T: Table, x: DataSetMessage): Ending {
    if (x.messageType != DATAKEYFRAME && x.messageType != DATADELTAFRAME) || x.fieldEncoding == ENC_RAWDATA then Nothing
    else
      match x.frame
      case KeyFrame(fs) => Then(Read, KeyFieldsEnd(T, x.fieldEncoding, fs))
      case DeltaFrame(fs) => Then(Read, DeltasEnd(T, x.fieldEncoding, fs))
      case BareCount(_) => Read
      case NoData => Nothing
  }

  function DsmEnd(T: Table, x: DataSetMessage): Ending {
    Then(Read, FrameEnd(T, x))
  }

  function DsmsEnd(T: Table, xs: seq<DataSetMessage>): Ending {
    if xs == [] then Nothing else Then(DsmEnd(T, xs[0]), DsmsEnd(T, xs[1..]))
  }

  function VariantsEnd(T: Table, xs: seq<Variant>): Ending {
    if xs == [] then Nothing else Then(VariantEnd(T, xs[0]), VariantsEnd(T, xs[1..]))
  }

  function PromotedEnd(T: Table, m: NetworkMessage): Ending {
    if m.promoted.Some? then Then(Read, VariantsEnd(T, m.promoted.value)) else Nothing
  }

  function MiddleEnd(T: Table, m: NetworkMessage): Ending
    requires m.security.Some? ==> |m.security.value.nonce| < 256
  {
    Then(Then(Then(PartEnd(OptLE(m.timestamp, 8)), PartEnd(OptLE(m.picoseconds, 2))), PromotedEnd(T, m)), PartEnd(EncSecurity(m)))
  }

  function PayloadEnd(T: Table, m: NetworkMessage): Ending
    requires NmTyped(T, m)
  {
    Then(Then(PartEnd(EncSizes(T, m)), DsmsEnd(T, m.messages)), PartEnd(EncTrailer(m)))
  }

  function NmEnd(T: Table, m: NetworkMessage): Ending
    requires NmTyped(T, m)
  {
    Then(Then(Read, MiddleEnd(T, m)), PayloadEnd(T, m))
  }

  // ----- parts that are read to their end -----

  lemma Opt64Cut(s: bytes, p: nat, x: Option<u64>)
    requires Agrees(s, p, OptLE(x, 8))
    ensures var n := |OptLE(x, 8)|; DecOpt64(s, p, x.Some?) == Result(Allows(PartEnd(OptLE(x, 8)), |s| - p - n), x, p + n)
  {
    hide At, LE, DecU64;
    if x.Some? {
      var z := Completed(s, p, OptLE(x, 8));
      Opt64At(z, p, x);
      OptsKept(s, z, p, true);
    }
  }

  lemma Opt16Cut(s: bytes, p: nat, x: Option<u16>)
    requires Agrees(s, p, OptLE(x, 2))
    ensures var n := |OptLE(x, 2)|; DecOpt16(s, p, x.Some?) == Result(Allows(PartEnd(OptLE(x, 2)), |s| - p - n), x, p + n)
  {
    hide At, LE, DecU16;
    if x.Some? {
      var z := Completed(s, p, OptLE(x, 2));
      Opt16At(z, p, x);
      OptsKept(s, z, p, true);
    }
  }

  lemma U16Cut(s: bytes, p: nat, n: u16)
    requires Agrees(s, p, LE(n, 2))
    ensures DecU16(s, p) == Result(p + 2 <= |s|, n, p + 2)
  {
    hide LE, DecFixed;
    Pow256Values();
    var z := Completed(s, p, LE(n, 2));
    if p + 2 <= |s| {
      FixedAt(s, p, n, 2);
    }
  }

  lemma DsmHeaderCut(s: bytes, p: nat, x: DataSetMessage)
    requires Agrees(s, p, DsmHeader(x)) && x.fieldEncoding < 4 && x.messageType < 16
    ensures DecDsmHeader(s, p) == Result(p + |DsmHeader(x)| <= |s|, x.(frame := NoData), p + |DsmHeader(x)|)
  {
    hide At, DsmHeader, DecDsmHeader;
    var z := Completed(s, p, DsmHeader(x));
    DsmHeaderAt(z, p, x);
    DsmHeaderKept(s, z, p);
  }

  lemma HeadCut(s: bytes, p: nat, m: NetworkMessage) returns (f: Flags)
    requires (m.publisherId.Some? ==> IdTyped(m.publisherIdType, m.publisherId.value)) && HeadOk(m) && MessageCount(m) < 256
    requires m.version < 16 && m.publisherIdType < 8 && m.messageType == DATASET && Agrees(s, p, EncHead(m))
    ensures Announces(f, m)
    ensures DecHead(s, p) == Result(p + |EncHead(m)| <= |s|, Head(f, m.publisherId, m.dataSetClassId, m.groupHeader, m.payloadHeader),
                                    p + |EncHead(m)|)
  {
    hide At, EncHead, DecHead, HeadOk, IdTyped, Announces;
    var z := Completed(s, p, EncHead(m));
    HeadAt(z, p, m);
    HeadKept(s, z, p);
    f := DecHead(z, p).v.flags;
  }

  lemma SecurityCut(s: bytes, p: nat, m: NetworkMessage)
    requires m.security.Some? ==>
      |m.security.value.nonce| < 256 && (m.security.value.footer.Some? ==> |m.security.value.footer.value| < 0x1_0000)
    requires Agrees(s, p, EncSecurity(m))
    ensures var n := |EncSecurity(m)|;
            DecSecurity(s, p, m.security.Some?) == Result(Allows(PartEnd(EncSecurity(m)), |s| - p - n), SecurityHeadOf(m), p + n)
  {
    hide At, DecSecurity, LE, Mark;
    if m.security.None? {
      NoSecurity(s, p);
    } else {
      var z := Completed(s, p, EncSecurity(m));
      SecurityAt(z, p, m);
      SecurityKept(s, z, p, true);
      SecurityInside(s, p, true);
      PartCut(DecSecurity(s, p, true), DecSecurity(z, p, true), SecurityHeadOf(m), p, EncSecurity(m), |s|);
    }
  }

  lemma SizesCut(T: Table, m: NetworkMessage, s: bytes, p: nat)
    requires NmTyped(T, m) && HeadOk(m) && Agrees(s, p, EncSizes(T, m))
    ensures var n := |EncSizes(T, m)|;
            DecSizes(s, p, m.payloadHeader) ==
            Result(Allows(PartEnd(EncSizes(T, m)), |s| - p - n), CanonNm(T, m).sizes, p + n)
  {
    hide At, DecU16s, EncU16s, SentSizes, CanonDsms, CanonVariants, DsmsAre, VariantsAre, IdTyped;
    if m.payloadHeader.Some? && MessageCount(m) > 1 {
      var z := Completed(s, p, EncSizes(T, m));
      SizesAt(T, m, z, p);
      U16sKept(s, z, p, HeaderCount(m.payloadHeader));
      SizesInside(s, p, m.payloadHeader);
      PartCut(DecSizes(s, p, m.payloadHeader), DecSizes(z, p, m.payloadHeader), CanonNm(T, m).sizes, p, EncSizes(T, m), |s|);
    }
  }

  lemma TrailerCut(m: NetworkMessage, s: bytes, p: nat)
    requires TrailerOk(m) && Agrees(s, p, EncTrailer(m))
    ensures var n := |EncTrailer(m)|;
            DecTrailer(s, p, SecurityHeadOf(m)) == Result(Allows(PartEnd(EncTrailer(m)), |s| - p - n), m.security, p + n)
  {
    hide At, DecTrailer, EncTrailer;
    var z := Completed(s, p, EncTrailer(m));
    TrailerAt(m, z, p);
    TrailerKept(s, z, p, SecurityHeadOf(m));
    TrailerInside(s, p, SecurityHeadOf(m));
    if EncTrailer(m) == [] {
      NoTrailer(m, s, p);
    }
    PartCut(DecTrailer(s, p, SecurityHeadOf(m)), DecTrailer(z, p, SecurityHeadOf(m)), m.security, p, EncTrailer(m), |s|);
  }

  lemma NoTrailer(m: NetworkMessage, s: bytes, p: nat)
    requires TrailerOk(m) && EncTrailer(m) == []
    ensures DecTrailer(s, p, SecurityHeadOf(m)).Done?
  {
    hide LE;
  }

  // ----- DataSetMessages -----

  lemma KeyFieldCut(T: Table, encoding: u8, f: DataValue, s: bytes, p: nat, w: int)
    requires VariantTyped(T, f.value) && KeyFieldOk(T, encoding, f) && KeyFieldSurvives(T, encoding, f, w)
    requires Agrees(s, p, EncKeyField(T, encoding, f))
    ensures var n := |EncKeyField(T, encoding, f)|;
            var r := |s| - p - n;
            && DecKeyField(T, s, p, encoding) ==
               Result(KeyFieldSurvives(T, encoding, f, r) && Allows(KeyFieldEnd(T, encoding, f), r), CanonField(T, encoding, f), p + n)
            && Shaped(KeyFieldEnd(T, encoding, f), n)
  {
    hide Agrees, EncVariant, EncData, DecVariant, DecData, VariantSurvives, DataSurvives, NormVariant, NormData, VariantOk, VariantEnd,
         DataEnd, Allows;
    if encoding == ENC_VARIANT {
      VariantCut(T, f.value, 0, s, p, 0, w);
    } else {
      DataCut(T, f, 0, s, p, 0, w);
    }
  }

  lemma {:induction false} KeyFieldsCut(T: Table, encoding: u8, fs: seq<DataValue>, s: bytes, p: nat, w: int)
    requires FieldsAre(T, fs) && KeyFieldsOk(T, encoding, fs) && KeyFieldsSurvive(T, encoding, fs, w)
    requires Agrees(s, p, EncKeyFields(T, encoding, fs))
    ensures var n := |EncKeyFields(T, encoding, fs)|;
            var r := |s| - p - n;
            && DecKeyFields(T, s, p, encoding, |fs|) ==
               Result(KeyFieldsSurvive(T, encoding, fs, r) && Allows(KeyFieldsEnd(T, encoding, fs), r), CanonFields(T, encoding, fs), p + n)
            && Shaped(KeyFieldsEnd(T, encoding, fs), n)
  {
    hide Agrees, EncKeyField, DecKeyField, CanonField, KeyFieldSurvives, KeyFieldOk, KeyFieldEnd, Allows, Then;
    if fs == [] {
      ReadAllows(|s| - p);
    } else {
      var a, tail := EncKeyField(T, encoding, fs[0]), EncKeyFields(T, encoding, fs[1..]);
      var q := p + |EncKeyFields(T, encoding, fs)|;
      var r := |s| - q;
      AgreesSplit(s, p, a, tail);
      KeyFieldCut(T, encoding, fs[0], s, p, w + |tail|);
      KeyFieldsCut(T, encoding, fs[1..], s, p + |a|, w);
      var end, rest := KeyFieldEnd(T, encoding, fs[0]), KeyFieldsEnd(T, encoding, fs[1..]);
      ThenAllows(end, rest, |tail|, r);
      ShapedThen(end, |a|, rest, |tail|);
      var r1 := DecKeyField(T, s, p, encoding);
      ConsResult(KeyFieldSurvives(T, encoding, fs[0], |tail| + r) && Allows(end, |tail| + r), r1, CanonField(T, encoding, fs[0]), p + |a|,
                 KeyFieldsSurvive(T, encoding, fs[1..], r) && Allows(rest, r),
                 if r1.Fail? then Fail else DecKeyFields(T, s, r1.pos, encoding, |fs| - 1),
                 CanonFields(T, encoding, fs[1..]), q, DecKeyFields(T, s, p, encoding, |fs|));
    }
  }

  lemma DeltaCut(T: Table, encoding: u8, f: DeltaField, s: bytes, p: nat, w: int)
    requires VariantTyped(T, f.value.value) && KeyFieldOk(T, encoding, f.value) && KeyFieldSurvives(T, encoding, f.value, w)
    requires Agrees(s, p, EncDeltaField(T, encoding, f))
    ensures var n := |EncDeltaField(T, encoding, f)|;
            var r := |s| - p - n;
            && DecDeltaField(T, s, p, encoding) ==
               Result(KeyFieldSurvives(T, encoding, f.value, r) && Allows(Then(Read, KeyFieldEnd(T, encoding, f.value)), r),
                      DeltaField(f.index, CanonField(T, encoding, f.value)), p + n)
            && Shaped(Then(Read, KeyFieldEnd(T, encoding, f.value)), n)
  {
    hide Agrees, EncKeyField, DecKeyField, CanonField, KeyFieldSurvives, KeyFieldOk, LE, DecU16, KeyFieldEnd, Allows;
    var a, b := LE(f.index, 2), EncKeyField(T, encoding, f.value);
    var r := |s| - p - |a| - |b|;
    AgreesSplit(s, p, a, b);
    U16Cut(s, p, f.index);
    KeyFieldCut(T, encoding, f.value, s, p + 2, w);
    ThenAllows(Read, KeyFieldEnd(T, encoding, f.value), |b|, r);
    ReadAllows(r + |b|);
  }

  lemma {:induction false} DeltasCut(T: Table, encoding: u8, fs: seq<DeltaField>, s: bytes, p: nat, w: int)
    requires DeltasAre(T, fs) && DeltaFieldsOk(T, encoding, fs) && DeltasSurvive(T, encoding, fs, w)
    requires Agrees(s, p, EncDeltaFields(T, encoding, fs))
    ensures var n := |EncDeltaFields(T, encoding, fs)|;
            var r := |s| - p - n;
            && DecDeltaFields(T, s, p, encoding, |fs|) ==
               Result(DeltasSurvive(T, encoding, fs, r) && Allows(DeltasEnd(T, encoding, fs), r), CanonDeltas(T, encoding, fs), p + n)
            && Shaped(DeltasEnd(T, encoding, fs), n)
  {
    hide Agrees, EncDeltaField, DecDeltaField, CanonField, KeyFieldSurvives, KeyFieldOk, KeyFieldEnd, Allows, Then;
    if fs == [] {
      ReadAllows(|s| - p);
    } else {
      var a, tail := EncDeltaField(T, encoding, fs[0]), EncDeltaFields(T, encoding, fs[1..]);
      var q := p + |EncDeltaFields(T, encoding, fs)|;
      var r := |s| - q;
      AgreesSplit(s, p, a, tail);
      DeltaCut(T, encoding, fs[0], s, p, w + |tail|);
      DeltasCut(T, encoding, fs[1..], s, p + |a|, w);
      var end, rest := Then(Read, KeyFieldEnd(T, encoding, fs[0].value)), DeltasEnd(T, encoding, fs[1..]);
      ThenAllows(end, rest, |tail|, r);
      ShapedThen(end, |a|, rest, |tail|);
      var r1 := DecDeltaField(T, s, p, encoding);
      ConsResult(KeyFieldSurvives(T, encoding, fs[0].value, |tail| + r) && Allows(end, |tail| + r), r1,
                 DeltaField(fs[0].index, CanonField(T, encoding, fs[0].value)), p + |a|,
                 DeltasSurvive(T, encoding, fs[1..], r) && Allows(rest, r),
                 if r1.Fail? then Fail else DecDeltaFields(T, s, r1.pos, encoding, |fs| - 1),
                 CanonDeltas(T, encoding, fs[1..]), q, DecDeltaFields(T, s, p, encoding, |fs|));
    }
  }

  lemma FrameCut(T: Table, x: DataSetMessage, s: bytes, p: nat, w: int)
    requires DsmTyped(T, x) && DsmOk(T, x) && FrameSurvives(T, x, w) && Agrees(s, p, EncFrame(T, x))
    ensures var n := |EncFrame(T, x)|;
            var r := |s| - p - n;
            && DecFrame(T, s, p, x.messageType, x.fieldEncoding) ==
               Result(FrameSurvives(T, x, r) && Allows(FrameEnd(T, x), r), CanonFrame(T, x), p + n)
            && Shaped(FrameEnd(T, x), n)
  {
    hide Agrees, EncKeyFields, EncDeltaFields, DecKeyFields, DecDeltaFields, CanonFields, CanonDeltas, KeyFieldsSurvive, Allows,
         DeltasSurvive, KeyFieldsOk, DeltaFieldsOk, LE, DecU16, FieldsAre, DeltasAre, KeyFieldsEnd, DeltasEnd;
    var r := |s| - p - |EncFrame(T, x)|;
    ReadAllows(r);
    if x.messageType == KEEPALIVE {
      return;
    }
    match x.frame
    case KeyFrame(fs) =>
      var b := EncKeyFields(T, x.fieldEncoding, fs);
      AgreesSplit(s, p, LE(|fs|, 2), b);
      U16Cut(s, p, |fs|);
      KeyFieldsCut(T, x.fieldEncoding, fs, s, p + 2, w);
      ThenAllows(Read, KeyFieldsEnd(T, x.fieldEncoding, fs), |b|, r);
      ReadAllows(r + |b|);
    case DeltaFrame(fs) =>
      var b := EncDeltaFields(T, x.fieldEncoding, fs);
      AgreesSplit(s, p, LE(|fs|, 2), b);
      U16Cut(s, p, |fs|);
      DeltasCut(T, x.fieldEncoding, fs, s, p + 2, w);
      ThenAllows(Read, DeltasEnd(T, x.fieldEncoding, fs), |b|, r);
      ReadAllows(r + |b|);
    case BareCount(n) => U16Cut(s, p, n);
  }

  lemma DsmCut(T: Table, x: DataSetMessage, s: bytes, p: nat, w: int)
    requires DsmTyped(T, x) && DsmOk(T, x) && DsmSurvives(T, x, w) && Agrees(s, p, EncDsm(T, x))
    ensures var n := |EncDsm(T, x)|;
            var r := |s| - p - n;
            && DecDsm(T, s, p) == Result(DsmSurvives(T, x, r) && Allows(DsmEnd(T, x), r), CanonDsm(T, x), p + n)
            && Shaped(DsmEnd(T, x), n)
  {
    hide Agrees, DsmHeader, EncFrame, DecFrame, FrameSurvives, DecDsmHeader, CanonFrame, FrameEnd, Allows;
    var a, b := DsmHeader(x), EncFrame(T, x);
    var r := |s| - p - |a| - |b|;
    AgreesSplit(s, p, a, b);
    assert x.messageType < 16;
    DsmHeaderCut(s, p, x);
    FrameCut(T, x, s, p + |a|, w);
    ThenAllows(Read, FrameEnd(T, x), |b|, r);
    ReadAllows(r + |b|);
  }

  lemma {:induction false} DsmsCut(T: Table, xs: seq<DataSetMessage>, s: bytes, p: nat, w: int)
    requires DsmsAre(T, xs) && DsmsOk(T, xs) && DsmsSurvive(T, xs, w) && Agrees(s, p, EncDsms(T, xs))
    ensures var n := |EncDsms(T, xs)|;
            var r := |s| - p - n;
            && DecDsms(T, s, p, |xs|) == Result(DsmsSurvive(T, xs, r) && Allows(DsmsEnd(T, xs), r), CanonDsms(T, xs), p + n)
            && Shaped(DsmsEnd(T, xs), n)
  {
    hide Agrees, EncDsm, DecDsm, CanonDsm, DsmSurvives, DsmOk, DsmTyped, DsmEnd, Allows, Then;
    if xs == [] {
      ReadAllows(|s| - p);
    } else {
      var a, tail := EncDsm(T, xs[0]), EncDsms(T, xs[1..]);
      var q := p + |EncDsms(T, xs)|;
      var r := |s| - q;
      AgreesSplit(s, p, a, tail);
      DsmCut(T, xs[0], s, p, w + |tail|);
      DsmsCut(T, xs[1..], s, p + |a|, w);
      var end, rest := DsmEnd(T, xs[0]), DsmsEnd(T, xs[1..]);
      ThenAllows(end, rest, |tail|, r);
      ShapedThen(end, |a|, rest, |tail|);
      var r1 := DecDsm(T, s, p);
      ConsResult(DsmSurvives(T, xs[0], |tail| + r) && Allows(end, |tail| + r), r1, CanonDsm(T, xs[0]), p + |a|,
                 DsmsSurvive(T, xs[1..], r) && Allows(rest, r),
                 if r1.Fail? then Fail else DecDsms(T, s, r1.pos, |xs| - 1),
                 CanonDsms(T, xs[1..]), q, DecDsms(T, s, p, |xs|));
    }
  }

  // ----- promoted fields -----

  lemma PromotedStep(T: Table, s: bytes, p: nat, end: nat, ok1: bool, v1: Variant, q1: nat, ok2: bool, v2: seq<Variant>, q2: nat)
    requires DecVariant(T, s, p, 0) == Result(ok1, v1, q1)
    requires if q1 < end then p < q1 && DecPromotedFields(T, s, q1, end) == Result(ok2, v2, q2) else ok2 && v2 == [] && q2 == q1
    ensures DecPromotedFields(T, s, p, end) == Result(ok1 && ok2, [v1] + v2, q2)
  {
    hide DecVariant;
    if q1 >= end {
      assert [v1] + v2 == [v1];
    }
  }

  lemma {:induction false} PromotedFieldsCut(T: Table, xs: seq<Variant>, s: bytes, p: nat, budget: nat, w: int)
    requires VariantsAre(T, xs) && VariantsOk(T, xs) && xs != [] && budget > 0 && PromotedFit(T, xs, budget, w)
    requires Agrees(s, p, EncVariants(T, xs))
    ensures var n := |EncVariants(T, xs)|;
            var r := |s| - p - n;
            && DecPromotedFields(T, s, p, p + budget) ==
               Result(PromotedFit(T, xs, budget, r) && Allows(VariantsEnd(T, xs), r), CanonVariants(T, xs), p + n)
            && Shaped(VariantsEnd(T, xs), n)
    decreases xs
  {
    hide Agrees, EncVariant, DecVariant, NormVariant, VariantSurvives, VariantOk, VariantEnd, Allows, Then, Shaped, DecPromotedFields;
    var a, tail := EncVariant(T, xs[0]), EncVariants(T, xs[1..]);
    var q := p + |EncVariants(T, xs)|;
    var r := |s| - q;
    AgreesSplit(s, p, a, tail);
    VariantCut(T, xs[0], 0, s, p, 0, w + |tail|);
    var end, rest := VariantEnd(T, xs[0]), VariantsEnd(T, xs[1..]);
    var ok1 := VariantSurvives(T, xs[0], |tail| + r, 0) && Allows(end, |tail| + r);
    if |xs| == 1 {
      assert xs[1..] == [];
      NoVariants(T);
      NoVariantsEnd(T);
      ReadAllows(r);
      NothingShaped();
      PromotedStep(T, s, p, p + budget, ok1, NormVariant(T, xs[0]), p + |a|, true, [], p + |a|);
    } else {
      SomeOctets(T, xs[0]);
      PromotedFieldsCut(T, xs[1..], s, p + |a|, budget - |a|, w);
      PromotedStep(T, s, p, p + budget, ok1, NormVariant(T, xs[0]), p + |a|,
                   PromotedFit(T, xs[1..], budget - |a|, r) && Allows(rest, r), CanonVariants(T, xs[1..]), q);
    }
    ThenAllows(end, rest, |tail|, r);
    ShapedThen(end, |a|, rest, |tail|);
  }

  lemma SomeOctets(T: Table, x: Variant)
    requires VariantTyped(T, x)
    ensures |EncVariant(T, x)| > 0
  {
  }

  lemma PromotedCut(T: Table, m: NetworkMessage, s: bytes, p: nat, w: int)
    requires m.promoted.Some? ==>
      VariantsAre(T, m.promoted.value) && VariantsOk(T, m.promoted.value) && PromotedSurvive(T, m.promoted.value, w)
    requires Agrees(s, p, EncPromoted(T, m))
    ensures var n := |EncPromoted(T, m)|;
            var r := |s| - p - n;
            && DecPromoted(T, s, p, m.promoted.Some?) ==
               Result((m.promoted.Some? ==> PromotedSurvive(T, m.promoted.value, r)) && Allows(PromotedEnd(T, m), r),
                      if m.promoted.Some? then Some(CanonVariants(T, m.promoted.value)) else None, p + n)
            && Shaped(PromotedEnd(T, m), n)
  {
    hide Agrees, LE, EncVariants, VariantsSize, DecU16, DecPromotedFields, CanonVariants, PromotedFit, VariantsAre, VariantsOk, VariantsEnd,
         Allows;
    ReadAllows(|s| - p);
    if m.promoted.Some? {
      var xs := m.promoted.value;
      var b := EncVariants(T, xs);
      var r := |s| - p - 2 - |b|;
      AgreesSplit(s, p, LE(PromotedLength(T, xs), 2), b);
      U16Cut(s, p, PromotedLength(T, xs));
      ReadAllows(r + |b|);
      if xs == [] {
        NoVariants(T);
        assert VariantsEnd(T, xs) == Nothing by { NoVariantsEnd(T); }
      } else {
        PromotedFieldsCut(T, xs, s, p + 2, PromotedLength(T, xs), w);
        ThenAllows(Read, VariantsEnd(T, xs), |b|, r);
      }
    }
  }

  lemma NoVariantsEnd(T: Table)
    ensures VariantsEnd(T, []) == Nothing
  {
  }

  // ----- messages -----

  lemma FourEnds(a: Ending, i: nat, b: Ending, j: nat, c: Ending, k: nat, d: Ending, l: nat, r: int)
    requires Shaped(a, i) && Shaped(b, j) && Shaped(c, k) && Shaped(d, l)
    ensures var e := Then(Then(Then(a, b), c), d);
            && Shaped(e, i + j + k + l)
            && (Allows(e, r) <==> Allows(a, r + l + k + j) && Allows(b, r + l + k) && Allows(c, r + l) && Allows(d, r))
  {
    hide Allows, Shaped, Then;
    ShapedThen(a, i, b, j);
    ShapedThen(Then(a, b), i + j, c, k);
    ShapedThen(Then(Then(a, b), c), i + j + k, d, l);
    ThenAllows(Then(Then(a, b), c), d, l, r);
    ThenAllows(Then(a, b), c, k, r + l);
    ThenAllows(a, b, j, r + l + k);
  }

  lemma MiddleChain(T: Table, s: bytes, p: nat, f: Flags, ok1: bool, timestamp: Option<u64>, p1: nat, ok2: bool, pico: Option<u16>, p2: nat,
                    ok3: bool, promoted: Option<seq<Variant>>, p3: nat, ok4: bool, security: Option<SecurityHead>, p4: nat)
    requires DecOpt64(s, p, Has(f.b1, 5)) == Result(ok1, timestamp, p1) && DecOpt16(s, p1, Has(f.b1, 6)) == Result(ok2, pico, p2)
    requires DecPromoted(T, s, p2, Has(f.b2, 1)) == Result(ok3, promoted, p3)
    requires DecSecurity(s, p3, Has(f.b1, 4)) == Result(ok4, security, p4)
    ensures DecMiddle(T, s, p, f) == Result(ok1 && ok2 && ok3 && ok4, Middle(timestamp, pico, promoted, security), p4)
  {
    hide DecOpt64, DecOpt16, DecPromoted, DecSecurity, Has;
  }

  lemma MiddleParts(T: Table, m: NetworkMessage)
    requires NmTyped(T, m) && NmOk(T, m)
    ensures m.promoted.Some? ==> VariantsAre(T, m.promoted.value) && VariantsOk(T, m.promoted.value)
    ensures m.security.Some? ==>
      |m.security.value.nonce| < 256 && (m.security.value.footer.Some? ==> |m.security.value.footer.value| < 0x1_0000)
    ensures CanonNm(T, m).promoted == if m.promoted.Some? then Some(CanonVariants(T, m.promoted.value)) else None
  {
    hide CanonVariants, CanonDsms, SentSizes, VariantsAre, VariantsOk, DsmsAre, DsmsOk;
  }

  lemma MiddleCut(T: Table, m: NetworkMessage, s: bytes, p: nat, f: Flags, w: int)
    requires NmTyped(T, m) && NmOk(T, m) && Announces(f, m) && Agrees(s, p, EncMiddle(T, m))
    requires m.promoted.Some? ==> PromotedSurvive(T, m.promoted.value, |EncSecurity(m)| + w)
    ensures var n := |EncMiddle(T, m)|;
            var r := |s| - p - n;
            && DecMiddle(T, s, p, f) ==
               Result((m.promoted.Some? ==> PromotedSurvive(T, m.promoted.value, |EncSecurity(m)| + r)) && Allows(MiddleEnd(T, m), r),
                      Middle(m.timestamp, m.picoseconds, CanonNm(T, m).promoted, SecurityHeadOf(m)), p + n)
            && Shaped(MiddleEnd(T, m), n)
  {
    hide Agrees, Has, OptLE, EncPromoted, EncSecurity, DecOpt64, DecOpt16, DecPromoted, DecSecurity, DecMiddle, PromotedSurvive, PromotedEnd,
         CanonNm, CanonVariants, NmTyped, NmOk, VariantsOk, VariantsAre, Allows, Then;
    MiddleParts(T, m);
    var a, b, c, x := OptLE(m.timestamp, 8), OptLE(m.picoseconds, 2), EncPromoted(T, m), EncSecurity(m);
    var r := |s| - p - |EncMiddle(T, m)|;
    AgreesSplit(s, p, a + b + c, x);
    AgreesSplit(s, p, a + b, c);
    AgreesSplit(s, p, a, b);
    Opt64Cut(s, p, m.timestamp);
    Opt16Cut(s, p + |a|, m.picoseconds);
    PromotedCut(T, m, s, p + |a + b|, |x| + w);
    SecurityCut(s, p + |a + b + c|, m);
    FourEnds(PartEnd(a), |a|, PartEnd(b), |b|, PromotedEnd(T, m), |c|, PartEnd(x), |x|, r);
    MiddleChain(T, s, p, f, Allows(PartEnd(a), r + |x| + |c| + |b|), m.timestamp, p + |a|,
                Allows(PartEnd(b), r + |x| + |c|), m.picoseconds, p + |a + b|,
                (m.promoted.Some? ==> PromotedSurvive(T, m.promoted.value, |x| + r)) && Allows(PromotedEnd(T, m), r + |x|),
                CanonNm(T, m).promoted, p + |a + b + c|, Allows(PartEnd(x), r), SecurityHeadOf(m), p + |EncMiddle(T, m)|);
  }

  lemma PayloadCut(T: Table, m: NetworkMessage, s: bytes, p: nat, w: int)
    requires NmTyped(T, m) && NmOk(T, m) && Agrees(s, p, EncPayload(T, m)) && DsmsSurvive(T, m.messages, |EncTrailer(m)| + w)
    ensures var n := |EncPayload(T, m)|;
            var r := |s| - p - n;
            && DecPayload(T, s, p, m.payloadHeader, SecurityHeadOf(m)) ==
               Result(DsmsSurvive(T, m.messages, |EncTrailer(m)| + r) && Allows(PayloadEnd(T, m), r),
                      Payload(CanonNm(T, m).sizes, CanonDsms(T, m.messages), m.security), p + n)
            && Shaped(PayloadEnd(T, m), n)
  {
    hide Agrees, EncSizes, EncDsms, EncTrailer, DecSizes, DecDsms, DecTrailer, DsmsSurvive, CanonDsms, DsmsOk, VariantsOk, SentSizes,
         CanonVariants, Allows, Then, DsmsEnd, VariantsAre, DsmsAre;
    var a, b, c := EncSizes(T, m), EncDsms(T, m.messages), EncTrailer(m);
    var r := |s| - p - |EncPayload(T, m)|;
    AgreesSplit(s, p, a + b, c);
    AgreesSplit(s, p, a, b);
    SizesCut(T, m, s, p);
    DsmsCut(T, m.messages, s, p + |a|, |c| + w);
    TrailerCut(m, s, p + |a| + |b|);
    var end := DsmsEnd(T, m.messages);
    ShapedThen(PartEnd(a), |a|, end, |b|);
    ShapedThen(Then(PartEnd(a), end), |a| + |b|, PartEnd(c), |c|);
    ThenAllows(Then(PartEnd(a), end), PartEnd(c), |c|, r);
    ThenAllows(PartEnd(a), end, |b|, r + |c|);
  }

  /** Octets that hold the encoding of a surviving message as far as they go decode exactly when no length guard fails
      for what there is of them, and nothing is missing but a length field that is skipped. */
  lemma NmCut(T: Table, m: NetworkMessage, s: bytes, p: nat, w: int)
    requires NmTyped(T, m) && NmOk(T, m) && Agrees(s, p, EncNm(T, m)) && NmSurvives(T, m, w)
    ensures var n := |EncNm(T, m)|;
            var r := |s| - p - n;
            && DecNm(T, s, p) == Result(NmSurvives(T, m, r) && Allows(NmEnd(T, m), r), CanonNm(T, m), p + n)
            && Shaped(NmEnd(T, m), n)
  {
    hide Agrees, EncHead, EncMiddle, EncPayload, DecHead, DecMiddle, DecPayload, Has, DsmsSurvive, PromotedSurvive, CanonDsms, Allows,
         CanonVariants, SentSizes, EncSecurity, EncTrailer, NmOk, DsmsOk, VariantsOk, MiddleEnd, PayloadEnd, VariantsAre, DsmsAre;
    var a, b, c := EncHead(m), EncMiddle(T, m), EncPayload(T, m);
    var r := |s| - p - |EncNm(T, m)|;
    AgreesSplit(s, p, a + b, c);
    AgreesSplit(s, p, a, b);
    assert HeadOk(m) && m.messageType == DATASET by { OkParts(T, m); }
    var f := HeadCut(s, p, m);
    PayloadCut(T, m, s, p + |a| + |b|, w);
    MiddleCut(T, m, s, p + |a|, f, |c| + w);
    ThenAllows(Then(Read, MiddleEnd(T, m)), PayloadEnd(T, m), |c|, r);
    ThenAllows(Read, MiddleEnd(T, m), |b|, r + |c|);
    ReadAllows(r + |c| + |b|);
  }

  /** The first n octets of a surviving message's encoding decode exactly when the rest is part of a length field that is
      skipped, at the end of the message, and the length guards of its arrays still hold. */
  lemma NmPrefixExact(T: Table, m: NetworkMessage, n: nat)
    requires NmTyped(T, m) && NmOk(T, m) && NmSurvives(T, m, 0) && n < |EncNm(T, m)|
    ensures var b := EncNm(T, m);
            DecNm(T, b[..n], 0) ==
            if NmEnd(T, m).Skipped? && |b| - n <= 4 && NmSurvives(T, m, n - |b|) then Done(CanonNm(T, m), |b|) else Fail
  {
    hide DecNm, EncNm, NmSurvives, CanonNm, NmEnd, NmOk, NmTyped;
    var b := EncNm(T, m);
    assert Agrees(b[..n], 0, b);
    NmCut(T, m, b[..n], 0, 0);
  }

  /** Without such a length field, and over tables without hollow types for all messages, no strict prefix decodes. */
  lemma NmNoStrictPrefix(T: Table, m: NetworkMessage, n: nat)
    requires NmTyped(T, m) && NmOk(T, m) && NmSurvives(T, m, 0) && n < |EncNm(T, m)|
    requires !NmEnd(T, m).Skipped? || !HollowTable(T, 1)
    ensures DecNm(T, EncNm(T, m)[..n], 0).Fail?
  {
    hide DecNm, EncNm, NmSurvives, CanonNm, NmEnd, NmOk, NmTyped, HollowTable;
    NmPrefixExact(T, m, n);
    NmInside(T, EncNm(T, m)[..n], 0);
  }

  /** A message with a signature, or a footer that is not empty, never ends in a skipped length field. */
  lemma TrailerEnds(T: Table, m: NetworkMessage)
    requires NmTyped(T, m) && EncTrailer(m) != []
    ensures NmEnd(T, m) == Read
  {
    hide NmTyped, EncTrailer, EncSizes, MiddleEnd, DsmsEnd;
  }
}
