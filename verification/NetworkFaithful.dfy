/** The exact round trip of NetworkMessages. */
module NetworkFaithful {
  import opened Bytes
  import opened Types
  import opened Wire
  import opened Parse
  import opened Survival
  import opened Faithful
  import opened NetworkMessage
  import opened NetworkParse

  // ----- the message a decoder is expected to return -----

  function CanonField(T: Table, encoding: u8, f: DataValue): DataValue {
    if encoding == ENC_VARIANT then ValueOnly(NormVariant(T, f.value)) else NormData(T, f)
  }

  function CanonFields(T: Table, encoding: u8, fs: seq<DataValue>): (r: seq<DataValue>)
    ensures |r| == |fs|
  {
    if fs == [] then [] else [CanonField(T, encoding, fs[0])] + CanonFields(T, encoding, fs[1..])
  }

  function CanonDeltas(T: Table, encoding: u8, fs: seq<DeltaField>): (r: seq<DeltaField>)
    ensures |r| == |fs|
  {
    if fs == [] then []
    else [DeltaField(fs[0].index, CanonField(T, encoding, fs[0].value))] + CanonDeltas(T, encoding, fs[1..])
  }

  function CanonFrame(T: Table, x: DataSetMessage): Frame {
    if (x.messageType != DATAKEYFRAME && x.messageType != DATADELTAFRAME) || x.fieldEncoding == ENC_RAWDATA then NoData
    else
      match x.frame
      case KeyFrame(fs) => KeyFrame(CanonFields(T, x.fieldEncoding, fs))
      case DeltaFrame(fs) => DeltaFrame(CanonDeltas(T, x.fieldEncoding, fs))
      case BareCount(n) => BareCount(n)
      case NoData => NoData
  }

  function CanonDsm(T: Table, x: DataSetMessage): DataSetMessage {
    x.(frame := CanonFrame(T, x))
  }

  function CanonDsms(T: Table, xs: seq<DataSetMessage>): (r: seq<DataSetMessage>)
    ensures |r| == |xs|
  {
    if xs == [] then [] else [CanonDsm(T, xs[0])] + CanonDsms(T, xs[1..])
  }

  function CanonVariants(T: Table, xs: seq<Variant>): (r: seq<Variant>)
    ensures |r| == |xs|
  {
    if xs == [] then [] else [NormVariant(T, xs[0])] + CanonVariants(T, xs[1..])
  }

  /** Sizes are those actually sent; fields are normalised. */
  function CanonNm(T: Table, m: NetworkMessage): NetworkMessage
    requires NmTyped(T, m)
  {
    m.(promoted := if m.promoted.Some? then Some(CanonVariants(T, m.promoted.value)) else None,
       sizes := if m.payloadHeader.Some? && MessageCount(m) > 1 then Some(SentSizes(T, m.messages, m.sizes)) else None,
       messages := CanonDsms(T, m.messages))
  }

  // ----- which messages survive, with r octets following (a negative r: the source ends too early) -----

  predicate KeyFieldSurvives(T: Table, encoding: u8, f: DataValue, r: int)
    requires VariantTyped(T, f.value)
  {
    if encoding == ENC_VARIANT then VariantSurvives(T, f.value, r, 0) else DataSurvives(T, f, r, 0)
  }

  predicate KeyFieldsSurvive(T: Table, encoding: u8, fs: seq<DataValue>, r: int)
    requires FieldsAre(T, fs)
  {
    fs != [] ==>
      && KeyFieldSurvives(T, encoding, fs[0], |EncKeyFields(T, encoding, fs[1..])| + r)
      && KeyFieldsSurvive(T, encoding, fs[1..], r)
  }

  predicate DeltasSurvive(T: Table, encoding: u8, fs: seq<DeltaField>, r: int)
    requires DeltasAre(T, fs)
  {
    fs != [] ==>
      && KeyFieldSurvives(T, encoding, fs[0].value, |EncDeltaFields(T, encoding, fs[1..])| + r)
      && DeltasSurvive(T, encoding, fs[1..], r)
  }

  predicate FrameSurvives(T: Table, x: DataSetMessage, r: int)
    requires DsmTyped(T, x)
  {
    && (x.messageType == DATAKEYFRAME && HasFields(x.fieldEncoding) ==>
          KeyFieldsSurvive(T, x.fieldEncoding, x.frame.fields, r))
    && (x.messageType == DATADELTAFRAME && HasFields(x.fieldEncoding) ==>
          DeltasSurvive(T, x.fieldEncoding, x.frame.deltas, r))
  }

  /** The field encoding travels in two bits. */
  predicate DsmSurvives(T: Table, x: DataSetMessage, r: int)
    requires DsmTyped(T, x)
  {
    x.fieldEncoding < 4 && FrameSurvives(T, x, r)
  }

  predicate DsmsSurvive(T: Table, xs: seq<DataSetMessage>, r: int)
    requires DsmsAre(T, xs)
  {
    xs != [] ==> DsmSurvives(T, xs[0], |EncDsms(T, xs[1..])| + r) && DsmsSurvive(T, xs[1..], r)
  }

  /** All promoted fields but the last end before the announced size, and the last one reaches it. */
  predicate PromotedFit(T: Table, xs: seq<Variant>, budget: nat, r: int)
    requires VariantsAre(T, xs) && xs != []
    decreases xs
  {
    var n := |EncVariant(T, xs[0])|;
    && VariantSurvives(T, xs[0], |EncVariants(T, xs[1..])| + r, 0)
    && (if |xs| == 1 then budget <= n else n < budget && PromotedFit(T, xs[1..], budget - n, r))
  }

  predicate PromotedSurvive(T: Table, xs: seq<Variant>, r: int)
    requires VariantsAre(T, xs)
  {
    xs != [] ==> PromotedLength(T, xs) > 0 && PromotedFit(T, xs, PromotedLength(T, xs), r)
  }

  /** The version travels in four bits and the publisher id type in three. */
  predicate NmSurvives(T: Table, m: NetworkMessage, r: int)
    requires NmTyped(T, m)
  {
    && m.version < 16 && m.publisherIdType < 8
    && (m.promoted.Some? ==>
          PromotedSurvive(T, m.promoted.value, |EncSecurity(m)| + |EncPayload(T, m)| + r))
    && DsmsSurvive(T, m.messages, |EncTrailer(m)| + r)
  }

  // ----- DataSetMessage -----

  lemma LowPow()
    ensures Pow2(1) == 2 && Pow2(2) == 4 && Pow2(3) == 8 && Pow2(4) == 16
  {
    assert Pow2(2) == 2 * Pow2(1);
    assert Pow2(3) == 2 * Pow2(2);
    assert Pow2(4) == 2 * Pow2(3);
  }

  lemma SmallMark(v: nat, on: bool)
    ensures Mark(v, 0, on) / 2 == v / 2
  {
  }

  lemma DsmFlags1Bits(x: DataSetMessage)
    requires x.fieldEncoding < 4
    ensures var b := DsmFlags1(x);
      && Has(b, 0) == x.valid && Has(b, 3) == x.sequenceNr.Some? && Has(b, 4) == x.status.Some?
      && Has(b, 5) == x.major.Some? && Has(b, 6) == x.minor.Some? && Has(b, 7) == DsmFlags2Enabled(x)
      && (b / 2) % 4 == x.fieldEncoding
  {
    hide Mark, Has, DsmFlags2Enabled;
    var v := 2 * x.fieldEncoding;
    forall j: nat | j == 0 || 3 <= j <= 7
      ensures Has(DsmFlags1(x), j) <==>
              (j == 0 && x.valid) || (j == 3 && x.sequenceNr.Some?) || (j == 4 && x.status.Some?)
              || (j == 5 && x.major.Some?) || (j == 6 && x.minor.Some?) || (j == 7 && DsmFlags2Enabled(x))
    {
      EvenBits(v, j);
      SixMarks(v, 0, x.valid, 3, x.sequenceNr.Some?, 4, x.status.Some?, 5, x.major.Some?, 6, x.minor.Some?,
               7, DsmFlags2Enabled(x), j);
    }
    DsmEncodingBits(x);
  }

  lemma DsmEncodingBits(x: DataSetMessage)
    requires x.fieldEncoding < 4
    ensures (DsmFlags1(x) / 2) % 4 == x.fieldEncoding
  {
    hide Mark, DsmFlags2Enabled;
    LowPow();
    var m1 := Mark(2 * x.fieldEncoding, 0, x.valid);
    var m2 := Mark(m1, 3, x.sequenceNr.Some?);
    var m3 := Mark(m2, 4, x.status.Some?);
    var m4 := Mark(m3, 5, x.major.Some?);
    var m5 := Mark(m4, 6, x.minor.Some?);
    MarkLow(m1, 3, x.sequenceNr.Some?, 3);
    MarkLow(m2, 4, x.status.Some?, 3);
    MarkLow(m3, 5, x.major.Some?, 3);
    MarkLow(m4, 6, x.minor.Some?, 3);
    MarkLow(m5, 7, DsmFlags2Enabled(x), 3);
    SmallMark(2 * x.fieldEncoding, x.valid);
    HalfOfLow(DsmFlags1(x));
    HalfOfLow(m1);
  }

  lemma HalfOfLow(b: nat)
    ensures (b / 2) % 4 == (b % 8) / 2
  {
  }

  /** An even number below eight has neither bit 0 nor any bit from 3 on. */
  lemma EvenBits(v: nat, j: nat)
    requires v < 8 && v % 2 == 0 && (j == 0 || j >= 3)
    ensures !Has(v, j)
  {
    if j >= 3 {
      HighBits(v, 3, j);
    }
  }

  lemma DsmFlags2Bits(x: DataSetMessage)
    requires x.messageType < 16
    ensures var b := DsmFlags2(x);
      Has(b, 4) == x.timestamp.Some? && Has(b, 5) == x.picoSeconds.Some? && b % 16 == x.messageType
  {
    hide Mark;
    LowPow();
    var m1 := Mark(x.messageType, 4, x.timestamp.Some?);
    HighBits(x.messageType, 4, 4);
    HighBits(x.messageType, 4, 5);
    MarkHas(x.messageType, 4, x.timestamp.Some?, 4);
    MarkHas(x.messageType, 4, x.timestamp.Some?, 5);
    MarkHas(m1, 5, x.picoSeconds.Some?, 4);
    MarkHas(m1, 5, x.picoSeconds.Some?, 5);
    MarkLow(x.messageType, 4, x.timestamp.Some?, 4);
    MarkLow(m1, 5, x.picoSeconds.Some?, 4);
  }

  lemma ZeroBits(j: nat)
    ensures !Has(0, j)
  {
    HighBits(0, 0, j);
  }

  lemma DsmRestAt(s: bytes, p: nat, x: DataSetMessage, b: u8, b2: u8, nr: Option<u16>)
    requires At(s, p, DsmHeaderRest(x))
    requires Has(b2, 4) == x.timestamp.Some? && Has(b2, 5) == x.picoSeconds.Some?
    requires Has(b, 4) == x.status.Some? && Has(b, 5) == x.major.Some? && Has(b, 6) == x.minor.Some?
    requires Has(b, 0) == x.valid && (b / 2) % 4 == x.fieldEncoding && b2 % 16 == x.messageType
    ensures DecDsmRest(s, p, b, b2, nr) == Done(x.(sequenceNr := nr, frame := NoData), p + |DsmHeaderRest(x)|)
  {
    hide At, Has, OptLE, DecOpt16, DecOpt32, DecOpt64, DecDsmRest;
    var p2 := p + |OptLE(x.timestamp, 8)|;
    var p3 := p2 + |OptLE(x.picoSeconds, 2)|;
    var p4 := p3 + |OptLE(x.status, 2)|;
    var p5 := p4 + |OptLE(x.major, 4)|;
    AtSplit5(s, p, OptLE(x.timestamp, 8), OptLE(x.picoSeconds, 2), OptLE(x.status, 2), OptLE(x.major, 4), OptLE(x.minor, 4));
    Opt64At(s, p, x.timestamp);
    Opt16At(s, p2, x.picoSeconds);
    Opt16At(s, p3, x.status);
    Opt32At(s, p4, x.major);
    Opt32At(s, p5, x.minor);
    DsmRestChain(s, p, x, b, b2, nr, p2, p3, p4, p5, p + |DsmHeaderRest(x)|);
  }

  lemma DsmRestChain(s: bytes, p: nat, x: DataSetMessage, b: u8, b2: u8, nr: Option<u16>,
                     p2: nat, p3: nat, p4: nat, p5: nat, p6: nat)
    requires DecOpt64(s, p, Has(b2, 4)) == Done(x.timestamp, p2) && DecOpt16(s, p2, Has(b2, 5)) == Done(x.picoSeconds, p3)
    requires DecOpt16(s, p3, Has(b, 4)) == Done(x.status, p4) && DecOpt32(s, p4, Has(b, 5)) == Done(x.major, p5)
    requires DecOpt32(s, p5, Has(b, 6)) == Done(x.minor, p6)
    requires Has(b, 0) == x.valid && (b / 2) % 4 == x.fieldEncoding && b2 % 16 == x.messageType
    ensures DecDsmRest(s, p, b, b2, nr) == Done(x.(sequenceNr := nr, frame := NoData), p6)
  {
    hide Has, DecOpt16, DecOpt32, DecOpt64;
  }

  lemma DsmHeaderAt(s: bytes, p: nat, x: DataSetMessage)
    requires At(s, p, DsmHeader(x)) && x.fieldEncoding < 4 && x.messageType < 16
    ensures DecDsmHeader(s, p) == Done(x.(frame := NoData), p + |DsmHeader(x)|)
  {
    hide At, Has, OptLE, DecOpt16, DecByte, DsmHeaderRest, DsmFlags1, DsmFlags2, DecDsmRest;
    var b, b2 := DsmFlags1(x), if DsmFlags2Enabled(x) then DsmFlags2(x) else 0;
    AtSplit(s, p, DsmFlags(x) + OptLE(x.sequenceNr, 2), DsmHeaderRest(x));
    AtSplit(s, p, DsmFlags(x), OptLE(x.sequenceNr, 2));
    DsmFlags1Bits(x);
    if DsmFlags2Enabled(x) {
      assert DsmFlags(x) == [b] + [b2];
      AtSplit(s, p, [b], [b2]);
      ByteAt(s, p + 1, b2);
      DsmFlags2Bits(x);
    } else {
      ZeroBits(4);
      ZeroBits(5);
    }
    ByteAt(s, p, b);
    Opt16At(s, p + |DsmFlags(x)|, x.sequenceNr);
    DsmRestAt(s, p + |DsmFlags(x)| + |OptLE(x.sequenceNr, 2)|, x, b, b2, x.sequenceNr);
  }

  lemma KeyFieldRoundTrip(T: Table, encoding: u8, f: DataValue, s: bytes, p: nat)
    requires VariantTyped(T, f.value) && KeyFieldOk(T, encoding, f) && At(s, p, EncKeyField(T, encoding, f))
    ensures var q := p + |EncKeyField(T, encoding, f)|;
            Outcome(KeyFieldSurvives(T, encoding, f, Rest(s, q)), DecKeyField(T, s, p, encoding), CanonField(T, encoding, f), q)
  {
    hide At, EncVariant, EncData, DecVariant, DecData, VariantSurvives, DataSurvives, NormVariant, NormData, VariantOk;
    if encoding == ENC_VARIANT {
      VariantRoundTrip(T, f.value, 0, s, p, 0);
    } else {
      DataRoundTrip(T, f, 0, s, p, 0);
    }
  }

  lemma {:induction false} KeyFieldsRoundTrip(T: Table, encoding: u8, fs: seq<DataValue>, s: bytes, p: nat)
    requires FieldsAre(T, fs) && KeyFieldsOk(T, encoding, fs) && At(s, p, EncKeyFields(T, encoding, fs))
    ensures var q := p + |EncKeyFields(T, encoding, fs)|;
            Outcome(KeyFieldsSurvive(T, encoding, fs, Rest(s, q)), DecKeyFields(T, s, p, encoding, |fs|), CanonFields(T, encoding, fs), q)
  {
    hide At, EncKeyField, DecKeyField, CanonField, KeyFieldSurvives, KeyFieldOk;
    if fs != [] {
      var a, tail := EncKeyField(T, encoding, fs[0]), EncKeyFields(T, encoding, fs[1..]);
      AtSplit(s, p, a, tail);
      AtEnd(s, p + |a|, tail);
      KeyFieldRoundTrip(T, encoding, fs[0], s, p);
      KeyFieldsRoundTrip(T, encoding, fs[1..], s, p + |a|);
      var r1, q := DecKeyField(T, s, p, encoding), p + |EncKeyFields(T, encoding, fs)|;
      ConsOutcome(KeyFieldSurvives(T, encoding, fs[0], |tail| + Rest(s, q)), r1, CanonField(T, encoding, fs[0]), p + |a|,
                  KeyFieldsSurvive(T, encoding, fs[1..], Rest(s, q)),
                  if r1.Fail? then Fail else DecKeyFields(T, s, r1.pos, encoding, |fs| - 1),
                  CanonFields(T, encoding, fs[1..]), q, DecKeyFields(T, s, p, encoding, |fs|));
    }
  }

  lemma DeltaRoundTrip(T: Table, encoding: u8, f: DeltaField, s: bytes, p: nat)
    requires VariantTyped(T, f.value.value) && KeyFieldOk(T, encoding, f.value) && At(s, p, EncDeltaField(T, encoding, f))
    ensures var q := p + |EncDeltaField(T, encoding, f)|;
            Outcome(KeyFieldSurvives(T, encoding, f.value, Rest(s, q)), DecDeltaField(T, s, p, encoding),
                    DeltaField(f.index, CanonField(T, encoding, f.value)), q)
  {
    hide At, EncKeyField, DecKeyField, CanonField, KeyFieldSurvives, KeyFieldOk, LE, DecU16;
    Pow256Values();
    AtSplit(s, p, LE(f.index, 2), EncKeyField(T, encoding, f.value));
    FixedAt(s, p, f.index, 2);
    KeyFieldRoundTrip(T, encoding, f.value, s, p + 2);
  }

  lemma {:induction false} DeltasRoundTrip(T: Table, encoding: u8, fs: seq<DeltaField>, s: bytes, p: nat)
    requires DeltasAre(T, fs) && DeltaFieldsOk(T, encoding, fs) && At(s, p, EncDeltaFields(T, encoding, fs))
    ensures var q := p + |EncDeltaFields(T, encoding, fs)|;
            Outcome(DeltasSurvive(T, encoding, fs, Rest(s, q)), DecDeltaFields(T, s, p, encoding, |fs|), CanonDeltas(T, encoding, fs), q)
  {
    hide At, EncDeltaField, DecDeltaField, CanonField, KeyFieldSurvives, KeyFieldOk;
    if fs != [] {
      var a, tail := EncDeltaField(T, encoding, fs[0]), EncDeltaFields(T, encoding, fs[1..]);
      AtSplit(s, p, a, tail);
      AtEnd(s, p + |a|, tail);
      DeltaRoundTrip(T, encoding, fs[0], s, p);
      DeltasRoundTrip(T, encoding, fs[1..], s, p + |a|);
      var r1, q := DecDeltaField(T, s, p, encoding), p + |EncDeltaFields(T, encoding, fs)|;
      ConsOutcome(KeyFieldSurvives(T, encoding, fs[0].value, |tail| + Rest(s, q)), r1,
                  DeltaField(fs[0].index, CanonField(T, encoding, fs[0].value)), p + |a|,
                  DeltasSurvive(T, encoding, fs[1..], Rest(s, q)),
                  if r1.Fail? then Fail else DecDeltaFields(T, s, r1.pos, encoding, |fs| - 1),
                  CanonDeltas(T, encoding, fs[1..]), q, DecDeltaFields(T, s, p, encoding, |fs|));
    }
  }

  lemma FrameRoundTrip(T: Table, x: DataSetMessage, s: bytes, p: nat)
    requires DsmTyped(T, x) && DsmOk(T, x) && At(s, p, EncFrame(T, x))
    ensures var q := p + |EncFrame(T, x)|;
            Outcome(FrameSurvives(T, x, Rest(s, q)), DecFrame(T, s, p, x.messageType, x.fieldEncoding), CanonFrame(T, x), q)
  {
    hide At, EncKeyFields, EncDeltaFields, DecKeyFields, DecDeltaFields, CanonFields, CanonDeltas, KeyFieldsSurvive,
         DeltasSurvive, KeyFieldsOk, DeltaFieldsOk, LE, DecU16, FieldsAre, DeltasAre;
    Pow256Values();
    if x.messageType == KEEPALIVE {
      return;
    }
    match x.frame
    case KeyFrame(fs) =>
      AtSplit(s, p, LE(|fs|, 2), EncKeyFields(T, x.fieldEncoding, fs));
      FixedAt(s, p, |fs|, 2);
      KeyFieldsRoundTrip(T, x.fieldEncoding, fs, s, p + 2);
    case DeltaFrame(fs) =>
      AtSplit(s, p, LE(|fs|, 2), EncDeltaFields(T, x.fieldEncoding, fs));
      FixedAt(s, p, |fs|, 2);
      DeltasRoundTrip(T, x.fieldEncoding, fs, s, p + 2);
    case BareCount(n) => FixedAt(s, p, n, 2);
  }

  lemma DsmRoundTrip(T: Table, x: DataSetMessage, s: bytes, p: nat)
    requires DsmTyped(T, x) && DsmOk(T, x) && At(s, p, EncDsm(T, x))
    ensures var q := p + |EncDsm(T, x)|;
            Outcome(DsmSurvives(T, x, Rest(s, q)), DecDsm(T, s, p), CanonDsm(T, x), q)
  {
    hide At, DsmHeader, EncFrame, DecFrame, FrameSurvives, DecDsmHeader, CanonFrame;
    EncodingBits(s, p);
    if x.fieldEncoding < 4 {
      AtSplit(s, p, DsmHeader(x), EncFrame(T, x));
      assert x.messageType < 16;
      DsmHeaderAt(s, p, x);
      FrameRoundTrip(T, x, s, p + |DsmHeader(x)|);
    }
  }

  lemma EncodingBits(s: bytes, p: nat)
    ensures DecDsmHeader(s, p).Done? ==> DecDsmHeader(s, p).v.fieldEncoding < 4
  {
    hide Has, DecOpt16, DecOpt32, DecOpt64, DecByte;
  }

  lemma {:induction false} DsmsRoundTrip(T: Table, xs: seq<DataSetMessage>, s: bytes, p: nat)
    requires DsmsAre(T, xs) && DsmsOk(T, xs) && At(s, p, EncDsms(T, xs))
    ensures var q := p + |EncDsms(T, xs)|;
            Outcome(DsmsSurvive(T, xs, Rest(s, q)), DecDsms(T, s, p, |xs|), CanonDsms(T, xs), q)
  {
    hide At, EncDsm, DecDsm, CanonDsm, DsmSurvives, DsmOk, DsmTyped;
    if xs != [] {
      var a, tail := EncDsm(T, xs[0]), EncDsms(T, xs[1..]);
      AtSplit(s, p, a, tail);
      AtEnd(s, p + |a|, tail);
      DsmRoundTrip(T, xs[0], s, p);
      DsmsRoundTrip(T, xs[1..], s, p + |a|);
      var r1, q := DecDsm(T, s, p), p + |EncDsms(T, xs)|;
      ConsOutcome(DsmSurvives(T, xs[0], |tail| + Rest(s, q)), r1, CanonDsm(T, xs[0]), p + |a|,
                  DsmsSurvive(T, xs[1..], Rest(s, q)),
                  if r1.Fail? then Fail else DecDsms(T, s, r1.pos, |xs| - 1),
                  CanonDsms(T, xs[1..]), q, DecDsms(T, s, p, |xs|));
    }
  }

  // ----- NetworkMessage header -----

  /** The flag bytes announce what m contains. */
  ghost predicate Announces(f: Flags, m: NetworkMessage) {
    && f.b0 % 16 == m.version && f.b1 % 8 == m.publisherIdType && TypeOf(f) == m.messageType
    && Has(f.b0, 4) == m.publisherId.Some? && Has(f.b0, 5) == m.groupHeader.Some? && Has(f.b0, 6) == m.payloadHeader.Some?
    && Has(f.b1, 3) == m.dataSetClassId.Some? && Has(f.b1, 4) == m.security.Some? && Has(f.b1, 5) == m.timestamp.Some?
    && Has(f.b1, 6) == m.picoseconds.Some?
    && Has(f.b2, 0) == m.chunkMessage && Has(f.b2, 1) == m.promoted.Some?
  }

  lemma Flags0Bits(m: NetworkMessage)
    requires m.version < 16
    ensures var b := Flags0(m);
      && Has(b, 4) == m.publisherId.Some? && Has(b, 5) == m.groupHeader.Some? && Has(b, 6) == m.payloadHeader.Some?
      && Has(b, 7) == Flags1Enabled(m) && b % 16 == m.version
  {
    hide Mark, Has, Flags1Enabled;
    LowPow();
    var m1 := Mark(m.version, 4, m.publisherId.Some?);
    var m2 := Mark(m1, 5, m.groupHeader.Some?);
    var m3 := Mark(m2, 6, m.payloadHeader.Some?);
    forall j: nat | 4 <= j <= 7
      ensures Has(Flags0(m), j) <==>
              (j == 4 && m.publisherId.Some?) || (j == 5 && m.groupHeader.Some?) || (j == 6 && m.payloadHeader.Some?)
              || (j == 7 && Flags1Enabled(m))
    {
      HighBits(m.version, 4, j);
      MarkHas(m.version, 4, m.publisherId.Some?, j);
      MarkHas(m1, 5, m.groupHeader.Some?, j);
      MarkHas(m2, 6, m.payloadHeader.Some?, j);
      MarkHas(m3, 7, Flags1Enabled(m), j);
    }
    MarkLow(m.version, 4, m.publisherId.Some?, 4);
    MarkLow(m1, 5, m.groupHeader.Some?, 4);
    MarkLow(m2, 6, m.payloadHeader.Some?, 4);
    MarkLow(m3, 7, Flags1Enabled(m), 4);
  }

  lemma Flags1Bits(m: NetworkMessage)
    requires m.publisherIdType < 8
    ensures var b := Flags1(m);
      && Has(b, 3) == m.dataSetClassId.Some? && Has(b, 4) == m.security.Some? && Has(b, 5) == m.timestamp.Some?
      && Has(b, 6) == m.picoseconds.Some? && Has(b, 7) == Flags2Enabled(m) && b % 8 == m.publisherIdType
  {
    hide Mark, Has, Flags2Enabled;
    LowPow();
    var m1 := Mark(m.publisherIdType, 3, m.dataSetClassId.Some?);
    var m2 := Mark(m1, 4, m.security.Some?);
    var m3 := Mark(m2, 5, m.timestamp.Some?);
    var m4 := Mark(m3, 6, m.picoseconds.Some?);
    forall j: nat | 3 <= j <= 7
      ensures Has(Flags1(m), j) <==>
              (j == 3 && m.dataSetClassId.Some?) || (j == 4 && m.security.Some?) || (j == 5 && m.timestamp.Some?)
              || (j == 6 && m.picoseconds.Some?) || (j == 7 && Flags2Enabled(m))
    {
      HighBits(m.publisherIdType, 3, j);
      MarkHas(m.publisherIdType, 3, m.dataSetClassId.Some?, j);
      MarkHas(m1, 4, m.security.Some?, j);
      MarkHas(m2, 5, m.timestamp.Some?, j);
      MarkHas(m3, 6, m.picoseconds.Some?, j);
      MarkHas(m4, 7, Flags2Enabled(m), j);
    }
    MarkLow(m.publisherIdType, 3, m.dataSetClassId.Some?, 3);
    MarkLow(m1, 4, m.security.Some?, 3);
    MarkLow(m2, 5, m.timestamp.Some?, 3);
    MarkLow(m3, 6, m.picoseconds.Some?, 3);
    MarkLow(m4, 7, Flags2Enabled(m), 3);
  }

  lemma Flags2Bits(m: NetworkMessage)
    requires m.messageType == DATASET
    ensures var b := Flags2(m); Has(b, 0) == m.chunkMessage && Has(b, 1) == m.promoted.Some? && (b / 4) % 8 == DATASET
  {
    MarkTwo(m.chunkMessage, m.promoted.Some?);
    MarkSmall(m.chunkMessage, m.promoted.Some?);
  }

  lemma MarkSmall(a: bool, b: bool)
    ensures Mark(Mark(0, 0, a), 1, b) < 4
  {
    LowPow();
    MarkBound(0, 0, a, 2);
    MarkBound(Mark(0, 0, a), 1, b, 2);
  }

  lemma NoBits()
    ensures forall j: nat {:trigger Has(0, j)} :: !Has(0, j)
  {
    hide Has;
    forall j: nat ensures !Has(0, j) { ZeroBits(j); }
  }

  lemma FlagsAt(s: bytes, p: nat, m: NetworkMessage)
    requires At(s, p, EncFlags(m)) && m.version < 16 && m.publisherIdType < 8 && m.messageType == DATASET
    ensures var r := DecFlags(s, p); r.Done? && r.pos == p + |EncFlags(m)| && Announces(r.v, m)
  {
    hide At, DecByte, Flags0, Flags1, Flags2, Has;
    Flags0Bits(m);
    Flags1Bits(m);
    Flags2Bits(m);
    NoBits();
    var b0, b1, b2 := Flags0(m), Flags1(m), Flags2(m);
    if !Flags1Enabled(m) {
      ByteAt(s, p, b0);
    } else if !Flags2Enabled(m) {
      assert EncFlags(m) == [b0] + [b1];
      AtSplit(s, p, [b0], [b1]);
      ByteAt(s, p, b0);
      ByteAt(s, p + 1, b1);
    } else {
      assert EncFlags(m) == [b0] + [b1] + [b2];
      AtSplit(s, p, [b0] + [b1], [b2]);
      AtSplit(s, p, [b0], [b1]);
      ByteAt(s, p, b0);
      ByteAt(s, p + 1, b1);
      ByteAt(s, p + 2, b2);
    }
  }

  lemma PublisherIdAt(s: bytes, p: nat, m: NetworkMessage)
    requires (m.publisherId.Some? ==> IdTyped(m.publisherIdType, m.publisherId.value)) && HeadOk(m)
    requires At(s, p, EncPublisherId(m))
    ensures DecPublisherId(s, p, m.publisherId.Some?, m.publisherIdType) == Done(m.publisherId, p + |EncPublisherId(m)|)
  {
    hide At, EncStr, LE, Pow256;
    match m.publisherId
    case None =>
    case Some(IdNumber(n)) => FixedAt(s, p, n, IdWidth(m.publisherIdType));
    case Some(IdString(x)) => StrAt(s, p, x);
  }

  lemma GroupAt(s: bytes, p: nat, m: NetworkMessage)
    requires At(s, p, EncGroup(m))
    ensures DecGroup(s, p, m.groupHeader.Some?) == Done(m.groupHeader, p + |EncGroup(m)|)
  {
    hide At, Has, GroupFlags, OptLE, DecOpt16, DecOpt32, DecGroupFields, DecByte;
    if m.groupHeader.Some? {
      var g := m.groupHeader.value;
      var b := GroupFlags(g);
      AtSplit5(s, p, [b], OptLE(g.writerGroupId, 2), OptLE(g.groupVersion, 4), OptLE(g.networkMessageNumber, 2),
               OptLE(g.sequenceNumber, 2));
      ByteAt(s, p, b);
      GroupFlagBits(g);
      var p2 := p + 1 + |OptLE(g.writerGroupId, 2)|;
      var p3 := p2 + |OptLE(g.groupVersion, 4)|;
      var p4 := p3 + |OptLE(g.networkMessageNumber, 2)|;
      Opt16At(s, p + 1, g.writerGroupId);
      Opt32At(s, p2, g.groupVersion);
      Opt16At(s, p3, g.networkMessageNumber);
      Opt16At(s, p4, g.sequenceNumber);
      GroupChain(s, p + 1, b, g, p2, p3, p4, p + |EncGroup(m)|);
    }
  }

  lemma GroupFlagBits(g: GroupHeader)
    ensures var b := GroupFlags(g);
            Has(b, 0) == g.writerGroupId.Some? && Has(b, 1) == g.groupVersion.Some?
            && Has(b, 2) == g.networkMessageNumber.Some? && Has(b, 3) == g.sequenceNumber.Some?
  {
    FourMarks(g.writerGroupId.Some?, g.groupVersion.Some?, g.networkMessageNumber.Some?, g.sequenceNumber.Some?);
  }

  lemma FourMarks(a: bool, b: bool, c: bool, d: bool)
    ensures var m := Mark(Mark(Mark(Mark(0, 0, a), 1, b), 2, c), 3, d);
            Has(m, 0) == a && Has(m, 1) == b && Has(m, 2) == c && Has(m, 3) == d
  {
    hide Mark, Has;
    NoBits();
    var m1 := Mark(0, 0, a);
    var m2 := Mark(m1, 1, b);
    var m3 := Mark(m2, 2, c);
    forall j: nat | j <= 3
      ensures Has(Mark(m3, 3, d), j) <==> (j == 0 && a) || (j == 1 && b) || (j == 2 && c) || (j == 3 && d)
    {
      MarkHas(0, 0, a, j);
      MarkHas(m1, 1, b, j);
      MarkHas(m2, 2, c, j);
      MarkHas(m3, 3, d, j);
    }
  }

  lemma GroupChain(s: bytes, p: nat, b: u8, g: GroupHeader, p2: nat, p3: nat, p4: nat, p5: nat)
    requires DecOpt16(s, p, Has(b, 0)) == Done(g.writerGroupId, p2) && DecOpt32(s, p2, Has(b, 1)) == Done(g.groupVersion, p3)
    requires DecOpt16(s, p3, Has(b, 2)) == Done(g.networkMessageNumber, p4)
    requires DecOpt16(s, p4, Has(b, 3)) == Done(g.sequenceNumber, p5)
    ensures DecGroupFields(s, p, b) == Done(g, p5)
  {
    hide Has, DecOpt16, DecOpt32;
  }

  lemma {:induction false} U16sAt(s: bytes, p: nat, ns: seq<u16>)
    requires At(s, p, EncU16s(ns))
    ensures DecU16s(s, p, |ns|) == Done(ns, p + 2 * |ns|)
    decreases ns
  {
    hide At, LE, DecU16;
    if ns != [] {
      Pow256Values();
      AtSplit(s, p, LE(ns[0], 2), EncU16s(ns[1..]));
      FixedAt(s, p, ns[0], 2);
      U16sAt(s, p + 2, ns[1..]);
      assert ns == [ns[0]] + ns[1..];
    }
  }

  lemma PayloadHeaderAt(s: bytes, p: nat, m: NetworkMessage)
    requires MessageCount(m) < 256 && HeadOk(m) && m.messageType == DATASET && At(s, p, EncPayloadHeader(m))
    ensures DecPayloadHeader(s, p, m.payloadHeader.Some?, DATASET) == Done(m.payloadHeader, p + |EncPayloadHeader(m)|)
  {
    hide At, DecByte, DecU16s, EncU16s;
    if m.payloadHeader.Some? {
      var ids := m.payloadHeader.value.ids;
      AtSplit(s, p, [|ids|], EncU16s(ids));
      ByteAt(s, p, |ids|);
      U16sAt(s, p + 1, ids);
    }
  }

  lemma HeadAt(s: bytes, p: nat, m: NetworkMessage)
    requires (m.publisherId.Some? ==> IdTyped(m.publisherIdType, m.publisherId.value)) && HeadOk(m) && MessageCount(m) < 256
    requires m.version < 16 && m.publisherIdType < 8 && m.messageType == DATASET && At(s, p, EncHead(m))
    ensures var r := DecHead(s, p);
      && r.Done? && r.pos == p + |EncHead(m)| && Announces(r.v.flags, m)
      && r.v == Head(r.v.flags, m.publisherId, m.dataSetClassId, m.groupHeader, m.payloadHeader)
  {
    hide At, EncFlags, EncPublisherId, EncClassId, EncGroup, EncPayloadHeader, DecFlags, DecPublisherId, DecClassId, DecGroup,
         DecPayloadHeader, Has, HeadOk, IdTyped;
    AtSplit5(s, p, EncFlags(m), EncPublisherId(m), EncClassId(m), EncGroup(m), EncPayloadHeader(m));
    FlagsAt(s, p, m);
    var p1 := p + |EncFlags(m)|;
    var p2 := p1 + |EncPublisherId(m)|;
    var p3 := p2 + |EncClassId(m)|;
    var p4 := p3 + |EncGroup(m)|;
    PublisherIdAt(s, p1, m);
    ClassIdAt(s, p2, m);
    GroupAt(s, p3, m);
    PayloadHeaderAt(s, p4, m);
  }

  lemma ClassIdAt(s: bytes, p: nat, m: NetworkMessage)
    requires At(s, p, EncClassId(m))
    ensures DecClassId(s, p, m.dataSetClassId.Some?) == Done(m.dataSetClassId, p + |EncClassId(m)|)
  {
    hide At, EncGuid, DecGuid;
    if m.dataSetClassId.Some? {
      GuidAt(s, p, m.dataSetClassId.value);
    }
  }

  // ----- promoted fields and security -----

  lemma {:induction false} PromotedFieldsRoundTrip(T: Table, xs: seq<Variant>, s: bytes, p: nat, budget: nat)
    requires VariantsAre(T, xs) && VariantsOk(T, xs) && xs != [] && budget > 0 && At(s, p, EncVariants(T, xs))
    ensures var q := p + |EncVariants(T, xs)|;
            Outcome(PromotedFit(T, xs, budget, Rest(s, q)), DecPromotedFields(T, s, p, p + budget), CanonVariants(T, xs), q)
    decreases xs
  {
    hide At, EncVariant, DecVariant, NormVariant, VariantSurvives, VariantOk;
    var a, tail := EncVariant(T, xs[0]), EncVariants(T, xs[1..]);
    AtSplit(s, p, a, tail);
    AtEnd(s, p + |a|, tail);
    VariantRoundTrip(T, xs[0], 0, s, p, 0);
    var r1 := DecVariant(T, s, p, 0);
    var r := DecPromotedFields(T, s, p, p + budget);
    if |xs| == 1 {
      assert tail == [];
      NotLonger(T, s, p, budget);
      assert CanonVariants(T, xs) == [NormVariant(T, xs[0])];
    } else {
      assert |CanonVariants(T, xs)| > 1;
      if |a| < budget && r1 == Done(NormVariant(T, xs[0]), p + |a|) {
        PromotedFieldsRoundTrip(T, xs[1..], s, p + |a|, budget - |a|);
        HeadsDiffer(NormVariant(T, xs[0]), CanonVariants(T, xs[1..]));
      }
      PromotedShape(T, s, p, p + budget);
    }
  }

  lemma HeadsDiffer<A>(v: A, vs: seq<A>)
    ensures forall w: seq<A> {:trigger [v] + w} :: [v] + w == [v] + vs ==> w == vs
  {
    forall w: seq<A> | [v] + w == [v] + vs ensures w == vs {
      assert ([v] + w)[1..] == w && ([v] + vs)[1..] == vs;
    }
  }

  lemma NotLonger(T: Table, s: bytes, p: nat, budget: nat)
    requires budget > 0
    ensures var r1, r := DecVariant(T, s, p, 0), DecPromotedFields(T, s, p, p + budget);
            && (r1.Fail? ==> r.Fail?)
            && (r1.Done? && r1.pos >= p + budget ==> r == Done([r1.v], r1.pos))
            && (r1.Done? && r1.pos < p + budget && r.Done? ==> |r.v| > 1)
  {
    hide DecVariant;
  }

  lemma PromotedShape(T: Table, s: bytes, p: nat, end: nat)
    ensures var r1, r := DecVariant(T, s, p, 0), DecPromotedFields(T, s, p, end);
            r.Done? ==> r1.Done? && r.v[0] == r1.v && (r1.pos >= end ==> |r.v| == 1)
  {
    hide DecVariant;
  }

  lemma PromotedRoundTrip(T: Table, m: NetworkMessage, s: bytes, p: nat)
    requires m.promoted.Some? ==> VariantsAre(T, m.promoted.value) && VariantsOk(T, m.promoted.value)
    requires At(s, p, EncPromoted(T, m))
    ensures var q := p + |EncPromoted(T, m)|;
            Outcome(m.promoted.Some? ==> PromotedSurvive(T, m.promoted.value, Rest(s, q)),
                    DecPromoted(T, s, p, m.promoted.Some?),
                    if m.promoted.Some? then Some(CanonVariants(T, m.promoted.value)) else None, q)
  {
    hide At, LE, EncVariants, VariantsSize, DecU16, DecPromotedFields, CanonVariants, PromotedFit, VariantsAre, VariantsOk;
    if m.promoted.Some? {
      var xs := m.promoted.value;
      Pow256Values();
      AtSplit(s, p, LE(PromotedLength(T, xs), 2), EncVariants(T, xs));
      FixedAt(s, p, PromotedLength(T, xs), 2);
      if xs == [] {
        assert VariantsSize(T, xs) == 0 && EncVariants(T, xs) == [] && CanonVariants(T, xs) == [] by { NoVariants(T); }
      } else if PromotedLength(T, xs) > 0 {
        PromotedFieldsRoundTrip(T, xs, s, p + 2, PromotedLength(T, xs));
      }
    }
  }

  lemma NoVariants(T: Table)
    ensures VariantsSize(T, []) == 0 && EncVariants(T, []) == [] && CanonVariants(T, []) == []
  {
  }

  function SecurityHeadOf(m: NetworkMessage): Option<SecurityHead>
    requires m.security.Some? && m.security.value.footer.Some? ==> |m.security.value.footer.value| < 0x1_0000
  {
    match m.security
    case None => None
    case Some(x) =>
      Some(SecurityHead(x.signature.Some?, x.encrypted, x.forceKeyReset, x.tokenId, x.nonce,
                        if x.footer.Some? then Some(|x.footer.value|) else None))
  }

  lemma OctetsAt(s: bytes, p: nat, b: bytes)
    requires At(s, p, b)
    ensures DecOctets(s, p, |b|) == Done(b, p + |b|)
  {
  }

  lemma SecurityAt(s: bytes, p: nat, m: NetworkMessage)
    requires m.security.Some? ==>
      |m.security.value.nonce| < 256 && (m.security.value.footer.Some? ==> |m.security.value.footer.value| < 0x1_0000)
    requires At(s, p, EncSecurity(m))
    ensures DecSecurity(s, p, m.security.Some?) == Done(SecurityHeadOf(m), p + |EncSecurity(m)|)
  {
    hide At, Has, SecurityFlags, LE, DecByte, DecU32, DecOctets, DecOpt16, DecSecurity;
    if m.security.Some? {
      var x := m.security.value;
      var b, size := SecurityFlags(x), if x.footer.Some? then Some(|x.footer.value|) else None;
      var e := if x.footer.Some? then LE(|x.footer.value|, 2) else [];
      AtSplit5(s, p, [b], LE(x.tokenId, 4), [|x.nonce|], x.nonce, e);
      Pow256Values();
      ByteAt(s, p, b);
      FixedAt(s, p + 1, x.tokenId, 4);
      ByteAt(s, p + 5, |x.nonce|);
      OctetsAt(s, p + 6, x.nonce);
      assert e == OptLE(size, 2);
      Opt16At(s, p + 6 + |x.nonce|, size);
      SecurityFlagBits(x);
      SecurityChain(s, p, b, x.tokenId, x.nonce, size, p + |EncSecurity(m)|);
    } else {
      assert DecSecurity(s, p, false) == Done(None, p) by { NoSecurity(s, p); }
    }
  }

  lemma NoSecurity(s: bytes, p: nat)
    ensures DecSecurity(s, p, false) == Done(None, p)
  {
  }

  lemma SecurityFlagBits(x: Security)
    ensures var b := SecurityFlags(x);
            Has(b, 0) == x.signature.Some? && Has(b, 1) == x.encrypted && Has(b, 2) == x.footer.Some? && Has(b, 3) == x.forceKeyReset
  {
    FourMarks(x.signature.Some?, x.encrypted, x.footer.Some?, x.forceKeyReset);
  }

  lemma SecurityChain(s: bytes, p: nat, b: u8, tokenId: u32, nonce: bytes, size: Option<u16>, q: nat)
    requires |nonce| < 256 && DecByte(s, p) == Done(b, p + 1) && DecU32(s, p + 1) == Done(tokenId, p + 5)
    requires DecByte(s, p + 5) == Done(|nonce|, p + 6) && DecOctets(s, p + 6, |nonce|) == Done(nonce, p + 6 + |nonce|)
    requires DecOpt16(s, p + 6 + |nonce|, Has(b, 2)) == Done(size, q)
    ensures DecSecurity(s, p, true) == Done(Some(SecurityHead(Has(b, 0), Has(b, 1), Has(b, 3), tokenId, nonce, size)), q)
  {
    hide Has, DecByte, DecU32, DecOctets, DecOpt16;
  }

  // ----- payload -----

  lemma SizesAt(T: Table, m: NetworkMessage, s: bytes, p: nat)
    requires NmTyped(T, m) && HeadOk(m) && At(s, p, EncSizes(T, m))
    ensures DecSizes(s, p, m.payloadHeader) ==
            Done(if m.payloadHeader.Some? && MessageCount(m) > 1 then Some(SentSizes(T, m.messages, m.sizes)) else None,
                 p + |EncSizes(T, m)|)
  {
    hide At, EncU16s, DecU16s, SentSizes;
    if m.payloadHeader.Some? && MessageCount(m) > 1 {
      U16sAt(s, p, SentSizes(T, m.messages, m.sizes));
    }
  }

  lemma TrailerAt(m: NetworkMessage, s: bytes, p: nat)
    requires TrailerOk(m) && At(s, p, EncTrailer(m))
    ensures DecTrailer(s, p, SecurityHeadOf(m)) == Done(m.security, p + |EncTrailer(m)|)
  {
    hide At, EncStr, DecOptStr, DecOctets;
    if m.security.Some? {
      var x := m.security.value;
      var footer := if x.footer.Some? then x.footer.value else [];
      AtSplit(s, p, footer, if x.signature.Some? then EncStr(x.signature.value) else []);
      OctetsAt(s, p, footer);
      OptStrAt(s, p + |footer|, x.signature);
    }
  }

  lemma MiddleRoundTrip(T: Table, m: NetworkMessage, s: bytes, p: nat, f: Flags)
    requires NmTyped(T, m) && NmOk(T, m) && Announces(f, m) && At(s, p, EncMiddle(T, m))
    ensures var q, r := p + |EncMiddle(T, m)|, DecMiddle(T, s, p, f);
            if m.promoted.Some? ==> PromotedSurvive(T, m.promoted.value, |EncSecurity(m)| + Rest(s, q))
            then r == Done(Middle(m.timestamp, m.picoseconds, CanonNm(T, m).promoted, SecurityHeadOf(m)), q)
            else r.Done? ==> r.v.promoted != CanonNm(T, m).promoted
  {
    hide At, Has, OptLE, EncPromoted, EncSecurity, DecOpt64, DecOpt16, DecPromoted, DecSecurity, PromotedSurvive,
         CanonVariants, VariantsOk, DsmsOk;
    var a, b, c := OptLE(m.timestamp, 8), OptLE(m.picoseconds, 2), EncPromoted(T, m);
    AtSplit(s, p, a + b + c, EncSecurity(m));
    AtSplit(s, p, a + b, c);
    AtSplit(s, p, a, b);
    Opt64At(s, p, m.timestamp);
    Opt16At(s, p + |a|, m.picoseconds);
    AtEnd(s, p + |a + b + c|, EncSecurity(m));
    PromotedRoundTrip(T, m, s, p + |a + b|);
    SecurityAt(s, p + |a + b + c|, m);
  }

  lemma PayloadRoundTrip(T: Table, m: NetworkMessage, s: bytes, p: nat)
    requires NmTyped(T, m) && NmOk(T, m) && At(s, p, EncPayload(T, m))
    ensures var q := p + |EncPayload(T, m)|;
            Outcome(DsmsSurvive(T, m.messages, |EncTrailer(m)| + Rest(s, q)),
                    DecPayload(T, s, p, m.payloadHeader, SecurityHeadOf(m)),
                    Payload(CanonNm(T, m).sizes, CanonDsms(T, m.messages), m.security), q)
  {
    hide At, EncSizes, EncDsms, EncTrailer, DecSizes, DecDsms, DecTrailer, DsmsSurvive, CanonDsms, DsmsOk, VariantsOk, SentSizes, CanonVariants;
    AtSplit(s, p, EncSizes(T, m) + EncDsms(T, m.messages), EncTrailer(m));
    AtSplit(s, p, EncSizes(T, m), EncDsms(T, m.messages));
    SizesAt(T, m, s, p);
    var p1 := p + |EncSizes(T, m)|;
    var p2 := p1 + |EncDsms(T, m.messages)|;
    AtEnd(s, p2, EncTrailer(m));
    DsmsRoundTrip(T, m.messages, s, p1);
    TrailerAt(m, s, p2);
  }

  /** Decoding an encodable message followed by anything gives the canonical message and stops at its
      end exactly when the message survives; otherwise it never gives that message. */
  lemma NmRoundTrip(T: Table, m: NetworkMessage, s: bytes, p: nat)
    requires NmTyped(T, m) && NmOk(T, m) && At(s, p, EncNm(T, m))
    ensures var q := p + |EncNm(T, m)|;
            Outcome(NmSurvives(T, m, Rest(s, q)), DecNm(T, s, p), CanonNm(T, m), q)
  {
    hide At, EncHead, EncMiddle, EncPayload, DecHead, DecMiddle, DecPayload, Has, DsmsSurvive, PromotedSurvive, CanonDsms,
         CanonVariants, SentSizes, EncSecurity, EncTrailer, NmOk, DsmsOk, VariantsOk;
    if m.version < 16 && m.publisherIdType < 8 {
      AtSplit(s, p, EncHead(m) + EncMiddle(T, m), EncPayload(T, m));
      AtSplit(s, p, EncHead(m), EncMiddle(T, m));
      assert HeadOk(m) && m.messageType == DATASET by { OkParts(T, m); }
      HeadAt(s, p, m);
      var f := DecHead(s, p).v.flags;
      var p1 := p + |EncHead(m)|;
      var p2 := p1 + |EncMiddle(T, m)|;
      AtEnd(s, p2, EncPayload(T, m));
      MiddleRoundTrip(T, m, s, p1, f);
      PayloadRoundTrip(T, m, s, p2);
    }
  }

  lemma OkParts(T: Table, m: NetworkMessage)
    requires NmTyped(T, m) && NmOk(T, m)
    ensures HeadOk(m) && m.messageType == DATASET
  {
  }
}
