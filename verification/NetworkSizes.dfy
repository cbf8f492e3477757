/** The size oracle for messages, and what the sizes array says about the payload. */
module NetworkSizes {
  import opened Bytes
  import opened Types
  import opened Wire
  import opened Parse
  import opened Survival
  import opened Faithful
  import opened SizeOracle
  import opened NetworkMessage
  import opened NetworkParse
  import opened NetworkFaithful
  import opened Layout

  // ----- the oracle's excess over the encoding -----

  function KeyFieldSlack(T: Table, encoding: u8, f: DataValue): int
    requires VariantTyped(T, f.value)
  {
    if encoding == ENC_VARIANT || f.hasValue then VariantSlack(T, f.value) else 0
  }

  function KeyFieldsSlack(T: Table, encoding: u8, fs: seq<DataValue>): int
    requires FieldsAre(T, fs)
  {
    if fs == [] then 0 else KeyFieldSlack(T, encoding, fs[0]) + KeyFieldsSlack(T, encoding, fs[1..])
  }

  function DeltaFieldsSlack(T: Table, encoding: u8, fs: seq<DeltaField>): int
    requires DeltasAre(T, fs)
  {
    if fs == [] then 0 else KeyFieldSlack(T, encoding, fs[0].value) + DeltaFieldsSlack(T, encoding, fs[1..])
  }

  function DsmSlack(T: Table, x: DataSetMessage): int
    requires DsmTyped(T, x)
  {
    if !HasFields(x.fieldEncoding) then 0
    else if x.messageType == DATAKEYFRAME then KeyFieldsSlack(T, x.fieldEncoding, x.frame.fields)
    else if x.messageType == DATADELTAFRAME then DeltaFieldsSlack(T, x.fieldEncoding, x.frame.deltas)
    else 0
  }

  function DsmsSlack(T: Table, xs: seq<DataSetMessage>): int
    requires DsmsAre(T, xs)
  {
    if xs == [] then 0 else DsmSlack(T, xs[0]) + DsmsSlack(T, xs[1..])
  }

  function VariantsSlack(T: Table, xs: seq<Variant>): int
    requires VariantsAre(T, xs)
  {
    if xs == [] then 0 else VariantSlack(T, xs[0]) + VariantsSlack(T, xs[1..])
  }

  function PromotedSlack(T: Table, m: NetworkMessage): int
    requires m.promoted.Some? ==> VariantsAre(T, m.promoted.value)
  {
    if m.promoted.Some? then VariantsSlack(T, m.promoted.value) else 0
  }

  /** One width gap per ExtensionObject written anywhere in the message. */
  function NmSlack(T: Table, m: NetworkMessage): int
    requires NmTyped(T, m)
  {
    PromotedSlack(T, m) + DsmsSlack(T, m.messages)
  }

  lemma KeyFieldSizeExact(T: Table, encoding: u8, f: DataValue)
    requires VariantTyped(T, f.value) && KeyFieldOk(T, encoding, f)
    ensures KeyFieldSize(T, encoding, f) == |EncKeyField(T, encoding, f)| + KeyFieldSlack(T, encoding, f)
  {
    hide EncVariant, VariantSize, VariantOk, VariantSlack;
    if encoding == ENC_VARIANT || f.hasValue {
      VariantSizeExact(T, f.value, 0);
    }
    StampsSize(f);
  }

  lemma {:induction false} KeyFieldsSizeExact(T: Table, encoding: u8, fs: seq<DataValue>)
    requires FieldsAre(T, fs) && KeyFieldsOk(T, encoding, fs)
    ensures KeyFieldsSize(T, encoding, fs) == |EncKeyFields(T, encoding, fs)| + KeyFieldsSlack(T, encoding, fs)
  {
    hide EncKeyField, KeyFieldSize, KeyFieldOk, KeyFieldSlack;
    if fs != [] {
      KeyFieldSizeExact(T, encoding, fs[0]);
      KeyFieldsSizeExact(T, encoding, fs[1..]);
    }
  }

  lemma {:induction false} DeltasSizeExact(T: Table, encoding: u8, fs: seq<DeltaField>)
    requires DeltasAre(T, fs) && DeltaFieldsOk(T, encoding, fs)
    ensures DeltaFieldsSize(T, encoding, fs) == |EncDeltaFields(T, encoding, fs)| + DeltaFieldsSlack(T, encoding, fs)
  {
    hide EncKeyField, KeyFieldSize, KeyFieldOk, KeyFieldSlack;
    if fs != [] {
      KeyFieldSizeExact(T, encoding, fs[0].value);
      DeltasSizeExact(T, encoding, fs[1..]);
    }
  }

  lemma FrameSizeExact(T: Table, x: DataSetMessage)
    requires DsmTyped(T, x) && DsmOk(T, x)
    ensures FrameSize(T, x) == |EncFrame(T, x)| + DsmSlack(T, x)
  {
    hide EncKeyFields, KeyFieldsSize, KeyFieldsOk, KeyFieldsSlack, EncDeltaFields, DeltaFieldsSize, DeltaFieldsOk, DeltaFieldsSlack,
         LE, FieldsAre, DeltasAre;
    if HasFields(x.fieldEncoding) {
      if x.messageType == DATAKEYFRAME {
        KeyFieldsSizeExact(T, x.fieldEncoding, x.frame.fields);
      } else if x.messageType == DATADELTAFRAME {
        DeltasSizeExact(T, x.fieldEncoding, x.frame.deltas);
      }
    }
  }

  /** The size oracle for a DataSetMessage errs by the slack of its fields. */
  lemma DsmSizeExact(T: Table, x: DataSetMessage)
    requires DsmTyped(T, x) && DsmOk(T, x)
    ensures DsmSize(T, x) == |EncDsm(T, x)| + DsmSlack(T, x)
  {
    hide EncFrame, FrameSize, DsmOk, DsmTyped, DsmSlack, DsmHeader;
    FrameSizeExact(T, x);
  }

  lemma {:induction false} DsmsSizeExact(T: Table, xs: seq<DataSetMessage>)
    requires DsmsAre(T, xs) && DsmsOk(T, xs)
    ensures DsmsSize(T, xs) == |EncDsms(T, xs)| + DsmsSlack(T, xs)
  {
    hide EncDsm, DsmSize, DsmOk, DsmTyped, DsmSlack;
    if xs != [] {
      DsmSizeExact(T, xs[0]);
      DsmsSizeExact(T, xs[1..]);
    }
  }

  lemma {:induction false} VariantsSizeExact(T: Table, xs: seq<Variant>)
    requires VariantsAre(T, xs) && VariantsOk(T, xs)
    ensures VariantsSize(T, xs) == |EncVariants(T, xs)| + VariantsSlack(T, xs)
  {
    hide EncVariant, VariantSize, VariantOk, VariantSlack;
    if xs != [] {
      VariantSizeExact(T, xs[0], 0);
      VariantsSizeExact(T, xs[1..]);
    }
  }

  // ----- segment by segment -----

  /** Every segment has the size the oracle gives it. */
  predicate Tight(L: seq<Seg>) {
    forall x | x in L :: x.n == |x.b|
  }

  lemma {:induction false} TightTotal(L: seq<Seg>)
    requires Tight(L)
    ensures Total(L) == |Octets(L)|
  {
    if L != [] {
      assert L[0] in L;
      TightTotal(L[1..]);
    }
  }

  lemma TightCat(a: seq<Seg>, b: seq<Seg>)
    ensures Tight(a + b) <==> Tight(a) && Tight(b)
  {
    assert forall x | x in a || x in b :: x in a + b;
  }

  predicate FieldsMeasured(T: Table, encoding: u8, fs: seq<DataValue>)
    requires FieldsAre(T, fs)
  {
    fs != [] ==> KeyFieldSlack(T, encoding, fs[0]) == 0 && FieldsMeasured(T, encoding, fs[1..])
  }

  predicate DsmMeasured(T: Table, x: DataSetMessage)
    requires DsmTyped(T, x)
  {
    if HasEntries(x) then FieldsMeasured(T, x.fieldEncoding, x.frame.fields) else DsmSlack(T, x) == 0
  }

  predicate DsmsMeasured(T: Table, xs: seq<DataSetMessage>)
    requires DsmsAre(T, xs)
  {
    xs != [] ==> DsmMeasured(T, xs[0]) && DsmsMeasured(T, xs[1..])
  }

  /** The slack is zero for each key-frame field, for each other frame, and for the promoted fields. */
  predicate Measured(T: Table, m: NetworkMessage)
    requires NmTyped(T, m)
  {
    PromotedSlack(T, m) == 0 && DsmsMeasured(T, m.messages)
  }

  lemma {:induction false} FieldsTight(T: Table, encoding: u8, fs: seq<DataValue>, i: nat, j: nat)
    requires FieldsAre(T, fs) && KeyFieldsOk(T, encoding, fs)
    ensures Tight(LayoutFields(T, encoding, fs, i, j)) <==> FieldsMeasured(T, encoding, fs)
    decreases fs
  {
    hide EncKeyField, KeyFieldSize, KeyFieldOk, KeyFieldSlack;
    if fs != [] {
      var L := LayoutFields(T, encoding, fs, i, j);
      KeyFieldSizeExact(T, encoding, fs[0]);
      FieldsTight(T, encoding, fs[1..], i, j + 1);
      TightCat([L[0]], LayoutFields(T, encoding, fs[1..], i, j + 1));
    }
  }

  lemma DsmTight(T: Table, x: DataSetMessage, i: nat)
    requires DsmTyped(T, x) && DsmOk(T, x)
    ensures Tight(LayoutDsm(T, x, i)) <==> DsmMeasured(T, x)
  {
    hide LayoutDsmHeader, LayoutFrame, DsmTyped, DsmOk, DsmMeasured, Tight;
    HeaderTight(x, i);
    FrameTight(T, x, i);
    TightCat(LayoutDsmHeader(x, i), LayoutFrame(T, x, i));
  }

  lemma HeaderTight(x: DataSetMessage, i: nat)
    ensures Tight(LayoutDsmHeader(x, i))
  {
    hide DsmFlags, DsmHeaderRest, OptLE;
    OptLength(x.sequenceNr, 2);
  }

  lemma FrameTight(T: Table, x: DataSetMessage, i: nat)
    requires DsmTyped(T, x) && DsmOk(T, x)
    ensures Tight(LayoutFrame(T, x, i)) <==> DsmMeasured(T, x)
  {
    hide EncFrame, FrameSize, KeyFieldsOk, DeltaFieldsOk, DsmSlack, LayoutFields, LE, FieldsAre, DeltasAre, FieldsMeasured, Tight;
    if HasEntries(x) {
      var n := Lit(LE(|x.frame.fields|, 2), 2);
      FieldsTight(T, x.fieldEncoding, x.frame.fields, i, 0);
      OneTight(n);
      TightCat([n], LayoutFields(T, x.fieldEncoding, x.frame.fields, i, 0));
    } else {
      FrameSizeExact(T, x);
      OneTight(Lit(EncFrame(T, x), FrameSize(T, x)));
    }
  }

  lemma OneTight(x: Seg)
    ensures Tight([x]) <==> x.n == |x.b|
  {
    assert x in [x];
  }

  lemma {:induction false} DsmsTight(T: Table, xs: seq<DataSetMessage>, i: nat)
    requires DsmsAre(T, xs) && DsmsOk(T, xs)
    ensures Tight(LayoutDsms(T, xs, i)) <==> DsmsMeasured(T, xs)
    decreases xs
  {
    hide LayoutDsm, DsmOk, DsmTyped, DsmMeasured;
    if xs != [] {
      DsmTight(T, xs[0], i);
      DsmsTight(T, xs[1..], i + 1);
      TightCat(LayoutDsm(T, xs[0], i), LayoutDsms(T, xs[1..], i + 1));
    }
  }

  lemma HeadTight(T: Table, m: NetworkMessage, rt: bool)
    requires NmTyped(T, m) && HeadOk(m)
    ensures Tight(LayoutHead(m, rt))
  {
    hide EncFlags, EncClassId, GroupFlags, LE, DsmsAre, VariantsAre, EncU16s, OptLE, StrOk, EncStr, StrSize;
    if m.groupHeader.Some? {
      var g := m.groupHeader.value;
      OptLength(g.writerGroupId, 2);
      OptLength(g.groupVersion, 4);
      OptLength(g.networkMessageNumber, 2);
      OptLength(g.sequenceNumber, 2);
    }
    if m.publisherId.Some? && m.publisherId.value.IdString? {
      StrSizeExact(m.publisherId.value.s);
    }
  }

  lemma MiddleTight(T: Table, m: NetworkMessage)
    requires NmTyped(T, m) && NmOk(T, m)
    ensures Tight(LayoutMiddle(T, m)) <==> PromotedSlack(T, m) == 0
  {
    hide EncSecurity, OptLE, EncVariants, VariantsSize, VariantsSlack, LE, VariantsOk, DsmsOk;
    OptLength(m.timestamp, 8);
    OptLength(m.picoseconds, 2);
    if m.promoted.Some? {
      VariantsSizeExact(T, m.promoted.value);
    }
    assert LayoutMiddle(T, m)[2] in LayoutMiddle(T, m);
  }

  lemma PayloadTight(T: Table, m: NetworkMessage)
    requires NmTyped(T, m) && NmOk(T, m)
    ensures Tight(LayoutPayload(T, m)) <==> DsmsMeasured(T, m.messages)
    ensures Tight([Lit(EncSizes(T, m), SizesSize(m))]) && Tight([Lit(EncTrailer(m), TrailerSize(m))])
  {
    hide EncU16s, SentSizes, LayoutDsms, EncStr, StrSize, DsmsOk, VariantsOk, DsmsMeasured, Tight;
    var a, z := Lit(EncSizes(T, m), SizesSize(m)), Lit(EncTrailer(m), TrailerSize(m));
    DsmsTight(T, m.messages, 0);
    if m.security.Some? && m.security.value.signature.Some? {
      StrSizeExact(m.security.value.signature.value);
    }
    OneTight(a);
    OneTight(z);
    TightCat([a], LayoutDsms(T, m.messages, 0));
    TightCat([a] + LayoutDsms(T, m.messages, 0), [z]);
  }

  /** The oracle is right about every part of the message's layout exactly when the message is measured. */
  lemma LayoutTight(T: Table, m: NetworkMessage, rt: bool)
    requires NmTyped(T, m) && NmOk(T, m)
    ensures Tight(LayoutNm(T, m, rt)) <==> Measured(T, m)
  {
    hide LayoutHead, LayoutMiddle, LayoutPayload, DsmsOk, VariantsOk, TrailerOk, Tight, PromotedSlack, DsmsMeasured;
    HeadTight(T, m, rt);
    MiddleTight(T, m);
    PayloadTight(T, m);
    TightCat(LayoutHead(m, rt), LayoutMiddle(T, m));
    TightCat(LayoutHead(m, rt) + LayoutMiddle(T, m), LayoutPayload(T, m));
  }

  /** The size oracle gives the length of every message the encoder accepts, plus the slack; so it is exact
      precisely when the slack is zero. */
  lemma NmSizeExact(T: Table, m: NetworkMessage)
    requires NmTyped(T, m) && NmOk(T, m)
    ensures NmSize(T, m) == |EncNm(T, m)| + NmSlack(T, m)
  {
    hide NmTyped, NmOk, LayoutHead, LayoutMiddle, LayoutPayload, EncHead, EncMiddle, LayoutDsms, EncSizes, SizesSize, OptSize,
         EncTrailer, TrailerSize, EncDsms, DsmsSize, PromotedSlack, DsmsSlack, OptLE, EncFlags, EncClassId, EncGroup, EncPayloadHeader,
         PublisherIdSize, VariantsSize, EncSecurity, Tight, DsmsAre, DsmsOk, MessageCount;
    SizeParts(T, m);
    HeadTight(T, m, false);
    TightTotal(LayoutHead(m, false));
    HeadOctets(m, false);
    MiddleLength(T, m);
    DsmsSizeExact(T, m.messages);
    PayloadTight(T, m);
    OneTight(Lit(EncSizes(T, m), SizesSize(m)));
    OneTight(Lit(EncTrailer(m), TrailerSize(m)));
  }

  lemma SizeParts(T: Table, m: NetworkMessage)
    requires NmTyped(T, m) && NmOk(T, m)
    ensures HeadOk(m) && MessageCount(m) < 256 && DsmsAre(T, m.messages) && DsmsOk(T, m.messages)
    ensures m.messageType == DATASET && m.payloadHeader != Some(NoWriterIds)
    ensures m.promoted.Some? ==> VariantsAre(T, m.promoted.value) && VariantsOk(T, m.promoted.value)
    ensures m.security.Some? ==> |m.security.value.nonce| < 256
  {
  }

  lemma MiddleLength(T: Table, m: NetworkMessage)
    requires NmTyped(T, m) && NmOk(T, m)
    ensures OptSize(m.timestamp, 8) + OptSize(m.picoseconds, 2) + (if m.promoted.Some? then 2 + VariantsSize(T, m.promoted.value) else 0)
            + |EncSecurity(m)| == |EncMiddle(T, m)| + PromotedSlack(T, m)
  {
    hide EncSecurity, OptLE, EncVariants, VariantsSize, VariantsSlack, LE, VariantsOk, DsmsOk;
    OptLength(m.timestamp, 8);
    OptLength(m.picoseconds, 2);
    if m.promoted.Some? {
      VariantsSizeExact(T, m.promoted.value);
    }
  }

  // ----- which messages are measured -----

  lemma {:induction false} FieldsMeasuredSum(T: Table, encoding: u8, fs: seq<DataValue>)
    requires FieldsAre(T, fs) && FieldsMeasured(T, encoding, fs)
    ensures KeyFieldsSlack(T, encoding, fs) == 0
  {
    hide KeyFieldSlack;
    if fs != [] {
      FieldsMeasuredSum(T, encoding, fs[1..]);
    }
  }

  lemma DsmMeasuredSum(T: Table, x: DataSetMessage)
    requires DsmTyped(T, x) && DsmMeasured(T, x)
    ensures DsmSlack(T, x) == 0
  {
    hide FieldsAre, DeltasAre, FieldsMeasured, KeyFieldsSlack, DeltaFieldsSlack;
    if HasEntries(x) {
      FieldsMeasuredSum(T, x.fieldEncoding, x.frame.fields);
    }
  }

  lemma {:induction false} DsmsMeasuredSum(T: Table, xs: seq<DataSetMessage>)
    requires DsmsAre(T, xs) && DsmsMeasured(T, xs)
    ensures DsmsSlack(T, xs) == 0
  {
    hide DsmTyped, DsmMeasured, DsmSlack;
    if xs != [] {
      DsmMeasuredSum(T, xs[0]);
      DsmsMeasuredSum(T, xs[1..]);
    }
  }

  /** For measured messages the oracle is exact. */
  lemma MeasuredSum(T: Table, m: NetworkMessage)
    requires NmTyped(T, m) && Measured(T, m)
    ensures NmSlack(T, m) == 0
  {
    hide PromotedSlack, DsmsMeasured, DsmsSlack;
    DsmsMeasuredSum(T, m.messages);
  }

  /** A Variant in which no ExtensionObject is written, whatever the table holds. */
  predicate Plain(T: Table, x: Variant) {
    match x
    case Empty => true
    case Scalar(ty, v) => ty < |T| && !Wrapped(T, ty) && IsLeaf(v)
    case Array(ty, arr, _) => ty < |T| && T[ty].overlayable
  }

  /** Scalars of the built-in types that hold no Variant or ExtensionObject, and arrays of the types that are
      copied, have no slack over any table. */
  lemma PlainSlack(T: Table, x: Variant)
    requires VariantTyped(T, x) && Plain(T, x)
    ensures VariantSlack(T, x) == 0
  {
    if x.Array? {
      assert TypeOk(|T|, T[x.ty]);
    }
  }

  lemma {:induction false} AgreeFields(T: Table, encoding: u8, fs: seq<DataValue>)
    requires FieldsAre(T, fs) && WidthsAgree(T)
    ensures FieldsMeasured(T, encoding, fs)
  {
    hide WidthsAgree, VariantSlack;
    if fs != [] {
      AgreeFields(T, encoding, fs[1..]);
    }
  }

  lemma {:induction false} AgreeDeltas(T: Table, encoding: u8, fs: seq<DeltaField>)
    requires DeltasAre(T, fs) && WidthsAgree(T)
    ensures DeltaFieldsSlack(T, encoding, fs) == 0
  {
    hide WidthsAgree, VariantSlack;
    if fs != [] {
      AgreeDeltas(T, encoding, fs[1..]);
    }
  }

  lemma {:induction false} AgreeDsms(T: Table, xs: seq<DataSetMessage>)
    requires DsmsAre(T, xs) && WidthsAgree(T)
    ensures DsmsMeasured(T, xs)
  {
    hide WidthsAgree, DsmTyped, DsmMeasured;
    if xs != [] {
      AgreeDsm(T, xs[0]);
      AgreeDsms(T, xs[1..]);
    }
  }

  lemma AgreeDsm(T: Table, x: DataSetMessage)
    requires DsmTyped(T, x) && WidthsAgree(T)
    ensures DsmMeasured(T, x)
  {
    hide WidthsAgree, FieldsAre, DeltasAre, FieldsMeasured, KeyFieldsSlack, DeltaFieldsSlack;
    if HasEntries(x) {
      AgreeFields(T, x.fieldEncoding, x.frame.fields);
    } else if HasFields(x.fieldEncoding) && x.messageType == DATADELTAFRAME {
      AgreeDeltas(T, x.fieldEncoding, x.frame.deltas);
    }
  }

  lemma {:induction false} AgreeVariants(T: Table, xs: seq<Variant>)
    requires VariantsAre(T, xs) && WidthsAgree(T)
    ensures VariantsSlack(T, xs) == 0
  {
    hide WidthsAgree, VariantSlack;
    if xs != [] {
      assert VariantSlack(T, xs[0]) == 0;
      AgreeVariants(T, xs[1..]);
    }
  }

  /** Over a table whose width classes all match, every message is measured. */
  lemma AgreeMeasured(T: Table, m: NetworkMessage)
    requires NmTyped(T, m) && WidthsAgree(T)
    ensures Measured(T, m)
  {
    hide WidthsAgree, DsmsMeasured, VariantsSlack;
    AgreeDsms(T, m.messages);
    if m.promoted.Some? {
      AgreeVariants(T, m.promoted.value);
    }
  }

  // ----- the promoted fields' size -----

  /** Each promoted field survives by itself. */
  predicate VariantsSurvive(T: Table, xs: seq<Variant>, r: int)
    requires VariantsAre(T, xs)
  {
    xs != [] ==> VariantSurvives(T, xs[0], |EncVariants(T, xs[1..])| + r, 0) && VariantsSurvive(T, xs[1..], r)
  }

  lemma NotEmpty(T: Table, x: Variant)
    requires VariantTyped(T, x)
    ensures |EncVariant(T, x)| >= 1
  {
  }

  /** The octets before the last field. */
  function BeforeLast(T: Table, xs: seq<Variant>): nat
    requires VariantsAre(T, xs) && xs != []
  {
    if |xs| == 1 then 0 else |EncVariant(T, xs[0])| + BeforeLast(T, xs[1..])
  }

  /** The announced size cuts the list at its end exactly when it reaches into the last field and not beyond it. */
  lemma {:induction false} FitExact(T: Table, xs: seq<Variant>, budget: nat, r: int)
    requires VariantsAre(T, xs) && xs != [] && budget > 0
    ensures PromotedFit(T, xs, budget, r) <==>
            VariantsSurvive(T, xs, r) && BeforeLast(T, xs) < budget <= |EncVariants(T, xs)|
    decreases xs
  {
    hide EncVariant, VariantSurvives;
    if |xs| == 1 {
      assert EncVariants(T, xs[1..]) == [] && VariantsSurvive(T, xs[1..], r);
    } else if |EncVariant(T, xs[0])| < budget {
      FitExact(T, xs[1..], budget - |EncVariant(T, xs[0])|, r);
    }
  }

  /** Promoted fields come back exactly when each of them does and the 16-bit size, which carries the oracle's
      excess, still reaches into the last one and not beyond it. */
  lemma PromotedExact(T: Table, xs: seq<Variant>, r: int)
    requires VariantsAre(T, xs) && VariantsOk(T, xs) && xs != []
    ensures 0 <= |EncVariants(T, xs)| + VariantsSlack(T, xs)
    ensures PromotedSurvive(T, xs, r) <==>
            VariantsSurvive(T, xs, r)
            && BeforeLast(T, xs) < (|EncVariants(T, xs)| + VariantsSlack(T, xs)) % 0x1_0000 <= |EncVariants(T, xs)|
  {
    hide EncVariants, VariantsSize, VariantsOk, VariantsSlack, VariantsSurvive, PromotedFit, BeforeLast;
    VariantsSizeExact(T, xs);
    if PromotedLength(T, xs) > 0 {
      FitExact(T, xs, PromotedLength(T, xs), r);
    }
  }

  lemma {:induction false} LastNotEmpty(T: Table, xs: seq<Variant>)
    requires VariantsAre(T, xs) && xs != []
    ensures BeforeLast(T, xs) < |EncVariants(T, xs)|
    decreases xs
  {
    hide EncVariant;
    NotEmpty(T, xs[0]);
    if |xs| > 1 {
      LastNotEmpty(T, xs[1..]);
    }
  }

  /** Promoted fields without slack and below 65536 octets in all come back whenever each of them does. */
  lemma PromotedBelowLimit(T: Table, xs: seq<Variant>, r: int)
    requires VariantsAre(T, xs) && VariantsOk(T, xs) && VariantsSlack(T, xs) == 0 && VariantsSurvive(T, xs, r)
    requires |EncVariants(T, xs)| < 0x1_0000
    ensures PromotedSurvive(T, xs, r)
  {
    hide EncVariants, VariantsSize, VariantsOk, VariantsSlack, VariantsSurvive, PromotedFit, BeforeLast;
    if xs != [] {
      LastNotEmpty(T, xs);
      PromotedExact(T, xs, r);
    }
  }

  // ----- the payload partition -----

  function Sum(ns: seq<nat>): nat {
    if ns == [] then 0 else ns[0] + Sum(ns[1..])
  }

  /** The caller supplies the length, or the message is below 65536 octets and its slack is lost in 16 bits. */
  predicate SizeRight(T: Table, x: DataSetMessage, given: Option<u16>)
    requires DsmTyped(T, x)
  {
    if given.Some? && given.value != 0 then given.value == |EncDsm(T, x)|
    else |EncDsm(T, x)| < 0x1_0000 && DsmSlack(T, x) % 0x1_0000 == 0
  }

  /** The size sent is the length of the message exactly under that condition. */
  lemma SentSizeRight(T: Table, x: DataSetMessage, given: Option<u16>)
    requires DsmTyped(T, x) && DsmOk(T, x)
    ensures SentSize(T, x, given) == |EncDsm(T, x)| <==> SizeRight(T, x, given)
  {
    hide EncDsm, DsmSize, DsmOk, DsmTyped, DsmSlack;
    DsmSizeExact(T, x);
    Reduced(|EncDsm(T, x)|, DsmSlack(T, x));
  }

  lemma Reduced(n: nat, k: int)
    ensures (n + k) % 0x1_0000 == n <==> n < 0x1_0000 && k % 0x1_0000 == 0
  {
  }

  function First(given: Option<seq<u16>>): Option<u16>
    requires given.Some? ==> given.value != []
  {
    if given.Some? then Some(given.value[0]) else None
  }

  function Others(given: Option<seq<u16>>): Option<seq<u16>>
    requires given.Some? ==> given.value != []
  {
    if given.Some? then Some(given.value[1..]) else None
  }

  predicate SizesRight(T: Table, xs: seq<DataSetMessage>, given: Option<seq<u16>>)
    requires DsmsAre(T, xs) && (given.Some? ==> |given.value| == |xs|)
    decreases xs
  {
    xs != [] ==> SizeRight(T, xs[0], First(given)) && SizesRight(T, xs[1..], Others(given))
  }

  function Lengths(T: Table, xs: seq<DataSetMessage>): (r: seq<nat>)
    requires DsmsAre(T, xs)
    ensures |r| == |xs|
  {
    if xs == [] then [] else [|EncDsm(T, xs[0])|] + Lengths(T, xs[1..])
  }

  /** The sizes array holds the lengths of the messages exactly when each size is right. */
  lemma {:induction false} SentAreLengths(T: Table, xs: seq<DataSetMessage>, given: Option<seq<u16>>)
    requires DsmsAre(T, xs) && (given.Some? ==> |given.value| == |xs|) && DsmsOk(T, xs)
    ensures SentSizes(T, xs, given) == Lengths(T, xs) <==> SizesRight(T, xs, given)
    decreases xs
  {
    hide EncDsm, SentSize, DsmOk, DsmTyped, SizeRight;
    if xs != [] {
      SentSizeRight(T, xs[0], First(given));
      SentAreLengths(T, xs[1..], Others(given));
      var s, n := SentSizes(T, xs, given), Lengths(T, xs);
      assert s[0] == SentSize(T, xs[0], First(given)) && s[1..] == SentSizes(T, xs[1..], Others(given));
      assert n[0] == |EncDsm(T, xs[0])| && n[1..] == Lengths(T, xs[1..]);
      SameList(s, n);
    }
  }

  lemma SameList(a: seq<nat>, b: seq<nat>)
    requires a != [] && b != []
    ensures a == b <==> a[0] == b[0] && a[1..] == b[1..]
  {
    if a[0] == b[0] && a[1..] == b[1..] {
      assert a == [a[0]] + a[1..] && b == [b[0]] + b[1..];
    }
  }

  lemma {:induction false} LengthsPartition(T: Table, xs: seq<DataSetMessage>, i: nat)
    requires DsmsAre(T, xs)
    ensures Sum(Lengths(T, xs)) == |EncDsms(T, xs)|
    ensures i < |xs| ==> DsmTyped(T, xs[i]) && Lengths(T, xs)[i] == |EncDsm(T, xs[i])|
                         && At(EncDsms(T, xs), Sum(Lengths(T, xs)[..i]), EncDsm(T, xs[i]))
    decreases xs
  {
    hide EncDsm, DsmTyped, At;
    if xs != [] {
      var n, tail := Lengths(T, xs), Lengths(T, xs[1..]);
      LengthsPartition(T, xs[1..], if i == 0 then 0 else i - 1);
      assert n[1..] == tail;
      if i == 0 {
        AtFront(EncDsm(T, xs[0]), EncDsms(T, xs[1..]));
      } else if i < |xs| {
        assert n[..i][1..] == tail[..i - 1];
        AtShift(EncDsm(T, xs[0]), EncDsms(T, xs[1..]), Sum(tail[..i - 1]), EncDsm(T, xs[i]));
      }
    }
  }

  /** The sizes sum to the payload's length, and the sum of the first i is where message i starts. */
  lemma Partition(T: Table, xs: seq<DataSetMessage>, given: Option<seq<u16>>, i: nat)
    requires DsmsAre(T, xs) && (given.Some? ==> |given.value| == |xs|)
    requires DsmsOk(T, xs) && SizesRight(T, xs, given)
    ensures Sum(SentSizes(T, xs, given)) == |EncDsms(T, xs)|
    ensures i < |xs| ==> DsmTyped(T, xs[i]) && SentSizes(T, xs, given)[i] == |EncDsm(T, xs[i])|
                         && At(EncDsms(T, xs), Sum(SentSizes(T, xs, given)[..i]), EncDsm(T, xs[i]))
  {
    hide EncDsm, DsmTyped, At, SentSizes, Lengths, SizesRight, DsmsOk, EncDsms, Sum;
    SentAreLengths(T, xs, given);
    LengthsPartition(T, xs, i);
  }

  lemma AtFront(a: bytes, b: bytes)
    ensures At(a + b, 0, a)
  {
  }

  lemma AtShift(a: bytes, b: bytes, p: nat, e: bytes)
    requires At(b, p, e)
    ensures At(a + b, |a| + p, e)
  {
    assert (a + b)[|a| + p..|a| + p + |e|] == b[p..p + |e|];
  }

  lemma AtInside(s: bytes, q: nat, b: bytes, p: nat, e: bytes)
    requires At(s, q, b) && At(b, p, e)
    ensures At(s, q + p, e)
  {
    forall k | 0 <= k < |e| ensures s[q + p + k] == e[k] {
      assert s[q..q + |b|][p + k] == b[p..p + |e|][k];
    }
  }

  /** A reader of the sizes array can decode message i alone, without the messages before it. */
  lemma SeekMessage(T: Table, m: NetworkMessage, s: bytes, q: nat, i: nat)
    requires NmTyped(T, m) && DsmsOk(T, m.messages) && SizesRight(T, m.messages, m.sizes)
    requires At(s, q, EncDsms(T, m.messages)) && i < |m.messages|
    ensures var p := q + Sum(SentSizes(T, m.messages, m.sizes)[..i]);
            var end := p + SentSizes(T, m.messages, m.sizes)[i];
            Outcome(DsmSurvives(T, m.messages[i], Rest(s, end)), DecDsm(T, s, p), CanonDsm(T, m.messages[i]), end)
  {
    hide EncDsm, EncDsms, SentSizes, At, SizesRight, DsmSurvives, DecDsm, CanonDsm, DsmsAre, DsmTyped, DsmOk;
    Partition(T, m.messages, m.sizes, i);
    AllOk(T, m.messages, i);
    var p := Sum(SentSizes(T, m.messages, m.sizes)[..i]);
    AtInside(s, q, EncDsms(T, m.messages), p, EncDsm(T, m.messages[i]));
    DsmRoundTrip(T, m.messages[i], s, q + p);
  }

  lemma {:induction false} AllOk(T: Table, xs: seq<DataSetMessage>, i: nat)
    requires DsmsAre(T, xs) && DsmsOk(T, xs) && i < |xs|
    ensures DsmTyped(T, xs[i]) && DsmOk(T, xs[i])
  {
    hide DsmOk, DsmTyped;
    if i > 0 {
      AllOk(T, xs[1..], i - 1);
    }
  }
}
