/** UADP messages in numbers: message types, field encodings, flags and widths written out, for all messages and all sources. */
module NetworkFormat {
  import opened Bytes
  import opened Types
  import opened Wire
  import opened Parse
  import opened Survival
  import opened WireFormat
  import opened NetworkMessage
  import opened NetworkParse

  // ----- which trees are messages -----

  /** Frames of type 0 and 1 fit the field encoding: 0 and 2 have fields, 1 anything, all others a count. */
  lemma DsmTypedExact(T: Table, x: DataSetMessage)
    ensures DsmTyped(T, x) <==>
      var e, fields := x.fieldEncoding, x.fieldEncoding == 0 || x.fieldEncoding == 2;
      && (x.messageType <= 1 && e > 2 ==> x.frame.BareCount?)
      && (x.messageType == 0 && fields ==>
            && x.frame.KeyFrame? && |x.frame.fields| < 0x1_0000
            && forall i | 0 <= i < |x.frame.fields| :: VariantTyped(T, x.frame.fields[i].value))
      && (x.messageType == 1 && fields ==>
            && x.frame.DeltaFrame? && |x.frame.deltas| < 0x1_0000
            && forall i | 0 <= i < |x.frame.deltas| :: VariantTyped(T, x.frame.deltas[i].value.value))
  {
    hide VariantTyped;
  }

  /** A message for each writer id, or a single one, and counts within their fields' widths. */
  lemma NmTypedExact(T: Table, m: NetworkMessage)
    ensures NmTyped(T, m) <==>
      var n := match m.payloadHeader case Some(WriterIds(ids)) => |ids| case _ => 1;
      && n < 256 && |m.messages| == n && (forall i | 0 <= i < n :: DsmTyped(T, m.messages[i]))
      && (m.sizes.Some? ==> |m.sizes.value| == n)
      && (m.publisherId.Some? ==>
            match m.publisherId.value
            case IdNumber(k) =>
              if m.publisherIdType == 0 then k < 0x100
              else if m.publisherIdType == 1 then k < 0x1_0000
              else if m.publisherIdType == 2 then k < 0x1_0000_0000
              else if m.publisherIdType == 3 then k < 0x1_0000_0000_0000_0000
              else m.publisherIdType > 4
            case IdString(_) => m.publisherIdType >= 4)
      && (m.promoted.Some? ==>
            |m.promoted.value| < 0x1_0000 && forall i | 0 <= i < |m.promoted.value| :: VariantTyped(T, m.promoted.value[i]))
      && (m.security.Some? ==> |m.security.value.nonce| < 256)
      && (m.security.Some? && m.security.value.footer.Some? ==> |m.security.value.footer.value| < 0x1_0000)
  {
    hide DsmTyped, VariantTyped, Pow256;
    Pow256Values();
  }

  // ----- flags of a DataSetMessage -----

  /** Valid at 1, field encoding at 2, then sequence number, status, major and minor version, and the second octet. */
  lemma DsmFirstFlags(x: DataSetMessage)
    requires x.fieldEncoding < 4
    ensures DsmFlags1(x) == 2 * x.fieldEncoding + Weight(x.valid, 1) + Weight(x.sequenceNr.Some?, 8) + Weight(x.status.Some?, 16)
                            + Weight(x.major.Some?, 32) + Weight(x.minor.Some?, 64)
                            + Weight(x.messageType != 0 || x.timestamp.Some? || x.picoSeconds.Some?, 128)
  {
    hide Mark, Pow2, Has;
    Powers();
    FlagRead(2 * x.fieldEncoding);
    MarkAdds(2 * x.fieldEncoding, 0, x.valid);
    var m0 := 2 * x.fieldEncoding + Weight(x.valid, 1);
    MarkTop(m0, 3, x.sequenceNr.Some?);
    var m1 := m0 + Weight(x.sequenceNr.Some?, 8);
    MarkTop(m1, 4, x.status.Some?);
    var m2 := m1 + Weight(x.status.Some?, 16);
    MarkTop(m2, 5, x.major.Some?);
    var m3 := m2 + Weight(x.major.Some?, 32);
    MarkTop(m3, 6, x.minor.Some?);
    MarkTop(m3 + Weight(x.minor.Some?, 64), 7, DsmFlags2Enabled(x));
  }

  lemma DsmSecondFlags(x: DataSetMessage)
    requires x.messageType < 16
    ensures DsmFlags2(x) == x.messageType + Weight(x.timestamp.Some?, 16) + Weight(x.picoSeconds.Some?, 32)
  {
    hide Mark, Pow2;
    Powers();
    MarkTop(x.messageType, 4, x.timestamp.Some?);
    MarkTop(x.messageType + Weight(x.timestamp.Some?, 16), 5, x.picoSeconds.Some?);
  }

  /** The second flag octet is written for everything but a key frame without timestamp and picoseconds. */
  lemma DsmHeaderFormat(x: DataSetMessage)
    ensures DsmHeader(x) ==
      (if x.messageType == 0 && x.timestamp.None? && x.picoSeconds.None? then [DsmFlags1(x)] else [DsmFlags1(x), DsmFlags2(x)])
      + OptLE(x.sequenceNr, 2)
      + (OptLE(x.timestamp, 8) + OptLE(x.picoSeconds, 2) + OptLE(x.status, 2) + OptLE(x.major, 4) + OptLE(x.minor, 4))
  {
    hide OptLE, DsmFlags1, DsmFlags2;
  }

  /** The flags that are read: b is the first octet and b2 the second, or zero. */
  lemma DsmHeaderRead(s: bytes, p: nat, b2: u8, x: DataSetMessage, q: nat, q1: nat, q2: nat, q3: nat, q4: nat, q5: nat, q6: nat)
    requires p < |s|
    requires if s[p] >= 128 then p + 1 < |s| && b2 == s[p + 1] && q == p + 2 else b2 == 0 && q == p + 1
    requires DecOpt16(s, q, s[p] / 8 % 2 == 1) == Done(x.sequenceNr, q1)
    requires DecOpt64(s, q1, b2 / 16 % 2 == 1) == Done(x.timestamp, q2)
    requires DecOpt16(s, q2, b2 / 32 % 2 == 1) == Done(x.picoSeconds, q3)
    requires DecOpt16(s, q3, s[p] / 16 % 2 == 1) == Done(x.status, q4)
    requires DecOpt32(s, q4, s[p] / 32 % 2 == 1) == Done(x.major, q5)
    requires DecOpt32(s, q5, s[p] / 64 % 2 == 1) == Done(x.minor, q6)
    ensures DecDsmHeader(s, p) ==
            Done(x.(valid := s[p] % 2 == 1, fieldEncoding := s[p] / 2 % 4, messageType := b2 % 16, frame := NoData), q6)
  {
    hide Has, DecDsmRest, DecOpt16, DecOpt32, DecOpt64;
    FlagRead(s[p]);
    DsmRestRead(s, s[p], b2, x, q1, q2, q3, q4, q5, q6);
  }

  lemma DsmRestRead(s: bytes, b: u8, b2: u8, x: DataSetMessage, q1: nat, q2: nat, q3: nat, q4: nat, q5: nat, q6: nat)
    requires DecOpt64(s, q1, b2 / 16 % 2 == 1) == Done(x.timestamp, q2)
    requires DecOpt16(s, q2, b2 / 32 % 2 == 1) == Done(x.picoSeconds, q3)
    requires DecOpt16(s, q3, b / 16 % 2 == 1) == Done(x.status, q4)
    requires DecOpt32(s, q4, b / 32 % 2 == 1) == Done(x.major, q5)
    requires DecOpt32(s, q5, b / 64 % 2 == 1) == Done(x.minor, q6)
    ensures DecDsmRest(s, q1, b, b2, x.sequenceNr) ==
            Done(x.(valid := b % 2 == 1, fieldEncoding := b / 2 % 4, messageType := b2 % 16, frame := NoData), q6)
  {
    hide Has, DecOpt16, DecOpt32, DecOpt64;
    FlagRead(b);
    FlagRead(b2);
  }

  // ----- frames: type 0 is a key frame, 1 a delta frame and 3 a keep-alive -----

  /** Encoding 0 is a Variant and 2 a DataValue; 1, raw data, has no frame, and all others only have a count. */
  lemma FrameFormat(T: Table, x: DataSetMessage)
    requires DsmTyped(T, x)
    ensures x.messageType > 1 || x.fieldEncoding == 1 ==> EncFrame(T, x) == []
    ensures x.messageType <= 1 && x.fieldEncoding > 2 ==> x.frame.BareCount? && EncFrame(T, x) == LE(x.frame.count, 2)
    ensures x.messageType == 0 && (x.fieldEncoding == 0 || x.fieldEncoding == 2) ==>
      && x.frame.KeyFrame? && |x.frame.fields| < 0x1_0000 && FieldsAre(T, x.frame.fields)
      && EncFrame(T, x) == LE(|x.frame.fields|, 2) + EncKeyFields(T, x.fieldEncoding, x.frame.fields)
    ensures x.messageType == 1 && (x.fieldEncoding == 0 || x.fieldEncoding == 2) ==>
      && x.frame.DeltaFrame? && |x.frame.deltas| < 0x1_0000 && DeltasAre(T, x.frame.deltas)
      && EncFrame(T, x) == LE(|x.frame.deltas|, 2) + EncDeltaFields(T, x.fieldEncoding, x.frame.deltas)
  {
    hide LE, EncKeyFields, EncDeltaFields;
  }

  /** A delta field is its index in two octets, followed by the field. */
  lemma FieldFormat(T: Table, e: u8, f: DeltaField)
    requires VariantTyped(T, f.value.value)
    ensures e == 0 ==> EncDeltaField(T, e, f) == LE(f.index, 2) + EncVariant(T, f.value.value) && EncKeyField(T, e, f.value) == EncVariant(T, f.value.value)
    ensures e == 2 ==> EncDeltaField(T, e, f) == LE(f.index, 2) + EncData(T, f.value) && EncKeyField(T, e, f.value) == EncData(T, f.value)
  {
    hide LE, EncVariant, EncData;
  }

  /** Every field stands in its place. */
  lemma {:induction false} DeltaFieldsFormat(T: Table, e: u8, fs: seq<DeltaField>, i: nat)
    requires DeltasAre(T, fs) && i < |fs|
    ensures EncDeltaFields(T, e, fs) == EncDeltaFields(T, e, fs[..i]) + EncDeltaField(T, e, fs[i]) + EncDeltaFields(T, e, fs[i + 1..])
    decreases i
  {
    hide EncDeltaField, VariantTyped;
    if i == 0 {
      assert fs[..0] == [];
    } else {
      DeltaFieldsFormat(T, e, fs[1..], i - 1);
      assert fs[..i][1..] == fs[1..][..i - 1] && fs[1..][i..] == fs[i + 1..];
      assert EncDeltaFields(T, e, fs[..i]) == EncDeltaField(T, e, fs[0]) + EncDeltaFields(T, e, fs[..i][1..]);
    }
  }

  lemma {:induction false} KeyFieldsFormat(T: Table, e: u8, fs: seq<DataValue>, i: nat)
    requires FieldsAre(T, fs) && i < |fs|
    ensures EncKeyFields(T, e, fs) == EncKeyFields(T, e, fs[..i]) + EncKeyField(T, e, fs[i]) + EncKeyFields(T, e, fs[i + 1..])
    decreases i
  {
    hide EncKeyField, VariantTyped;
    if i == 0 {
      assert fs[..0] == [];
    } else {
      KeyFieldsFormat(T, e, fs[1..], i - 1);
      assert fs[..i][1..] == fs[1..][..i - 1] && fs[1..][i..] == fs[i + 1..];
      assert EncKeyFields(T, e, fs[..i]) == EncKeyField(T, e, fs[0]) + EncKeyFields(T, e, fs[..i][1..]);
    }
  }

  /** What a field needs: a DataValue without a value needs nothing. */
  predicate CanSend(T: Table, e: u8, f: DataValue)
    requires VariantTyped(T, f.value)
  {
    (e == 2 && !f.hasValue) || VariantOk(T, f.value, 0)
  }

  /** Types 0 and 1 are sent exactly when all of their fields are, type 3 always, and no other type; raw data never. */
  lemma DsmSendable(T: Table, x: DataSetMessage)
    requires DsmTyped(T, x)
    ensures x.messageType == 3 ==> DsmOk(T, x)
    ensures x.messageType == 2 || x.messageType > 3 ==> !DsmOk(T, x)
    ensures x.messageType <= 1 && x.fieldEncoding == 1 ==> !DsmOk(T, x)
    ensures x.messageType <= 1 && x.fieldEncoding > 2 ==> DsmOk(T, x)
    ensures x.messageType == 0 && (x.fieldEncoding == 0 || x.fieldEncoding == 2) ==>
      && x.frame.KeyFrame? && FieldsAre(T, x.frame.fields)
      && (DsmOk(T, x) <==> forall i | 0 <= i < |x.frame.fields| :: CanSend(T, x.fieldEncoding, x.frame.fields[i]))
    ensures x.messageType == 1 && (x.fieldEncoding == 0 || x.fieldEncoding == 2) ==>
      && x.frame.DeltaFrame? && DeltasAre(T, x.frame.deltas)
      && (DsmOk(T, x) <==> forall i | 0 <= i < |x.frame.deltas| :: CanSend(T, x.fieldEncoding, x.frame.deltas[i].value))
  {
    hide VariantOk, VariantTyped, KeyFieldsOk, DeltaFieldsOk, CanSend;
    if x.messageType == 0 && (x.fieldEncoding == 0 || x.fieldEncoding == 2) {
      KeyFieldsSendable(T, x.fieldEncoding, x.frame.fields);
    }
    if x.messageType == 1 && (x.fieldEncoding == 0 || x.fieldEncoding == 2) {
      DeltaFieldsSendable(T, x.fieldEncoding, x.frame.deltas);
    }
  }

  lemma {:induction false} KeyFieldsSendable(T: Table, e: u8, fs: seq<DataValue>)
    requires FieldsAre(T, fs) && (e == 0 || e == 2)
    ensures KeyFieldsOk(T, e, fs) <==> forall i | 0 <= i < |fs| :: CanSend(T, e, fs[i])
  {
    hide VariantOk, VariantTyped;
    if fs != [] {
      KeyFieldsSendable(T, e, fs[1..]);
      assert forall i | 1 <= i < |fs| :: fs[i] == fs[1..][i - 1];
    }
  }

  lemma {:induction false} DeltaFieldsSendable(T: Table, e: u8, fs: seq<DeltaField>)
    requires DeltasAre(T, fs) && (e == 0 || e == 2)
    ensures DeltaFieldsOk(T, e, fs) <==> forall i | 0 <= i < |fs| :: CanSend(T, e, fs[i].value)
  {
    hide VariantOk, VariantTyped;
    if fs != [] {
      DeltaFieldsSendable(T, e, fs[1..]);
      assert forall i | 1 <= i < |fs| :: fs[i] == fs[1..][i - 1];
    }
  }

  /** Which frames are read: types 0 and 1 with a 16-bit count and that many fields, type 3 without one, and no other type.
      Raw data leaves its octets unread. */
  lemma FrameRead(T: Table, s: bytes, p: nat, t: u8, e: u8)
    ensures var r := DecFrame(T, s, p, t, e);
      && (t == 2 || t > 3 ==> r == Fail)
      && (t == 3 || (t <= 1 && e == 1) ==> r == Done(NoData, p))
      && (t <= 1 && e != 1 && p + 2 > |s| ==> r == Fail)
      && (t <= 1 && e > 2 && p + 2 <= |s| ==> r == Done(BareCount(U16At(s, p)), p + 2))
      && (t == 0 && (e == 0 || e == 2) && p + 2 <= |s| ==>
            r == match DecKeyFields(T, s, p + 2, e, U16At(s, p))
                 case Fail => Fail
                 case Done(fs, q) => Done(KeyFrame(fs), q))
      && (t == 1 && (e == 0 || e == 2) && p + 2 <= |s| ==>
            r == match DecDeltaFields(T, s, p + 2, e, U16At(s, p))
                 case Fail => Fail
                 case Done(fs, q) => Done(DeltaFrame(fs), q))
  {
    hide DecKeyFields, DecDeltaFields, Pow256;
    if p + 2 <= |s| {
      TwoOctets(s, p);
    }
  }

  function U16At(s: bytes, p: nat): u16
    requires p + 2 <= |s|
  {
    var low: nat, high: nat := s[p], s[p + 1];
    low + 256 * high
  }

  lemma TwoOctets(s: bytes, p: nat)
    requires p + 2 <= |s|
    ensures FromLE(s[p..p + 2]) == U16At(s, p)
  {
    var b: bytes := s[p..p + 2];
    assert b[1..][1..] == [];
    assert FromLE(b[1..]) == s[p + 1];
  }

  /** A field read with encoding 0 is a DataValue of which only the value is present. */
  lemma KeyFieldRead(T: Table, s: bytes, p: nat, e: u8)
    requires e == 0 || e == 2
    ensures DecKeyField(T, s, p, e) ==
      if e == 2 then DecData(T, s, p, 0)
      else match DecVariant(T, s, p, 0)
           case Fail => Fail
           case Done(x, q) => Done(DataValue(true, x, None, None, None, None, None), q)
  {
    hide DecVariant, DecData;
  }

  /** An index of two octets, then the field. */
  lemma DeltaFieldRead(T: Table, s: bytes, p: nat, e: u8)
    ensures DecDeltaField(T, s, p, e) ==
      if p + 2 > |s| then Fail
      else match DecKeyField(T, s, p + 2, e)
           case Fail => Fail
           case Done(f, q) => Done(DeltaField(U16At(s, p), f), q)
  {
    hide DecKeyField, Pow256;
    if p + 2 <= |s| {
      TwoOctets(s, p);
    }
  }

  /** Fields one after the other: each starts where the one before it ends. */
  ghost predicate KeyChain(T: Table, s: bytes, e: u8, fs: seq<DataValue>, ps: seq<nat>) {
    |ps| == |fs| + 1 && forall i | 0 <= i < |fs| :: DecKeyField(T, s, ps[i], e) == Done(fs[i], ps[i + 1])
  }

  ghost predicate DeltaChain(T: Table, s: bytes, e: u8, fs: seq<DeltaField>, ps: seq<nat>) {
    |ps| == |fs| + 1 && forall i | 0 <= i < |fs| :: DecDeltaField(T, s, ps[i], e) == Done(fs[i], ps[i + 1])
  }

  /** n delta fields are read exactly as a chain of n (index, field) pairs. */
  lemma DeltaFieldsRead(T: Table, s: bytes, p: nat, e: u8, n: nat, fs: seq<DeltaField>, q: nat)
    ensures DecDeltaFields(T, s, p, e, n) == Done(fs, q) <==>
      |fs| == n && exists ps :: DeltaChain(T, s, e, fs, ps) && ps[0] == p && ps[n] == q
  {
    hide DecDeltaFields, DecDeltaField;
    if DecDeltaFields(T, s, p, e, n) == Done(fs, q) {
      var ps := DeltaStarts(T, s, p, e, n);
    }
    if ps :| |fs| == n && DeltaChain(T, s, e, fs, ps) && ps[0] == p && ps[n] == q {
      DeltaChained(T, s, e, fs, ps);
    }
  }

  lemma {:induction false} DeltaStarts(T: Table, s: bytes, p: nat, e: u8, n: nat) returns (ps: seq<nat>)
    requires DecDeltaFields(T, s, p, e, n).Done?
    ensures var r := DecDeltaFields(T, s, p, e, n); |r.v| == n && DeltaChain(T, s, e, r.v, ps) && ps[0] == p && ps[n] == r.pos
    decreases n
  {
    hide DecDeltaField;
    if n == 0 {
      ps := [p];
    } else {
      var f := DecDeltaField(T, s, p, e);
      var rest := DeltaStarts(T, s, f.pos, e, n - 1);
      ps := [p] + rest;
    }
  }

  lemma {:induction false} DeltaChained(T: Table, s: bytes, e: u8, fs: seq<DeltaField>, ps: seq<nat>)
    requires DeltaChain(T, s, e, fs, ps)
    ensures DecDeltaFields(T, s, ps[0], e, |fs|) == Done(fs, ps[|fs|])
    decreases |fs|
  {
    hide DecDeltaField;
    if fs != [] {
      DeltaChained(T, s, e, fs[1..], ps[1..]);
      assert [fs[0]] + fs[1..] == fs;
    }
  }

  /** n fields are read exactly as a chain of n fields. */
  lemma KeyFieldsRead(T: Table, s: bytes, p: nat, e: u8, n: nat, fs: seq<DataValue>, q: nat)
    ensures DecKeyFields(T, s, p, e, n) == Done(fs, q) <==>
      |fs| == n && exists ps :: KeyChain(T, s, e, fs, ps) && ps[0] == p && ps[n] == q
  {
    hide DecKeyFields, DecKeyField;
    if DecKeyFields(T, s, p, e, n) == Done(fs, q) {
      var ps := KeyStarts(T, s, p, e, n);
    }
    if ps :| |fs| == n && KeyChain(T, s, e, fs, ps) && ps[0] == p && ps[n] == q {
      KeyChained(T, s, e, fs, ps);
    }
  }

  lemma {:induction false} KeyStarts(T: Table, s: bytes, p: nat, e: u8, n: nat) returns (ps: seq<nat>)
    requires DecKeyFields(T, s, p, e, n).Done?
    ensures var r := DecKeyFields(T, s, p, e, n); |r.v| == n && KeyChain(T, s, e, r.v, ps) && ps[0] == p && ps[n] == r.pos
    decreases n
  {
    hide DecKeyField;
    if n == 0 {
      ps := [p];
    } else {
      var f := DecKeyField(T, s, p, e);
      var rest := KeyStarts(T, s, f.pos, e, n - 1);
      ps := [p] + rest;
    }
  }

  lemma {:induction false} KeyChained(T: Table, s: bytes, e: u8, fs: seq<DataValue>, ps: seq<nat>)
    requires KeyChain(T, s, e, fs, ps)
    ensures DecKeyFields(T, s, ps[0], e, |fs|) == Done(fs, ps[|fs|])
    decreases |fs|
  {
    hide DecKeyField;
    if fs != [] {
      KeyChained(T, s, e, fs[1..], ps[1..]);
      assert [fs[0]] + fs[1..] == fs;
    }
  }

  // ----- flags of a NetworkMessage -----

  lemma NmFirstFlags(m: NetworkMessage)
    requires m.version < 16
    ensures Flags0(m) == m.version + Weight(m.publisherId.Some?, 16) + Weight(m.groupHeader.Some?, 32)
                         + Weight(m.payloadHeader.Some?, 64) + Weight(Flags1Enabled(m), 128)
  {
    hide Mark, Pow2, Flags1Enabled;
    Powers();
    MarkTop(m.version, 4, m.publisherId.Some?);
    var m1 := m.version + Weight(m.publisherId.Some?, 16);
    MarkTop(m1, 5, m.groupHeader.Some?);
    var m2 := m1 + Weight(m.groupHeader.Some?, 32);
    MarkTop(m2, 6, m.payloadHeader.Some?);
    MarkTop(m2 + Weight(m.payloadHeader.Some?, 64), 7, Flags1Enabled(m));
  }

  lemma NmSecondFlags(m: NetworkMessage)
    requires m.publisherIdType < 8
    ensures Flags1(m) == m.publisherIdType + Weight(m.dataSetClassId.Some?, 8) + Weight(m.security.Some?, 16)
                         + Weight(m.timestamp.Some?, 32) + Weight(m.picoseconds.Some?, 64) + Weight(Flags2Enabled(m), 128)
  {
    hide Mark, Pow2, Flags2Enabled;
    Powers();
    MarkTop(m.publisherIdType, 3, m.dataSetClassId.Some?);
    var m1 := m.publisherIdType + Weight(m.dataSetClassId.Some?, 8);
    MarkTop(m1, 4, m.security.Some?);
    var m2 := m1 + Weight(m.security.Some?, 16);
    MarkTop(m2, 5, m.timestamp.Some?);
    var m3 := m2 + Weight(m.timestamp.Some?, 32);
    MarkTop(m3, 6, m.picoseconds.Some?);
    MarkTop(m3 + Weight(m.picoseconds.Some?, 64), 7, Flags2Enabled(m));
  }

  /** The third octet is written for chunks, promoted fields and other message types than 0; the second for those, for
      publisher ids other than a byte, and for all that the second octet announces. */
  lemma NmThirdFlags(m: NetworkMessage)
    requires m.messageType < 8
    ensures Flags2(m) == 4 * m.messageType + Weight(m.chunkMessage, 1) + Weight(m.promoted.Some?, 2)
    ensures Flags2Enabled(m) <==> m.chunkMessage || m.promoted.Some? || m.messageType != 0
    ensures Flags1Enabled(m) <==>
      || m.publisherIdType != 0 || m.dataSetClassId.Some? || m.security.Some? || m.timestamp.Some? || m.picoseconds.Some?
      || m.chunkMessage || m.promoted.Some? || m.messageType != 0
    ensures EncFlags(m) == [Flags0(m)] + (if Flags1Enabled(m) then [Flags1(m)] else []) + (if Flags2Enabled(m) then [Flags2(m)] else [])
  {
    hide Mark, Pow2, Has, Flags0, Flags1;
    Powers();
    FlagRead(4 * m.messageType);
    MarkAdds(4 * m.messageType, 0, m.chunkMessage);
    var m1 := 4 * m.messageType + Weight(m.chunkMessage, 1);
    FlagRead(m1);
    MarkAdds(m1, 1, m.promoted.Some?);
  }

  /** Ids of type 0 to 3 take one, two, four and eight octets, type 4 is a string, and no other type is sent. */
  lemma PublisherIdFormat(T: Table, m: NetworkMessage)
    requires NmTyped(T, m)
    ensures m.publisherId.None? ==> EncPublisherId(m) == [] && PublisherIdSize(m) == 0
    ensures m.publisherId.Some? ==>
      var t, id := m.publisherIdType, m.publisherId.value;
      && (t == 0 ==> id.IdNumber? && id.n < 0x100 && EncPublisherId(m) == LE(id.n, 1) && PublisherIdSize(m) == 1)
      && (t == 1 ==> id.IdNumber? && id.n < 0x1_0000 && EncPublisherId(m) == LE(id.n, 2) && PublisherIdSize(m) == 2)
      && (t == 2 ==> id.IdNumber? && id.n < 0x1_0000_0000 && EncPublisherId(m) == LE(id.n, 4) && PublisherIdSize(m) == 4)
      && (t == 3 ==> id.IdNumber? && id.n < 0x1_0000_0000_0000_0000 && EncPublisherId(m) == LE(id.n, 8) && PublisherIdSize(m) == 8)
      && (t == 4 ==> id.IdString? && EncPublisherId(m) == EncStr(id.s) && PublisherIdSize(m) == StrSize(id.s))
      && (t > 4 ==> !HeadOk(m))
  {
    hide LE, Pow256, DsmsAre, VariantsAre;
    Pow256Values();
  }

  lemma PublisherIdRead(s: bytes, p: nat, t: u8)
    ensures DecPublisherId(s, p, false, t) == Done(None, p)
    ensures var r := DecPublisherId(s, p, true, t);
      && (t == 0 ==> r == if p + 1 > |s| then Fail else Done(Some(IdNumber(s[p])), p + 1))
      && (t == 1 ==> r == if p + 2 > |s| then Fail else Done(Some(IdNumber(FromLE(s[p..p + 2]))), p + 2))
      && (t == 2 ==> r == if p + 4 > |s| then Fail else Done(Some(IdNumber(FromLE(s[p..p + 4]))), p + 4))
      && (t == 3 ==> r == if p + 8 > |s| then Fail else Done(Some(IdNumber(FromLE(s[p..p + 8]))), p + 8))
      && (t == 4 ==> r == match DecStr(s, p) case Fail => Fail case Done(x, q) => Done(Some(IdString(x)), q))
      && (t > 4 ==> r == Fail)
  {
    hide Pow256, DecStr, FromLE;
    if p + 1 <= |s| {
      OneOctet(s, p);
    }
  }

  /** Group header flags at 1, 2, 4 and 8, each followed by two, four, two and two octets. */
  lemma GroupFormat(m: NetworkMessage)
    requires m.groupHeader.Some?
    ensures var g := m.groupHeader.value;
      EncGroup(m) ==
      [Weight(g.writerGroupId.Some?, 1) + Weight(g.groupVersion.Some?, 2) + Weight(g.networkMessageNumber.Some?, 4)
       + Weight(g.sequenceNumber.Some?, 8)]
      + OptLE(g.writerGroupId, 2) + OptLE(g.groupVersion, 4) + OptLE(g.networkMessageNumber, 2) + OptLE(g.sequenceNumber, 2)
  {
    hide Mark, OptLE;
    var g := m.groupHeader.value;
    FourWeights(g.writerGroupId.Some?, g.groupVersion.Some?, g.networkMessageNumber.Some?, g.sequenceNumber.Some?);
  }

  lemma FourWeights(a: bool, b: bool, c: bool, d: bool)
    ensures Mark(Mark(Mark(Mark(0, 0, a), 1, b), 2, c), 3, d) == Weight(a, 1) + Weight(b, 2) + Weight(c, 4) + Weight(d, 8)
  {
    hide Mark, Pow2;
    Powers();
    MarkTop(0, 0, a);
    var m1 := Weight(a, 1);
    MarkTop(m1, 1, b);
    var m2 := m1 + Weight(b, 2);
    MarkTop(m2, 2, c);
    MarkTop(m2 + Weight(c, 4), 3, d);
  }

  /** Security flags, a token of four octets, nonce length and nonce, and two octets for the size of a footer. */
  lemma SecurityFormat(m: NetworkMessage)
    requires m.security.Some? && |m.security.value.nonce| < 256
    ensures var x := m.security.value;
      EncSecurity(m) ==
      [Weight(x.signature.Some?, 1) + Weight(x.encrypted, 2) + Weight(x.footer.Some?, 4) + Weight(x.forceKeyReset, 8)]
      + LE(x.tokenId, 4) + [|x.nonce|] + x.nonce + (if x.footer.Some? then LE(|x.footer.value|, 2) else [])
  {
    hide Mark, LE;
    var x := m.security.value;
    FourWeights(x.signature.Some?, x.encrypted, x.footer.Some?, x.forceKeyReset);
  }

  lemma GroupRead(s: bytes, p: nat, g: GroupHeader, p1: nat, p2: nat, p3: nat, p4: nat)
    requires p < |s|
    requires DecOpt16(s, p + 1, s[p] % 2 == 1) == Done(g.writerGroupId, p1)
    requires DecOpt32(s, p1, s[p] / 2 % 2 == 1) == Done(g.groupVersion, p2)
    requires DecOpt16(s, p2, s[p] / 4 % 2 == 1) == Done(g.networkMessageNumber, p3)
    requires DecOpt16(s, p3, s[p] / 8 % 2 == 1) == Done(g.sequenceNumber, p4)
    ensures DecGroup(s, p, true) == Done(Some(g), p4)
  {
    hide Has, DecOpt16, DecOpt32;
    FlagRead(s[p]);
  }

  /** Flags, four octets of token, the nonce length n at p + 5 and n octets of nonce. */
  lemma SecurityRead(s: bytes, p: nat, footerSize: Option<u16>, q: nat)
    requires p + 6 <= |s| && p + 6 + s[p + 5] <= |s|
    requires DecOpt16(s, p + 6 + s[p + 5], s[p] / 4 % 2 == 1) == Done(footerSize, q)
    ensures DecSecurity(s, p, true) ==
      Done(Some(SecurityHead(s[p] % 2 == 1, s[p] / 2 % 2 == 1, s[p] / 8 % 2 == 1, DecU32(s, p + 1).v,
                             s[p + 6..p + 6 + s[p + 5]], footerSize)), q)
  {
    hide Has, DecOpt16;
    FlagRead(s[p]);
  }

  // ----- payload header, sizes, promoted fields and trailer -----

  predicate HasWriters(h: Option<PayloadHeader>) {
    h.Some? && h.value.WriterIds?
  }

  function Writers(h: Option<PayloadHeader>): seq<u16>
    requires HasWriters(h)
  {
    h.value.ids
  }

  /** The number of writers in one octet, then two octets for each. */
  lemma PayloadHeaderFormat(m: NetworkMessage)
    requires MessageCount(m) < 256
    ensures HasWriters(m.payloadHeader) ==> |Writers(m.payloadHeader)| < 256
    ensures EncPayloadHeader(m) ==
      if HasWriters(m.payloadHeader) then [|Writers(m.payloadHeader)|] + EncU16s(Writers(m.payloadHeader)) else []
  {
  }

  /** Only messages of type 0 may have a payload header. */
  lemma PayloadHeaderRead(s: bytes, p: nat, t: u8)
    ensures DecPayloadHeader(s, p, false, t) == Done(None, p)
    ensures t != 0 || p >= |s| ==> DecPayloadHeader(s, p, true, t) == Fail
    ensures t == 0 && p < |s| ==>
      DecPayloadHeader(s, p, true, t) ==
      match DecU16s(s, p + 1, s[p]) case Fail => Fail case Done(ids, q) => Done(Some(WriterIds(ids)), q)
  {
    hide DecU16s;
  }

  lemma {:induction false} U16sFormat(ns: seq<u16>, i: nat)
    requires i < |ns|
    ensures EncU16s(ns)[2 * i..2 * i + 2] == LE(ns[i], 2)
    decreases ns
  {
    hide LE;
    if i > 0 {
      U16sFormat(ns[1..], i - 1);
      assert EncU16s(ns)[2 * i..2 * i + 2] == EncU16s(ns[1..])[2 * (i - 1)..2 * (i - 1) + 2];
    }
  }

  /** n numbers of two octets each are read when there are enough octets. */
  lemma {:induction false} U16sRead(s: bytes, p: nat, n: nat)
    ensures DecU16s(s, p, n).Done? <==> n == 0 || p + 2 * n <= |s|
    ensures DecU16s(s, p, n).Done? ==>
      DecU16s(s, p, n).pos == p + 2 * n && forall i | 0 <= i < n :: DecU16s(s, p, n).v[i] == U16At(s, p + 2 * i)
    decreases n
  {
    hide FromLE, Pow256;
    if n > 0 {
      U16sRead(s, p + 2, n - 1);
      if p + 2 <= |s| {
        TwoOctets(s, p);
      }
      if p + 2 * n <= |s| {
        forall i | 0 < i < n ensures DecU16s(s, p, n).v[i] == U16At(s, p + 2 * i) {
          assert DecU16s(s, p, n).v[i] == DecU16s(s, p + 2, n - 1).v[i - 1];
        }
      }
    }
  }

  /** Sizes are sent for two messages or more: the caller's, unless it gives none or zero, and else what was computed,
      as far as 16 bits hold it. */
  lemma SizesFormat(T: Table, m: NetworkMessage)
    requires NmTyped(T, m)
    ensures !HasWriters(m.payloadHeader) || |Writers(m.payloadHeader)| < 2 ==> EncSizes(T, m) == [] && SizesSize(m) == 0
    ensures HasWriters(m.payloadHeader) && |Writers(m.payloadHeader)| >= 2 ==>
      && EncSizes(T, m) == EncU16s(SentSizes(T, m.messages, m.sizes)) && SizesSize(m) == 2 * |m.messages|
      && |SentSizes(T, m.messages, m.sizes)| == |m.messages|
      && forall i | 0 <= i < |m.messages| ::
           DsmTyped(T, m.messages[i])
           && SentSizes(T, m.messages, m.sizes)[i] ==
              if m.sizes.Some? && m.sizes.value[i] != 0 then m.sizes.value[i] else DsmSize(T, m.messages[i]) % 0x1_0000
  {
    hide EncU16s, SentSizes, DsmTyped, VariantsAre, DsmSize, IdTyped;
    forall i | 0 <= i < |m.messages|
      ensures DsmTyped(T, m.messages[i])
              && SentSizes(T, m.messages, m.sizes)[i] ==
                 if m.sizes.Some? && m.sizes.value[i] != 0 then m.sizes.value[i] else DsmSize(T, m.messages[i]) % 0x1_0000
    {
      SentSizeAt(T, m.messages, m.sizes, i);
    }
  }

  lemma {:induction false} SentSizeAt(T: Table, xs: seq<DataSetMessage>, given: Option<seq<u16>>, i: nat)
    requires DsmsAre(T, xs) && (given.Some? ==> |given.value| == |xs|) && i < |xs|
    ensures SentSizes(T, xs, given)[i] == if given.Some? && given.value[i] != 0 then given.value[i] else DsmSize(T, xs[i]) % 0x1_0000
    decreases xs
  {
    hide DsmTyped, DsmSize;
    if i > 0 {
      SentSizeAt(T, xs[1..], if given.Some? then Some(given.value[1..]) else None, i - 1);
    }
  }

  lemma SizesRead(s: bytes, p: nat, h: Option<PayloadHeader>)
    ensures DecSizes(s, p, h) ==
      if !HasWriters(h) || |Writers(h)| < 2 then Done(None, p)
      else match DecU16s(s, p, |Writers(h)|) case Fail => Fail case Done(xs, q) => Done(Some(xs), q)
  {
    hide DecU16s;
  }

  /** The size of the promoted fields in two octets, then the fields. */
  lemma PromotedRead(T: Table, s: bytes, p: nat, on: bool)
    ensures !on ==> DecPromoted(T, s, p, on) == Done(None, p)
    ensures on && p + 2 > |s| ==> DecPromoted(T, s, p, on) == Fail
    ensures on && p + 2 <= |s| && U16At(s, p) == 0 ==> DecPromoted(T, s, p, on) == Done(Some([]), p + 2)
    ensures on && p + 2 <= |s| && U16At(s, p) > 0 ==>
      DecPromoted(T, s, p, on) ==
      match DecPromotedFields(T, s, p + 2, p + 2 + U16At(s, p)) case Fail => Fail case Done(xs, q) => Done(Some(xs), q)
  {
    hide DecPromotedFields, Pow256;
    if p + 2 <= |s| {
      TwoOctets(s, p);
    }
  }

  /** Fields one after the other, the last of which is the first that ends at `end` or beyond. */
  ghost predicate PromotedChain(T: Table, s: bytes, end: nat, xs: seq<Variant>, ps: seq<nat>) {
    && |ps| == |xs| + 1 && (forall i | 0 <= i < |xs| :: DecVariant(T, s, ps[i], 0) == Done(xs[i], ps[i + 1]))
    && (forall i | 0 < i < |xs| :: ps[i] < end) && ps[|xs|] >= end
  }

  lemma PromotedFieldsRead(T: Table, s: bytes, p: nat, end: nat, xs: seq<Variant>, q: nat)
    ensures DecPromotedFields(T, s, p, end) == Done(xs, q) <==>
      xs != [] && exists ps :: PromotedChain(T, s, end, xs, ps) && ps[0] == p && ps[|xs|] == q
  {
    hide DecPromotedFields, DecVariant;
    if DecPromotedFields(T, s, p, end) == Done(xs, q) {
      var ps := PromotedStarts(T, s, p, end);
    }
    if ps :| xs != [] && PromotedChain(T, s, end, xs, ps) && ps[0] == p && ps[|xs|] == q {
      PromotedChained(T, s, end, xs, ps);
    }
  }

  lemma {:induction false} PromotedStarts(T: Table, s: bytes, p: nat, end: nat) returns (ps: seq<nat>)
    requires DecPromotedFields(T, s, p, end).Done?
    ensures var r := DecPromotedFields(T, s, p, end);
      r.v != [] && PromotedChain(T, s, end, r.v, ps) && ps[0] == p && ps[|r.v|] == r.pos
    decreases if p < end then end - p else 0
  {
    hide DecVariant;
    var x := DecVariant(T, s, p, 0);
    if x.pos < end {
      var rest := PromotedStarts(T, s, x.pos, end);
      ps := [p] + rest;
    } else {
      ps := [p, x.pos];
    }
  }

  lemma {:induction false} PromotedChained(T: Table, s: bytes, end: nat, xs: seq<Variant>, ps: seq<nat>)
    requires xs != [] && PromotedChain(T, s, end, xs, ps)
    ensures DecPromotedFields(T, s, ps[0], end) == Done(xs, ps[|xs|])
    decreases |xs|
  {
    hide DecVariant;
    if |xs| > 1 {
      PromotedChained(T, s, end, xs[1..], ps[1..]);
      assert ps[1] < end && [xs[0]] + xs[1..] == xs;
    } else {
      assert xs == [xs[0]];
    }
  }

  /** Footer octets, and the signature as a byte string; a footer of more than 255 octets is never read. */
  lemma TrailerRead(s: bytes, p: nat, x: SecurityHead)
    ensures DecTrailer(s, p, None) == Done(None, p)
    ensures x.footerSize.Some? && x.footerSize.value > 255 ==> DecTrailer(s, p, Some(x)) == Fail
    ensures x.footerSize.None? || x.footerSize.value <= 255 ==>
      DecTrailer(s, p, Some(x)) ==
      match DecOctets(s, p, if x.footerSize.Some? then x.footerSize.value else 0)
      case Fail => Fail
      case Done(f, q) =>
        match DecOptStr(s, q, x.signed)
        case Fail => Fail
        case Done(g, e) =>
          Done(Some(Security(g, x.encrypted, if x.footerSize.Some? then Some(f) else None, x.forceKeyReset, x.tokenId, x.nonce)), e)
  {
    hide DecOctets, DecOptStr;
  }

  // ----- whole messages -----

  /** The flag octets of a message: an octet that is not there reads as zero. */
  lemma FlagsRead(s: bytes, p: nat)
    requires p < |s|
    ensures var r := DecFlags(s, p);
      && (s[p] < 128 ==> r == Done(Flags(s[p], 0, 0), p + 1))
      && (s[p] >= 128 && p + 1 >= |s| ==> r == Fail)
      && (s[p] >= 128 && p + 1 < |s| && s[p + 1] < 128 ==> r == Done(Flags(s[p], s[p + 1], 0), p + 2))
      && (s[p] >= 128 && p + 1 < |s| && s[p + 1] >= 128 ==>
            r == if p + 2 >= |s| then Fail else Done(Flags(s[p], s[p + 1], s[p + 2]), p + 3))
  {
    hide Has;
    FlagRead(s[p]);
    if p + 1 < |s| {
      FlagRead(s[p + 1]);
    }
  }

  /** What the flags of the head announce: publisher id, class id, group header and payload header. */
  lemma HeadRead(s: bytes, p: nat, h: Head, p1: nat, p2: nat, p3: nat, p4: nat, p5: nat)
    requires DecFlags(s, p) == Done(h.flags, p1)
    requires DecPublisherId(s, p1, h.flags.b0 / 16 % 2 == 1, h.flags.b1 % 8) == Done(h.publisherId, p2)
    requires DecClassId(s, p2, h.flags.b1 / 8 % 2 == 1) == Done(h.classId, p3)
    requires DecGroup(s, p3, h.flags.b0 / 32 % 2 == 1) == Done(h.group, p4)
    requires DecPayloadHeader(s, p4, h.flags.b0 / 64 % 2 == 1, h.flags.b2 / 4 % 8) == Done(h.payloadHeader, p5)
    ensures DecHead(s, p) == Done(h, p5)
  {
    hide Has, DecFlags, DecPublisherId, DecClassId, DecGroup, DecPayloadHeader;
    FlagRead(h.flags.b0);
    FlagRead(h.flags.b1);
  }

  /** What the flags of the middle announce: timestamp, picoseconds, promoted fields and security header. */
  lemma MiddleRead(T: Table, s: bytes, p: nat, f: Flags, x: Middle, p1: nat, p2: nat, p3: nat, p4: nat)
    requires DecOpt64(s, p, f.b1 / 32 % 2 == 1) == Done(x.timestamp, p1)
    requires DecOpt16(s, p1, f.b1 / 64 % 2 == 1) == Done(x.pico, p2)
    requires DecPromoted(T, s, p2, f.b2 / 2 % 2 == 1) == Done(x.promoted, p3)
    requires DecSecurity(s, p3, f.b1 / 16 % 2 == 1) == Done(x.security, p4)
    ensures DecMiddle(T, s, p, f) == Done(x, p4)
  {
    hide Has, DecOpt64, DecOpt16, DecPromoted, DecSecurity;
    FlagRead(f.b1);
    FlagRead(f.b2);
  }

  /** Only messages of type 0 have a payload; version, id type, chunk flag and message type come from the flag octets. */
  lemma NmRead(T: Table, s: bytes, p: nat, h: Head, p1: nat, x: Middle, p2: nat)
    requires DecHead(s, p) == Done(h, p1) && DecMiddle(T, s, p1, h.flags) == Done(x, p2)
    ensures DecNm(T, s, p) ==
      if h.flags.b2 / 4 % 8 != 0 then Fail
      else match DecPayload(T, s, p2, h.payloadHeader, x.security)
           case Fail => Fail
           case Done(y, e) =>
             Done(NetworkMessage(h.flags.b0 % 16, h.flags.b1 % 8, h.publisherId, h.classId, h.group, h.payloadHeader,
                                 x.timestamp, x.pico, h.flags.b2 % 2 == 1, 0, x.promoted, y.security, y.sizes, y.messages), e)
  {
    hide Has, DecHead, DecMiddle, DecPayload;
    FlagRead(h.flags.b2);
  }

  /** The size oracle for DataSetMessages: the count and the fields of types 0 and 1, sendable or not, unless they are raw. */
  lemma FrameSizes(T: Table, x: DataSetMessage)
    requires DsmTyped(T, x)
    ensures x.messageType > 1 || x.fieldEncoding == 1 ==> DsmSize(T, x) == |DsmHeader(x)|
    ensures x.messageType <= 1 && x.fieldEncoding > 2 ==> DsmSize(T, x) == |DsmHeader(x)| + 2
    ensures x.messageType == 0 && (x.fieldEncoding == 0 || x.fieldEncoding == 2) ==>
      DsmSize(T, x) == |DsmHeader(x)| + 2 + KeyFieldsSize(T, x.fieldEncoding, x.frame.fields)
    ensures x.messageType == 1 && (x.fieldEncoding == 0 || x.fieldEncoding == 2) ==>
      DsmSize(T, x) == |DsmHeader(x)| + 2 + DeltaFieldsSize(T, x.fieldEncoding, x.frame.deltas)
  {
    hide KeyFieldsSize, DeltaFieldsSize, DsmHeader;
  }

  /** The size oracle for messages that are refused as a whole: zero without a list of writers, and no payload for other types. */
  lemma RefusedSize(T: Table, m: NetworkMessage)
    requires NmTyped(T, m)
    ensures m.messageType == 0 && m.payloadHeader == Some(NoWriterIds) ==> NmSize(T, m) == 0
    ensures m.messageType != 0 ==>
      NmSize(T, m) == |EncFlags(m)| + PublisherIdSize(m) + (if m.dataSetClassId.Some? then 16 else 0) + |EncGroup(m)|
                      + (if m.timestamp.Some? then 8 else 0) + (if m.picoseconds.Some? then 2 else 0)
                      + (if m.promoted.Some? then 2 + VariantsSize(T, m.promoted.value) else 0) + |EncSecurity(m)| + TrailerSize(m)
  {
    hide EncFlags, PublisherIdSize, EncGroup, VariantsSize, EncSecurity, TrailerSize, DsmsSize, SizesSize, NmTyped, EncPayloadHeader;
    assert VariantsAre(T, if m.promoted.Some? then m.promoted.value else []) by { PromotedTyped(T, m); }
  }

  lemma PromotedTyped(T: Table, m: NetworkMessage)
    requires NmTyped(T, m)
    ensures m.promoted.Some? ==> VariantsAre(T, m.promoted.value)
  {
  }

  /** Which messages are sent: of type 0, with a publisher id of type 0 to 4 and a present list of writers, a footer of
      at most 255 octets, no string above 2^31 - 1 octets, and parts that are all sendable. */
  lemma NmSendable(T: Table, m: NetworkMessage)
    requires NmTyped(T, m)
    ensures NmOk(T, m) <==>
      && m.messageType == 0
      && (m.publisherId.Some? ==> m.publisherIdType <= 4 && (m.publisherId.value.IdString? ==> Short(m.publisherId.value.s)))
      && m.payloadHeader != Some(NoWriterIds)
      && (m.promoted.Some? ==> forall i | 0 <= i < |m.promoted.value| :: VariantOk(T, m.promoted.value[i], 0))
      && (forall i | 0 <= i < |m.messages| :: DsmOk(T, m.messages[i]))
      && (m.security.Some? && m.security.value.footer.Some? ==> |m.security.value.footer.value| <= 255)
      && (m.security.Some? && m.security.value.signature.Some? ==> Short(m.security.value.signature.value))
  {
    hide DsmOk, DsmsOk, VariantsOk, VariantOk, DsmTyped, VariantTyped, IdTyped;
    EachDsm(T, m.messages);
    if m.promoted.Some? {
      EachVariant(T, m.promoted.value);
    }
  }

  lemma {:induction false} EachDsm(T: Table, xs: seq<DataSetMessage>)
    requires DsmsAre(T, xs)
    ensures DsmsOk(T, xs) <==> forall i | 0 <= i < |xs| :: DsmOk(T, xs[i])
  {
    hide DsmOk, DsmTyped;
    if xs != [] {
      EachDsm(T, xs[1..]);
      assert forall i | 1 <= i < |xs| :: xs[i] == xs[1..][i - 1];
    }
  }

  lemma {:induction false} EachVariant(T: Table, xs: seq<Variant>)
    requires VariantsAre(T, xs)
    ensures VariantsOk(T, xs) <==> forall i | 0 <= i < |xs| :: VariantOk(T, xs[i], 0)
  {
    hide VariantOk, VariantTyped;
    if xs != [] {
      EachVariant(T, xs[1..]);
      assert forall i | 1 <= i < |xs| :: xs[i] == xs[1..][i - 1];
    }
  }
}
