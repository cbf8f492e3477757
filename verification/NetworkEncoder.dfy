/** The message encoder: steps that write into one buffer, without exchange. Most steps stop the encoder
    when they fail; the results of a few are overwritten, so that a message can be sent without them. */
module NetworkEncoder {
  import opened Bytes
  import opened Types
  import opened Wire
  import opened EncodeState
  import opened Encoder
  import opened CalcSize
  import opened NetworkMessage
  import NetworkCalc

  // ----- contracts -----

  /** A step that succeeds exactly when the value can be encoded and fits, and then wrote e. */
  predicate Exact(a: Snap, ok: bool, e: bytes, ret: Status, b: Snap) {
    && !ret.LimitsExceeded?
    && (ret.Good? <==> ok && |e| <= a.Room())
    && (ret.Good? ==> b == a.Plus(e))
  }

  lemma ExactSequel(a: Snap, ok1: bool, e1: bytes, r1: Status, b: Snap, ok2: bool, e2: bytes, r2: Status, c: Snap)
    requires Exact(a, ok1, e1, r1, b)
    requires if r1.Good? then Exact(b, ok2, e2, r2, c) else r2 == r1 && c == b
    ensures Exact(a, ok1 && ok2, e1 + e2, r2, c)
  {
    if r1.Good? && r2.Good? {
      PlusPlus(a, e1, e2);
    }
  }

  lemma ExactNothing(a: Snap)
    ensures Exact(a, true, [], Good, a)
  {
    assert a.cur + [] == a.cur;
  }

  ghost predicate Ready(c: Context)
    reads c, c.buf
  {
    c.Valid() && c.depth == 0 && c.callback.None?
  }

  /** The context after a step: the same buffer, ready for the next step. */
  twostate predicate Did(c: Context, ok: bool, e: bytes, ret: Status)
    reads c, c.buf
    requires old(Ready(c))
  {
    Ready(c) && c.buf == old(c.buf) && Exact(old(c.View()), ok, e, ret, c.View())
  }

  /** Without a callback the encoder's contract is exact. */
  lemma WithoutExchange(a: Snap, ok: bool, e: bytes, ret: Status, b: Snap)
    requires Effect(false, 0, a, ok, e, ret, b) && b.sent == a.sent && |b.cur| + |b.tail| == |a.cur| + |a.tail|
    ensures Exact(a, ok, e, ret, b)
  {
    if ret.Good? {
      assert |b.Out()| == |a.Out()| + |e|;
    }
  }

  // ----- values -----

  method EncodeTyped(T: Table, c: Context, t: nat, v: Value) returns (ret: Status)
    requires Ready(c) && t < |T| && HasType(T, t, v)
    modifies c, c.buf
    ensures Did(c, Encodable(T, t, v, 0), Enc(T, t, v), ret)
  {
    hide Effect, Exact, Enc, Encodable, HasType, Flat;
    ghost var a := c.View();
    ret := c.EncodeBinary(T, t, v);
    WithoutExchange(a, Encodable(T, t, v, 0), Enc(T, t, v), ret, c.View());
  }

  method Put(c: Context, b: bytes) returns (ret: Status)
    requires Ready(c) && |b| <= LONGEST_HEAD
    modifies c, c.buf
    ensures Did(c, true, b, ret)
    ensures !ret.Good? ==> c.View() == old(c.View())
  {
    hide Effect, Exact, Flat;
    ghost var a := c.View();
    ret := c.PutWithExchange(b);
    WithoutExchange(a, true, b, ret, c.View());
  }

  method PutOpt(c: Context, x: Option<nat>, w: nat) returns (ret: Status)
    requires Ready(c) && w <= 8
    modifies c, c.buf
    ensures Did(c, true, OptLE(x, w), ret)
    ensures !ret.Good? ==> c.View() == old(c.View())
  {
    hide Exact, LE, Flat;
    ret := Good;
    ExactNothing(c.View());
    if x.Some? {
      ret := Put(c, LE(x.value, w));
    }
  }

  method EncodeText(T: Table, c: Context, s: Str) returns (ret: Status)
    requires Ready(c)
    modifies c, c.buf
    ensures Did(c, StrOk(s), EncStr(s), ret)
  {
    hide Exact, EncStr, StrOk, Flat;
    ret := EncodeTyped(T, c, STRING, Text(s));
  }

  method EncodeOneVariant(T: Table, c: Context, x: Variant) returns (ret: Status)
    requires Ready(c) && VariantTyped(T, x)
    modifies c, c.buf
    ensures Did(c, VariantOk(T, x, 0), EncVariant(T, x), ret)
  {
    hide Exact, EncVariant, VariantOk, Flat, VariantTyped;
    ret := EncodeTyped(T, c, VARIANT, VariantV(x));
  }

  method EncodeField(T: Table, c: Context, encoding: u8, f: DataValue) returns (ret: Status)
    requires Ready(c) && VariantTyped(T, f.value)
    modifies c, c.buf
    ensures Did(c, KeyFieldOk(T, encoding, f), EncKeyField(T, encoding, f), ret)
  {
    hide Exact, EncVariant, EncData, VariantOk, Flat, VariantTyped;
    if encoding == ENC_VARIANT {
      ret := EncodeOneVariant(T, c, f.value);
    } else {
      ret := EncodeTyped(T, c, DATAVALUE, DataV(f));
    }
  }

  /** An octet counter. */
  function Next(i: u8): (r: u8)
    ensures i < 255 ==> r == i + 1
  {
    (i + 1) % 256
  }

  /** Octets written one by one; the index is an octet, so longer input is never completed. */
  method PutOctets(c: Context, b: bytes) returns (ret: Status)
    requires Ready(c)
    modifies c, c.buf
    ensures Did(c, |b| <= 255, b, ret)
  {
    hide Exact, Flat, Next;
    ghost var a := c.View();
    ghost var e: bytes := [];
    ret := Good;
    var i: u8 := 0;
    ExactNothing(a);
    while i < |b| && ret.Good?
      invariant Ready(c) && c.buf == old(c.buf)
      invariant Exact(a, true, e, ret, c.View())
      invariant |b| <= 255 ==> i <= |b| && e == b[..i]
      decreases if ret.Good? then 1 + c.View().Room() else 0
    {
      ghost var m := c.View();
      ret := Put(c, [b[i]]);
      ExactSequel(a, true, e, Good, m, true, [b[i]], ret, c.View());
      ExactRoom(m, [b[i]], ret, c.View());
      e := e + [b[i]];
      i := Next(i);
    }
    ExactRoom(a, e, ret, c.View());
    if |b| <= 255 {
      ExactTo(a, e, b, ret, c.View());
    } else {
      Never(a, b, ret, c.View());
    }
  }

  lemma ExactRoom(a: Snap, e: bytes, ret: Status, b: Snap)
    requires Exact(a, true, e, ret, b)
    ensures ret.Good? ==> b.Room() + |e| == a.Room()
    ensures !ret.Good? ==> a.Room() < |e| && !ret.LimitsExceeded?
  {
  }

  lemma ExactTo(a: Snap, e: bytes, b: bytes, ret: Status, z: Snap)
    requires Exact(a, true, e, ret, z) && e <= b && (ret.Good? ==> e == b)
    ensures Exact(a, true, b, ret, z)
  {
  }

  lemma Never(a: Snap, e: bytes, ret: Status, z: Snap)
    requires !ret.Good? && !ret.LimitsExceeded?
    ensures Exact(a, false, e, ret, z)
  {
  }

  method PutU16s(c: Context, ns: seq<u16>) returns (ret: Status)
    requires Ready(c)
    modifies c, c.buf
    ensures Did(c, true, EncU16s(ns), ret)
  {
    hide Exact, Flat, LE;
    ghost var a := c.View();
    ghost var e: bytes := [];
    ret := Good;
    var i := 0;
    ExactNothing(a);
    assert ns[0..] == ns;
    while i < |ns| && ret.Good?
      invariant i <= |ns| && Ready(c) && c.buf == old(c.buf)
      invariant Exact(a, true, e, ret, c.View())
      invariant e + EncU16s(ns[i..]) == EncU16s(ns)
      invariant ret.Good? || i <= |ns|
    {
      ghost var m := c.View();
      assert ns[i..][1..] == ns[i + 1..];
      ret := Put(c, LE(ns[i], 2));
      ExactSequel(a, true, e, Good, m, true, LE(ns[i], 2), ret, c.View());
      Assoc(e, LE(ns[i], 2), EncU16s(ns[i + 1..]));
      e := e + LE(ns[i], 2);
      i := i + 1;
    }
    LoopEnd(a, true, e, ret, c.View(), true, EncU16s(ns[i..]), i == |ns|);
  }

  /** A loop that ended after its last round, or earlier because a step failed. */
  lemma LoopEnd(a: Snap, ok: bool, e: bytes, ret: Status, z: Snap, restOk: bool, rest: bytes, done: bool)
    requires Exact(a, ok, e, ret, z) && (done ==> restOk && rest == []) && (done || !ret.Good?)
    ensures Exact(a, ok && restOk, e + rest, ret, z)
  {
    if done {
      assert e + rest == e;
    }
  }

  // ----- DataSetMessages -----

  method EncodeDsmRest(c: Context, x: DataSetMessage) returns (ret: Status)
    requires Ready(c)
    modifies c, c.buf
    ensures Did(c, true, DsmHeaderRest(x), ret)
  {
    hide Exact, OptLE, Flat;
    ghost var e1, e2, e3 := OptLE(x.timestamp, 8), OptLE(x.picoSeconds, 2), OptLE(x.status, 2);
    ghost var e4, e5 := OptLE(x.major, 4), OptLE(x.minor, 4);
    ghost var s0 := c.View();
    ret := PutOpt(c, x.timestamp, 8);
    ghost var r1, s1 := ret, c.View();
    if ret.Good? {
      ret := PutOpt(c, x.picoSeconds, 2);
    }
    ExactSequel(s0, true, e1, r1, s1, true, e2, ret, c.View());
    ghost var r2, s2 := ret, c.View();
    if ret.Good? {
      ret := PutOpt(c, x.status, 2);
    }
    ExactSequel(s0, true, e1 + e2, r2, s2, true, e3, ret, c.View());
    ghost var r3, s3 := ret, c.View();
    if ret.Good? {
      ret := PutOpt(c, x.major, 4);
    }
    ExactSequel(s0, true, e1 + e2 + e3, r3, s3, true, e4, ret, c.View());
    ghost var r4, s4 := ret, c.View();
    if ret.Good? {
      ret := PutOpt(c, x.minor, 4);
    }
    ExactSequel(s0, true, e1 + e2 + e3 + e4, r4, s4, true, e5, ret, c.View());
  }

  method EncodeDsmFlags(c: Context, x: DataSetMessage) returns (ret: Status)
    requires Ready(c)
    modifies c, c.buf
    ensures Did(c, true, DsmFlags(x), ret)
  {
    hide Exact, Flat, DsmFlags1, DsmFlags2;
    ghost var s0 := c.View();
    ret := Put(c, [DsmFlags1(x)]);
    ghost var r1, s1 := ret, c.View();
    ExactNothing(s1);
    if ret.Good? && DsmFlags2Enabled(x) {
      ret := Put(c, [DsmFlags2(x)]);
    }
    ghost var e2 := if DsmFlags2Enabled(x) then [DsmFlags2(x)] else [];
    ExactSequel(s0, true, [DsmFlags1(x)], r1, s1, true, e2, ret, c.View());
    assert [DsmFlags1(x)] + e2 == DsmFlags(x);
  }

  method EncodeDsmHeader(c: Context, x: DataSetMessage) returns (ret: Status)
    requires Ready(c)
    modifies c, c.buf
    ensures Did(c, true, DsmHeader(x), ret)
  {
    hide Exact, Flat, OptLE, DsmFlags, DsmHeaderRest;
    ghost var s0 := c.View();
    ret := EncodeDsmFlags(c, x);
    ghost var r1, s1 := ret, c.View();
    if ret.Good? {
      ret := PutOpt(c, x.sequenceNr, 2);
    }
    ExactSequel(s0, true, DsmFlags(x), r1, s1, true, OptLE(x.sequenceNr, 2), ret, c.View());
    ghost var r2, s2 := ret, c.View();
    if ret.Good? {
      ret := EncodeDsmRest(c, x);
    }
    ExactSequel(s0, true, DsmFlags(x) + OptLE(x.sequenceNr, 2), r2, s2, true, DsmHeaderRest(x), ret, c.View());
  }

  method EncodeKeyFields(T: Table, c: Context, encoding: u8, fs: seq<DataValue>) returns (ret: Status)
    requires Ready(c) && FieldsAre(T, fs)
    modifies c, c.buf
    ensures Did(c, KeyFieldsOk(T, encoding, fs), EncKeyFields(T, encoding, fs), ret)
  {
    hide Exact, Flat, KeyFieldOk, EncKeyField;
    ghost var a := c.View();
    ghost var ok, e := true, [];
    ret := Good;
    var i := 0;
    ExactNothing(a);
    assert fs[0..] == fs;
    while i < |fs| && ret.Good?
      invariant i <= |fs| && FieldsAre(T, fs[i..]) && Ready(c) && c.buf == old(c.buf)
      invariant Exact(a, ok, e, ret, c.View())
      invariant e + EncKeyFields(T, encoding, fs[i..]) == EncKeyFields(T, encoding, fs)
      invariant (ok && KeyFieldsOk(T, encoding, fs[i..])) == KeyFieldsOk(T, encoding, fs)
    {
      ghost var m := c.View();
      assert fs[i..][1..] == fs[i + 1..];
      ghost var ok1, e1 := KeyFieldOk(T, encoding, fs[i]), EncKeyField(T, encoding, fs[i]);
      ret := EncodeField(T, c, encoding, fs[i]);
      ExactSequel(a, ok, e, Good, m, ok1, e1, ret, c.View());
      Assoc(e, e1, EncKeyFields(T, encoding, fs[i + 1..]));
      ok, e := ok && ok1, e + e1;
      i := i + 1;
    }
    LoopEnd(a, ok, e, ret, c.View(), KeyFieldsOk(T, encoding, fs[i..]), EncKeyFields(T, encoding, fs[i..]), i == |fs|);
  }

  method EncodeDelta(T: Table, c: Context, encoding: u8, f: DeltaField) returns (ret: Status)
    requires Ready(c) && VariantTyped(T, f.value.value)
    modifies c, c.buf
    ensures Did(c, KeyFieldOk(T, encoding, f.value), EncDeltaField(T, encoding, f), ret)
  {
    hide Exact, Flat, KeyFieldOk, EncKeyField, LE, VariantTyped;
    ghost var s0 := c.View();
    ret := Put(c, LE(f.index, 2));
    ghost var r1, s1 := ret, c.View();
    if ret.Good? {
      ret := EncodeField(T, c, encoding, f.value);
    }
    ExactSequel(s0, true, LE(f.index, 2), r1, s1, KeyFieldOk(T, encoding, f.value), EncKeyField(T, encoding, f.value), ret, c.View());
  }

  method EncodeDeltas(T: Table, c: Context, encoding: u8, fs: seq<DeltaField>) returns (ret: Status)
    requires Ready(c) && DeltasAre(T, fs)
    modifies c, c.buf
    ensures Did(c, DeltaFieldsOk(T, encoding, fs), EncDeltaFields(T, encoding, fs), ret)
  {
    hide Exact, Flat, KeyFieldOk, EncDeltaField;
    ghost var a := c.View();
    ghost var ok, e := true, [];
    ret := Good;
    var i := 0;
    ExactNothing(a);
    assert fs[0..] == fs;
    while i < |fs| && ret.Good?
      invariant i <= |fs| && DeltasAre(T, fs[i..]) && Ready(c) && c.buf == old(c.buf)
      invariant Exact(a, ok, e, ret, c.View())
      invariant e + EncDeltaFields(T, encoding, fs[i..]) == EncDeltaFields(T, encoding, fs)
      invariant (ok && DeltaFieldsOk(T, encoding, fs[i..])) == DeltaFieldsOk(T, encoding, fs)
    {
      ghost var m := c.View();
      assert fs[i..][1..] == fs[i + 1..];
      ghost var ok1, e1 := KeyFieldOk(T, encoding, fs[i].value), EncDeltaField(T, encoding, fs[i]);
      ret := EncodeDelta(T, c, encoding, fs[i]);
      ExactSequel(a, ok, e, Good, m, ok1, e1, ret, c.View());
      Assoc(e, e1, EncDeltaFields(T, encoding, fs[i + 1..]));
      ok, e := ok && ok1, e + e1;
      i := i + 1;
    }
    LoopEnd(a, ok, e, ret, c.View(), DeltaFieldsOk(T, encoding, fs[i..]), EncDeltaFields(T, encoding, fs[i..]), i == |fs|);
  }

  method EncodeFields(T: Table, c: Context, x: DataSetMessage) returns (ret: Status)
    requires Ready(c) && DsmTyped(T, x) && HasFields(x.fieldEncoding)
    requires x.messageType == DATAKEYFRAME || x.messageType == DATADELTAFRAME
    modifies c, c.buf
    ensures Did(c, DsmOk(T, x), EncFrame(T, x), ret)
  {
    hide Exact, Flat, LE, EncKeyFields, EncDeltaFields, KeyFieldsOk, DeltaFieldsOk, FieldsAre, DeltasAre;
    ghost var s0 := c.View();
    if x.messageType == DATAKEYFRAME {
      var fs := x.frame.fields;
      ret := Put(c, LE(|fs|, 2));
      ghost var r1, s1 := ret, c.View();
      if ret.Good? {
        ret := EncodeKeyFields(T, c, x.fieldEncoding, fs);
      }
      ExactSequel(s0, true, LE(|fs|, 2), r1, s1, KeyFieldsOk(T, x.fieldEncoding, fs), EncKeyFields(T, x.fieldEncoding, fs), ret, c.View());
    } else {
      var fs := x.frame.deltas;
      ret := Put(c, LE(|fs|, 2));
      ghost var r1, s1 := ret, c.View();
      if ret.Good? {
        ret := EncodeDeltas(T, c, x.fieldEncoding, fs);
      }
      ExactSequel(s0, true, LE(|fs|, 2), r1, s1, DeltaFieldsOk(T, x.fieldEncoding, fs), EncDeltaFields(T, x.fieldEncoding, fs), ret, c.View());
    }
  }

  method EncodeFrame(T: Table, c: Context, x: DataSetMessage) returns (ret: Status)
    requires Ready(c) && DsmTyped(T, x)
    modifies c, c.buf
    ensures Did(c, DsmOk(T, x), EncFrame(T, x), ret)
  {
    hide Exact, Flat, LE, EncKeyFields, EncDeltaFields, KeyFieldsOk, DeltaFieldsOk, FieldsAre, DeltasAre;
    ghost var s0 := c.View();
    if x.messageType != DATAKEYFRAME && x.messageType != DATADELTAFRAME {
      if x.messageType == KEEPALIVE {
        ExactNothing(s0);
        return Good;
      }
      Never(s0, EncFrame(T, x), Bad, s0);
      return Bad;
    }
    if x.fieldEncoding == ENC_RAWDATA {
      if x.messageType == DATADELTAFRAME {
        ret := Put(c, LE(RawCount(x), 2));
      }
      ret := Bad;
      Never(s0, EncFrame(T, x), Bad, c.View());
    } else if HasFields(x.fieldEncoding) {
      ret := EncodeFields(T, c, x);
    } else {
      ret := Put(c, LE(x.frame.count, 2));
    }
  }

  /** The field count a raw-data frame announces before it is refused. */
  function RawCount(x: DataSetMessage): u16 {
    match x.frame
    case KeyFrame(fs) => |fs| % 0x1_0000
    case DeltaFrame(fs) => |fs| % 0x1_0000
    case BareCount(n) => n
    case NoData => 0
  }

  method EncodeDsm(T: Table, c: Context, x: DataSetMessage) returns (ret: Status)
    requires Ready(c) && DsmTyped(T, x)
    modifies c, c.buf
    ensures Did(c, DsmOk(T, x), EncDsm(T, x), ret)
  {
    hide Exact, Flat, DsmHeader, EncFrame, DsmOk, DsmTyped;
    ghost var s0 := c.View();
    ret := EncodeDsmHeader(c, x);
    ghost var r1, s1 := ret, c.View();
    if ret.Good? {
      ret := EncodeFrame(T, c, x);
    }
    ExactSequel(s0, true, DsmHeader(x), r1, s1, DsmOk(T, x), EncFrame(T, x), ret, c.View());
  }

  lemma DsmsStep(T: Table, xs: seq<DataSetMessage>, i: nat)
    requires i < |xs| && DsmsAre(T, xs[i..])
    ensures DsmTyped(T, xs[i]) && DsmsAre(T, xs[i + 1..])
    ensures EncDsms(T, xs[i..]) == EncDsm(T, xs[i]) + EncDsms(T, xs[i + 1..])
    ensures DsmsOk(T, xs[i..]) == (DsmOk(T, xs[i]) && DsmsOk(T, xs[i + 1..]))
  {
    hide EncDsm, DsmOk, DsmTyped;
    assert xs[i..][0] == xs[i] && xs[i..][1..] == xs[i + 1..];
  }

  lemma NoDsms(T: Table)
    ensures DsmsAre(T, []) && EncDsms(T, []) == [] && DsmsOk(T, [])
  {
  }

  method EncodeDsms(T: Table, c: Context, xs: seq<DataSetMessage>) returns (ret: Status)
    requires Ready(c) && DsmsAre(T, xs)
    modifies c, c.buf
    ensures Did(c, DsmsOk(T, xs), EncDsms(T, xs), ret)
  {
    hide Exact, Flat, DsmOk, EncDsm, DsmTyped, DsmsAre, DsmsOk, EncDsms;
    ghost var a := c.View();
    ghost var ok, e := true, [];
    ret := Good;
    var i := 0;
    ExactNothing(a);
    assert xs[0..] == xs;
    while i < |xs| && ret.Good?
      invariant i <= |xs| && DsmsAre(T, xs[i..]) && Ready(c) && c.buf == old(c.buf)
      invariant Exact(a, ok, e, ret, c.View())
      invariant e + EncDsms(T, xs[i..]) == EncDsms(T, xs)
      invariant (ok && DsmsOk(T, xs[i..])) == DsmsOk(T, xs)
    {
      ghost var m := c.View();
      DsmsStep(T, xs, i);
      ghost var ok1, e1 := DsmOk(T, xs[i]), EncDsm(T, xs[i]);
      ret := EncodeDsm(T, c, xs[i]);
      ExactSequel(a, ok, e, Good, m, ok1, e1, ret, c.View());
      Assoc(e, e1, EncDsms(T, xs[i + 1..]));
      ok, e := ok && ok1, e + e1;
      i := i + 1;
    }
    if i == |xs| {
      NoDsms(T);
      assert xs[i..] == [];
    }
    LoopEnd(a, ok, e, ret, c.View(), DsmsOk(T, xs[i..]), EncDsms(T, xs[i..]), i == |xs|);
  }

  // ----- NetworkMessage header -----

  method EncodeFlags(c: Context, m: NetworkMessage) returns (ret: Status)
    requires Ready(c)
    modifies c, c.buf
    ensures Did(c, true, EncFlags(m), ret)
  {
    hide Exact, Flat, Flags0, Flags1, Flags2;
    ghost var e2 := if Flags1Enabled(m) then [Flags1(m)] else [];
    ghost var e3 := if Flags2Enabled(m) then [Flags2(m)] else [];
    ghost var s0 := c.View();
    ret := Put(c, [Flags0(m)]);
    ghost var r1, s1 := ret, c.View();
    ExactNothing(s1);
    if ret.Good? && Flags1Enabled(m) {
      ret := Put(c, [Flags1(m)]);
    }
    ExactSequel(s0, true, [Flags0(m)], r1, s1, true, e2, ret, c.View());
    ghost var r2, s2 := ret, c.View();
    ExactNothing(s2);
    if ret.Good? && Flags2Enabled(m) {
      ret := Put(c, [Flags2(m)]);
    }
    ExactSequel(s0, true, [Flags0(m)] + e2, r2, s2, true, e3, ret, c.View());
    assert [Flags0(m)] + e2 + e3 == EncFlags(m);
  }

  predicate PublisherOk(m: NetworkMessage) {
    m.publisherId.Some? ==> m.publisherIdType <= 4 && (m.publisherId.value.IdString? ==> StrOk(m.publisherId.value.s))
  }

  method EncodePublisherId(T: Table, c: Context, m: NetworkMessage) returns (ret: Status)
    requires Ready(c) && (m.publisherId.Some? ==> IdTyped(m.publisherIdType, m.publisherId.value))
    modifies c, c.buf
    ensures Did(c, PublisherOk(m), EncPublisherId(m), ret)
  {
    hide Exact, Flat, LE, EncStr, StrOk, Pow256;
    ghost var a := c.View();
    ret := Good;
    ExactNothing(a);
    if m.publisherId.Some? {
      if m.publisherIdType == 0 { ret := Put(c, LE(m.publisherId.value.n, 1)); }
      else if m.publisherIdType == 1 { ret := Put(c, LE(m.publisherId.value.n, 2)); }
      else if m.publisherIdType == 2 { ret := Put(c, LE(m.publisherId.value.n, 4)); }
      else if m.publisherIdType == 3 { ret := Put(c, LE(m.publisherId.value.n, 8)); }
      else if m.publisherIdType == 4 { ret := EncodeText(T, c, m.publisherId.value.s); }
      else {
        ret := Bad;
        Never(a, EncPublisherId(m), ret, a);
      }
    }
  }

  method EncodeClassId(T: Table, c: Context, m: NetworkMessage) returns (ret: Status)
    requires Ready(c)
    modifies c, c.buf
    ensures Did(c, true, EncClassId(m), ret)
  {
    hide Exact, Flat, EncGuid;
    ret := Good;
    ExactNothing(c.View());
    if m.dataSetClassId.Some? {
      ret := EncodeTyped(T, c, GUID, GuidV(m.dataSetClassId.value));
    }
  }

  method EncodeGroup(c: Context, m: NetworkMessage) returns (ret: Status)
    requires Ready(c)
    modifies c, c.buf
    ensures Did(c, true, EncGroup(m), ret)
  {
    hide Exact, Flat, OptLE, GroupFlags;
    if m.groupHeader.None? {
      ExactNothing(c.View());
      return Good;
    }
    var g := m.groupHeader.value;
    ghost var e1, e2, e3 := OptLE(g.writerGroupId, 2), OptLE(g.groupVersion, 4), OptLE(g.networkMessageNumber, 2);
    ghost var e4 := OptLE(g.sequenceNumber, 2);
    ghost var s0 := c.View();
    ret := Put(c, [GroupFlags(g)]);
    ghost var r1, s1 := ret, c.View();
    if ret.Good? {
      ret := PutOpt(c, g.writerGroupId, 2);
    }
    ExactSequel(s0, true, [GroupFlags(g)], r1, s1, true, e1, ret, c.View());
    ghost var r2, s2 := ret, c.View();
    if ret.Good? {
      ret := PutOpt(c, g.groupVersion, 4);
    }
    ExactSequel(s0, true, [GroupFlags(g)] + e1, r2, s2, true, e2, ret, c.View());
    ghost var r3, s3 := ret, c.View();
    if ret.Good? {
      ret := PutOpt(c, g.networkMessageNumber, 2);
    }
    ExactSequel(s0, true, [GroupFlags(g)] + e1 + e2, r3, s3, true, e3, ret, c.View());
    ghost var r4, s4 := ret, c.View();
    if ret.Good? {
      ret := PutOpt(c, g.sequenceNumber, 2);
    }
    ExactSequel(s0, true, [GroupFlags(g)] + e1 + e2 + e3, r4, s4, true, e4, ret, c.View());
  }

  /** e if it fits into the room, and nothing otherwise. */
  function Fit(room: int, e: bytes): (r: bytes)
    ensures |e| <= room ==> r == e
    ensures |r| <= |e| && (room >= 0 ==> |r| <= room)
  {
    if |e| <= room then e else []
  }

  /** What the payload header writes: a count of zero is dropped when it does not fit. */
  function WrittenIds(m: NetworkMessage, room: int): bytes
    requires MessageCount(m) < 256
  {
    if m.payloadHeader == Some(WriterIds([])) then Fit(room, EncPayloadHeader(m)) else EncPayloadHeader(m)
  }

  predicate IdsOk(m: NetworkMessage) {
    m.payloadHeader.Some? ==> m.messageType == DATASET && m.payloadHeader.value.WriterIds?
  }

  method EncodePayloadHeader(c: Context, m: NetworkMessage) returns (ret: Status)
    requires Ready(c) && MessageCount(m) < 256
    modifies c, c.buf
    ensures Did(c, IdsOk(m), WrittenIds(m, old(c.View()).Room()), ret)
  {
    hide Exact, Flat, EncU16s;
    ghost var a := c.View();
    ghost var e := WrittenIds(m, a.Room());
    if m.payloadHeader.None? {
      ExactNothing(a);
      return Good;
    }
    if m.messageType != DATASET {
      Never(a, e, Bad, a);
      return Bad;
    }
    ret := Put(c, [MessageCount(m)]);
    if m.payloadHeader.value.NoWriterIds? {
      Never(a, e, Bad, c.View());
      return Bad;
    }
    var ids := m.payloadHeader.value.ids;
    ghost var r1, b := ret, c.View();
    ret := PutU16s(c, ids);
    CountDropped(a, [|ids|], r1, b, ids, EncU16s(ids), ret, c.View());
  }

  /** The result of writing the count is overwritten by the first id's, which fails whenever the count did. */
  lemma CountDropped(a: Snap, n: bytes, r1: Status, b: Snap, ids: seq<u16>, e: bytes, ret: Status, z: Snap)
    requires Exact(a, true, n, r1, b) && |n| == 1 && |e| == 2 * |ids| && Exact(b, true, e, ret, z)
    requires !r1.Good? ==> a == b
    ensures ids != [] ==> Exact(a, true, n + e, ret, z)
    ensures ids == [] ==> Exact(a, true, Fit(a.Room(), n + e), ret, z)
  {
    if r1.Good? && ret.Good? {
      PlusPlus(a, n, e);
    }
    if ids == [] {
      assert e == [];
      ExactNothing(a);
      assert n + e == n;
    }
  }

  function HeadFront(m: NetworkMessage): bytes {
    EncFlags(m) + EncPublisherId(m) + EncClassId(m) + EncGroup(m)
  }

  function WrittenHead(m: NetworkMessage, room: int): bytes
    requires MessageCount(m) < 256
  {
    HeadFront(m) + WrittenIds(m, room - |HeadFront(m)|)
  }

  method EncodeHeadFront(T: Table, c: Context, m: NetworkMessage) returns (ret: Status)
    requires Ready(c) && (m.publisherId.Some? ==> IdTyped(m.publisherIdType, m.publisherId.value))
    modifies c, c.buf
    ensures Did(c, PublisherOk(m), HeadFront(m), ret)
  {
    hide Exact, Flat, EncFlags, EncPublisherId, EncClassId, EncGroup, PublisherOk, IdTyped;
    ghost var s0 := c.View();
    ret := EncodeFlags(c, m);
    ghost var r1, s1 := ret, c.View();
    if ret.Good? {
      ret := EncodePublisherId(T, c, m);
    }
    ExactSequel(s0, true, EncFlags(m), r1, s1, PublisherOk(m), EncPublisherId(m), ret, c.View());
    ghost var r2, s2 := ret, c.View();
    if ret.Good? {
      ret := EncodeClassId(T, c, m);
    }
    ExactSequel(s0, PublisherOk(m), EncFlags(m) + EncPublisherId(m), r2, s2, true, EncClassId(m), ret, c.View());
    ghost var r3, s3 := ret, c.View();
    if ret.Good? {
      ret := EncodeGroup(c, m);
    }
    ExactSequel(s0, PublisherOk(m), EncFlags(m) + EncPublisherId(m) + EncClassId(m), r3, s3, true, EncGroup(m), ret, c.View());
  }

  method EncodeHead(T: Table, c: Context, m: NetworkMessage) returns (ret: Status)
    requires Ready(c) && (m.publisherId.Some? ==> IdTyped(m.publisherIdType, m.publisherId.value)) && MessageCount(m) < 256
    modifies c, c.buf
    ensures Did(c, HeadOk(m), WrittenHead(m, old(c.View()).Room()), ret)
  {
    hide Exact, Flat, HeadFront, WrittenIds, MessageCount, IdTyped;
    ghost var s0 := c.View();
    ghost var e2 := WrittenIds(m, s0.Room() - |HeadFront(m)|);
    ret := EncodeHeadFront(T, c, m);
    ghost var r1, s1 := ret, c.View();
    ExactGood(s0, PublisherOk(m), HeadFront(m), ret, s1);
    if ret.Good? {
      ret := EncodePayloadHeader(c, m);
    }
    ExactSequel(s0, PublisherOk(m), HeadFront(m), r1, s1, IdsOk(m), e2, ret, c.View());
  }

  lemma ExactGood(a: Snap, ok: bool, e: bytes, ret: Status, b: Snap)
    requires Exact(a, ok, e, ret, b)
    ensures ret.Good? ==> b.Room() == a.Room() - |e| && b == a.Plus(e)
  {
  }

  // ----- timestamps and promoted fields: their results are overwritten -----

  function WrittenTimes(m: NetworkMessage, room: int): bytes {
    var t := Fit(room, OptLE(m.timestamp, 8));
    t + Fit(room - |t|, OptLE(m.picoseconds, 2))
  }

  method PutLossy(c: Context, x: Option<nat>, w: nat)
    requires Ready(c) && w <= 8
    modifies c, c.buf
    ensures Ready(c) && c.buf == old(c.buf)
    ensures c.View() == old(c.View()).Plus(Fit(old(c.View()).Room(), OptLE(x, w)))
  {
    hide Exact, Flat, OptLE;
    ghost var a := c.View();
    var rv := PutOpt(c, x, w);
    ExactGood(a, true, OptLE(x, w), rv, c.View());
    NoRoom(a, OptLE(x, w), rv, c.View());
  }

  lemma NoRoom(a: Snap, e: bytes, ret: Status, b: Snap)
    requires Exact(a, true, e, ret, b) && (!ret.Good? ==> a == b)
    ensures !ret.Good? ==> b == a.Plus(Fit(a.Room(), e))
    ensures ret.Good? ==> Fit(a.Room(), e) == e
  {
    assert a.cur + [] == a.cur;
  }

  method EncodeTimes(c: Context, m: NetworkMessage)
    requires Ready(c)
    modifies c, c.buf
    ensures Ready(c) && c.buf == old(c.buf)
    ensures c.View() == old(c.View()).Plus(WrittenTimes(m, old(c.View()).Room()))
  {
    hide Flat, OptLE, Fit;
    ghost var a := c.View();
    PutLossy(c, m.timestamp, 8);
    ghost var t := Fit(a.Room(), OptLE(m.timestamp, 8));
    ghost var b := c.View();
    PutLossy(c, m.picoseconds, 2);
    PlusPlus(a, t, Fit(b.Room(), OptLE(m.picoseconds, 2)));
  }

  /** The state after a step whose result is ignored: e was written if it could be. */
  predicate Tried(a: Snap, ok: bool, e: bytes, b: Snap) {
    ok && |e| <= a.Room() ==> b == a.Plus(e)
  }

  lemma TriedThen(a: Snap, ok1: bool, e1: bytes, b: Snap, ok2: bool, e2: bytes, ret: Status, z: Snap)
    requires Tried(a, ok1, e1, b) && Exact(b, ok2, e2, ret, z)
    ensures Tried(a, ok1 && ok2, e1 + e2, z)
  {
    if ok1 && ok2 && |e1| + |e2| <= a.Room() {
      PlusPlus(a, e1, e2);
    }
  }

  lemma TriedNothing(a: Snap)
    ensures Tried(a, true, [], a)
  {
    assert a.cur + [] == a.cur;
  }

  predicate PromotedOk(T: Table, m: NetworkMessage)
    requires NmTyped(T, m)
  {
    m.promoted.Some? ==> VariantsOk(T, m.promoted.value)
  }

  method EncodeVariants(T: Table, c: Context, xs: seq<Variant>, size: u16)
    requires Ready(c) && VariantsAre(T, xs)
    modifies c, c.buf
    ensures Ready(c) && c.buf == old(c.buf)
    ensures Tried(old(c.View()), VariantsOk(T, xs), LE(size, 2) + EncVariants(T, xs), c.View())
  {
    hide Exact, Flat, LE, EncVariant, VariantOk, Tried;
    ghost var a := c.View();
    ghost var ok, e := true, [];
    TriedNothing(a);
    var rv := Put(c, LE(size, 2));
    TriedThen(a, true, [], a, true, LE(size, 2), rv, c.View());
    e := [] + LE(size, 2);
    var i := 0;
    assert xs[0..] == xs;
    while i < |xs|
      invariant i <= |xs| && VariantsAre(T, xs[i..]) && Ready(c) && c.buf == old(c.buf)
      invariant Tried(a, ok, e, c.View())
      invariant e + EncVariants(T, xs[i..]) == LE(size, 2) + EncVariants(T, xs)
      invariant (ok && VariantsOk(T, xs[i..])) == VariantsOk(T, xs)
    {
      ghost var m := c.View();
      assert xs[i..][1..] == xs[i + 1..];
      ghost var ok1, e1 := VariantOk(T, xs[i], 0), EncVariant(T, xs[i]);
      var more := EncodeOneVariant(T, c, xs[i]);
      rv := Or(rv, more);
      TriedThen(a, ok, e, m, ok1, e1, more, c.View());
      Assoc(e, e1, EncVariants(T, xs[i + 1..]));
      ok, e := ok && ok1, e + e1;
      i := i + 1;
    }
    assert xs[i..] == [] && e + [] == e;
  }

  method EncodePromoted(T: Table, c: Context, m: NetworkMessage)
    requires Ready(c) && NmTyped(T, m)
    modifies c, c.buf
    ensures Ready(c) && c.buf == old(c.buf)
    ensures m.promoted.None? ==> c.View() == old(c.View())
    ensures Tried(old(c.View()), PromotedOk(T, m), EncPromoted(T, m), c.View())
  {
    hide Exact, Flat, LE, EncVariants, VariantsOk, VariantsSize, Tried, DsmsAre, VariantsAre, IdTyped, MessageCount;
    TriedNothing(c.View());
    if m.promoted.Some? {
      var n := NetworkCalc.CalcVariants(T, m.promoted.value);
      EncodeVariants(T, c, m.promoted.value, n % 0x1_0000);
    }
  }

  // ----- security header and payload -----

  method EncodeSecurity(c: Context, m: NetworkMessage) returns (ret: Status)
    requires Ready(c) && (m.security.Some? ==> |m.security.value.nonce| < 256)
    modifies c, c.buf
    ensures Did(c, true, EncSecurity(m), ret)
  {
    hide Exact, Flat, LE, SecurityFlags;
    if m.security.None? {
      ExactNothing(c.View());
      return Good;
    }
    var x := m.security.value;
    var size := if x.footer.Some? then Some(|x.footer.value|) else None;
    ghost var e1, e2, e3 := LE(x.tokenId, 4), [|x.nonce|], x.nonce;
    ghost var e4 := OptLE(size, 2);
    ghost var s0 := c.View();
    ret := Put(c, [SecurityFlags(x)]);
    ghost var r1, s1 := ret, c.View();
    if ret.Good? {
      ret := Put(c, LE(x.tokenId, 4));
    }
    ExactSequel(s0, true, [SecurityFlags(x)], r1, s1, true, e1, ret, c.View());
    ghost var r2, s2 := ret, c.View();
    if ret.Good? {
      ret := Put(c, [|x.nonce|]);
    }
    ExactSequel(s0, true, [SecurityFlags(x)] + e1, r2, s2, true, e2, ret, c.View());
    ghost var r3, s3 := ret, c.View();
    if ret.Good? {
      ret := PutOctets(c, x.nonce);
    }
    ExactSequel(s0, true, [SecurityFlags(x)] + e1 + e2, r3, s3, true, e3, ret, c.View());
    ghost var r4, s4 := ret, c.View();
    if ret.Good? {
      ret := PutOpt(c, size, 2);
    }
    ExactSequel(s0, true, [SecurityFlags(x)] + e1 + e2 + e3, r4, s4, true, e4, ret, c.View());
    assert [SecurityFlags(x)] + e1 + e2 + e3 + e4 == EncSecurity(m);
  }

  /** The size sent for a message: the given one, unless it is missing or zero. */
  method SizeToSend(T: Table, x: DataSetMessage, given: Option<u16>) returns (n: u16)
    requires DsmTyped(T, x)
    ensures n == SentSize(T, x, given)
  {
    hide DsmSize;
    if given.Some? && given.value != 0 {
      return given.value;
    }
    var size := NetworkCalc.CalcDsm(T, x, 0, null, 0);
    n := size % 0x1_0000;
  }

  function From(given: Option<seq<u16>>, i: nat): Option<seq<u16>>
    requires given.Some? ==> i <= |given.value|
  {
    if given.Some? then Some(given.value[i..]) else None
  }

  lemma SizesStep(T: Table, xs: seq<DataSetMessage>, given: Option<seq<u16>>, i: nat)
    requires i < |xs| && DsmsAre(T, xs[i..]) && (given.Some? ==> |given.value| == |xs|)
    ensures DsmTyped(T, xs[i]) && DsmsAre(T, xs[i + 1..])
    ensures EncU16s(SentSizes(T, xs[i..], From(given, i))) ==
            LE(SentSize(T, xs[i], if given.Some? then Some(given.value[i]) else None), 2)
            + EncU16s(SentSizes(T, xs[i + 1..], From(given, i + 1)))
  {
    hide SentSize, DsmTyped, LE;
    assert xs[i..][0] == xs[i] && xs[i..][1..] == xs[i + 1..];
    var n := SentSize(T, xs[i], if given.Some? then Some(given.value[i]) else None);
    if given.Some? {
      assert given.value[i..][1..] == given.value[i + 1..];
    }
    var tail := SentSizes(T, xs[i + 1..], From(given, i + 1));
    assert SentSizes(T, xs[i..], From(given, i)) == [n] + tail;
    assert ([n] + tail)[1..] == tail;
  }

  method EncodeSizes(T: Table, c: Context, xs: seq<DataSetMessage>, given: Option<seq<u16>>) returns (ret: Status)
    requires Ready(c) && DsmsAre(T, xs) && (given.Some? ==> |given.value| == |xs|)
    modifies c, c.buf
    ensures Did(c, true, EncU16s(SentSizes(T, xs, given)), ret)
  {
    hide Exact, Flat, LE, SentSizes, SentSize, DsmsAre, EncU16s;
    ghost var a := c.View();
    ghost var e: bytes := [];
    ret := Good;
    var i := 0;
    ExactNothing(a);
    assert xs[0..] == xs && (given.Some? ==> given.value[0..] == given.value);
    while i < |xs| && ret.Good?
      invariant i <= |xs| && DsmsAre(T, xs[i..]) && Ready(c) && c.buf == old(c.buf)
      invariant Exact(a, true, e, ret, c.View())
      invariant e + EncU16s(SentSizes(T, xs[i..], From(given, i))) == EncU16s(SentSizes(T, xs, given))
    {
      ghost var m := c.View();
      SizesStep(T, xs, given, i);
      var n := SizeToSend(T, xs[i], if given.Some? then Some(given.value[i]) else None);
      ret := Put(c, LE(n, 2));
      ghost var rest := EncU16s(SentSizes(T, xs[i + 1..], From(given, i + 1)));
      ExactSequel(a, true, e, Good, m, true, LE(n, 2), ret, c.View());
      Assoc(e, LE(n, 2), rest);
      e := e + LE(n, 2);
      i := i + 1;
    }
    assert i == |xs| ==> xs[i..] == [];
    NoU16s();
    LoopEnd(a, true, e, ret, c.View(), true, EncU16s(SentSizes(T, xs[i..], From(given, i))), i == |xs|);
  }

  lemma NoU16s()
    ensures EncU16s([]) == []
  {
  }

  method EncodeTrailer(T: Table, c: Context, m: NetworkMessage) returns (ret: Status)
    requires Ready(c)
    modifies c, c.buf
    ensures Did(c, TrailerOk(m), EncTrailer(m), ret)
  {
    hide Exact, Flat, EncStr, StrOk;
    ghost var s0 := c.View();
    ret := Good;
    ExactNothing(s0);
    if m.security.None? {
      return;
    }
    var x := m.security.value;
    ghost var ok1 := x.footer.Some? ==> |x.footer.value| <= 255;
    ghost var e1, e2 := if x.footer.Some? then x.footer.value else [], if x.signature.Some? then EncStr(x.signature.value) else [];
    if x.footer.Some? {
      ret := PutOctets(c, x.footer.value);
    }
    ghost var r1, s1 := ret, c.View();
    ExactNothing(s1);
    if ret.Good? && x.signature.Some? {
      ret := EncodeText(T, c, x.signature.value);
    }
    ExactSequel(s0, ok1, e1, r1, s1, x.signature.Some? ==> StrOk(x.signature.value), e2, ret, c.View());
  }

  method EncodePayload(T: Table, c: Context, m: NetworkMessage) returns (ret: Status)
    requires Ready(c) && NmTyped(T, m)
    modifies c, c.buf
    ensures Did(c, DsmsOk(T, m.messages) && TrailerOk(m), EncPayload(T, m), ret)
  {
    hide Exact, Flat, EncDsms, EncTrailer, DsmsOk, TrailerOk, SentSizes, EncU16s, DsmsAre, VariantsAre, IdTyped;
    ghost var s0 := c.View();
    ret := Good;
    ExactNothing(s0);
    if m.payloadHeader.Some? && MessageCount(m) > 1 {
      ret := EncodeSizes(T, c, m.messages, m.sizes);
    }
    ghost var r1, s1 := ret, c.View();
    if ret.Good? {
      ret := EncodeDsms(T, c, m.messages);
    }
    ExactSequel(s0, true, EncSizes(T, m), r1, s1, DsmsOk(T, m.messages), EncDsms(T, m.messages), ret, c.View());
    ghost var r2, s2 := ret, c.View();
    if ret.Good? {
      ret := EncodeTrailer(T, c, m);
    }
    ExactSequel(s0, DsmsOk(T, m.messages), EncSizes(T, m) + EncDsms(T, m.messages), r2, s2, TrailerOk(m), EncTrailer(m), ret, c.View());
  }

  // ----- the whole message -----

  /** What the encoder writes into the given room when there are no promoted fields: timestamps, picoseconds
      and an empty id count are dropped when they do not fit, everything else must fit. */
  function Written(T: Table, m: NetworkMessage, room: int): bytes
    requires NmTyped(T, m)
  {
    var h := WrittenHead(m, room);
    var t := WrittenTimes(m, room - |h|);
    h + t + EncSecurity(m) + EncPayload(T, m)
  }

  /** Encodable apart from its promoted fields, whose results are ignored. */
  predicate CoreOk(T: Table, m: NetworkMessage)
    requires NmTyped(T, m)
  {
    HeadOk(m) && m.messageType == DATASET && DsmsOk(T, m.messages) && TrailerOk(m)
  }

  /** The message encoder. Without promoted fields it succeeds exactly when the message can be encoded and
      what it writes fits; and it writes the whole of a message exactly when it can be encoded and fits as a whole. */
  method EncodeNm(T: Table, c: Context, m: NetworkMessage) returns (ret: Status)
    requires Ready(c) && NmTyped(T, m)
    modifies c, c.buf
    ensures Ready(c) && c.buf == old(c.buf) && !ret.LimitsExceeded?
    ensures m.promoted.None? ==> Exact(old(c.View()), CoreOk(T, m), Written(T, m, old(c.View()).Room()), ret, c.View())
    ensures ret.Good? && PromotedOk(T, m) && c.View() == old(c.View()).Plus(EncNm(T, m)) <==>
            NmOk(T, m) && |EncNm(T, m)| <= old(c.View()).Room()
    ensures ret.Good? ==> CoreOk(T, m)
  {
    hide Exact, Tried, Flat, WrittenHead, WrittenTimes, EncSecurity, EncPayload, EncPromoted, PromotedOk, NmOk, CoreOk, EncNm,
         Written, HeadOk, DsmsOk, TrailerOk, NmTyped, MessageCount, DsmsAre, IdTyped;
    ghost var s0 := c.View();
    Bounds(T, m);
    ret := EncodeHead(T, c, m);
    ghost var s1 := c.View();
    OkIsCore(T, m);
    if !ret.Good? {
      HeadFailed(T, m, s0, ret, s1);
      return;
    }
    EncodeTimes(c, m);
    ghost var s2 := c.View();
    EncodePromoted(T, c, m);
    ghost var s3 := c.View();
    ret := EncodeSecurity(c, m);
    ghost var r4, s4 := ret, c.View();
    if ret.Good? {
      if m.messageType != DATASET {
        ret := Bad;
      } else {
        ret := EncodePayload(T, c, m);
      }
    }
    TailExact(T, m, s3, r4, s4, ret, c.View());
    Together(T, m, s0, s1, s2, s3, ret, c.View());
    if c.View() == s0.Plus(EncNm(T, m)) {
      PlusFits(s0, EncNm(T, m), c.View());
    }
  }

  lemma OkIsCore(T: Table, m: NetworkMessage)
    requires NmTyped(T, m)
    ensures NmOk(T, m) <==> CoreOk(T, m) && PromotedOk(T, m)
  {
    hide VariantsOk, DsmsOk, HeadOk, TrailerOk;
  }

  lemma PlusFits(a: Snap, e: bytes, b: Snap)
    requires b == a.Plus(e) && |b.cur| + |b.tail| == |a.cur| + |a.tail|
    ensures |e| <= a.Room()
  {
  }

  lemma Bounds(T: Table, m: NetworkMessage)
    requires NmTyped(T, m)
    ensures MessageCount(m) < 256 && (m.publisherId.Some? ==> IdTyped(m.publisherIdType, m.publisherId.value))
    ensures m.security.Some? ==> |m.security.value.nonce| < 256
  {
  }

  predicate TailOk(T: Table, m: NetworkMessage)
    requires NmTyped(T, m)
  {
    m.messageType == DATASET && DsmsOk(T, m.messages) && TrailerOk(m)
  }

  lemma TailExact(T: Table, m: NetworkMessage, s3: Snap, r4: Status, s4: Snap, ret: Status, s5: Snap)
    requires NmTyped(T, m) && Exact(s3, true, EncSecurity(m), r4, s4)
    requires if !r4.Good? then ret == r4 && s5 == s4
             else if m.messageType != DATASET then ret == Bad
             else Exact(s4, DsmsOk(T, m.messages) && TrailerOk(m), EncPayload(T, m), ret, s5)
    ensures Exact(s3, TailOk(T, m), EncSecurity(m) + EncPayload(T, m), ret, s5)
  {
    hide EncSecurity, EncPayload, DsmsOk, TrailerOk, DsmsAre;
    if r4.Good? && m.messageType != DATASET {
    } else {
      ExactSequel(s3, true, EncSecurity(m), r4, s4, TailOk(T, m), EncPayload(T, m), ret, s5);
    }
  }

  lemma HeadFailed(T: Table, m: NetworkMessage, s0: Snap, ret: Status, s1: Snap)
    requires NmTyped(T, m) && Exact(s0, HeadOk(m), WrittenHead(m, s0.Room()), ret, s1) && !ret.Good?
    ensures Exact(s0, CoreOk(T, m), Written(T, m, s0.Room()), ret, s1)
    ensures NmOk(T, m) ==> s0.Room() < |EncNm(T, m)|
    ensures !ret.LimitsExceeded?
  {
    hide WrittenHead, WrittenTimes, EncSecurity, EncPayload, DsmsOk, TrailerOk, HeadOk, EncMiddle, EncHead, VariantsOk;
    HeadShort(m, s0.Room());
  }

  lemma HeadShort(m: NetworkMessage, room: int)
    requires MessageCount(m) < 256
    ensures |WrittenHead(m, room)| <= |EncHead(m)|
    ensures |EncHead(m)| <= room ==> WrittenHead(m, room) == EncHead(m)
  {
    hide EncPayloadHeader, EncFlags, EncPublisherId, EncClassId, EncGroup;
  }

  lemma TimesShort(m: NetworkMessage, room: int)
    ensures var e := OptLE(m.timestamp, 8) + OptLE(m.picoseconds, 2);
            |e| <= room ==> WrittenTimes(m, room) == e
  {
    hide OptLE;
  }

  lemma Together(T: Table, m: NetworkMessage, s0: Snap, s1: Snap, s2: Snap, s3: Snap, ret: Status, s5: Snap)
    requires NmTyped(T, m) && Exact(s0, HeadOk(m), WrittenHead(m, s0.Room()), Good, s1)
    requires s2 == s1.Plus(WrittenTimes(m, s1.Room()))
    requires (m.promoted.None? ==> s3 == s2) && Tried(s2, PromotedOk(T, m), EncPromoted(T, m), s3)
    requires Exact(s3, TailOk(T, m), EncSecurity(m) + EncPayload(T, m), ret, s5)
    ensures !ret.LimitsExceeded? && (ret.Good? ==> CoreOk(T, m))
    ensures m.promoted.None? ==> Exact(s0, CoreOk(T, m), Written(T, m, s0.Room()), ret, s5)
    ensures NmOk(T, m) && |EncNm(T, m)| <= s0.Room() ==> ret.Good? && s5 == s0.Plus(EncNm(T, m))
  {
    hide WrittenHead, WrittenTimes, EncSecurity, EncPayload, EncPromoted, DsmsOk, TrailerOk, HeadOk, VariantsOk, EncHead, OptLE,
         Exact, Tried, PromotedOk, DsmsAre, IdTyped, MessageCount, VariantsAre;
    var h, tail := WrittenHead(m, s0.Room()), EncSecurity(m) + EncPayload(T, m);
    ExactGood(s0, HeadOk(m), h, Good, s1);
    ExactIsOk(s0, HeadOk(m), h, s1);
    var t := WrittenTimes(m, s1.Room());
    TimesFit(m, s1.Room());
    PlusPlus(s0, h, t);
    if m.promoted.None? {
      ExactAfter(s0, h + t, TailOk(T, m), tail, ret, s5);
      assert h + t + tail == Written(T, m, s0.Room());
    }
    ExactIsOk2(s3, TailOk(T, m), tail, ret, s5);
    Whole(T, m, s0, s2, s3, ret, s5);
  }

  lemma ExactIsOk(a: Snap, ok: bool, e: bytes, b: Snap)
    requires Exact(a, ok, e, Good, b)
    ensures ok && |e| <= a.Room()
  {
  }

  lemma ExactIsOk2(a: Snap, ok: bool, e: bytes, ret: Status, b: Snap)
    requires Exact(a, ok, e, ret, b)
    ensures !ret.LimitsExceeded? && (ret.Good? ==> ok)
  {
  }

  lemma TimesFit(m: NetworkMessage, room: nat)
    ensures |WrittenTimes(m, room)| <= room
  {
    hide OptLE;
  }

  /** A prefix that is known to fit. */
  lemma ExactAfter(a: Snap, e1: bytes, ok: bool, e2: bytes, ret: Status, z: Snap)
    requires |e1| <= a.Room() && Exact(a.Plus(e1), ok, e2, ret, z)
    ensures Exact(a, ok, e1 + e2, ret, z)
  {
    if ret.Good? {
      PlusPlus(a, e1, e2);
    }
  }

  lemma Whole(T: Table, m: NetworkMessage, s0: Snap, s2: Snap, s3: Snap, ret: Status, s5: Snap)
    requires NmTyped(T, m) && |WrittenHead(m, s0.Room())| <= s0.Room()
    requires var h := WrittenHead(m, s0.Room()); s2 == s0.Plus(h + WrittenTimes(m, s0.Room() - |h|))
    requires Tried(s2, PromotedOk(T, m), EncPromoted(T, m), s3)
    requires Exact(s3, TailOk(T, m), EncSecurity(m) + EncPayload(T, m), ret, s5)
    ensures NmOk(T, m) && |EncNm(T, m)| <= s0.Room() ==> ret.Good? && s5 == s0.Plus(EncNm(T, m))
  {
    hide WrittenHead, WrittenTimes, EncSecurity, EncPayload, EncPromoted, DsmsOk, TrailerOk, HeadOk, VariantsOk, EncHead, OptLE;
    if NmOk(T, m) && |EncNm(T, m)| <= s0.Room() {
      var h, e := EncHead(m), OptLE(m.timestamp, 8) + OptLE(m.picoseconds, 2);
      HeadShort(m, s0.Room());
      TimesShort(m, s0.Room() - |h|);
      var p, tail := EncPromoted(T, m), EncSecurity(m) + EncPayload(T, m);
      assert EncNm(T, m) == h + e + p + tail;
      PlusPlus(s0, h + e, p);
      PlusPlus(s0, h + e + p, tail);
    }
  }

  // ----- when "good" means that the whole message was written -----

  /** The octets after the timestamps. */
  function Following(T: Table, m: NetworkMessage): nat
    requires NmTyped(T, m)
  {
    |EncSecurity(m)| + |EncPayload(T, m)|
  }

  /** Something whose result is ignored is followed by fewer octets than it has itself, so that there is a room in which
      what follows it fits and it does not. */
  predicate Lossy(T: Table, m: NetworkMessage)
    requires NmTyped(T, m)
  {
    || (m.payloadHeader == Some(WriterIds([])) && Following(T, m) == 0)
    || (m.timestamp.Some? && OptSize(m.picoseconds, 2) + Following(T, m) < 8)
    || (m.picoseconds.Some? && Following(T, m) < 2)
  }

  lemma WrittenParts(T: Table, m: NetworkMessage, room: int)
    requires NmTyped(T, m)
    ensures MessageCount(m) < 256
    ensures EncHead(m) == HeadFront(m) + EncPayloadHeader(m)
    ensures |EncNm(T, m)| == |EncHead(m)| + OptSize(m.timestamp, 8) + OptSize(m.picoseconds, 2) + |EncPromoted(T, m)| + Following(T, m)
    ensures var h := WrittenHead(m, room);
            |Written(T, m, room)| == |h| + |WrittenTimes(m, room - |h|)| + Following(T, m)
    ensures m.payloadHeader == Some(WriterIds([])) ==> |EncPayloadHeader(m)| == 1
    ensures m.payloadHeader != Some(WriterIds([])) ==> WrittenHead(m, room) == EncHead(m)
  {
    hide EncSecurity, EncPayload, EncFlags, EncPublisherId, EncClassId, EncGroup, WrittenTimes, EncPromoted, DsmsAre, VariantsAre, IdTyped, LE;
  }

  /** Success means, in every room, that all of the message was written, unless the message is lossy. */
  lemma WrittenWhole(T: Table, m: NetworkMessage, room: nat)
    requires NmTyped(T, m) && m.promoted.None? && !Lossy(T, m) && |Written(T, m, room)| <= room
    ensures Written(T, m, room) == EncNm(T, m)
  {
    hide NmTyped, EncSecurity, EncPayload, EncHead, HeadFront, EncPayloadHeader, MessageCount, Following, LE;
    WrittenParts(T, m, room);
    OptLength8(m);
    AllParts(T, m, room);
  }

  /** And for a lossy message there is such a room: success, and fewer octets than the message has. */
  lemma LossPossible(T: Table, m: NetworkMessage) returns (room: nat)
    requires NmTyped(T, m) && m.promoted.None? && Lossy(T, m)
    ensures |Written(T, m, room)| <= room && |Written(T, m, room)| < |EncNm(T, m)|
  {
    hide NmTyped, EncSecurity, EncPayload, EncHead, HeadFront, EncPayloadHeader, MessageCount, Following, LE, Written, EncNm, EncPromoted;
    OptLength8(m);
    if m.payloadHeader == Some(WriterIds([])) && Following(T, m) == 0 {
      room := |HeadFront(m)|;
    } else if m.timestamp.Some? && OptSize(m.picoseconds, 2) + Following(T, m) < 8 {
      WrittenParts(T, m, 0);
      room := |EncHead(m)| + OptSize(m.picoseconds, 2) + Following(T, m);
      HeadShort(m, room);
    } else {
      WrittenParts(T, m, 0);
      room := |EncHead(m)| + OptSize(m.timestamp, 8) + Following(T, m);
      HeadShort(m, room);
    }
    WrittenParts(T, m, room);
  }

  /** Success implies that the whole message was written, in every room, exactly for the messages that are not lossy. */
  lemma LossExact(T: Table, m: NetworkMessage)
    requires NmTyped(T, m) && m.promoted.None?
    ensures Lossy(T, m) <==> exists room: nat :: |Written(T, m, room)| <= room && Written(T, m, room) != EncNm(T, m)
  {
    hide NmTyped, Written, EncNm, Lossy;
    if Lossy(T, m) {
      var room := LossPossible(T, m);
      assert Written(T, m, room) != EncNm(T, m);
    } else {
      forall room: nat | |Written(T, m, room)| <= room ensures Written(T, m, room) == EncNm(T, m) {
        WrittenWhole(T, m, room);
      }
    }
  }

  lemma OptLength8(m: NetworkMessage)
    ensures |OptLE(m.timestamp, 8)| == OptSize(m.timestamp, 8) && |OptLE(m.picoseconds, 2)| == OptSize(m.picoseconds, 2)
  {
  }

  lemma AllParts(T: Table, m: NetworkMessage, room: nat)
    requires NmTyped(T, m) && MessageCount(m) < 256 && m.promoted.None? && WrittenHead(m, room) == EncHead(m)
    requires WrittenTimes(m, room - |EncHead(m)|) == OptLE(m.timestamp, 8) + OptLE(m.picoseconds, 2)
    ensures Written(T, m, room) == EncNm(T, m)
  {
    hide NmTyped, MessageCount, WrittenHead, WrittenTimes, EncHead, OptLE, EncSecurity, EncPayload, EncPromoted;
    Bounds(T, m);
    NoPromoted(T, m);
    var h, t, x := EncHead(m), OptLE(m.timestamp, 8) + OptLE(m.picoseconds, 2), EncSecurity(m);
    assert t + [] == t;
    Assoc(h, t, x);
  }

  lemma NoPromoted(T: Table, m: NetworkMessage)
    requires m.promoted.None?
    ensures EncPromoted(T, m) == []
  {
  }

  /** A keep-alive message with a timestamp. */
  function Stamped(): NetworkMessage {
    NetworkMessage(1, 0, None, None, None, None, Some(0), None, false, DATASET, None, None, None,
                   [DataSetMessage(true, 0, KEEPALIVE, None, None, None, None, None, None, NoData)])
  }

  /** Success does not mean that the message fits: here four octets are written, without the timestamp, into a
      buffer that is too small for the twelve octets of the message. */
  lemma TimestampDropped(T: Table)
    ensures NmTyped(T, Stamped()) && CoreOk(T, Stamped()) && |EncNm(T, Stamped())| == 12
    ensures |Written(T, Stamped(), 4)| == 4 && Written(T, Stamped(), 4) != EncNm(T, Stamped())
  {
    hide Mark, LE;
    var m := Stamped();
    assert EncDsms(T, m.messages) == EncDsm(T, m.messages[0]) + EncDsms(T, m.messages[1..]);
    assert EncDsms(T, m.messages[1..]) == [];
    assert |DsmHeader(m.messages[0])| == 2 && EncFrame(T, m.messages[0]) == [];
    assert DsmsOk(T, m.messages[1..]);
    assert |EncHead(m)| == 2 && |WrittenHead(m, 4)| == 2;
  }
}
