/** The chunked encoder: a context that writes into the current buffer and, when it is full, hands the
    chunk to a callback and continues in a replacement buffer. */
module Encoder {
  import opened Bytes
  import opened Types
  import opened Wire
  import opened EncodeState
  import opened CalcSize

  /** The callback's answer: a replacement buffer of the given size, or a failure. */
  datatype Reply = NewBuffer(size: nat) | Refused

  /** What is encoded with exchange and retry: a value of a type, or a value wrapped in an ExtensionObject. */
  datatype Job = Plain(t: nat, v: Value) | InExt(t: nat, v: Value)

  ghost predicate JobTyped(T: Table, j: Job) {
    j.t < |T| && HasType(T, j.t, j.v)
  }

  function JobBytes(T: Table, j: Job): bytes
    requires JobTyped(T, j)
  {
    if j.Plain? then Enc(T, j.t, j.v) else EncExtHead(T, j.t, Size(T, j.t, j.v)) + Enc(T, j.t, j.v)
  }

  predicate JobOk(T: Table, j: Job, d: nat)
    requires JobTyped(T, j)
  {
    if j.Plain? then Encodable(T, j.t, j.v, d) else ContentOk(T, j.t, j.v, d)
  }

  /** The longest prefix that must fit into one buffer: a NodeId with a Guid. */
  const LONGEST_HEAD: nat := 19

  class Context {
    var buf: array<u8>
    var pos: nat
    var depth: nat
    var chunks: seq<bytes>
    const callback: Option<nat -> Reply>

    ghost predicate Valid()
      reads this, buf
    {
      && pos <= buf.Length
      && (callback.Some? ==> forall k: nat :: callback.value(k).NewBuffer? ==> callback.value(k).size >= LONGEST_HEAD)
    }

    ghost predicate Reliable() {
      callback.Some? && forall k: nat :: callback.value(k).NewBuffer?
    }

    ghost function View(): (s: Snap)
      requires Valid()
      reads this, buf
      ensures |s.cur| == pos && s.Room() == buf.Length - pos
    {
      Snap(Flat(chunks), buf[..pos], buf[pos..])
    }

    /** Without a callback the buffer and the chunks stay; with one the buffer stays or is replaced. */
    twostate predicate Kept()
      reads this
    {
      if callback.None? then buf == old(buf) && chunks == old(chunks) else buf == old(buf) || fresh(buf)
    }

    /** The contract every encoding step meets. */
    twostate predicate Did(h: nat, ok: bool, e: bytes, ret: Status)
      reads this, buf
      requires old(Valid())
    {
      && Valid() && Kept() && depth == old(depth)
      && Effect(Reliable(), h, old(View()), ok, e, ret, View())
    }

    /** The contract of the steps that write into the current buffer only. */
    twostate predicate DidDirect(e: bytes, ret: Status)
      reads this, buf
      requires old(Valid())
    {
      && Valid() && buf == old(buf) && chunks == old(chunks) && depth == old(depth)
      && Direct(old(View()), e, ret, View())
    }

    constructor (size: nat, callback: Option<nat -> Reply>)
      requires callback.Some? ==>
        forall k: nat :: callback.value(k).NewBuffer? ==> callback.value(k).size >= LONGEST_HEAD
      ensures Valid() && fresh(buf) && depth == 0 && this.callback == callback
      ensures View().sent == [] && View().cur == [] && View().Room() == size
    {
      this.buf := new u8[size];
      this.pos := 0;
      this.depth := 0;
      this.chunks := [];
      this.callback := callback;
    }

    /** A context over an existing buffer, without exchange. */
    constructor Over(buf: array<u8>, pos: nat)
      requires pos <= buf.Length
      ensures Valid() && this.buf == buf && this.pos == pos && depth == 0 && this.callback.None? && chunks == []
    {
      this.buf := buf;
      this.pos := pos;
      this.depth := 0;
      this.chunks := [];
      this.callback := None;
    }

    /** Sends the current chunk and continues in a replacement buffer. */
    method Exchange() returns (ret: Status)
      requires Valid()
      modifies this
      ensures Valid() && Kept() && depth == old(depth) && !ret.LimitsExceeded?
      ensures ret.Good? ==> fresh(buf) && View().sent == old(View().Out()) && View().cur == [] && View().Room() >= LONGEST_HEAD
      ensures !ret.Good? ==> View() == old(View()) && buf == old(buf) && pos == old(pos) && chunks == old(chunks) && !Reliable()
    {
      if callback.None? {
        return Bad;
      }
      match callback.value(|chunks|)
      case Refused => return Bad;
      case NewBuffer(size) =>
        FlatAppend(chunks, buf[..pos]);
        chunks := chunks + [buf[..pos]];
        buf := new u8[size];
        pos := 0;
        return Good;
    }

    /** Writes octets that must not be split. */
    method Put(b: bytes) returns (ret: Status)
      requires Valid()
      modifies this, buf
      ensures DidDirect(b, ret)
      ensures ret.LimitsExceeded? ==> View() == old(View())
    {
      if pos + |b| > buf.Length {
        return LimitsExceeded;
      }
      forall i | 0 <= i < |b| {
        buf[pos + i] := b[i];
      }
      assert buf[..pos + |b|] == old(buf[..pos]) + b;
      assert buf[pos + |b|..] == old(buf[pos..])[|b|..];
      pos := pos + |b|;
      return Good;
    }

    /** Returns to the last good position and exchanges the buffer. */
    method RollBack(oldpos: nat, ghost a: Snap) returns (ret: Status)
      requires Valid() && SameBuffer(a, View()) && |a.cur| == oldpos
      modifies this
      ensures Valid() && Kept() && depth == old(depth) && !ret.LimitsExceeded?
      ensures ret.Good? ==> fresh(buf) && View().sent == a.Out() && View().cur == [] && View().Room() >= LONGEST_HEAD
      ensures !ret.Good? ==> buf == old(buf) && pos == oldpos && chunks == old(chunks) && !Reliable()
    {
      ghost var b := View();
      pos := oldpos;
      assert View().cur == a.cur by { assert buf[..oldpos] == b.cur[..oldpos] == a.cur; }
      ret := Exchange();
    }

    // ----- encode with exchange and one retry -----

    method WithExchange(T: Table, j: Job) returns (ret: Status)
      requires Valid() && JobTyped(T, j)
      modifies this, buf
      ensures Did(0, JobOk(T, j, old(depth)), JobBytes(T, j), ret)
      decreases j.v, if j.InExt? then 8 else 3
    {
      hide JobOk, JobBytes, HasType, Flat;
      var oldpos := pos;
      ghost var a := View();
      ret := Jump(T, j);
      if ret.LimitsExceeded? {
        ghost var b := View();
        ret := RollBack(oldpos, a);
        if ret.Good? {
          ghost var c := View();
          ret := Jump(T, j);
          Retried(Reliable(), LONGEST_HEAD, a, JobOk(T, j, old(depth)), JobBytes(T, j), b, c, ret, View());
        }
      }
    }

    method PutWithExchange(b: bytes) returns (ret: Status)
      requires Valid() && |b| <= LONGEST_HEAD
      modifies this, buf
      ensures Did(0, true, b, ret)
      ensures callback.None? && !ret.Good? ==> View() == old(View())
    {
      hide Flat;
      var oldpos := pos;
      ghost var a := View();
      ret := Put(b);
      DirectEffect(Reliable(), a, b, ret, View());
      if ret.LimitsExceeded? {
        ghost var m := View();
        ret := RollBack(oldpos, a);
        if ret.Good? {
          ghost var c := View();
          ret := Put(b);
          DirectEffect(Reliable(), c, b, ret, View());
          Retried(Reliable(), |b|, a, true, b, m, c, ret, View());
        }
      }
    }

    method DiagWithExchange(g: Diag) returns (ret: Status)
      requires Valid()
      modifies this, buf
      ensures Did(0, DiagOk(g), EncDiag(g), ret)
      decreases g, 1
    {
      hide Flat, DiagOk, EncDiag;
      var oldpos := pos;
      ghost var a := View();
      ret := EncodeDiag(g);
      if ret.LimitsExceeded? {
        ghost var b := View();
        ret := RollBack(oldpos, a);
        if ret.Good? {
          ghost var c := View();
          ret := EncodeDiag(g);
          Retried(Reliable(), LONGEST_HEAD, a, DiagOk(g), EncDiag(g), b, c, ret, View());
        }
      }
    }

    // ----- strings and arrays -----

    /** Copies octets, filling one buffer after the other. */
    method PutOverlayable(b: bytes) returns (ret: Status)
      requires Valid()
      modifies this, buf
      ensures Did(0, true, b, ret)
    {
      hide Flat;
      var rest := b;
      ghost var a := View();
      while buf.Length < pos + |rest|
        invariant Valid() && Kept() && depth == old(depth)
        invariant View().Out() + rest == a.Out() + b
        invariant |b| <= a.Room() ==> View() == a && rest == b
        decreases |rest|, if pos == buf.Length then 1 else 0
      {
        var possible := buf.Length - pos;
        ghost var m := View();
        ret := FillBuffer(rest[..possible]);
        if !ret.Good? {
          return;
        }
        OutSplit(m, rest, possible);
        rest := rest[possible..];
      }
      ghost var m := View();
      ret := Put(rest);
      OutSplit(m, rest, |rest|);
    }

    /** Fills the current buffer to its end and exchanges it. */
    method FillBuffer(b: bytes) returns (ret: Status)
      requires Valid() && |b| == buf.Length - pos
      modifies this, buf
      ensures Valid() && Kept() && depth == old(depth) && !ret.LimitsExceeded?
      ensures ret.Good? ==> pos == 0 < buf.Length && View().Out() == old(View()).Plus(b).Out()
      ensures !ret.Good? ==> !Reliable()
    {
      hide Flat;
      ret := Put(b);
      ghost var m := View();
      ret := Exchange();
      assert ret.Good? ==> m.Out() + [] == m.Out();
    }

    method EncodeStr(s: Str) returns (ret: Status)
      requires Valid()
      modifies this, buf
      ensures Did(0, StrOk(s), EncStr(s), ret)
    {
      hide Flat, LE, Effect;
      ghost var a := View();
      if s.NoStr? {
        ret := PutWithExchange(LE(0xFFFF_FFFF, 4));
        return;
      }
      if |s.data| > INT32_MAX {
        ret := Bad;
        CannotEncode(Reliable(), 0, a, EncStr(s), View());
        return;
      }
      ret := PutWithExchange(LE(|s.data|, 4));
      ghost var r1, b := ret, View();
      if ret.Good? {
        ret := PutOverlayable(s.data);
      }
      Sequel(Reliable(), 0, a, true, LE(|s.data|, 4), r1, b, true, s.data, ret, View());
    }

    method EncodeDims(dims: seq<u32>) returns (ret: Status)
      requires Valid() && dims != []
      modifies this, buf
      ensures Did(0, |dims| <= INT32_MAX, EncDims(dims), ret)
    {
      hide Flat, LE, Effect, EncU32s;
      ghost var a := View();
      if |dims| > INT32_MAX {
        ret := Bad;
        CannotEncode(Reliable(), 0, a, EncDims(dims), View());
        return;
      }
      ret := PutWithExchange(LE(|dims|, 4));
      ghost var r1, b := ret, View();
      if ret.Good? {
        ret := PutOverlayable(EncU32s(dims));
      }
      Sequel(Reliable(), 0, a, true, LE(|dims|, 4), r1, b, true, EncU32s(dims), ret, View());
    }

    method EncodeArr(T: Table, t: nat, arr: Arr) returns (ret: Status)
      requires Valid() && ArrTyped(T, t, arr)
      modifies this, buf
      ensures Did(0, ArrOk(T, t, arr, old(depth)), EncArr(T, t, arr), ret)
      decreases arr, 0
    {
      hide Flat, LE, Effect, EncElems, ElemsOk, ElemsTyped;
      ghost var a := View();
      if Count(arr) > INT32_MAX {
        ret := Bad;
        CannotEncode(Reliable(), 0, a, EncArr(T, t, arr), View());
        return;
      }
      var length := LE(if arr.NoArr? then 0xFFFF_FFFF else |arr.elems|, 4);
      ret := PutWithExchange(length);
      ghost var r1, b := ret, View();
      if arr.NoArr? {
        return;
      }
      if ret.Good? {
        if T[t].overlayable {
          FlatOk(T, t, arr.elems, old(depth));
          ret := PutOverlayable(EncElems(T, t, arr.elems));
        } else {
          ret := EncodeElems(T, t, arr.elems);
        }
      }
      Sequel(Reliable(), 0, a, true, length, r1, b, ElemsOk(T, t, arr.elems, old(depth)), EncElems(T, t, arr.elems), ret, View());
    }

    method EncodeElems(T: Table, t: nat, es: seq<Value>) returns (ret: Status)
      requires Valid() && t < |T| && ElemsTyped(T, t, es)
      modifies this, buf
      ensures Did(0, ElemsOk(T, t, es, old(depth)), EncElems(T, t, es), ret)
      decreases es
    {
      hide Flat, Effect, Enc, Encodable;
      ghost var a := View();
      ghost var ok, e := true, [];
      var i := 0;
      ret := Good;
      NoEffect(Reliable(), a);
      assert es[0..] == es;
      while i < |es|
        invariant i <= |es| && ElemsTyped(T, t, es[i..])
        invariant Valid() && Kept() && depth == old(depth)
        invariant Effect(Reliable(), 0, a, ok, e, Good, View()) && ret.Good?
        invariant e + EncElems(T, t, es[i..]) == EncElems(T, t, es)
        invariant (ok && ElemsOk(T, t, es[i..], depth)) == ElemsOk(T, t, es, depth)
      {
        ghost var b := View();
        ghost var ok1, e1 := Encodable(T, t, es[i], depth), Enc(T, t, es[i]);
        assert es[i..][1..] == es[i + 1..];
        ret := WithExchange(T, Plain(t, es[i]));
        if !ret.Good? {
          EffectThen(Reliable(), 0, a, ok, e, b, ok1, e1, ret, View());
          EffectStop(Reliable(), 0, a, ok && ok1, e + e1, ret, View(),
                     ElemsOk(T, t, es[i + 1..], depth), EncElems(T, t, es[i + 1..]));
          Assoc(e, e1, EncElems(T, t, es[i + 1..]));
          return;
        }
        EffectThen(Reliable(), 0, a, ok, e, b, ok1, e1, ret, View());
        Assoc(e, e1, EncElems(T, t, es[i + 1..]));
        ok, e := ok && ok1, e + e1;
        i := i + 1;
      }
      assert es[i..] == [] && e + [] == e;
    }

    // ----- leaf types -----

    method EncodeGuid(g: Guid) returns (ret: Status)
      requires Valid()
      modifies this, buf
      ensures DidDirect(EncGuid(g), ret)
    {
      hide Flat, LE, Direct;
      ghost var s0 := View();
      var a, b, c := LE(g.data1, 4), LE(g.data2, 2), LE(g.data3, 2);
      ret := Put(a);
      ghost var r1, s1 := ret, View();
      var more := Put(b);
      ret := Or(ret, more);
      DirectThen(s0, a, r1, s1, b, more, View());
      ghost var r2, s2 := ret, View();
      more := Put(c);
      ret := Or(ret, more);
      DirectThen(s0, a + b, r2, s2, c, more, View());
      ghost var r3, s3 := ret, View();
      more := Put(g.data4);
      ret := Or(ret, more);
      DirectThen(s0, a + b + c, r3, s3, g.data4, more, View());
    }

    /** Two writes, the second made even when the first did not fit. */
    method PutBoth(a: bytes, b: bytes) returns (ret: Status)
      requires Valid()
      modifies this, buf
      ensures DidDirect(a + b, ret)
    {
      hide Flat, Direct;
      ghost var s0 := View();
      ret := Put(a);
      ghost var r1, s1 := ret, View();
      var more := Put(b);
      ret := Or(ret, more);
      DirectThen(s0, a, r1, s1, b, more, View());
    }

    method EncodeNode(id: NodeId, hasUri: bool, hasServer: bool) returns (ret: Status)
      requires Valid()
      modifies this, buf
      ensures Did(LONGEST_HEAD, NodeOk(id), EncNodeMasked(id, hasUri, hasServer), ret)
      ensures id.id.Numeric? || id.id.GuidId? ==> DidDirect(EncNodeMasked(id, hasUri, hasServer), ret)
    {
      hide Flat, LE, Effect, Direct, EncGuid, EncStr, Mark;
      ghost var s0 := View();
      var first := [NodeByte(NodeForm(id), hasUri, hasServer)];
      match id.id
      case Numeric(n) =>
        var form := NumericForm(id.ns, n);
        var ns := if form == 2 then LE(id.ns, 2) else if form == 1 then [id.ns] else [];
        var num := if form == 2 then LE(n, 4) else if form == 1 then LE(n, 2) else [n];
        ret := PutBoth(first, ns);
        ghost var r1, s1 := ret, View();
        var more := Put(num);
        ret := Or(ret, more);
        DirectThen(s0, first + ns, r1, s1, num, more, View());
        assert first + ns + num == EncNodeMasked(id, hasUri, hasServer);
        ShortNode(s0, first + ns + num, ret);
      case GuidId(g) =>
        ret := PutBoth(first, LE(id.ns, 2));
        ghost var r1, s1 := ret, View();
        var more := EncodeGuid(g);
        ret := Or(ret, more);
        DirectThen(s0, first + LE(id.ns, 2), r1, s1, EncGuid(g), more, View());
        assert first + LE(id.ns, 2) + EncGuid(g) == EncNodeMasked(id, hasUri, hasServer);
        ShortNode(s0, first + LE(id.ns, 2) + EncGuid(g), ret);
      case StringId(x) => ret := EncodeTextId(first, id.ns, x, EncNodeMasked(id, hasUri, hasServer));
      case ByteStringId(x) => ret := EncodeTextId(first, id.ns, x, EncNodeMasked(id, hasUri, hasServer));
      case Unknown =>
        ret := Bad;
        CannotEncode(Reliable(), LONGEST_HEAD, s0, EncNodeMasked(id, hasUri, hasServer), View());
    }

    lemma ShortNode(a: Snap, e: bytes, ret: Status)
      requires Valid() && Direct(a, e, ret, View()) && |e| <= LONGEST_HEAD
      ensures Effect(Reliable(), LONGEST_HEAD, a, true, e, ret, View())
    {
      hide Effect, Direct;
      DirectEffect(Reliable(), a, e, ret, View());
      Widen(Reliable(), |e|, LONGEST_HEAD, a, true, e, ret, View());
    }

    /** Encoding byte and namespace, then a string identifier that may be split. */
    method EncodeTextId(first: bytes, ns: u16, x: Str, ghost e: bytes) returns (ret: Status)
      requires Valid() && |first| == 1 && e == first + (LE(ns, 2) + EncStr(x))
      modifies this, buf
      ensures Did(LONGEST_HEAD, StrOk(x), e, ret)
    {
      hide Flat, LE, Effect, Direct, EncStr;
      ghost var s0 := View();
      ret := PutBoth(first, LE(ns, 2));
      ghost var r1, s1 := ret, View();
      if ret.Good? {
        ret := EncodeStr(x);
      }
      HeadSequel(Reliable(), s0, first + LE(ns, 2), r1, s1, 0, StrOk(x), EncStr(x), ret, View());
      assert first + LE(ns, 2) + EncStr(x) == e;
      Widen(Reliable(), 3, LONGEST_HEAD, s0, StrOk(x), e, ret, View());
    }

    method EncodeExpanded(id: NodeId, uri: Str, server: u32) returns (ret: Status)
      requires Valid()
      modifies this, buf
      ensures Did(LONGEST_HEAD, NodeOk(id) && StrOk(uri), EncExpanded(id, uri, server), ret)
    {
      hide Flat, LE, Effect, EncStr, EncNodeMasked;
      ghost var s0 := View();
      ghost var a, b := EncNodeMasked(id, HasUri(uri), server > 0), if HasUri(uri) then EncStr(uri) else [];
      ret := EncodeNode(id, HasUri(uri), server > 0);
      ghost var r1, s1 := ret, View();
      if ret.Good? {
        NoEffect(Reliable(), s1);
        if HasUri(uri) {
          ret := EncodeStr(uri);
        }
      }
      Sequel(Reliable(), LONGEST_HEAD, s0, NodeOk(id), a, r1, s1, StrOk(uri), b, ret, View());
      ghost var r2, s2 := ret, View();
      if ret.Good? {
        NoEffect(Reliable(), s2);
        if server > 0 {
          ret := PutWithExchange(LE(server, 4));
        }
      }
      Sequel(Reliable(), LONGEST_HEAD, s0, NodeOk(id) && StrOk(uri), a + b, r2, s2, true,
             if server > 0 then LE(server, 4) else [], ret, View());
    }

    method EncodeName(ns: u16, name: Str) returns (ret: Status)
      requires Valid()
      modifies this, buf
      ensures Did(LONGEST_HEAD, StrOk(name), LE(ns, 2) + EncStr(name), ret)
    {
      hide Flat, LE, Effect, Direct, EncStr;
      ghost var s0 := View();
      ret := Put(LE(ns, 2));
      ghost var r1, s1 := ret, View();
      if ret.Good? {
        ret := EncodeStr(name);
      }
      HeadSequel(Reliable(), s0, LE(ns, 2), r1, s1, 0, StrOk(name), EncStr(name), ret, View());
      Widen(Reliable(), 2, LONGEST_HEAD, s0, StrOk(name), LE(ns, 2) + EncStr(name), ret, View());
    }

    /** A string that is written only when present. */
    method EncodePresent(s: Str) returns (ret: Status)
      requires Valid()
      modifies this, buf
      ensures Did(0, StrOk(s), EncPresent(s), ret)
    {
      hide Flat, Effect, EncStr;
      NoEffect(Reliable(), View());
      ret := Good;
      if s.Str? {
        ret := EncodeStr(s);
      }
    }

    /** Both strings, the second written even when the first failed. */
    method EncodeBothPresent(locale: Str, local: Str) returns (ret: Status)
      requires Valid()
      modifies this, buf
      ensures Did(0, StrOk(locale) && StrOk(local), EncPresent(locale) + EncPresent(local), ret)
    {
      hide Flat, Effect, EncPresent, StrOk;
      ghost var s1 := View();
      ret := EncodePresent(locale);
      ghost var r2, s2 := ret, View();
      var more := EncodePresent(local);
      ret := Or(ret, more);
      EffectAlso(Reliable(), s1, StrOk(locale), EncPresent(locale), r2, s2, StrOk(local), EncPresent(local), more, View());
    }

    method EncodeLocalized(locale: Str, local: Str) returns (ret: Status)
      requires Valid()
      modifies this, buf
      ensures Did(LONGEST_HEAD, StrOk(locale) && StrOk(local), EncLocalized(locale, local), ret)
    {
      hide Flat, Effect, Direct, EncPresent, Mark, StrOk;
      ghost var s0 := View();
      var first := [LocalizedByte(locale, local)];
      ret := Put(first);
      ghost var r1, s1 := ret, View();
      if ret.Good? {
        ret := EncodeBothPresent(locale, local);
      }
      ghost var e := EncPresent(locale) + EncPresent(local);
      HeadSequel(Reliable(), s0, first, r1, s1, 0, StrOk(locale) && StrOk(local), e, ret, View());
      assert first + e == first + EncPresent(locale) + EncPresent(local);
      Widen(Reliable(), 1, LONGEST_HEAD, s0, StrOk(locale) && StrOk(local), first + e, ret, View());
    }

    // ----- DiagnosticInfo -----

    /** The mask and the numbers, all written into the current buffer or not at all. */
    method EncodeDiagHead(g: Diag) returns (ret: Status)
      requires Valid()
      modifies this, buf
      ensures DidDirect([DiagByte(g)] + DiagNumbers(g), ret)
    {
      hide Flat, Direct, DiagByte, OptLE;
      ghost var s0 := View();
      var first := [DiagByte(g)];
      var a, b, c, d := OptLE(g.symbolicId, 4), OptLE(g.namespaceUri, 4), OptLE(g.localizedText, 4), OptLE(g.locale, 4);
      ret := PutBoth(first, a);
      ghost var r1, s1 := ret, View();
      var more := Put(b);
      ret := Or(ret, more);
      DirectThen(s0, first + a, r1, s1, b, more, View());
      ghost var r2, s2 := ret, View();
      more := Put(c);
      ret := Or(ret, more);
      DirectThen(s0, first + a + b, r2, s2, c, more, View());
      ghost var r3, s3 := ret, View();
      more := Put(d);
      ret := Or(ret, more);
      DirectThen(s0, first + a + b + c, r3, s3, d, more, View());
      assert first + a + b + c + d == first + DiagNumbers(g);
    }

    method EncodeDiag(g: Diag) returns (ret: Status)
      requires Valid()
      modifies this, buf
      ensures Did(LONGEST_HEAD, DiagOk(g), EncDiag(g), ret)
      decreases g, 0
    {
      hide Flat, Effect, Direct, DiagByte, DiagNumbers, EncStr, StrOk, LE;
      ghost var s0 := View();
      ghost var head := [DiagByte(g)] + DiagNumbers(g);
      assert |head| <= LONGEST_HEAD by { DiagHeadLength(g); }
      ret := EncodeDiagHead(g);
      ghost var r1, s1 := ret, View();
      ShortNode(s0, head, ret);
      ghost var ok2 := g.additionalInfo.Some? ==> StrOk(g.additionalInfo.value);
      ghost var e2 := if g.additionalInfo.Some? then EncStr(g.additionalInfo.value) else [];
      if ret.Good? {
        NoEffect(Reliable(), s1);
        if g.additionalInfo.Some? {
          ret := EncodeStr(g.additionalInfo.value);
        }
      }
      Sequel(Reliable(), LONGEST_HEAD, s0, true, head, r1, s1, ok2, e2, ret, View());
      ghost var r2, s2 := ret, View();
      if ret.Good? {
        NoEffect(Reliable(), s2);
        if g.innerStatus.Some? {
          ret := PutWithExchange(LE(g.innerStatus.value, 4));
        }
      }
      Sequel(Reliable(), LONGEST_HEAD, s0, ok2, head + e2, r2, s2, true, OptLE(g.innerStatus, 4), ret, View());
      ghost var r3, s3 := ret, View();
      ghost var ok4 := g.inner.Some? ==> DiagOk(g.inner.value);
      ghost var e4 := if g.inner.Some? then EncDiag(g.inner.value) else [];
      if ret.Good? {
        NoEffect(Reliable(), s3);
        if g.inner.Some? {
          ret := DiagWithExchange(g.inner.value);
        }
      }
      Sequel(Reliable(), LONGEST_HEAD, s0, ok2, head + e2 + OptLE(g.innerStatus, 4), r3, s3, ok4, e4, ret, View());
    }

    // ----- ExtensionObject -----

    /** A NodeId that does not fit ends the attempt; nothing is written after it. */
    method EncodeDecoded(T: Table, ty: nat, v: Value) returns (ret: Status)
      requires Valid() && ty < |T| && HasType(T, ty, v)
      modifies this, buf
      ensures Did(LONGEST_HEAD, ContentOk(T, ty, v, old(depth)), EncExtHead(T, ty, Size(T, ty, v)) + Enc(T, ty, v), ret)
      decreases v, 6
    {
      hide Flat, Effect, Direct, LE, Enc, Size, HasType, Encodable, EncNodeMasked, ContentOk;
      ghost var s0 := View();
      ghost var rest := [1] + LE(Size(T, ty, v), 4) + Enc(T, ty, v);
      ghost var all := EncExtHead(T, ty, Size(T, ty, v)) + Enc(T, ty, v);
      if !T[ty].typeId.id.Numeric? {
        ret := Bad;
        assert !ContentOk(T, ty, v, depth) by { NotNumeric(T, ty, v, depth); }
        CannotEncode(Reliable(), LONGEST_HEAD, s0, all, View());
        return;
      }
      var id := EncNode(BinaryId(T[ty]));
      assert |id| <= 7 by { BinaryIdLength(T, ty); }
      ret := Put(id);
      ghost var r1, s1 := ret, View();
      if ret.Good? {
        ret := EncodeAfterId(T, ty, v);
      }
      HeadSequel(Reliable(), s0, id, r1, s1, 5, ContentOk(T, ty, v, old(depth)), rest, ret, View());
      assert id + rest == all;
      Widen(Reliable(), |id| + 5, LONGEST_HEAD, s0, ContentOk(T, ty, v, old(depth)), all, ret, View());
    }

    /** The encoding byte, the length and the content. */
    method EncodeAfterId(T: Table, ty: nat, v: Value) returns (ret: Status)
      requires Valid() && ty < |T| && HasType(T, ty, v) && T[ty].typeId.id.Numeric?
      modifies this, buf
      ensures Did(5, ContentOk(T, ty, v, old(depth)), [1] + LE(Size(T, ty, v), 4) + Enc(T, ty, v), ret)
      decreases v, 5
    {
      hide Flat, Effect, Direct, LE, Enc, Size, HasType, Encodable;
      ghost var s0 := View();
      ghost var all := [1] + LE(Size(T, ty, v), 4) + Enc(T, ty, v);
      ret := Put([1]);
      ghost var r1, s1 := ret, View();
      var len := Calc(T, ty, v);
      if len > INT32_MAX {
        ret := Bad;
        CannotEncode(Reliable(), 5, s0, all, View());
        return;
      }
      var more := Put(LE(len, 4));
      ret := Or(ret, more);
      DirectThen(s0, [1], r1, s1, LE(len, 4), more, View());
      ghost var r2, s2 := ret, View();
      if ret.Good? {
        ret := WithExchange(T, Plain(ty, v));
      }
      HeadSequel(Reliable(), s0, [1] + LE(len, 4), r2, s2, 0, ContentOk(T, ty, v, old(depth)), Enc(T, ty, v), ret, View());
    }

    method EncodeExt(T: Table, x: ExtObj) returns (ret: Status)
      requires Valid() && ExtTyped(T, x)
      modifies this, buf
      ensures Did(LONGEST_HEAD, ExtOk(T, x, old(depth)), EncExt(T, x), ret)
      decreases x
    {
      hide Flat, Effect, LE, EncNodeMasked, EncStr, NodeOk, StrOk, ContentOk, Enc, Size, HasType;
      ghost var s0 := View();
      match x
      case Missing =>
        ret := Bad;
        CannotEncode(Reliable(), LONGEST_HEAD, s0, EncExt(T, x), View());
      case Decoded(ty, v) => ret := EncodeDecoded(T, ty, v);
      case NoBody(id) => ret := EncodeIdAndByte(id, 0);
      case Encoded(id, xml, body) =>
        var b := if xml then 2 else 1;
        ret := EncodeIdAndByte(id, b);
        ghost var r1, s1 := ret, View();
        if ret.Good? {
          ret := EncodeStr(body);
        }
        Sequel(Reliable(), LONGEST_HEAD, s0, NodeOk(id), EncNode(id) + [b], r1, s1, StrOk(body), EncStr(body), ret, View());
    }

    method EncodeIdAndByte(id: NodeId, b: u8) returns (ret: Status)
      requires Valid()
      modifies this, buf
      ensures Did(LONGEST_HEAD, NodeOk(id), EncNode(id) + [b], ret)
    {
      hide Flat, Effect, EncNodeMasked;
      ghost var s0 := View();
      ret := EncodeNode(id, false, false);
      ghost var r1, s1 := ret, View();
      if ret.Good? {
        ret := PutWithExchange([b]);
      }
      Sequel(Reliable(), LONGEST_HEAD, s0, NodeOk(id), EncNode(id), r1, s1, true, [b], ret, View());
    }

    // ----- Variant and DataValue -----

    method EncodeVariant(T: Table, x: Variant) returns (ret: Status)
      requires Valid() && VariantTyped(T, x)
      modifies this, buf
      ensures Did(5, VariantOk(T, x, old(depth)), EncVariant(T, x), ret)
      decreases x
    {
      hide Flat, Effect, Direct, VariantByte, EncContent, EncDims, ArraySendable, Enc, Encodable, ContentOk, EncExtHead, Size, HasType,
           ArrTyped;
      ghost var s0 := View();
      var first := [VariantByte(T, x)];
      ret := Put(first);
      ghost var r1, s1 := ret, View();
      match x
      case Empty =>
        DirectEffect(Reliable(), s0, first, ret, View());
        Widen(Reliable(), 1, 5, s0, true, first, ret, View());
        assert first == [0] by { EmptyByte(T); }
      case Scalar(ty, v) =>
        ghost var j := if Wrapped(T, ty) then InExt(ty, v) else Plain(ty, v);
        if ret.Good? {
          ret := WithExchange(T, if Wrapped(T, ty) then InExt(ty, v) else Plain(ty, v));
        }
        HeadSequel(Reliable(), s0, first, r1, s1, 0, JobOk(T, j, old(depth)), JobBytes(T, j), ret, View());
        Widen(Reliable(), 1, 5, s0, JobOk(T, j, old(depth)), first + JobBytes(T, j), ret, View());
      case Array(ty, arr, dims) =>
        if ret.Good? {
          ret := EncodeContent(T, ty, arr);
        }
        HeadSequel(Reliable(), s0, first, r1, s1, 4, ArraySendable(T, ty, arr, old(depth)), EncContent(T, ty, arr), ret, View());
        ghost var r2, s2 := ret, View();
        if ret.Good? {
          NoEffect(Reliable(), s2);
          if dims != [] {
            ret := EncodeDims(dims);
          }
        }
        NoDims();
        Sequel(Reliable(), 5, s0, ArraySendable(T, ty, arr, old(depth)), first + EncContent(T, ty, arr), r2, s2,
               |dims| <= INT32_MAX, EncDims(dims), ret, View());
    }

    method EncodeContent(T: Table, ty: nat, arr: Arr) returns (ret: Status)
      requires Valid() && ArrTyped(T, ty, arr)
      modifies this, buf
      ensures Did(4, ArraySendable(T, ty, arr, old(depth)), EncContent(T, ty, arr), ret)
      decreases arr, 1
    {
      hide Flat, Effect, Direct, LE, EncArr, ArrOk, EncWrapped, WrappedOk, ElemsTyped;
      ghost var s0 := View();
      ghost var ok, all := ArraySendable(T, ty, arr, old(depth)), EncContent(T, ty, arr);
      if !Wrapped(T, ty) {
        ret := EncodeArr(T, ty, arr);
        Widen(Reliable(), 0, 4, s0, ok, all, ret, View());
        return;
      }
      if Count(arr) > INT32_MAX {
        ret := Bad;
        CannotEncode(Reliable(), 4, s0, all, View());
        return;
      }
      var length := LE(Count(arr), 4);
      ret := Put(length);
      ghost var r1, s1 := ret, View();
      if arr.NoArr? {
        DirectEffect(Reliable(), s0, length, ret, View());
        return;
      }
      if ret.Good? {
        ret := EncodeWrapped(T, ty, arr.elems);
      }
      HeadSequel(Reliable(), s0, length, r1, s1, 0, ok, EncWrapped(T, ty, arr.elems), ret, View());
    }

    method EncodeWrapped(T: Table, t: nat, es: seq<Value>) returns (ret: Status)
      requires Valid() && t < |T| && ElemsTyped(T, t, es)
      modifies this, buf
      ensures Did(0, WrappedOk(T, t, es, old(depth)), EncWrapped(T, t, es), ret)
      decreases es
    {
      hide Flat, Effect, Enc, EncExtHead, Size, ContentOk;
      ghost var a := View();
      ghost var ok, e := true, [];
      var i := 0;
      ret := Good;
      NoEffect(Reliable(), a);
      assert es[0..] == es;
      while i < |es| && ret.Good?
        invariant i <= |es| && ElemsTyped(T, t, es[i..])
        invariant Valid() && Kept() && depth == old(depth)
        invariant Effect(Reliable(), 0, a, ok, e, ret, View())
        invariant e + EncWrapped(T, t, es[i..]) == EncWrapped(T, t, es)
        invariant (ok && WrappedOk(T, t, es[i..], depth)) == WrappedOk(T, t, es, depth)
      {
        ghost var b := View();
        ghost var ok1, e1 := ContentOk(T, t, es[i], depth), EncExtHead(T, t, Size(T, t, es[i])) + Enc(T, t, es[i]);
        assert es[i..][1..] == es[i + 1..];
        ret := WithExchange(T, InExt(t, es[i]));
        EffectThen(Reliable(), 0, a, ok, e, b, ok1, e1, ret, View());
        Assoc(e, e1, EncWrapped(T, t, es[i + 1..]));
        ok, e := ok && ok1, e + e1;
        i := i + 1;
      }
      if ret.Good? {
        assert es[i..] == [] && e + [] == e;
      } else {
        EffectStop(Reliable(), 0, a, ok, e, ret, View(), WrappedOk(T, t, es[i..], depth), EncWrapped(T, t, es[i..]));
      }
    }

    /** A number that is written only when present, with exchange if need be. */
    method EncodeOpt(x: Option<nat>, w: nat) returns (ret: Status)
      requires Valid() && w <= 8
      modifies this, buf
      ensures Did(0, true, OptLE(x, w), ret)
    {
      hide Flat, Effect, LE;
      NoEffect(Reliable(), View());
      ret := Good;
      if x.Some? {
        ret := PutWithExchange(LE(x.value, w));
      }
    }

    /** Two such numbers, the second attempted even when the first failed. */
    method EncodeOpts(x: Option<nat>, w: nat, y: Option<nat>, v: nat) returns (ret: Status)
      requires Valid() && w <= 8 && v <= 8
      modifies this, buf
      ensures Did(0, true, OptLE(x, w) + OptLE(y, v), ret)
    {
      hide Flat, Effect, OptLE, Or;
      ghost var s0 := View();
      ret := EncodeOpt(x, w);
      ghost var r1, s1 := ret, View();
      var more := EncodeOpt(y, v);
      ret := Or(ret, more);
      EffectAlso(Reliable(), s0, true, OptLE(x, w), r1, s1, true, OptLE(y, v), more, View());
    }

    /** Status, timestamps and picoseconds: each is attempted even when an earlier one failed. */
    method EncodeStamps(dv: DataValue) returns (ret: Status)
      requires Valid()
      modifies this, buf
      ensures Did(0, true, EncStamps(dv), ret)
    {
      hide Flat, Effect, OptLE, Or;
      ghost var a, b := OptLE(dv.status, 4) + OptLE(dv.sourceTime, 8), OptLE(dv.sourcePico, 2) + OptLE(dv.serverTime, 8);
      ghost var s0 := View();
      ret := EncodeOpts(dv.status, 4, dv.sourceTime, 8);
      ghost var r1, s1 := ret, View();
      var more := EncodeOpts(dv.sourcePico, 2, dv.serverTime, 8);
      ret := Or(ret, more);
      EffectAlso(Reliable(), s0, true, a, r1, s1, true, b, more, View());
      ghost var r2, s2 := ret, View();
      more := EncodeOpt(dv.serverPico, 2);
      ret := Or(ret, more);
      EffectAlso(Reliable(), s0, true, a + b, r2, s2, true, OptLE(dv.serverPico, 2), more, View());
      Assoc(a, OptLE(dv.sourcePico, 2), OptLE(dv.serverTime, 8));
    }

    method EncodeData(T: Table, dv: DataValue) returns (ret: Status)
      requires Valid() && VariantTyped(T, dv.value)
      modifies this, buf
      ensures Did(LONGEST_HEAD, dv.hasValue ==> VariantOk(T, dv.value, old(depth)), EncData(T, dv), ret)
      decreases dv
    {
      hide Flat, Effect, Direct, DataByte, EncVariant, VariantOk, Wire.EncStamps;
      ghost var s0 := View();
      var first := [DataByte(dv)];
      ghost var ok := dv.hasValue ==> VariantOk(T, dv.value, old(depth));
      ghost var x := if dv.hasValue then EncVariant(T, dv.value) else [];
      ret := Put(first);
      ghost var r1, s1 := ret, View();
      if ret.Good? {
        NoEffect(Reliable(), s1);
        Widen(Reliable(), 0, 5, s1, true, [], Good, s1);
        if dv.hasValue {
          ret := EncodeVariant(T, dv.value);
        }
      }
      HeadSequel(Reliable(), s0, first, r1, s1, 5, ok, x, ret, View());
      Widen(Reliable(), 6, LONGEST_HEAD, s0, ok, first + x, ret, View());
      ghost var r2, s2 := ret, View();
      if ret.Good? {
        ret := EncodeStamps(dv);
      }
      Sequel(Reliable(), LONGEST_HEAD, s0, ok, first + x, r2, s2, true, Wire.EncStamps(dv), ret, View());
    }

    // ----- structures and unions -----

    method EncodeStruct(T: Table, ms: seq<Member>, fs: seq<Field>) returns (ret: Status)
      requires Valid() && FieldsTyped(T, ms, fs)
      modifies this, buf
      ensures Did(0, old(depth) <= MAX_RECURSION && FieldsOk(T, ms, fs, old(depth) + 1), EncFields(T, ms, fs), ret)
      decreases fs
    {
      hide Flat, Effect, EncField, FieldOk, FieldTyped, FieldsTyped, EncFields, FieldsOk;
      ghost var a := View();
      if depth > MAX_RECURSION {
        ret := Bad;
        CannotEncode(Reliable(), 0, a, EncFields(T, ms, fs), View());
        return;
      }
      depth := depth + 1;
      ghost var ok, e := true, [];
      var i := 0;
      ret := Good;
      NoEffect(Reliable(), a);
      SameLength(T, ms, fs);
      assert ms[0..] == ms && fs[0..] == fs;
      while i < |ms| && ret.Good?
        invariant i <= |ms| == |fs| && FieldsTyped(T, ms[i..], fs[i..])
        invariant Valid() && Kept() && depth == old(depth) + 1
        invariant Effect(Reliable(), 0, a, ok, e, ret, View())
        invariant e + EncFields(T, ms[i..], fs[i..]) == EncFields(T, ms, fs)
        invariant (ok && FieldsOk(T, ms[i..], fs[i..], depth)) == FieldsOk(T, ms, fs, depth)
      {
        ghost var b := View();
        FieldsStep(T, ms, fs, i, depth);
        ghost var ok1, e1 := FieldOk(T, ms[i], fs[i], depth), EncField(T, ms[i], fs[i]);
        ret := EncodeMember(T, ms[i], fs[i]);
        EffectThen(Reliable(), 0, a, ok, e, b, ok1, e1, ret, View());
        Assoc(e, e1, EncFields(T, ms[i + 1..], fs[i + 1..]));
        ok, e := ok && ok1, e + e1;
        i := i + 1;
      }
      if ret.Good? {
        NoFields(T, old(depth) + 1);
        assert ms[i..] == [] && fs[i..] == [] && e + [] == e;
      } else {
        EffectStop(Reliable(), 0, a, ok, e, ret, View(), FieldsOk(T, ms[i..], fs[i..], depth), EncFields(T, ms[i..], fs[i..]));
      }
      depth := depth - 1;
    }

    method EncodeMember(T: Table, m: Member, f: Field) returns (ret: Status)
      requires Valid() && FieldTyped(T, m, f)
      modifies this, buf
      ensures Did(0, FieldOk(T, m, f, old(depth)), EncField(T, m, f), ret)
      decreases f
    {
      hide Flat, Effect, Enc, Encodable, EncArr, ArrOk;
      if m.isArray {
        ret := EncodeArr(T, m.ty, f.arr);
      } else {
        ret := WithExchange(T, Plain(m.ty, f.v));
      }
    }

    method EncodeUnion(T: Table, t: nat, sel: u32, arm: Option<Value>) returns (ret: Status)
      requires Valid() && t < |T| && HasType(T, t, UnionV(sel, arm))
      modifies this, buf
      ensures Did(LONGEST_HEAD, Encodable(T, t, UnionV(sel, arm), old(depth)), Enc(T, t, UnionV(sel, arm)), ret)
      decreases arm
    {
      hide Flat, Effect, Direct, LE, ExtTyped, VariantTyped, FieldsTyped, EncStr, EncGuid, EncNodeMasked, EncExpanded, EncLocalized, EncExt,
           EncData, EncVariant, EncDiag, EncFields, ExtOk, VariantOk, FieldsOk, DiagOk, NodeOk, StrOk;
      ghost var s0 := View();
      ghost var v := UnionV(sel, arm);
      if depth > MAX_RECURSION {
        ret := Bad;
        CannotEncode(Reliable(), LONGEST_HEAD, s0, Enc(T, t, v), View());
        return;
      }
      depth := depth + 1;
      ret := Put(LE(sel, 4));
      ghost var r1, s1 := ret, View();
      ghost var ok := arm.Some? ==> Encodable(T, T[t].members[sel - 1].ty, arm.value, depth);
      ghost var e := if arm.Some? then Enc(T, T[t].members[sel - 1].ty, arm.value) else [];
      if ret.Good? {
        NoEffect(Reliable(), s1);
        if sel != 0 {
          ret := WithExchange(T, Plain(T[t].members[sel - 1].ty, arm.value));
        }
      }
      HeadSequel(Reliable(), s0, LE(sel, 4), r1, s1, 0, ok, e, ret, View());
      Widen(Reliable(), 4, LONGEST_HEAD, s0, ok, LE(sel, 4) + e, ret, View());
      depth := depth - 1;
    }

    // ----- jump table -----

    method Jump(T: Table, j: Job) returns (ret: Status)
      requires Valid() && JobTyped(T, j)
      modifies this, buf
      ensures Did(LONGEST_HEAD, JobOk(T, j, old(depth)), JobBytes(T, j), ret)
      decreases j.v, if j.InExt? then 7 else 2
    {
      if j.InExt? {
        ret := EncodeDecoded(T, j.t, j.v);
      } else {
        ret := EncodeValue(T, j.t, j.v);
      }
    }

    method EncodeValue(T: Table, t: nat, v: Value) returns (ret: Status)
      requires Valid() && t < |T| && HasType(T, t, v)
      modifies this, buf
      ensures Did(LONGEST_HEAD, Encodable(T, t, v, old(depth)), Enc(T, t, v), ret)
      decreases v, 1
    {
      hide Flat, Effect, Direct, LE, EncStr, EncGuid, EncNodeMasked, EncExpanded, EncLocalized, EncExt, EncData, EncVariant,
           EncDiag, EncFields, ExtOk, VariantOk, FieldsOk, DiagOk, NodeOk, StrOk, ExtTyped, VariantTyped, FieldsTyped;
      ghost var s0 := View();
      match v
      case Fixed(n) =>
        ret := Put(LE(n, Width(T[t].kind)));
        ShortNode(s0, LE(n, Width(T[t].kind)), ret);
      case Text(x) =>
        ret := EncodeStr(x);
        Widen(Reliable(), 0, LONGEST_HEAD, s0, StrOk(x), EncStr(x), ret, View());
      case GuidV(g) =>
        ret := EncodeGuid(g);
        ShortNode(s0, EncGuid(g), ret);
      case NodeV(id) => ret := EncodeNode(id, false, false);
      case ExpandedV(id, uri, server) => ret := EncodeExpanded(id, uri, server);
      case NameV(ns, name) => ret := EncodeName(ns, name);
      case LocalizedV(locale, local) => ret := EncodeLocalized(locale, local);
      case ExtV(x) => ret := EncodeExt(T, x);
      case DataV(dv) => ret := EncodeData(T, dv);
      case VariantV(x) =>
        ret := EncodeVariant(T, x);
        Widen(Reliable(), 5, LONGEST_HEAD, s0, VariantOk(T, x, depth), EncVariant(T, x), ret, View());
      case DiagV(g) => ret := EncodeDiag(g);
      case DecimalV =>
        ret := Bad;
        CannotEncode(Reliable(), LONGEST_HEAD, s0, [], View());
      case StructV(fs) =>
        ret := EncodeStruct(T, T[t].members, fs);
        Widen(Reliable(), 0, LONGEST_HEAD, s0, Encodable(T, t, v, depth), EncFields(T, T[t].members, fs), ret, View());
      case UnionV(sel, arm) => ret := EncodeUnion(T, t, sel, arm);
    }

    // ----- entry point -----

    /** Encodes one value from nesting depth zero; a retry is never asked of the caller. */
    method EncodeBinary(T: Table, t: nat, v: Value) returns (ret: Status)
      requires Valid() && depth == 0 && t < |T| && HasType(T, t, v)
      modifies this, buf
      ensures Did(0, Encodable(T, t, v, 0), Enc(T, t, v), ret)
    {
      hide Flat, Effect, Enc, Encodable, HasType;
      ret := WithExchange(T, Plain(t, v));
    }
  }

  /** Chunk transparency: whatever buffers the callback supplies, as long as each holds the longest
      unsplittable prefix, the chunks handed over and the last partial buffer together are the
      encoding; encodable values always succeed when every exchange does, and only they do. */
  method EncodeInChunks(T: Table, t: nat, v: Value, size: nat, callback: Option<nat -> Reply>)
    returns (ret: Status, chunks: seq<bytes>, last: bytes)
    requires t < |T| && HasType(T, t, v)
    requires callback.Some? ==>
      forall k: nat :: callback.value(k).NewBuffer? ==> callback.value(k).size >= LONGEST_HEAD
    ensures !ret.LimitsExceeded?
    ensures ret.Good? ==> Encodable(T, t, v, 0) && Flat(chunks) + last == Enc(T, t, v)
    ensures Encodable(T, t, v, 0) && callback.Some? && (forall k: nat :: callback.value(k).NewBuffer?) ==> ret.Good?
    ensures Encodable(T, t, v, 0) && |Enc(T, t, v)| <= size ==> ret.Good? && last == Enc(T, t, v)
  {
    hide Flat, Enc, Encodable, HasType;
    var ctx := new Context(size, callback);
    ghost var a := ctx.View();
    ret := ctx.EncodeBinary(T, t, v);
    chunks, last := ctx.chunks, ctx.buf[..ctx.pos];
    assert a.Out() == [] && [] + Enc(T, t, v) == Enc(T, t, v);
  }

  /** Nineteen octets are needed: a Guid NodeId is written in one piece, so no shorter buffer ever takes it. */
  lemma NineteenNeeded(id: NodeId, a: Snap, ret: Status, b: Snap)
    requires id.id.GuidId? && Direct(a, EncNode(id), ret, b) && a.Room() < LONGEST_HEAD
    ensures ret.LimitsExceeded?
  {
    hide LE, Mark;
  }

  lemma FieldsStep(T: Table, ms: seq<Member>, fs: seq<Field>, i: nat, d: nat)
    requires i < |ms| == |fs| && FieldsTyped(T, ms[i..], fs[i..])
    ensures FieldTyped(T, ms[i], fs[i]) && FieldsTyped(T, ms[i + 1..], fs[i + 1..])
    ensures EncFields(T, ms[i..], fs[i..]) == EncField(T, ms[i], fs[i]) + EncFields(T, ms[i + 1..], fs[i + 1..])
    ensures FieldsOk(T, ms[i..], fs[i..], d) == (FieldOk(T, ms[i], fs[i], d) && FieldsOk(T, ms[i + 1..], fs[i + 1..], d))
  {
    hide EncField, FieldOk, FieldTyped;
    assert ms[i..][1..] == ms[i + 1..] && fs[i..][1..] == fs[i + 1..];
  }

  lemma NoFields(T: Table, d: nat)
    ensures FieldsTyped(T, [], []) && EncFields(T, [], []) == [] && FieldsOk(T, [], [], d)
  {
  }

  lemma SameLength(T: Table, ms: seq<Member>, fs: seq<Field>)
    requires FieldsTyped(T, ms, fs)
    ensures |ms| == |fs|
  {
    hide FieldTyped;
  }

  lemma OutSplit(m: Snap, rest: bytes, n: nat)
    requires n <= |rest|
    ensures m.Plus(rest[..n]).Out() + rest[n..] == m.Out() + rest
  {
    assert m.sent + (m.cur + rest[..n]) + rest[n..] == m.sent + m.cur + rest;
  }

  lemma DiagHeadLength(g: Diag)
    ensures |[DiagByte(g)] + DiagNumbers(g)| <= 17
  {
    hide LE, Mark;
  }

  lemma NotNumeric(T: Table, ty: nat, v: Value, d: nat)
    requires ty < |T| && HasType(T, ty, v) && !T[ty].typeId.id.Numeric?
    ensures !ContentOk(T, ty, v, d)
  {
  }

  lemma BinaryIdLength(T: Table, ty: nat)
    requires ty < |T|
    ensures |EncNode(BinaryId(T[ty]))| <= 7
  {
    hide LE, Mark;
  }

  lemma EmptyByte(T: Table)
    ensures VariantByte(T, Empty) == 0
  {
  }

  lemma NoDims()
    ensures EncDims([]) == []
  {
  }

  lemma {:induction false} FlatOk(T: Table, t: nat, es: seq<Value>, d: nat)
    requires t < |T| && ElemsTyped(T, t, es) && T[t].overlayable
    ensures ElemsOk(T, t, es, d)
    decreases es
  {
    assert TypeOk(|T|, T[t]);
    if es != [] {
      FlatOk(T, t, es[1..], d);
    }
  }
}
