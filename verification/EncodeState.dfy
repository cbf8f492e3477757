/** The observable state of a chunked encoder, and what an encoding step may do to it. */
module EncodeState {
  import opened Bytes

  /** Good; the buffer is too small (retry in a fresh one); any other failure. */
  datatype Status = Good | LimitsExceeded | Bad

  /** The `|` of two status codes: a failure stays a failure. */
  function Or(a: Status, b: Status): Status {
    if a.Good? then b else if b.Good? || a == b then a else Bad
  }

  /** Octets already handed over, octets in the current buffer, and the rest of that buffer. */
  datatype Snap = Snap(sent: bytes, cur: bytes, tail: bytes) {
    function Out(): bytes { sent + cur }
    function Room(): nat { |tail| }

    /** e written over the start of the rest. */
    function Plus(e: bytes): Snap {
      Snap(sent, cur + e, if |e| <= |tail| then tail[|e|..] else [])
    }
  }

  lemma Assoc(a: bytes, b: bytes, c: bytes)
    ensures (a + b) + c == a + (b + c)
  {
  }

  lemma PlusPlus(a: Snap, e1: bytes, e2: bytes)
    requires |e1| + |e2| <= a.Room()
    ensures a.Plus(e1).Plus(e2) == a.Plus(e1 + e2)
  {
    assert a.cur + (e1 + e2) == a.cur + e1 + e2;
  }

  lemma OutPlus(a: Snap, e: bytes)
    ensures a.Plus(e).Out() == a.Out() + e
  {
    assert a.sent + (a.cur + e) == a.sent + a.cur + e;
  }

  /** The buffer was not exchanged and nothing before its old position changed. */
  predicate SameBuffer(a: Snap, b: Snap) {
    b.sent == a.sent && |b.cur| + |b.tail| == |a.cur| + |a.tail| && a.cur <= b.cur
  }

  /** A step without buffer exchange: writes e, or finds it does not fit. */
  predicate Direct(a: Snap, e: bytes, ret: Status, b: Snap) {
    && !ret.Bad?
    && (ret.Good? ==> |e| <= a.Room() && b == a.Plus(e))
    && (ret.LimitsExceeded? ==> SameBuffer(a, b) && a.Room() < |e|)
  }

  /** A step that may exchange the buffer. `ok`: the value can be encoded, as e. `reliable`: every exchange
      succeeds. `h`: the length of the prefix that must fit into one buffer.
      Success means exactly e was produced; a retry is asked for only before any exchange and only
      when the prefix did not fit; nothing else fails if exchanges succeed; and what fits into the
      current buffer is written there without an exchange. */
  predicate Effect(reliable: bool, h: nat, a: Snap, ok: bool, e: bytes, ret: Status, b: Snap) {
    && (ret.Good? ==> ok && b.Out() == a.Out() + e)
    && (ret.LimitsExceeded? ==> SameBuffer(a, b) && a.Room() < h)
    && (ok && reliable ==> !ret.Bad?)
    && (ok && |e| <= a.Room() ==> ret.Good? && b == a.Plus(e))
  }

  lemma DirectThen(a: Snap, e1: bytes, r1: Status, b: Snap, e2: bytes, r2: Status, c: Snap)
    requires Direct(a, e1, r1, b) && Direct(b, e2, r2, c)
    ensures Direct(a, e1 + e2, Or(r1, r2), c)
  {
    if r1.Good? && r2.Good? {
      PlusPlus(a, e1, e2);
    }
  }

  lemma DirectEffect(reliable: bool, a: Snap, e: bytes, ret: Status, b: Snap)
    requires Direct(a, e, ret, b)
    ensures Effect(reliable, |e|, a, true, e, ret, b)
  {
    OutPlus(a, e);
  }

  lemma Widen(reliable: bool, h: nat, k: nat, a: Snap, ok: bool, e: bytes, ret: Status, b: Snap)
    requires Effect(reliable, h, a, ok, e, ret, b) && h <= k
    ensures Effect(reliable, k, a, ok, e, ret, b)
  {
  }

  /** A prefix written directly, then a step. */
  lemma HeadThen(reliable: bool, a: Snap, e1: bytes, h: nat, ok: bool, e2: bytes, ret: Status, c: Snap)
    requires |e1| <= a.Room() && Effect(reliable, h, a.Plus(e1), ok, e2, ret, c)
    ensures Effect(reliable, |e1| + h, a, ok, e1 + e2, ret, c)
  {
    if |e1| + |e2| <= a.Room() {
      PlusPlus(a, e1, e2);
    }
    OutPlus(a, e1);
    assert a.Out() + (e1 + e2) == a.Out() + e1 + e2;
  }

  /** A step, then a step that never asks for a retry. */
  lemma EffectThen(reliable: bool, h: nat, a: Snap, ok1: bool, e1: bytes, b: Snap, ok2: bool, e2: bytes, ret: Status, c: Snap)
    requires Effect(reliable, h, a, ok1, e1, Good, b) && Effect(reliable, 0, b, ok2, e2, ret, c)
    ensures Effect(reliable, h, a, ok1 && ok2, e1 + e2, ret, c)
  {
    if |e1| + |e2| <= a.Room() {
      PlusPlus(a, e1, e2);
    }
    assert a.Out() + (e1 + e2) == a.Out() + e1 + e2;
  }

  /** A failed step decides the result, whatever was to follow. */
  lemma EffectStop(reliable: bool, h: nat, a: Snap, ok1: bool, e1: bytes, ret: Status, b: Snap, ok2: bool, e2: bytes)
    requires Effect(reliable, h, a, ok1, e1, ret, b) && !ret.Good?
    ensures Effect(reliable, h, a, ok1 && ok2, e1 + e2, ret, b)
  {
  }

  /** A step, and on its success a step that never asks for a retry. */
  lemma Sequel(reliable: bool, h: nat, a: Snap, ok1: bool, e1: bytes, r1: Status, b: Snap,
               ok2: bool, e2: bytes, r2: Status, c: Snap)
    requires Effect(reliable, h, a, ok1, e1, r1, b)
    requires if r1.Good? then Effect(reliable, 0, b, ok2, e2, r2, c) else r2 == r1 && c == b
    ensures Effect(reliable, h, a, ok1 && ok2, e1 + e2, r2, c)
  {
    hide Effect;
    if r1.Good? {
      EffectThen(reliable, h, a, ok1, e1, b, ok2, e2, r2, c);
    } else {
      EffectStop(reliable, h, a, ok1, e1, r1, b, ok2, e2);
    }
  }

  /** A prefix that is written directly, and on its success a step. */
  lemma HeadSequel(reliable: bool, a: Snap, e1: bytes, r1: Status, b: Snap, h: nat, ok: bool, e2: bytes, r2: Status, c: Snap)
    requires Direct(a, e1, r1, b)
    requires if r1.Good? then Effect(reliable, h, b, ok, e2, r2, c) else r2 == r1 && c == b
    ensures Effect(reliable, |e1| + h, a, ok, e1 + e2, r2, c)
  {
    if r1.Good? {
      HeadThen(reliable, a, e1, h, ok, e2, r2, c);
    }
  }

  /** Two steps that never ask for a retry, the second made even when the first failed. */
  lemma EffectAlso(reliable: bool, a: Snap, ok1: bool, e1: bytes, r1: Status, b: Snap, ok2: bool, e2: bytes, r2: Status, c: Snap)
    requires Effect(reliable, 0, a, ok1, e1, r1, b) && Effect(reliable, 0, b, ok2, e2, r2, c)
    ensures Effect(reliable, 0, a, ok1 && ok2, e1 + e2, Or(r1, r2), c)
  {
    if |e1| + |e2| <= a.Room() {
      PlusPlus(a, e1, e2);
    }
    assert a.Out() + (e1 + e2) == a.Out() + e1 + e2;
  }

  lemma NoEffect(reliable: bool, a: Snap)
    ensures Effect(reliable, 0, a, true, [], Good, a)
  {
    assert a.cur + [] == a.cur && a.Out() + [] == a.Out();
  }

  lemma CannotEncode(reliable: bool, h: nat, a: Snap, e: bytes, b: Snap)
    ensures Effect(reliable, h, a, false, e, Bad, b)
  {
  }

  /** After a roll-back and an exchange the second attempt has the whole buffer c. */
  lemma Retried(reliable: bool, h: nat, a: Snap, ok: bool, e: bytes, b: Snap, c: Snap, ret: Status, z: Snap)
    requires Effect(reliable, h, a, ok, e, LimitsExceeded, b) && Effect(reliable, h, c, ok, e, ret, z)
    requires c.sent == a.Out() && c.cur == [] && c.Room() >= h
    ensures Effect(reliable, 0, a, ok, e, ret, z)
  {
    assert c.Out() == a.Out();
  }

  // ----- chunks -----

  function Flat(chunks: seq<bytes>): bytes {
    if chunks == [] then [] else Flat(chunks[..|chunks| - 1]) + chunks[|chunks| - 1]
  }

  lemma FlatAppend(chunks: seq<bytes>, c: bytes)
    ensures Flat(chunks + [c]) == Flat(chunks) + c
  {
    assert (chunks + [c])[..|chunks|] == chunks;
  }
}
