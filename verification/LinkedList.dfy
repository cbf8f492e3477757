/** Lists: an entry is removed, or another one inserted before it, without knowing the head. */
module LinkedList {
  import opened Links

  /** Each link points to its successor and back; the last one's `next` is null. The head's `prev` is not used. */
  ghost predicate Chain(n: seq<Link>)
    reads n
  {
    && n != [] && Distinct(n)
    && (forall i, j | 0 <= i && j == i + 1 && j < |n| :: n[i].next == n[j] && n[j].prev == n[i])
    && n[|n| - 1].next == null
  }

  ghost predicate List(head: Link, q: seq<Link>)
    reads head, q
  {
    Chain([head] + q)
  }

  method Init(head: Link)
    modifies head
    ensures List(head, [])
  {
    head.next := null;
  }

  method InsertHead(head: Link, elm: Link, ghost q: seq<Link>)
    requires List(head, q) && elm !in [head] + q
    modifies head, elm, q
    ensures List(head, [elm] + q)
  {
    ghost var n := [head] + q;
    assert q != [] ==> n[0].next == n[1];
    elm.next := head.next;
    if elm.next != null {
      head.next.prev := elm;
    }
    head.next := elm;
    elm.prev := head;
    assert Inserted(n, 1, elm) == [head] + ([elm] + q);
  }

  method InsertAfter(at: Link, elm: Link, ghost head: Link, ghost q: seq<Link>)
    requires List(head, q) && elm !in [head] + q && at in q
    modifies head, elm, q
    ensures List(head, After(q, at, elm))
  {
    ghost var n, k := [head] + q, Index(q, at) + 1;
    assert n[k] == at && (k + 1 < |n| ==> n[k].next == n[k + 1]);
    elm.next := at.next;
    if elm.next != null {
      at.next.prev := elm;
    }
    at.next := elm;
    elm.prev := at;
    assert Inserted(n, k + 1, elm) == [head] + After(q, at, elm);
  }

  method InsertBefore(at: Link, elm: Link, ghost head: Link, ghost q: seq<Link>)
    requires List(head, q) && elm !in [head] + q && at in q
    modifies head, elm, q
    ensures List(head, Before(q, at, elm))
  {
    hide Inserted;
    ghost var n, k := [head] + q, Index(q, at) + 1;
    ghost var p := n[k - 1];
    assert n[k] == at && at.prev == p;
    DistinctInserted(n, k, elm);
    elm.prev := at.prev;
    elm.next := at;
    at.prev.next := elm;
    at.prev := elm;
    ghost var r := Inserted(n, k, elm);
    forall i, j | 0 <= i && j == i + 1 && j < |r| ensures r[i].next == r[j] && r[j].prev == r[i] {
      if j < k {
        assert r[i] == n[i] && r[j] == n[j];
      } else if i > k {
        assert r[i] == n[i - 1] && r[j] == n[j - 1];
      }
    }
    InsertedBefore(head, q, at, elm);
  }

  /** The removed entry keeps its links. */
  method Remove(elm: Link, ghost head: Link, ghost q: seq<Link>)
    requires List(head, q) && elm in q
    modifies head, q
    ensures List(head, Without(q, elm)) && elm.next == old(elm.next)
  {
    hide Removed;
    ghost var n, k := [head] + q, Index(q, elm) + 1;
    ghost var p := n[k - 1];
    assert n[k] == elm && elm.prev == p && (k + 1 < |n| ==> n[k].next == n[k + 1]);
    DistinctRemoved(n, k);
    if elm.next != null {
      elm.next.prev := elm.prev;
    }
    elm.prev.next := elm.next;
    ghost var r := Removed(n, k);
    forall i, j | 0 <= i && j == i + 1 && j < |r| ensures r[i].next == r[j] && r[j].prev == r[i] {
      if j < k {
        assert r[i] == n[i] && r[j] == n[j];
      } else if i >= k {
        assert r[i] == n[i + 1] && r[j] == n[j + 1];
      }
    }
    RemovedWithout(head, q, elm);
  }

  method Replace(elm: Link, elm2: Link, ghost head: Link, ghost q: seq<Link>)
    requires List(head, q) && elm in q && elm2 !in [head] + q
    modifies head, elm2, q
    ensures List(head, Swapped(q, elm, elm2))
  {
    ghost var n, k := [head] + q, Index(q, elm) + 1;
    ghost var p := n[k - 1];
    assert n[k] == elm && elm.prev == p && (k + 1 < |n| ==> n[k].next == n[k + 1]);
    elm2.next := elm.next;
    if elm2.next != null {
      elm2.next.prev := elm2;
    }
    elm2.prev := elm.prev;
    elm2.prev.next := elm2;
    ghost var r := n[k := elm2];
    forall i, j | 0 <= i && j == i + 1 && j < |r| ensures r[i].next == r[j] && r[j].prev == r[i] {
      assert i != k && j != k ==> r[i] == n[i] && r[j] == n[j];
    }
    assert r == [head] + Swapped(q, elm, elm2);
  }

  // ----- runs of operations -----

  /** One operation as it runs; a list has no insertion at its end. */
  method Perform(head: Link, op: Op, ghost q: seq<Link>)
    requires List(head, q) && Allowed(head, q, op) && !op.ToTail?
    modifies head, op.x, q
    ensures List(head, Apply(head, q, op))
  {
    hide Chain, Before, After, Without, Swapped;
    match op
    case ToHead(x) => InsertHead(head, x, q);
    case PutAfter(at, x) => InsertAfter(at, x, head, q);
    case PutBefore(at, x) => InsertBefore(at, x, head, q);
    case Drop(x) => Remove(x, head, q);
    case Swap(y, x) => Replace(y, x, head, q);
  }

  /** Every run from any list ends in the list that the sequence operations give. */
  method Run(head: Link, ops: seq<Op>, ghost q0: seq<Link>, ghost all: set<Link>) returns (ghost q: seq<Link>)
    requires List(head, q0) && AllAllowed(head, q0, ops) && (forall op | op in ops :: !op.ToTail?)
    requires head in all && (forall x | x in q0 :: x in all) && (forall op | op in ops :: op.x in all)
    modifies all
    ensures List(head, q) && q == ApplyAll(head, q0, ops)
  {
    hide Chain, Apply, Allowed;
    q := q0;
    var i := 0;
    assert ops[0..] == ops;
    while i < |ops|
      invariant i <= |ops| && List(head, q) && AllAllowed(head, q, ops[i..]) && (forall x | x in q :: x in all)
      invariant ApplyAll(head, q, ops[i..]) == ApplyAll(head, q0, ops)
    {
      assert ops[i] in ops && ops[i..][0] == ops[i] && ops[i..][1..] == ops[i + 1..];
      StaysInside(head, q, ops[i], all);
      Perform(head, ops[i], q);
      q := Apply(head, q, ops[i]);
      i := i + 1;
    }
  }

  // ----- removal during a traversal -----

  /** The entries that are not chosen. */
  function Kept(q: seq<Link>, chosen: set<Link>): seq<Link> {
    if q == [] then [] else (if q[0] in chosen then [] else [q[0]]) + Kept(q[1..], chosen)
  }

  lemma {:induction false} KeptAre(q: seq<Link>, chosen: set<Link>, x: Link)
    ensures x in Kept(q, chosen) <==> x in q && x !in chosen
  {
    if q != [] {
      KeptAre(q[1..], chosen, x);
    }
  }

  lemma KeptNone(chosen: set<Link>)
    ensures Kept([], chosen) == []
  {
  }

  lemma KeptStep(kept: seq<Link>, rest: seq<Link>, chosen: set<Link>)
    requires rest != []
    ensures kept + Kept(rest, chosen) == (if rest[0] in chosen then kept else kept + [rest[0]]) + Kept(rest[1..], chosen)
  {
    var x, tail := rest[0], Kept(rest[1..], chosen);
    assert Kept(rest, chosen) == (if x in chosen then [] else [x]) + tail;
    hide Kept;
    if x in chosen {
      assert [] + tail == tail;
    } else {
      Grouped(kept, [x], tail);
    }
  }

  lemma Grouped(a: seq<Link>, b: seq<Link>, c: seq<Link>)
    ensures a + b + c == a + (b + c)
  {
  }

  /** The safe traversal: the successor is read before the entry is visited, so the visit may remove the entry.
      Removing any chosen entries on the way, every original entry is visited once, in order, and the others stay. */
  method RemoveChosen(head: Link, chosen: set<Link>, ghost q: seq<Link>) returns (visited: seq<Link>)
    requires List(head, q)
    modifies set x | x in [head] + q
    ensures visited == q && List(head, Kept(q, chosen))
  {
    hide Without, Chain, Distinct, Kept;
    KeptNone(chosen);
    visited := [];
    ghost var kept: seq<Link>, rest := [], q;
    assert [] + q == q;
    var x := First(head, q);
    while x != null
      invariant visited + rest == q && List(head, kept + rest)
      invariant kept + Kept(rest, chosen) == Kept(q, chosen)
      invariant x == if rest == [] then null else rest[0]
      invariant forall y | y in kept + rest :: y in q
      decreases |rest|
    {
      ghost var tail := rest[1..];
      KeptStep(kept, rest, chosen);
      assert kept + rest == kept + [x] + tail;
      NextOf(head, kept, x, tail);
      var next := x.next;
      visited := visited + [x];
      if x in chosen {
        ghost var now := kept + [x] + tail;
        assert forall y | y in now :: y in q;
        Remove(x, head, now);
        Around(kept, x, tail, x);
      } else {
        kept := kept + [x];
      }
      rest := tail;
      x := next;
    }
    assert visited + [] == visited && kept + [] == kept;
  }

  method First(head: Link, ghost q: seq<Link>) returns (x: Link?)
    requires List(head, q)
    ensures x == if q == [] then null else q[0]
  {
    ghost var n := [head] + q;
    assert |n| > 1 ==> n[0].next == n[1];
    x := head.next;
  }

  lemma NextOf(head: Link, a: seq<Link>, x: Link, b: seq<Link>)
    requires List(head, a + [x] + b)
    ensures x.next == if b == [] then null else b[0]
    ensures x !in a
  {
    var n := [head] + (a + [x] + b);
    assert n[|a| + 1] == x;
    assert b != [] ==> n[|a| + 2] == b[0];
    forall y | y in a ensures y != x {
      var j :| 0 <= j < |a| && a[j] == y;
      assert n[j + 1] == y;
    }
  }
}
