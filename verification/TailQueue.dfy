/** Tail queues: every operation is the corresponding one on a sequence, and the layout trick walks back. */
module TailQueue {
  import opened Links

  /** Links n[0], the head, and n[1], ...: each points to its successor and back, the last one's `next` is null,
      and the head's `prev` is the last one. */
  ghost predicate Chain(n: seq<Link>)
    reads n
  {
    && n != [] && Distinct(n)
    && (forall i, j | 0 <= i && j == i + 1 && j < |n| :: n[i].next == n[j] && n[j].prev == n[i])
    && n[|n| - 1].next == null && n[0].prev == n[|n| - 1]
  }

  ghost predicate Queue(head: Link, q: seq<Link>)
    reads head, q
  {
    Chain([head] + q)
  }

  method Init(head: Link)
    modifies head
    ensures Queue(head, [])
  {
    head.next := null;
    head.prev := head;
  }

  method InsertHead(head: Link, elm: Link, ghost q: seq<Link>)
    requires Queue(head, q) && elm !in [head] + q
    modifies head, elm, q
    ensures Queue(head, [elm] + q)
  {
    ghost var n := [head] + q;
    assert q != [] ==> n[0].next == n[1];
    elm.next := head.next;
    if elm.next != null {
      head.next.prev := elm;
    } else {
      head.prev := elm;
    }
    head.next := elm;
    elm.prev := head;
    assert Inserted(n, 1, elm) == [head] + ([elm] + q);
  }

  method InsertTail(head: Link, elm: Link, ghost q: seq<Link>)
    requires Queue(head, q) && elm !in [head] + q
    modifies head, elm, q
    ensures Queue(head, q + [elm])
  {
    ghost var n := [head] + q;
    elm.next := null;
    elm.prev := head.prev;
    head.prev.next := elm;
    head.prev := elm;
    assert Inserted(n, |n|, elm) == [head] + (q + [elm]);
  }

  method InsertAfter(head: Link, at: Link, elm: Link, ghost q: seq<Link>)
    requires Queue(head, q) && elm !in [head] + q && at in q
    modifies head, elm, q
    ensures Queue(head, After(q, at, elm))
  {
    ghost var n, k := [head] + q, Index(q, at) + 1;
    assert n[k] == at && (k + 1 < |n| ==> n[k].next == n[k + 1]);
    elm.next := at.next;
    if elm.next != null {
      elm.next.prev := elm;
    } else {
      head.prev := elm;
    }
    at.next := elm;
    elm.prev := at;
    assert Inserted(n, k + 1, elm) == [head] + After(q, at, elm);
  }

  method InsertBefore(ghost head: Link, at: Link, elm: Link, ghost q: seq<Link>)
    requires Queue(head, q) && elm !in [head] + q && at in q
    modifies head, elm, q
    ensures Queue(head, Before(q, at, elm))
  {
    hide Inserted;
    ghost var n, k := [head] + q, Index(q, at) + 1;
    ghost var p := n[k - 1];
    assert n[k] == at && at.prev == p;
    DistinctInserted(n, k, elm);
    elm.prev := at.prev;
    elm.next := at;
    at.prev.next := elm;
    at.prev := elm;
    ghost var r := Inserted(n, k, elm);
    forall i, j | 0 <= i && j == i + 1 && j < |r| ensures r[i].next == r[j] && r[j].prev == r[i] {
      if j < k {
        assert r[i] == n[i] && r[j] == n[j];
      } else if i > k {
        assert r[i] == n[i - 1] && r[j] == n[j - 1];
      }
    }
    InsertedBefore(head, q, at, elm);
  }

  method Remove(head: Link, elm: Link, ghost q: seq<Link>)
    requires Queue(head, q) && elm in q
    modifies head, q
    ensures Queue(head, Without(q, elm))
  {
    hide Removed;
    ghost var n, k := [head] + q, Index(q, elm) + 1;
    ghost var p := n[k - 1];
    assert n[k] == elm && elm.prev == p && (k + 1 < |n| ==> n[k].next == n[k + 1]);
    DistinctRemoved(n, k);
    if elm.next != null {
      elm.next.prev := elm.prev;
    } else {
      head.prev := elm.prev;
    }
    elm.prev.next := elm.next;
    ghost var r := Removed(n, k);
    forall i, j | 0 <= i && j == i + 1 && j < |r| ensures r[i].next == r[j] && r[j].prev == r[i] {
      if j < k {
        assert r[i] == n[i] && r[j] == n[j];
      } else if i >= k {
        assert r[i] == n[i + 1] && r[j] == n[j + 1];
      }
    }
    RemovedWithout(head, q, elm);
  }

  method Replace(head: Link, elm: Link, elm2: Link, ghost q: seq<Link>)
    requires Queue(head, q) && elm in q && elm2 !in [head] + q
    modifies head, elm2, q
    ensures Queue(head, Swapped(q, elm, elm2))
  {
    ghost var n, k := [head] + q, Index(q, elm) + 1;
    ghost var p := n[k - 1];
    assert n[k] == elm && elm.prev == p && (k + 1 < |n| ==> n[k].next == n[k + 1]);
    elm2.next := elm.next;
    if elm2.next != null {
      elm2.next.prev := elm2;
    } else {
      head.prev := elm2;
    }
    elm2.prev := elm.prev;
    elm2.prev.next := elm2;
    ghost var r := n[k := elm2];
    forall i, j | 0 <= i && j == i + 1 && j < |r| ensures r[i].next == r[j] && r[j].prev == r[i] {
      assert i != k && j != k ==> r[i] == n[i] && r[j] == n[j];
    }
    assert r == [head] + Swapped(q, elm, elm2);
  }

  // ----- traversals -----

  /** The last link is read as a head: its `prev` is the link before it, whose `next` is the last entry. */
  method Last(head: Link, ghost q: seq<Link>) returns (x: Link?)
    requires Queue(head, q)
    ensures x == if q == [] then null else q[|q| - 1]
  {
    ghost var n := [head] + q;
    assert |n| > 1 ==> n[|n| - 1].prev == n[|n| - 2] && n[|n| - 2].next == n[|n| - 1];
    x := head.prev.prev.next;
  }

  method Prev(elm: Link, ghost head: Link, ghost q: seq<Link>) returns (x: Link?)
    requires Queue(head, q) && elm in q
    ensures x == if Index(q, elm) == 0 then null else q[Index(q, elm) - 1]
  {
    ghost var n, k := [head] + q, Index(q, elm) + 1;
    assert n[k] == elm && n[k].prev == n[k - 1];
    assert k > 1 ==> n[k - 1].prev == n[k - 2] && n[k - 2].next == n[k - 1];
    x := elm.prev.prev.next;
  }

  method Forward(head: Link, ghost q: seq<Link>) returns (visited: seq<Link>)
    requires Queue(head, q)
    ensures visited == q
  {
    visited := [];
    ghost var n := [head] + q;
    assert |n| > 1 ==> n[0].next == n[1];
    var x := head.next;
    while x != null
      invariant |visited| <= |q| && visited == q[..|visited|]
      invariant x == if |visited| < |q| then q[|visited|] else null
      decreases |q| - |visited|
    {
      ghost var i := |visited|;
      assert n[i + 1] == x && (i + 2 < |n| ==> n[i + 1].next == n[i + 2]);
      visited := visited + [x];
      x := x.next;
    }
    assert q[..|q|] == q;
  }

  method Backward(head: Link, ghost q: seq<Link>) returns (visited: seq<Link>)
    requires Queue(head, q)
    ensures visited == Reverse(q)
  {
    visited := [];
    ghost var i := |q|;
    assert q[|q|..] == [];
    var x := Last(head, q);
    while x != null
      invariant 0 <= i <= |q| && visited == Reverse(q[i..])
      invariant x == if i > 0 then q[i - 1] else null
      decreases i
    {
      assert Index(q, x) == i - 1 by { IndexIs([head] + q, q, x, i - 1); }
      i := i - 1;
      assert q[i..] == [x] + q[i + 1..];
      visited := visited + [x];
      x := Prev(x, head, q);
    }
    assert q[0..] == q;
  }

  // ----- runs of operations -----

  /** One operation as it runs. */
  method Perform(head: Link, op: Op, ghost q: seq<Link>)
    requires Queue(head, q) && Allowed(head, q, op)
    modifies head, op.x, q
    ensures Queue(head, Apply(head, q, op))
  {
    hide Chain, Before, After, Without, Swapped;
    match op
    case ToHead(x) => InsertHead(head, x, q);
    case ToTail(x) => InsertTail(head, x, q);
    case PutAfter(at, x) => InsertAfter(head, at, x, q);
    case PutBefore(at, x) => InsertBefore(head, at, x, q);
    case Drop(x) => Remove(head, x, q);
    case Swap(y, x) => Replace(head, y, x, q);
  }

  /** Every run from any queue ends in the queue that the sequence operations give. */
  method Run(head: Link, ops: seq<Op>, ghost q0: seq<Link>, ghost all: set<Link>) returns (ghost q: seq<Link>)
    requires Queue(head, q0) && AllAllowed(head, q0, ops)
    requires head in all && (forall x | x in q0 :: x in all) && (forall op | op in ops :: op.x in all)
    modifies all
    ensures Queue(head, q) && q == ApplyAll(head, q0, ops)
  {
    hide Chain, Apply, Allowed;
    q := q0;
    var i := 0;
    assert ops[0..] == ops;
    while i < |ops|
      invariant i <= |ops| && Queue(head, q) && AllAllowed(head, q, ops[i..]) && (forall x | x in q :: x in all)
      invariant ApplyAll(head, q, ops[i..]) == ApplyAll(head, q0, ops)
    {
      assert ops[i] in ops && ops[i..][0] == ops[i] && ops[i..][1..] == ops[i + 1..];
      StaysInside(head, q, ops[i], all);
      Perform(head, ops[i], q);
      q := Apply(head, q, ops[i]);
      i := i + 1;
    }
  }

  /** After any run, walking back visits the entries in exactly the opposite order of walking forward. */
  method RunAndWalk(head: Link, ops: seq<Op>, ghost all: set<Link>) returns (there: seq<Link>, back: seq<Link>)
    requires AllAllowed(head, [], ops) && head in all && forall op | op in ops :: op.x in all
    modifies all
    ensures there == ApplyAll(head, [], ops) && back == Reverse(there)
  {
    Init(head);
    ghost var q := Run(head, ops, [], all);
    there := Forward(head, q);
    back := Backward(head, q);
  }
}
