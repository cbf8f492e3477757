/** Intrusive links, and the sequences that link structures stand for. */
module Links {

  /** A head or an entry. `prev` stands for the address of a `next` field: it is the link that has this field.
      Head and entry have the same two fields in the same order, so one class serves for both. */
  class Link {
    var next: Link?
    var prev: Link?

    constructor ()
      ensures next == null && prev == null
    {
      next := null;
      prev := null;
    }
  }

  predicate Distinct(n: seq<Link>) {
    forall i, j | 0 <= i < j < |n| :: n[i] != n[j]
  }

  /** Position of x in q. */
  ghost function Index(q: seq<Link>, x: Link): (i: nat)
    requires x in q
    ensures i < |q| && q[i] == x
  {
    if q[0] == x then 0 else 1 + Index(q[1..], x)
  }

  ghost function Before(q: seq<Link>, at: Link, x: Link): seq<Link>
    requires at in q
  {
    q[..Index(q, at)] + [x] + q[Index(q, at)..]
  }

  ghost function After(q: seq<Link>, at: Link, x: Link): seq<Link>
    requires at in q
  {
    q[..Index(q, at) + 1] + [x] + q[Index(q, at) + 1..]
  }

  ghost function Without(q: seq<Link>, x: Link): seq<Link>
    requires x in q
  {
    q[..Index(q, x)] + q[Index(q, x) + 1..]
  }

  ghost function Swapped(q: seq<Link>, x: Link, y: Link): seq<Link>
    requires x in q
  {
    q[Index(q, x) := y]
  }

  lemma {:induction false} IndexAt(a: seq<Link>, x: Link, b: seq<Link>)
    requires x !in a
    ensures Index(a + [x] + b, x) == |a|
    decreases a
  {
    var q := a + [x] + b;
    if a != [] {
      assert q[0] == a[0] && q[1..] == a[1..] + [x] + b;
      IndexAt(a[1..], x, b);
    }
  }

  /** What the four operations do to a sequence, around the first occurrence of an entry. */
  lemma Around(a: seq<Link>, at: Link, b: seq<Link>, x: Link)
    requires at !in a
    ensures After(a + [at] + b, at, x) == a + [at, x] + b && Before(a + [at] + b, at, x) == a + [x, at] + b
    ensures Without(a + [at] + b, at) == a + b && Swapped(a + [at] + b, at, x) == a + [x] + b
  {
    var q := a + [at] + b;
    IndexAt(a, at, b);
    assert q[..|a|] == a && q[|a|..] == [at] + b && q[..|a| + 1] == a + [at] && q[|a| + 1..] == b;
    assert a + [x] + ([at] + b) == a + [x, at] + b && a + [at] + [x] + b == a + [at, x] + b;
  }

  function Reverse(q: seq<Link>): seq<Link> {
    if q == [] then [] else Reverse(q[1..]) + [q[0]]
  }

  lemma {:induction false} ReverseAt(q: seq<Link>, i: nat)
    requires i < |q|
    ensures |Reverse(q)| == |q| && Reverse(q)[i] == q[|q| - 1 - i]
  {
    if |q| > 1 {
      ReverseAt(q[1..], if i < |q| - 1 then i else 0);
    }
  }

  lemma {:induction false} ReverseLast(q: seq<Link>, x: Link)
    ensures Reverse(q + [x]) == [x] + Reverse(q)
  {
    if q == [] {
      assert [] + [x] == [x] && [x][1..] == [];
    } else {
      assert (q + [x])[1..] == q[1..] + [x];
      ReverseLast(q[1..], x);
    }
  }

  function Inserted(n: seq<Link>, k: nat, x: Link): (r: seq<Link>)
    requires k <= |n|
    ensures |r| == |n| + 1 && r[k] == x
    ensures forall i | 0 <= i < k :: r[i] == n[i]
    ensures forall i | k < i <= |n| :: r[i] == n[i - 1]
  {
    n[..k] + [x] + n[k..]
  }

  function Removed(n: seq<Link>, k: nat): (r: seq<Link>)
    requires k < |n|
    ensures |r| == |n| - 1
    ensures forall i | 0 <= i < k :: r[i] == n[i]
    ensures forall i | k <= i < |n| - 1 :: r[i] == n[i + 1]
  {
    n[..k] + n[k + 1..]
  }

  lemma DistinctInserted(n: seq<Link>, k: nat, x: Link)
    requires Distinct(n) && k <= |n| && x !in n
    ensures Distinct(Inserted(n, k, x))
  {
    hide Inserted;
  }

  lemma DistinctRemoved(n: seq<Link>, k: nat)
    requires Distinct(n) && k < |n|
    ensures Distinct(Removed(n, k))
  {
    hide Removed;
  }

  lemma InsertedBefore(head: Link, q: seq<Link>, at: Link, x: Link)
    requires at in q
    ensures Inserted([head] + q, Index(q, at) + 1, x) == [head] + Before(q, at, x)
  {
  }

  lemma RemovedWithout(head: Link, q: seq<Link>, x: Link)
    requires x in q
    ensures Removed([head] + q, Index(q, x) + 1) == [head] + Without(q, x)
  {
  }

  /** Entries are where they are in the sequence of the head and all entries. */
  lemma IndexIs(n: seq<Link>, q: seq<Link>, x: Link, i: nat)
    requires Distinct(n) && |n| == |q| + 1 && n[1..] == q && i < |q| && q[i] == x
    ensures Index(q, x) == i
  {
    var j := Index(q, x);
    assert n[i + 1] == x && n[j + 1] == x;
  }

  // ----- operations on sequences, and runs of them -----

  datatype Op =
    | ToHead(x: Link) | ToTail(x: Link) | PutAfter(at: Link, x: Link) | PutBefore(at: Link, x: Link)
    | Drop(x: Link) | Swap(gone: Link, x: Link)

  /** New entries are not in the queue, and the others are. */
  ghost predicate Allowed(head: Link, q: seq<Link>, op: Op) {
    match op
    case ToHead(x) => x !in [head] + q
    case ToTail(x) => x !in [head] + q
    case PutAfter(at, x) => at in q && x !in [head] + q
    case PutBefore(at, x) => at in q && x !in [head] + q
    case Drop(x) => x in q
    case Swap(y, x) => y in q && x !in [head] + q
  }

  ghost function Apply(head: Link, q: seq<Link>, op: Op): seq<Link>
    requires Allowed(head, q, op)
  {
    match op
    case ToHead(x) => [x] + q
    case ToTail(x) => q + [x]
    case PutAfter(at, x) => After(q, at, x)
    case PutBefore(at, x) => Before(q, at, x)
    case Drop(x) => Without(q, x)
    case Swap(y, x) => Swapped(q, y, x)
  }

  ghost predicate AllAllowed(head: Link, q: seq<Link>, ops: seq<Op>)
    decreases ops
  {
    ops != [] ==> Allowed(head, q, ops[0]) && AllAllowed(head, Apply(head, q, ops[0]), ops[1..])
  }

  ghost function ApplyAll(head: Link, q: seq<Link>, ops: seq<Op>): seq<Link>
    requires AllAllowed(head, q, ops)
    decreases ops
  {
    if ops == [] then q else ApplyAll(head, Apply(head, q, ops[0]), ops[1..])
  }

  lemma StaysInside(head: Link, q: seq<Link>, op: Op, all: set<Link>)
    requires Allowed(head, q, op) && (forall x | x in q :: x in all) && op.x in all
    ensures forall x | x in Apply(head, q, op) :: x in all
  {
  }
}
