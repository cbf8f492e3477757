/** Octets, little-endian integers and flag bytes. */
module Bytes {

  type u8 = x: nat | x < 0x100
  type u16 = x: nat | x < 0x1_0000
  type u32 = x: nat | x < 0x1_0000_0000
  type u64 = x: nat | x < 0x1_0000_0000_0000_0000
  type bytes = seq<u8>

  const INT32_MAX: nat := 0x7FFF_FFFF

  datatype Option<+T> = None | Some(value: T)

  // ----- little-endian integers -----

  function Pow256(w: nat): (r: nat)
    ensures r > 0
  {
    if w == 0 then 1 else 256 * Pow256(w - 1)
  }

  /** The w low-order octets of n, least significant first. */
  function LE(n: nat, w: nat): (b: bytes)
    ensures |b| == w
  {
    if w == 0 then [] else [n % 256] + LE(n / 256, w - 1)
  }

  function FromLE(b: bytes): nat {
    if b == [] then 0 else b[0] + 256 * FromLE(b[1..])
  }

  lemma {:induction false} FromLEInvertsLE(n: nat, w: nat)
    requires n < Pow256(w)
    ensures FromLE(LE(n, w)) == n
  {
    if w > 0 {
      FromLEInvertsLE(n / 256, w - 1);
      assert LE(n, w)[1..] == LE(n / 256, w - 1);
    }
  }

  lemma {:induction false} FromLEBound(b: bytes)
    ensures FromLE(b) < Pow256(|b|)
  {
    if b != [] {
      FromLEBound(b[1..]);
    }
  }

  lemma {:induction false} LEInvertsFromLE(b: bytes)
    ensures LE(FromLE(b), |b|) == b
  {
    if b != [] {
      LEInvertsFromLE(b[1..]);
      assert FromLE(b) % 256 == b[0] && FromLE(b) / 256 == FromLE(b[1..]);
    }
  }

  lemma Pow256Values()
    ensures Pow256(1) == 0x100 && Pow256(2) == 0x1_0000 && Pow256(4) == 0x1_0000_0000
    ensures Pow256(8) == 0x1_0000_0000_0000_0000
  {
    assert Pow256(2) == 256 * Pow256(1);
    assert Pow256(4) == 256 * Pow256(3) && Pow256(3) == 256 * Pow256(2);
    assert Pow256(6) == 256 * Pow256(5) && Pow256(5) == 256 * Pow256(4);
    assert Pow256(8) == 256 * Pow256(7) && Pow256(7) == 256 * Pow256(6);
  }

  // ----- a byte string at a position of a longer one -----

  ghost predicate At(s: bytes, p: nat, e: bytes) {
    p + |e| <= |s| && s[p..p + |e|] == e
  }

  lemma AtSplit(s: bytes, p: nat, a: bytes, b: bytes)
    requires At(s, p, a + b)
    ensures At(s, p, a) && At(s, p + |a|, b)
  {
    assert a == (a + b)[..|a|] && b == (a + b)[|a|..];
  }

  // ----- flag bytes -----

  /** Bit k of v: `v & (1 << k)` is nonzero. */
  predicate Has(v: nat, k: nat) {
    if k == 0 then v % 2 == 1 else Has(v / 2, k - 1)
  }

  /** `v | (1 << k)` when `on`, and v otherwise. */
  function Mark(v: nat, k: nat, on: bool): (r: nat)
    ensures v < 256 && k < 8 ==> r < 256
  {
    MarkFits(v, k, on);
    MarkNat(v, k, on)
  }

  function MarkNat(v: nat, k: nat, on: bool): nat {
    if k == 0 then (if on && v % 2 == 0 then v + 1 else v)
    else 2 * MarkNat(v / 2, k - 1, on) + v % 2
  }

  function Pow2(k: nat): (r: nat)
    ensures r > 0
  {
    if k == 0 then 1 else 2 * Pow2(k - 1)
  }

  lemma {:induction false} MarkBound(v: nat, k: nat, on: bool, n: nat)
    requires v < Pow2(n) && k < n
    ensures MarkNat(v, k, on) < Pow2(n)
  {
    if k > 0 {
      MarkBound(v / 2, k - 1, on, n - 1);
    }
  }

  lemma Pow2Eight()
    ensures Pow2(8) == 256
  {
    assert Pow2(2) == 4;
    assert Pow2(4) == 16;
    assert Pow2(6) == 64;
  }

  lemma MarkFits(v: nat, k: nat, on: bool)
    ensures v < 256 && k < 8 ==> MarkNat(v, k, on) < 256
  {
    Pow2Eight();
    if v < 256 && k < 8 {
      MarkBound(v, k, on, 8);
    }
  }

  /** Setting one flag changes no other flag. */
  lemma {:induction false} MarkHas(v: nat, k: nat, on: bool, j: nat)
    ensures Has(Mark(v, k, on), j) == (if j == k then on || Has(v, j) else Has(v, j))
    decreases k
  {
    if k > 0 && j > 0 {
      MarkHas(v / 2, k - 1, on, j - 1);
    }
  }

  /** Setting a flag leaves the n bits below it alone. */
  lemma {:induction false} MarkLow(v: nat, k: nat, on: bool, n: nat)
    requires n <= k
    ensures Mark(v, k, on) % Pow2(n) == v % Pow2(n)
  {
    if n > 0 {
      MarkLow(v / 2, k - 1, on, n - 1);
      ModDouble(v, Pow2(n - 1));
      ModDouble(Mark(v, k, on), Pow2(n - 1));
    }
  }

  lemma ModDouble(v: nat, m: nat)
    requires m > 0
    ensures v % (2 * m) == 2 * ((v / 2) % m) + v % 2
  {
    var q, r := (v / 2) / m, (v / 2) % m;
    assert v == q * (2 * m) + (2 * r + v % 2);
    DivUnique(v, 2 * m, q, 2 * r + v % 2);
  }

  lemma DivUnique(v: nat, n: nat, q: nat, r: nat)
    requires 0 <= r < n && v == q * n + r
    ensures v / n == q && v % n == r
  {
    var d := v / n - q;
    assert d * n == r - v % n;
    MulFar(d, n);
  }

  lemma MulFar(d: int, n: nat)
    ensures (d >= 1 ==> d * n >= n) && (d <= -1 ==> d * n <= 0 - n)
  {
  }
}
