/** Integer functions the models share, and facts about remainders that the solver needs spelled out. */
module Arith {
  const TWO64: nat := 0x1_0000_0000_0000_0000

  function Max(a: int, b: int): int { if a < b then b else a }
  function Min(a: int, b: int): int { if a < b then a else b }

  function Pow2(n: nat): (r: nat)
    ensures r >= 1
  {
    if n == 0 then 1 else 2 * Pow2(n - 1)
  }

  lemma {:induction false} Pow2Monotone(m: nat, n: nat)
    requires m <= n
    ensures Pow2(m) <= Pow2(n)
  {
    if m < n { Pow2Monotone(m, n - 1); }
  }

  lemma {:induction false} MulApart(m: int, d: int)
    requires m > 0 && d != 0
    ensures m * d >= m || m * d <= -m
  {
    if d > 0 { assert m * d >= m * 1; } else { assert m * d <= m * -1; }
  }

  /** `x` is the remainder of anything congruent to it. */
  lemma {:induction false} ModUnique(y: int, x: int, t: int, m: int)
    requires m > 0 && 0 <= x < m && y == x + m * t
    ensures y % m == x && y / m == t
  {
    var q := y / m;
    assert m * (q - t) == x - y % m;
    if q != t { MulApart(m, q - t); }
  }

  lemma {:induction false} ModAddMultiple(b: int, q: int, m: int)
    requires m > 0
    ensures (b + m * q) % m == b % m
  {
    assert b == m * (b / m) + b % m;
    assert m * (b / m) + m * q == m * (b / m + q);
    ModUnique(b + m * q, b % m, b / m + q, m);
  }

  /** The number congruent to `b` in the window of length `m` from `a`. */
  lemma {:induction false} ModShift(a: int, b: int, m: int)
    requires m > 0
    ensures (a + (b - a) % m) % m == b % m
  {
    var q := (b - a) / m;
    assert a + (b - a) % m == b + m * -q;
    ModAddMultiple(b, -q, m);
  }

  /** A window of length `m` holds each residue once. */
  lemma {:induction false} SameResidue(s: int, w: int, start: int, m: int)
    requires m > 0 && start <= s < start + m && start <= w < start + m
    ensures s % m == w % m <==> s == w
  {
    var d := s / m - w / m;
    assert s - w == m * d + (s % m - w % m);
    if d != 0 { MulApart(m, d); }
  }

  lemma {:induction false} DivBound(e: nat, planes: nat, n: nat)
    requires planes > 0 && e < planes * n
    ensures e / planes < n
  {
    var q := e / planes;
    assert e == planes * q + e % planes;
    if q != n { MulApart(planes, q - n); }
  }

  lemma {:induction false} ModOfMod(s: int, planes: int, n: int)
    requires planes > 0 && n > 0
    ensures planes * n > 0 && (s % (planes * n)) % planes == s % planes
  {
    var m := planes * n;
    assert m > 0;
    var q := s / m;
    assert s == s % m + planes * (n * q) by { assert s == m * q + s % m; assert m * q == planes * (n * q); }
    ModAddMultiple(s % m, n * q, planes);
  }

  lemma {:induction false} Decompose(e: nat, planes: nat, k: nat, p: nat)
    requires p < planes
    ensures e % planes == p && e / planes == k <==> e == k * planes + p
  {
    if e == k * planes + p { ModUnique(e, p, k, planes); }
  }

  /** A ratio against a bound, without the division. */
  lemma {:induction false} DivideBoth(a: real, x: real, c: real)
    requires x > 0.0
    ensures a / x <= c <==> a <= c * x
    ensures a / x < c <==> a < c * x
  {
    assert (a / x) * x == a;
  }

  function Total(xs: seq<nat>): nat {
    if xs == [] then 0 else Total(xs[..|xs| - 1]) + xs[|xs| - 1]
  }

  lemma {:induction false} TotalFirst(xs: seq<nat>)
    requires xs != []
    ensures Total(xs) == xs[0] + Total(xs[1..])
  {
    if |xs| > 1 {
      var front := xs[..|xs| - 1];
      TotalFirst(front);
      assert front[1..] == xs[1..][..|xs| - 2];
    }
  }

  /** Bitwise exclusive or. */
  function Xor(a: nat, b: nat): nat {
    if a == 0 then b else if b == 0 then a
    else 2 * Xor(a / 2, b / 2) + (a + b) % 2
  }

  /** The integers from `lo` up to and without `hi`. */
  function Range(lo: int, hi: int): (r: set<int>)
    ensures forall x :: x in r <==> lo <= x < hi
    decreases hi - lo
  {
    if lo >= hi then {} else Range(lo, hi - 1) + {hi - 1}
  }

  lemma {:induction false} RangeSize(lo: int, hi: int)
    requires lo <= hi
    ensures |Range(lo, hi)| == hi - lo
    decreases hi - lo
  {
    if lo < hi {
      RangeSize(lo, hi - 1);
    }
  }
}
