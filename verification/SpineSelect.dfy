/**
  Flow identity and spine choice (`FlowKey.hash5`, `select_spines_for_addrs` and the seeded
  Fisher-Yates pick of `srv6_mrc/topo.py`) and the round-robin walk of `EvSpray.pick_ev`
  (`srv6_mrc/policy.py`).  Addresses are byte strings.
 */
module SpineSelect {
  import opened Wrappers
  import opened Arith
  import opened ByteCodec

  datatype FlowKey = FlowKey(src: Bytes, dst: Bytes, srcPort: nat, dstPort: nat)

  // ---------------------------------------------------------------- hashing

  const FNV_OFFSET: nat := 0xcbf2_9ce4_8422_2325
  const FNV_PRIME: nat := 0x100_0000_01b3
  const PIPE: byte := 0x7c

  function FnvStep(h: nat, b: byte): nat {
    Xor(h, b) * FNV_PRIME % TWO64
  }

  function FnvFrom(h: nat, s: Bytes): nat
    decreases |s|
  {
    if s == [] then h else FnvFrom(FnvStep(h, s[0]), s[1..])
  }

  /** `_fnv1a`. */
  method Fnv1a(seed: Bytes) returns (h: nat)
    ensures h == FnvFrom(FNV_OFFSET, seed)
  {
    h := FNV_OFFSET;
    for k := 0 to |seed|
      invariant FnvFrom(h, seed[k..]) == FnvFrom(FNV_OFFSET, seed)
    {
      assert seed[k..][1..] == seed[k + 1..];
      h := FnvStep(h, seed[k]);
    }
  }

  function Decimal(n: nat): Bytes {
    if n < 10 then [0x30 + n] else Decimal(n / 10) + [0x30 + n % 10]
  }

  function FlowText(f: FlowKey): Bytes {
    f.src + [PIPE] + f.dst + [PIPE] + Decimal(f.srcPort) + [PIPE] + Decimal(f.dstPort) + [PIPE, 0x31, 0x37]
  }

  /** `FlowKey.hash5`. */
  function Hash5(f: FlowKey): nat { FnvFrom(FNV_OFFSET, FlowText(f)) }

  // ---------------------------------------------------------------- the seeded pick

  const SPLITMIX_GAMMA: nat := 0x9E37_79B9_7F4A_7C15

  /** The SplitMix64 finaliser. */
  function Avalanche(x0: nat): nat {
    var x1 := Xor(x0, x0 / 0x4000_0000) * 0xbf58_476d_1ce4_e5b9 % TWO64;
    var x2 := Xor(x1, x1 / 0x800_0000) * 0x94d0_49bb_1331_11eb % TWO64;
    Xor(x2, x2 / 0x8000_0000)
  }

  /** Draw number `step`, reduced to an index into a pool of `size`. */
  function DrawIndex(base: nat, step: nat, size: nat): (j: nat)
    requires size > 0
    ensures j < size
  {
    Avalanche((base + step * SPLITMIX_GAMMA) % TWO64) % size
  }

  function Without<T>(pool: seq<T>, j: nat): (r: seq<T>)
    requires j < |pool|
    ensures |r| == |pool| - 1
  {
    pool[..j] + pool[j + 1..]
  }

  /** `n` picks from `pool`, the first of them being draw number `step`. */
  function PickFrom(pool: seq<nat>, base: nat, step: nat, n: nat): (picks: seq<nat>)
    requires n <= |pool|
    ensures |picks| == n
    decreases n
  {
    if n == 0 then []
    else
      var j := DrawIndex(base, step, |pool|);
      [pool[j]] + PickFrom(Without(pool, j), base, step + 1, n - 1)
  }

  function Iota(n: nat): (s: seq<nat>)
    ensures |s| == n && forall i :: 0 <= i < n ==> s[i] == i
  {
    seq(n, i => i)
  }

  /** `_select_spines_from_seed`. */
  method SelectFromSeed(seed: Bytes, spines: nat, n: nat) returns (picks: seq<nat>)
    requires n <= spines
    ensures picks == PickFrom(Iota(spines), FnvFrom(FNV_OFFSET, seed), 0, n)
  {
    hide DrawIndex, FnvFrom, Without, Iota;
    var base := Fnv1a(seed);
    var pool := Iota(spines);
    picks := [];
    for step := 0 to n
      invariant |pool| == spines - step
      invariant picks + PickFrom(pool, base, step, n - step) == PickFrom(Iota(spines), base, 0, n)
    {
      var j := DrawIndex(base, step, spines - step);
      ghost var rest := PickFrom(Without(pool, j), base, step + 1, n - step - 1);
      assert picks + ([pool[j]] + rest) == picks + [pool[j]] + rest;
      picks := picks + [pool[j]];
      pool := Without(pool, j);
    }
  }

  // ---------------------------------------------------------------- what the pick is

  /** The picks are `n` different members of the pool. */
  lemma {:induction false} PicksAreDistinct(pool: seq<nat>, base: nat, step: nat, n: nat)
    requires n <= |pool| && Distinct(pool)
    ensures Distinct(PickFrom(pool, base, step, n))
    ensures forall x :: x in PickFrom(pool, base, step, n) ==> x in pool
    decreases n
  {
    if n > 0 {
      var j := DrawIndex(base, step, |pool|);
      PicksAreDistinct(Without(pool, j), base, step + 1, n - 1);
      assert pool[j] !in Without(pool, j);
    }
  }

  /** Asking for one more spine keeps the spines already chosen. */
  lemma {:induction false} SubsetsNest(pool: seq<nat>, base: nat, step: nat, n: nat)
    requires n + 1 <= |pool|
    ensures PickFrom(pool, base, step, n) == PickFrom(pool, base, step, n + 1)[..n]
    decreases n
  {
    if n > 0 {
      SubsetsNest(Without(pool, DrawIndex(base, step, |pool|)), base, step + 1, n - 1);
    }
  }

  /** Asking for every spine gives a permutation of them. */
  lemma {:induction false} FullPickIsPermutation(pool: seq<nat>, base: nat, step: nat)
    ensures multiset(PickFrom(pool, base, step, |pool|)) == multiset(pool)
    decreases |pool|
  {
    if pool != [] {
      var j := DrawIndex(base, step, |pool|);
      FullPickIsPermutation(Without(pool, j), base, step + 1);
      WithoutOne(pool, j);
    }
  }

  lemma {:induction false} WithoutOne(pool: seq<nat>, j: nat)
    requires j < |pool|
    ensures multiset(pool) == multiset{pool[j]} + multiset(Without(pool, j))
  {
    assert pool == pool[..j] + [pool[j]] + pool[j + 1..];
  }

  // ---------------------------------------------------------------- per address pair

  /** Python's order on strings. */
  predicate LexLeq(a: Bytes, b: Bytes) {
    if a == [] then true
    else if b == [] then false
    else if a[0] != b[0] then a[0] < b[0]
    else LexLeq(a[1..], b[1..])
  }

  lemma {:induction false} LexTotal(a: Bytes, b: Bytes)
    ensures LexLeq(a, b) || LexLeq(b, a)
    ensures LexLeq(a, b) && LexLeq(b, a) ==> a == b
    decreases |a|
  {
    if a != [] && b != [] {
      LexTotal(a[1..], b[1..]);
      if a[0] == b[0] && a[1..] == b[1..] { assert a == [a[0]] + a[1..] && b == [b[0]] + b[1..]; }
    }
  }

  function PairSeed(src: Bytes, dst: Bytes): Bytes {
    if LexLeq(src, dst) then src + [PIPE] + dst else dst + [PIPE] + src
  }

  /** `select_spines_for_addrs`; an `n` out of range raises. */
  function SelectSpines(src: Bytes, dst: Bytes, spines: nat, n: int): Option<seq<nat>> {
    if 1 <= n <= spines then Some(PickFrom(Iota(spines), FnvFrom(FNV_OFFSET, PairSeed(src, dst)), 0, n))
    else None
  }

  /** A set of spine choices for `paths` spines. */
  ghost predicate SubsetOf(spines: seq<nat>, paths: nat) {
    spines != [] && forall k :: 0 <= k < |spines| ==> spines[k] < paths
  }

  /** The spine subset of a flow, for a subset size in range. */
  function Subset(f: FlowKey, paths: nat, n: nat): (s: seq<nat>)
    requires 1 <= n <= paths
    ensures SubsetOf(s, paths)
    ensures Some(s) == SelectSpines(f.src, f.dst, paths, n)
  {
    hide PickFrom, FnvFrom;
    var base := FnvFrom(FNV_OFFSET, PairSeed(f.src, f.dst));
    PicksAreDistinct(Iota(paths), base, 0, n);
    var s := PickFrom(Iota(paths), base, 0, n);
    assert forall k :: 0 <= k < n ==> s[k] in s;
    s
  }

  /**
    For every address pair: the choice is the same in both directions, has `n` distinct spines in
    range, nests as `n` grows, and is a permutation of all spines when `n` is all of them.
   */
  lemma {:induction false} SpineChoice(src: Bytes, dst: Bytes, spines: nat, n: nat)
    requires 1 <= n <= spines
    ensures SelectSpines(src, dst, spines, n) == SelectSpines(dst, src, spines, n)
    ensures var s := SelectSpines(src, dst, spines, n).value;
      && |s| == n && Distinct(s) && (forall x :: x in s ==> x < spines)
      && (n < spines ==> s == SelectSpines(src, dst, spines, n + 1).value[..n])
      && (n == spines ==> forall x: nat :: x < spines ==> x in s)
  {
    LexTotal(src, dst);
    var base := FnvFrom(FNV_OFFSET, PairSeed(src, dst));
    PicksAreDistinct(Iota(spines), base, 0, n);
    if n < spines {
      SubsetsNest(Iota(spines), base, 0, n);
    } else {
      FullPickIsPermutation(Iota(spines), base, 0);
      forall x: nat | x < spines ensures x in PickFrom(Iota(spines), base, 0, n) {
        assert Iota(spines)[x] == x;
        assert x in multiset(Iota(spines));
      }
    }
  }

  // ---------------------------------------------------------------- round-robin spray

  /** The number of EVs a flow sprays over. */
  function EvCount(planes: nat, n: nat): (m: nat)
    requires planes > 0 && n > 0
    ensures m > 0
  {
    planes * n
  }

  /** `EvSpray.pick_ev`. */
  function SprayEv(seqNo: nat, planes: nat, spines: seq<nat>): (nat, nat)
    requires planes > 0 && spines != []
  {
    var ev := seqNo % EvCount(planes, |spines|);
    (ev % planes, spines[(ev / planes) % |spines|])
  }

  /** The packet of [start, start + planes * n) that is sent on plane `p` and subset position `k`. */
  function PacketFor(start: nat, planes: nat, n: nat, p: nat, k: nat): int
    requires planes > 0 && n > 0
  {
    start + (k * planes + p - start) % EvCount(planes, n)
  }

  lemma {:induction false} OnlyInWindow(start: int, t: int, m: int, s: int)
    requires 0 <= t < m && start <= s < start + m
    ensures s % m == t <==> s == start + (t - start) % m
  {
    ModShift(start, t, m);
    ModUnique(t, t, 0, m);
    SameResidue(s, start + (t - start) % m, start, m);
  }

  lemma {:induction false} PositionIff(start: nat, planes: nat, p: nat, k: nat, s: nat, m: nat, e: nat)
    requires p < planes && k * planes + p < m && start <= s < start + m && e == s % m
    ensures e % planes == p && e / planes == k <==> s == start + (k * planes + p - start) % m
  {
    OnlyInWindow(start, k * planes + p, m, s);
    Decompose(e, planes, k, p);
  }

  /**
    Any `planes * n` consecutive packets visit every EV of the flow exactly once: EV (p, spines[k])
    is picked by one packet of the window and by no other.
   */
  lemma {:induction false} SprayCoversOnce(start: nat, planes: nat, spines: seq<nat>, p: nat, k: nat, s: nat)
    requires planes > 0 && Distinct(spines) && p < planes && k < |spines|
    requires start <= s < start + EvCount(planes, |spines|)
    ensures SprayEv(s, planes, spines) == (p, spines[k]) <==> s == PacketFor(start, planes, |spines|, p, k)
    ensures start <= PacketFor(start, planes, |spines|, p, k) < start + EvCount(planes, |spines|)
  {
    var n := |spines|;
    var m := EvCount(planes, n);
    var e := s % m;
    TargetBound(planes, n, p, k);
    PathInRange(planes, n, e);
    hide EvCount;
    PositionIff(start, planes, p, k, s, m, e);
  }

  lemma {:induction false} PathInRange(planes: nat, n: nat, e: nat)
    requires planes > 0 && n > 0 && e < EvCount(planes, n)
    ensures e / planes < n && (e / planes) % n == e / planes
  {
    DivBound(e, planes, n);
    ModUnique(e / planes, e / planes, 0, n);
  }

  lemma {:induction false} TargetBound(planes: nat, n: nat, p: nat, k: nat)
    requires p < planes && k < n
    ensures k * planes + p < EvCount(planes, n)
  {
    assert (k + 1) * planes <= n * planes;
  }

  /** With two planes or more, consecutive packets change plane. */
  lemma {:induction false} SprayChangesPlane(s: nat, planes: nat, spines: seq<nat>)
    requires planes >= 2 && spines != []
    ensures SprayEv(s, planes, spines).0 != SprayEv(s + 1, planes, spines).0
  {
    var n := |spines|;
    ModOfMod(s, planes, n);
    ModOfMod(s + 1, planes, n);
    NextResidue(s, planes);
  }

  lemma {:induction false} NextResidue(s: int, planes: int)
    requires planes >= 2
    ensures s % planes != (s + 1) % planes
  {
    var q := s / planes;
    if s % planes == planes - 1 {
      ModUnique(s + 1, 0, q + 1, planes);
    } else {
      ModUnique(s + 1, s % planes + 1, q, planes);
    }
  }
}
