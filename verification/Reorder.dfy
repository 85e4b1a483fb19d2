/**
  Receiver-side reorder and duplicate tracking (`srv6_mrc/reorder.py`, `FlowStats`): the bounded
  duplicate window, the displacement histogram and the loss figure, over every order of arrivals.
 */
module Reorder {
  import opened Arith
  import opened Wrappers

  type Counts = map<nat, nat>

  /** The fields of a `FlowStats`; `_window_cap` is a parameter. */
  datatype Stats = Stats(
    first: Option<nat>, last: int, received: nat, duplicates: nat, perPlane: Counts, hist: Counts, window: set<nat>)

  const FRESH := Stats(None, -1, 0, 0, map[], map[], {})

  datatype Arrival = Arrival(seqNo: nat, plane: Option<nat>)

  function At(m: Counts, k: nat): nat { if k in m then m[k] else 0 }

  function Bump(m: Counts, k: nat): Counts { m[k := At(m, k) + 1] }

  ghost predicate IsLeast(m: nat, s: set<nat>) { m in s && forall x :: x in s ==> m <= x }

  lemma {:induction false} HasLeast(s: set<nat>)
    requires s != {}
    ensures exists m :: IsLeast(m, s)
    decreases |s|
  {
    var y :| y in s;
    var rest := s - {y};
    assert s == rest + {y};
    if rest == {} {
      assert IsLeast(y, s);
    } else {
      HasLeast(rest);
      var m :| IsLeast(m, rest);
      assert forall x :: x in s ==> x == y || x in rest;
      assert IsLeast(if y < m then y else m, s);
    }
  }

  /** Python's `min` of a set. */
  function Least(s: set<nat>): (m: nat)
    requires s != {}
    ensures m in s && forall x :: x in s ==> m <= x
  {
    HasLeast(s);
    assert exists m :: m in s && forall x :: x in s ==> m <= x by {
      var m :| IsLeast(m, s);
      assert m in s;
    }
    var m :| m in s && forall x :: x in s ==> m <= x;
    m
  }

  /** The duplicate window after a sequence number it does not hold. */
  function Slide(w: set<nat>, seqNo: nat, cap: nat): set<nat> {
    var grown := w + {seqNo};
    if |grown| > cap then grown - {Least(grown)} else grown
  }

  /** `observe`. */
  function Observe(st: Stats, cap: nat, a: Arrival): Stats {
    var s := if st.first.None? then st.(first := Some(a.seqNo)) else st;
    if a.seqNo in s.window then s.(duplicates := s.duplicates + 1)
    else
      var late := if a.seqNo > s.last then 0 else s.last - a.seqNo;
      s.(window := Slide(s.window, a.seqNo, cap),
         received := s.received + 1,
         perPlane := if a.plane.Some? then Bump(s.perPlane, a.plane.value) else s.perPlane,
         last := if a.seqNo > s.last then a.seqNo else s.last,
         hist := Bump(s.hist, late))
  }

  function Run(cap: nat, arrivals: seq<Arrival>): Stats {
    if arrivals == [] then FRESH
    else Observe(Run(cap, arrivals[..|arrivals| - 1]), cap, arrivals[|arrivals| - 1])
  }

  function Expected(st: Stats): int {
    if st.first.None? then 0 else st.last - st.first.value + 1
  }

  function Loss(st: Stats): int {
    if Expected(st) - st.received > 0 then Expected(st) - st.received else 0
  }

  // ---------------------------------------------------------------- the duplicate window

  ghost function Seen(arrivals: seq<Arrival>): set<nat> {
    set i | 0 <= i < |arrivals| :: arrivals[i].seqNo
  }

  lemma {:induction false} SeenStep(arrivals: seq<Arrival>)
    requires arrivals != []
    ensures Seen(arrivals) == Seen(arrivals[..|arrivals| - 1]) + {arrivals[|arrivals| - 1].seqNo}
  {
    var n := |arrivals| - 1;
    forall x | x in Seen(arrivals) ensures x in Seen(arrivals[..n]) || x == arrivals[n].seqNo {
      var i :| 0 <= i < |arrivals| && arrivals[i].seqNo == x;
      if i < n { assert arrivals[..n][i].seqNo == x; }
    }
    forall x | x in Seen(arrivals[..n]) ensures x in Seen(arrivals) {
      var i :| 0 <= i < n && arrivals[..n][i].seqNo == x;
      assert arrivals[i].seqNo == x;
    }
  }

  /** `w` holds the `cap` largest numbers of `seen`, all of them when there are fewer. */
  ghost predicate IsTop(w: set<nat>, seen: set<nat>, cap: nat) {
    && w <= seen
    && |w| == (if |seen| < cap then |seen| else cap)
    && forall x, y :: x in w && y in seen && y !in w ==> y < x
  }

  lemma {:induction false} SubsetSize(a: set<nat>, b: set<nat>)
    requires a <= b
    ensures |a| <= |b| && (|a| == |b| <==> a == b)
  {
    assert b == a + (b - a);
    if a != b { assert |b - a| > 0; }
  }

  /** There is only one such set. */
  lemma {:induction false} TopIsUnique(w: set<nat>, v: set<nat>, seen: set<nat>, cap: nat)
    requires IsTop(w, seen, cap) && IsTop(v, seen, cap)
    ensures w == v
  {
    if x :| x in w && x !in v {
      assert forall y :: y in v ==> x < y;
      assert forall y :: y in v && y !in w ==> y < x;
      SubsetSize(v, w);
    } else {
      SubsetSize(w, v);
    }
  }

  lemma {:induction false} SlideKeepsTop(w: set<nat>, seen: set<nat>, cap: nat, s: nat)
    requires IsTop(w, seen, cap) && s !in w
    ensures IsTop(Slide(w, s, cap), seen + {s}, cap)
  {
    SubsetSize(w, seen);
    var grown := w + {s};
    if s in seen {
      assert seen + {s} == seen;
      assert |w| != |seen|;
      assert Least(grown) == s;
      assert grown - {s} == w;
    } else if |grown| <= cap {
      assert w == seen;
    } else {
      var m := Least(grown);
      forall x, y | x in grown - {m} && y in seen + {s} && y !in grown - {m} ensures y < x {
        assert m <= x && x != m;
      }
    }
  }

  /** Whatever arrives in whatever order, the window holds the `cap` largest numbers seen. */
  lemma {:induction false} WindowIsTop(cap: nat, arrivals: seq<Arrival>)
    ensures IsTop(Run(cap, arrivals).window, Seen(arrivals), cap)
  {
    if arrivals != [] {
      var before, a := arrivals[..|arrivals| - 1], arrivals[|arrivals| - 1];
      WindowIsTop(cap, before);
      SeenStep(arrivals);
      var w := Run(cap, before).window;
      if a.seqNo in w {
        assert Seen(arrivals) == Seen(before);
      } else {
        SlideKeepsTop(w, Seen(before), cap, a.seqNo);
      }
    }
  }

  /**
    An arrival is counted as a duplicate exactly when its number is among the `cap` largest seen
    before it; every other arrival is counted as received.
   */
  lemma {:induction false} DuplicateIffAmongLargest(cap: nat, before: seq<Arrival>, a: Arrival, top: set<nat>)
    requires IsTop(top, Seen(before), cap)
    ensures var st, st' := Run(cap, before), Run(cap, before + [a]);
      && st'.duplicates == st.duplicates + (if a.seqNo in top then 1 else 0)
      && st'.received == st.received + (if a.seqNo in top then 0 else 1)
  {
    WindowIsTop(cap, before);
    TopIsUnique(top, Run(cap, before).window, Seen(before), cap);
    assert (before + [a])[..|before|] == before;
  }

  // ---------------------------------------------------------------- counters and histogram

  /** How much a histogram holds in its bins below `n`. */
  function Mass(m: Counts, n: nat): nat {
    if n == 0 then 0 else Mass(m, n - 1) + At(m, n - 1)
  }

  lemma {:induction false} MassBump(m: Counts, k: nat, n: nat)
    ensures Mass(Bump(m, k), n) == Mass(m, n) + (if k < n then 1 else 0)
  {
    if n > 0 { MassBump(m, k, n - 1); }
  }

  ghost predicate Below(m: Counts, n: nat) { forall k :: k in m ==> k < n }

  lemma {:induction false} BelowBump(m: Counts, k: nat, n: nat)
    requires Below(Bump(m, k), n)
    ensures Below(m, n) && k < n
  {
    forall j | j in m ensures j < n { assert j in Bump(m, k); }
    assert k in Bump(m, k);
  }

  /**
    Every arrival is counted once: received plus duplicates is the number of arrivals, and the
    displacement histogram holds exactly the received ones.
   */
  lemma {:induction false} EveryArrivalCounted(cap: nat, arrivals: seq<Arrival>, n: nat)
    requires Below(Run(cap, arrivals).hist, n)
    ensures Run(cap, arrivals).received + Run(cap, arrivals).duplicates == |arrivals|
    ensures Mass(Run(cap, arrivals).hist, n) == Run(cap, arrivals).received
  {
    if arrivals == [] {
      MassEmpty(n);
    } else {
      var before, a := arrivals[..|arrivals| - 1], arrivals[|arrivals| - 1];
      var st := Run(cap, before);
      if a.seqNo !in st.window {
        var late := if a.seqNo > st.last then 0 else st.last - a.seqNo;
        BelowBump(st.hist, late, n);
        MassBump(st.hist, late, n);
      }
      EveryArrivalCounted(cap, before, n);
    }
  }

  lemma {:induction false} MassEmpty(n: nat)
    ensures Mass(map[], n) == 0
  {
    if n > 0 { MassEmpty(n - 1); }
  }

  /** The per-plane counts add up to the received packets when every arrival names its plane. */
  lemma {:induction false} PlanesAddUp(cap: nat, arrivals: seq<Arrival>, n: nat)
    requires Below(Run(cap, arrivals).perPlane, n)
    requires forall a :: a in arrivals ==> a.plane.Some?
    ensures Mass(Run(cap, arrivals).perPlane, n) == Run(cap, arrivals).received
  {
    if arrivals == [] {
      MassEmpty(n);
    } else {
      var before, a := arrivals[..|arrivals| - 1], arrivals[|arrivals| - 1];
      assert a in arrivals;
      var st := Run(cap, before);
      if a.seqNo !in st.window {
        BelowBump(st.perPlane, a.plane.value, n);
        MassBump(st.perPlane, a.plane.value, n);
      }
      PlanesAddUp(cap, before, n);
    }
  }

  ghost predicate IsMax(x: int, s: set<nat>) {
    (s == {} ==> x == -1) && (s != {} ==> x >= 0 && x in s) && forall y :: y in s ==> y <= x
  }

  /** The largest number so far is the largest that arrived, and the first is the first. */
  lemma {:induction false} LastIsMax(cap: nat, arrivals: seq<Arrival>)
    ensures IsMax(Run(cap, arrivals).last, Seen(arrivals))
    ensures Run(cap, arrivals).first == if arrivals == [] then None else Some(arrivals[0].seqNo)
  {
    if arrivals != [] {
      var before, a := arrivals[..|arrivals| - 1], arrivals[|arrivals| - 1];
      LastIsMax(cap, before);
      WindowIsTop(cap, before);
      SeenStep(arrivals);
    }
  }

  /** How often an arrival exceeded everything before it. */
  ghost function NewMaxima(arrivals: seq<Arrival>): nat {
    if arrivals == [] then 0
    else
      var before, a := arrivals[..|arrivals| - 1], arrivals[|arrivals| - 1];
      NewMaxima(before) + if forall y :: y in Seen(before) ==> y < a.seqNo then 1 else 0
  }

  /** A window that holds anything holds the largest number seen. */
  lemma {:induction false} TopHoldsMax(w: set<nat>, seen: set<nat>, cap: nat, x: nat)
    requires IsTop(w, seen, cap) && IsMax(x, seen) && cap >= 1 && seen != {}
    ensures x in w
  {
    SubsetSize({}, seen);
    assert w != {};
    var y :| y in w;
  }

  /** Bin 0 counts exactly the in-order arrivals: those above everything before them. */
  lemma {:induction false} BinZeroIsNewMaxima(cap: nat, arrivals: seq<Arrival>)
    requires cap >= 1
    ensures At(Run(cap, arrivals).hist, 0) == NewMaxima(arrivals)
  {
    if arrivals != [] {
      var before, a := arrivals[..|arrivals| - 1], arrivals[|arrivals| - 1];
      BinZeroIsNewMaxima(cap, before);
      WindowIsTop(cap, before);
      LastIsMax(cap, before);
      var st := Run(cap, before);
      if before != [] {
        assert before[0].seqNo in Seen(before);
        TopHoldsMax(st.window, Seen(before), cap, st.last);
      }
      assert (forall y :: y in Seen(before) ==> y < a.seqNo) <==> a.seqNo > st.last;
      hide NewMaxima, IsTop;
      assert st.window <= Seen(before);
      BinZeroStep(st, cap, a);
    }
  }

  lemma {:induction false} BinZeroStep(st: Stats, cap: nat, a: Arrival)
    requires forall x :: x in st.window ==> x <= st.last
    requires st.last >= 0 ==> st.last in st.window
    requires st.last >= -1
    ensures At(Observe(st, cap, a).hist, 0) == At(st.hist, 0) + (if a.seqNo > st.last then 1 else 0)
  {
  }

  // ---------------------------------------------------------------- loss

  /** The numbers from the first arrival to the largest that never arrived. */
  ghost function Missing(arrivals: seq<Arrival>, first: nat, last: int): set<nat> {
    set x: nat | first <= x <= last && x !in Seen(arrivals)
  }

  ghost predicate SomeBelowFirst(arrivals: seq<Arrival>) {
    exists i :: 0 <= i < |arrivals| && arrivals[i].seqNo < arrivals[0].seqNo
  }

  lemma {:induction false} DistinctAtMost(cap: nat, arrivals: seq<Arrival>)
    ensures |Seen(arrivals)| <= Run(cap, arrivals).received
  {
    if arrivals != [] {
      var before, a := arrivals[..|arrivals| - 1], arrivals[|arrivals| - 1];
      DistinctAtMost(cap, before);
      WindowIsTop(cap, before);
      SeenStep(arrivals);
      if a.seqNo in Run(cap, before).window {
        assert Seen(arrivals) == Seen(before);
      }
    }
  }

  /** The numbers of `s` above `x`. */
  ghost function Above(s: set<nat>, x: nat): set<nat> { set y | y in s && y > x }

  /** A number seen is in the window exactly when fewer than `cap` larger ones were seen. */
  lemma {:induction false} InTopByRank(w: set<nat>, seen: set<nat>, cap: nat, x: nat)
    requires IsTop(w, seen, cap) && x in seen
    ensures x in w <==> |Above(seen, x)| < cap
  {
    if x in w {
      SubsetSize(Above(seen, x) + {x}, w);
    } else {
      SubsetSize(w, seen);
      SubsetSize(w, Above(seen, x));
    }
  }

  /** Every repeat came while fewer than `cap` larger numbers had been seen. */
  ghost predicate RepeatsInWindow(cap: nat, arrivals: seq<Arrival>) {
    forall k :: 0 <= k < |arrivals| && arrivals[k].seqNo in Seen(arrivals[..k]) ==>
      |Above(Seen(arrivals[..k]), arrivals[k].seqNo)| < cap
  }

  lemma {:induction false} RepeatsStep(cap: nat, arrivals: seq<Arrival>)
    requires arrivals != []
    ensures var before, x := arrivals[..|arrivals| - 1], arrivals[|arrivals| - 1].seqNo;
      RepeatsInWindow(cap, arrivals) <==>
        RepeatsInWindow(cap, before) && (x in Seen(before) ==> |Above(Seen(before), x)| < cap)
  {
    var n := |arrivals| - 1;
    var before := arrivals[..n];
    assert forall k :: 0 <= k <= n ==> before[..k] == arrivals[..k];
    assert forall k :: 0 <= k < n ==> before[k] == arrivals[k];
  }

  /** The received counter counts every number once if and only if no repeat fell outside the window. */
  lemma {:induction false} ReceivedCountsNumbers(cap: nat, arrivals: seq<Arrival>)
    ensures Run(cap, arrivals).received == |Seen(arrivals)| <==> RepeatsInWindow(cap, arrivals)
  {
    if arrivals != [] {
      var before, x := arrivals[..|arrivals| - 1], arrivals[|arrivals| - 1].seqNo;
      ReceivedCountsNumbers(cap, before);
      RepeatsStep(cap, arrivals);
      DistinctAtMost(cap, before);
      WindowIsTop(cap, before);
      SeenStep(arrivals);
      hide RepeatsInWindow, IsTop, Slide;
      if x in Seen(before) {
        assert Seen(arrivals) == Seen(before);
        InTopByRank(Run(cap, before).window, Seen(before), cap, x);
      } else {
        NotSeenNotHeld(cap, before, x);
      }
    }
  }

  lemma {:induction false} NotSeenNotHeld(cap: nat, arrivals: seq<Arrival>, x: nat)
    requires x !in Seen(arrivals)
    ensures x !in Run(cap, arrivals).window
  {
    WindowIsTop(cap, arrivals);
  }

  /**
    The loss figure never exceeds the packets really missing, and it is exact if and only if nothing
    is missing, or no packet older than the first arrived and every repeat came while fewer than `cap`
    larger numbers had been seen.
   */
  lemma {:induction false} LossIsExact(cap: nat, arrivals: seq<Arrival>)
    requires arrivals != []
    ensures var st := Run(cap, arrivals);
      var missing := Missing(arrivals, arrivals[0].seqNo, st.last);
      && Loss(st) <= |missing|
      && IsMax(st.last, Seen(arrivals))
      && (Loss(st) == |missing| <==> missing == {} || (!SomeBelowFirst(arrivals) && RepeatsInWindow(cap, arrivals)))
  {
    var st, first := Run(cap, arrivals), arrivals[0].seqNo;
    LastIsMax(cap, arrivals);
    assert first in Seen(arrivals);
    DistinctAtMost(cap, arrivals);
    ReceivedCountsNumbers(cap, arrivals);
    SpanSplit(arrivals, first, st.last);
    hide RepeatsInWindow, Seen, SomeBelowFirst, Run;
  }

  /** It does fail: after 5, 3, 7 the figure is 0 while 6 never arrived. */
  lemma {:induction false} LossMissesAnOldPacket(cap: nat)
    ensures var arrivals := [Arrival(5, None), Arrival(3, None), Arrival(7, None)];
      Loss(Run(cap, arrivals)) == 0 && 6 in Missing(arrivals, 5, Run(cap, arrivals).last)
  {
    var a, b, c := Arrival(5, None), Arrival(3, None), Arrival(7, None);
    ThreeReceived(cap, a, b, c);
    hide Run;
  }

  lemma {:induction false} ThreeReceived(cap: nat, a: Arrival, b: Arrival, c: Arrival)
    requires b.seqNo < a.seqNo < c.seqNo
    ensures var st := Run(cap, [a, b, c]);
      st.received == 3 && st.last == c.seqNo && st.first == Some(a.seqNo)
  {
    assert [] + [a] == [a] && [a] + [b] == [a, b] && [a, b] + [c] == [a, b, c];
    RunSnoc(cap, [], a);
    RunSnoc(cap, [a], b);
    RunSnoc(cap, [a, b], c);
    NotSeenNotHeld(cap, [a], b.seqNo);
    NotSeenNotHeld(cap, [a, b], c.seqNo);
    assert Run(cap, []) == FRESH;
    hide Run, Slide, Bump;
    assert Run(cap, [a]).received == 1 && Run(cap, [a, b]).received == 2;
  }

  lemma {:induction false} RunSnoc(cap: nat, arrivals: seq<Arrival>, a: Arrival)
    ensures Run(cap, arrivals + [a]) == Observe(Run(cap, arrivals), cap, a)
  {
    assert (arrivals + [a])[..|arrivals|] == arrivals;
  }

  /** And on a late repeat: with a window of one, any a, b, a with a gap between them hides a missing number. */
  lemma {:induction false} LossMissesALateRepeat(a: Arrival, b: Arrival)
    requires a.seqNo + 1 < b.seqNo
    ensures var arrivals := [a, b, a];
      !RepeatsInWindow(1, arrivals) && Loss(Run(1, arrivals)) < |Missing(arrivals, a.seqNo, Run(1, arrivals).last)|
  {
    var arrivals := [a, b, a];
    LateRepeat(a, b);
    LastIsMax(1, arrivals);
    assert arrivals[1].seqNo in Seen(arrivals);
    var gap: nat := a.seqNo + 1;
    assert gap !in Seen(arrivals);
    assert gap in Missing(arrivals, a.seqNo, Run(1, arrivals).last);
    hide Run, Seen, Missing, RepeatsInWindow;
    LossIsExact(1, arrivals);
  }

  lemma {:induction false} LateRepeat(a: Arrival, b: Arrival)
    requires a.seqNo < b.seqNo
    ensures !RepeatsInWindow(1, [a, b, a])
  {
    var arrivals, two := [a, b, a], [a, b];
    assert arrivals[..2] == two && two[0] == a && two[1] == b && arrivals[2] == a;
    assert a.seqNo in Seen(two) && b.seqNo in Above(Seen(two), a.seqNo);
    SubsetSize({b.seqNo}, Above(Seen(two), a.seqNo));
  }

  /** Two disjoint sets that make up the numbers from `lo` to `hi`. */
  lemma {:induction false} SpanSize(a: set<int>, b: set<int>, lo: int, hi: int)
    requires a !! b && lo <= hi + 1 && forall x :: x in a || x in b <==> lo <= x <= hi
    ensures |a| + |b| == hi + 1 - lo
  {
    RangeSize(lo, hi + 1);
    assert a + b == Range(lo, hi + 1);
  }

  /** The span of numbers splits into the missing ones and those seen that are not below the first. */
  lemma {:induction false} SpanSplit(arrivals: seq<Arrival>, first: nat, last: int)
    requires arrivals != [] && first == arrivals[0].seqNo && first <= last && IsMax(last, Seen(arrivals))
    ensures |Missing(arrivals, first, last)| >= last + 1 - first - |Seen(arrivals)|
    ensures |Missing(arrivals, first, last)| == last + 1 - first - |Seen(arrivals)| <==> !SomeBelowFirst(arrivals)
  {
    var seen, low := Seen(arrivals), BelowFirst(arrivals);
    SpanSize(Missing(arrivals, first, last), seen - low, first, last);
    LowExists(arrivals);
    hide Seen, Missing, BelowFirst, SomeBelowFirst, IsMax;
    assert seen == low + (seen - low);
  }

  /** The numbers seen below the first. */
  ghost function BelowFirst(arrivals: seq<Arrival>): set<nat>
    requires arrivals != []
  {
    set x | x in Seen(arrivals) && x < arrivals[0].seqNo
  }

  lemma {:induction false} LowExists(arrivals: seq<Arrival>)
    requires arrivals != []
    ensures BelowFirst(arrivals) <= Seen(arrivals)
    ensures BelowFirst(arrivals) == {} <==> !SomeBelowFirst(arrivals)
  {
    if SomeBelowFirst(arrivals) {
      var i :| 0 <= i < |arrivals| && arrivals[i].seqNo < arrivals[0].seqNo;
      assert arrivals[i].seqNo in BelowFirst(arrivals);
    }
  }

  // ---------------------------------------------------------------- displacements

  /** The largest number among the arrivals. */
  function Highest(arrivals: seq<Arrival>): int {
    if arrivals == [] then -1 else Max(Highest(arrivals[..|arrivals| - 1]), arrivals[|arrivals| - 1].seqNo)
  }

  /** How far arrival `k` came behind the largest number before it; zero if it is ahead of all. */
  function Displacement(arrivals: seq<Arrival>, k: nat): (d: nat)
    requires k < |arrivals|
  {
    Max(0, Highest(arrivals[..k]) - arrivals[k].seqNo)
  }

  /** Arrival `k` is not taken for a duplicate: its number is new, or `cap` larger ones came before it. */
  ghost predicate Received(cap: nat, arrivals: seq<Arrival>, k: nat)
    requires k < |arrivals|
  {
    var before, x := Seen(arrivals[..k]), arrivals[k].seqNo;
    x !in before || |Above(before, x)| >= cap
  }

  lemma {:induction false} HighestIsLast(cap: nat, arrivals: seq<Arrival>)
    ensures Run(cap, arrivals).last == Highest(arrivals)
  {
    if arrivals != [] {
      var before, a := arrivals[..|arrivals| - 1], arrivals[|arrivals| - 1];
      HighestIsLast(cap, before);
      LastIsMax(cap, before);
      WindowIsTop(cap, before);
    }
  }

  /** The received arrivals of a run, those displaced by `d`, those by at most `d`, those of a plane. */
  ghost function AllReceived(cap: nat, arrivals: seq<Arrival>): set<nat> {
    set k: nat | k < |arrivals| && Received(cap, arrivals, k)
  }

  ghost function DisplacedBy(cap: nat, arrivals: seq<Arrival>, d: nat): set<nat> {
    set k: nat | k < |arrivals| && Received(cap, arrivals, k) && Displacement(arrivals, k) == d
  }

  ghost function Within(cap: nat, arrivals: seq<Arrival>, d: nat): set<nat> {
    set k: nat | k < |arrivals| && Received(cap, arrivals, k) && Displacement(arrivals, k) <= d
  }

  ghost function OnPlane(cap: nat, arrivals: seq<Arrival>, p: nat): set<nat> {
    set k: nat | k < |arrivals| && Received(cap, arrivals, k) && arrivals[k].plane == Some(p)
  }

  /** A later arrival does not change what arrival `k` counted for. */
  lemma {:induction false} CountedBefore(cap: nat, before: seq<Arrival>, a: Arrival, k: nat)
    requires k < |before|
    ensures (before + [a])[k] == before[k]
    ensures Received(cap, before + [a], k) == Received(cap, before, k)
    ensures Displacement(before + [a], k) == Displacement(before, k)
  {
    assert (before + [a])[..k] == before[..k];
  }

  lemma {:induction false} ReceivedStep(cap: nat, before: seq<Arrival>, a: Arrival)
    ensures |AllReceived(cap, before + [a])| ==
      |AllReceived(cap, before)| + if Received(cap, before + [a], |before|) then 1 else 0
  {
    var all, n := before + [a], |before|;
    forall k: nat | k < n ensures Received(cap, all, k) == Received(cap, before, k) {
      CountedBefore(cap, before, a, k);
    }
    hide Received;
    assert AllReceived(cap, all) == AllReceived(cap, before) + if Received(cap, all, n) then {n} else {};
  }

  lemma {:induction false} DisplacedStep(cap: nat, before: seq<Arrival>, a: Arrival, d: nat)
    ensures |DisplacedBy(cap, before + [a], d)| == |DisplacedBy(cap, before, d)| +
      if Received(cap, before + [a], |before|) && Displacement(before + [a], |before|) == d then 1 else 0
  {
    var all, n := before + [a], |before|;
    forall k: nat | k < n
      ensures Received(cap, all, k) == Received(cap, before, k) && Displacement(all, k) == Displacement(before, k)
    {
      CountedBefore(cap, before, a, k);
    }
    hide Received, Displacement;
    assert DisplacedBy(cap, all, d) ==
      DisplacedBy(cap, before, d) + if Received(cap, all, n) && Displacement(all, n) == d then {n} else {};
  }

  lemma {:induction false} OnPlaneStep(cap: nat, before: seq<Arrival>, a: Arrival, p: nat)
    ensures |OnPlane(cap, before + [a], p)| ==
      |OnPlane(cap, before, p)| + if Received(cap, before + [a], |before|) && a.plane == Some(p) then 1 else 0
  {
    var all, n := before + [a], |before|;
    forall k: nat | k < n ensures Received(cap, all, k) == Received(cap, before, k) && all[k] == before[k] {
      CountedBefore(cap, before, a, k);
    }
    hide Received;
    assert OnPlane(cap, all, p) ==
      OnPlane(cap, before, p) + if Received(cap, all, n) && a.plane == Some(p) then {n} else {};
  }

  /** The window decides as Received does. */
  lemma {:induction false} ReceivedByWindow(cap: nat, before: seq<Arrival>, a: Arrival)
    ensures Received(cap, before + [a], |before|) <==> a.seqNo !in Run(cap, before).window
  {
    assert (before + [a])[..|before|] == before;
    WindowIsTop(cap, before);
    if a.seqNo in Seen(before) { InTopByRank(Run(cap, before).window, Seen(before), cap, a.seqNo); }
  }

  /** What one arrival does to the counters. */
  lemma {:induction false} CountersStep(st: Stats, cap: nat, a: Arrival, d: nat)
    ensures var st' := Observe(st, cap, a); var here := a.seqNo !in st.window;
      && st'.received == st.received + (if here then 1 else 0)
      && At(st'.hist, d) == At(st.hist, d) + (if here && Max(0, st.last - a.seqNo) == d then 1 else 0)
      && At(st'.perPlane, d) == At(st.perPlane, d) + (if here && a.plane == Some(d) then 1 else 0)
  {
  }

  /**
    For every order of arrivals, bin `d` of the histogram counts exactly the received arrivals that
    came `d` behind the largest number before them, the per-plane counters those that name the plane,
    and `received` all of them.
   */
  lemma {:induction false} BinsCountDisplacements(cap: nat, arrivals: seq<Arrival>, d: nat)
    ensures Run(cap, arrivals).received == |AllReceived(cap, arrivals)|
    ensures At(Run(cap, arrivals).hist, d) == |DisplacedBy(cap, arrivals, d)|
    ensures At(Run(cap, arrivals).perPlane, d) == |OnPlane(cap, arrivals, d)|
  {
    if arrivals == [] {
      assert AllReceived(cap, []) == {} && DisplacedBy(cap, [], d) == {} && OnPlane(cap, [], d) == {};
    } else {
      var n := |arrivals| - 1;
      var before, a := arrivals[..n], arrivals[n];
      assert arrivals == before + [a];
      BinsCountDisplacements(cap, before, d);
      CountersStep(Run(cap, before), cap, a, d);
      ReceivedByWindow(cap, before, a);
      HighestIsLast(cap, before);
      hide AllReceived, DisplacedBy, OnPlane, Received, At, Observe;
      ReceivedStep(cap, before, a);
      DisplacedStep(cap, before, a, d);
      OnPlaneStep(cap, before, a, d);
    }
  }

  lemma {:induction false} WithinSplits(cap: nat, arrivals: seq<Arrival>, d: nat)
    ensures |Within(cap, arrivals, d)| ==
      |DisplacedBy(cap, arrivals, d)| + if d == 0 then 0 else |Within(cap, arrivals, d - 1)|
  {
    hide Received, Displacement;
    if d == 0 {
      assert Within(cap, arrivals, 0) == DisplacedBy(cap, arrivals, 0);
    } else {
      assert Within(cap, arrivals, d) == Within(cap, arrivals, d - 1) + DisplacedBy(cap, arrivals, d);
      assert Within(cap, arrivals, d - 1) !! DisplacedBy(cap, arrivals, d);
    }
  }

  /** The histogram's mass up to bin `d` is the number of received arrivals displaced by at most `d`. */
  lemma {:induction false} MassCountsWithin(cap: nat, arrivals: seq<Arrival>, d: nat)
    ensures Mass(Run(cap, arrivals).hist, d + 1) == |Within(cap, arrivals, d)|
  {
    WithinSplits(cap, arrivals, d);
    BinsCountDisplacements(cap, arrivals, d);
    hide Run, Within, DisplacedBy, AllReceived, OnPlane;
    if d > 0 { MassCountsWithin(cap, arrivals, d - 1); }
  }

  // ---------------------------------------------------------------- the class

  lemma {:induction false} MassSkips(m: Counts, lo: nat, hi: nat)
    requires lo <= hi && forall k :: k in m ==> k < lo || hi <= k
    ensures Mass(m, hi) == Mass(m, lo)
  {
    if lo < hi { MassSkips(m, lo, hi - 1); }
  }

  lemma {:induction false} MassGrows(m: Counts, lo: nat, hi: nat)
    requires lo <= hi
    ensures Mass(m, lo) <= Mass(m, hi)
  {
    if lo < hi { MassGrows(m, lo, hi - 1); }
  }

  /** Occupied bins, none above the largest number, that add up to the received packets. */
  ghost predicate BinsOk(st: Stats) {
    && st.last >= -1
    && (forall k :: k in st.hist ==> st.hist[k] > 0 && k <= st.last)
    && Mass(st.hist, st.last + 1) == st.received
  }

  lemma {:induction false} BinsStep(st: Stats, cap: nat, a: Arrival)
    requires BinsOk(st)
    ensures BinsOk(Observe(st, cap, a))
  {
    if a.seqNo !in st.window {
      var late := if a.seqNo > st.last then 0 else st.last - a.seqNo;
      var last' := Observe(st, cap, a).last;
      MassSkips(st.hist, st.last + 1, last' + 1);
      MassBump(st.hist, late, last' + 1);
    }
  }

  lemma {:induction false} RunBins(cap: nat, arrivals: seq<Arrival>)
    ensures BinsOk(Run(cap, arrivals))
  {
    if arrivals == [] {
      MassEmpty(0);
    } else {
      RunBins(cap, arrivals[..|arrivals| - 1]);
      BinsStep(Run(cap, arrivals[..|arrivals| - 1]), cap, arrivals[|arrivals| - 1]);
    }
  }

  /** `pct` percent of `total`. */
  function Share(total: nat, pct: real): real { total as real * pct / 100.0 }

  lemma {:induction false} ShareOfTotal(total: nat, pct: real)
    requires total > 0 && 0.0 < pct <= 100.0
    ensures 0.0 < Share(total, pct) <= total as real
  {
    assert total as real * pct <= total as real * 100.0;
  }

  /** `d` is the least displacement within which at least `target` received arrivals lie. */
  ghost predicate ReachesFirst(cap: nat, arrivals: seq<Arrival>, target: real, d: nat) {
    && |Within(cap, arrivals, d)| as real >= target
    && forall e: nat :: e < d ==> (|Within(cap, arrivals, e)| as real) < target
  }

  ghost predicate IsPercentile(cap: nat, arrivals: seq<Arrival>, pct: real, d: nat) {
    ReachesFirst(cap, arrivals, |AllReceived(cap, arrivals)| as real * pct / 100.0, d)
  }

  /** Masses of bins as numbers of arrivals. */
  lemma {:induction false} MassReached(cap: nat, arrivals: seq<Arrival>, hist: Counts, target: real, d: nat)
    requires hist == Run(cap, arrivals).hist && Mass(hist, d + 1) as real >= target
    requires forall e :: 0 < e <= d ==> (Mass(hist, e) as real) < target
    ensures ReachesFirst(cap, arrivals, target, d)
  {
    hide Within, Run, Mass;
    MassCountsWithin(cap, arrivals, d);
    forall e: nat | e < d ensures (|Within(cap, arrivals, e)| as real) < target {
      MassCountsWithin(cap, arrivals, e);
    }
  }

  lemma {:induction false} PercentileReached(cap: nat, arrivals: seq<Arrival>, n: nat, pct: real, d: nat)
    requires n == |AllReceived(cap, arrivals)| && ReachesFirst(cap, arrivals, Share(n, pct), d)
    ensures IsPercentile(cap, arrivals, pct, d)
  {
    hide ReachesFirst, AllReceived;
  }

  class FlowStats {
    const cap: nat
    var first: Option<nat>
    var last: int
    var received: nat
    var duplicates: nat
    var perPlane: Counts
    var hist: Counts
    var window: set<nat>
    /** Everything recorded so far. */
    ghost var arrivals: seq<Arrival>

    constructor (cap: nat := 4096)
      ensures Valid() && arrivals == [] && this.cap == cap
    {
      this.cap := cap;
      first, last, received, duplicates := None, -1, 0, 0;
      perPlane, hist, window := map[], map[], {};
      arrivals := [];
    }

    function Value(): Stats
      reads this
    {
      Stats(first, last, received, duplicates, perPlane, hist, window)
    }

    /** The fields are those of the arrivals recorded so far. */
    ghost predicate Valid()
      reads this
    {
      Value() == Run(cap, arrivals)
    }

    /** The window update of `observe`. */
    method Remember(seqNo: nat)
      modifies this`window
      ensures window == Slide(old(window), seqNo, cap)
    {
      window := window + {seqNo};
      if |window| > cap { window := window - {Least(window)}; }
    }

    /** `observe`. */
    method Record(seqNo: nat, plane: Option<nat>)
      requires Valid()
      modifies this
      ensures Valid() && arrivals == old(arrivals) + [Arrival(seqNo, plane)]
    {
      RunSnoc(cap, arrivals, Arrival(seqNo, plane));
      hide Run, Observe;
      Update(seqNo, plane);
      arrivals := arrivals + [Arrival(seqNo, plane)];
    }

    method Update(seqNo: nat, plane: Option<nat>)
      modifies `first, `last, `received, `duplicates, `perPlane, `hist, `window
      ensures Value() == Observe(old(Value()), cap, Arrival(seqNo, plane))
    {
      if first.None? { first := Some(seqNo); }
      if seqNo in window {
        duplicates := duplicates + 1;
        return;
      }
      Remember(seqNo);
      hide Slide, Bump;
      received := received + 1;
      if plane.Some? { perPlane := Bump(perPlane, plane.value); }
      if seqNo > last {
        last := seqNo;
        hist := Bump(hist, 0);
      } else {
        hist := Bump(hist, last - seqNo);
      }
    }

    /**
      `reorder_percentile`: the smallest displacement within which at least `pct` percent of the
      received arrivals lie.
     */
    method Percentile(pct: real) returns (r: Result<nat, string>)
      requires Valid()
      ensures received == 0 ==> r == Ok(0)
      ensures received > 0 && !(0.0 < pct <= 100.0) ==> r.Err?
      ensures received > 0 && 0.0 < pct <= 100.0 ==>
        r.Ok? && IsPercentile(cap, arrivals, pct, r.value)
    {
      RunBins(cap, arrivals);
      hide Run, Share, IsPercentile;
      if hist == map[] {
        MassEmpty(last + 1);
        return Ok(0);
      }
      ghost var k :| k in hist;
      MassGrows(hist, k + 1, last + 1);
      if !(0.0 < pct <= 100.0) { return Err("pct must be in (0, 100]"); }
      var total := Total(last + 1);
      ShareOfTotal(total, pct);
      var d := Reach(Share(total, pct), last + 1);
      MassReached(cap, arrivals, hist, Share(total, pct), d);
      BinsCountDisplacements(cap, arrivals, 0);
      PercentileReached(cap, arrivals, total, pct, d);
      return Ok(d);
    }

    /** The accumulating loop of `reorder_percentile`; its fallback after the loop is unreachable. */
    method Reach(target: real, ghost n: nat) returns (d: nat)
      requires Below(hist, n) && 0.0 < target <= Mass(hist, n) as real
      ensures Mass(hist, d + 1) as real >= target
      ensures forall e :: 0 < e <= d ==> (Mass(hist, e) as real) < target
    {
      var cum: nat, rest := 0, hist.Keys;
      ghost var done: nat := 0;
      while rest != {}
        invariant forall k :: k in rest <==> k in hist && k >= done
        invariant done <= n && cum == Mass(hist, done) && (cum as real) < target
        decreases rest
      {
        d := Least(rest);
        MassSkips(hist, done, d);
        cum := cum + hist[d];
        if cum as real >= target {
          forall e | 0 < e <= d ensures (Mass(hist, e) as real) < target {
            MassGrows(hist, e, d);
          }
          return;
        }
        rest := rest - {d};
        done := d + 1;
      }
      MassSkips(hist, done, n);
      assert false;
    }

    /** `sum(self.reorder_hist.values())`. */
    method Total(ghost n: nat) returns (total: nat)
      requires Below(hist, n)
      ensures total == Mass(hist, n)
    {
      total := 0;
      var rest := hist.Keys;
      ghost var done: nat := 0;
      while rest != {}
        invariant forall k :: k in rest <==> k in hist && k >= done
        invariant done <= n && total == Mass(hist, done)
        decreases rest
      {
        var d := Least(rest);
        MassSkips(hist, done, d);
        total := total + hist[d];
        rest := rest - {d};
        done := d + 1;
      }
      MassSkips(hist, done, n);
    }
  }
}
