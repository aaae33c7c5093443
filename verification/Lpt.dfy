/**
 Longest-first, least-loaded placement: the bounds that hold for the loads it produces.

 A plan for suites with the given times is a sequence naming, suite by suite, one of `m` shards.
 */
module Lpt {
  import opened Bytes

  // ---- Loads -----------------------------------------------------------------------------

  /** The sum of the values placed on shard `k`. */
  function Load(values: seq<nat>, plan: seq<nat>, k: nat): nat
    requires |values| == |plan|
    decreases |values|
  {
    if values == [] then 0
    else
      var n := |values| - 1;
      Load(values[..n], plan[..n], k) + if plan[n] == k then values[n] else 0
  }

  function Total(values: seq<nat>): nat
    decreases |values|
  {
    if values == [] then 0 else Total(values[..|values| - 1]) + values[|values| - 1]
  }

  predicate IsPlan(times: seq<nat>, plan: seq<nat>, m: nat) {
    |plan| == |times| && forall i | 0 <= i < |plan| :: plan[i] < m
  }

  predicate Descending(times: seq<nat>) {
    forall i, j | 0 <= i <= j < |times| :: times[j] <= times[i]
  }

  /** The heaviest of the first `m` shards. */
  function MaxLoad(times: seq<nat>, plan: seq<nat>, m: nat): (r: nat)
    requires |times| == |plan|
    ensures forall k: nat | k < m :: Load(times, plan, k) <= r
    ensures m > 0 ==> exists k: nat | k < m :: Load(times, plan, k) == r
    decreases m
  {
    if m == 0 then 0 else Max(MaxLoad(times, plan, m - 1), Load(times, plan, m - 1))
  }

  /** The load of shard `k` when the turn of suite `j` comes. */
  function LoadAt(times: seq<nat>, plan: seq<nat>, j: nat, k: nat): nat
    requires |times| == |plan| && j <= |plan|
  {
    Load(times[..j], plan[..j], k)
  }

  /** Every suite went, when its turn came, to a shard no heavier than any other. */
  ghost predicate LeastLoaded(times: seq<nat>, plan: seq<nat>, m: nat) {
    && IsPlan(times, plan, m)
    && forall j: nat, k: nat {:trigger LoadAt(times, plan, j, k)} | j < |plan| && k < m ::
         LoadAt(times, plan, j, plan[j]) <= LoadAt(times, plan, j, k)
  }

  function LoadsBelow(values: seq<nat>, plan: seq<nat>, m: nat): nat
    requires |values| == |plan|
    decreases m
  {
    if m == 0 then 0 else LoadsBelow(values, plan, m - 1) + Load(values, plan, m - 1)
  }

  lemma {:induction false} LoadsBelowLast(values: seq<nat>, plan: seq<nat>, m: nat)
    requires |values| == |plan| > 0
    ensures
      var n := |values| - 1;
      LoadsBelow(values, plan, m) == LoadsBelow(values[..n], plan[..n], m) + if plan[n] < m then values[n] else 0
    decreases m
  {
    if m > 0 {
      LoadsBelowLast(values, plan, m - 1);
    }
  }

  /** No time is lost or counted twice: the loads of the shards add up to the total. */
  lemma {:induction false} LoadsAddUp(values: seq<nat>, plan: seq<nat>, m: nat)
    requires IsPlan(values, plan, m)
    ensures LoadsBelow(values, plan, m) == Total(values)
    decreases |values|
  {
    if values == [] {
      NoLoads(values, plan, m);
    } else {
      var n := |values| - 1;
      LoadsAddUp(values[..n], plan[..n], m);
      LoadsBelowLast(values, plan, m);
    }
  }

  lemma NoLoads(values: seq<nat>, plan: seq<nat>, m: nat)
    requires values == [] == plan
    ensures LoadsBelow(values, plan, m) == 0
  {
  }

  lemma {:induction false} LoadsAtLeast(values: seq<nat>, plan: seq<nat>, m: nat, c: nat)
    requires |values| == |plan| && forall k: nat | k < m :: c <= Load(values, plan, k)
    ensures m * c <= LoadsBelow(values, plan, m)
    decreases m
  {
    if m > 0 {
      LoadsAtLeast(values, plan, m - 1, c);
      assert m * c == (m - 1) * c + c;
    }
  }

  lemma {:induction false} LoadsAtMost(values: seq<nat>, plan: seq<nat>, m: nat, c: nat)
    requires |values| == |plan| && forall k: nat | k < m :: Load(values, plan, k) <= c
    ensures LoadsBelow(values, plan, m) <= m * c
    decreases m
  {
    if m > 0 {
      LoadsAtMost(values, plan, m - 1, c);
      assert m * c == (m - 1) * c + c;
    }
  }

  /** A prefix of a plan loads no shard more than the whole plan does. */
  lemma {:induction false} PrefixLoad(values: seq<nat>, plan: seq<nat>, j: nat, k: nat)
    requires |values| == |plan| && j <= |values|
    ensures Load(values[..j], plan[..j], k) <= Load(values, plan, k)
    decreases |values|
  {
    var n := |values| - 1;
    if j == |values| {
      assert values[..j] == values && plan[..j] == plan;
    } else {
      assert values[..n][..j] == values[..j] && plan[..n][..j] == plan[..j];
      PrefixLoad(values[..n], plan[..n], j, k);
    }
  }

  lemma {:induction false} PrefixTotal(values: seq<nat>, j: nat)
    requires j < |values|
    ensures Total(values[..j]) + values[j] <= Total(values)
    decreases |values|
  {
    var n := |values| - 1;
    if j < n {
      assert values[..n][..j] == values[..j];
      PrefixTotal(values[..n], j);
    }
  }

  // ---- The last suite of a shard ---------------------------------------------------------

  /** The last suite placed on shard `k`: everything after it went elsewhere. */
  lemma {:induction false} LastPlaced(times: seq<nat>, plan: seq<nat>, k: nat) returns (j: nat)
    requires |times| == |plan| && Load(times, plan, k) > 0
    ensures j < |times| && plan[j] == k && forall i | j < i < |plan| :: plan[i] != k
    ensures Load(times, plan, k) == Load(times[..j], plan[..j], k) + times[j]
    decreases |times|
  {
    var n := |times| - 1;
    if plan[n] == k {
      j := n;
    } else {
      j := LastPlaced(times[..n], plan[..n], k);
      assert times[..n][..j] == times[..j] && plan[..n][..j] == plan[..j];
    }
  }

  /** What the shards looked like when suite `j` was placed on the least loaded of them. */
  lemma AverageAtPlacement(times: seq<nat>, plan: seq<nat>, m: nat, j: nat)
    requires LeastLoaded(times, plan, m) && j < |times|
    ensures m * Load(times[..j], plan[..j], plan[j]) <= Total(times[..j])
  {
    forall k: nat | k < m
      ensures LoadAt(times, plan, j, plan[j]) <= Load(times[..j], plan[..j], k)
    {
      assert LoadAt(times, plan, j, k) == Load(times[..j], plan[..j], k);
    }
    LoadsAtLeast(times[..j], plan[..j], m, Load(times[..j], plan[..j], plan[j]));
    LoadsAddUp(times[..j], plan[..j], m);
  }

  /** Removing its last suite leaves a shard no heavier than any other shard ends up. */
  lemma WithoutItsLast(times: seq<nat>, plan: seq<nat>, m: nat, k: nat, other: nat) returns (j: nat)
    requires LeastLoaded(times, plan, m) && k < m && other < m && Load(times, plan, k) > 0
    ensures j < |times| && plan[j] == k && forall i | j < i < |plan| :: plan[i] != k
    ensures Load(times, plan, k) - times[j] <= Load(times, plan, other)
  {
    j := LastPlaced(times, plan, k);
    PrefixLoad(times, plan, j, other);
    assert LoadAt(times, plan, j, k) <= LoadAt(times, plan, j, other);
  }

  // ---- The average bound -----------------------------------------------------------------

  /** m times any load is at most the total plus m - 1 times the longest suite. */
  lemma LoadBound(times: seq<nat>, plan: seq<nat>, m: nat, k: nat, longest: nat)
    requires LeastLoaded(times, plan, m) && k < m && forall i | 0 <= i < |times| :: times[i] <= longest
    ensures m * Load(times, plan, k) <= Total(times) + (m - 1) * longest
  {
    if Load(times, plan, k) > 0 {
      var j := LastPlaced(times, plan, k);
      var s, p := Load(times[..j], plan[..j], k), times[j];
      AverageAtPlacement(times, plan, m, j);
      PrefixTotal(times, j);
      AverageArithmetic(m, s, p, Total(times), longest);
    } else {
      AverageArithmetic(m, 0, 0, Total(times), longest);
    }
  }

  lemma AverageArithmetic(m: nat, s: nat, p: nat, total: nat, longest: nat)
    requires m > 0 && m * s + p <= total && p <= longest
    ensures m * (s + p) <= total + (m - 1) * longest
  {
    assert m * (s + p) == m * s + (m - 1) * p + p;
    Monotone(m - 1, p, longest);
  }

  lemma Monotone(a: nat, x: nat, y: nat)
    requires x <= y
    ensures a * x <= a * y
  {
  }

  /** In any order of the suites, the placement is within 2 - 1/m of any other plan. */
  lemma {:induction false} AnyOrderBound(times: seq<nat>, plan: seq<nat>, alt: seq<nat>, m: nat)
    requires m > 0 && LeastLoaded(times, plan, m) && IsPlan(times, alt, m)
    ensures m * MaxLoad(times, plan, m) <= (2 * m - 1) * MaxLoad(times, alt, m)
  {
    var load, cap := MaxLoad(times, plan, m), MaxLoad(times, alt, m);
    var k: nat :| k < m && Load(times, plan, k) == load;
    forall i | 0 <= i < |times|
      ensures times[i] <= cap
    {
      SuiteFits(times, alt, m, i);
    }
    LoadBound(times, plan, m, k, cap);
    LoadsAddUp(times, alt, m);
    LoadsAtMost(times, alt, m, cap);
    TwiceArithmetic(m, load, Total(times), cap);
  }

  lemma SuiteFits(times: seq<nat>, alt: seq<nat>, m: nat, i: nat)
    requires IsPlan(times, alt, m) && i < |times|
    ensures times[i] <= MaxLoad(times, alt, m)
  {
    PrefixLoad(times, alt, i + 1, alt[i]);
    assert times[..i + 1][..i] == times[..i] && alt[..i + 1][..i] == alt[..i];
  }

  lemma TwiceArithmetic(m: nat, load: nat, total: nat, cap: nat)
    requires m > 0 && m * load <= total + (m - 1) * cap && total <= m * cap
    ensures m * load <= (2 * m - 1) * cap
  {
    assert (2 * m - 1) * cap == m * cap + (m - 1) * cap;
  }

  // ---- The 4/3 bound ---------------------------------------------------------------------

  /** Two when no suite as long as `p` fits beside `t` within `cap`, else one. */
  function Weight(t: nat, p: nat, cap: nat): nat {
    if t + p > cap then 2 else 1
  }

  function Weights(times: seq<nat>, p: nat, cap: nat): (w: seq<nat>)
    ensures |w| == |times|
  {
    seq(|times|, i requires 0 <= i < |times| => Weight(times[i], p, cap))
  }

  lemma WeightsPrefix(times: seq<nat>, p: nat, cap: nat, j: nat)
    requires j <= |times|
    ensures Weights(times, p, cap)[..j] == Weights(times[..j], p, cap)
  {
  }

  /** A shard lighter than the shortest suite is empty. */
  lemma {:induction false} LightShardWeight(times: seq<nat>, plan: seq<nat>, k: nat, p: nat, cap: nat)
    requires |times| == |plan| && forall i | 0 <= i < |times| :: p <= times[i]
    requires Load(times, plan, k) < p
    ensures Load(Weights(times, p, cap), plan, k) == 0
    decreases |times|
  {
    if times != [] {
      WeightsPrefix(times, p, cap, |times| - 1);
      LightShardWeight(times[..|times| - 1], plan[..|times| - 1], k, p, cap);
    }
  }

  /** A shard with room left for the shortest suite weighs at most one. */
  lemma {:induction false} RoomyShardWeight(times: seq<nat>, plan: seq<nat>, k: nat, p: nat, cap: nat)
    requires |times| == |plan| && forall i | 0 <= i < |times| :: p <= times[i]
    requires 3 * p > cap && Load(times, plan, k) + p <= cap
    ensures Load(Weights(times, p, cap), plan, k) <= 1
    decreases |times|
  {
    if times != [] {
      var n := |times| - 1;
      WeightsPrefix(times, p, cap, n);
      if plan[n] == k {
        LightShardWeight(times[..n], plan[..n], k, p, cap);
      } else {
        RoomyShardWeight(times[..n], plan[..n], k, p, cap);
      }
    }
  }

  /** When every suite is longer than a third of `cap`, a shard within `cap` weighs at most two. */
  lemma {:induction false} FittingShardWeight(times: seq<nat>, plan: seq<nat>, k: nat, p: nat, cap: nat)
    requires |times| == |plan| && forall i | 0 <= i < |times| :: p <= times[i]
    requires 3 * p > cap && Load(times, plan, k) <= cap
    ensures Load(Weights(times, p, cap), plan, k) <= 2
    decreases |times|
  {
    if times != [] {
      var n := |times| - 1;
      WeightsPrefix(times, p, cap, n);
      if plan[n] != k {
        FittingShardWeight(times[..n], plan[..n], k, p, cap);
      } else if times[n] + p > cap {
        LightShardWeight(times[..n], plan[..n], k, p, cap);
      } else {
        RoomyShardWeight(times[..n], plan[..n], k, p, cap);
      }
    }
  }

  lemma {:induction false} LoadedShardWeight(times: seq<nat>, plan: seq<nat>, k: nat, p: nat, cap: nat)
    requires |times| == |plan| && Load(times, plan, k) > 0
    ensures Load(Weights(times, p, cap), plan, k) >= 1
    decreases |times|
  {
    var n := |times| - 1;
    WeightsPrefix(times, p, cap, n);
    if plan[n] != k {
      LoadedShardWeight(times[..n], plan[..n], k, p, cap);
    }
  }

  /** A shard with no room for the shortest suite weighs at least two. */
  lemma {:induction false} FullShardWeight(times: seq<nat>, plan: seq<nat>, k: nat, p: nat, cap: nat)
    requires |times| == |plan| && p <= cap && Load(times, plan, k) + p > cap
    ensures Load(Weights(times, p, cap), plan, k) >= 2
    decreases |times|
  {
    var n := |times| - 1;
    WeightsPrefix(times, p, cap, n);
    if plan[n] != k {
      FullShardWeight(times[..n], plan[..n], k, p, cap);
    } else if times[n] + p <= cap {
      LoadedShardWeight(times[..n], plan[..n], k, p, cap);
    }
  }

  /**
   When the last suite of a shard is longer than a third of `cap`, and some plan keeps every
   shard within `cap`, so does the longest-first placement: otherwise its shards would weigh
   more in all than that plan's can.
   */
  lemma LongLastSuiteFits(times: seq<nat>, plan: seq<nat>, alt: seq<nat>, m: nat, j: nat, cap: nat)
    requires LeastLoaded(times, plan, m) && IsPlan(times, alt, m) && Descending(times) && j < |times|
    requires forall k: nat | k < m :: Load(times, alt, k) <= cap
    requires 3 * times[j] > cap
    ensures Load(times[..j], plan[..j], plan[j]) + times[j] <= cap
  {
    var p, t := times[j], times[..j + 1];
    var w := Weights(t, p, cap);
    assert t[..j] == times[..j];
    PrefixLoad(times, alt, j, alt[j]);
    PrefixLoad(times, alt, j + 1, alt[j]);
    assert alt[..j + 1][..j] == alt[..j];
    assert p <= cap;
    var a := alt[..j + 1];
    forall k: nat | k < m
      ensures Load(w, a, k) <= 2
    {
      PrefixLoad(times, alt, j + 1, k);
      FittingShardWeight(t, a, k, p, cap);
    }
    LoadsAtMost(w, a, m, 2);
    LoadsAddUp(w, a, m);
    assert Total(w) == Total(w[..j]) + w[j];
    if Load(times[..j], plan[..j], plan[j]) + p > cap {
      WeightsPrefix(t, p, cap, j);
      forall k: nat | k < m
        ensures 2 <= Load(w[..j], plan[..j], k)
      {
        assert LoadAt(times, plan, j, plan[j]) <= LoadAt(times, plan, j, k);
        FullShardWeight(times[..j], plan[..j], k, p, cap);
      }
      LoadsAtLeast(w[..j], plan[..j], m, 2);
      LoadsAddUp(w[..j], plan[..j], m);
    }
  }

  lemma ShortLastSuite(m: nat, load: nat, s: nat, p: nat, total: nat, cap: nat)
    requires m > 0 && load == s + p && m * s + p <= total <= m * cap && 3 * p <= cap
    ensures 3 * m * load <= (4 * m - 1) * cap
  {
    assert m * load == m * s + m * p;
    assert m * load <= m * cap + (m - 1) * p;
    Monotone(m - 1, 3 * p, cap);
    assert 3 * m * load == 3 * (m * load);
    assert 3 * ((m - 1) * p) == (m - 1) * (3 * p);
    assert (4 * m - 1) * cap == 3 * (m * cap) + (m - 1) * cap;
  }

  lemma LongLastSuite(m: nat, load: nat, cap: nat)
    requires m > 0 && load <= cap
    ensures 3 * m * load <= (4 * m - 1) * cap
  {
    Monotone(3 * m, load, cap);
    assert (4 * m - 1) * cap == 3 * m * cap + (m - 1) * cap;
    assert 0 <= (m - 1) * cap;
  }

  /**
   Longest-first placement is within 4/3 - 1/(3m) of any plan of the same suites on the same
   number of shards, whichever of several least loaded shards it picks.
   */
  lemma {:induction false} LongestFirstBound(times: seq<nat>, plan: seq<nat>, alt: seq<nat>, m: nat)
    requires m > 0 && Descending(times) && LeastLoaded(times, plan, m) && IsPlan(times, alt, m)
    ensures 3 * m * MaxLoad(times, plan, m) <= (4 * m - 1) * MaxLoad(times, alt, m)
  {
    var load, cap := MaxLoad(times, plan, m), MaxLoad(times, alt, m);
    var k: nat :| k < m && Load(times, plan, k) == load;
    if load == 0 {
      LongLastSuite(m, load, cap);
      return;
    }
    var j := LastPlaced(times, plan, k);
    var s, p := Load(times[..j], plan[..j], k), times[j];
    if 3 * p <= cap {
      AverageAtPlacement(times, plan, m, j);
      PrefixTotal(times, j);
      LoadsAddUp(times, alt, m);
      LoadsAtMost(times, alt, m, cap);
      ShortLastSuite(m, load, s, p, Total(times), cap);
    } else {
      LongLastSuiteFits(times, plan, alt, m, j, cap);
      LongLastSuite(m, load, cap);
    }
  }
}
