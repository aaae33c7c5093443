/**
 The 4/3 - 1/(3m) bound cannot be improved for any number of shards: for every m, 2m + 1 suites
 meet it with equality.
 */
module LptTight {
  import opened Lpt

  /** 2m-1, 2m-1, 2m-2, 2m-2, ..., m+1, m+1, m, m, m. */
  function WorstTimes(m: nat): (t: seq<nat>)
    requires m > 0
    ensures |t| == 2 * m + 1
  {
    seq(2 * m + 1, i requires 0 <= i < 2 * m + 1 => if i == 2 * m then m else 2 * m - 1 - i / 2)
  }

  /** Out to shard m-1 and back again; the last suite then falls on shard 0. */
  function FoldedPlan(m: nat): (p: seq<nat>)
    requires m > 0
    ensures |p| == 2 * m + 1
  {
    seq(2 * m + 1, i requires 0 <= i < 2 * m + 1 => if i < m then i else if i < 2 * m then 2 * m - 1 - i else 0)
  }

  /** The three shortest suites together, the others in pairs of equal sum. */
  function PairedPlan(m: nat): (p: seq<nat>)
    requires m > 0
    ensures |p| == 2 * m + 1
  {
    seq(2 * m + 1, i requires 0 <= i < 2 * m + 1 =>
      if i < m - 1 then i else if i < 2 * m - 2 then 2 * m - 3 - i else m - 1)
  }

  lemma {:induction false} NothingOn(values: seq<nat>, plan: seq<nat>, k: nat)
    requires |values| == |plan| && k !in plan
    ensures Load(values, plan, k) == 0
    decreases |values|
  {
    if values != [] {
      NothingOn(values[..|values| - 1], plan[..|plan| - 1], k);
    }
  }

  /** A shard whose last suite is `b` carries it on top of what it carried before. */
  lemma {:induction false} LastOn(values: seq<nat>, plan: seq<nat>, k: nat, b: nat)
    requires |values| == |plan| && b < |plan| && plan[b] == k && forall i | b < i < |plan| :: plan[i] != k
    ensures Load(values, plan, k) == Load(values[..b], plan[..b], k) + values[b]
    decreases |values|
  {
    var n := |values| - 1;
    if b < n {
      LastOn(values[..n], plan[..n], k, b);
      assert values[..n][..b] == values[..b] && plan[..n][..b] == plan[..b];
    }
  }

  lemma OneOn(values: seq<nat>, plan: seq<nat>, k: nat, a: nat)
    requires |values| == |plan| && a < |plan| && forall i | 0 <= i < |plan| :: plan[i] == k <==> i == a
    ensures Load(values, plan, k) == values[a]
  {
    LastOn(values, plan, k, a);
    NothingOn(values[..a], plan[..a], k);
  }

  lemma TwoOn(values: seq<nat>, plan: seq<nat>, k: nat, a: nat, b: nat)
    requires |values| == |plan| && a < b < |plan| && forall i | 0 <= i < |plan| :: plan[i] == k <==> i == a || i == b
    ensures Load(values, plan, k) == values[a] + values[b]
  {
    LastOn(values, plan, k, b);
    OneOn(values[..b], plan[..b], k, a);
  }

  lemma ThreeOn(values: seq<nat>, plan: seq<nat>, k: nat, a: nat, b: nat, c: nat)
    requires |values| == |plan| && a < b < c < |plan|
    requires forall i | 0 <= i < |plan| :: plan[i] == k <==> i == a || i == b || i == c
    ensures Load(values, plan, k) == values[a] + values[b] + values[c]
  {
    LastOn(values, plan, k, c);
    TwoOn(values[..c], plan[..c], k, a, b);
  }

  /** Shard `k` after the first `j` suites of the folded plan. */
  lemma FoldedLoad(m: nat, j: nat, k: nat)
    requires m > 0 && j <= 2 * m && k < m
    ensures
      var load := LoadAt(WorstTimes(m), FoldedPlan(m), j, k);
      load == if j <= k then 0 else if j <= 2 * m - 1 - k then 2 * m - 1 - k / 2 else 3 * m - 1
  {
    var times, plan := WorstTimes(m)[..j], FoldedPlan(m)[..j];
    if j <= k {
      NothingOn(times, plan, k);
    } else if j <= 2 * m - 1 - k {
      OneOn(times, plan, k, k);
    } else {
      TwoOn(times, plan, k, k, 2 * m - 1 - k);
    }
  }

  lemma FoldedIsLeastLoaded(m: nat)
    requires m > 0
    ensures LeastLoaded(WorstTimes(m), FoldedPlan(m), m)
  {
    var times, plan := WorstTimes(m), FoldedPlan(m);
    forall j: nat, k: nat {:trigger LoadAt(times, plan, j, k)} | j < |plan| && k < m
      ensures LoadAt(times, plan, j, plan[j]) <= LoadAt(times, plan, j, k)
    {
      FoldedLoad(m, j, plan[j]);
      FoldedLoad(m, j, k);
    }
  }

  lemma PairedLoad(m: nat, k: nat)
    requires m > 0 && k < m
    ensures Load(WorstTimes(m), PairedPlan(m), k) == 3 * m
  {
    if k < m - 1 {
      TwoOn(WorstTimes(m), PairedPlan(m), k, k, 2 * m - 3 - k);
    } else {
      ThreeOn(WorstTimes(m), PairedPlan(m), k, 2 * m - 2, 2 * m - 1, 2 * m);
    }
  }

  lemma FoldedTop(m: nat)
    requires m > 0
    ensures Load(WorstTimes(m), FoldedPlan(m), 0) == 4 * m - 1
  {
    FoldedLoad(m, 2 * m, 0);
    LastOn(WorstTimes(m), FoldedPlan(m), 0, 2 * m);
  }

  lemma PairedTop(m: nat)
    requires m > 0
    ensures MaxLoad(WorstTimes(m), PairedPlan(m), m) == 3 * m
  {
    forall k: nat | k < m
      ensures Load(WorstTimes(m), PairedPlan(m), k) == 3 * m
    {
      PairedLoad(m, k);
    }
  }

  lemma Pinned(m: nat, load: nat)
    requires m > 0 && 4 * m - 1 <= load
    ensures 3 * m * load <= (4 * m - 1) * (3 * m) ==> 3 * m * load == (4 * m - 1) * (3 * m) > 0
  {
    Monotone(3 * m, 4 * m - 1, load);
  }

  /** For every number of shards some suites meet the 4/3 - 1/(3m) bound with equality. */
  lemma {:induction false} BoundIsTight(m: nat) returns (times: seq<nat>, plan: seq<nat>, alt: seq<nat>)
    requires m > 0
    ensures Descending(times) && LeastLoaded(times, plan, m) && IsPlan(times, alt, m)
    ensures 3 * m * MaxLoad(times, plan, m) == (4 * m - 1) * MaxLoad(times, alt, m) > 0
  {
    times, plan, alt := WorstTimes(m), FoldedPlan(m), PairedPlan(m);
    FoldedIsLeastLoaded(m);
    FoldedTop(m);
    PairedTop(m);
    LongestFirstBound(times, plan, alt, m);
    Pinned(m, MaxLoad(times, plan, m));
  }
}
