/**
 The scheduler's own tie-break, the first of the least loaded shards, and exactly when it
 leaves a shard empty.
 */
module LptPlace {
  import opened Bytes
  import opened Lpt

  /** The first of the smallest loads. */
  predicate IsFirstLightest(loads: seq<nat>, b: nat) {
    && b < |loads|
    && (forall k | 0 <= k < |loads| :: loads[b] <= loads[k])
    && forall k | 0 <= k < b :: loads[b] < loads[k]
  }

  function FirstLightest(loads: seq<nat>): (b: nat)
    requires loads != []
    ensures IsFirstLightest(loads, b)
    decreases |loads|
  {
    var n := |loads| - 1;
    if n == 0 then 0
    else
      var b := FirstLightest(loads[..n]);
      if loads[n] < loads[b] then n else b
  }

  function Loads(times: seq<nat>, plan: seq<nat>, m: nat): (r: seq<nat>)
    requires |times| == |plan|
    ensures |r| == m && forall k | 0 <= k < m :: r[k] == Load(times, plan, k)
  {
    seq(m, k requires 0 <= k < m => Load(times, plan, k))
  }

  /** The shard of every suite, taken in the given order. */
  function Place(times: seq<nat>, m: nat): (plan: seq<nat>)
    requires m > 0
    ensures IsPlan(times, plan, m)
    decreases |times|
  {
    if times == [] then []
    else
      var n := |times| - 1;
      var before := Place(times[..n], m);
      before + [FirstLightest(Loads(times[..n], before, m))]
  }

  lemma {:induction false} PlacePrefix(times: seq<nat>, m: nat, j: nat)
    requires m > 0 && j <= |times|
    ensures Place(times, m)[..j] == Place(times[..j], m)
    decreases |times|
  {
    if j == |times| {
      assert times[..j] == times;
    } else {
      var n := |times| - 1;
      PlacePrefix(times[..n], m, j);
      assert times[..n][..j] == times[..j];
      assert Place(times, m)[..n] == Place(times[..n], m);
    }
  }

  /** Suite `j` goes to the first of the least loaded shards. */
  lemma PlacedOnFirstLightest(times: seq<nat>, m: nat, j: nat)
    requires m > 0 && j < |times|
    ensures
      var plan := Place(times, m);
      plan[j] == FirstLightest(Loads(times[..j], plan[..j], m))
  {
    PlacePrefix(times, m, j);
    PlacePrefix(times, m, j + 1);
    assert times[..j + 1][..j] == times[..j];
    assert Place(times, m)[j] == Place(times, m)[..j + 1][j];
  }

  lemma PlaceIsLeastLoaded(times: seq<nat>, m: nat)
    requires m > 0
    ensures LeastLoaded(times, Place(times, m), m)
  {
    var plan := Place(times, m);
    forall j: nat, k: nat {:trigger LoadAt(times, plan, j, k)} | j < |plan| && k < m
      ensures LoadAt(times, plan, j, plan[j]) <= LoadAt(times, plan, j, k)
    {
      PlacedOnFirstLightest(times, m, j);
      assert Loads(times[..j], plan[..j], m)[plan[j]] <= Loads(times[..j], plan[..j], m)[k];
    }
  }

  // ---- Empty shards ----------------------------------------------------------------------

  /** How many suites take any time at all. */
  function Positives(times: seq<nat>): nat
    decreases |times|
  {
    if times == [] then 0
    else Positives(times[..|times| - 1]) + if times[|times| - 1] > 0 then 1 else 0
  }

  lemma {:induction false} PositivesFirst(times: seq<nat>)
    requires Descending(times)
    ensures Positives(times) <= |times|
    ensures forall i | 0 <= i < |times| :: times[i] > 0 <==> i < Positives(times)
    decreases |times|
  {
    if times != [] {
      PositivesFirst(times[..|times| - 1]);
    }
  }

  /** One suite on each of the first `j` shards, and no time on the others. */
  lemma {:induction false} SpreadLoads(times: seq<nat>, plan: seq<nat>, j: nat, k: nat)
    requires |times| == |plan| && j <= |plan|
    requires forall i | 0 <= i < |plan| :: if i < j then plan[i] == i else times[i] == 0
    ensures Load(times, plan, k) == if k < j then times[k] else 0
    decreases |times|
  {
    if times != [] {
      var n := |times| - 1;
      SpreadLoads(times[..n], plan[..n], Min(j, n), k);
    }
  }

  /**
   The first suites go to shards 0, 1, 2, ... until every shard has one or the suites that take
   time run out; from then on the remaining suites all go to the same shard.
   */
  lemma {:induction false} FirstRound(times: seq<nat>, m: nat, i: nat)
    requires m > 0 && Descending(times) && i < |times|
    requires i < m || Positives(times) < m
    ensures Place(times, m)[i] == Min(i, Positives(times))
    decreases i
  {
    var plan, q := Place(times, m), Positives(times);
    PositivesFirst(times);
    var t, p := times[..i], plan[..i];
    forall a: nat | a < i
      ensures p[a] == Min(a, q)
    {
      FirstRound(times, m, a);
    }
    forall k | 0 <= k < m
      ensures Load(t, p, k) == if k < Min(i, q) then times[k] else 0
    {
      SpreadLoads(t, p, Min(i, q), k);
    }
    PlacedOnFirstLightest(times, m, i);
    var b, loads := FirstLightest(Loads(t, p, m)), Loads(t, p, m);
    assert loads[Min(i, q)] == 0;
    assert loads[b] <= loads[Min(i, q)];
  }

  ghost predicate SomeShardEmpty(plan: seq<nat>, m: nat) {
    exists k: nat :: k < m && k !in plan
  }

  /**
   Exactly when every shard gets a suite: there are at least as many suites as shards and at
   least one fewer than that many take any time.
   */
  lemma NoShardEmptyIff(times: seq<nat>, m: nat)
    requires m > 0 && Descending(times)
    ensures !SomeShardEmpty(Place(times, m), m) <==> |times| >= m && Positives(times) >= m - 1
  {
    var plan, q := Place(times, m), Positives(times);
    PositivesFirst(times);
    if |times| >= m && q >= m - 1 {
      forall k: nat | k < m
        ensures k in plan
      {
        FirstRound(times, m, k);
        assert plan[k] == k;
      }
    } else {
      forall i: nat | i < |plan|
        ensures plan[i] != m - 1
      {
        FirstRound(times, m, i);
      }
      assert m - 1 !in plan;
    }
  }
}
