/**
 Sharding the suite corpus: accounting against the scan-tail matrix and the skip list, the
 estimate of each suite's time, the number of shards, and the placement loops.

 Times are tenths of a second. A suite's name is its rank in the sort order of names.
 */
module ShardPlan {
  import opened Bytes
  import opened Lpt
  import opened LptPlace
  import opened Sorting

  type Name = nat

  datatype Suite = Suite(name: Name, time: nat)

  datatype Failure =
    | NoScanTailSuites
    | MatrixDrift
    | UnknownMatrixSuite
    | UnknownSkipSuite
    | CorpusBelowFloor
    | AccountingMismatch
    | EmptyShard(shard: nat)

  datatype Result = Ok(shards: seq<seq<Name>>) | Err(failure: Failure)

  const TARGET_TENTHS := 23 * 60 * 10
  const MIN_SHARD_COUNT := 17
  const CORPUS_FLOOR := 150
  const DEFAULT_TENTHS := 450

  predicate NameOrder(a: Name, b: Name) {
    a < b
  }

  /** Longest first; ties by name. */
  predicate LongerFirst(a: Suite, b: Suite) {
    a.time > b.time || (a.time == b.time && a.name < b.name)
  }

  predicate ShorterFirst(a: Suite, b: Suite) {
    a.time < b.time || (a.time == b.time && a.name < b.name)
  }

  lemma OrdersAreStrict()
    ensures StrictOrder(NameOrder) && StrictOrder(LongerFirst) && StrictOrder(ShorterFirst)
  {
    forall a: Suite, b: Suite | a != b
      ensures LongerFirst(a, b) || LongerFirst(b, a)
      ensures ShorterFirst(a, b) || ShorterFirst(b, a)
    {
    }
  }

  // ---- The corpus ------------------------------------------------------------------------

  function Without(s: seq<Name>, excluded: set<Name>): (r: seq<Name>)
    ensures forall x :: x in r <==> x in s && x !in excluded
  {
    if s == [] then []
    else if s[0] in excluded then Without(s[1..], excluded)
    else [s[0]] + Without(s[1..], excluded)
  }

  function SortNames(s: seq<Name>): seq<Name> {
    SortUnique(s, NameOrder)
  }

  function Corpus(all: seq<Name>, matrix: seq<Name>, skip: seq<Name>): seq<Name> {
    SortNames(Without(all, Elements(matrix + skip)))
  }

  // ---- Estimates -------------------------------------------------------------------------

  function Measured(corpus: seq<Name>, times: map<Name, nat>): seq<Suite> {
    if corpus == [] then []
    else (if corpus[0] in times then [Suite(corpus[0], times[corpus[0]])] else []) + Measured(corpus[1..], times)
  }

  /** The upper median of the measured times, or 45 s when nothing is measured. */
  function DefaultTime(corpus: seq<Name>, times: map<Name, nat>): nat {
    var known := SortUnique(Measured(corpus, times), ShorterFirst);
    if known == [] then DEFAULT_TENTHS else known[|known| / 2].time
  }

  function Estimate(corpus: seq<Name>, times: map<Name, nat>, default: nat): (r: seq<Suite>)
    ensures |r| == |corpus|
    ensures forall i | 0 <= i < |corpus| ::
              r[i] == Suite(corpus[i], if corpus[i] in times then times[corpus[i]] else default)
  {
    seq(|corpus|, i requires 0 <= i < |corpus| =>
      Suite(corpus[i], if corpus[i] in times then times[corpus[i]] else default))
  }

  function Times(suites: seq<Suite>): (r: seq<nat>)
    ensures |r| == |suites| && forall i | 0 <= i < |r| :: r[i] == suites[i].time
  {
    seq(|suites|, i requires 0 <= i < |suites| => suites[i].time)
  }

  function ShardCount(total: nat): nat {
    Max(MIN_SHARD_COUNT, (total + TARGET_TENTHS - 1) / TARGET_TENTHS)
  }

  // ---- Placement -------------------------------------------------------------------------

  /** The names placed on shard `k`, in the order they were placed. */
  function NamesOn(suites: seq<Suite>, plan: seq<nat>, k: nat): seq<Name>
    requires |suites| == |plan|
    decreases |suites|
  {
    if suites == [] then []
    else
      var n := |suites| - 1;
      NamesOn(suites[..n], plan[..n], k) + if plan[n] == k then [suites[n].name] else []
  }

  function Shards(suites: seq<Suite>, plan: seq<nat>, m: nat): (r: seq<seq<Name>>)
    requires |suites| == |plan|
    ensures |r| == m && forall k | 0 <= k < m :: r[k] == NamesOn(suites, plan, k)
  {
    seq(m, k requires 0 <= k < m => NamesOn(suites, plan, k))
  }

  function PlanOf(suites: seq<Suite>, m: nat): (plan: seq<nat>)
    requires m > 0
    ensures IsPlan(Times(suites), plan, m)
  {
    Place(Times(suites), m)
  }

  function LoadsOf(suites: seq<Suite>, m: nat): (r: seq<nat>)
    requires m > 0
    ensures |r| == m
  {
    Loads(Times(suites), PlanOf(suites, m), m)
  }

  function ShardsOf(suites: seq<Suite>, m: nat): (r: seq<seq<Name>>)
    requires m > 0
    ensures |r| == m
  {
    Shards(suites, PlanOf(suites, m), m)
  }

  lemma PlanNext(suites: seq<Suite>, m: nat, s: Suite)
    requires m > 0
    ensures PlanOf(suites + [s], m) == PlanOf(suites, m) + [FirstLightest(LoadsOf(suites, m))]
  {
    assert Times(suites + [s])[..|suites|] == Times(suites);
  }

  lemma LoadNext(times: seq<nat>, plan: seq<nat>, t: nat, b: nat, k: nat)
    requires |times| == |plan|
    ensures Load(times + [t], plan + [b], k) == Load(times, plan, k) + if b == k then t else 0
  {
    assert (times + [t])[..|times|] == times && (plan + [b])[..|plan|] == plan;
  }

  lemma NamesNext(suites: seq<Suite>, plan: seq<nat>, s: Suite, b: nat, k: nat)
    requires |suites| == |plan|
    ensures NamesOn(suites + [s], plan + [b], k) == NamesOn(suites, plan, k) + if b == k then [s.name] else []
  {
    assert (suites + [s])[..|suites|] == suites && (plan + [b])[..|plan|] == plan;
  }

  lemma LoadsNext(suites: seq<Suite>, m: nat, s: Suite, b: nat)
    requires m > 0 && b == FirstLightest(LoadsOf(suites, m))
    ensures LoadsOf(suites + [s], m) == LoadsOf(suites, m)[b := LoadsOf(suites, m)[b] + s.time]
  {
    PlanNext(suites, m, s);
    assert Times(suites + [s]) == Times(suites) + [s.time];
    forall k | 0 <= k < m
      ensures LoadsOf(suites + [s], m)[k] == LoadsOf(suites, m)[k] + if b == k then s.time else 0
    {
      LoadNext(Times(suites), PlanOf(suites, m), s.time, b, k);
    }
  }

  lemma ShardsNext(suites: seq<Suite>, m: nat, s: Suite, b: nat)
    requires m > 0 && b == FirstLightest(LoadsOf(suites, m))
    ensures ShardsOf(suites + [s], m) == ShardsOf(suites, m)[b := ShardsOf(suites, m)[b] + [s.name]]
  {
    PlanNext(suites, m, s);
    var r := ShardsOf(suites, m)[b := ShardsOf(suites, m)[b] + [s.name]];
    forall k | 0 <= k < m
      ensures ShardsOf(suites + [s], m)[k] == r[k]
    {
      NamesNext(suites, PlanOf(suites, m), s, b, k);
    }
  }

  /** Placing one more suite adds it to the first of the least loaded shards and to no other. */
  lemma PlaceNext(suites: seq<Suite>, m: nat, s: Suite)
    requires m > 0
    ensures
      var b := FirstLightest(LoadsOf(suites, m));
      && LoadsOf(suites + [s], m) == LoadsOf(suites, m)[b := LoadsOf(suites, m)[b] + s.time]
      && ShardsOf(suites + [s], m) == ShardsOf(suites, m)[b := ShardsOf(suites, m)[b] + [s.name]]
  {
    var b := FirstLightest(LoadsOf(suites, m));
    LoadsNext(suites, m, s, b);
    ShardsNext(suites, m, s, b);
  }

  lemma NothingPlaced(m: nat)
    requires m > 0
    ensures LoadsOf([], m) == seq(m, _ => 0) && ShardsOf([], m) == seq(m, _ => [])
  {
  }

  /** The estimate loop: the measured time, or the default. */
  method EstimateTimes(corpus: seq<Name>, times: map<Name, nat>, default: nat) returns (est: seq<Suite>, total: nat)
    ensures est == Estimate(corpus, times, default) && total == Total(Times(est))
    ensures |est| == |corpus| && forall i | 0 <= i < |corpus| ::
              est[i].name == corpus[i] && est[i].time == if corpus[i] in times then times[corpus[i]] else default
  {
    est, total := [], 0;
    for i := 0 to |corpus|
      invariant est == Estimate(corpus[..i], times, default) && total == Total(Times(est))
    {
      var t := if corpus[i] in times then times[corpus[i]] else default;
      ghost var before := est;
      est := est + [Suite(corpus[i], t)];
      assert Times(est)[..i] == Times(before);
      total := total + t;
    }
    assert corpus[..|corpus|] == corpus;
  }

  /** The scan for the first of the least loaded shards. */
  method FindLightest(loads: array<nat>) returns (best: nat)
    requires loads.Length > 0
    ensures best == FirstLightest(loads[..])
    ensures best < loads.Length
    ensures forall i | 0 <= i < loads.Length :: loads[best] <= loads[i] && (i < best ==> loads[best] < loads[i])
  {
    best := 0;
    for i := 1 to loads.Length
      invariant best < i && IsFirstLightest(loads[..i], best)
    {
      if loads[i] < loads[best] {
        best := i;
      }
    }
    assert loads[..loads.Length] == loads[..];
  }

  method AddTo(loads: array<nat>, shards: array<seq<Name>>, best: nat, s: Suite)
    requires best < loads.Length == shards.Length
    modifies loads, shards
    ensures loads[..] == old(loads[..])[best := old(loads[best]) + s.time]
    ensures shards[..] == old(shards[..])[best := old(shards[best]) + [s.name]]
  {
    shards[best] := shards[best] + [s.name];
    loads[best] := loads[best] + s.time;
  }

  /** One turn of the outer placement loop. */
  method PlaceOne(loads: array<nat>, shards: array<seq<Name>>, s: Suite, ghost placed: seq<Suite>)
    requires loads.Length == shards.Length > 0
    requires loads[..] == LoadsOf(placed, loads.Length) && shards[..] == ShardsOf(placed, loads.Length)
    modifies loads, shards
    ensures loads[..] == LoadsOf(placed + [s], loads.Length) && shards[..] == ShardsOf(placed + [s], loads.Length)
  {
    var best := FindLightest(loads);
    PlaceNext(placed, loads.Length, s);
    AddTo(loads, shards, best, s);
  }

  /** The placement loops: each suite in turn to the first of the least loaded shards. */
  method PlaceSuites(ordered: seq<Suite>, shardCount: nat) returns (loads: array<nat>, shards: array<seq<Name>>)
    requires shardCount > 0
    ensures fresh(loads) && fresh(shards)
    ensures loads[..] == LoadsOf(ordered, shardCount)
    ensures shards[..] == ShardsOf(ordered, shardCount)
  {
    loads := new nat[shardCount](_ => 0);
    shards := new seq<Name>[shardCount](_ => []);
    NothingPlaced(shardCount);
    for j := 0 to |ordered|
      invariant loads[..] == LoadsOf(ordered[..j], shardCount)
      invariant shards[..] == ShardsOf(ordered[..j], shardCount)
    {
      assert ordered[..j + 1] == ordered[..j] + [ordered[j]];
      PlaceOne(loads, shards, ordered[j], ordered[..j]);
    }
    assert ordered[..|ordered|] == ordered;
  }

  /** Each shard runs its suites in name order. */
  method SortShards(shards: array<seq<Name>>)
    modifies shards
    ensures forall k | 0 <= k < shards.Length :: shards[k] == SortNames(old(shards[k]))
  {
    for i := 0 to shards.Length
      invariant forall k | 0 <= k < i :: shards[k] == SortNames(old(shards[k]))
      invariant forall k | i <= k < shards.Length :: shards[k] == old(shards[k])
    {
      shards[i] := SortNames(shards[i]);
    }
  }

  // ---- The whole derivation --------------------------------------------------------------

  function Ordered(corpus: seq<Name>, times: map<Name, nat>): seq<Suite> {
    SortUnique(Estimate(corpus, times, DefaultTime(corpus, times)), LongerFirst)
  }

  function CorpusTotal(corpus: seq<Name>, times: map<Name, nat>): nat {
    Total(Times(Estimate(corpus, times, DefaultTime(corpus, times))))
  }

  function CorpusShards(corpus: seq<Name>, times: map<Name, nat>): seq<seq<Name>> {
    var m := ShardCount(CorpusTotal(corpus, times));
    var placed := ShardsOf(Ordered(corpus, times), m);
    seq(m, k requires 0 <= k < m => SortNames(placed[k]))
  }

  function FirstEmpty(shards: seq<seq<Name>>): Option<nat>
    decreases |shards|
  {
    if shards == [] then None
    else
      var n := |shards| - 1;
      match FirstEmpty(shards[..n])
      case Some(k) => Some(k)
      case None => if shards[n] == [] then Some(n) else None
  }

  function Derivation(
    all: seq<Name>, matrix: seq<Name>, scanTail: seq<Name>, skip: seq<Name>, times: map<Name, nat>): Result
  {
    var names := SortNames(all);
    var corpus := Corpus(names, matrix, skip);
    if scanTail == [] then Err(NoScanTailSuites)
    else if Elements(matrix) != Elements(scanTail) then Err(MatrixDrift)
    else if !(Elements(matrix) <= Elements(names)) then Err(UnknownMatrixSuite)
    else if !(Elements(skip) <= Elements(names)) then Err(UnknownSkipSuite)
    else if |corpus| < CORPUS_FLOOR then Err(CorpusBelowFloor)
    else if |matrix| + |skip| + |corpus| != |names| then Err(AccountingMismatch)
    else
      var shards := CorpusShards(corpus, times);
      match FirstEmpty(shards)
      case Some(k) => Err(EmptyShard(k))
      case None => Ok(shards)
  }

  method Derive(all: seq<Name>, matrix: seq<Name>, scanTail: seq<Name>, skip: seq<Name>, times: map<Name, nat>)
    returns (r: Result)
    ensures r == Derivation(all, matrix, scanTail, skip, times)
  {
    var names := SortNames(all);
    if scanTail == [] {
      return Err(NoScanTailSuites);
    }
    if Elements(matrix) != Elements(scanTail) {
      return Err(MatrixDrift);
    }
    for i := 0 to |matrix|
      invariant Elements(matrix[..i]) <= Elements(names)
    {
      if matrix[i] !in names {
        assert matrix[i] in Elements(matrix);
        return Err(UnknownMatrixSuite);
      }
      assert Elements(matrix[..i + 1]) == Elements(matrix[..i]) + {matrix[i]};
    }
    assert matrix[..|matrix|] == matrix;
    for i := 0 to |skip|
      invariant Elements(skip[..i]) <= Elements(names)
    {
      if skip[i] !in names {
        assert skip[i] in Elements(skip);
        return Err(UnknownSkipSuite);
      }
      assert Elements(skip[..i + 1]) == Elements(skip[..i]) + {skip[i]};
    }
    assert skip[..|skip|] == skip;
    var corpus := Corpus(names, matrix, skip);
    if |corpus| < CORPUS_FLOOR {
      return Err(CorpusBelowFloor);
    }
    if |matrix| + |skip| + |corpus| != |names| {
      return Err(AccountingMismatch);
    }
    var est, total := EstimateTimes(corpus, times, DefaultTime(corpus, times));
    var shardCount := ShardCount(total);
    var loads, shards := PlaceSuites(SortUnique(est, LongerFirst), shardCount);
    SortShards(shards);
    assert shards[..] == CorpusShards(corpus, times);
    for i := 0 to shardCount
      invariant FirstEmpty(shards[..i]) == None
    {
      assert shards[..i + 1][..i] == shards[..i];
      if shards[i] == [] {
        FirstEmptyStays(shards[..], i);
        return Err(EmptyShard(i));
      }
    }
    assert shards[..shardCount] == shards[..];
    return Ok(shards[..]);
  }

  lemma {:induction false} FirstEmptyStays(shards: seq<seq<Name>>, i: nat)
    requires i < |shards| && shards[i] == [] && FirstEmpty(shards[..i]) == None
    ensures FirstEmpty(shards) == Some(i)
    decreases |shards|
  {
    var n := |shards| - 1;
    if i < n {
      assert shards[..n][..i] == shards[..i];
      FirstEmptyStays(shards[..n], i);
    }
  }
}
