/**
 What the derived shards promise: every registered suite runs exactly once, the order suites
 were registered in does not matter, no shard is far above the target, and no other split of the
 corpus over as many shards does better than 3/4 of the heaviest shard.
 */
module ShardTheorems {
  import opened Bytes
  import opened Lpt
  import opened LptPlace
  import opened Sorting
  import opened ShardPlan

  // ---- Accounting ------------------------------------------------------------------------

  lemma CorpusElements(names: seq<Name>, matrix: seq<Name>, skip: seq<Name>)
    ensures Distinct(Corpus(names, matrix, skip))
    ensures Elements(Corpus(names, matrix, skip)) == Elements(names) - Elements(matrix + skip)
  {
    OrdersAreStrict();
    var kept := Without(names, Elements(matrix + skip));
    SortUniqueIsSorted(kept, NameOrder);
    SortedIsDistinct(SortNames(kept), NameOrder);
  }

  /**
   The accounting check passes exactly when the matrix and the skip list name no suite twice,
   neither within one list nor across the two.
   */
  lemma AccountingIff(all: seq<Name>, matrix: seq<Name>, skip: seq<Name>)
    requires Elements(matrix) <= Elements(SortNames(all)) && Elements(skip) <= Elements(SortNames(all))
    ensures
      var names := SortNames(all);
      |matrix| + |skip| + |Corpus(names, matrix, skip)| == |names| <==> Distinct(matrix + skip)
  {
    OrdersAreStrict();
    var names := SortNames(all);
    SortUniqueIsSorted(all, NameOrder);
    SortedIsDistinct(names, NameOrder);
    CorpusElements(names, matrix, skip);
    DistinctCount(names);
    DistinctCount(Corpus(names, matrix, skip));
    DistinctCount(matrix + skip);
    assert Elements(matrix + skip) == Elements(matrix) + Elements(skip);
  }

  /** The suites in neither list: what there is to shard. */
  function ToShard(all: seq<Name>, matrix: seq<Name>, skip: seq<Name>): set<Name> {
    Elements(all) - Elements(matrix) - Elements(skip)
  }

  /** Both lists name registered suites only, and no suite twice, within a list or across the two. */
  predicate Consistent(all: seq<Name>, matrix: seq<Name>, skip: seq<Name>) {
    Elements(matrix) <= Elements(all) && Elements(skip) <= Elements(all) && Distinct(matrix + skip)
  }

  /** The corpus in name order. */
  predicate ListsInOrder(corpus: seq<Name>, suites: set<Name>) {
    Elements(corpus) == suites && forall i, j | 0 <= i < j < |corpus| :: corpus[i] < corpus[j]
  }

  lemma CorpusIsToShard(all: seq<Name>, matrix: seq<Name>, skip: seq<Name>)
    ensures
      var corpus := Corpus(SortNames(all), matrix, skip);
      && ListsInOrder(corpus, ToShard(all, matrix, skip)) && Distinct(corpus)
      && |corpus| == |ToShard(all, matrix, skip)| && Elements(SortNames(all)) == Elements(all)
  {
    OrdersAreStrict();
    var names := SortNames(all);
    var corpus := Corpus(names, matrix, skip);
    SortUniqueIsSorted(all, NameOrder);
    assert forall x :: x in Elements(names) <==> x in Elements(all);
    CorpusElements(names, matrix, skip);
    assert Elements(matrix + skip) == Elements(matrix) + Elements(skip);
    SortUniqueIsSorted(Without(names, Elements(matrix + skip)), NameOrder);
    forall i, j | 0 <= i < j < |corpus|
      ensures corpus[i] < corpus[j]
    {
      assert NameOrder(corpus[i], corpus[j]);
    }
    DistinctCount(corpus);
  }

  /** There are enough suites, and enough of them with a time, to leave no shard empty. */
  ghost predicate FillsShards(suites: set<Name>, times: map<Name, nat>) {
    forall corpus: seq<Name> | ListsInOrder(corpus, suites) ::
      var m := ShardCount(CorpusTotal(corpus, times));
      |suites| >= m && TimedSuites(corpus, times) >= m - 1
  }

  lemma ListedOnce(a: seq<Name>, b: seq<Name>, suites: set<Name>)
    requires ListsInOrder(a, suites) && ListsInOrder(b, suites)
    ensures a == b
  {
    OrdersAreStrict();
    forall i, j | 0 <= i < j < |a|
      ensures NameOrder(a[i], a[j])
    {
    }
    forall i, j | 0 <= i < j < |b|
      ensures NameOrder(b[i], b[j])
    {
    }
    forall x
      ensures x in a <==> x in b
    {
      assert x in a <==> x in Elements(a);
      assert x in b <==> x in Elements(b);
    }
    SortedIsUnique(a, b, NameOrder);
  }

  lemma FillsShardsIff(corpus: seq<Name>, suites: set<Name>, times: map<Name, nat>)
    requires ListsInOrder(corpus, suites) && Distinct(corpus) && |corpus| == |suites|
    ensures FillsShards(suites, times) <==> FirstEmpty(CorpusShards(corpus, times)) == None
  {
    EmptyShardIff(corpus, times);
    forall other | ListsInOrder(other, suites)
      ensures other == corpus
    {
      ListedOnce(other, corpus, suites);
    }
  }

  /**
   The derivation succeeds exactly when the scan-tail job lists suites and the matrix the same
   ones, both lists are consistent with the registered suites, at least 150 suites remain to shard,
   and they fill the shards. It then gives the shards of the remaining suites.
   */
  lemma {:induction false} DeriveSucceedsIff(
    all: seq<Name>, matrix: seq<Name>, scanTail: seq<Name>, skip: seq<Name>, times: map<Name, nat>)
    ensures
      var r, suites := Derivation(all, matrix, scanTail, skip, times), ToShard(all, matrix, skip);
      && (r.Ok? <==>
            && scanTail != [] && Elements(matrix) == Elements(scanTail)
            && Consistent(all, matrix, skip) && |suites| >= 150 && FillsShards(suites, times))
      && (r.Ok? ==> forall corpus | ListsInOrder(corpus, suites) :: r.shards == CorpusShards(corpus, times))
  {
    var suites, corpus := ToShard(all, matrix, skip), Corpus(SortNames(all), matrix, skip);
    CorpusIsToShard(all, matrix, skip);
    FillsShardsIff(corpus, suites, times);
    if Elements(matrix) <= Elements(all) && Elements(skip) <= Elements(all) {
      AccountingIff(all, matrix, skip);
    }
    forall other | ListsInOrder(other, suites)
      ensures other == corpus
    {
      ListedOnce(other, corpus, suites);
    }
  }

  /** Otherwise the failure names the first thing that is wrong, in this order. */
  lemma {:induction false} DeriveFails(
    all: seq<Name>, matrix: seq<Name>, scanTail: seq<Name>, skip: seq<Name>, times: map<Name, nat>)
    ensures
      var r, suites := Derivation(all, matrix, scanTail, skip, times), ToShard(all, matrix, skip);
      var listed := scanTail != [] && Elements(matrix) == Elements(scanTail);
      var known := listed && Elements(matrix) <= Elements(all) && Elements(skip) <= Elements(all);
      && (r == Err(NoScanTailSuites) <==> scanTail == [])
      && (r == Err(MatrixDrift) <==> scanTail != [] && Elements(matrix) != Elements(scanTail))
      && (r == Err(UnknownMatrixSuite) <==> listed && !(Elements(matrix) <= Elements(all)))
      && (r == Err(UnknownSkipSuite) <==>
            listed && Elements(matrix) <= Elements(all) && !(Elements(skip) <= Elements(all)))
      && (r == Err(CorpusBelowFloor) <==> known && |suites| < 150)
      && (r == Err(AccountingMismatch) <==> known && |suites| >= 150 && !Distinct(matrix + skip))
      && ((exists k :: r == Err(EmptyShard(k))) <==>
            known && |suites| >= 150 && Distinct(matrix + skip) && !FillsShards(suites, times))
  {
    var suites, corpus := ToShard(all, matrix, skip), Corpus(SortNames(all), matrix, skip);
    CorpusIsToShard(all, matrix, skip);
    FillsShardsIff(corpus, suites, times);
    if Elements(matrix) <= Elements(all) && Elements(skip) <= Elements(all) {
      AccountingIff(all, matrix, skip);
    }
    if FirstEmpty(CorpusShards(corpus, times)).Some? {
      assert Err(EmptyShard(FirstEmpty(CorpusShards(corpus, times)).value)).Err?;
    }
  }

  /** The shard an empty-shard failure names is the first empty one. */
  lemma {:induction false} EmptyShardIsFirst(
    all: seq<Name>, matrix: seq<Name>, scanTail: seq<Name>, skip: seq<Name>, times: map<Name, nat>, k: nat)
    requires Derivation(all, matrix, scanTail, skip, times) == Err(EmptyShard(k))
    ensures
      var shards := CorpusShards(Corpus(SortNames(all), matrix, skip), times);
      k < |shards| && shards[k] == [] && forall i | 0 <= i < k :: shards[i] != []
  {
    FirstEmptyIs(CorpusShards(Corpus(SortNames(all), matrix, skip), times));
  }

  lemma {:induction false} FirstEmptyIs(shards: seq<seq<Name>>)
    ensures
      FirstEmpty(shards).Some? ==>
        var k := FirstEmpty(shards).value;
        k < |shards| && shards[k] == [] && forall i | 0 <= i < k :: shards[i] != []
    decreases |shards|
  {
    if shards != [] {
      FirstEmptyIs(shards[..|shards| - 1]);
      FirstEmptyIff(shards[..|shards| - 1]);
    }
  }

  /** The number of shards is the least, from 17 up, that can hold the total at 23 minutes each. */
  lemma ShardCountIsLeast(total: nat)
    ensures
      var m := ShardCount(total);
      m >= 17 && total <= m * 13800 && forall k: nat :: k >= 17 && total <= k * 13800 ==> m <= k
  {
  }

  /** Neither the order nor the repetitions of the registered names matter, nor the order of the lists. */
  lemma ListingOrderIsIrrelevant(
    all: seq<Name>, matrix: seq<Name>, scanTail: seq<Name>, skip: seq<Name>,
    all': seq<Name>, matrix': seq<Name>, scanTail': seq<Name>, skip': seq<Name>, times: map<Name, nat>)
    requires Elements(all) == Elements(all') && Elements(scanTail) == Elements(scanTail')
    requires Elements(matrix) == Elements(matrix') && |matrix| == |matrix'|
    requires Elements(skip) == Elements(skip') && |skip| == |skip'|
    ensures Derivation(all, matrix, scanTail, skip, times) == Derivation(all', matrix', scanTail', skip', times)
  {
    OrdersAreStrict();
    forall x
      ensures x in all <==> x in all'
    {
      assert x in Elements(all) <==> x in Elements(all');
    }
    SortUniqueForgetsOrder(all, all', NameOrder);
    assert Elements(matrix + skip) == Elements(matrix) + Elements(skip);
    assert Elements(matrix' + skip') == Elements(matrix') + Elements(skip');
    assert scanTail == [] <==> Elements(scanTail) == {} by {
      assert scanTail != [] ==> scanTail[0] in Elements(scanTail);
    }
    assert scanTail' == [] <==> Elements(scanTail') == {} by {
      assert scanTail' != [] ==> scanTail'[0] in Elements(scanTail');
    }
  }

  // ---- Partition -------------------------------------------------------------------------

  lemma {:induction false} OnShard(suites: seq<Suite>, plan: seq<nat>, k: nat, x: Name)
    requires |suites| == |plan|
    ensures x in NamesOn(suites, plan, k) <==> exists i :: 0 <= i < |suites| && suites[i].name == x && plan[i] == k
    decreases |suites|
  {
    if suites != [] {
      var n := |suites| - 1;
      OnShard(suites[..n], plan[..n], k, x);
      if i :| 0 <= i < n && suites[..n][i].name == x && plan[..n][i] == k {
        assert suites[i].name == x && plan[i] == k;
      }
      if i :| 0 <= i < n && suites[i].name == x && plan[i] == k {
        assert suites[..n][i].name == x && plan[..n][i] == k;
      }
    }
  }

  predicate DistinctNames(suites: seq<Suite>) {
    forall i, j | 0 <= i < j < |suites| :: suites[i].name != suites[j].name
  }

  /** The ordered suites are the corpus, each name once, with its estimate. */
  lemma OrderedIsCorpus(corpus: seq<Name>, times: map<Name, nat>)
    requires Distinct(corpus)
    ensures
      var ordered := Ordered(corpus, times);
      && DistinctNames(ordered) && Descending(Times(ordered))
      && (forall s :: s in ordered <==> s in Estimate(corpus, times, DefaultTime(corpus, times)))
      && forall x :: x in corpus <==> exists i :: 0 <= i < |ordered| && ordered[i].name == x
  {
    OrdersAreStrict();
    var est, ordered := Estimate(corpus, times, DefaultTime(corpus, times)), Ordered(corpus, times);
    SortUniqueIsSorted(est, LongerFirst);
    SortedIsDistinct(ordered, LongerFirst);
    forall i, j | 0 <= i < j < |ordered|
      ensures ordered[i].name != ordered[j].name
    {
      assert ordered[i] in est && ordered[j] in est;
    }
    forall x
      ensures x in corpus <==> exists i :: 0 <= i < |ordered| && ordered[i].name == x
    {
      if x in corpus {
        var c :| 0 <= c < |corpus| && corpus[c] == x;
        assert est[c] in ordered;
      }
      if i :| 0 <= i < |ordered| && ordered[i].name == x {
        assert ordered[i] in est;
      }
    }
  }

  lemma ShardMembers(corpus: seq<Name>, times: map<Name, nat>, k: nat, x: Name)
    requires k < ShardCount(CorpusTotal(corpus, times))
    ensures
      var ordered := Ordered(corpus, times);
      var plan := PlanOf(ordered, ShardCount(CorpusTotal(corpus, times)));
      && Sorted(CorpusShards(corpus, times)[k], NameOrder)
      && (x in CorpusShards(corpus, times)[k] <==>
            exists i :: 0 <= i < |ordered| && ordered[i].name == x && plan[i] == k)
  {
    OrdersAreStrict();
    var ordered := Ordered(corpus, times);
    var plan := PlanOf(ordered, ShardCount(CorpusTotal(corpus, times)));
    OnShard(ordered, plan, k, x);
    SortUniqueIsSorted(NamesOn(ordered, plan, k), NameOrder);
  }

  /** Longest first, ties by name; each shard in name order. */
  lemma PlacementOrder(corpus: seq<Name>, times: map<Name, nat>)
    requires Distinct(corpus)
    ensures
      var ordered := Ordered(corpus, times);
      forall i, j | 0 <= i < j < |ordered| ::
        ordered[i].time > ordered[j].time || (ordered[i].time == ordered[j].time && ordered[i].name < ordered[j].name)
    ensures forall k | 0 <= k < |CorpusShards(corpus, times)| ::
              forall i, j | 0 <= i < j < |CorpusShards(corpus, times)[k]| ::
                CorpusShards(corpus, times)[k][i] < CorpusShards(corpus, times)[k][j]
  {
    OrdersAreStrict();
    var ordered := Ordered(corpus, times);
    SortUniqueIsSorted(Estimate(corpus, times, DefaultTime(corpus, times)), LongerFirst);
    forall i, j | 0 <= i < j < |ordered|
      ensures LongerFirst(ordered[i], ordered[j])
    {
    }
    forall k: nat, i, j | k < |CorpusShards(corpus, times)| && 0 <= i < j < |CorpusShards(corpus, times)[k]|
      ensures CorpusShards(corpus, times)[k][i] < CorpusShards(corpus, times)[k][j]
    {
      ShardMembers(corpus, times, k, 0);
      assert NameOrder(CorpusShards(corpus, times)[k][i], CorpusShards(corpus, times)[k][j]);
    }
  }

  /** Every suite of the corpus is on exactly one shard, and every suite on a shard is of the corpus. */
  lemma CorpusIsPartitioned(corpus: seq<Name>, times: map<Name, nat>, x: Name)
    requires Distinct(corpus)
    ensures
      var shards := CorpusShards(corpus, times);
      && (x in corpus ==> exists k :: 0 <= k < |shards| && x in shards[k])
      && (forall k | 0 <= k < |shards| && x in shards[k] :: x in corpus)
      && forall k, k' | 0 <= k < |shards| && 0 <= k' < |shards| && x in shards[k] && x in shards[k'] :: k == k'
  {
    var m := ShardCount(CorpusTotal(corpus, times));
    var ordered, shards := Ordered(corpus, times), CorpusShards(corpus, times);
    var plan := PlanOf(ordered, m);
    OrderedIsCorpus(corpus, times);
    forall k: nat | k < m
      ensures x in shards[k] <==> exists i :: 0 <= i < |ordered| && ordered[i].name == x && plan[i] == k
    {
      ShardMembers(corpus, times, k, x);
    }
    if x in corpus {
      var i :| 0 <= i < |ordered| && ordered[i].name == x;
      assert x in shards[plan[i]];
    }
  }

  /**
   Every registered suite lands in exactly one of the scan-tail matrix, the skip list and one
   shard; nothing else is on a shard, and no shard is empty or lists a suite twice.
   */
  lemma EverySuiteRunsOnce(
    all: seq<Name>, matrix: seq<Name>, scanTail: seq<Name>, skip: seq<Name>, times: map<Name, nat>, x: Name)
    requires Derivation(all, matrix, scanTail, skip, times).Ok?
    ensures
      var shards := Derivation(all, matrix, scanTail, skip, times).shards;
      var onShard := exists k :: 0 <= k < |shards| && x in shards[k];
      && (x in all <==> x in matrix || x in skip || onShard)
      && !(x in matrix && x in skip) && !(x in matrix && onShard) && !(x in skip && onShard)
      && (forall k, k' | 0 <= k < |shards| && 0 <= k' < |shards| && x in shards[k] && x in shards[k'] :: k == k')
      && forall k | 0 <= k < |shards| :: shards[k] != [] && Distinct(shards[k])
  {
    OrdersAreStrict();
    var names := SortNames(all);
    var corpus := Corpus(names, matrix, skip);
    var shards := CorpusShards(corpus, times);
    SortUniqueIsSorted(all, NameOrder);
    CorpusElements(names, matrix, skip);
    AccountingIff(all, matrix, skip);
    CorpusIsPartitioned(corpus, times, x);
    assert x in corpus <==> x in Elements(corpus);
    assert x in matrix + skip <==> x in matrix || x in skip;
    assert x in matrix ==> x in Elements(matrix);
    assert x in skip ==> x in Elements(skip);
    if x in matrix {
      DistinctAcross(matrix, skip, x);
    }
    FirstEmptyIff(shards);
    forall k: nat | k < |shards|
      ensures Distinct(shards[k])
    {
      ShardMembers(corpus, times, k, x);
    }
  }

  lemma DistinctAcross(a: seq<Name>, b: seq<Name>, x: Name)
    requires Distinct(a + b) && x in a
    ensures x !in b
  {
    var i :| 0 <= i < |a| && a[i] == x;
    forall j | 0 <= j < |b|
      ensures b[j] != x
    {
      assert (a + b)[i] != (a + b)[|a| + j];
    }
  }

  lemma {:induction false} FirstEmptyIff(shards: seq<seq<Name>>)
    ensures FirstEmpty(shards) == None <==> forall k | 0 <= k < |shards| :: shards[k] != []
    ensures FirstEmpty(shards).Some? ==> FirstEmpty(shards).value < |shards| && shards[FirstEmpty(shards).value] == []
    decreases |shards|
  {
    if shards != [] {
      FirstEmptyIff(shards[..|shards| - 1]);
    }
  }

  // ---- Loads -----------------------------------------------------------------------------

  function SumBy<T>(s: seq<T>, f: T -> nat): nat {
    if s == [] then 0 else f(s[0]) + SumBy(s[1..], f)
  }

  lemma {:induction false} SumByAppend<T>(s: seq<T>, x: T, f: T -> nat)
    ensures SumBy(s + [x], f) == SumBy(s, f) + f(x)
  {
    if s == [] {
      assert s + [x] == [x];
    } else {
      assert (s + [x])[1..] == s[1..] + [x];
      SumByAppend(s[1..], x, f);
    }
  }

  lemma {:induction false} SumByInsert<T>(x: T, s: seq<T>, before: (T, T) -> bool, f: T -> nat)
    requires x !in s
    ensures SumBy(Insert(x, s, before), f) == f(x) + SumBy(s, f)
  {
    if s != [] && !before(x, s[0]) {
      SumByInsert(x, s[1..], before, f);
      var r := [s[0]] + Insert(x, s[1..], before);
      assert r[1..] == Insert(x, s[1..], before);
    } else {
      assert ([x] + s)[1..] == s;
    }
  }

  /** Sorting distinct elements keeps their sum. */
  lemma {:induction false} SumBySorted<T(!new)>(s: seq<T>, before: (T, T) -> bool, f: T -> nat)
    requires Distinct(s) && StrictOrder(before)
    ensures SumBy(SortUnique(s, before), f) == SumBy(s, f)
  {
    if s != [] {
      SumBySorted(s[1..], before, f);
      SortUniqueIsSorted(s[1..], before);
      assert s[0] !in s[1..];
      SumByInsert(s[0], SortUnique(s[1..], before), before, f);
    }
  }

  lemma {:induction false} TotalIsSum(suites: seq<Suite>)
    ensures Total(Times(suites)) == SumBy(suites, (s: Suite) => s.time)
    decreases |suites|
  {
    if suites != [] {
      var n := |suites| - 1;
      TotalIsSum(suites[..n]);
      SumByAppend(suites[..n], suites[n], (s: Suite) => s.time);
      assert suites == suites[..n] + [suites[n]];
      assert Times(suites)[..n] == Times(suites[..n]);
    }
  }

  /** Sorting the estimates keeps their total: the shard count is derived from the placed times. */
  lemma OrderedTotal(corpus: seq<Name>, times: map<Name, nat>)
    requires Distinct(corpus)
    ensures Total(Times(Ordered(corpus, times))) == CorpusTotal(corpus, times)
  {
    OrdersAreStrict();
    var est := Estimate(corpus, times, DefaultTime(corpus, times));
    TotalIsSum(est);
    TotalIsSum(Ordered(corpus, times));
    assert Distinct(est);
    SumBySorted(est, LongerFirst, (s: Suite) => s.time);
  }

  /** The estimated time of one suite. */
  function TimeOf(corpus: seq<Name>, times: map<Name, nat>): (time: Name -> nat)
    ensures forall x :: time(x) == if x in times then times[x] else DefaultTime(corpus, times)
  {
    var default := DefaultTime(corpus, times);
    (x: Name) => if x in times then times[x] else default
  }

  lemma {:induction false} LoadIsSum(suites: seq<Suite>, plan: seq<nat>, k: nat, f: Name -> nat)
    requires |suites| == |plan| && forall i | 0 <= i < |suites| :: suites[i].time == f(suites[i].name)
    ensures SumBy(NamesOn(suites, plan, k), f) == Load(Times(suites), plan, k)
    decreases |suites|
  {
    if suites != [] {
      var n := |suites| - 1;
      LoadIsSum(suites[..n], plan[..n], k, f);
      assert Times(suites)[..n] == Times(suites[..n]);
      SumByAppend(NamesOn(suites[..n], plan[..n], k), suites[n].name, f);
      assert NamesOn(suites[..n], plan[..n], k) + [] == NamesOn(suites[..n], plan[..n], k);
    }
  }

  lemma {:induction false} NamesOnDistinct(suites: seq<Suite>, plan: seq<nat>, k: nat)
    requires |suites| == |plan| && DistinctNames(suites)
    ensures Distinct(NamesOn(suites, plan, k))
    decreases |suites|
  {
    if suites != [] {
      var n := |suites| - 1;
      NamesOnDistinct(suites[..n], plan[..n], k);
      OnShard(suites[..n], plan[..n], k, suites[n].name);
    }
  }

  /** The load the placement keeps for a shard is the estimated time of the suites on it. */
  lemma LoadIsShardTime(corpus: seq<Name>, times: map<Name, nat>, k: nat)
    requires Distinct(corpus) && k < ShardCount(CorpusTotal(corpus, times))
    ensures
      var m, ordered := ShardCount(CorpusTotal(corpus, times)), Ordered(corpus, times);
      SumBy(CorpusShards(corpus, times)[k], TimeOf(corpus, times)) == Load(Times(ordered), PlanOf(ordered, m), k)
  {
    OrdersAreStrict();
    var m, ordered := ShardCount(CorpusTotal(corpus, times)), Ordered(corpus, times);
    var plan, f := PlanOf(ordered, m), TimeOf(corpus, times);
    OrderedIsCorpus(corpus, times);
    forall i | 0 <= i < |ordered|
      ensures ordered[i].time == f(ordered[i].name)
    {
      assert ordered[i] in Estimate(corpus, times, DefaultTime(corpus, times));
    }
    LoadIsSum(ordered, plan, k, f);
    NamesOnDistinct(ordered, plan, k);
    SumBySorted(NamesOn(ordered, plan, k), NameOrder, f);
  }

  /** With the derived shard count, no shard exceeds the 23-minute target by more than one suite. */
  lemma {:induction false} TargetKept(corpus: seq<Name>, times: map<Name, nat>, k: nat, longest: nat)
    requires Distinct(corpus) && k < |CorpusShards(corpus, times)|
    requires forall x | x in corpus :: TimeOf(corpus, times)(x) <= longest
    ensures
      var m, load := |CorpusShards(corpus, times)|, SumBy(CorpusShards(corpus, times)[k], TimeOf(corpus, times));
      && m * load <= CorpusTotal(corpus, times) + (m - 1) * longest
      && load <= 13800 + longest
  {
    var total := CorpusTotal(corpus, times);
    var m, ordered := ShardCount(total), Ordered(corpus, times);
    OrderedIsCorpus(corpus, times);
    OrderedTotal(corpus, times);
    LoadIsShardTime(corpus, times, k);
    forall i | 0 <= i < |ordered|
      ensures Times(ordered)[i] <= longest
    {
      assert ordered[i] in Estimate(corpus, times, DefaultTime(corpus, times));
      assert ordered[i].time == TimeOf(corpus, times)(ordered[i].name);
    }
    PlaceIsLeastLoaded(Times(ordered), m);
    LoadBound(Times(ordered), PlanOf(ordered, m), m, k, longest);
    TargetArithmetic(m, total, longest, Load(Times(ordered), PlanOf(ordered, m), k));
  }

  lemma TargetArithmetic(m: nat, total: nat, longest: nat, load: nat)
    requires m == ShardCount(total) && m * load <= total + (m - 1) * longest
    ensures load <= TARGET_TENTHS + longest
  {
    assert total <= m * TARGET_TENTHS;
    assert m * (TARGET_TENTHS + longest) == m * TARGET_TENTHS + (m - 1) * longest + longest;
    Cancel(m, load, TARGET_TENTHS + longest);
  }

  lemma Cancel(m: nat, a: nat, b: nat)
    requires m > 0 && m * a <= m * b
    ensures a <= b
  {
  }

  function ShardFor(assign: Name -> nat, s: Suite): nat {
    assign(s.name)
  }

  function TimeOn(assign: Name -> nat, k: nat, s: Suite): nat {
    if assign(s.name) == k then s.time else 0
  }

  /** The time of shard `k` when suite x runs on shard `assign(x)`. */
  function AssignedTime(suites: seq<Suite>, assign: Name -> nat, k: nat): nat {
    SumBy(suites, (s: Suite) => TimeOn(assign, k, s))
  }

  function AssignedPlan(suites: seq<Suite>, assign: Name -> nat): (plan: seq<nat>)
    ensures |plan| == |suites| && forall i | 0 <= i < |plan| :: plan[i] == assign(suites[i].name)
  {
    seq(|suites|, i requires 0 <= i < |suites| => ShardFor(assign, suites[i]))
  }

  lemma {:induction false} AssignedLoad(suites: seq<Suite>, assign: Name -> nat, k: nat)
    ensures Load(Times(suites), AssignedPlan(suites, assign), k) == AssignedTime(suites, assign, k)
    decreases |suites|
  {
    if suites != [] {
      var n := |suites| - 1;
      AssignedLoad(suites[..n], assign, k);
      SumByAppend(suites[..n], suites[n], (s: Suite) => TimeOn(assign, k, s));
      assert suites == suites[..n] + [suites[n]];
      assert Times(suites)[..n] == Times(suites[..n]);
      assert AssignedPlan(suites, assign)[..n] == AssignedPlan(suites[..n], assign);
    }
  }

  /** Sorting the estimates changes no shard's time under an assignment. */
  lemma AssignedTimeOrdered(corpus: seq<Name>, times: map<Name, nat>, assign: Name -> nat, k: nat)
    requires Distinct(corpus)
    ensures
      var est, ordered := Estimate(corpus, times, DefaultTime(corpus, times)), Ordered(corpus, times);
      Load(Times(ordered), AssignedPlan(ordered, assign), k) == AssignedTime(est, assign, k)
  {
    OrdersAreStrict();
    var est := Estimate(corpus, times, DefaultTime(corpus, times));
    AssignedLoad(Ordered(corpus, times), assign, k);
    assert Distinct(est);
    SumBySorted(est, LongerFirst, (s: Suite) => TimeOn(assign, k, s));
  }

  lemma AssignedIsPlan(corpus: seq<Name>, times: map<Name, nat>, assign: Name -> nat, m: nat)
    requires Distinct(corpus) && forall x | x in corpus :: assign(x) < m
    ensures var ordered := Ordered(corpus, times); IsPlan(Times(ordered), AssignedPlan(ordered, assign), m)
  {
    OrderedIsCorpus(corpus, times);
    var ordered := Ordered(corpus, times);
    forall i | 0 <= i < |ordered|
      ensures AssignedPlan(ordered, assign)[i] < m
    {
      assert ordered[i].name in corpus;
    }
  }

  lemma BoundArithmetic(m: nat, load: nat, most: nat, other: nat, bound: nat)
    requires m > 0 && load <= most && other <= bound && 3 * m * most <= (4 * m - 1) * other
    ensures 3 * m * load <= (4 * m - 1) * bound
  {
    Monotone(4 * m - 1, other, bound);
    Monotone(3 * m, load, most);
  }

  /**
   Against any other assignment of the corpus to the same number of shards, with `bound` its
   heaviest shard: 3m times any derived shard's time is at most (4m - 1) times `bound`.
   */
  lemma WithinFourThirds(corpus: seq<Name>, times: map<Name, nat>, assign: Name -> nat, bound: nat, k: nat)
    requires Distinct(corpus) && k < |CorpusShards(corpus, times)|
    requires forall x | x in corpus :: assign(x) < |CorpusShards(corpus, times)|
    requires
      var est := Estimate(corpus, times, DefaultTime(corpus, times));
      forall i: nat | i < |CorpusShards(corpus, times)| :: AssignedTime(est, assign, i) <= bound
    ensures
      var m := |CorpusShards(corpus, times)|;
      3 * m * SumBy(CorpusShards(corpus, times)[k], TimeOf(corpus, times)) <= (4 * m - 1) * bound
  {
    var m, ordered := ShardCount(CorpusTotal(corpus, times)), Ordered(corpus, times);
    var t, plan, alt := Times(ordered), PlanOf(ordered, m), AssignedPlan(ordered, assign);
    OrderedIsCorpus(corpus, times);
    LoadIsShardTime(corpus, times, k);
    PlaceIsLeastLoaded(t, m);
    AssignedIsPlan(corpus, times, assign, m);
    LongestFirstBound(t, plan, alt, m);
    forall i: nat | i < m
      ensures Load(t, alt, i) <= bound
    {
      AssignedTimeOrdered(corpus, times, assign, i);
    }
    BoundArithmetic(m, Load(t, plan, k), MaxLoad(t, plan, m), MaxLoad(t, alt, m), bound);
  }

  // ---- Empty shards ----------------------------------------------------------------------

  function Timed(s: Suite): nat {
    if s.time > 0 then 1 else 0
  }

  /** How many suites of the corpus are estimated to take any time. */
  function TimedSuites(corpus: seq<Name>, times: map<Name, nat>): nat {
    SumBy(Estimate(corpus, times, DefaultTime(corpus, times)), Timed)
  }

  lemma {:induction false} PositivesIsSum(suites: seq<Suite>)
    ensures Positives(Times(suites)) == SumBy(suites, Timed)
    decreases |suites|
  {
    if suites != [] {
      var n := |suites| - 1;
      PositivesIsSum(suites[..n]);
      SumByAppend(suites[..n], suites[n], Timed);
      assert suites == suites[..n] + [suites[n]];
      assert Times(suites)[..n] == Times(suites[..n]);
    }
  }

  lemma OrderedCounts(corpus: seq<Name>, times: map<Name, nat>)
    requires Distinct(corpus)
    ensures |Ordered(corpus, times)| == |corpus|
    ensures Positives(Times(Ordered(corpus, times))) == TimedSuites(corpus, times)
  {
    OrdersAreStrict();
    var est, ordered := Estimate(corpus, times, DefaultTime(corpus, times)), Ordered(corpus, times);
    assert Distinct(est);
    SortUniqueIsSorted(est, LongerFirst);
    SortedIsDistinct(ordered, LongerFirst);
    DistinctCount(est);
    DistinctCount(ordered);
    assert Elements(est) == Elements(ordered);
    PositivesIsSum(ordered);
    SumBySorted(est, LongerFirst, Timed);
  }

  /**
   The empty-shard failure cannot happen exactly when the corpus has as many suites as shards
   and at least one fewer than that many suites that take any time.
   */
  lemma EmptyShardIff(corpus: seq<Name>, times: map<Name, nat>)
    requires Distinct(corpus)
    ensures
      var m := ShardCount(CorpusTotal(corpus, times));
      FirstEmpty(CorpusShards(corpus, times)) == None <==> |corpus| >= m && TimedSuites(corpus, times) >= m - 1
  {
    var m, ordered := ShardCount(CorpusTotal(corpus, times)), Ordered(corpus, times);
    var plan, shards := PlanOf(ordered, m), CorpusShards(corpus, times);
    OrderedIsCorpus(corpus, times);
    OrderedCounts(corpus, times);
    FirstEmptyIff(shards);
    NoShardEmptyIff(Times(ordered), m);
    forall k: nat | k < m
      ensures shards[k] == [] <==> k !in plan
    {
      if shards[k] != [] {
        ShardMembers(corpus, times, k, shards[k][0]);
      }
      if k in plan {
        var i :| 0 <= i < |plan| && plan[i] == k;
        ShardMembers(corpus, times, k, ordered[i].name);
      }
    }
  }

  // ---- The default estimate --------------------------------------------------------------

  lemma {:induction false} MeasuredSuites(corpus: seq<Name>, times: map<Name, nat>, s: Suite)
    ensures s in Measured(corpus, times) <==> s.name in corpus && s.name in times && s.time == times[s.name]
  {
    if corpus != [] {
      MeasuredSuites(corpus[1..], times, s);
    }
  }

  /**
   An unmeasured suite counts at the upper median: of the measured suites of the corpus, listed
   once each by increasing time, those up to the middle take no longer and the rest no less.
   */
  lemma DefaultIsMedian(corpus: seq<Name>, times: map<Name, nat>) returns (known: seq<Suite>)
    ensures forall s :: s in known <==> s.name in corpus && s.name in times && s.time == times[s.name]
    ensures Distinct(known)
    ensures known == [] ==> DefaultTime(corpus, times) == 450
    ensures forall i | 0 <= i < |known| ::
              && (i <= |known| / 2 ==> known[i].time <= DefaultTime(corpus, times))
              && (i >= |known| / 2 ==> known[i].time >= DefaultTime(corpus, times))
  {
    OrdersAreStrict();
    known := SortUnique(Measured(corpus, times), ShorterFirst);
    SortUniqueIsSorted(Measured(corpus, times), ShorterFirst);
    SortedIsDistinct(known, ShorterFirst);
    forall s
      ensures s in known <==> s.name in corpus && s.name in times && s.time == times[s.name]
    {
      MeasuredSuites(corpus, times, s);
    }
  }
}
