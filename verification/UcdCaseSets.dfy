/**
 The caseless sets: one array of code points, each set ended by NOTACHAR (-1) and named by its
 offset, split into a list of sets with an index into it for every code point that has a set.
 */
module UcdCaseSets {
  import opened Bytes
  import opened Sorting

  const NOTACHAR := -1

  datatype CaseSet = CaseSet(offset: nat, members: seq<int>)

  /** The array a list of sets was split from, each set followed by its terminator. */
  function Rejoin(sets: seq<CaseSet>): (s: seq<int>)
  {
    if sets == [] then [] else Rejoin(sets[..|sets| - 1]) + sets[|sets| - 1].members + [NOTACHAR]
  }

  predicate NoTerminators(sets: seq<CaseSet>) {
    forall i | 0 <= i < |sets| :: NOTACHAR !in sets[i].members
  }

  /** Each set sits in the array where its offset says, one place in. */
  predicate OffsetsMatch(sets: seq<CaseSet>) {
    forall i | 0 <= i < |sets| :: sets[i].offset == 1 + |Rejoin(sets[..i])|
  }

  /** The first element belongs to no set; from there on, whole sets. */
  predicate SplitOf(caseless: seq<int>, sets: seq<CaseSet>) {
    && NoTerminators(sets) && OffsetsMatch(sets)
    && caseless[Min(1, |caseless|)..] == Rejoin(sets)
  }

  /** One set's members: up to the next terminator, or to the end where there is none. */
  method ReadSet(caseless: seq<int>, k: nat) returns (members: seq<int>, m: nat)
    requires k < |caseless|
    ensures k <= m <= |caseless| && members == caseless[k..m] && NOTACHAR !in members
    ensures m < |caseless| ==> caseless[m] == NOTACHAR
  {
    m, members := k, [];
    while m < |caseless| && caseless[m] != NOTACHAR
      invariant k <= m <= |caseless|
      invariant members == caseless[k..m] && NOTACHAR !in members
    {
      members := members + [caseless[m]];
      m := m + 1;
    }
  }

  /** Reading past the end of an unterminated set is an error (`None`). */
  method Split(caseless: seq<int>) returns (r: Option<seq<CaseSet>>)
    ensures r.Some? <==> |caseless| <= 1 || caseless[|caseless| - 1] == -1
    ensures r.Some? ==> SplitOf(caseless, r.value)
  {
    var sets: seq<CaseSet> := [];
    var k := 1;
    while k < |caseless|
      invariant if |caseless| == 0 then k == 1 && sets == [] else SplitTo(caseless, sets, k)
    {
      var members, m := ReadSet(caseless, k);
      if m == |caseless| {
        assert caseless[m - 1] == members[|members| - 1];
        return None;
      }
      NextSet(caseless, sets, k, m);
      sets := sets + [CaseSet(k, members)];
      k := m + 1;
    }
    return Some(sets);
  }

  predicate SplitTo(caseless: seq<int>, sets: seq<CaseSet>, k: int) {
    && 1 <= k <= |caseless| && (k > 1 ==> caseless[k - 1] == NOTACHAR)
    && NoTerminators(sets) && OffsetsMatch(sets) && caseless[1..k] == Rejoin(sets)
  }

  lemma NextSet(caseless: seq<int>, sets: seq<CaseSet>, k: nat, m: nat)
    requires SplitTo(caseless, sets, k) && k <= m < |caseless|
    requires NOTACHAR !in caseless[k..m] && caseless[m] == NOTACHAR
    ensures SplitTo(caseless, sets + [CaseSet(k, caseless[k..m])], m + 1)
  {
    Added(sets, CaseSet(k, caseless[k..m]));
    assert caseless[1..m + 1] == caseless[1..k] + caseless[k..m] + [caseless[m]];
  }

  lemma Added(sets: seq<CaseSet>, one: CaseSet)
    requires OffsetsMatch(sets) && one.offset == 1 + |Rejoin(sets)|
    ensures OffsetsMatch(sets + [one])
    ensures Rejoin(sets + [one]) == Rejoin(sets) + one.members + [NOTACHAR]
  {
    var longer := sets + [one];
    assert longer[..|sets|] == sets;
    forall i | 0 <= i < |sets|
      ensures longer[i].offset == 1 + |Rejoin(longer[..i])|
    {
      assert longer[..i] == sets[..i];
    }
  }

  /** Rejoining a prefix gives a prefix; the next set and its terminator follow. */
  lemma {:induction false} RejoinPrefix(sets: seq<CaseSet>, i: nat)
    requires i < |sets|
    ensures
      var at := |Rejoin(sets[..i])|;
      var end := at + |sets[i].members|;
      && end < |Rejoin(sets)|
      && Rejoin(sets)[..at] == Rejoin(sets[..i])
      && Rejoin(sets)[at..end] == sets[i].members
      && Rejoin(sets)[end] == NOTACHAR
    decreases |sets|
  {
    var n := |sets| - 1;
    if i < n {
      RejoinPrefix(sets[..n], i);
      assert sets[..n][..i] == sets[..i];
    }
  }

  /** The members of the set at `at`: everything up to the next terminator. */
  function UpToTerminator(s: seq<int>): seq<int> {
    if s == [] || s[0] == NOTACHAR then [] else [s[0]] + UpToTerminator(s[1..])
  }

  lemma {:induction false} UpToTerminatorIs(s: seq<int>, n: nat)
    requires n < |s| && s[n] == NOTACHAR && NOTACHAR !in s[..n]
    ensures UpToTerminator(s) == s[..n]
  {
    if n > 0 {
      assert s[0] in s[..n];
      assert s[1..][..n - 1] == s[..n][1..];
      UpToTerminatorIs(s[1..], n - 1);
    }
  }

  /** The set listed at any place is the one starting at its offset in the array. */
  lemma SetIsAtItsOffset(caseless: seq<int>, sets: seq<CaseSet>, i: nat)
    requires SplitOf(caseless, sets) && i < |sets|
    ensures 1 <= sets[i].offset < |caseless|
    ensures sets[i].members == UpToTerminator(caseless[sets[i].offset..])
  {
    RejoinPrefix(sets, i);
    var rest := caseless[1..];
    var tail := caseless[sets[i].offset..];
    var at := |Rejoin(sets[..i])|;
    assert tail == rest[at..];
    assert tail[..|sets[i].members|] == rest[at..at + |sets[i].members|];
    UpToTerminatorIs(tail, |sets[i].members|);
  }

  lemma {:induction false} OffsetsIncrease(sets: seq<CaseSet>, i: nat, j: nat)
    requires OffsetsMatch(sets) && i < j < |sets|
    ensures sets[i].offset < sets[j].offset
    decreases j - i
  {
    assert sets[..i + 1][..i] == sets[..i];
    if i + 1 < j {
      OffsetsIncrease(sets, i + 1, j);
    }
  }

  /** One array splits into one list of sets. */
  lemma {:induction false} SplitIsUnique(caseless: seq<int>, a: seq<CaseSet>, b: seq<CaseSet>)
    requires SplitOf(caseless, a) && SplitOf(caseless, b)
    ensures a == b
  {
    SamePrefix(caseless, a, b, |a|);
    SamePrefix(caseless, b, a, |b|);
  }

  /** Lists that agree on `i` sets, one of which goes on, both go on, and with the same set. */
  lemma SameNext(caseless: seq<int>, a: seq<CaseSet>, b: seq<CaseSet>, i: nat)
    requires SplitOf(caseless, a) && SplitOf(caseless, b) && i < |a| && i <= |b| && a[..i] == b[..i]
    ensures i < |b| && a[i] == b[i]
  {
    RejoinPrefix(a, i);
    assert |Rejoin(b[..i])| < |Rejoin(b)|;
    assert b[..|b|] == b;
    SetIsAtItsOffset(caseless, a, i);
    SetIsAtItsOffset(caseless, b, i);
  }

  lemma {:induction false} SamePrefix(caseless: seq<int>, a: seq<CaseSet>, b: seq<CaseSet>, k: nat)
    requires SplitOf(caseless, a) && SplitOf(caseless, b) && k <= |a|
    ensures k <= |b| && a[..k] == b[..k]
  {
    if k > 0 {
      SamePrefix(caseless, a, b, k - 1);
      SameNext(caseless, a, b, k - 1);
    }
  }

  // ---- Indexing --------------------------------------------------------------------------

  function Before(): (nat, nat) -> bool {
    (a, b) => a < b
  }

  function KeysOf(sets: seq<CaseSet>): (keys: seq<nat>)
    ensures |keys| == |sets| && forall i :: 0 <= i < |sets| ==> keys[i] == sets[i].offset
  {
    seq(|sets|, i requires 0 <= i < |sets| => sets[i].offset)
  }

  /** The offsets of the split sets, as the generator sorts them: they were in order already. */
  lemma OffsetsAreSorted(sets: seq<CaseSet>)
    requires OffsetsMatch(sets)
    ensures SortUnique(KeysOf(sets), Before()) == KeysOf(sets)
  {
    var keys := KeysOf(sets);
    SortUniqueIsSorted(keys, Before());
    forall i, j | 0 <= i < j < |keys|
      ensures Before()(keys[i], keys[j])
    {
      OffsetsIncrease(sets, i, j);
    }
    SortedIsUnique(SortUnique(keys, Before()), keys, Before());
  }

  /** The place of an offset among the sorted ones; an offset no set has is an error. */
  function IndexIn(order: seq<nat>, offset: nat): Option<nat> {
    if order == [] then None
    else if order[0] == offset then Some(0)
    else
      match IndexIn(order[1..], offset)
      case None => None
      case Some(i) => Some(i + 1)
  }

  lemma {:induction false} IndexInFinds(order: seq<nat>, offset: nat)
    ensures IndexIn(order, offset).Some? <==> offset in order
    ensures var r := IndexIn(order, offset); r.Some? ==> r.value < |order| && order[r.value] == offset
  {
    if order != [] && order[0] != offset {
      IndexInFinds(order[1..], offset);
    }
  }

  /** Code points with a set, in order, each with its set's place. */
  function CaseSetOf(caseset: seq<nat>, order: seq<nat>): Option<seq<(nat, nat)>>
    decreases |caseset|
  {
    if caseset == [] then Some([])
    else
      var c: nat := |caseset| - 1;
      var before := CaseSetOf(caseset[..c], order);
      if before.None? || caseset[c] == 0 then before
      else
        var i := IndexIn(order, caseset[c]);
        if i.None? then None else Some(before.value + [(c, i.value)])
  }

  predicate Points(pairs: seq<(nat, nat)>, caseset: seq<nat>, order: seq<nat>) {
    && (forall p | 0 <= p < |pairs| ::
          pairs[p].0 < |caseset| && pairs[p].1 < |order| && order[pairs[p].1] == caseset[pairs[p].0] != 0)
    && (forall p, q | 0 <= p < q < |pairs| :: pairs[p].0 < pairs[q].0)
    && forall c | 0 <= c < |caseset| && caseset[c] != 0 :: exists p | 0 <= p < |pairs| :: pairs[p].0 == c
  }

  /** Fails just when some code point names an offset where no set starts; else one pair for each. */
  lemma {:induction false} CaseSetOfPoints(caseset: seq<nat>, order: seq<nat>)
    ensures CaseSetOf(caseset, order).Some? <==>
              forall c :: 0 <= c < |caseset| && caseset[c] != 0 ==> caseset[c] in order
    ensures CaseSetOf(caseset, order).Some? ==> Points(CaseSetOf(caseset, order).value, caseset, order)
    decreases |caseset|
  {
    if caseset != [] {
      var c := |caseset| - 1;
      var init := caseset[..c];
      CaseSetOfPoints(init, order);
      IndexInFinds(order, caseset[c]);
      if CaseSetOf(caseset, order).Some? {
        LastPoint(init, caseset[c], CaseSetOf(init, order).value, CaseSetOf(caseset, order).value, order);
        assert init + [caseset[c]] == caseset;
      }
    }
  }

  lemma LastPoint(init: seq<nat>, offset: nat, before: seq<(nat, nat)>, after: seq<(nat, nat)>, order: seq<nat>)
    requires Points(before, init, order)
    requires forall p | 0 <= p < |before| :: p < |after| && after[p] == before[p]
    requires if offset == 0 then |after| == |before|
             else |after| == |before| + 1 && after[|before|].0 == |init|
                  && after[|before|].1 < |order| && order[after[|before|].1] == offset
    ensures Points(after, init + [offset], order)
  {
    var caseset := init + [offset];
    var last := |before|;
    forall p | 0 <= p < |after|
      ensures after[p].0 < |caseset| && after[p].1 < |order| && order[after[p].1] == caseset[after[p].0] != 0
    {
      assert p < last ==> after[p] == before[p];
    }
    forall p, q | 0 <= p < q < |after|
      ensures after[p].0 < after[q].0
    {
      assert after[p] == before[p];
      assert q < last ==> after[q] == before[q];
    }
    forall c | 0 <= c < |caseset| && caseset[c] != 0
      ensures exists p :: 0 <= p < |after| && after[p].0 == c
    {
      if c < |init| {
        var p :| 0 <= p < last && before[p].0 == c;
        assert after[p] == before[p];
      } else {
        assert after[last].0 == c;
      }
    }
  }

  /**
   From the two source tables to the two generated ones: the lists written out and the index
   written for a code point lead to exactly the set starting at that code point's offset.
   */
  lemma CaseTablesDecode(caseless: seq<int>, caseset: seq<nat>, sets: seq<CaseSet>, c: nat)
    returns (p: nat)
    requires SplitOf(caseless, sets) && c < |caseset| && caseset[c] != 0
    requires CaseSetOf(caseset, SortUnique(KeysOf(sets), Before())).Some?
    ensures
      var pairs := CaseSetOf(caseset, SortUnique(KeysOf(sets), Before())).value;
      && p < |pairs| && pairs[p].0 == c && pairs[p].1 < |sets|
      && (forall q :: 0 <= q < |pairs| && pairs[q].0 == c ==> q == p)
      && caseset[c] < |caseless|
      && sets[pairs[p].1].members == UpToTerminator(caseless[caseset[c]..])
  {
    OffsetsAreSorted(sets);
    CaseSetOfPoints(caseset, KeysOf(sets));
    var pairs := CaseSetOf(caseset, KeysOf(sets)).value;
    p :| 0 <= p < |pairs| && pairs[p].0 == c;
    SetIsAtItsOffset(caseless, sets, pairs[p].1);
  }
}
