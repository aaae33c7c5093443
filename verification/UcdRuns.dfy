/**
 Compressing a table over the code points into runs. A label of zero means "not listed": the
 ranges of a property carry one label throughout, the other-case runs carry their offsets.
 */
module UcdRuns {
  import opened Bytes
  import opened Sorting

  datatype Range = Range(lo: int, hi: int)

  datatype Run = Run(lo: int, hi: int, delta: int)

  predicate In(r: Run, c: int) {
    r.lo <= c <= r.hi
  }

  /**
   Any list of runs, in any order, overlapping or empty as it likes, that says of every code point
   what `labelOf` says: only listed points lie in a run, and a run gives each of its points its label.
   */
  ghost predicate Describes(runs: seq<Run>, labelOf: int -> int) {
    && (forall c :: labelOf(c) != 0 <==> Listed(runs, c))
    && forall k, c :: 0 <= k < |runs| && In(runs[k], c) ==> labelOf(c) == runs[k].delta
  }

  predicate Listed(runs: seq<Run>, c: int) {
    exists k | 0 <= k < |runs| :: In(runs[k], c)
  }

  lemma RunAround(runs: seq<Run>, labelOf: int -> int, c: int) returns (k: nat)
    requires Describes(runs, labelOf) && labelOf(c) != 0
    ensures k < |runs| && In(runs[k], c)
  {
    assert Listed(runs, c);
    k :| 0 <= k < |runs| && In(runs[k], c);
  }

  lemma RunLabel(runs: seq<Run>, labelOf: int -> int, k: nat, c: int)
    requires Describes(runs, labelOf) && k < |runs| && In(runs[k], c)
    ensures labelOf(c) == runs[k].delta != 0
  {
    assert Listed(runs, c);
  }

  /** Sorted, disjoint, nonempty, and no two neighbours could be one run. */
  predicate Canonical(runs: seq<Run>) {
    && (forall k | 0 <= k < |runs| :: runs[k].lo <= runs[k].hi)
    && (forall j, k | 0 <= j < k < |runs| :: runs[j].hi < runs[k].lo)
    && forall k | 0 < k < |runs| :: !Joined(runs[k - 1], runs[k])
  }

  predicate Joined(a: Run, b: Run) {
    a.hi + 1 == b.lo && a.delta == b.delta
  }

  /** The offset a reader of the runs finds for `c`: that of the first run around it. */
  function Lookup(runs: seq<Run>, c: int): int {
    if runs == [] then 0 else if In(runs[0], c) then runs[0].delta else Lookup(runs[1..], c)
  }

  lemma {:induction false} LookupFinds(runs: seq<Run>, c: int)
    ensures
      || (Lookup(runs, c) == 0 && forall k :: 0 <= k < |runs| ==> !In(runs[k], c))
      || exists k :: 0 <= k < |runs| && In(runs[k], c) && Lookup(runs, c) == runs[k].delta
  {
    if runs != [] && !In(runs[0], c) {
      LookupFinds(runs[1..], c);
      forall k | 0 <= k < |runs| && In(runs[k], c)
        ensures In(runs[1..][k - 1], c)
      {
      }
      if k :| 0 <= k < |runs[1..]| && In(runs[1..][k], c) && Lookup(runs[1..], c) == runs[1..][k].delta {
        assert In(runs[k + 1], c) && Lookup(runs, c) == runs[k + 1].delta;
      }
    }
  }

  /** Reading any description gives back the labels. */
  lemma DescriptionDecodes(runs: seq<Run>, labelOf: int -> int, c: int)
    requires Describes(runs, labelOf)
    ensures Lookup(runs, c) == labelOf(c)
  {
    LookupFinds(runs, c);
    assert labelOf(c) != 0 <==> Listed(runs, c);
  }

  // ---- The canonical description is the shortest, and the only canonical one -------------

  /** A run around the point just after another is the next one, with another label. */
  lemma AfterEnd(runs: seq<Run>, k: nat, m: nat)
    requires Canonical(runs) && k < |runs| && m < |runs| && In(runs[m], runs[k].hi + 1)
    ensures m == k + 1 && runs[m].delta != runs[k].delta
  {
    if k + 1 < |runs| {
      assert runs[k].hi < runs[k + 1].lo;
      assert !Joined(runs[k + 1 - 1], runs[k + 1]);
    }
  }

  lemma RunEndsThere(runs: seq<Run>, labelOf: int -> int, k: nat)
    requires Canonical(runs) && Describes(runs, labelOf) && k < |runs|
    ensures labelOf(runs[k].hi + 1) != runs[k].delta
  {
    var c := runs[k].hi + 1;
    RunLabel(runs, labelOf, k, runs[k].lo);
    if labelOf(c) != 0 {
      var m := RunAround(runs, labelOf, c);
      AfterEnd(runs, k, m);
      RunLabel(runs, labelOf, m, c);
    }
  }

  /** No run of any description reaches into two runs of the canonical one. */
  lemma OneRunEach(runs: seq<Run>, labelOf: int -> int, r: Run, j: nat, k: nat)
    requires Canonical(runs) && Describes(runs, labelOf) && j < k < |runs|
    requires forall c :: In(r, c) ==> labelOf(c) == r.delta
    requires In(r, runs[j].lo)
    ensures !In(r, runs[k].lo)
  {
    RunEndsThere(runs, labelOf, j);
    RunLabel(runs, labelOf, j, runs[j].lo);
    assert !In(r, runs[j].hi + 1);
    assert runs[j].hi < runs[k].lo;
  }

  lemma BoundedDistinct(s: seq<nat>, n: nat)
    requires Distinct(s) && forall x | x in s :: x < n
    ensures |s| <= n
  {
    DistinctCount(s);
    assert Elements(s) <= UpTo(n);
    SubsetCount(Elements(s), UpTo(n));
  }

  lemma SubsetCount<T>(a: set<T>, b: set<T>)
    requires a <= b
    ensures |a| <= |b|
  {
    assert b == a + (b - a);
  }

  /** No description whatever of the same table is shorter. */
  lemma CanonicalIsMinimal(runs: seq<Run>, others: seq<Run>, labelOf: int -> int)
    requires Canonical(runs) && Describes(runs, labelOf) && Describes(others, labelOf)
    ensures |runs| <= |others|
  {
    var holder: seq<nat> := [];
    while |holder| < |runs|
      invariant |holder| <= |runs|
      invariant forall k | 0 <= k < |holder| :: holder[k] < |others| && In(others[holder[k]], runs[k].lo)
    {
      var lo := runs[|holder|].lo;
      RunLabel(runs, labelOf, |holder|, lo);
      var k := RunAround(others, labelOf, lo);
      holder := holder + [k];
    }
    forall j, k | 0 <= j < k < |holder|
      ensures holder[j] != holder[k]
    {
      OneRunEach(runs, labelOf, others[holder[j]], j, k);
    }
    BoundedDistinct(holder, |others|);
  }

  lemma StartsNoLater(a: seq<Run>, b: seq<Run>, labelOf: int -> int, k: nat)
    requires Canonical(a) && Canonical(b) && Describes(a, labelOf) && Describes(b, labelOf)
    requires k < |a| && k <= |b| && a[..k] == b[..k]
    ensures k < |b| && b[k].lo <= a[k].lo
  {
    var c := a[k].lo;
    RunLabel(a, labelOf, k, c);
    var m := RunAround(b, labelOf, c);
    forall i | 0 <= i < k
      ensures !In(b[i], c)
    {
      assert b[i] == b[..k][i] == a[..k][i] == a[i];
    }
    if m > k {
      assert b[k].hi < b[m].lo;
    }
  }

  lemma EndsNoLater(a: seq<Run>, b: seq<Run>, labelOf: int -> int, k: nat)
    requires Canonical(a) && Describes(a, labelOf) && Describes(b, labelOf)
    requires k < |a| && k < |b| && a[k].lo == b[k].lo <= b[k].hi
    ensures b[k].hi <= a[k].hi && a[k].delta == b[k].delta
  {
    RunEndsThere(a, labelOf, k);
    RunLabel(a, labelOf, k, a[k].lo);
    RunLabel(b, labelOf, k, b[k].lo);
    if b[k].hi > a[k].hi {
      assert In(b[k], a[k].hi + 1);
    }
  }

  lemma {:induction false} CanonicalPrefix(a: seq<Run>, b: seq<Run>, labelOf: int -> int, k: nat)
    requires Canonical(a) && Canonical(b) && Describes(a, labelOf) && Describes(b, labelOf) && k <= |a|
    ensures k <= |b| && a[..k] == b[..k]
  {
    if k > 0 {
      var i := k - 1;
      CanonicalPrefix(a, b, labelOf, i);
      StartsNoLater(a, b, labelOf, i);
      StartsNoLater(b, a, labelOf, i);
      EndsNoLater(a, b, labelOf, i);
      EndsNoLater(b, a, labelOf, i);
      assert a[i] == b[i];
    }
  }

  /** Two canonical descriptions of one table are equal. */
  lemma CanonicalIsUnique(a: seq<Run>, b: seq<Run>, labelOf: int -> int)
    requires Canonical(a) && Canonical(b) && Describes(a, labelOf) && Describes(b, labelOf)
    ensures a == b
  {
    CanonicalPrefix(a, b, labelOf, |a|);
    CanonicalPrefix(b, a, labelOf, |b|);
  }

  // ---- Property ranges -------------------------------------------------------------------

  function Labelled(rs: seq<Range>): (runs: seq<Run>)
    ensures |runs| == |rs|
  {
    seq(|rs|, k requires 0 <= k < |rs| => Run(rs[k].lo, rs[k].hi, 1))
  }

  /** The property on 0..last and nowhere else. */
  function Membership(pred: int -> bool, last: int): int -> int {
    c => if 0 <= c <= last && pred(c) then 1 else 0
  }

  predicate Covers(rs: seq<Range>, c: int) {
    exists k | 0 <= k < |rs| :: rs[k].lo <= c <= rs[k].hi
  }

  /** Sorted, with a gap of at least one point between neighbours. */
  predicate Gapped(rs: seq<Range>) {
    && (forall k | 0 <= k < |rs| :: rs[k].lo <= rs[k].hi)
    && forall j, k | 0 <= j < k < |rs| :: rs[j].hi + 1 < rs[k].lo
  }

  method Ranges(pred: int -> bool, last: nat) returns (out: seq<Range>)
    ensures Gapped(out)
    ensures forall c :: Covers(out, c) <==> 0 <= c <= last && pred(c)
  {
    out := [];
    var lo: Option<int> := None;
    var c := 0;
    while c < last + 2
      invariant 0 <= c <= last + 2
      invariant lo.Some? ==> 0 <= lo.value < c <= last + 1 && forall x :: lo.value <= x < c ==> pred(x)
      invariant Gapped(out)
      invariant forall k :: 0 <= k < |out| ==> 0 <= out[k].lo && out[k].hi + 1 < if lo.Some? then lo.value else c
      invariant forall k, x :: 0 <= k < |out| && out[k].lo <= x <= out[k].hi ==> x <= last && pred(x)
      invariant forall x :: 0 <= x < c && x <= last && pred(x) ==> Covers(out, x) || (lo.Some? && lo.value <= x)
    {
      var inside := c <= last && pred(c);
      if inside && lo.None? {
        lo := Some(c);
      } else if !inside && lo.Some? {
        ghost var before := out;
        out := out + [Range(lo.value, c - 1)];
        forall x | 0 <= x < c && pred(x)
          ensures Covers(out, x)
        {
          if Covers(before, x) {
            var k :| 0 <= k < |before| && before[k].lo <= x <= before[k].hi;
            assert out[k] == before[k];
          } else {
            assert out[|before|].lo <= x <= out[|before|].hi;
          }
        }
        lo := None;
      }
      c := c + 1;
    }
  }

  lemma CoversIffIn(rs: seq<Range>, c: int)
    ensures Covers(rs, c) <==> Listed(Labelled(rs), c)
  {
    if Covers(rs, c) {
      var k :| 0 <= k < |rs| && rs[k].lo <= c <= rs[k].hi;
      assert In(Labelled(rs)[k], c);
    }
    if k :| 0 <= k < |rs| && In(Labelled(rs)[k], c) {
      assert rs[k].lo <= c <= rs[k].hi;
    }
  }

  /** Ranges with the right union describe the property; with gaps, canonically. */
  lemma RangesDescribe(rs: seq<Range>, pred: int -> bool, last: nat)
    requires forall c :: Covers(rs, c) <==> 0 <= c <= last && pred(c)
    ensures Describes(Labelled(rs), Membership(pred, last))
    ensures Gapped(rs) ==> Canonical(Labelled(rs))
  {
    var labelOf := Membership(pred, last);
    forall c: int
      ensures labelOf(c) != 0 <==> Listed(Labelled(rs), c)
    {
      CoversIffIn(rs, c);
    }
    forall k, c | 0 <= k < |rs| && In(Labelled(rs)[k], c)
      ensures labelOf(c) == Labelled(rs)[k].delta
    {
      CoversIffIn(rs, c);
    }
  }

  /**
   The ranges written for a property are the unique gapped list with that union, and no list of
   ranges with that union, sorted or not, overlapping or not, has fewer entries.
   */
  lemma RangesAreMinimal(out: seq<Range>, others: seq<Range>, pred: int -> bool, last: nat)
    requires Gapped(out)
    requires forall c :: Covers(out, c) <==> 0 <= c <= last && pred(c)
    requires forall c :: Covers(others, c) <==> 0 <= c <= last && pred(c)
    ensures |out| <= |others|
    ensures Gapped(others) ==> others == out
  {
    RangesDescribe(out, pred, last);
    RangesDescribe(others, pred, last);
    CanonicalIsMinimal(Labelled(out), Labelled(others), Membership(pred, last));
    if Gapped(others) {
      CanonicalIsUnique(Labelled(out), Labelled(others), Membership(pred, last));
      forall k | 0 <= k < |out|
        ensures out[k] == others[k]
      {
        assert Labelled(out)[k] == Labelled(others)[k];
      }
    }
  }

  // ---- Other-case runs -------------------------------------------------------------------

  /** The offset table, zero outside it. */
  function Offset(other: seq<int>, c: int): int {
    if 0 <= c < |other| then other[c] else 0
  }

  function Offsets(other: seq<int>): int -> int {
    c => Offset(other, c)
  }

  method OtherCaseRuns(other: seq<int>) returns (runs: seq<Run>)
    ensures Canonical(runs) && Describes(runs, Offsets(other))
  {
    runs := [];
    var c := 0;
    while c < |other|
      invariant 0 <= c <= |other|
      invariant Canonical(runs) && Describes(runs, Offsets(other[..c]))
    {
      var d := other[c];
      if d != 0 {
        var n := |runs|;
        if n > 0 && runs[n - 1].hi == c - 1 && runs[n - 1].delta == d {
          Extended(runs, other, c);
          runs := runs[n - 1 := runs[n - 1].(hi := c)];
        } else {
          Opened(runs, other, c);
          runs := runs + [Run(c, c, d)];
        }
      } else {
        Skipped(runs, other, c);
      }
      c := c + 1;
    }
    assert other[..c] == other;
  }

  lemma EndsBefore(runs: seq<Run>, other: seq<int>, c: nat)
    requires c < |other| && Canonical(runs) && Describes(runs, Offsets(other[..c]))
    ensures forall k :: 0 <= k < |runs| ==> runs[k].hi < c
  {
    forall k | 0 <= k < |runs|
      ensures runs[k].hi < c
    {
      RunLabel(runs, Offsets(other[..c]), k, runs[k].hi);
    }
  }

  lemma Skipped(runs: seq<Run>, other: seq<int>, c: nat)
    requires c < |other| && other[c] == 0 && Describes(runs, Offsets(other[..c]))
    ensures Describes(runs, Offsets(other[..c + 1]))
  {
    forall x: int
      ensures Offsets(other[..c + 1])(x) != 0 <==> Listed(runs, x)
    {
      assert Offsets(other[..c])(x) != 0 <==> Listed(runs, x);
    }
    forall k, x | 0 <= k < |runs| && In(runs[k], x)
      ensures Offsets(other[..c + 1])(x) == runs[k].delta
    {
      RunLabel(runs, Offsets(other[..c]), k, x);
    }
  }

  /** Adding `c` to the listed points, with its label. */
  lemma Grown(runs: seq<Run>, runs': seq<Run>, other: seq<int>, c: nat)
    requires c < |other| && Describes(runs, Offsets(other[..c])) && other[c] != 0
    requires forall x :: Listed(runs', x) <==> x == c || Listed(runs, x)
    requires forall k, x :: 0 <= k < |runs'| && In(runs'[k], x) && x != c ==>
               k < |runs| && In(runs[k], x) && runs[k].delta == runs'[k].delta
    requires forall k :: 0 <= k < |runs'| && In(runs'[k], c) ==> runs'[k].delta == other[c]
    ensures Describes(runs', Offsets(other[..c + 1]))
  {
    forall x: int
      ensures Offsets(other[..c + 1])(x) != 0 <==> Listed(runs', x)
    {
      assert Offsets(other[..c])(x) != 0 <==> Listed(runs, x);
    }
    forall k, x | 0 <= k < |runs'| && In(runs'[k], x)
      ensures Offsets(other[..c + 1])(x) == runs'[k].delta
    {
      if x != c {
        RunLabel(runs, Offsets(other[..c]), k, x);
      }
    }
  }

  lemma Extended(runs: seq<Run>, other: seq<int>, c: nat)
    requires c < |other| && Canonical(runs) && Describes(runs, Offsets(other[..c])) && other[c] != 0
    requires runs != [] && runs[|runs| - 1].hi == c - 1 && runs[|runs| - 1].delta == other[c]
    ensures
      var n := |runs| - 1;
      var runs' := runs[n := runs[n].(hi := c)];
      Canonical(runs') && Describes(runs', Offsets(other[..c + 1]))
  {
    var n := |runs| - 1;
    var runs' := runs[n := runs[n].(hi := c)];
    EndsBefore(runs, other, c);
    forall x: int
      ensures Listed(runs', x) <==> x == c || Listed(runs, x)
    {
      if x == c {
        assert In(runs'[n], x);
      } else {
        assert forall k :: 0 <= k < |runs| ==> (In(runs[k], x) <==> In(runs'[k], x));
      }
    }
    Grown(runs, runs', other, c);
  }

  lemma Opened(runs: seq<Run>, other: seq<int>, c: nat)
    requires c < |other| && Canonical(runs) && Describes(runs, Offsets(other[..c])) && other[c] != 0
    requires runs == [] || runs[|runs| - 1].hi != c - 1 || runs[|runs| - 1].delta != other[c]
    ensures
      var runs' := runs + [Run(c, c, other[c])];
      Canonical(runs') && Describes(runs', Offsets(other[..c + 1]))
  {
    var runs' := runs + [Run(c, c, other[c])];
    EndsBefore(runs, other, c);
    forall x: int
      ensures Listed(runs', x) <==> x == c || Listed(runs, x)
    {
      if x == c {
        assert In(runs'[|runs|], x);
      }
      if Listed(runs, x) {
        var k :| 0 <= k < |runs| && In(runs[k], x);
        assert In(runs'[k], x);
      }
    }
    Grown(runs, runs', other, c);
  }

  /** Looking a code point up in the runs gives back its other case, and no list of runs that does is shorter. */
  lemma OtherCaseDecodes(runs: seq<Run>, other: seq<int>, c: nat, others: seq<Run>)
    requires Canonical(runs) && Describes(runs, Offsets(other)) && c < |other|
    requires Describes(others, Offsets(other))
    ensures c + Lookup(runs, c) == c + other[c]
    ensures |runs| <= |others| && (Canonical(others) ==> others == runs)
  {
    DescriptionDecodes(runs, Offsets(other), c);
    CanonicalIsMinimal(runs, others, Offsets(other));
    if Canonical(others) {
      CanonicalIsUnique(runs, others, Offsets(other));
    }
  }
}
