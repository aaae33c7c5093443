/**
 Any sequence of reset, publish and read calls, described without replaying it: which publishes take
 effect, and what the channel then offers.
 */
module ShmSequences {
  import opened Bytes
  import opened ShmChannel

  function Run(v: View, ops: seq<Operation>): View
    decreases |ops|
  {
    if ops == [] then v else After(Run(v, ops[..|ops| - 1]), ops[|ops| - 1])
  }

  /** A publish takes effect when every earlier publish has a reset between the two. */
  ghost predicate TakesEffect(ops: seq<Operation>, i: nat) {
    && i < |ops| && ops[i].Publish?
    && forall j: nat | j < i && ops[j].Publish? :: Reset in ops[j + 1..i]
  }

  /** Every publish so far has been followed by a reset. */
  ghost predicate Rearmed(ops: seq<Operation>) {
    forall j: nat | j < |ops| && ops[j].Publish? :: Reset in ops[j + 1..]
  }

  ghost function EffectiveCount(ops: seq<Operation>): nat
    decreases |ops|
  {
    if ops == [] then 0
    else EffectiveCount(ops[..|ops| - 1]) + if TakesEffect(ops, |ops| - 1) then 1 else 0
  }

  lemma TakesEffectPrefix(ops: seq<Operation>, n: nat, i: nat)
    requires i < n <= |ops|
    ensures TakesEffect(ops, i) <==> TakesEffect(ops[..n], i)
  {
    forall j: nat {:trigger ops[j]} | j < i
      ensures ops[..n][j + 1..i] == ops[j + 1..i]
    {
    }
  }

  /** The last operation takes effect exactly when it is a publish and the rest left the channel armed. */
  lemma LastTakesEffect(ops: seq<Operation>)
    requires ops != []
    ensures TakesEffect(ops, |ops| - 1) <==> ops[|ops| - 1].Publish? && Rearmed(ops[..|ops| - 1])
  {
    var n := |ops| - 1;
    forall j: nat {:trigger ops[j]} | j < n
      ensures ops[..n][j + 1..] == ops[j + 1..n]
    {
    }
  }

  lemma RearmedNext(ops: seq<Operation>)
    requires ops != []
    ensures Rearmed(ops) <==> ops[|ops| - 1].Reset? || (ops[|ops| - 1].Read? && Rearmed(ops[..|ops| - 1]))
  {
    var n := |ops| - 1;
    forall j: nat {:trigger ops[j]} | j < n
      ensures Reset in ops[j + 1..] <==> ops[n] == Reset || Reset in ops[..n][j + 1..]
    {
      assert ops[j + 1..] == ops[..n][j + 1..] + [ops[n]];
    }
    if ops[n].Publish? {
      assert ops[n + 1..] == [];
    }
  }

  /** No operation from `i` on takes effect. */
  ghost predicate NoneFrom(ops: seq<Operation>, i: nat) {
    forall j: nat | i <= j < |ops| :: !TakesEffect(ops, j)
  }

  /** Some publish that took effect was longer than the capacity. */
  ghost predicate SomeTooLong(cap: nat, ops: seq<Operation>) {
    exists i: nat :: TakesEffect(ops, i) && |ops[i].data| > cap
  }

  /** What a channel of capacity `cap` looks like after `ops`. */
  ghost predicate Describes(cap: nat, ops: seq<Operation>, v: View) {
    && v.Attached? && v.shared.capacity == cap
    && (v.armed <==> Rearmed(ops))
    && v.shared.commits == EffectiveCount(ops) % TWO_32
    && (v.shared.truncated <==> SomeTooLong(cap, ops))
    && (NoneFrom(ops, 0) ==> v.shared.snapshot == [])
    && forall i: nat | TakesEffect(ops, i) && NoneFrom(ops, i + 1) :: v.shared.snapshot == Take(ops[i].data, cap)
  }

  lemma PrefixEffects(ops: seq<Operation>)
    requires ops != []
    ensures forall i: nat | i < |ops| - 1 :: TakesEffect(ops, i) <==> TakesEffect(ops[..|ops| - 1], i)
  {
    forall i: nat | i < |ops| - 1
      ensures TakesEffect(ops, i) <==> TakesEffect(ops[..|ops| - 1], i)
    {
      TakesEffectPrefix(ops, |ops| - 1, i);
    }
  }

  lemma TooLongNext(cap: nat, ops: seq<Operation>)
    requires ops != [] && TakesEffect(ops, |ops| - 1)
    ensures SomeTooLong(cap, ops) <==> SomeTooLong(cap, ops[..|ops| - 1]) || |ops[|ops| - 1].data| > cap
  {
    var n := |ops| - 1;
    PrefixEffects(ops);
    if i: nat :| TakesEffect(ops, i) && |ops[i].data| > cap {
      assert i < n ==> TakesEffect(ops[..n], i) && ops[..n][i] == ops[i];
    }
    if i: nat :| TakesEffect(ops[..n], i) && |ops[..n][i].data| > cap {
      assert TakesEffect(ops, i) && ops[..n][i] == ops[i];
    }
  }

  /** A publish that takes effect replaces the snapshot. */
  lemma EffectiveNext(cap: nat, ops: seq<Operation>, s: Shared)
    requires ops != [] && Describes(cap, ops[..|ops| - 1], Attached(s, true)) && TakesEffect(ops, |ops| - 1)
    ensures
      var data := ops[|ops| - 1].data;
      Describes(cap, ops, Attached(Committed(s, data, |data|), false))
  {
    RearmedNext(ops);
    TooLongNext(cap, ops);
    LastIsLatest(ops);
    CountNext(ops);
  }

  lemma CountNext(ops: seq<Operation>)
    requires ops != [] && TakesEffect(ops, |ops| - 1)
    ensures EffectiveCount(ops) % TWO_32 == (EffectiveCount(ops[..|ops| - 1]) % TWO_32 + 1) % TWO_32
  {
    NextWord(EffectiveCount(ops[..|ops| - 1]));
  }

  /** No earlier publish is the last one to take effect. */
  lemma LastIsLatest(ops: seq<Operation>)
    requires ops != [] && TakesEffect(ops, |ops| - 1)
    ensures forall i: nat | i < |ops| :: !NoneFrom(ops, i)
  {
  }

  /** Any other operation leaves it. */
  lemma QuietNext(cap: nat, ops: seq<Operation>, s: Shared, armed: bool)
    requires ops != [] && Describes(cap, ops[..|ops| - 1], Attached(s, armed)) && !TakesEffect(ops, |ops| - 1)
    ensures Describes(cap, ops, Attached(s, Rearmed(ops)))
  {
    var n := |ops| - 1;
    SameEffects(ops);
    SameTooLong(cap, ops);
    forall i: nat | TakesEffect(ops, i) && NoneFrom(ops, i + 1)
      ensures s.snapshot == Take(ops[i].data, cap)
    {
      assert TakesEffect(ops[..n], i) && NoneFrom(ops[..n], i + 1);
    }
  }

  lemma SameEffects(ops: seq<Operation>)
    requires ops != [] && !TakesEffect(ops, |ops| - 1)
    ensures forall i: nat :: TakesEffect(ops, i) <==> TakesEffect(ops[..|ops| - 1], i)
    ensures forall i: nat | i < |ops| :: NoneFrom(ops, i) <==> NoneFrom(ops[..|ops| - 1], i)
  {
    PrefixEffects(ops);
    forall i: nat | i < |ops|
      ensures NoneFrom(ops, i) <==> NoneFrom(ops[..|ops| - 1], i)
    {
      var prefix := ops[..|ops| - 1];
      if NoneFrom(prefix, i) {
        forall j: nat | i <= j < |ops|
          ensures !TakesEffect(ops, j)
        {
          assert j < |prefix| ==> !TakesEffect(prefix, j);
        }
      }
      if NoneFrom(ops, i) {
        forall j: nat | i <= j < |prefix|
          ensures !TakesEffect(prefix, j)
        {
          assert !TakesEffect(ops, j);
        }
      }
    }
  }

  lemma SameTooLong(cap: nat, ops: seq<Operation>)
    requires ops != [] && !TakesEffect(ops, |ops| - 1)
    ensures SomeTooLong(cap, ops) <==> SomeTooLong(cap, ops[..|ops| - 1])
  {
    var n := |ops| - 1;
    SameEffects(ops);
    if i: nat :| TakesEffect(ops, i) && |ops[i].data| > cap {
      assert TakesEffect(ops[..n], i) && |ops[..n][i].data| > cap;
    }
    if i: nat :| TakesEffect(ops[..n], i) && |ops[..n][i].data| > cap {
      assert TakesEffect(ops, i) && |ops[i].data| > cap;
    }
  }

  lemma DescribesNext(cap: nat, ops: seq<Operation>, v: View)
    requires ops != [] && Describes(cap, ops[..|ops| - 1], v)
    ensures Describes(cap, ops, After(v, ops[|ops| - 1]))
  {
    LastTakesEffect(ops);
    RearmedNext(ops);
    if TakesEffect(ops, |ops| - 1) {
      EffectiveNext(cap, ops, v.shared);
    } else {
      QuietNext(cap, ops, v.shared, v.armed);
    }
  }

  /** A channel that has just created its segment. */
  function Created(cap: nat): View {
    Attached(Shared(cap, [], 0, false), true)
  }

  /**
   Any sequence of calls on a fresh channel: it is armed exactly when every publish has been
   followed by a reset, its generation counts the publishes that took effect, the truncated flag
   is set exactly when one of those was longer than the capacity, and its snapshot is the data of
   the last of them.
   */
  lemma {:induction false} AnySequence(cap: nat, ops: seq<Operation>)
    ensures Describes(cap, ops, Run(Created(cap), ops))
    decreases |ops|
  {
    if ops != [] {
      AnySequence(cap, ops[..|ops| - 1]);
      DescribesNext(cap, ops, Run(Created(cap), ops[..|ops| - 1]));
    }
  }

  /** A read after `ops` delivers the last publish that took effect, cut at both capacities. */
  lemma ReadDeliversLastEffective(cap: nat, ops: seq<Operation>, i: nat, outCap: nat)
    requires TakesEffect(ops, i) && NoneFrom(ops, i + 1) && EffectiveCount(ops) < TWO_32
    ensures
      var v := Run(Created(cap), ops);
      v.Attached? && Delivers(v.shared, outCap) == Take(Take(ops[i].data, cap), outCap)
  {
    AnySequence(cap, ops);
    SomeEffective(ops, i);
    LatestIsSnapshot(cap, ops, Run(Created(cap), ops), i);
  }

  lemma LatestIsSnapshot(cap: nat, ops: seq<Operation>, v: View, i: nat)
    requires Describes(cap, ops, v) && TakesEffect(ops, i) && NoneFrom(ops, i + 1)
    requires 0 < EffectiveCount(ops) < TWO_32
    ensures v.shared.commits > 0 && v.shared.snapshot == Take(ops[i].data, cap)
  {
  }

  lemma {:induction false} SomeEffective(ops: seq<Operation>, i: nat)
    requires TakesEffect(ops, i)
    ensures EffectiveCount(ops) > 0
    decreases |ops|
  {
    var n := |ops| - 1;
    if i < n {
      TakesEffectPrefix(ops, n, i);
      SomeEffective(ops[..n], i);
    }
  }
}
