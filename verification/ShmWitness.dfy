/**
 The two conditions of `NoTornRead` are needed: a schedule that breaks either one delivers
 bytes that belong to no snapshot.
 */
module ShmWitness {
  import opened Bytes
  import opened ShmProtocol
  import opened ShmSafety
  import opened ShmSolo
  import opened ShmTheorems

  /** No snapshot of `snaps` begins with `bytes`, whatever the reader's capacity. */
  ghost predicate Torn(snaps: seq<seq<byte>>, bytes: seq<byte>) {
    forall snap | snap in snaps :: !(bytes <= snap)
  }

  /** The segment has capacity 2, its writer is alive, and `b` names its published buffer. */
  ghost predicate Small(s: State, pc: WriterPc) {
    WellShaped(s) && s.cap == 2 && s.pc == pc && !s.doomed
  }

  function Pair(b: byte): seq<byte> {
    [b, b]
  }

  /** From `s` to `t` only the staging buffer and the gate may have changed. */
  ghost predicate StagingOnly(s: State, t: State) {
    && t.cap == s.cap && t.readers == s.readers && t.doomed == s.doomed
    && t.mem.published == s.mem.published && t.mem.generation == s.mem.generation
    && Shaped(s.cap, s.mem) && Shaped(t.cap, t.mem)
    && t.mem.buf[s.mem.published] == s.mem.buf[s.mem.published]
    && t.mem.bufLen[s.mem.published] == s.mem.bufLen[s.mem.published]
    && t.hist.snaps == s.hist.snaps && t.hist.bumps == s.hist.bumps
  }

  lemma NotDone(n: nat, done: set<nat>, i: nat)
    requires i < n && i !in done
    ensures !AllDone(n, done)
  {
  }

  lemma Zeroes(s: State) returns (steps: seq<Step>)
    requires Small(s, Idle)
    ensures
      var t := Exec(s, steps);
      && Small(t, Zeroing(Staging(s.mem), 2)) && StagingOnly(s, t) && t.mem.buf[Staging(s.mem)] == Pair(0)
      && Restart !in steps
  {
    var start := One(s, StartReset);
    var zero := Two(Exec(s, start), Advance(0), Advance(0));
    steps := Then(s, start, zero);
  }

  lemma Arms(s: State, t: nat) returns (steps: seq<Step>)
    requires t < 2 && Small(s, Zeroing(t, 2)) && t == Staging(s.mem)
    ensures var u := Exec(s, steps); Small(u, Idle) && StagingOnly(s, u) && !u.mem.dumped && Restart !in steps
  {
    var done := One(s, Advance(0));
    var arm := Two(Exec(s, done), Advance(0), Advance(0));
    steps := Then(s, done, arm);
  }

  lemma Gates(s: State, b: byte) returns (steps: seq<Step>)
    requires Small(s, Idle) && !s.mem.dumped
    ensures
      var t := Exec(s, steps);
      && Small(t, Filling(Staging(s.mem), Pair(b), {})) && StagingOnly(s, t) && t.mem.dumped
      && Restart !in steps
  {
    var start := One(s, StartPublish(Pair(b)));
    var gate := Two(Exec(s, start), Advance(0), Advance(0));
    steps := Then(s, start, gate);
  }

  lemma FillsOne(s: State, t: nat, b: byte, i: nat, done: set<nat>) returns (steps: seq<Step>)
    requires t < 2 && Small(s, Filling(t, Pair(b), done)) && t == Staging(s.mem) && s.mem.dumped
    requires i < 2 && i !in done
    ensures
      var u := Exec(s, steps);
      && Small(u, Filling(t, Pair(b), done + {i})) && StagingOnly(s, u) && u.mem.dumped
      && u.mem.buf[t] == s.mem.buf[t][i := b] && Restart !in steps
  {
    steps := One(s, Advance(i));
    NotDone(2, done, i);
  }

  lemma FillsDone(s: State, t: nat, b: byte) returns (steps: seq<Step>)
    requires t < 2 && Small(s, Filling(t, Pair(b), {0, 1})) && t == Staging(s.mem) && s.mem.dumped
    ensures
      var u := Exec(s, steps);
      && Small(u, StoreLen(t, Pair(b))) && StagingOnly(s, u) && u.mem.dumped && u.mem.buf[t] == s.mem.buf[t]
      && Restart !in steps
  {
    assert AllDone(2, {0, 1});
    steps := Two(s, Advance(0), Advance(0));
  }

  lemma FillsBoth(s: State, t: nat, b: byte, none: set<nat>, one: set<nat>, both: set<nat>) returns (steps: seq<Step>)
    requires t < 2 && Small(s, Filling(t, Pair(b), none)) && t == Staging(s.mem) && s.mem.dumped
    requires none == {} && one == {0} && both == {0, 1}
    ensures
      var u := Exec(s, steps);
      && Small(u, Filling(t, Pair(b), both)) && StagingOnly(s, u) && u.mem.dumped && u.mem.buf[t] == Pair(b)
      && Restart !in steps
  {
    assert none + {0} == one && one + {1} == both;
    var a := FillsOne(s, t, b, 0, none);
    var s1 := Exec(s, a);
    var c := FillsOne(s1, t, b, 1, one);
    var s2 := Exec(s1, c);
    BothFilled(s.mem.buf[t], s1.mem.buf[t], s2.mem.buf[t], b);
    StagingThen(s, s1, s2);
    steps := Then(s, a, c);
  }

  lemma StagingThen(s: State, t: State, u: State)
    requires StagingOnly(s, t) && StagingOnly(t, u)
    ensures StagingOnly(s, u)
  {
  }

  lemma BothFilled(x: seq<byte>, y: seq<byte>, z: seq<byte>, b: byte)
    requires |x| == 2 && y == x[0 := b] && z == y[1 := b]
    ensures z == Pair(b)
  {
  }

  lemma Fills(s: State, t: nat, b: byte) returns (steps: seq<Step>)
    requires t < 2 && Small(s, Filling(t, Pair(b), {})) && t == Staging(s.mem) && s.mem.dumped
    ensures
      var u := Exec(s, steps);
      && Small(u, StoreLen(t, Pair(b))) && StagingOnly(s, u) && u.mem.dumped && u.mem.buf[t] == Pair(b)
      && Restart !in steps
  {
    var fill := FillsBoth(s, t, b, {}, {0}, {0, 1});
    var done := FillsDone(Exec(s, fill), t, b);
    steps := Then(s, fill, done);
  }

  /** From `s` to `t` the pair `b` was published, up to the generation store. */
  ghost predicate Flipped(s: State, t: State, b: byte) {
    && t.cap == s.cap && t.readers == s.readers && t.doomed == s.doomed
    && Shaped(s.cap, s.mem) && Shaped(t.cap, t.mem)
    && t.mem.published == Staging(s.mem) && t.mem.generation == s.mem.generation && t.mem.dumped
    && t.mem.buf[t.mem.published] == Pair(b) && t.mem.bufLen[t.mem.published] == 2
    && t.mem.buf[s.mem.published] == s.mem.buf[s.mem.published]
    && t.hist.snaps == s.hist.snaps + [Pair(b)] && t.hist.bumps == s.hist.bumps
  }

  lemma FlipsPair(s: State, t: nat, b: byte) returns (steps: seq<Step>)
    requires t < 2 && Small(s, StoreLen(t, Pair(b))) && t == Staging(s.mem) && s.mem.dumped
    requires s.mem.buf[t] == Pair(b)
    ensures var u := Exec(s, steps); Small(u, LoadGeneration) && Flipped(s, u, b) && Restart !in steps
  {
    steps := Two(s, Advance(0), Advance(0));
    assert Take(Pair(b), 2) == Pair(b);
  }

  lemma CommitsPair(s: State, t: nat, b: byte) returns (steps: seq<Step>)
    requires t < 2 && Small(s, StoreLen(t, Pair(b))) && t == Staging(s.mem) && s.mem.dumped
    requires s.mem.buf[t] == Pair(b)
    ensures
      var u := Exec(s, steps);
      Small(u, StoreGeneration(s.mem.generation)) && Flipped(s, u, b) && Restart !in steps
  {
    var flip := FlipsPair(s, t, b);
    var load := One(Exec(s, flip), Advance(0));
    steps := Then(s, flip, load);
  }

  /** An armed writer publishes the pair `b`, all but the generation store. */
  lemma Publishes(s: State, b: byte) returns (steps: seq<Step>)
    requires Small(s, Idle) && !s.mem.dumped
    ensures
      var t := Exec(s, steps);
      Small(t, StoreGeneration(s.mem.generation)) && Flipped(s, t, b) && Restart !in steps
  {
    var gate := Gates(s, b);
    var fill := Fills(Exec(s, gate), Staging(s.mem), b);
    steps := Then(s, gate, fill);
    var commit := CommitsPair(Exec(s, steps), Staging(s.mem), b);
    steps := Then(s, steps, commit);
  }

  // ---- One reader, caught between its two bytes ------------------------------------------

  const OUT: seq<byte> := [0, 0]

  /** The reader has copied byte 0 of buffer 1, trusts generation 1 and has yet to copy byte 1. */
  ghost predicate Caught(r: Reader, first: byte) {
    && r.pc.Copying? && r.pc.active == 1 && r.pc.n == 2 && r.pc.copied == {0}
    && r.pc.call.g1 == 1 && r.pc.call.base == 1
    && |r.out| == 2 && r.out[0] == first && r.log == []
  }

  /** The reader stands at its first byte of buffer 1, trusting generation 1. */
  ghost predicate Poised(r: Reader) {
    && r.pc.Copying? && r.pc.active == 1 && r.pc.n == 2 && r.pc.copied == {}
    && r.pc.call.g1 == 1 && r.pc.call.base == 1 && |r.out| == 2 && r.log == []
  }

  ghost predicate SameRun(s: State, t: State) {
    && t.cap == s.cap && t.pc == s.pc && t.doomed == s.doomed && t.mem == s.mem
    && t.hist.snaps == s.hist.snaps && t.hist.bumps == s.hist.bumps && |t.readers| == |s.readers| == 1
  }

  lemma StartsCall(s: State) returns (steps: seq<Step>)
    requires Small(s, Idle) && |s.readers| == 1 && s.readers[0].pc == Resting && s.readers[0].log == []
    requires s.mem.generation == 1 == s.hist.bumps
    ensures
      var t := Exec(s, steps);
      && SameRun(s, t) && t.readers[0].pc.LoadPublished? && |t.readers[0].out| == 2 && t.readers[0].log == []
      && t.readers[0].pc.call.g1 == 1 == t.readers[0].pc.call.base && Restart !in steps
  {
    steps := One(s, StartRead(0, OUT));
  }

  lemma LoadsCall(s: State) returns (steps: seq<Step>)
    requires Small(s, Idle) && |s.readers| == 1 && s.readers[0].pc.LoadPublished? && s.readers[0].log == []
    requires |s.readers[0].out| == 2 && s.readers[0].pc.call.g1 == 1 == s.readers[0].pc.call.base
    requires s.mem.published == 1 && s.mem.bufLen[1] == 2
    ensures
      var t := Exec(s, steps);
      SameRun(s, t) && Poised(t.readers[0]) && Restart !in steps
  {
    steps := Two(s, AdvanceRead(0, 0), AdvanceRead(0, 0));
  }

  lemma OpensCopy(s: State) returns (steps: seq<Step>)
    requires WellShaped(s) && |s.readers| == 1 && Poised(s.readers[0])
    ensures
      var t := Exec(s, steps);
      SameRun(s, t) && Caught(t.readers[0], s.mem.buf[1][0]) && Restart !in steps
  {
    steps := One(s, AdvanceRead(0, 0));
    NotDone(2, {}, 0);
    assert {} + {0} == {0};
  }

  lemma Opens(s: State) returns (steps: seq<Step>)
    requires Small(s, Idle) && |s.readers| == 1 && s.readers[0].pc == Resting && s.readers[0].log == []
    requires s.mem.generation == 1 == s.hist.bumps && s.mem.published == 1 && s.mem.bufLen[1] == 2
    ensures
      var t := Exec(s, steps);
      && Small(t, Idle) && t.mem == s.mem && t.hist.snaps == s.hist.snaps && t.hist.bumps == 1
      && |t.readers| == 1 && Caught(t.readers[0], s.mem.buf[1][0]) && Restart !in steps
  {
    var start := StartsCall(s);
    var load := LoadsCall(Exec(s, start));
    steps := Then(s, start, load);
    var copy := OpensCopy(Exec(s, steps));
    steps := Then(s, steps, copy);
  }

  lemma ClosesCopy(s: State, first: byte) returns (steps: seq<Step>)
    requires WellShaped(s) && |s.readers| == 1 && Caught(s.readers[0], first)
    ensures
      var t := Exec(s, steps);
      && SameRun(s, t) && t.readers[0].pc == s.readers[0].pc.(copied := {0, 1})
      && t.readers[0].log == [] && t.readers[0].out == [first, s.mem.buf[1][1]] && Restart !in steps
  {
    steps := One(s, AdvanceRead(0, 1));
    NotDone(2, {0}, 1);
    assert {0} + {1} == {0, 1};
  }

  lemma ClosesReturn(s: State) returns (steps: seq<Step>)
    requires WellShaped(s) && |s.readers| == 1 && s.readers[0].pc.Copying? && s.readers[0].log == []
    requires s.readers[0].pc.copied == {0, 1} && s.readers[0].pc.n == 2
    requires s.readers[0].pc.call.g1 == 1 == s.readers[0].pc.call.base && s.mem.generation == 1
    ensures
      var t := Exec(s, steps);
      && t.hist.snaps == s.hist.snaps && t.hist.bumps == s.hist.bumps && |t.readers| == 1 && |t.readers[0].log| == 1
      && var o := t.readers[0].log[0];
         && Delivered(o) && o.call.base == 1 && o.endBumps == s.hist.bumps && o.bytes == s.readers[0].out[..2]
         && Restart !in steps
  {
    assert AllDone(2, {0, 1});
    steps := Two(s, AdvanceRead(0, 0), AdvanceRead(0, 0));
  }

  lemma Closes(s: State, first: byte) returns (steps: seq<Step>)
    requires WellShaped(s) && s.cap == 2 && |s.readers| == 1 && Caught(s.readers[0], first) && s.mem.generation == 1
    ensures
      var t := Exec(s, steps);
      && t.hist.snaps == s.hist.snaps && t.hist.bumps == s.hist.bumps && |t.readers| == 1 && |t.readers[0].log| == 1
      && var o := t.readers[0].log[0];
         && Delivered(o) && o.call.base == 1 && o.endBumps == s.hist.bumps
         && o.bytes == [first, s.mem.buf[1][1]] && Restart !in steps
  {
    var copy := ClosesCopy(s, first);
    var s1 := Exec(s, copy);
    var last := ClosesReturn(s1);
    steps := Then(s, copy, last);
    assert s1.readers[0].out[..2] == [first, s.mem.buf[1][1]];
  }

  /** A fresh segment of capacity 2 with one reader. */
  ghost predicate Fresh(s: State) {
    && Small(s, Idle) && !s.mem.dumped && s.mem.published == 0 == s.mem.generation == s.hist.bumps
    && s.hist.snaps == [] && |s.readers| == 1 && s.readers[0].pc == Resting && s.readers[0].log == []
  }

  lemma InitIsFresh() returns (s: State)
    ensures s == Init(2, 1) && Fresh(s)
  {
    s := Init(2, 1);
  }

  /** The same, with the generation store. */
  lemma PublishesFully(s: State, b: byte) returns (steps: seq<Step>, flipped: State)
    requires Small(s, Idle) && !s.mem.dumped
    ensures
      var t := Exec(s, steps);
      && Flipped(s, flipped, b) && Small(t, Idle) && t.readers == flipped.readers
      && t.mem == flipped.mem.(generation := (s.mem.generation + 1) % TWO_32)
      && t.hist.snaps == flipped.hist.snaps && t.hist.bumps == flipped.hist.bumps + 1 && Restart !in steps
  {
    var publish := Publishes(s, b);
    flipped := Exec(s, publish);
    var bump := Bumps(flipped, s.mem.generation);
    steps := Then(s, publish, bump);
  }

  lemma FirstPublished(s: State, t: State, u: State, b: byte)
    requires Fresh(s) && Flipped(s, t, b) && Small(u, Idle) && u.readers == t.readers
    requires u.mem == t.mem.(generation := (s.mem.generation + 1) % TWO_32)
    requires u.hist.snaps == t.hist.snaps && u.hist.bumps == t.hist.bumps + 1
    ensures u.readers == s.readers && u.mem.generation == 1 == u.hist.bumps
    ensures u.mem.published == 1 && u.mem.bufLen[1] == 2 && u.mem.buf[1] == Pair(b) && u.hist.snaps == [Pair(b)]
  {
  }

  lemma FirstPublish(s: State, b: byte) returns (steps: seq<Step>)
    requires Fresh(s)
    ensures
      var t := Exec(s, steps);
      && Small(t, Idle) && t.readers == s.readers && t.mem.generation == 1 == t.hist.bumps
      && t.mem.published == 1 && t.mem.bufLen[1] == 2 && t.mem.buf[1] == Pair(b) && t.hist.snaps == [Pair(b)]
    ensures Restart !in steps
  {
    var flipped;
    steps, flipped := PublishesFully(s, b);
    FirstPublished(s, flipped, Exec(s, steps), b);
  }

  lemma CaughtSteps(s: State, b: byte) returns (steps: seq<Step>)
    requires Fresh(s)
    ensures
      var t := Exec(s, steps);
      && Small(t, Idle) && |t.readers| == 1 && Caught(t.readers[0], b)
      && t.mem.generation == 1 == t.hist.bumps && t.mem.published == 1 && t.hist.snaps == [Pair(b)]
    ensures Restart !in steps
  {
    var publish := FirstPublish(s, b);
    var open := Opens(Exec(s, publish));
    steps := Then(s, publish, open);
  }

  // ---- A takeover out of step ------------------------------------------------------------

  /** An idle writer resets, publishes a second pair and dies before its generation store. */
  lemma Cuts(s: State) returns (steps: seq<Step>)
    requires Small(s, Idle)
    ensures
      var t := Exec(s, steps);
      && WellShaped(t) && t.cap == 2 && t.pc == Dead && t.readers == s.readers
      && t.mem.generation == s.mem.generation && t.mem.published == Staging(s.mem)
      && t.hist.snaps == s.hist.snaps + [Pair(2)] && t.hist.bumps == s.hist.bumps && Restart !in steps
  {
    var arm := Rearms(s);
    var publish := Publishes(Exec(s, arm), 2);
    steps := Then(s, arm, publish);
    var kill := One(Exec(s, steps), Kill);
    steps := Then(s, steps, kill);
  }

  /** The next process attaches and begins its first reset. */
  lemma NextLifetime(s: State) returns (steps: seq<Step>)
    requires WellShaped(s) && s.cap == 2 && s.pc == Dead
    ensures
      var t := Exec(s, steps);
      && t.cap == 2 && t.readers == s.readers && t.mem.generation == s.mem.generation
      && t.hist.snaps == s.hist.snaps && t.hist.bumps == s.hist.bumps && t.mem.buf[Staging(s.mem)] == Pair(0)
  {
    Exec1(s, Restart);
    var s1 := Exec(s, [Restart]);
    var zero := Zeroes(s1);
    ExecConcat(s, [Restart], zero);
    steps := [Restart] + zero;
  }

  lemma CaughtThenCut(s: State, b: byte) returns (steps: seq<Step>)
    requires Fresh(s)
    ensures
      var t := Exec(s, steps);
      && WellShaped(t) && t.cap == 2 && t.pc == Dead && |t.readers| == 1 && Caught(t.readers[0], b)
      && t.mem.generation == 1 && t.mem.published == 0
      && t.hist.snaps == [Pair(b)] + [Pair(2)] && t.hist.bumps == 1 && Restart !in steps
  {
    var first := CaughtSteps(s, b);
    var cut := Cuts(Exec(s, first));
    steps := Then(s, first, cut);
  }

  lemma TakesOver(s: State, b: byte) returns (steps: seq<Step>)
    requires Fresh(s)
    ensures
      var t := Exec(s, steps);
      && t.cap == 2 && |t.readers| == 1 && Caught(t.readers[0], b) && t.mem.generation == 1
      && t.hist.snaps == [Pair(b)] + [Pair(2)] && t.hist.bumps == 1 && t.mem.buf[1] == Pair(0)
  {
    var first := CaughtThenCut(s, b);
    var next := NextLifetime(Exec(s, first));
    ExecConcat(s, first, next);
    steps := first + next;
  }

  /** The caught reader finishes its call and delivers its first byte with the new second one. */
  lemma Tears(s: State, steps: seq<Step>, second: byte) returns (schedule: seq<Step>, o: Outcome)
    requires WellShaped(s)
    requires
      var t := Exec(s, steps);
      && t.cap == 2 && |t.readers| == 1 && Caught(t.readers[0], 1) && t.mem.generation == 1
      && t.hist.snaps != [] && t.hist.snaps[0] == Pair(1)
      && (forall i | 0 < i < |t.hist.snaps| :: t.hist.snaps[i] == Pair(2)) && t.mem.buf[1][1] == second != 1
    ensures Restart !in steps ==> Restart !in schedule
    ensures Logged(Exec(s, schedule), o) && Delivered(o)
    ensures o.call.base == 1 && o.endBumps == Exec(s, steps).hist.bumps
    ensures Torn(Exec(s, schedule).hist.snaps, o.bytes)
  {
    var close := Closes(Exec(s, steps), 1);
    ExecConcat(s, steps, close);
    schedule := steps + close;
    var t := Exec(s, schedule);
    o := t.readers[0].log[0];
    TornPair(t.hist.snaps, 1, second);
  }

  lemma SafeIsNotTorn(schedule: seq<Step>, o: Outcome)
    requires Logged(Exec(Init(2, 1), schedule), o) && Delivered(o)
    requires Careful(Init(2, 1), schedule) && Unwrapped(o)
    ensures !Torn(Exec(Init(2, 1), schedule).hist.snaps, o.bytes)
  {
    NoTornRead(2, 1, schedule, o);
    var snaps := Exec(Init(2, 1), schedule).hist.snaps;
    assert snaps[o.commit - 1] in snaps && o.bytes <= snaps[o.commit - 1];
  }

  /**
   A writer that takes the segment over between its predecessor's `published` and `generation`
   stores zeroes the very buffer a reader is copying: the call returns 1 with bytes of no
   snapshot, after a single generation store.
   */
  lemma StaleTakeoverTears() returns (schedule: seq<Step>, o: Outcome)
    ensures Logged(Exec(Init(2, 1), schedule), o) && Delivered(o) && Unwrapped(o)
    ensures Torn(Exec(Init(2, 1), schedule).hist.snaps, o.bytes)
    ensures !Careful(Init(2, 1), schedule)
  {
    var s := InitIsFresh();
    var steps := TakesOver(s, 1);
    schedule, o := Tears(s, steps, 0);
    if Careful(Init(2, 1), schedule) {
      SafeIsNotTorn(schedule, o);
    }
  }

  lemma TornPair(snaps: seq<seq<byte>>, x: byte, y: byte)
    requires snaps != [] && snaps[0] == Pair(1) && (forall i | 0 < i < |snaps| :: snaps[i] == Pair(2)) && x == 1 != y
    ensures Torn(snaps, [x, y])
  {
    forall snap | snap in snaps
      ensures !([x, y] <= snap)
    {
      assert [x, y][0] == x && [x, y][1] == y;
    }
  }

  // ---- A generation word that wraps ------------------------------------------------------

  /** From `s` to `t` the idle writer completed `n` resets and publishes of the pair 2. */
  ghost predicate Cycled(s: State, t: State, n: nat) {
    && Small(s, Idle) && Small(t, Idle) && t.readers == s.readers
    && t.mem.generation == (s.mem.generation + n) % TWO_32 && t.hist.bumps == s.hist.bumps + n
    && t.mem.published == (s.mem.published + n) % 2
    && |t.hist.snaps| == |s.hist.snaps| + n && s.hist.snaps <= t.hist.snaps
    && (forall i | |s.hist.snaps| <= i < |t.hist.snaps| :: t.hist.snaps[i] == Pair(2))
    && (n > 0 ==> t.mem.buf[t.mem.published] == Pair(2))
    && (n > 1 ==> t.mem.buf[Staging(t.mem)] == Pair(2))
  }

  lemma Bumps(s: State, g: nat) returns (steps: seq<Step>)
    requires Small(s, StoreGeneration(g))
    ensures
      var t := Exec(s, steps);
      && Small(t, Idle) && t.readers == s.readers && t.mem == s.mem.(generation := (g + 1) % TWO_32)
      && t.hist.snaps == s.hist.snaps && t.hist.bumps == s.hist.bumps + 1 && Restart !in steps
  {
    steps := One(s, Advance(0));
  }

  lemma Rearms(s: State) returns (steps: seq<Step>)
    requires Small(s, Idle)
    ensures var t := Exec(s, steps); Small(t, Idle) && StagingOnly(s, t) && !t.mem.dumped && Restart !in steps
  {
    var zero := Zeroes(s);
    var arm := Arms(Exec(s, zero), Staging(s.mem));
    steps := Then(s, zero, arm);
  }

  /** Re-arming, publishing and the generation store, one after another, make one cycle. */
  lemma MakesCycle(s: State, armed: State, flipped: State, t: State)
    requires Small(s, Idle) && StagingOnly(s, armed) && Flipped(armed, flipped, 2) && Small(t, Idle)
    requires t.readers == flipped.readers
    requires t.hist.snaps == flipped.hist.snaps && t.hist.bumps == flipped.hist.bumps + 1
    requires t.mem == flipped.mem.(generation := (s.mem.generation + 1) % TWO_32)
    ensures Cycled(s, t, 1) && t.mem.buf[Staging(t.mem)] == s.mem.buf[s.mem.published]
  {
  }

  lemma CyclesOnce(s: State) returns (steps: seq<Step>)
    requires Small(s, Idle)
    ensures
      var t := Exec(s, steps);
      Cycled(s, t, 1) && t.mem.buf[Staging(t.mem)] == s.mem.buf[s.mem.published] && Restart !in steps
  {
    var arm := Rearms(s);
    var s1 := Exec(s, arm);
    var publish, flipped := PublishesFully(s1, 2);
    MakesCycle(s, s1, flipped, Exec(s1, publish));
    steps := Then(s, arm, publish);
  }

  lemma NextParity(a: nat)
    ensures (a % 2 + 1) % 2 == (a + 1) % 2
  {
  }

  lemma SnapsOnce(a: seq<seq<byte>>, b: seq<seq<byte>>, c: seq<seq<byte>>)
    requires a <= b && b <= c && |c| == |b| + 1 && c[|b|] == Pair(2)
    requires forall i | |a| <= i < |b| :: b[i] == Pair(2)
    ensures a <= c && forall i | |a| <= i < |c| :: c[i] == Pair(2)
  {
  }

  lemma CycledTwice(s: State, t: State, u: State, n: nat)
    requires s.mem.generation < TWO_32 && Cycled(s, t, n) && Cycled(t, u, 1)
    requires u.mem.buf[Staging(u.mem)] == t.mem.buf[t.mem.published]
    ensures Cycled(s, u, n + 1)
  {
    NextWord(s.mem.generation + n);
    NextParity(s.mem.published + n);
    SnapsOnce(s.hist.snaps, t.hist.snaps, u.hist.snaps);
  }

  lemma {:induction false} Cycles(s: State, n: nat) returns (steps: seq<Step>)
    requires Small(s, Idle) && s.mem.generation < TWO_32
    ensures Cycled(s, Exec(s, steps), n) && Restart !in steps
  {
    if n == 0 {
      steps := [];
    } else {
      var fewer := Cycles(s, n - 1);
      var once := CyclesOnce(Exec(s, fewer));
      CycledTwice(s, Exec(s, fewer), Exec(Exec(s, fewer), once), n - 1);
      steps := Then(s, fewer, once);
    }
  }

  /** 2^32 cycles later the generation word and the published index are back where they were. */
  lemma FullCircle(s: State, t: State)
    requires s.mem.generation == 1 == s.mem.published && Cycled(s, t, TWO_32)
    ensures
      t.mem.generation == 1 && t.mem.published == 1 && t.mem.buf[1] == Pair(2) && t.hist.bumps == s.hist.bumps + TWO_32
  {
  }

  /**
   Exactly 2^32 publishes inside one attempt bring the generation word back to the value the
   reader trusts: with one writer that never dies, the call returns 1 with bytes of no snapshot.
   */
  lemma {:induction false} WrappedGenerationTears() returns (schedule: seq<Step>, o: Outcome)
    ensures Restart !in schedule && Careful(Init(2, 1), schedule)
    ensures Logged(Exec(Init(2, 1), schedule), o) && Delivered(o) && o.endBumps - o.call.base == TWO_32
    ensures Torn(Exec(Init(2, 1), schedule).hist.snaps, o.bytes)
  {
    var s := InitIsFresh();
    var first := CaughtSteps(s, 1);
    var caught := Exec(s, first);
    var steps := Cycles(caught, TWO_32);
    FullCircle(caught, Exec(caught, steps));
    ExecConcat(s, first, steps);
    schedule, o := Tears(s, first + steps, 2);
    NoRestartIsCareful(s, schedule);
  }

  // ---- Four generation stores are enough to make a call give up --------------------------

  /** The one reader begins attempt `k` of a call that began after `b` generation stores. */
  ghost predicate Trying(s: State, k: nat, b: nat) {
    && Small(s, Idle) && s.mem.generation < TWO_32 && s.hist.bumps == b + k && |s.readers| == 1
    && var r := s.readers[0];
       && r.pc.LoadPublished? && r.out == [] && r.log == []
       && r.pc.call.attempt == k && r.pc.call.startBumps == b && r.pc.call.g1 == s.mem.generation
  }

  /** It is about to re-check a generation word that a publish has replaced. */
  ghost predicate Overtaken(s: State, k: nat, b: nat) {
    && Small(s, Idle) && s.mem.generation < TWO_32 && s.hist.bumps == b + k + 1 && |s.readers| == 1
    && var r := s.readers[0];
       && r.pc.Recheck? && r.out == [] && r.log == []
       && r.pc.call.attempt == k && r.pc.call.startBumps == b && r.pc.call.g1 != s.mem.generation
  }

  /** The reader moved within the attempt `s` is in; it has nothing to deliver into. */
  ghost predicate SameAttempt(s: State, t: State) {
    && SameRun(s, t) && WellShaped(t) && t.readers[0].out == [] && t.readers[0].log == s.readers[0].log
  }

  lemma LoadsNothing(s: State) returns (steps: seq<Step>)
    requires Small(s, Idle) && |s.readers| == 1 && s.readers[0].pc.LoadPublished? && s.readers[0].out == []
    ensures
      var t := Exec(s, steps);
      && SameAttempt(s, t) && t.readers[0].pc.Copying? && t.readers[0].pc.n == 0
      && t.readers[0].pc.call == s.readers[0].pc.call && Restart !in steps
  {
    steps := Two(s, AdvanceRead(0, 0), AdvanceRead(0, 0));
  }

  lemma CopiesNothing(s: State) returns (steps: seq<Step>)
    requires Small(s, Idle) && |s.readers| == 1 && s.readers[0].out == []
    requires s.readers[0].pc.Copying? && s.readers[0].pc.n == 0
    ensures
      var t := Exec(s, steps);
      && SameAttempt(s, t) && t.readers[0].pc.Recheck? && t.readers[0].pc.call == s.readers[0].pc.call
      && Restart !in steps
  {
    steps := One(s, AdvanceRead(0, 0));
  }

  lemma PublishOvertakes(s: State, mid: State, t: State, k: nat, b: nat)
    requires Trying(s, k, b) && SameAttempt(s, mid) && mid.readers[0].pc.Recheck?
    requires mid.readers[0].pc.call == s.readers[0].pc.call && Cycled(mid, t, 1)
    ensures Overtaken(t, k, b)
  {
  }

  lemma IsOvertaken(s: State, k: nat, b: nat) returns (steps: seq<Step>)
    requires Trying(s, k, b)
    ensures Overtaken(Exec(s, steps), k, b) && Restart !in steps
  {
    var load := LoadsNothing(s);
    var copy := CopiesNothing(Exec(s, load));
    steps := Then(s, load, copy);
    var mid := Exec(s, steps);
    var publish := CyclesOnce(mid);
    PublishOvertakes(s, mid, Exec(mid, publish), k, b);
    steps := Then(s, steps, publish);
  }

  lemma Rechecks(s: State, k: nat, b: nat) returns (steps: seq<Step>)
    requires Overtaken(s, k, b) && k < 4
    ensures
      var t := Exec(s, steps);
      && Restart !in steps
      && if k < 3 then Trying(t, k + 1, b)
         else
           && |t.readers| == 1 && |t.readers[0].log| == 1
           && var o := t.readers[0].log[0];
              o.code == 0 && o.call.startBumps == b && o.endBumps == b + 4
  {
    steps := One(s, AdvanceRead(0, 0));
  }

  lemma {:induction false} GivesUp(s: State, k: nat, b: nat) returns (steps: seq<Step>)
    requires Trying(s, k, b) && k < 4
    ensures
      var t := Exec(s, steps);
      && Restart !in steps && |t.readers| == 1 && |t.readers[0].log| == 1
      && var o := t.readers[0].log[0];
         o.code == 0 && o.call.startBumps == b && o.endBumps == b + 4
    decreases 4 - k
  {
    var over := IsOvertaken(s, k, b);
    var check := Rechecks(Exec(s, over), k, b);
    steps := Then(s, over, check);
    if k < 3 {
      var more := GivesUp(Exec(s, steps), k + 1, b);
      steps := Then(s, steps, more);
    }
  }

  lemma StartsTrying(s: State) returns (steps: seq<Step>)
    requires Small(s, Idle) && |s.readers| == 1 && s.readers[0].pc == Resting && s.readers[0].log == []
    requires s.mem.generation == 1 == s.hist.bumps
    ensures Trying(Exec(s, steps), 0, 1) && Restart !in steps
  {
    steps := One(s, StartRead(0, []));
  }

  /** The retry bound is exact: some call returns 0 after exactly four generation stores. */
  lemma {:induction false} FourStoresExhaust() returns (schedule: seq<Step>, o: Outcome)
    ensures Restart !in schedule && Logged(Exec(Init(2, 1), schedule), o)
    ensures o.code == 0 && o.endBumps == o.call.startBumps + 4
  {
    var s := InitIsFresh();
    var first := FirstPublish(s, 1);
    var begin := StartsTrying(Exec(s, first));
    schedule := Then(s, first, begin);
    var more := GivesUp(Exec(s, schedule), 0, 1);
    schedule := Then(s, schedule, more);
    o := Exec(s, schedule).readers[0].log[0];
  }
}
