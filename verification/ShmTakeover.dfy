/**
 When may a new writer process take a segment over from a dead one? Exactly when no reader is
 exposed: otherwise one publish by the new process makes that reader's call return 1 with bytes
 that are not those of the commit it names.
 */
module ShmTakeover {
  import opened Bytes
  import opened ShmProtocol
  import opened ShmSafety
  import opened ShmTheorems
  import opened ShmSolo

  /** Some careful continuation of `u` logs a call that trusted its copy and should not have. */
  ghost predicate Spoils(u: State, rest: seq<Step>, o: Outcome)
    requires WellShaped(u)
  {
    && Careful(u, rest)
    && Logged(Exec(u, rest), o) && Delivered(o) && Unwrapped(o) && !Genuine(Exec(u, rest).hist, o)
  }

  ghost predicate Safe(u: State)
    requires WellShaped(u)
  {
    forall rest: seq<Step>, o: Outcome :: !Spoils(u, rest, o)
  }

  // ---- A reader that finishes over a changed byte ----------------------------------------

  /** Reader `i` is copying, trusts the current generation, and gets `x` as its byte `j`. */
  ghost predicate Misled(s: State, i: nat, j: nat, x: byte) {
    && WellShaped(s) && i < |s.readers| && s.readers[i].pc.Copying?
    && var Copying(c, a, k, n, copied) := s.readers[i].pc;
       && c.g1 == s.mem.generation && j < n && s.mem.buf[a][j] == x
       && (j in copied ==> s.readers[i].out[j] == x)
  }

  /** The call of reader `i` of `s` has returned in `t`, with `x` as its byte `j`. */
  ghost predicate ReturnedWith(s: State, t: State, i: nat, j: nat, x: byte)
    requires i < |s.readers| && s.readers[i].pc.Copying?
  {
    && Alone(s, t, i) && SameHistory(s, t)
    && |t.readers[i].log| == |s.readers[i].log| + 1
    && var o := t.readers[i].log[|s.readers[i].log|];
       && o.code == 1 && o.call == s.readers[i].pc.call && o.commit == s.readers[i].pc.commit
       && o.endBumps == s.hist.bumps && j < |o.bytes| && o.bytes[j] == x
  }

  lemma MisledReturns(s: State, i: nat, j: nat, x: byte) returns (steps: seq<Step>)
    requires Misled(s, i, j, x) && AllDone(s.readers[i].pc.n, s.readers[i].pc.copied)
    ensures ReturnedWith(s, Exec(s, steps), i, j, x) && Restart !in steps
  {
    var mid := TwoReadSteps(s, i);
    steps := [AdvanceRead(i, 0), AdvanceRead(i, 0)];
    assert mid.readers[i].pc.Recheck?;
  }

  lemma MisledCopies(s: State, i: nat, j: nat, x: byte, c: nat)
    requires Misled(s, i, j, x) && c < s.readers[i].pc.n && c !in s.readers[i].pc.copied
    ensures
      var t := Apply(s, AdvanceRead(i, c));
      && Misled(t, i, j, x) && Alone(s, t, i) && SameHistory(s, t)
      && t.readers[i].log == s.readers[i].log
      && t.readers[i].pc == s.readers[i].pc.(copied := s.readers[i].pc.copied + {c})
  {
    ReadStep(s, i, c);
    assert !AllDone(s.readers[i].pc.n, s.readers[i].pc.copied);
  }

  lemma {:induction false} MisledFinishes(s: State, i: nat, j: nat, x: byte) returns (steps: seq<Step>)
    requires Misled(s, i, j, x)
    ensures ReturnedWith(s, Exec(s, steps), i, j, x) && Restart !in steps
    decreases |UpTo(s.readers[i].pc.n) - s.readers[i].pc.copied|
  {
    var n, copied := s.readers[i].pc.n, s.readers[i].pc.copied;
    if AllDone(n, copied) {
      steps := MisledReturns(s, i, j, x);
    } else {
      var c: nat :| c < n && c !in copied;
      MisledCopies(s, i, j, x, c);
      var one := One(s, AdvanceRead(i, c));
      assert UpTo(n) - (copied + {c}) == UpTo(n) - copied - {c} && c in UpTo(n) - copied;
      var more := MisledFinishes(Exec(s, one), i, j, x);
      steps := Then(s, one, more);
    }
  }

  // ---- A new process that publishes ------------------------------------------------------

  /** Readers and commits are as they were; the gate may differ, and the staging buffer. */
  ghost predicate Behind(s: State, t: State) {
    && t.cap == s.cap && t.readers == s.readers && SameHistory(s, t)
    && WellShaped(s) && WellShaped(t)
    && t.mem.published == s.mem.published && t.mem.generation == s.mem.generation
  }

  lemma Enters(s: State, data: seq<byte>) returns (steps: seq<Step>)
    requires WellShaped(s) && s.pc == Idle && !s.doomed && !s.mem.dumped
    ensures
      var t := Exec(s, steps);
      && Behind(s, t) && !t.doomed && t.pc == Filling(Staging(s.mem), data, {})
      && t.mem == s.mem.(dumped := true) && Restart !in steps
  {
    var start := One(s, StartPublish(data));
    var gate := Two(Exec(s, start), Advance(0), Advance(0));
    steps := Then(s, start, gate);
  }

  lemma FillsByte(s: State, t: nat, data: seq<byte>, done: set<nat>, j: nat) returns (steps: seq<Step>)
    requires WellShaped(s) && s.pc == Filling(t, data, done) && !s.doomed && t == Staging(s.mem)
    requires j < |data| && j < s.cap && j !in done
    ensures
      var u := Exec(s, steps);
      && Behind(s, u) && !u.doomed && u.pc == Filling(t, data, done + {j})
      && u.mem == PokeByte(s.mem, t, j, data[j]) && Restart !in steps
  {
    steps := One(s, Advance(j));
    assert !AllDone(Min(|data|, s.cap), done);
  }

  lemma BehindThen(s: State, t: State, u: State)
    requires Behind(s, t) && Behind(t, u)
    ensures Behind(s, u)
  {
  }

  /** The gate and one byte of the copy. */
  lemma StagesByte(s: State, data: seq<byte>, j: nat) returns (steps: seq<Step>)
    requires WellShaped(s) && s.pc == Idle && !s.doomed && !s.mem.dumped && j < |data| && j < s.cap
    ensures
      var t, a := Exec(s, steps), Staging(s.mem);
      && Behind(s, t) && !t.doomed && t.pc.Filling? && t.pc == Filling(a, data, t.pc.done) && j in t.pc.done
      && t.mem.buf[a][j] == data[j] && Restart !in steps
  {
    var done: set<nat> := {};
    var enter := Enters(s, data);
    var s1 := Exec(s, enter);
    var fill := FillsByte(s1, Staging(s.mem), data, done, j);
    BehindThen(s, s1, Exec(s1, fill));
    steps := Then(s, enter, fill);
  }

  lemma Clamps(s: State, t: nat, data: seq<byte>, done: set<nat>) returns (steps: seq<Step>)
    requires WellShaped(s) && s.pc == Filling(t, data, done) && !s.doomed && t == Staging(s.mem)
    requires AllDone(Min(|data|, s.cap), done)
    ensures
      var u := Exec(s, steps);
      Behind(s, u) && u.pc == StoreLen(t, data) && u.mem.buf == s.mem.buf && Restart !in steps
  {
    steps := Two(s, Advance(0), Advance(0));
  }

  lemma StoresLen(s: State, t: nat, data: seq<byte>) returns (steps: seq<Step>)
    requires WellShaped(s) && s.pc == StoreLen(t, data)
    ensures
      var u := Exec(s, steps);
      && Behind(s, u) && u.mem.buf == s.mem.buf && u.mem.bufLen[t] == Min(|data|, s.cap) && Restart !in steps
  {
    steps := One(s, Advance(0));
  }

  // ---- The exposed reader is misled ------------------------------------------------------

  function Other(b: byte): byte {
    if b == 0 then 1 else 0
  }

  /** A reader between two bytes: the new process overwrites the one still to come. */
  lemma MisleadsCopying(s: State, i: nat, j: nat, x: byte) returns (steps: seq<Step>)
    requires WellShaped(s) && s.pc == Idle && !s.doomed && !s.mem.dumped
    requires i < |s.readers| && s.readers[i].pc.Copying?
    requires
      var Copying(c, a, k, n, copied) := s.readers[i].pc;
      a == Staging(s.mem) && c.g1 == s.mem.generation && j < n && j !in copied
    ensures SameCall(s, Exec(s, steps), i) && Misled(Exec(s, steps), i, j, x) && Restart !in steps
  {
    var data: seq<byte> := seq(j + 1, _ => x);
    steps := StagesByte(s, data, j);
  }

  /** The new process publishes one byte, up to its flip. */
  lemma StagesOne(s: State, data: seq<byte>) returns (steps: seq<Step>)
    requires WellShaped(s) && s.pc == Idle && !s.doomed && !s.mem.dumped && s.cap > 0 && |data| == 1
    ensures
      var t, a := Exec(s, steps), Staging(s.mem);
      Behind(s, t) && t.mem.buf[a][0] == data[0] && t.mem.bufLen[a] == 1 && Restart !in steps
  {
    var a := Staging(s.mem);
    var fill := StagesByte(s, data, 0);
    var s1 := Exec(s, fill);
    var clamp := Clamps(s1, a, data, s1.pc.done);
    var s2 := Exec(s1, clamp);
    var store := StoresLen(s2, a, data);
    BehindThen(s1, s2, Exec(s2, store));
    BehindThen(s, s1, Exec(s2, store));
    var last := Then(s1, clamp, store);
    steps := Then(s, fill, last);
  }

  /** Reader `i` of `t` is in the same call of the same commit as in `s`. */
  ghost predicate SameCall(s: State, t: State, i: nat) {
    && SameHistory(s, t) && i < |s.readers| == |t.readers|
    && (s.readers[i].pc.LoadLen? || s.readers[i].pc.Copying?) && t.readers[i].pc.Copying?
    && t.readers[i].pc.call == s.readers[i].pc.call && t.readers[i].pc.commit == s.readers[i].pc.commit
  }

  /** A reader about to load the length: the new process stores a length of one as well. */
  lemma MisleadsLoading(s: State, i: nat, x: byte) returns (steps: seq<Step>)
    requires WellShaped(s) && s.pc == Idle && !s.doomed && !s.mem.dumped && s.cap > 0
    requires i < |s.readers| && s.readers[i].pc.LoadLen?
    requires s.readers[i].pc.active == Staging(s.mem) && s.readers[i].pc.call.g1 == s.mem.generation
    requires |s.readers[i].out| > 0
    ensures SameCall(s, Exec(s, steps), i) && Misled(Exec(s, steps), i, 0, x) && Restart !in steps
  {
    var stage := StagesOne(s, [x]);
    var t := Exec(s, stage);
    ReadStep(t, i, 0);
    var load := One(t, AdvanceRead(i, 0));
    steps := Then(s, stage, load);
  }

  /** What the invariant knows about an exposed reader. */
  lemma ExposedHolds(s: State, i: nat)
    requires Inv(s, true) && i < |s.readers| && Exposed(s.mem, s.hist, s.readers[i])
    ensures
      var r := s.readers[i];
      && (r.pc.LoadLen? || r.pc.Copying?) && r.pc.active == Staging(s.mem)
      && r.pc.call.g1 == s.mem.generation && r.pc.call.base == s.hist.bumps > 0
      && (r.pc.call.attempt == 0 ==> r.pc.call.g1 != 0) && r.pc.call.outCap == |r.out|
      && 1 <= r.pc.commit <= Commits(s.hist)
      && (r.pc.Copying? ==> r.pc.n <= |s.hist.snaps[r.pc.commit - 1]|)
  {
  }

  lemma SpoiltCall(h: History, o: Outcome, j: nat)
    requires o.code == 1 && (o.call.attempt == 0 ==> o.call.g1 != 0) && o.call.base == o.endBumps
    requires 1 <= o.commit <= Commits(h) && j < |o.bytes| && j < o.call.outCap
    requires j < |h.snaps[o.commit - 1]| ==> o.bytes[j] != h.snaps[o.commit - 1][j]
    ensures Delivered(o) && Unwrapped(o) && !Genuine(h, o)
  {
    var snap := h.snaps[o.commit - 1];
    if j < |snap| {
      assert Take(snap, o.call.outCap)[j] == snap[j];
    }
  }

  /** The reader's call, the snapshot it names, and a byte `j` that is not that snapshot's. */
  ghost predicate Doomed(s: State, i: nat, j: nat, x: byte)
    requires i < |s.readers| && s.readers[i].pc.Copying?
  {
    var c, k := s.readers[i].pc.call, s.readers[i].pc.commit;
    && c.base == s.hist.bumps && (c.attempt == 0 ==> c.g1 != 0) && j < c.outCap && 1 <= k <= Commits(s.hist)
    && (j < |s.hist.snaps[k - 1]| ==> x != s.hist.snaps[k - 1][j])
  }

  lemma ReturnedIsSpoilt(s: State, t: State, i: nat, j: nat, x: byte) returns (o: Outcome)
    requires i < |s.readers| && s.readers[i].pc.Copying? && ReturnedWith(s, t, i, j, x) && Doomed(s, i, j, x)
    ensures Logged(t, o) && Delivered(o) && Unwrapped(o) && !Genuine(t.hist, o)
  {
    o := t.readers[i].log[|s.readers[i].log|];
    SpoiltCall(t.hist, o, j);
  }

  lemma MisledIsSpoilt(u: State, first: seq<Step>, i: nat, j: nat, x: byte) returns (rest: seq<Step>, o: Outcome)
    requires WellShaped(u) && Restart !in first
    requires Misled(Exec(u, first), i, j, x) && Doomed(Exec(u, first), i, j, x)
    ensures Spoils(u, rest, o) && Restart !in rest
  {
    var t := Exec(u, first);
    var finish := MisledFinishes(t, i, j, x);
    o := ReturnedIsSpoilt(t, Exec(t, finish), i, j, x);
    rest := Then(u, first, finish);
    NoRestartIsCareful(u, rest);
  }

  /** The first state of a new writer process. */
  ghost predicate TakenOver(s: State, u: State) {
    && WellShaped(u) && u.cap == s.cap && u.pc == Idle && !u.doomed && u.readers == s.readers
    && u.mem == s.mem.(dumped := false) && u.hist.snaps == s.hist.snaps && u.hist.bumps == s.hist.bumps
  }

  /** An exposed call stays the call it was while the new process moves. */
  lemma StaysDoomed(s: State, u: State, t: State, i: nat, j: nat, x: byte)
    requires Inv(s, true) && TakenOver(s, u) && SameCall(u, t, i)
    requires i < |s.readers| && Exposed(s.mem, s.hist, s.readers[i]) && j < |s.readers[i].out|
    requires
      var k := s.readers[i].pc.commit;
      1 <= k <= Commits(s.hist) && (j < |s.hist.snaps[k - 1]| ==> x != s.hist.snaps[k - 1][j])
    ensures Doomed(t, i, j, x)
  {
    ExposedHolds(s, i);
  }

  lemma SpoilsCopying(s: State, u: State, i: nat) returns (rest: seq<Step>, o: Outcome)
    requires Inv(s, true) && TakenOver(s, u)
    requires i < |s.readers| && Exposed(s.mem, s.hist, s.readers[i]) && s.readers[i].pc.Copying?
    ensures Spoils(u, rest, o) && Restart !in rest
  {
    ExposedHolds(s, i);
    var r := s.readers[i];
    var j: nat :| j < r.pc.n && j !in r.pc.copied;
    var x := Other(s.hist.snaps[r.pc.commit - 1][j]);
    var first := MisleadsCopying(u, i, j, x);
    StaysDoomed(s, u, Exec(u, first), i, j, x);
    rest, o := MisledIsSpoilt(u, first, i, j, x);
  }

  lemma SpoilsLoading(s: State, u: State, i: nat) returns (rest: seq<Step>, o: Outcome)
    requires Inv(s, true) && s.cap > 0 && TakenOver(s, u)
    requires i < |s.readers| && Exposed(s.mem, s.hist, s.readers[i]) && s.readers[i].pc.LoadLen?
    ensures Spoils(u, rest, o) && Restart !in rest
  {
    ExposedHolds(s, i);
    var snap := s.hist.snaps[s.readers[i].pc.commit - 1];
    var x := if snap == [] then 0 else Other(snap[0]);
    var first := MisleadsLoading(u, i, x);
    StaysDoomed(s, u, Exec(u, first), i, 0, x);
    rest, o := MisledIsSpoilt(u, first, i, 0, x);
  }

  /** From the new writer's first state, one exposed reader is spoilt without another takeover. */
  lemma ExposedIsSpoilt(s: State, u: State, i: nat) returns (rest: seq<Step>, o: Outcome)
    requires Inv(s, true) && s.pc == Dead && s.cap > 0 && u == Exec(s, [Restart])
    requires i < |s.readers| && Exposed(s.mem, s.hist, s.readers[i])
    ensures Spoils(u, rest, o) && Restart !in rest
  {
    Exec1(s, Restart);
    if s.readers[i].pc.Copying? {
      rest, o := SpoilsCopying(s, u, i);
    } else {
      rest, o := SpoilsLoading(s, u, i);
    }
  }

  lemma UnexposedIsSafe(s: State, u: State)
    requires Inv(s, true) && NoneExposed(s) && u == Exec(s, [Restart])
    ensures Safe(u)
  {
    Exec1(s, Restart);
    ApplyKeeps(s, Restart, true);
    forall rest: seq<Step>, o: Outcome
      ensures !Spoils(u, rest, o)
    {
      if Careful(u, rest) && Logged(Exec(u, rest), o) {
        ExecInv(u, rest, true);
        LoggedIsSound(Exec(u, rest), o, true);
      }
    }
  }

  /**
   After any run whose earlier takeovers were safe, a takeover is safe if and only if no reader
   is exposed: then, and only then, every call that returns 1 after a nonzero generation, whatever
   happens next, delivers the beginning of the snapshot it names.
   */
  lemma TakeoverIff(cap: nat, n: nat, schedule: seq<Step>)
    requires cap > 0 && Careful(Init(cap, n), schedule) && Exec(Init(cap, n), schedule).pc == Dead
    ensures
      var s := Exec(Init(cap, n), schedule);
      Safe(Exec(s, [Restart])) <==> NoneExposed(s)
  {
    var s := Exec(Init(cap, n), schedule);
    InitInv(cap, n, true);
    ExecInv(Init(cap, n), schedule, true);
    if NoneExposed(s) {
      UnexposedIsSafe(s, Exec(s, [Restart]));
    } else {
      var i: nat :| i < |s.readers| && Exposed(s.mem, s.hist, s.readers[i]);
      HistoryGrows(Init(cap, n), schedule);
      var rest, o := ExposedIsSpoilt(s, Exec(s, [Restart]), i);
    }
  }
}
