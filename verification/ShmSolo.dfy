/**
 A reader that runs while no commit lands: what it gets, that it always succeeds, and that
 reset is invisible to it at every intermediate step.
 */
module ShmSolo {
  import opened Bytes
  import opened ShmProtocol
  import opened ShmSafety

  /** The bytes the segment offers to a reader whose buffer has `outCap` bytes. */
  ghost function Readable(cap: nat, m: Memory, outCap: nat): seq<byte>
    requires Shaped(cap, m)
  {
    if m.generation == 0 then [] else Take(m.buf[m.published][..m.bufLen[m.published]], outCap)
  }

  lemma ReadableIsNewest(s: State, outCap: nat)
    requires Inv(s, false) && s.mem.generation != 0
    ensures Commits(s.hist) > 0
    ensures Readable(s.cap, s.mem, outCap) == Take(s.hist.snaps[Commits(s.hist) - 1], outCap)
  {
    var m, snap := s.mem, s.hist.snaps[Commits(s.hist) - 1];
    assert Holds(s.cap, m, m.published, snap);
    assert m.buf[m.published][..m.bufLen[m.published]] == snap;
  }

  lemma ApplyGrows(s: State, step: Step)
    requires WellShaped(s)
    ensures
      var t := Apply(s, step);
      t.cap == s.cap && s.hist.snaps <= t.hist.snaps && s.hist.bumps <= t.hist.bumps
  {
  }

  lemma {:induction false} HistoryGrows(s: State, schedule: seq<Step>)
    requires WellShaped(s)
    ensures
      var t := Exec(s, schedule);
      t.cap == s.cap && s.hist.snaps <= t.hist.snaps && s.hist.bumps <= t.hist.bumps
    decreases |schedule|
  {
    if schedule != [] {
      HistoryGrows(s, schedule[..|schedule| - 1]);
      ApplyGrows(Exec(s, schedule[..|schedule| - 1]), schedule[|schedule| - 1]);
    }
  }

  /**
   Only a commit changes what a reader gets. In particular the result is the same at every
   intermediate step of a reset, and while a publish fills the staging buffer.
   */
  lemma {:induction false} OnlyCommitsAreVisible(s: State, schedule: seq<Step>, outCap: nat)
    requires Inv(s, false)
    requires
      var t := Exec(s, schedule);
      Commits(t.hist) == Commits(s.hist) && t.hist.bumps == s.hist.bumps
    ensures
      var t := Exec(s, schedule);
      t.cap == s.cap && Readable(s.cap, t.mem, outCap) == Readable(s.cap, s.mem, outCap)
  {
    HistoryGrows(s, schedule);
    ExecInv(s, schedule, false);
    SameCommitsSameBytes(s, Exec(s, schedule), outCap);
  }

  lemma SameCommitsSameBytes(s: State, t: State, outCap: nat)
    requires Inv(s, false) && Inv(t, false) && t.cap == s.cap
    requires t.hist.snaps == s.hist.snaps && t.hist.bumps == s.hist.bumps
    ensures Readable(s.cap, t.mem, outCap) == Readable(s.cap, s.mem, outCap)
  {
    if s.mem.generation != 0 {
      ReadableIsNewest(s, outCap);
      ReadableIsNewest(t, outCap);
    }
  }

  // ---- An undisturbed call ---------------------------------------------------------------

  function CopySteps(i: nat, n: nat): seq<Step> {
    seq(n, x requires 0 <= x < n => AdvanceRead(i, x))
  }

  /** Reader `i` went from `s` to `t` by copying the bytes below `j`. */
  ghost predicate Copied(s: State, t: State, i: nat, j: nat)
    requires WellShaped(s) && i < |s.readers| && s.readers[i].pc.Copying? && j <= s.readers[i].pc.n
  {
    var r := s.readers[i];
    && t.cap == s.cap && t.mem == s.mem && |t.readers| == |s.readers|
    && var r' := t.readers[i];
       && r'.log == r.log && |r'.out| == |r.out| && r'.pc == r.pc.(copied := UpTo(j))
       && forall x | 0 <= x < j :: x < |r'.out| && r'.out[x] == s.mem.buf[r.pc.active][x]
  }

  lemma CopyOne(s: State, t: State, i: nat, j: nat)
    requires WellShaped(s) && i < |s.readers| && s.readers[i].pc.Copying? && WellShaped(t)
    requires j < s.readers[i].pc.n && Copied(s, t, i, j)
    ensures Copied(s, Apply(t, AdvanceRead(i, j)), i, j + 1)
  {
    assert !AllDone(s.readers[i].pc.n, UpTo(j)) by {
      assert j !in UpTo(j);
    }
  }

  lemma {:induction false} CopyRuns(s: State, i: nat, j: nat)
    requires WellShaped(s) && i < |s.readers| && s.readers[i].pc.Copying? && s.readers[i].pc.copied == {}
    requires j <= s.readers[i].pc.n
    ensures Copied(s, Exec(s, CopySteps(i, j)), i, j)
    decreases j
  {
    if j > 0 {
      CopyRuns(s, i, j - 1);
      CopyOne(s, Exec(s, CopySteps(i, j - 1)), i, j - 1);
      assert CopySteps(i, j)[..j - 1] == CopySteps(i, j - 1);
    }
  }

  lemma {:induction false} ExecConcat(s: State, a: seq<Step>, b: seq<Step>)
    requires WellShaped(s)
    ensures Exec(s, a + b) == Exec(Exec(s, a), b)
    decreases |b|
  {
    if b == [] {
      assert a + b == a;
    } else {
      var k := |b| - 1;
      assert (a + b)[..|a + b| - 1] == a + b[..k];
      ExecConcat(s, a, b[..k]);
    }
  }

  lemma Exec1(s: State, x: Step)
    requires WellShaped(s)
    ensures Exec(s, [x]) == Apply(s, x)
  {
    assert [x][..0] == [];
  }

  lemma Exec2(s: State, x: Step, y: Step)
    requires WellShaped(s)
    ensures WellShaped(Apply(s, x)) && Exec(s, [x, y]) == Apply(Apply(s, x), y)
  {
    ApplyKeepsShape(s, x);
    assert [x, y][..1] == [x];
    Exec1(s, x);
  }

  /** Two runs one after the other; neither restarts the writer. */
  lemma Then(s: State, a: seq<Step>, b: seq<Step>) returns (steps: seq<Step>)
    requires WellShaped(s) && Restart !in a && Restart !in b
    ensures Exec(s, steps) == Exec(Exec(s, a), b) && Restart !in steps
  {
    ExecConcat(s, a, b);
    steps := a + b;
  }

  lemma One(s: State, x: Step) returns (steps: seq<Step>)
    requires WellShaped(s) && x != Restart
    ensures Exec(s, steps) == Apply(s, x) && Restart !in steps
  {
    Exec1(s, x);
    steps := [x];
  }

  lemma Two(s: State, x: Step, y: Step) returns (steps: seq<Step>)
    requires WellShaped(s) && x != Restart && y != Restart
    ensures WellShaped(Apply(s, x)) && Exec(s, steps) == Apply(Apply(s, x), y) && Restart !in steps
  {
    Exec2(s, x, y);
    steps := [x, y];
  }

  /** Reader `i` of `t` stands where reader `i` of `s` stood, and nothing else it can see moved. */
  ghost predicate Alone(s: State, t: State, i: nat) {
    t.cap == s.cap && t.mem == s.mem && i < |s.readers| == |t.readers|
  }

  /** Only the clock moved. */
  ghost predicate SameHistory(s: State, t: State) {
    t.hist == s.hist.(visible := t.hist.visible)
  }

  lemma CallStarts(s: State, i: nat, out: seq<byte>)
    requires WellShaped(s) && i < |s.readers| && s.readers[i].pc == Resting && s.mem.generation != 0
    ensures
      var t := Exec(s, [StartRead(i, out)]);
      && Alone(s, t, i) && t.readers[i].log == s.readers[i].log && t.readers[i].out == out
      && t.readers[i].pc.LoadPublished? && t.readers[i].pc.call.g1 == s.mem.generation
  {
    Exec1(s, StartRead(i, out));
  }

  /** One step of reader `i` alone. */
  lemma ReadStep(s: State, i: nat, choice: nat)
    requires WellShaped(s) && i < |s.readers|
    ensures
      var t := Apply(s, AdvanceRead(i, choice));
      && WellShaped(t) && Alone(s, t, i) && SameHistory(s, t)
      && t.readers[i] == ReaderStep(s.cap, s.mem, s.hist, s.readers[i], choice)
  {
    ApplyKeepsShape(s, AdvanceRead(i, choice));
  }

  lemma TwoReadSteps(s: State, i: nat) returns (mid: State)
    requires WellShaped(s) && i < |s.readers|
    ensures
      var t := Exec(s, [AdvanceRead(i, 0), AdvanceRead(i, 0)]);
      && WellShaped(mid) && Alone(s, mid, i) && Alone(mid, t, i) && SameHistory(s, mid) && SameHistory(mid, t)
      && mid.readers[i] == ReaderStep(s.cap, s.mem, s.hist, s.readers[i], 0)
      && t.readers[i] == ReaderStep(mid.cap, mid.mem, mid.hist, mid.readers[i], 0)
  {
    Exec2(s, AdvanceRead(i, 0), AdvanceRead(i, 0));
    ReadStep(s, i, 0);
    mid := Apply(s, AdvanceRead(i, 0));
    ReadStep(mid, i, 0);
  }

  lemma {:induction false} CallLoads(s: State, i: nat)
    requires WellShaped(s) && i < |s.readers| && s.readers[i].pc.LoadPublished?
    ensures
      var t := Exec(s, [AdvanceRead(i, 0), AdvanceRead(i, 0)]);
      && Alone(s, t, i) && t.readers[i].log == s.readers[i].log && t.readers[i].out == s.readers[i].out
      && t.readers[i].pc.Copying?
      && var Copying(c, a, k, n, copied) := t.readers[i].pc;
         && c == s.readers[i].pc.call && a == s.mem.published && copied == {}
         && n == Min(s.mem.bufLen[a], |s.readers[i].out|)
  {
    var mid := TwoReadSteps(s, i);
  }

  /** Reader `i` is copying `n` bytes of the published buffer and trusts the current generation. */
  ghost predicate Trusting(s: State, i: nat, n: nat) {
    && WellShaped(s) && i < |s.readers| && s.readers[i].pc.Copying?
    && var Copying(c, a, k, n', copied) := s.readers[i].pc;
       && c.g1 == s.mem.generation != 0 && a == s.mem.published
       && n' == n == Min(s.mem.bufLen[a], |s.readers[i].out|)
  }

  lemma CallReturns(s: State, i: nat, n: nat)
    requires Trusting(s, i, n) && AllDone(n, s.readers[i].pc.copied)
    requires s.readers[i].out[..n] == s.mem.buf[s.mem.published][..n]
    ensures
      var t := Exec(s, [AdvanceRead(i, 0), AdvanceRead(i, 0)]);
      && Alone(s, t, i) && t.readers[i].pc == Resting
      && |t.readers[i].log| == |s.readers[i].log| + 1
      && var o := t.readers[i].log[|s.readers[i].log|];
         o.code == 1 && o.bytes == Readable(s.cap, s.mem, |s.readers[i].out|)
  {
    var mid := TwoReadSteps(s, i);
    assert s.mem.buf[s.mem.published][..n] == Readable(s.cap, s.mem, |s.readers[i].out|);
  }

  lemma CopiedAll(s: State, t: State, i: nat, n: nat)
    requires Trusting(s, i, n) && WellShaped(t) && Copied(s, t, i, n)
    ensures
      && Alone(s, t, i) && t.readers[i].log == s.readers[i].log && |t.readers[i].out| == |s.readers[i].out|
      && Trusting(t, i, n) && AllDone(n, t.readers[i].pc.copied)
      && t.readers[i].out[..n] == t.mem.buf[t.mem.published][..n]
  {
    var out, buf := t.readers[i].out, s.mem.buf[s.mem.published];
    forall x | 0 <= x < n
      ensures out[x] == buf[x]
    {
    }
  }

  lemma CallCopies(s: State, i: nat, n: nat)
    requires Trusting(s, i, n) && s.readers[i].pc.copied == {}
    ensures
      var t := Exec(s, CopySteps(i, n));
      && Alone(s, t, i) && t.readers[i].log == s.readers[i].log && |t.readers[i].out| == |s.readers[i].out|
      && Trusting(t, i, n) && AllDone(n, t.readers[i].pc.copied)
      && t.readers[i].out[..n] == t.mem.buf[t.mem.published][..n]
  {
    CopyRuns(s, i, n);
    CopiedAll(s, Exec(s, CopySteps(i, n)), i, n);
  }

  lemma CallFinishes(s: State, i: nat, n: nat)
    requires Trusting(s, i, n) && s.readers[i].pc.copied == {}
    ensures
      var t := Exec(s, CopySteps(i, n) + [AdvanceRead(i, 0), AdvanceRead(i, 0)]);
      && Alone(s, t, i) && t.readers[i].pc == Resting
      && |t.readers[i].log| == |s.readers[i].log| + 1
      && var o := t.readers[i].log[|s.readers[i].log|];
         o.code == 1 && o.bytes == Readable(s.cap, s.mem, |s.readers[i].out|)
  {
    CallCopies(s, i, n);
    ExecConcat(s, CopySteps(i, n), [AdvanceRead(i, 0), AdvanceRead(i, 0)]);
    CallReturns(Exec(s, CopySteps(i, n)), i, n);
  }

  /** The steps of one whole call of reader `i` that copies `n` bytes. */
  function CallSteps(i: nat, out: seq<byte>, n: nat): seq<Step> {
    [StartRead(i, out)] + [AdvanceRead(i, 0), AdvanceRead(i, 0)]
    + (CopySteps(i, n) + [AdvanceRead(i, 0), AdvanceRead(i, 0)])
  }

  /** A call during which no other process moves returns 1 and delivers exactly what is readable. */
  lemma {:induction false} UndisturbedReadSucceeds(s: State, i: nat, out: seq<byte>)
    requires WellShaped(s) && i < |s.readers| && s.readers[i].pc == Resting && s.mem.generation != 0
    ensures
      var t := Exec(s, CallSteps(i, out, Min(s.mem.bufLen[s.mem.published], |out|)));
      && Alone(s, t, i) && t.readers[i].pc == Resting
      && |t.readers[i].log| == |s.readers[i].log| + 1
      && var o := t.readers[i].log[|s.readers[i].log|];
         o.code == 1 && o.bytes == Readable(s.cap, s.mem, |out|)
  {
    var n := Min(s.mem.bufLen[s.mem.published], |out|);
    var loads := [AdvanceRead(i, 0), AdvanceRead(i, 0)];
    CallStarts(s, i, out);
    var s1 := Exec(s, [StartRead(i, out)]);
    CallLoads(s1, i);
    ExecConcat(s, [StartRead(i, out)], loads);
    CallFinishes(Exec(s1, loads), i, n);
    ExecConcat(s, [StartRead(i, out)] + loads, CopySteps(i, n) + [AdvanceRead(i, 0), AdvanceRead(i, 0)]);
  }
}
