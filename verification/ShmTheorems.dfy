/**
 The transport's promises, stated over every schedule from a freshly created segment.
 */
module ShmTheorems {
  import opened Bytes
  import opened ShmProtocol
  import opened ShmSafety

  /** `o` is in the log of one of the readers of `s`. */
  ghost predicate Logged(s: State, o: Outcome) {
    exists i, j {:trigger s.readers[i].log[j]} ::
      0 <= i < |s.readers| && 0 <= j < |s.readers[i].log| && s.readers[i].log[j] == o
  }

  /** The schedule asks, as a call or from a signal handler, to publish `data`. */
  ghost predicate Offered(schedule: seq<Step>, data: seq<byte>) {
    StartPublish(data) in schedule || Signal(data) in schedule
  }

  /** `snap` is what the first `cap` bytes of one publish request were. */
  ghost predicate IsSnapshot(schedule: seq<Step>, cap: nat, snap: seq<byte>) {
    exists data: seq<byte> :: Offered(schedule, data) && snap == Take(data, cap)
  }

  // ---- Committed snapshots are whole publish requests ------------------------------------

  ghost predicate PcOffered(schedule: seq<Step>, pc: WriterPc) {
    match pc
    case TestGate(d) => Offered(schedule, d)
    case SetGate(d) => Offered(schedule, d)
    case Filling(_, d, _) => Offered(schedule, d)
    case Clamp(d) => Offered(schedule, d)
    case StoreLen(_, d) => Offered(schedule, d)
    case Flip(_, d) => Offered(schedule, d)
    case _ => true
  }

  ghost predicate HistoryOffered(schedule: seq<Step>, s: State) {
    PcOffered(schedule, s.pc) && forall snap | snap in s.hist.snaps :: IsSnapshot(schedule, s.cap, snap)
  }

  lemma OfferedStep(schedule: seq<Step>, s: State, step: Step)
    requires WellShaped(s) && HistoryOffered(schedule, s) && step in schedule
    ensures HistoryOffered(schedule, Apply(s, step))
  {
    if step.Advance? && s.pc.Flip? {
      assert IsSnapshot(schedule, s.cap, Take(s.pc.data, s.cap));
    }
  }

  lemma OfferedMore(some: seq<Step>, all: seq<Step>, s: State)
    requires forall step | step in some :: step in all
    requires HistoryOffered(some, s)
    ensures HistoryOffered(all, s)
  {
    forall snap | snap in s.hist.snaps
      ensures IsSnapshot(all, s.cap, snap)
    {
      assert IsSnapshot(some, s.cap, snap);
    }
  }

  /** Every committed snapshot is a whole publish request cut at the capacity. */
  lemma {:induction false} CommitsAreOffered(cap: nat, n: nat, schedule: seq<Step>)
    ensures
      var s := Exec(Init(cap, n), schedule);
      s.cap == cap && HistoryOffered(schedule, s)
    decreases |schedule|
  {
    if schedule != [] {
      var k := |schedule| - 1;
      CommitsAreOffered(cap, n, schedule[..k]);
      OfferedMore(schedule[..k], schedule, Exec(Init(cap, n), schedule[..k]));
      OfferedStep(schedule, Exec(Init(cap, n), schedule[..k]), schedule[k]);
    }
  }

  // ---- No torn read ----------------------------------------------------------------------

  lemma LoggedIsSound(s: State, o: Outcome, clean: bool)
    requires Inv(s, clean) && Logged(s, o)
    ensures OutcomeInv(s.hist, o, clean)
  {
  }

  lemma RunIsSound(cap: nat, n: nat, schedule: seq<Step>, o: Outcome, clean: bool)
    requires Logged(Exec(Init(cap, n), schedule), o) && (clean ==> Careful(Init(cap, n), schedule))
    ensures var h := Exec(Init(cap, n), schedule).hist; OutcomeInv(h, o, clean) && ClockInv(h)
  {
    InitInv(cap, n, clean);
    ExecInv(Init(cap, n), schedule, clean);
    LoggedIsSound(Exec(Init(cap, n), schedule), o, clean);
  }

  /**
   Whatever the interleaving, a call that returns 1 after seeing a nonzero generation delivers
   the first min(outCap, length) bytes of one committed snapshot, which is itself a whole publish
   request cut at the capacity. Needed: a writer process takes the segment over only while no
   reader is exposed, and fewer than 2^32 generation stores land inside the call's last attempt.
   */
  lemma {:induction false} NoTornRead(cap: nat, n: nat, schedule: seq<Step>, o: Outcome)
    requires Careful(Init(cap, n), schedule)
    requires Logged(Exec(Init(cap, n), schedule), o) && Delivered(o) && Unwrapped(o)
    ensures
      var snaps := Exec(Init(cap, n), schedule).hist.snaps;
      && 1 <= o.commit <= |snaps|
      && IsSnapshot(schedule, cap, snaps[o.commit - 1])
      && o.bytes == Take(snaps[o.commit - 1], o.call.outCap)
  {
    var s := Exec(Init(cap, n), schedule);
    RunIsSound(cap, n, schedule, o, true);
    assert Genuine(s.hist, o);
    CommitsAreOffered(cap, n, schedule);
    OfferedCommit(schedule, s, o.commit - 1);
  }

  lemma OfferedCommit(schedule: seq<Step>, s: State, k: nat)
    requires HistoryOffered(schedule, s) && k < |s.hist.snaps|
    ensures IsSnapshot(schedule, s.cap, s.hist.snaps[k])
  {
  }

  // ---- Which snapshot, and in what order -------------------------------------------------

  /** The call's own generation words did not wrap: for an empty answer, zero meant "never stored". */
  ghost predicate Timely(o: Outcome) {
    && (Delivered(o) ==> Unwrapped(o))
    && (Absent(o) ==> o.endBumps < TWO_32)
  }

  lemma OutcomeBetween(h: History, o: Outcome)
    requires ClockInv(h) && OutcomeInv(h, o, false) && o.code == 1 && Timely(o)
    ensures h.visible[o.call.startTime] <= o.commit <= h.visible[o.endTime]
    ensures Absent(o) ==> o.commit == 0 && o.bytes == []
  {
    if Absent(o) {
      SameGeneration(0, o.call.base);
    }
  }

  /**
   Which snapshot, over every schedule: a call whose last attempt loaded the word of generation
   store number g delivers commit g or g + 1 (its `published` store landed, its generation store
   has not), shifted by the commits lost at takeovers. It is no older than the newest snapshot
   visible when the call began and no newer than the newest one visible when it returned.
   */
  lemma {:induction false} WhichSnapshot(cap: nat, n: nat, schedule: seq<Step>, o: Outcome)
    requires Logged(Exec(Init(cap, n), schedule), o) && o.code == 1 && Timely(o)
    ensures
      var h := Exec(Init(cap, n), schedule).hist;
      var g := o.call.base;
      && o.call.startTime <= o.endTime < |h.visible|
      && h.visible[o.call.startTime] <= o.commit <= h.visible[o.endTime]
      && o.call.g1 == g % TWO_32 && o.call.lost <= o.endLost <= h.lost
      && (Delivered(o) ==> g + o.call.lost <= o.commit <= g + o.endLost + 1)
      && (Absent(o) ==> o.commit == 0 && o.bytes == [])
  {
    RunIsSound(cap, n, schedule, o, false);
    OutcomeBetween(Exec(Init(cap, n), schedule).hist, o);
  }

  /**
   Real-time order, over every schedule and across all readers: a call that begins after another
   one returned never delivers an older snapshot. The readers together see one atomic register.
   */
  lemma {:induction false} ReadsNeverGoBack(cap: nat, n: nat, schedule: seq<Step>, x: Outcome, y: Outcome)
    requires var s := Exec(Init(cap, n), schedule); Logged(s, x) && Logged(s, y)
    requires x.code == 1 && y.code == 1 && x.endTime <= y.call.startTime
    requires (Delivered(x) ==> Unwrapped(x)) && Timely(y)
    ensures x.commit <= y.commit
  {
    RunIsSound(cap, n, schedule, x, false);
    RunIsSound(cap, n, schedule, y, false);
    WhichSnapshot(cap, n, schedule, y);
  }

  /** Successive successful calls of one reader never deliver an older commit. */
  lemma {:induction false} OneReaderNeverGoesBack(cap: nat, n: nat, schedule: seq<Step>, i: nat, a: nat, b: nat)
    requires
      var s := Exec(Init(cap, n), schedule);
      && i < |s.readers| && a < b < |s.readers[i].log|
      && var x, y := s.readers[i].log[a], s.readers[i].log[b];
         x.code == 1 && y.code == 1 && (Delivered(x) ==> Unwrapped(x)) && Timely(y)
    ensures
      var log := Exec(Init(cap, n), schedule).readers[i].log;
      log[a].commit <= log[b].commit
  {
    var s := Exec(Init(cap, n), schedule);
    InitInv(cap, n, false);
    ExecInv(Init(cap, n), schedule, false);
    ReadsNeverGoBack(cap, n, schedule, s.readers[i].log[a], s.readers[i].log[b]);
  }

  /**
   The bounded retry, over every schedule: a call gives up only when at least four generation
   stores landed while it ran, so with fewer than four it returns 1.
   */
  lemma {:induction false} GivesUpOnlyAfterFourCommits(cap: nat, n: nat, schedule: seq<Step>, o: Outcome)
    requires Logged(Exec(Init(cap, n), schedule), o)
    ensures o.code == 0 || o.code == 1
    ensures o.endBumps < o.call.startBumps + 4 ==> o.code == 1
  {
    RunIsSound(cap, n, schedule, o, false);
  }

  /**
   At most one commit per re-arm: over any run, commits never exceed completed resets plus the
   number of writer lifetimes, whatever signals arrive. At most one commit at a time waits for
   its generation store, apart from those lost at takeovers.
   */
  lemma {:induction false} CommitsBoundedByResets(cap: nat, n: nat, schedule: seq<Step>)
    ensures
      var h := Exec(Init(cap, n), schedule).hist;
      h.bumps + h.lost <= Commits(h) <= h.bumps + h.lost + 1 && Commits(h) <= h.resets + h.lifetimes
  {
    InitInv(cap, n, false);
    ExecInv(Init(cap, n), schedule, false);
  }

  // ---- Signals ---------------------------------------------------------------------------

  /** Nothing another process can see of the segment differs. */
  ghost predicate SameSegment(s: State, t: State) {
    && t.mem == s.mem && t.hist.snaps == s.hist.snaps && t.hist.bumps == s.hist.bumps
  }

  /** How far the handler's own publish of `data` has come, when nothing interrupted it. */
  ghost predicate HandlerProgress(s: State, t: State, data: seq<byte>) {
    var committed := s.hist.snaps + [Take(data, s.cap)];
    match t.pc
    case TestGate(d) => d == data && !t.mem.dumped && t.hist.snaps == s.hist.snaps && t.hist.bumps == s.hist.bumps
    case SetGate(d) => d == data && t.hist.snaps == s.hist.snaps && t.hist.bumps == s.hist.bumps
    case Filling(_, d, _) => d == data && t.hist.snaps == s.hist.snaps && t.hist.bumps == s.hist.bumps
    case Clamp(d) => d == data && t.hist.snaps == s.hist.snaps && t.hist.bumps == s.hist.bumps
    case StoreLen(_, d) => d == data && t.hist.snaps == s.hist.snaps && t.hist.bumps == s.hist.bumps
    case Flip(_, d) => d == data && t.hist.snaps == s.hist.snaps && t.hist.bumps == s.hist.bumps
    case LoadGeneration => t.hist.snaps == committed && t.hist.bumps == s.hist.bumps
    case StoreGeneration(_) => t.hist.snaps == committed && t.hist.bumps == s.hist.bumps
    case Dead => t.hist.snaps == committed && t.hist.bumps == s.hist.bumps + 1
    case _ => false
  }

  ghost predicate AfterSignal(s: State, t: State, data: seq<byte>) {
    && t.doomed && t.cap == s.cap
    && t.hist.interrupts > s.hist.interrupts
    && (t.pc.SetGate? ==> !t.mem.dumped) && (Pending(t.pc) ==> t.mem.dumped)
    && !(t.pc.Idle? || t.pc.Zeroing? || t.pc.ClearLen? || t.pc.ReArm?)
    && (s.mem.dumped ==> SameSegment(s, t) && (t.pc.TestGate? || t.pc.Dead?))
    && (!s.mem.dumped ==>
          && Commits(t.hist) + GateCount(t.mem, t.pc) <= Commits(s.hist) + 1
          && (t.hist.interrupts == s.hist.interrupts + 1 ==> HandlerProgress(s, t, data)))
  }

  lemma AfterSignalStep(s: State, t: State, data: seq<byte>, step: Step)
    requires WellShaped(t) && AfterSignal(s, t, data)
    ensures var u := Apply(t, step); u.hist.lifetimes == t.hist.lifetimes ==> AfterSignal(s, u, data)
  {
  }

  /**
   A signal cuts the writer at any step: its handler publishes `data` and the process dies. If
   the gate was already set, nothing a reader can see ever changes again in that lifetime;
   otherwise at most one more snapshot is committed, and exactly the whole of `data` (cut at the
   capacity) once the handler has run to the end without being interrupted itself.
   */
  lemma {:induction false} SignalIsSafe(s: State, data: seq<byte>, rest: seq<Step>)
    requires WellShaped(s) && s.pc != Dead
    requires Exec(Apply(s, Signal(data)), rest).hist.lifetimes == s.hist.lifetimes
    ensures
      var t := Exec(Apply(s, Signal(data)), rest);
      && AfterSignal(s, t, data)
      && (s.mem.dumped ==> SameSegment(s, t))
      && (!s.mem.dumped ==> Commits(t.hist) <= Commits(s.hist) + 1)
      && (!s.mem.dumped && t.pc == Dead && t.hist.interrupts == s.hist.interrupts + 1 ==>
            t.hist.snaps == s.hist.snaps + [Take(data, s.cap)] && t.hist.bumps == s.hist.bumps + 1)
    decreases |rest|
  {
    var t0 := Apply(s, Signal(data));
    if rest != [] {
      var k := |rest| - 1;
      LifetimesGrow(t0, rest[..k]);
      LifetimesStep(Exec(t0, rest[..k]), rest[k]);
      SignalIsSafe(s, data, rest[..k]);
      AfterSignalStep(s, Exec(t0, rest[..k]), data, rest[k]);
    }
  }

  lemma LifetimesStep(s: State, step: Step)
    requires WellShaped(s)
    ensures s.hist.lifetimes <= Apply(s, step).hist.lifetimes
  {
  }

  lemma {:induction false} LifetimesGrow(s: State, schedule: seq<Step>)
    requires WellShaped(s)
    ensures s.hist.lifetimes <= Exec(s, schedule).hist.lifetimes
    decreases |schedule|
  {
    if schedule != [] {
      LifetimesGrow(s, schedule[..|schedule| - 1]);
      LifetimesStep(Exec(s, schedule[..|schedule| - 1]), schedule[|schedule| - 1]);
    }
  }
}
