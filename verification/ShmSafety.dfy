/**
 What every schedule of the transport keeps: no torn read, reads that never go back in time,
 a retry bound that only four publishes can exhaust, and a signal that can cut the writer at
 any step.
 */
module ShmSafety {
  import opened Bytes
  import opened ShmProtocol

  // ---- The invariant ---------------------------------------------------------------------

  /** Buffer `b` holds exactly the snapshot `snap`. */
  ghost predicate Holds(cap: nat, m: Memory, b: nat, snap: seq<byte>)
    requires Shaped(cap, m) && b < 2
  {
    && m.bufLen[b] == |snap|
    && forall i {:trigger snap[i]} | 0 <= i < |snap| :: m.buf[b][i] == snap[i]
  }

  /** A publish that has passed the gate and whose `published` store has not landed. */
  ghost predicate Pending(pc: WriterPc) {
    pc.Filling? || pc.Clamp? || pc.StoreLen? || pc.Flip?
  }

  /** Where the writer can be while the newest snapshot still lacks its generation store. */
  ghost predicate InWindow(pc: WriterPc, doomed: bool) {
    pc.LoadGeneration? || pc.StoreGeneration? || (doomed && (pc.TestGate? || pc.Dead?))
  }

  /** The staging buffer holds the first `n` bytes of `data`. */
  ghost predicate Filled(cap: nat, m: Memory, data: seq<byte>)
    requires Shaped(cap, m)
  {
    forall i {:trigger data[i]} | 0 <= i < Min(|data|, cap) :: m.buf[Staging(m)][i] == data[i]
  }

  ghost predicate PcInv(cap: nat, m: Memory, h: History, pc: WriterPc)
    requires Shaped(cap, m)
  {
    match pc
    case Zeroing(t, at) => t == Staging(m)
    case ClearLen(t) => t == Staging(m)
    case SetGate(data) => !m.dumped
    case Filling(t, data, done) =>
      && t == Staging(m) && m.dumped
      && forall i {:trigger data[i]} | 0 <= i < Min(|data|, cap) && i in done :: m.buf[t][i] == data[i]
    case Clamp(data) => m.dumped && Filled(cap, m, data)
    case StoreLen(t, data) => t == Staging(m) && m.dumped && Filled(cap, m, data)
    case Flip(t, data) =>
      t == Staging(m) && m.dumped && Filled(cap, m, data) && m.bufLen[t] == Min(|data|, cap)
    case LoadGeneration => Commits(h) == h.bumps + h.lost + 1
    case StoreGeneration(g) => Commits(h) == h.bumps + h.lost + 1 && g == m.generation
    case _ => true
  }

  ghost function GateCount(m: Memory, pc: WriterPc): nat {
    if !m.dumped || Pending(pc) then 1 else 0
  }

  /** The writer's half. */
  ghost predicate WriterInv(cap: nat, m: Memory, h: History, pc: WriterPc, doomed: bool)
    requires Shaped(cap, m)
  {
    && m.generation == h.bumps % TWO_32
    && m.published == Commits(h) % 2
    && h.bumps + h.lost <= Commits(h) <= h.bumps + h.lost + 1
    && (Commits(h) > 0 ==> Holds(cap, m, m.published, h.snaps[Commits(h) - 1]))
    && (Commits(h) == h.bumps + h.lost + 1 ==> m.dumped && InWindow(pc, doomed))
    && (pc == Dead ==> doomed)
    && PcInv(cap, m, h, pc)
    && Commits(h) + GateCount(m, pc) <= h.resets + h.lifetimes
  }

  /** The history of visible snapshot numbers never falls, and ends at the present. */
  ghost predicate ClockInv(h: History) {
    && |h.visible| > 0
    && h.visible[|h.visible| - 1] == Visible(h)
    && forall i, j | 0 <= i <= j < |h.visible| :: h.visible[i] <= h.visible[j]
  }

  /**
   Buffer `a` still holds snapshot number `k`, and nothing will write to it before the next
   generation store: either it is the published buffer, or the flip that retired it is the
   newest one and its generation store is still to come.
   */
  ghost predicate Guarded(cap: nat, m: Memory, h: History, a: nat, k: nat)
    requires Shaped(cap, m) && a < 2
  {
    && 1 <= k <= Commits(h)
    && Holds(cap, m, a, h.snaps[k - 1])
    && (|| (a == m.published && k == Commits(h))
        || (a != m.published && k + 1 == Commits(h) == h.bumps + h.lost + 1))
  }

  ghost predicate CallInv(h: History, c: Call, outCap: nat) {
    && outCap == c.outCap
    && c.g1 == c.base % TWO_32
    && 1 <= c.startBumps
    && c.startBumps + c.attempt <= c.base <= h.bumps && c.lost <= h.lost
    && (c.attempt == 0 ==> c.g1 != 0)
    && c.attempt < READ_ATTEMPTS
    && c.startTime < |h.visible|
  }

  /** A call that has loaded `published` when it named snapshot `k`. */
  ghost predicate LoadedInv(h: History, c: Call, outCap: nat, k: nat) {
    && CallInv(h, c, outCap)
    && h.visible[c.startTime] <= k <= Commits(h)
    && c.base + c.lost <= k
    && (h.bumps == c.base ==> k <= c.base + h.lost + 1)
  }

  /**
   Where a call stands. What it has copied is promised only in a `clean` run: one whose takeovers
   all found no reader exposed.
   */
  ghost predicate PhaseInv(cap: nat, m: Memory, h: History, r: Reader, clean: bool)
    requires Shaped(cap, m)
  {
    match r.pc
    case Resting => true
    case LoadPublished(c) => CallInv(h, c, |r.out|)
    case LoadLen(c, a, k) =>
      && a < 2 && LoadedInv(h, c, |r.out|, k)
      && (clean && h.bumps == c.base && |r.out| > 0 ==> Guarded(cap, m, h, a, k))
    case Copying(c, a, k, n, copied) =>
      && a < 2 && n <= |r.out| && LoadedInv(h, c, |r.out|, k)
      && (clean && h.bumps == c.base ==>
            && (AllDone(n, copied) || Guarded(cap, m, h, a, k))
            && n == Min(|h.snaps[k - 1]|, |r.out|)
            && forall i {:trigger r.out[i]} | 0 <= i < n && i in copied :: r.out[i] == h.snaps[k - 1][i])
    case Recheck(c, a, k, n) =>
      && a < 2 && n <= |r.out| && LoadedInv(h, c, |r.out|, k)
      && (clean && h.bumps == c.base ==> r.out[..n] == Take(h.snaps[k - 1], |r.out|))
  }

  // ---- What a returned call may say ------------------------------------------------------

  /** The call returned 1 without touching the caller's buffer: generation was zero. */
  ghost predicate Absent(o: Outcome) {
    o.code == 1 && o.call.attempt == 0 && o.call.g1 == 0
  }

  ghost predicate Delivered(o: Outcome) {
    o.code == 1 && !Absent(o)
  }

  /** Fewer than 2^32 generation stores landed between the load the call trusted and its re-check. */
  ghost predicate Unwrapped(o: Outcome) {
    o.endBumps - o.call.base < TWO_32
  }

  /** The call delivered the beginning of the snapshot it names. */
  ghost predicate Genuine(h: History, o: Outcome) {
    1 <= o.commit <= Commits(h) && o.bytes == Take(h.snaps[o.commit - 1], o.call.outCap)
  }

  ghost predicate OutcomeInv(h: History, o: Outcome, clean: bool) {
    && o.code < 2
    && o.call.g1 == o.call.base % TWO_32
    && o.call.startBumps <= o.call.base <= o.endBumps <= h.bumps && o.call.lost <= o.endLost <= h.lost
    && o.call.startTime <= o.endTime < |h.visible|
    && (o.code == 0 ==> o.call.startBumps + READ_ATTEMPTS <= o.endBumps)
    && (Absent(o) ==>
          && o.bytes == [] && o.commit == 0 && o.call.base == o.endBumps
          && (o.endBumps == 0 ==> h.visible[o.endTime] == 0))
    && (Delivered(o) && Unwrapped(o) ==>
          && o.call.base + o.call.lost <= o.commit <= o.call.base + o.endLost + 1
          && 1 <= o.commit <= Commits(h)
          && h.visible[o.call.startTime] <= o.commit <= h.visible[o.endTime]
          && (clean ==> Genuine(h, o)))
  }

  /** When the reader's next call can have begun, at the earliest. */
  ghost function Since(h: History, pc: ReaderPc): int {
    match pc
    case Resting => |h.visible| - 1
    case LoadPublished(c) => c.startTime
    case LoadLen(c, _, _) => c.startTime
    case Copying(c, _, _, _, _) => c.startTime
    case Recheck(c, _, _, _) => c.startTime
  }

  ghost predicate LogInv(h: History, r: Reader, clean: bool) {
    && (forall j | 0 <= j < |r.log| :: OutcomeInv(h, r.log[j], clean) && r.log[j].endTime <= Since(h, r.pc))
    && forall i, j | 0 <= i < j < |r.log| :: r.log[i].endTime <= r.log[j].call.startTime
  }

  ghost predicate ReaderInv(cap: nat, m: Memory, h: History, r: Reader, clean: bool)
    requires Shaped(cap, m)
  {
    PhaseInv(cap, m, h, r, clean) && LogInv(h, r, clean)
  }

  ghost predicate Inv(s: State, clean: bool) {
    && WellShaped(s)
    && WriterInv(s.cap, s.mem, s.hist, s.pc, s.doomed)
    && ClockInv(s.hist)
    && forall i | 0 <= i < |s.readers| :: ReaderInv(s.cap, s.mem, s.hist, s.readers[i], clean)
  }

  // ---- The writer ------------------------------------------------------------------------

  lemma ResetStepKeeps(cap: nat, w: WriterState, doomed: bool, choice: nat)
    requires Shaped(cap, w.mem) && PcShaped(cap, w.pc)
    requires WriterInv(cap, w.mem, w.hist, w.pc, doomed)
    requires w.pc.Zeroing? || w.pc.ClearLen? || w.pc.ReArm?
    ensures
      var w' := WriterStep(cap, w, if doomed then Dead else Idle, choice);
      WriterInv(cap, w'.mem, w'.hist, w'.pc, doomed)
  {
  }

  lemma GateStepKeeps(cap: nat, w: WriterState, doomed: bool, choice: nat)
    requires Shaped(cap, w.mem) && PcShaped(cap, w.pc)
    requires WriterInv(cap, w.mem, w.hist, w.pc, doomed)
    requires w.pc.TestGate? || w.pc.SetGate?
    ensures
      var w' := WriterStep(cap, w, if doomed then Dead else Idle, choice);
      WriterInv(cap, w'.mem, w'.hist, w'.pc, doomed)
  {
  }

  lemma FillStepKeeps(cap: nat, w: WriterState, doomed: bool, choice: nat)
    requires Shaped(cap, w.mem) && PcShaped(cap, w.pc)
    requires WriterInv(cap, w.mem, w.hist, w.pc, doomed)
    requires w.pc.Filling? || w.pc.Clamp?
    ensures
      var w' := WriterStep(cap, w, if doomed then Dead else Idle, choice);
      WriterInv(cap, w'.mem, w'.hist, w'.pc, doomed)
  {
  }

  lemma CommitStepKeeps(cap: nat, w: WriterState, doomed: bool, choice: nat)
    requires Shaped(cap, w.mem) && PcShaped(cap, w.pc)
    requires WriterInv(cap, w.mem, w.hist, w.pc, doomed)
    requires w.pc.StoreLen? || w.pc.Flip?
    ensures
      var w' := WriterStep(cap, w, if doomed then Dead else Idle, choice);
      WriterInv(cap, w'.mem, w'.hist, w'.pc, doomed)
  {
  }

  lemma GenerationStepKeeps(cap: nat, w: WriterState, doomed: bool, choice: nat)
    requires Shaped(cap, w.mem) && PcShaped(cap, w.pc)
    requires WriterInv(cap, w.mem, w.hist, w.pc, doomed)
    requires w.pc.LoadGeneration? || w.pc.StoreGeneration?
    ensures
      var w' := WriterStep(cap, w, if doomed then Dead else Idle, choice);
      WriterInv(cap, w'.mem, w'.hist, w'.pc, doomed)
  {
    NextWord(w.hist.bumps);
    var w' := WriterStep(cap, w, if doomed then Dead else Idle, choice);
    assert w'.mem.buf == w.mem.buf && w'.mem.bufLen == w.mem.bufLen && w'.hist.snaps == w.hist.snaps;
  }

  lemma WriterStepKeeps(cap: nat, w: WriterState, doomed: bool, choice: nat)
    requires Shaped(cap, w.mem) && PcShaped(cap, w.pc)
    requires WriterInv(cap, w.mem, w.hist, w.pc, doomed)
    ensures
      var w' := WriterStep(cap, w, if doomed then Dead else Idle, choice);
      WriterInv(cap, w'.mem, w'.hist, w'.pc, doomed)
  {
    match w.pc
    case Idle | Dead =>
    case Zeroing(_, _) | ClearLen(_) | ReArm => ResetStepKeeps(cap, w, doomed, choice);
    case TestGate(_) | SetGate(_) => GateStepKeeps(cap, w, doomed, choice);
    case Filling(_, _, _) | Clamp(_) => FillStepKeeps(cap, w, doomed, choice);
    case StoreLen(_, _) | Flip(_, _) => CommitStepKeeps(cap, w, doomed, choice);
    case LoadGeneration | StoreGeneration(_) => GenerationStepKeeps(cap, w, doomed, choice);
  }

  // ---- Readers against the writer --------------------------------------------------------

  /** The change from (m, h) to (m', h') cannot spoil a reader's trust. */
  ghost predicate Harmless(cap: nat, m: Memory, h: History, m': Memory, h': History)
    requires Shaped(cap, m) && Shaped(cap, m')
  {
    && h.snaps <= h'.snaps
    && h.bumps <= h'.bumps && h.lost <= h'.lost
    && h.visible <= h'.visible
    && (h'.bumps == h.bumps ==>
          forall a, k | 0 <= a < 2 && Guarded(cap, m, h, a, k) :: Guarded(cap, m', h', a, k))
  }

  lemma WriterStepHarmless(cap: nat, w: WriterState, doomed: bool, choice: nat)
    requires Shaped(cap, w.mem) && PcShaped(cap, w.pc)
    requires WriterInv(cap, w.mem, w.hist, w.pc, doomed)
    ensures
      var w' := WriterStep(cap, w, if doomed then Dead else Idle, choice);
      Harmless(cap, w.mem, w.hist, w'.mem, w'.hist)
  {
  }

  lemma HarmlessKeepsReader(cap: nat, m: Memory, h: History, m': Memory, h': History, r: Reader, clean: bool)
    requires Shaped(cap, m) && Shaped(cap, m') && Harmless(cap, m, h, m', h')
    requires ReaderInv(cap, m, h, r, clean)
    ensures ReaderInv(cap, m', h', r, clean)
  {
  }

  // ---- Reader steps ----------------------------------------------------------------------

  lemma BeginReadKeeps(cap: nat, m: Memory, h: History, r: Reader, out: seq<byte>, clean: bool)
    requires Shaped(cap, m) && ClockInv(h) && m.generation == h.bumps % TWO_32
    requires r.pc == Resting && ReaderInv(cap, m, h, r, clean)
    ensures ReaderInv(cap, m, h, BeginRead(m, h, r, out), clean)
  {
  }

  lemma LoadPublishedKeeps(
    cap: nat, m: Memory, h: History, pc: WriterPc, doomed: bool, r: Reader, choice: nat, clean: bool)
    requires Shaped(cap, m) && ReaderShaped(cap, r)
    requires WriterInv(cap, m, h, pc, doomed) && ClockInv(h) && ReaderInv(cap, m, h, r, clean)
    requires r.pc.LoadPublished?
    ensures ReaderInv(cap, m, h, ReaderStep(cap, m, h, r, choice), clean)
  {
  }

  lemma LoadLenKeeps(cap: nat, m: Memory, h: History, pc: WriterPc, doomed: bool, r: Reader, choice: nat, clean: bool)
    requires Shaped(cap, m) && ReaderShaped(cap, r)
    requires WriterInv(cap, m, h, pc, doomed) && ClockInv(h) && ReaderInv(cap, m, h, r, clean)
    requires r.pc.LoadLen?
    ensures ReaderInv(cap, m, h, ReaderStep(cap, m, h, r, choice), clean)
  {
  }

  lemma CopyKeeps(cap: nat, m: Memory, h: History, pc: WriterPc, doomed: bool, r: Reader, choice: nat, clean: bool)
    requires Shaped(cap, m) && ReaderShaped(cap, r)
    requires WriterInv(cap, m, h, pc, doomed) && ClockInv(h) && ReaderInv(cap, m, h, r, clean)
    requires r.pc.Copying?
    ensures ReaderInv(cap, m, h, ReaderStep(cap, m, h, r, choice), clean)
  {
  }

  lemma SameGeneration(base: nat, now: nat)
    requires base <= now < base + TWO_32
    ensures base % TWO_32 == now % TWO_32 <==> base == now
  {
  }

  /** Returning with a sound outcome keeps the log sound. */
  lemma ReturnKeeps(cap: nat, m: Memory, h: History, r: Reader, o: Outcome, clean: bool)
    requires Shaped(cap, m) && |h.visible| > 0 && LogInv(h, r, clean) && OutcomeInv(h, o, clean)
    requires o.call.startTime == Since(h, r.pc) && o.endTime == |h.visible| - 1
    ensures ReaderInv(cap, m, h, ReaderReturn(r, o), clean)
  {
    assert LogInv(h, ReaderReturn(r, o), clean);
  }

  lemma RecheckOutcome(cap: nat, m: Memory, h: History, pc: WriterPc, doomed: bool, r: Reader, clean: bool)
    requires Shaped(cap, m) && ReaderShaped(cap, r) && r.pc.Recheck?
    requires WriterInv(cap, m, h, pc, doomed) && ClockInv(h) && ReaderInv(cap, m, h, r, clean)
    ensures
      var Recheck(c, a, k, n) := r.pc;
      var now := |h.visible| - 1;
      if m.generation == c.g1 then OutcomeInv(h, Outcome(1, r.out[..n], c, k, h.bumps, h.lost, now), clean)
      else
        && c.base < h.bumps
        && (c.attempt + 1 == READ_ATTEMPTS ==> OutcomeInv(h, Outcome(0, [], c, k, h.bumps, h.lost, now), clean))
  {
    var c := r.pc.call;
    if h.bumps - c.base < TWO_32 {
      SameGeneration(c.base, h.bumps);
    }
  }

  lemma RetryKeeps(cap: nat, m: Memory, h: History, r: Reader, clean: bool)
    requires Shaped(cap, m) && ReaderShaped(cap, r) && ClockInv(h) && ReaderInv(cap, m, h, r, clean)
    requires m.generation == h.bumps % TWO_32
    requires r.pc.Recheck? && r.pc.call.base < h.bumps && r.pc.call.attempt + 1 < READ_ATTEMPTS
    ensures
      var c' := r.pc.call.(g1 := m.generation, attempt := r.pc.call.attempt + 1, base := h.bumps, lost := h.lost);
      ReaderInv(cap, m, h, r.(pc := LoadPublished(c')), clean)
  {
  }

  /** What the re-check does, from what it may return. */
  lemma RecheckMoves(cap: nat, m: Memory, h: History, r: Reader, choice: nat, clean: bool)
    requires Shaped(cap, m) && ReaderShaped(cap, r) && ClockInv(h) && ReaderInv(cap, m, h, r, clean)
    requires m.generation == h.bumps % TWO_32 && r.pc.Recheck?
    requires
      var Recheck(c, a, k, n) := r.pc;
      var now := |h.visible| - 1;
      if m.generation == c.g1 then OutcomeInv(h, Outcome(1, r.out[..n], c, k, h.bumps, h.lost, now), clean)
      else
        && c.base < h.bumps
        && (c.attempt + 1 == READ_ATTEMPTS ==> OutcomeInv(h, Outcome(0, [], c, k, h.bumps, h.lost, now), clean))
    ensures ReaderInv(cap, m, h, ReaderStep(cap, m, h, r, choice), clean)
  {
    var c, now := r.pc.call, |h.visible| - 1;
    if m.generation == c.g1 {
      ReturnKeeps(cap, m, h, r, Outcome(1, r.out[..r.pc.n], c, r.pc.commit, h.bumps, h.lost, now), clean);
    } else if c.attempt + 1 < READ_ATTEMPTS {
      RetryKeeps(cap, m, h, r, clean);
    } else {
      ReturnKeeps(cap, m, h, r, Outcome(0, [], c, r.pc.commit, h.bumps, h.lost, now), clean);
    }
  }

  lemma RecheckKeeps(cap: nat, m: Memory, h: History, pc: WriterPc, doomed: bool, r: Reader, choice: nat, clean: bool)
    requires Shaped(cap, m) && ReaderShaped(cap, r)
    requires WriterInv(cap, m, h, pc, doomed) && ClockInv(h) && ReaderInv(cap, m, h, r, clean)
    requires r.pc.Recheck?
    ensures ReaderInv(cap, m, h, ReaderStep(cap, m, h, r, choice), clean)
  {
    RecheckOutcome(cap, m, h, pc, doomed, r, clean);
    RecheckMoves(cap, m, h, r, choice, clean);
  }

  lemma ReaderStepKeeps(
    cap: nat, m: Memory, h: History, pc: WriterPc, doomed: bool, r: Reader, choice: nat, clean: bool)
    requires Shaped(cap, m) && ReaderShaped(cap, r)
    requires WriterInv(cap, m, h, pc, doomed) && ClockInv(h) && ReaderInv(cap, m, h, r, clean)
    ensures ReaderInv(cap, m, h, ReaderStep(cap, m, h, r, choice), clean)
  {
    match r.pc
    case Resting =>
    case LoadPublished(_) => LoadPublishedKeeps(cap, m, h, pc, doomed, r, choice, clean);
    case LoadLen(_, _, _) => LoadLenKeeps(cap, m, h, pc, doomed, r, choice, clean);
    case Copying(_, _, _, _, _) => CopyKeeps(cap, m, h, pc, doomed, r, choice, clean);
    case Recheck(_, _, _, _) => RecheckKeeps(cap, m, h, pc, doomed, r, choice, clean);
  }

  // ---- Every schedule --------------------------------------------------------------------

  lemma TickKeeps(s: State, clean: bool)
    requires WellShaped(s) && WriterInv(s.cap, s.mem, s.hist, s.pc, s.doomed)
    requires s.hist.visible[|s.hist.visible| - 1] <= Visible(s.hist)
    requires forall i, j | 0 <= i <= j < |s.hist.visible| :: s.hist.visible[i] <= s.hist.visible[j]
    requires forall i | 0 <= i < |s.readers| :: ReaderInv(s.cap, s.mem, s.hist, s.readers[i], clean)
    ensures Inv(Tick(s), clean)
  {
    var t := Tick(s);
    forall i | 0 <= i < |t.readers|
      ensures ReaderInv(t.cap, t.mem, t.hist, t.readers[i], clean)
    {
      TickKeepsReader(s.cap, s.mem, s.hist, s.readers[i], clean);
    }
  }

  lemma TickKeepsReader(cap: nat, m: Memory, h: History, r: Reader, clean: bool)
    requires Shaped(cap, m) && |h.visible| > 0 && ReaderInv(cap, m, h, r, clean)
    ensures ReaderInv(cap, m, h.(visible := h.visible + [Visible(h)]), r, clean)
  {
    var h' := h.(visible := h.visible + [Visible(h)]);
    assert Harmless(cap, m, h, m, h');
    HarmlessKeepsReader(cap, m, h, m, h', r, clean);
  }

  lemma InitInv(cap: nat, n: nat, clean: bool)
    ensures Inv(Init(cap, n), clean)
  {
  }

  /** The segment and its writer moved from `s` to `t` without spoiling any reader's trust. */
  ghost predicate WriterMoved(s: State, t: State)
    requires WellShaped(s)
  {
    && t.cap == s.cap && WellShaped(t) && WriterInv(t.cap, t.mem, t.hist, t.pc, t.doomed)
    && Harmless(s.cap, s.mem, s.hist, t.mem, t.hist)
    && s.hist.visible == t.hist.visible && Visible(s.hist) <= Visible(t.hist)
    && t.readers == s.readers
  }

  lemma WriterStepGrows(cap: nat, w: WriterState, doomed: bool, choice: nat)
    requires Shaped(cap, w.mem) && PcShaped(cap, w.pc)
    ensures
      var w' := WriterStep(cap, w, if doomed then Dead else Idle, choice);
      Visible(w.hist) <= Visible(w'.hist)
  {
  }

  /** A load or store of the writer. */
  lemma AdvanceKeeps(s: State, step: Step, clean: bool)
    requires Inv(s, clean) && step.Advance?
    ensures WriterMoved(s, Act(s, step))
  {
    var w := WriterState(s.mem, s.hist, s.pc);
    WriterStepKeeps(s.cap, w, s.doomed, step.choice);
    WriterStepHarmless(s.cap, w, s.doomed, step.choice);
    WriterStepShape(s.cap, w, ReturnPc(s), step.choice);
    WriterStepGrows(s.cap, w, s.doomed, step.choice);
  }

  lemma SameHarmless(cap: nat, m: Memory, h: History, m': Memory, h': History)
    requires Shaped(cap, m) && m' == m.(dumped := m'.dumped)
    requires h'.snaps == h.snaps && h'.bumps == h.bumps && h'.lost == h.lost && h'.visible == h.visible
    ensures Harmless(cap, m, h, m', h')
  {
  }

  /** A call, a signal or a death: none of them touches the segment. */
  lemma ControlKeeps(s: State, step: Step, clean: bool)
    requires Inv(s, clean) && (step.StartReset? || step.StartPublish? || step.Signal? || step.Kill?)
    ensures WriterMoved(s, Act(s, step))
  {
    var t := Act(s, step);
    assert t.cap == s.cap && t.readers == s.readers;
    SameHarmless(s.cap, s.mem, s.hist, t.mem, t.hist);
    assert WriterInv(t.cap, t.mem, t.hist, t.pc, t.doomed);
  }

  lemma MovedKeeps(s: State, t: State, clean: bool)
    requires Inv(s, clean) && WriterMoved(s, t)
    ensures Inv(Tick(t), clean)
  {
    forall i | 0 <= i < |t.readers|
      ensures ReaderInv(t.cap, t.mem, t.hist, t.readers[i], clean)
    {
      HarmlessKeepsReader(s.cap, s.mem, s.hist, t.mem, t.hist, s.readers[i], clean);
    }
    TickKeeps(t, clean);
  }

  /** A takeover leaves a reader that is not exposed its trust. */
  lemma TakeoverKeepsReader(cap: nat, m: Memory, h: History, m': Memory, h': History, r: Reader, clean: bool)
    requires Shaped(cap, m) && m' == m.(dumped := m'.dumped)
    requires h'.snaps == h.snaps && h'.bumps == h.bumps && h'.lost >= h.lost && h'.visible == h.visible
    requires ReaderInv(cap, m, h, r, clean) && (clean ==> !Exposed(m, h, r))
    ensures ReaderInv(cap, m', h', r, clean)
  {
  }

  /** A new writer process: in a clean run it finds no reader exposed. */
  lemma TakeoverKeeps(s: State, clean: bool)
    requires Inv(s, clean) && (clean && s.pc == Dead ==> NoneExposed(s))
    ensures Inv(Apply(s, Restart), clean)
  {
    var t := Act(s, Restart);
    if s.pc == Dead {
      forall i | 0 <= i < |t.readers|
        ensures ReaderInv(t.cap, t.mem, t.hist, t.readers[i], clean)
      {
        TakeoverKeepsReader(s.cap, s.mem, s.hist, t.mem, t.hist, s.readers[i], clean);
      }
    }
    TickKeeps(t, clean);
  }

  /** One reader moved, soundly. */
  lemma ReadKeeps(s: State, i: nat, r: Reader, clean: bool)
    requires Inv(s, clean) && i < |s.readers|
    requires ReaderShaped(s.cap, r) && ReaderInv(s.cap, s.mem, s.hist, r, clean)
    ensures Inv(Tick(s.(readers := s.readers[i := r])), clean)
  {
    TickKeeps(s.(readers := s.readers[i := r]), clean);
  }

  lemma StartReadKeeps(s: State, i: nat, out: seq<byte>, clean: bool)
    requires Inv(s, clean)
    ensures Inv(Apply(s, StartRead(i, out)), clean)
  {
    if i < |s.readers| && s.readers[i].pc == Resting {
      BeginReadKeeps(s.cap, s.mem, s.hist, s.readers[i], out, clean);
      ReadKeeps(s, i, BeginRead(s.mem, s.hist, s.readers[i], out), clean);
    } else {
      TickKeeps(s, clean);
    }
  }

  lemma AdvanceReadKeeps(s: State, i: nat, choice: nat, clean: bool)
    requires Inv(s, clean)
    ensures Inv(Apply(s, AdvanceRead(i, choice)), clean)
  {
    if i < |s.readers| {
      ReaderStepKeeps(s.cap, s.mem, s.hist, s.pc, s.doomed, s.readers[i], choice, clean);
      ReaderStepShape(s.cap, s.mem, s.hist, s.readers[i], choice);
      ReadKeeps(s, i, ReaderStep(s.cap, s.mem, s.hist, s.readers[i], choice), clean);
    } else {
      TickKeeps(s, clean);
    }
  }

  lemma ApplyKeeps(s: State, step: Step, clean: bool)
    requires Inv(s, clean)
    requires clean && step == Restart && s.pc == Dead ==> NoneExposed(s)
    ensures Inv(Apply(s, step), clean)
  {
    if step.StartRead? {
      StartReadKeeps(s, step.reader, step.out, clean);
    } else if step.AdvanceRead? {
      AdvanceReadKeeps(s, step.reader, step.choice, clean);
    } else if step.Restart? {
      TakeoverKeeps(s, clean);
    } else {
      if step.Advance? {
        AdvanceKeeps(s, step, clean);
      } else {
        ControlKeeps(s, step, clean);
      }
      MovedKeeps(s, Act(s, step), clean);
    }
  }

  /**
   The invariant holds after every schedule; its clean form, which says what readers have copied,
   after every schedule whose takeovers find no reader exposed.
   */
  lemma {:induction false} ExecInv(s: State, schedule: seq<Step>, clean: bool)
    requires Inv(s, clean) && (clean ==> Careful(s, schedule))
    ensures Inv(Exec(s, schedule), clean)
    decreases |schedule|
  {
    if schedule != [] {
      var n := |schedule| - 1;
      ExecInv(s, schedule[..n], clean);
      ApplyKeeps(Exec(s, schedule[..n]), schedule[n], clean);
    }
  }

  /** A single writer lifetime: no takeover at all. */
  lemma {:induction false} NoRestartIsCareful(s: State, schedule: seq<Step>)
    requires WellShaped(s) && Restart !in schedule
    ensures Careful(s, schedule)
    decreases |schedule|
  {
    if schedule != [] {
      NoRestartIsCareful(s, schedule[..|schedule| - 1]);
    }
  }

  // ---- What a new writer process can check -----------------------------------------------

  /** In step means that as many commits as were lost, or an even number more, lack a generation store. */
  lemma InStepMeans(s: State)
    requires Inv(s, false)
    ensures InStep(s.mem) <==> (Commits(s.hist) - s.hist.bumps) % 2 == 0
  {
    assert s.hist.bumps % TWO_32 % 2 == s.hist.bumps % 2;
  }

  /** Only a commit that lacks its generation store, after a first one that has it, can expose a reader. */
  lemma ExposedMeans(s: State, i: nat)
    requires Inv(s, true) && i < |s.readers| && Exposed(s.mem, s.hist, s.readers[i])
    ensures Commits(s.hist) == s.hist.bumps + s.hist.lost + 1 && s.hist.bumps > 0
  {
  }

  /**
   A new writer may take the segment over when it is in step and nothing was lost before, and when
   the generation was never stored.
   */
  lemma InStepIsSafe(s: State)
    requires Inv(s, true)
    requires (s.hist.lost % 2 == 0 && InStep(s.mem)) || s.hist.bumps == 0
    ensures NoneExposed(s)
  {
    InStepMeans(s);
    forall i | 0 <= i < |s.readers|
      ensures !Exposed(s.mem, s.hist, s.readers[i])
    {
      if Exposed(s.mem, s.hist, s.readers[i]) {
        ExposedMeans(s, i);
      }
    }
  }

  /** When every takeover finds the segment in step, no reader is ever exposed and no commit lost. */
  lemma {:induction false} OrderlyIsCareful(cap: nat, n: nat, schedule: seq<Step>)
    requires Orderly(Init(cap, n), schedule)
    ensures Careful(Init(cap, n), schedule) && Exec(Init(cap, n), schedule).hist.lost == 0
    decreases |schedule|
  {
    if schedule != [] {
      var k := |schedule| - 1;
      var s := Exec(Init(cap, n), schedule[..k]);
      OrderlyIsCareful(cap, n, schedule[..k]);
      InitInv(cap, n, true);
      ExecInv(Init(cap, n), schedule[..k], true);
      Weaker(s);
      LostStep(s, schedule[k]);
      if schedule[k] == Restart && s.pc == Dead {
        InStepIsSafe(s);
      }
    }
  }

  lemma Weaker(s: State)
    requires Inv(s, true)
    ensures Inv(s, false)
  {
  }

  lemma LostStep(s: State, step: Step)
    requires Inv(s, false) && s.hist.lost == 0
    requires step == Restart && s.pc == Dead ==> InStep(s.mem)
    ensures Apply(s, step).hist.lost == 0
  {
    InStepMeans(s);
  }
}
