/**
 The double-buffered shared-memory transport as a step machine.

 One segment, one writer process at a time and any number of readers take steps in any order
 (sequential consistency). A step is one load or one store: a byte of a buffer, a header word,
 or the writer's own `dumped` gate. A schedule is a sequence of steps; a step that is not
 enabled changes nothing, so every schedule is a run and the theorems in `ShmSafety` quantify
 over all schedules.
 */
module ShmProtocol {
  import opened Bytes

  /** The mapped header and buffers, and the writer's "published this run" gate. */
  datatype Memory = Memory(
    published: nat,
    bufLen: seq<nat>,
    buf: seq<seq<byte>>,
    truncated: bool,
    generation: nat,
    dumped: bool)

  /** Where the writer stands inside reset or publish. */
  datatype WriterPc =
    | Idle
    | Zeroing(target: nat, at: nat)
    | ClearLen(target: nat)
    | ReArm
    | TestGate(data: seq<byte>)
    | SetGate(data: seq<byte>)
    | Filling(target: nat, data: seq<byte>, done: set<nat>)
    | Clamp(data: seq<byte>)
    | StoreLen(target: nat, data: seq<byte>)
    | Flip(target: nat, data: seq<byte>)
    | LoadGeneration
    | StoreGeneration(loaded: nat)
    | Dead

  /**
   What has happened so far; no step reads it. `snaps` holds the committed snapshots in the
   order their `published` store landed, `bumps` counts stores to `generation`, `lost` the commits
   whose generation store a dead writer left undone when the next one took over, and `visible` has
   one entry per step: the number of the newest snapshot a reader starting then may be given.
   */
  datatype History = History(
    snaps: seq<seq<byte>>,
    bumps: nat,
    lost: nat,
    resets: nat,
    lifetimes: nat,
    interrupts: nat,
    visible: seq<nat>)

  /** One call of `pt_shm_read` between its first load and its return. */
  datatype Call = Call(
    outCap: nat,
    g1: nat,
    attempt: nat,
    base: nat,        // `bumps` when `g1` was loaded
    lost: nat,        // `lost` when `g1` was loaded
    startBumps: nat,  // `bumps` when the call began
    startTime: nat)

  datatype ReaderPc =
    | Resting
    | LoadPublished(call: Call)
    | LoadLen(call: Call, active: nat, commit: nat)
    | Copying(call: Call, active: nat, commit: nat, n: nat, copied: set<nat>)
    | Recheck(call: Call, active: nat, commit: nat, n: nat)

  /** A returned call: its return code, what it delivered, and when. */
  datatype Outcome = Outcome(
    code: nat,
    bytes: seq<byte>,
    call: Call,
    commit: nat,      // number of the snapshot `published` named when it was loaded
    endBumps: nat,
    endLost: nat,
    endTime: nat)

  datatype Reader = Reader(pc: ReaderPc, out: seq<byte>, log: seq<Outcome>)

  datatype State = State(cap: nat, mem: Memory, pc: WriterPc, doomed: bool, hist: History, readers: seq<Reader>)

  datatype Step =
    | StartReset
    | StartPublish(data: seq<byte>)
    | Advance(choice: nat)                       // next load or store; `choice` is the byte copied
    | Signal(data: seq<byte>)                    // a handler starts; it publishes `data`, then the process dies
    | Kill                                       // the process dies at once
    | Restart                                    // a new writer process attaches to the same segment
    | StartRead(reader: nat, out: seq<byte>)     // `|out|` is the caller's outCap
    | AdvanceRead(reader: nat, choice: nat)

  function Commits(h: History): nat {
    |h.snaps|
  }

  /** The newest snapshot a reader starting now may be given; none before the first generation store. */
  function Visible(h: History): nat {
    if h.bumps == 0 then 0 else Commits(h)
  }

  function Staging(m: Memory): int {
    1 - m.published
  }

  predicate Shaped(cap: nat, m: Memory) {
    && m.published < 2
    && |m.buf| == 2 && |m.bufLen| == 2
    && |m.buf[0]| == cap && |m.buf[1]| == cap
    && m.bufLen[0] <= cap && m.bufLen[1] <= cap
  }

  predicate PcShaped(cap: nat, pc: WriterPc) {
    match pc
    case Zeroing(t, at) => t < 2 && at <= cap
    case ClearLen(t) => t < 2
    case Filling(t, data, done) => t < 2
    case StoreLen(t, data) => t < 2
    case Flip(t, data) => t < 2
    case _ => true
  }

  function PokeByte(m: Memory, t: nat, i: nat, b: byte): Memory
    requires t < |m.buf| && i < |m.buf[t]|
  {
    var filled: seq<byte> := m.buf[t][i := b];
    m.(buf := m.buf[t := filled])
  }

  /** Every byte `memcpy` has to move has been moved. */
  predicate AllDone(n: nat, done: set<nat>) {
    forall i: nat :: i < n ==> i in done
  }

  datatype WriterState = WriterState(mem: Memory, hist: History, pc: WriterPc)

  /**
   The writer's next load or store. `ret` is where control goes when reset or publish returns.
   `memcpy` moves its bytes in any order: `choice` names the next one.
   */
  function WriterStep(cap: nat, w: WriterState, ret: WriterPc, choice: nat): WriterState
    requires Shaped(cap, w.mem) && PcShaped(cap, w.pc)
  {
    var m, h := w.mem, w.hist;
    match w.pc
    case Idle => w
    case Dead => w
    case Zeroing(t, at) =>
      if at < cap then w.(mem := PokeByte(m, t, at, 0), pc := Zeroing(t, at + 1)) else w.(pc := ClearLen(t))
    case ClearLen(t) => w.(mem := m.(bufLen := m.bufLen[t := 0]), pc := ReArm)
    case ReArm => WriterState(m.(dumped := false), h.(resets := h.resets + 1), ret)
    case TestGate(data) => w.(pc := if m.dumped then ret else SetGate(data))
    case SetGate(data) => w.(mem := m.(dumped := true), pc := Filling(Staging(m), data, {}))
    case Filling(t, data, done) =>
      var n := Min(|data|, cap);
      if AllDone(n, done) then w.(pc := Clamp(data))
      else if choice < n && choice !in done then
        w.(mem := PokeByte(m, t, choice, data[choice]), pc := Filling(t, data, done + {choice}))
      else w
    case Clamp(data) => w.(mem := m.(truncated := m.truncated || |data| > cap), pc := StoreLen(Staging(m), data))
    case StoreLen(t, data) => w.(mem := m.(bufLen := m.bufLen[t := Min(|data|, cap)]), pc := Flip(t, data))
    case Flip(t, data) =>
      WriterState(m.(published := t), h.(snaps := h.snaps + [Take(data, cap)]), LoadGeneration)
    case LoadGeneration => w.(pc := StoreGeneration(m.generation))
    case StoreGeneration(g) =>
      WriterState(m.(generation := (g + 1) % TWO_32), h.(bumps := h.bumps + 1), ret)
  }

  function ReaderReturn(r: Reader, o: Outcome): Reader {
    r.(pc := Resting, log := r.log + [o])
  }

  /** The first load of `pt_shm_read`: generation zero means nothing was ever published. */
  function BeginRead(m: Memory, h: History, r: Reader, out: seq<byte>): Reader
    requires |h.visible| > 0
  {
    var call := Call(|out|, m.generation, 0, h.bumps, h.lost, h.bumps, |h.visible| - 1);
    if m.generation == 0 then
      ReaderReturn(r.(out := out), Outcome(1, [], call, 0, h.bumps, h.lost, |h.visible| - 1))
    else r.(pc := LoadPublished(call), out := out)
  }

  predicate ReaderShaped(cap: nat, r: Reader) {
    match r.pc
    case LoadLen(c, a, k) => a < 2
    case Copying(c, a, k, n, copied) => a < 2 && n <= |r.out| && n <= cap
    case Recheck(c, a, k, n) => a < 2 && n <= |r.out|
    case _ => true
  }

  function ReaderStep(cap: nat, m: Memory, h: History, r: Reader, choice: nat): Reader
    requires Shaped(cap, m) && ReaderShaped(cap, r) && |h.visible| > 0
  {
    match r.pc
    case Resting => r
    case LoadPublished(c) => r.(pc := LoadLen(c, m.published, Commits(h)))
    case LoadLen(c, a, k) => r.(pc := Copying(c, a, k, Min(m.bufLen[a], |r.out|), {}))
    case Copying(c, a, k, n, copied) =>
      if AllDone(n, copied) then r.(pc := Recheck(c, a, k, n))
      else if choice < n && choice !in copied then
        r.(out := r.out[choice := m.buf[a][choice]], pc := Copying(c, a, k, n, copied + {choice}))
      else r
    case Recheck(c, a, k, n) =>
      var now := |h.visible| - 1;
      if m.generation == c.g1 then ReaderReturn(r, Outcome(1, r.out[..n], c, k, h.bumps, h.lost, now))
      else if c.attempt + 1 < READ_ATTEMPTS then
        r.(pc := LoadPublished(c.(g1 := m.generation, attempt := c.attempt + 1, base := h.bumps, lost := h.lost)))
      else ReaderReturn(r, Outcome(0, [], c, k, h.bumps, h.lost, now))
  }

  predicate WellShaped(s: State) {
    && Shaped(s.cap, s.mem) && PcShaped(s.cap, s.pc)
    && |s.hist.visible| > 0
    && forall i | 0 <= i < |s.readers| :: ReaderShaped(s.cap, s.readers[i])
  }

  /** Where reset and publish return to: a handler's publish is followed by the process's death. */
  function ReturnPc(s: State): WriterPc {
    if s.doomed then Dead else Idle
  }

  /** One step, before the clock ticks. */
  function Act(s: State, step: Step): State
    requires WellShaped(s)
  {
    match step
    case StartReset => if s.pc == Idle then s.(pc := Zeroing(Staging(s.mem), 0)) else s
    case StartPublish(data) => if s.pc == Idle then s.(pc := TestGate(data)) else s
    case Advance(choice) =>
      var w := WriterStep(s.cap, WriterState(s.mem, s.hist, s.pc), ReturnPc(s), choice);
      s.(mem := w.mem, hist := w.hist, pc := w.pc)
    case Signal(data) =>
      if s.pc == Dead then s
      else s.(pc := TestGate(data), doomed := true, hist := s.hist.(interrupts := s.hist.interrupts + 1))
    case Kill =>
      if s.pc == Dead then s
      else s.(pc := Dead, doomed := true, hist := s.hist.(interrupts := s.hist.interrupts + 1))
    case Restart =>
      if s.pc != Dead then s
      else s.(pc := Idle, doomed := false, mem := s.mem.(dumped := false),
              hist := s.hist.(lifetimes := s.hist.lifetimes + 1, lost := Max(0, Commits(s.hist) - s.hist.bumps)))
    case StartRead(i, out) =>
      if i < |s.readers| && s.readers[i].pc == Resting then
        s.(readers := s.readers[i := BeginRead(s.mem, s.hist, s.readers[i], out)])
      else s
    case AdvanceRead(i, choice) =>
      if i < |s.readers| then
        s.(readers := s.readers[i := ReaderStep(s.cap, s.mem, s.hist, s.readers[i], choice)])
      else s
  }

  function Tick(s: State): State {
    s.(hist := s.hist.(visible := s.hist.visible + [Visible(s.hist)]))
  }

  function Apply(s: State, step: Step): State
    requires WellShaped(s)
  {
    Tick(Act(s, step))
  }

  lemma WriterStepShape(cap: nat, w: WriterState, ret: WriterPc, choice: nat)
    requires Shaped(cap, w.mem) && PcShaped(cap, w.pc) && PcShaped(cap, ret)
    ensures
      var w' := WriterStep(cap, w, ret, choice);
      Shaped(cap, w'.mem) && PcShaped(cap, w'.pc) && w'.hist.visible == w.hist.visible
  {
  }

  lemma ReaderStepShape(cap: nat, m: Memory, h: History, r: Reader, choice: nat)
    requires Shaped(cap, m) && ReaderShaped(cap, r) && |h.visible| > 0
    ensures ReaderShaped(cap, ReaderStep(cap, m, h, r, choice))
  {
  }

  lemma ApplyKeepsShape(s: State, step: Step)
    requires WellShaped(s)
    ensures WellShaped(Apply(s, step))
  {
    if step.Advance? {
      WriterStepShape(s.cap, WriterState(s.mem, s.hist, s.pc), ReturnPc(s), step.choice);
    } else if step.AdvanceRead? && step.reader < |s.readers| {
      ReaderStepShape(s.cap, s.mem, s.hist, s.readers[step.reader], step.choice);
    }
  }

  function Exec(s: State, schedule: seq<Step>): (r: State)
    requires WellShaped(s)
    ensures WellShaped(r)
    decreases |schedule|
  {
    if schedule == [] then s
    else
      var before := Exec(s, schedule[..|schedule| - 1]);
      ApplyKeepsShape(before, schedule[|schedule| - 1]);
      Apply(before, schedule[|schedule| - 1])
  }

  /** A freshly created segment of capacity `cap`, an idle writer and `n` resting readers. */
  function Init(cap: nat, n: nat): (s: State)
    ensures WellShaped(s)
  {
    var zeros := seq(cap, _ => 0 as byte);
    State(cap, Memory(0, [0, 0], [zeros, zeros], false, 0, false), Idle, false,
          History([], 0, 0, 0, 1, 0, [0]), seq(n, _ => Reader(Resting, [], [])))
  }

  // ---- Progress --------------------------------------------------------------------------

  /** How far a call still has to go: its phase, then the bytes left in it. */
  function Phase(pc: WriterPc): nat {
    match pc
    case Zeroing(_, _) => 11
    case ClearLen(_) => 10
    case ReArm => 9
    case TestGate(_) => 8
    case SetGate(_) => 7
    case Filling(_, _, _) => 6
    case Clamp(_) => 5
    case StoreLen(_, _) => 4
    case Flip(_, _) => 3
    case LoadGeneration => 2
    case StoreGeneration(_) => 1
    case _ => 0
  }

  function Left(cap: nat, pc: WriterPc): nat {
    if pc.Filling? then |UpTo(Min(|pc.data|, cap)) - pc.done|
    else if pc.Zeroing? && pc.at <= cap then cap - pc.at
    else 0
  }

  predicate Nearer(cap: nat, pc: WriterPc, pc': WriterPc) {
    Phase(pc') < Phase(pc) || (Phase(pc') == Phase(pc) && Left(cap, pc') < Left(cap, pc))
  }

  lemma FillGoesOn(cap: nat, w: WriterState, ret: WriterPc) returns (choice: nat)
    requires Shaped(cap, w.mem) && PcShaped(cap, w.pc) && w.pc.Filling?
    ensures Nearer(cap, w.pc, WriterStep(cap, w, ret, choice).pc)
  {
    choice := 0;
    var n, done := Min(|w.pc.data|, cap), w.pc.done;
    if !AllDone(n, done) {
      choice :| choice < n && choice !in done;
      assert UpTo(n) - (done + {choice}) == (UpTo(n) - done) - {choice} && choice in UpTo(n) - done;
    }
  }

  lemma OtherGoesOn(cap: nat, w: WriterState, ret: WriterPc)
    requires Shaped(cap, w.mem) && PcShaped(cap, w.pc) && !w.pc.Filling? && !w.pc.Idle? && !w.pc.Dead?
    ensures var pc' := WriterStep(cap, w, ret, 0).pc; pc' == ret || Nearer(cap, w.pc, pc')
  {
  }

  /** Some next step of the writer returns or gets nearer to returning. */
  lemma WriterGoesOn(cap: nat, w: WriterState, ret: WriterPc) returns (choice: nat)
    requires Shaped(cap, w.mem) && PcShaped(cap, w.pc) && !w.pc.Idle? && !w.pc.Dead?
    ensures var pc' := WriterStep(cap, w, ret, choice).pc; pc' == ret || Nearer(cap, w.pc, pc')
  {
    if w.pc.Filling? {
      choice := FillGoesOn(cap, w, ret);
    } else {
      choice := 0;
      OtherGoesOn(cap, w, ret);
    }
  }

  // ---- Takeovers -------------------------------------------------------------------------

  /**
   The reader trusts the current generation and still has a byte to copy out of the buffer that
   is not published: the one the next writer process will zero or fill first.
   */
  predicate Exposed(m: Memory, h: History, r: Reader) {
    match r.pc
    case LoadLen(c, a, _) => a != m.published && c.base == h.bumps && |r.out| > 0
    case Copying(c, a, _, n, copied) => a != m.published && c.base == h.bumps && !AllDone(n, copied)
    case _ => false
  }

  predicate NoneExposed(s: State) {
    forall i | 0 <= i < |s.readers| :: !Exposed(s.mem, s.hist, s.readers[i])
  }

  /** Every takeover along the schedule finds no reader exposed. */
  predicate Careful(s: State, schedule: seq<Step>)
    requires WellShaped(s)
    decreases |schedule|
  {
    schedule == [] ||
    (var n := |schedule| - 1;
     && Careful(s, schedule[..n])
     && var before := Exec(s, schedule[..n]);
     schedule[n] == Restart && before.pc == Dead ==> NoneExposed(before))
  }

  /** `published` and `generation` are in step, as a new writer process can check. */
  predicate InStep(m: Memory) {
    m.published == m.generation % 2
  }

  /** Every takeover along the schedule finds the segment in step. */
  predicate Orderly(s: State, schedule: seq<Step>)
    requires WellShaped(s)
    decreases |schedule|
  {
    schedule == [] ||
    (var n := |schedule| - 1;
     && Orderly(s, schedule[..n])
     && var before := Exec(s, schedule[..n]);
     schedule[n] == Restart && before.pc == Dead ==> InStep(before.mem))
  }
}
