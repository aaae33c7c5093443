/**
 The Windows publish sites beside a main thread that resets. The latch excludes publish from
 publish, not publish from reset: a reset that zeroes the staging buffer while a publish on another
 thread is filling it spoils the snapshot, and it is the only thing that does.
 */
module WinReset {
  import opened Bytes
  import opened ShmProtocol
  import opened ShmSafety
  import opened WinLatch

  /** The process, and where its main thread stands inside a reset. */
  datatype Beside = Beside(p: Process, main: WriterPc)

  datatype Act =
    | Site(move: Move)
    | BeginReset       // the main thread calls reset
    | ResetStep        // its next store

  predicate Resetting(pc: WriterPc) {
    pc.Idle? || pc.Zeroing? || pc.ClearLen? || pc.ReArm?
  }

  predicate WellFormed(b: Beside) {
    Formed(b.p) && Resetting(b.main) && PcShaped(b.p.cap, b.main)
  }

  function Ticked(p: Process): Process {
    p.(hist := p.hist.(visible := p.hist.visible + [Visible(p.hist)]))
  }

  function Do(b: Beside, act: Act): Beside
    requires WellFormed(b)
  {
    match act
    case Site(move) => b.(p := Next(b.p, move))
    case BeginReset =>
      b.(p := Ticked(b.p), main := if !b.p.dead && b.main == Idle then Zeroing(Staging(b.p.mem), 0) else b.main)
    case ResetStep =>
      if b.p.dead then b.(p := Ticked(b.p))
      else
        var w := WriterStep(b.p.cap, WriterState(b.p.mem, b.p.hist, b.main), Idle, 0);
        Beside(Ticked(b.p.(mem := w.mem, hist := w.hist)), w.pc)
  }

  lemma ResetStays(cap: nat, w: WriterState)
    requires Shaped(cap, w.mem) && PcShaped(cap, w.pc) && Resetting(w.pc)
    ensures
      var w' := WriterStep(cap, w, Idle, 0);
      && Shaped(cap, w'.mem) && PcShaped(cap, w'.pc) && Resetting(w'.pc)
      && w'.hist == w.hist.(resets := w'.hist.resets)
  {
  }

  lemma DoKeepsForm(b: Beside, act: Act)
    requires WellFormed(b)
    ensures WellFormed(Do(b, act))
  {
    match act
    case Site(move) => NextKeepsForm(b.p, move);
    case ResetStep => ResetStays(b.p.cap, WriterState(b.p.mem, b.p.hist, b.main));
    case BeginReset =>
  }

  function Perform(b: Beside, acts: seq<Act>): (r: Beside)
    requires WellFormed(b)
    ensures WellFormed(r)
    decreases |acts|
  {
    if acts == [] then b
    else
      var before := Perform(b, acts[..|acts| - 1]);
      DoKeepsForm(before, acts[|acts| - 1]);
      Do(before, acts[|acts| - 1])
  }

  /** A fresh segment, an idle main thread and `sites` threads that may publish. */
  function Launch(cap: nat, sites: nat, n: nat): (b: Beside)
    ensures WellFormed(b)
  {
    Beside(Begin(cap, sites, n), Idle)
  }

  // ---- Collisions ------------------------------------------------------------------------

  /** The publish body, before its flip, with something to publish. */
  predicate Unflipped(cap: nat, pc: WriterPc) {
    match pc
    case TestGate(d) => Min(|d|, cap) > 0
    case SetGate(d) => Min(|d|, cap) > 0
    case Filling(_, d, _) => Min(|d|, cap) > 0
    case Clamp(d) => Min(|d|, cap) > 0
    case StoreLen(_, d) => Min(|d|, cap) > 0
    case Flip(_, d) => Min(|d|, cap) > 0
    case _ => false
  }

  predicate Erasing(pc: WriterPc) {
    pc.Zeroing? || pc.ClearLen?
  }

  predicate SiteUnflipped(p: Process) {
    exists t | 0 <= t < |p.threads| :: p.threads[t].Inside? && Unflipped(p.cap, p.threads[t].pc)
  }

  /** A live process whose main thread is erasing the buffer that a publish is about to offer. */
  predicate Collides(b: Beside) {
    !b.p.dead && Erasing(b.main) && SiteUnflipped(b.p)
  }

  /** No state before the last act collides. */
  predicate NeverCollided(b: Beside, acts: seq<Act>)
    requires WellFormed(b)
    decreases |acts|
  {
    acts == [] ||
    (var n := |acts| - 1;
     NeverCollided(b, acts[..n]) && !Collides(Perform(b, acts[..n])))
  }

  // ---- The invariant of a run without collisions -----------------------------------------

  ghost predicate Staged(cap: nat, m: Memory, d: seq<byte>)
    requires Shaped(cap, m)
  {
    forall i {:trigger d[i]} | 0 <= i < Min(|d|, cap) :: m.buf[1][i] == d[i]
  }

  /** Where the one thread that publishes can be. */
  ghost predicate SiteInv(cap: nat, m: Memory, h: History, pc: WriterPc)
    requires Shaped(cap, m)
  {
    match pc
    case TestGate(d) => Commits(h) == 0 && !m.dumped
    case SetGate(d) => Commits(h) == 0 && !m.dumped
    case Filling(t, d, done) =>
      && Commits(h) == 0 && t == 1
      && forall i {:trigger d[i]} | 0 <= i < Min(|d|, cap) && i in done :: m.buf[1][i] == d[i]
    case Clamp(d) => Commits(h) == 0 && Staged(cap, m, d)
    case StoreLen(t, d) => Commits(h) == 0 && t == 1 && Staged(cap, m, d)
    case Flip(t, d) => Commits(h) == 0 && t == 1 && Staged(cap, m, d) && m.bufLen[1] == Min(|d|, cap)
    case LoadGeneration => Commits(h) == 1 && h.bumps == 0
    case StoreGeneration(g) => Commits(h) == 1 && h.bumps == 0 && g == 0
    case _ => false
  }

  /** The segment: at most one commit ever, and buffer 1 holds it. */
  ghost predicate SegmentInv(cap: nat, m: Memory, h: History)
    requires Shaped(cap, m)
  {
    && h.bumps <= Commits(h) <= 1 && m.generation == h.bumps && m.published == Commits(h)
    && (Commits(h) == 1 ==> Holds(cap, m, 1, h.snaps[0]))
  }

  /** The main thread erases the staging buffer, or one whose snapshot is empty. */
  ghost predicate MainInv(m: Memory, h: History, main: WriterPc) {
    match main
    case Zeroing(t, _) => t == Staging(m) || h.snaps == [[]]
    case ClearLen(t) => t == Staging(m) || h.snaps == [[]]
    case _ => true
  }

  ghost predicate ThreadsInv(p: Process)
    requires Shaped(p.cap, p.mem)
  {
    && (!p.taken ==> Commits(p.hist) == 0 && !p.mem.dumped)
    && (forall t | 0 <= t < |p.threads| && p.threads[t].Inside? ::
          p.taken && SiteInv(p.cap, p.mem, p.hist, p.threads[t].pc))
    && forall t, u | 0 <= t < u < |p.threads| :: !(p.threads[t].Inside? && p.threads[u].Inside?)
  }

  ghost predicate InCall(h: History, c: Call, outCap: nat) {
    && h.bumps == 1 == Commits(h) && c.g1 == 1 == c.base && c.outCap == outCap
  }

  ghost predicate CallerInv(h: History, r: Reader) {
    && (match r.pc
        case Resting => true
        case LoadPublished(c) => InCall(h, c, |r.out|)
        case LoadLen(c, a, k) => InCall(h, c, |r.out|) && a == 1 == k
        case Copying(c, a, k, n, copied) =>
          && InCall(h, c, |r.out|) && a == 1 == k && n == Min(|h.snaps[0]|, |r.out|)
          && forall i {:trigger r.out[i]} | 0 <= i < n && i in copied :: r.out[i] == h.snaps[0][i]
        case Recheck(c, a, k, n) =>
          InCall(h, c, |r.out|) && k == 1 && n <= |r.out| && r.out[..n] == Take(h.snaps[0], |r.out|))
    && forall j | 0 <= j < |r.log| && Delivered(r.log[j]) :: Genuine(h, r.log[j])
  }

  ghost predicate Sound(b: Beside) {
    && WellFormed(b) && SegmentInv(b.p.cap, b.p.mem, b.p.hist) && MainInv(b.p.mem, b.p.hist, b.main)
    && ThreadsInv(b.p)
    && forall i | 0 <= i < |b.p.readers| :: CallerInv(b.p.hist, b.p.readers[i])
  }

  /** No snapshot is forgotten, so what callers know of the history stays true. */
  lemma CallerStays(h: History, h': History, r: Reader)
    requires CallerInv(h, r) && h.snaps <= h'.snaps && h.bumps <= h'.bumps <= 1 && Commits(h') <= 1
    ensures CallerInv(h', r)
  {
  }

  // ---- The publishing thread -------------------------------------------------------------

  lemma SiteStep(cap: nat, w: WriterState, choice: nat)
    requires Shaped(cap, w.mem) && PcShaped(cap, w.pc) && Publishing(w.pc)
    requires SegmentInv(cap, w.mem, w.hist) && SiteInv(cap, w.mem, w.hist, w.pc)
    ensures
      var w' := WriterStep(cap, w, Idle, choice);
      && Shaped(cap, w'.mem) && SegmentInv(cap, w'.mem, w'.hist)
      && (w'.pc == Idle || SiteInv(cap, w'.mem, w'.hist, w'.pc))
      && w.hist.snaps <= w'.hist.snaps && w.hist.bumps <= w'.hist.bumps
  {
  }

  /** A flip under the main thread's eyes happens only with nothing to lose. */
  lemma SiteStepMain(cap: nat, w: WriterState, choice: nat, main: WriterPc)
    requires Shaped(cap, w.mem) && PcShaped(cap, w.pc) && Publishing(w.pc)
    requires SegmentInv(cap, w.mem, w.hist) && SiteInv(cap, w.mem, w.hist, w.pc) && MainInv(w.mem, w.hist, main)
    requires !(Erasing(main) && Unflipped(cap, w.pc))
    ensures var w' := WriterStep(cap, w, Idle, choice); MainInv(w'.mem, w'.hist, main)
  {
    if w.pc.Flip? && Erasing(main) {
      assert Take(w.pc.data, cap) == [];
    }
  }

  lemma WorkSound(b: Beside, t: nat, choice: nat)
    requires Sound(b) && !Collides(b) && !b.p.dead && t < |b.p.threads| && b.p.threads[t].Inside?
    ensures Sound(Do(b, Site(Work(t, choice))))
  {
    var p := b.p;
    var w := WriterState(p.mem, p.hist, p.threads[t].pc);
    var q := Next(p, Work(t, choice));
    PublishStays(p.cap, w, choice);
    SiteStep(p.cap, w, choice);
    SiteStepMain(p.cap, w, choice, b.main);
    DoKeepsForm(b, Site(Work(t, choice)));
    forall u | 0 <= u < |q.threads| && u != t
      ensures !q.threads[u].Inside?
    {
      assert q.threads[u] == p.threads[u];
    }
    forall i | 0 <= i < |q.readers|
      ensures CallerInv(q.hist, q.readers[i])
    {
      CallerStays(p.hist, q.hist, p.readers[i]);
    }
  }

  // ---- Everything else -------------------------------------------------------------------

  lemma ReaderMoves(cap: nat, m: Memory, h: History, r: Reader, choice: nat)
    requires Shaped(cap, m) && ReaderShaped(cap, r) && |h.visible| > 0
    requires SegmentInv(cap, m, h) && CallerInv(h, r)
    ensures CallerInv(h, ReaderStep(cap, m, h, r, choice))
  {
  }

  lemma ReaderBegins(cap: nat, m: Memory, h: History, r: Reader, out: seq<byte>)
    requires Shaped(cap, m) && |h.visible| > 0 && SegmentInv(cap, m, h) && CallerInv(h, r) && r.pc == Resting
    ensures CallerInv(h, BeginRead(m, h, r, out))
  {
  }

  /** The clock and the readers: nothing the threads see. */
  lemma ReadersSound(b: Beside, p': Process)
    requires Sound(b) && Formed(p') && p'.cap == b.p.cap && p'.mem == b.p.mem && p'.threads == b.p.threads
    requires p'.taken == b.p.taken && p'.hist.snaps == b.p.hist.snaps && p'.hist.bumps == b.p.hist.bumps
    requires forall i | 0 <= i < |p'.readers| :: CallerInv(b.p.hist, p'.readers[i])
    ensures Sound(b.(p := p'))
  {
    forall i | 0 <= i < |p'.readers|
      ensures CallerInv(p'.hist, p'.readers[i])
    {
      CallerStays(b.p.hist, p'.hist, p'.readers[i]);
    }
  }

  lemma ReadSound(b: Beside, move: Move)
    requires Sound(b) && (move.ReadStart? || move.ReadNext? || move.Terminate?)
    ensures Sound(Do(b, Site(move)))
  {
    NextKeepsForm(b.p, move);
    var q := Next(b.p, move);
    forall i | 0 <= i < |q.readers|
      ensures CallerInv(b.p.hist, q.readers[i])
    {
      if move.ReadStart? && i == move.reader && b.p.readers[i].pc == Resting {
        ReaderBegins(b.p.cap, b.p.mem, b.p.hist, b.p.readers[i], move.out);
      } else if move.ReadNext? && i == move.reader {
        ReaderMoves(b.p.cap, b.p.mem, b.p.hist, b.p.readers[i], move.choice);
      }
    }
    ReadersSound(b, q);
  }

  /** Calling a site, and the latch. */
  lemma LatchSound(b: Beside, move: Move)
    requires Sound(b) && (move.Enter? || move.Compare?)
    ensures Sound(Do(b, Site(move)))
  {
    NextKeepsForm(b.p, move);
    var p, q := b.p, Next(b.p, move);
    forall t | 0 <= t < |q.threads| && q.threads[t].Inside?
      ensures q.taken && SiteInv(q.cap, q.mem, q.hist, q.threads[t].pc)
    {
      assert p.threads[t].Inside? ==> q.threads[t] == p.threads[t];
    }
    forall i | 0 <= i < |q.readers|
      ensures CallerInv(q.hist, q.readers[i])
    {
      CallerStays(p.hist, q.hist, p.readers[i]);
    }
  }

  /** The main thread's store leaves a publish without collision, and every snapshot, alone. */
  lemma MainStep(cap: nat, m: Memory, h: History, main: WriterPc)
    requires Shaped(cap, m) && PcShaped(cap, main) && Resetting(main)
    requires SegmentInv(cap, m, h) && MainInv(m, h, main)
    ensures
      var w' := WriterStep(cap, WriterState(m, h, main), Idle, 0);
      && Shaped(cap, w'.mem) && SegmentInv(cap, w'.mem, w'.hist) && MainInv(w'.mem, w'.hist, w'.pc)
      && (!m.dumped ==> !w'.mem.dumped)
  {
  }

  lemma MainStepSite(cap: nat, m: Memory, h: History, main: WriterPc, pc: WriterPc)
    requires Shaped(cap, m) && PcShaped(cap, main) && Resetting(main)
    requires SiteInv(cap, m, h, pc) && !(Erasing(main) && Unflipped(cap, pc))
    ensures
      var w' := WriterStep(cap, WriterState(m, h, main), Idle, 0);
      Shaped(cap, w'.mem) && SiteInv(cap, w'.mem, w'.hist, pc)
  {
  }

  lemma ResetSound(b: Beside, act: Act)
    requires Sound(b) && !Collides(b) && !act.Site?
    ensures Sound(Do(b, act))
  {
    DoKeepsForm(b, act);
    var p, c := b.p, Do(b, act);
    if act.ResetStep? && !p.dead {
      MainStep(p.cap, p.mem, p.hist, b.main);
      ResetStays(p.cap, WriterState(p.mem, p.hist, b.main));
      forall t | 0 <= t < |p.threads| && p.threads[t].Inside?
        ensures SiteInv(c.p.cap, c.p.mem, c.p.hist, p.threads[t].pc)
      {
        MainStepSite(p.cap, p.mem, p.hist, b.main, p.threads[t].pc);
      }
    }
    forall i | 0 <= i < |c.p.readers|
      ensures CallerInv(c.p.hist, c.p.readers[i])
    {
      CallerStays(p.hist, c.p.hist, p.readers[i]);
    }
  }

  lemma DoSound(b: Beside, act: Act)
    requires Sound(b) && !Collides(b)
    ensures Sound(Do(b, act))
  {
    if act.Site? {
      var move := act.move;
      if move.Enter? || move.Compare? {
        LatchSound(b, move);
      } else if move.Work? {
        if !b.p.dead && move.thread < |b.p.threads| && b.p.threads[move.thread].Inside? {
          WorkSound(b, move.thread, move.choice);
        } else {
          NextKeepsForm(b.p, move);
          ReadersSound(b, Next(b.p, move));
        }
      } else {
        ReadSound(b, move);
      }
    } else {
      ResetSound(b, act);
    }
  }

  lemma LaunchSound(cap: nat, sites: nat, n: nat)
    ensures Sound(Launch(cap, sites, n))
  {
  }

  lemma {:induction false} PerformSound(b: Beside, acts: seq<Act>)
    requires Sound(b) && NeverCollided(b, acts)
    ensures Sound(Perform(b, acts))
    decreases |acts|
  {
    if acts != [] {
      var n := |acts| - 1;
      PerformSound(b, acts[..n]);
      DoSound(Perform(b, acts[..n]), acts[n]);
    }
  }

  /** A publish site was called with `data`. */
  ghost predicate CalledBeside(acts: seq<Act>, data: seq<byte>) {
    exists t: nat :: Site(Enter(t, data)) in acts
  }

  lemma {:induction false} CommitsAreCalledBeside(cap: nat, sites: nat, n: nat, acts: seq<Act>)
    ensures
      var p := Perform(Launch(cap, sites, n), acts).p;
      p.cap == cap && OnlyAsked(p, d => CalledBeside(acts, d))
    decreases |acts|
  {
    if acts != [] {
      var k := |acts| - 1;
      var b, act := Perform(Launch(cap, sites, n), acts[..k]), acts[k];
      CommitsAreCalledBeside(cap, sites, n, acts[..k]);
      AskedMore(b.p, d => CalledBeside(acts[..k], d), d => CalledBeside(acts, d));
      if act.Site? {
        if act.move.Enter? {
          assert Site(Enter(act.move.thread, act.move.data)) in acts;
        }
        NextAsked(b.p, act.move, d => CalledBeside(acts, d));
      } else {
        ResetAsked(b, act, d => CalledBeside(acts, d));
      }
    }
  }

  lemma ResetAsked(b: Beside, act: Act, asked: seq<byte> -> bool)
    requires WellFormed(b) && OnlyAsked(b.p, asked) && !act.Site?
    ensures Do(b, act).p.cap == b.p.cap && OnlyAsked(Do(b, act).p, asked)
  {
    ResetStays(b.p.cap, WriterState(b.p.mem, b.p.hist, b.main));
  }

  lemma SoundRead(b: Beside, i: nat, j: nat)
    requires Sound(b) && i < |b.p.readers| && j < |b.p.readers[i].log| && Delivered(b.p.readers[i].log[j])
    ensures
      var o := b.p.readers[i].log[j];
      |b.p.hist.snaps| == 1 && o.bytes == Take(b.p.hist.snaps[0], o.call.outCap)
  {
    assert CallerInv(b.p.hist, b.p.readers[i]);
  }

  /**
   However the threads interleave with the main thread's resets, as long as no reset erases under
   a publish that has not flipped, a reader that is delivered bytes gets the beginning of the one
   snapshot the process ever commits.
   */
  lemma {:induction false} NoTornReadBesideResets(cap: nat, sites: nat, n: nat, acts: seq<Act>, i: nat, j: nat)
    returns (data: seq<byte>)
    requires NeverCollided(Launch(cap, sites, n), acts)
    requires
      var p := Perform(Launch(cap, sites, n), acts).p;
      i < |p.readers| && j < |p.readers[i].log| && Delivered(p.readers[i].log[j])
    ensures
      var p := Perform(Launch(cap, sites, n), acts).p;
      var o := p.readers[i].log[j];
      && p.hist.snaps == [Take(data, cap)] && CalledBeside(acts, data)
      && o.bytes == Take(Take(data, cap), o.call.outCap)
  {
    LaunchSound(cap, sites, n);
    PerformSound(Launch(cap, sites, n), acts);
    SoundRead(Perform(Launch(cap, sites, n), acts), i, j);
    CommitsAreCalledBeside(cap, sites, n, acts);
    assert IsAsked(Perform(Launch(cap, sites, n), acts).p.hist.snaps[0], cap, d => CalledBeside(acts, d));
    data :| CalledBeside(acts, data) && Perform(Launch(cap, sites, n), acts).p.hist.snaps[0] == Take(data, cap);
  }

  // ---- A collision is always felt --------------------------------------------------------

  /** No thread takes the latch and no reset begins: what is under way runs on, and readers read. */
  predicate Quiet(acts: seq<Act>) {
    forall act | act in acts :: act != BeginReset && !(act.Site? && act.move.Compare?)
  }

  ghost predicate Misread(b: Beside, o: Outcome) {
    && (exists i, j {:trigger b.p.readers[i].log[j]} ::
          0 <= i < |b.p.readers| && 0 <= j < |b.p.readers[i].log| && b.p.readers[i].log[j] == o)
    && Delivered(o) && !Genuine(b.p.hist, o)
  }

  /** What is under way can make a reader take bytes that are not the snapshot's. */
  ghost predicate Spoilable(b: Beside)
    requires WellFormed(b)
  {
    exists acts: seq<Act>, o: Outcome :: Quiet(acts) && Misread(Perform(b, acts), o)
  }

  lemma QuietStays(b: Beside, act: Act)
    requires WellFormed(b) && !Collides(b) && Quiet([act])
    ensures !Collides(Do(b, act))
  {
    assert act in [act];
    var p, q := b.p, Do(b, act).p;
    if t :| 0 <= t < |q.threads| && q.threads[t].Inside? && Unflipped(q.cap, q.threads[t].pc) {
      assert p.threads[t].Inside? && Unflipped(p.cap, p.threads[t].pc);
    }
  }

  lemma {:induction false} QuietNeverCollides(b: Beside, acts: seq<Act>)
    requires WellFormed(b) && !Collides(b) && Quiet(acts)
    ensures NeverCollided(b, acts) && !Collides(Perform(b, acts))
    decreases |acts|
  {
    if acts != [] {
      var n := |acts| - 1;
      QuietNeverCollides(b, acts[..n]);
      QuietStays(Perform(b, acts[..n]), acts[n]);
    }
  }

  lemma UncollidedIsSafe(b: Beside)
    requires Sound(b) && !Collides(b)
    ensures !Spoilable(b)
  {
    forall acts: seq<Act>, o: Outcome | Quiet(acts)
      ensures !Misread(Perform(b, acts), o)
    {
      QuietNeverCollides(b, acts);
      PerformSound(b, acts);
    }
  }

  lemma {:induction false} PerformConcat(b: Beside, x: seq<Act>, y: seq<Act>)
    requires WellFormed(b)
    ensures Perform(b, x + y) == Perform(Perform(b, x), y)
    decreases |y|
  {
    if y == [] {
      assert x + y == x;
    } else {
      var k := |y| - 1;
      assert (x + y)[..|x + y| - 1] == x + y[..k];
      PerformConcat(b, x, y[..k]);
    }
  }

  lemma After(b: Beside, x: seq<Act>, y: seq<Act>) returns (acts: seq<Act>)
    requires WellFormed(b) && Quiet(x) && Quiet(y)
    ensures Perform(b, acts) == Perform(Perform(b, x), y) && Quiet(acts)
  {
    PerformConcat(b, x, y);
    acts := x + y;
  }

  lemma Once(b: Beside, act: Act) returns (acts: seq<Act>)
    requires WellFormed(b) && act != BeginReset && !(act.Site? && act.move.Compare?)
    ensures Perform(b, acts) == Do(b, act) && Quiet(acts)
  {
    assert [act][..0] == [];
    acts := [act];
  }

  ghost predicate SiteMidway(b: Beside, t: nat, d: seq<byte>) {
    && WellFormed(b) && !b.p.dead && t < |b.p.threads| && b.p.threads[t].Inside?
    && Midway(b.p.cap, b.p.mem, b.p.hist, b.p.threads[t].pc, d)
  }

  ghost predicate SameRest(b: Beside, c: Beside) {
    WellFormed(c) && c.p.dead == b.p.dead && c.p.cap == b.p.cap && c.p.readers == b.p.readers
  }

  lemma SiteGoesOn(b: Beside, t: nat, d: seq<byte>) returns (choice: nat)
    requires SiteMidway(b, t, d)
    ensures
      var c := Do(b, Site(Work(t, choice)));
      && SameRest(b, c) && c.main == b.main
      && (|| Offered(c.p.cap, c.p.mem, c.p.hist, d)
          || (SiteMidway(c, t, d)
              && var pc, pc' := b.p.threads[t].pc, c.p.threads[t].pc;
                 || Phase(pc') < Phase(pc)
                 || (Phase(pc') == Phase(pc) && Left(b.p.cap, pc') < Left(b.p.cap, pc))))
  {
    choice := MidwayStep(b.p.cap, WriterState(b.p.mem, b.p.hist, b.p.threads[t].pc), d);
    DoKeepsForm(b, Site(Work(t, choice)));
  }

  lemma {:induction false} SiteFinishes(b: Beside, t: nat, d: seq<byte>) returns (acts: seq<Act>)
    requires SiteMidway(b, t, d)
    ensures
      var c := Perform(b, acts);
      SameRest(b, c) && c.main == b.main && Offered(c.p.cap, c.p.mem, c.p.hist, d) && Quiet(acts)
    decreases Phase(b.p.threads[t].pc), Left(b.p.cap, b.p.threads[t].pc)
  {
    var choice := SiteGoesOn(b, t, d);
    acts := Once(b, Site(Work(t, choice)));
    var c := Perform(b, acts);
    if !Offered(c.p.cap, c.p.mem, c.p.hist, d) {
      var rest := SiteFinishes(c, t, d);
      acts := After(b, acts, rest);
    }
  }

  lemma {:induction false} ErasesOn(b: Beside, d: seq<byte>) returns (acts: seq<Act>)
    requires WellFormed(b) && !b.p.dead && Offered(b.p.cap, b.p.mem, b.p.hist, d)
    requires Erasing(b.main) && b.main.target == 1
    ensures
      var c := Perform(b, acts);
      SameRest(b, c) && Offered(c.p.cap, c.p.mem, c.p.hist, d) && c.p.mem.bufLen[1] == 0 && Quiet(acts)
    decreases if b.main.Zeroing? then b.p.cap - b.main.at + 1 else 0
  {
    DoKeepsForm(b, ResetStep);
    acts := Once(b, ResetStep);
    if b.main.Zeroing? {
      var rest := ErasesOn(Do(b, ResetStep), d);
      acts := After(b, acts, rest);
    }
  }

  // ---- A reader then takes nothing for the snapshot --------------------------------------

  /** Only reader 0 moved. */
  ghost predicate ReaderOnly(b: Beside, c: Beside) {
    && WellFormed(c) && c.p.cap == b.p.cap && c.p.mem == b.p.mem && |c.p.readers| == |b.p.readers|
    && c.p.hist.snaps == b.p.hist.snaps && c.p.hist.bumps == b.p.hist.bumps
  }

  lemma ReadsOn(b: Beside) returns (acts: seq<Act>)
    requires WellFormed(b) && |b.p.readers| > 0
    ensures
      var c := Perform(b, acts);
      && ReaderOnly(b, c) && Quiet(acts)
      && c.p.readers[0] == ReaderStep(b.p.cap, b.p.mem, b.p.hist, b.p.readers[0], 0)
  {
    DoKeepsForm(b, Site(ReadNext(0, 0)));
    acts := Once(b, Site(ReadNext(0, 0)));
  }

  lemma ReadsTwice(b: Beside) returns (mid: Beside, acts: seq<Act>)
    requires WellFormed(b) && |b.p.readers| > 0
    ensures
      var c := Perform(b, acts);
      && ReaderOnly(b, mid) && ReaderOnly(mid, c) && Quiet(acts)
      && mid.p.readers[0] == ReaderStep(b.p.cap, b.p.mem, b.p.hist, b.p.readers[0], 0)
      && c.p.readers[0] == ReaderStep(mid.p.cap, mid.p.mem, mid.p.hist, mid.p.readers[0], 0)
  {
    var first := ReadsOn(b);
    mid := Perform(b, first);
    var second := ReadsOn(mid);
    acts := After(b, first, second);
  }

  lemma StartsReading(b: Beside, out: seq<byte>) returns (acts: seq<Act>)
    requires WellFormed(b) && |b.p.readers| > 0 && b.p.readers[0].pc == Resting && b.p.mem.generation == 1
    ensures
      var c := Perform(b, acts);
      && ReaderOnly(b, c) && Quiet(acts) && c.p.readers[0].pc.LoadPublished? && c.p.readers[0].out == out
      && c.p.readers[0].pc.call.g1 == 1 && c.p.readers[0].pc.call.outCap == |out|
  {
    DoKeepsForm(b, Site(ReadStart(0, out)));
    acts := Once(b, Site(ReadStart(0, out)));
  }

  /** The copy finds a length of zero. */
  lemma LoadsNothing(b: Beside) returns (acts: seq<Act>)
    requires WellFormed(b) && |b.p.readers| > 0 && b.p.readers[0].pc.LoadPublished?
    requires b.p.mem.published == 1 && b.p.mem.bufLen[1] == 0
    ensures
      var c := Perform(b, acts);
      && ReaderOnly(b, c) && Quiet(acts) && c.p.readers[0].pc.Copying? && c.p.readers[0].pc.n == 0
      && c.p.readers[0].pc.call == b.p.readers[0].pc.call && c.p.readers[0].pc.commit == Commits(b.p.hist)
  {
    var mid;
    mid, acts := ReadsTwice(b);
  }

  /** It is empty, and the generation did not move. */
  lemma ReturnsNothing(b: Beside, o: Outcome) returns (acts: seq<Act>)
    requires WellFormed(b) && |b.p.readers| > 0 && b.p.readers[0].pc.Copying? && b.p.readers[0].pc.n == 0
    requires b.p.readers[0].pc.call.g1 == b.p.mem.generation
    requires
      var r, h := b.p.readers[0], b.p.hist;
      o == Outcome(1, [], r.pc.call, r.pc.commit, h.bumps, o.endLost, o.endTime)
    ensures
      var c := Perform(b, acts);
      && ReaderOnly(b, c) && Quiet(acts) && |c.p.readers[0].log| > 0
      && var last := c.p.readers[0].log[|c.p.readers[0].log| - 1];
         last == o.(endLost := last.endLost, endTime := last.endTime)
  {
    var mid;
    mid, acts := ReadsTwice(b);
    assert mid.p.readers[0].out[..0] == [];
  }

  lemma NothingIsMisread(c: Beside, d: seq<byte>, o: Outcome)
    requires |c.p.readers| > 0 && |c.p.readers[0].log| > 0 && o == c.p.readers[0].log[|c.p.readers[0].log| - 1]
    requires o.code == 1 && o.bytes == [] && o.commit == 1 && o.call.g1 == 1 && o.call.outCap > 0
    requires c.p.hist.snaps == [Take(d, c.p.cap)] && Min(|d|, c.p.cap) > 0
    ensures Misread(c, o)
  {
    assert |Take(Take(d, c.p.cap), o.call.outCap)| > 0;
  }

  lemma ReadsNothing(b: Beside, d: seq<byte>, out: seq<byte>) returns (acts: seq<Act>, o: Outcome)
    requires WellFormed(b) && |b.p.readers| > 0 && b.p.readers[0].pc == Resting && |out| > 0
    requires Offered(b.p.cap, b.p.mem, b.p.hist, d) && b.p.mem.bufLen[1] == 0 && Min(|d|, b.p.cap) > 0
    ensures Quiet(acts) && Misread(Perform(b, acts), o)
  {
    var start := StartsReading(b, out);
    var c1 := Perform(b, start);
    var load := LoadsNothing(c1);
    var c2 := Perform(c1, load);
    var r := c2.p.readers[0];
    var finish := ReturnsNothing(c2, Outcome(1, [], r.pc.call, r.pc.commit, c2.p.hist.bumps, 0, 0));
    var c3 := Perform(c2, finish);
    o := c3.p.readers[0].log[|c3.p.readers[0].log| - 1];
    NothingIsMisread(c3, d, o);
    acts := After(b, start, load);
    acts := After(b, acts, finish);
  }

  lemma CollisionIsFelt(b: Beside)
    requires Sound(b) && Collides(b) && |b.p.readers| > 0
    ensures Spoilable(b)
  {
    var t: nat :| t < |b.p.threads| && b.p.threads[t].Inside? && Unflipped(b.p.cap, b.p.threads[t].pc);
    var d := b.p.threads[t].pc.data;
    assert SiteMidway(b, t, d);
    var publish := SiteFinishes(b, t, d);
    var c1 := Perform(b, publish);
    var erase := ErasesOn(c1, d);
    var acts := After(b, publish, erase);
    var c2 := Perform(c1, erase);
    assert CallerInv(b.p.hist, b.p.readers[0]);
    var read, o := ReadsNothing(c2, d, [0]);
    acts := After(b, acts, read);
  }

  /**
   After any run without a collision so far, what is under way can spoil some read if and only if
   it collides now: the main thread is erasing, and a thread inside the publish body has something
   to publish and has not flipped.
   */
  lemma {:induction false} CollisionIff(cap: nat, sites: nat, n: nat, acts: seq<Act>)
    requires n > 0 && NeverCollided(Launch(cap, sites, n), acts)
    ensures var b := Perform(Launch(cap, sites, n), acts); Spoilable(b) <==> Collides(b)
  {
    var b := Perform(Launch(cap, sites, n), acts);
    LaunchSound(cap, sites, n);
    PerformSound(Launch(cap, sites, n), acts);
    ReadersRemain(Launch(cap, sites, n), acts);
    if Collides(b) {
      CollisionIsFelt(b);
    } else {
      UncollidedIsSafe(b);
    }
  }

  lemma DoKeepsReaders(b: Beside, act: Act)
    requires WellFormed(b)
    ensures |Do(b, act).p.readers| == |b.p.readers|
  {
  }

  lemma {:induction false} ReadersRemain(b: Beside, acts: seq<Act>)
    requires WellFormed(b)
    ensures |Perform(b, acts).p.readers| == |b.p.readers|
    decreases |acts|
  {
    if acts != [] {
      ReadersRemain(b, acts[..|acts| - 1]);
      DoKeepsReaders(Perform(b, acts[..|acts| - 1]), acts[|acts| - 1]);
    }
  }

  /** Collisions do happen: a reset begins, and a site that has something to publish gets the latch. */
  lemma {:induction false} SomeRunCollides(cap: nat, sites: nat, n: nat, data: seq<byte>) returns (acts: seq<Act>)
    requires cap > 0 && sites > 0 && data != []
    ensures NeverCollided(Launch(cap, sites, n), acts) && Collides(Perform(Launch(cap, sites, n), acts))
  {
    var b0 := Launch(cap, sites, n);
    var x, y, z := BeginReset, Site(Enter(0, data)), Site(Compare(0));
    DoKeepsForm(b0, x);
    var b1 := Do(b0, x);
    DoKeepsForm(b1, y);
    var b2 := Do(b1, y);
    DoKeepsForm(b2, z);
    PerformThree(b0, x, y, z);
    acts := [x, y, z];
    assert b2.p.threads[0] == AtLatch(data);
    assert Do(b2, z).p.threads[0] == Inside(TestGate(data));
  }

  lemma PerformThree(b: Beside, x: Act, y: Act, z: Act)
    requires WellFormed(b) && WellFormed(Do(b, x)) && WellFormed(Do(Do(b, x), y))
    ensures Perform(b, [x, y, z]) == Do(Do(Do(b, x), y), z)
    ensures NeverCollided(b, [x, y, z]) <==> !Collides(b) && !Collides(Do(b, x)) && !Collides(Do(Do(b, x), y))
  {
    var none: seq<Act>, one, two, three := [], [x], [x, y], [x, y, z];
    assert one[..0] == none && two[..1] == one && three[..2] == two;
    assert Perform(b, none) == b;
    assert Perform(b, one) == Do(b, x);
    assert Perform(b, two) == Do(Do(b, x), y);
    assert NeverCollided(b, one) <==> !Collides(b);
    assert NeverCollided(b, two) <==> !Collides(b) && !Collides(Do(b, x));
  }
}
