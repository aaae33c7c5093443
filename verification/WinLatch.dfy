/**
 The Windows publish sites: exit hook, exception filter and console control handler run on
 threads that really overlap. A compare-and-swap latch lets at most one of them publish, so the
 segment keeps a single writer and every promise of the transport carries over.
 */
module WinLatch {
  import opened Bytes
  import opened ShmProtocol
  import opened ShmSafety
  import opened ShmTheorems

  /** A thread outside the publish sites, about to test the latch, or inside the publish body. */
  datatype Thread = Outside | AtLatch(data: seq<byte>) | Inside(pc: WriterPc)

  datatype Process = Process(
    cap: nat, mem: Memory, hist: History, taken: bool, dead: bool, entries: nat,
    threads: seq<Thread>, readers: seq<Reader>)

  datatype Move =
    | Enter(thread: nat, data: seq<byte>)    // a publish site is entered
    | Compare(thread: nat)                  // the interlocked compare-exchange
    | Work(thread: nat, choice: nat)        // one load or store of the publish body
    | Terminate                             // the process is gone
    | ReadStart(reader: nat, out: seq<byte>)
    | ReadNext(reader: nat, choice: nat)

  predicate Publishing(pc: WriterPc) {
    !pc.Idle? && !pc.Zeroing? && !pc.ClearLen? && !pc.ReArm? && !pc.Dead?
  }

  predicate Formed(p: Process) {
    && Shaped(p.cap, p.mem) && |p.hist.visible| > 0
    && (forall t | 0 <= t < |p.threads| && p.threads[t].Inside? ::
          PcShaped(p.cap, p.threads[t].pc) && Publishing(p.threads[t].pc))
    && forall i | 0 <= i < |p.readers| :: ReaderShaped(p.cap, p.readers[i])
  }

  function WorkStep(p: Process, t: nat, choice: nat): Process
    requires Formed(p) && t < |p.threads| && p.threads[t].Inside?
  {
    var w := WriterStep(p.cap, WriterState(p.mem, p.hist, p.threads[t].pc), Idle, choice);
    p.(mem := w.mem, hist := w.hist, threads := p.threads[t := if w.pc == Idle then Outside else Inside(w.pc)])
  }

  function Moved(p: Process, move: Move): Process
    requires Formed(p)
  {
    match move
    case Enter(t, data) =>
      if !p.dead && t < |p.threads| && p.threads[t] == Outside then p.(threads := p.threads[t := AtLatch(data)]) else p
    case Compare(t) =>
      if p.dead || t >= |p.threads| || !p.threads[t].AtLatch? then p
      else if p.taken then p.(threads := p.threads[t := Outside])
      else p.(taken := true, entries := p.entries + 1, threads := p.threads[t := Inside(TestGate(p.threads[t].data))])
    case Work(t, choice) =>
      if !p.dead && t < |p.threads| && p.threads[t].Inside? then WorkStep(p, t, choice) else p
    case Terminate =>
      if p.dead then p else p.(dead := true, hist := p.hist.(interrupts := p.hist.interrupts + 1))
    case ReadStart(i, out) =>
      if i < |p.readers| && p.readers[i].pc == Resting then
        p.(readers := p.readers[i := BeginRead(p.mem, p.hist, p.readers[i], out)])
      else p
    case ReadNext(i, choice) =>
      if i < |p.readers| then
        p.(readers := p.readers[i := ReaderStep(p.cap, p.mem, p.hist, p.readers[i], choice)])
      else p
  }

  function Next(p: Process, move: Move): Process
    requires Formed(p)
  {
    var q := Moved(p, move);
    q.(hist := q.hist.(visible := q.hist.visible + [Visible(q.hist)]))
  }

  /** The publish body never falls into a reset, and ends where it returns. */
  lemma PublishStays(cap: nat, w: WriterState, choice: nat)
    requires Shaped(cap, w.mem) && PcShaped(cap, w.pc) && Publishing(w.pc)
    ensures
      var w' := WriterStep(cap, w, Idle, choice);
      && Shaped(cap, w'.mem) && PcShaped(cap, w'.pc) && (Publishing(w'.pc) || w'.pc == Idle)
      && w'.hist.visible == w.hist.visible
  {
  }

  lemma NextKeepsForm(p: Process, move: Move)
    requires Formed(p)
    ensures Formed(Next(p, move))
  {
    if move.Work? && !p.dead && move.thread < |p.threads| && p.threads[move.thread].Inside? {
      PublishStays(p.cap, WriterState(p.mem, p.hist, p.threads[move.thread].pc), move.choice);
    } else if move.ReadNext? && move.reader < |p.readers| {
      ReaderStepShape(p.cap, p.mem, p.hist, p.readers[move.reader], move.choice);
    }
  }

  function Play(p: Process, moves: seq<Move>): (r: Process)
    requires Formed(p)
    ensures Formed(r)
    decreases |moves|
  {
    if moves == [] then p
    else
      var before := Play(p, moves[..|moves| - 1]);
      NextKeepsForm(before, moves[|moves| - 1]);
      Next(before, moves[|moves| - 1])
  }

  /** `sites` threads that may publish, a fresh segment and `n` readers. */
  function Begin(cap: nat, sites: nat, n: nat): (p: Process)
    ensures Formed(p)
  {
    var s := Init(cap, n);
    Process(cap, s.mem, s.hist, false, false, 0, seq(sites, _ => Outside), s.readers)
  }

  // ---- At most one thread publishes ------------------------------------------------------

  ghost predicate Exclusive(p: Process) {
    && p.entries == (if p.taken then 1 else 0) && p.hist.resets == 0 && p.hist.lifetimes == 1
    && (forall t | 0 <= t < |p.threads| && p.threads[t].Inside? :: p.taken)
    && forall t, u | 0 <= t < u < |p.threads| :: !(p.threads[t].Inside? && p.threads[u].Inside?)
  }

  lemma NextExclusive(p: Process, move: Move)
    requires Formed(p) && Exclusive(p)
    ensures Exclusive(Next(p, move))
  {
  }

  /** Over every interleaving the publish body is entered at most once. */
  lemma {:induction false} EnteredAtMostOnce(cap: nat, sites: nat, n: nat, moves: seq<Move>)
    ensures var p := Play(Begin(cap, sites, n), moves); Exclusive(p) && p.entries <= 1
    decreases |moves|
  {
    if moves != [] {
      EnteredAtMostOnce(cap, sites, n, moves[..|moves| - 1]);
      NextExclusive(Play(Begin(cap, sites, n), moves[..|moves| - 1]), moves[|moves| - 1]);
    }
  }

  /**
   What the latch does to the thread that compares: it lets the first one in, with its data, and
   sends every later one away; nothing a reader can see changes.
   */
  lemma LatchDecides(p: Process, t: nat)
    requires Formed(p) && !p.dead && t < |p.threads| && p.threads[t].AtLatch?
    ensures
      var q := Next(p, Compare(t));
      && q.taken && q.mem == p.mem && q.hist.snaps == p.hist.snaps && q.readers == p.readers
      && q.threads == p.threads[t := if p.taken then Outside else Inside(TestGate(p.threads[t].data))]
  {
  }

  /** Once the process is gone only readers move. */
  lemma DeadIsStill(p: Process, move: Move)
    requires Formed(p)
    ensures Next(p, Terminate).dead && Next(p, Terminate).mem == p.mem
    ensures p.dead ==> Next(p, move).dead && Next(p, move).mem == p.mem && Next(p, move).threads == p.threads
  {
  }

  // ---- What is committed is what a site was called with ----------------------------------

  /** A publish site was called with `data`. */
  ghost predicate Called(moves: seq<Move>, data: seq<byte>) {
    exists t: nat :: Enter(t, data) in moves
  }

  function DataOf(pc: WriterPc): Option<seq<byte>> {
    match pc
    case TestGate(d) => Some(d)
    case SetGate(d) => Some(d)
    case Filling(_, d, _) => Some(d)
    case Clamp(d) => Some(d)
    case StoreLen(_, d) => Some(d)
    case Flip(_, d) => Some(d)
    case _ => None
  }

  /** Everything at the latch, inside the body or committed was asked for. */
  ghost predicate OnlyAsked(p: Process, asked: seq<byte> -> bool) {
    && (forall t | 0 <= t < |p.threads| ::
          && (p.threads[t].AtLatch? ==> asked(p.threads[t].data))
          && (p.threads[t].Inside? && DataOf(p.threads[t].pc).Some? ==> asked(DataOf(p.threads[t].pc).value)))
    && forall snap | snap in p.hist.snaps :: IsAsked(snap, p.cap, asked)
  }

  ghost predicate IsAsked(snap: seq<byte>, cap: nat, asked: seq<byte> -> bool) {
    exists data: seq<byte> :: asked(data) && snap == Take(data, cap)
  }

  lemma BodyAsks(cap: nat, w: WriterState, choice: nat)
    requires Shaped(cap, w.mem) && PcShaped(cap, w.pc) && Publishing(w.pc)
    ensures
      var w' := WriterStep(cap, w, Idle, choice);
      && (DataOf(w'.pc).Some? ==> DataOf(w'.pc) == DataOf(w.pc))
      && (|| w'.hist.snaps == w.hist.snaps
          || (DataOf(w.pc).Some? && w'.hist.snaps == w.hist.snaps + [Take(DataOf(w.pc).value, cap)]))
  {
  }

  lemma NextAsked(p: Process, move: Move, asked: seq<byte> -> bool)
    requires Formed(p) && OnlyAsked(p, asked) && (move.Enter? ==> asked(move.data))
    ensures Next(p, move).cap == p.cap && OnlyAsked(Next(p, move), asked)
  {
    if move.Work? && !p.dead && move.thread < |p.threads| && p.threads[move.thread].Inside? {
      WorkAsked(p, move.thread, move.choice, asked);
    }
  }

  lemma WorkAsked(p: Process, t: nat, choice: nat, asked: seq<byte> -> bool)
    requires Formed(p) && OnlyAsked(p, asked) && !p.dead && t < |p.threads| && p.threads[t].Inside?
    ensures OnlyAsked(Next(p, Work(t, choice)), asked)
  {
    BodyAsks(p.cap, WriterState(p.mem, p.hist, p.threads[t].pc), choice);
    var q := Next(p, Work(t, choice));
    forall snap | snap in q.hist.snaps
      ensures IsAsked(snap, q.cap, asked)
    {
      if snap !in p.hist.snaps {
        assert asked(DataOf(p.threads[t].pc).value) && snap == Take(DataOf(p.threads[t].pc).value, p.cap);
      }
    }
  }

  lemma AskedMore(p: Process, some: seq<byte> -> bool, more: seq<byte> -> bool)
    requires OnlyAsked(p, some) && forall data: seq<byte> :: some(data) ==> more(data)
    ensures OnlyAsked(p, more)
  {
    forall snap | snap in p.hist.snaps
      ensures IsAsked(snap, p.cap, more)
    {
      assert IsAsked(snap, p.cap, some);
      var data: seq<byte> :| some(data) && snap == Take(data, p.cap);
      assert more(data);
    }
  }

  /** Every committed snapshot is what some publish site was called with, cut at the capacity. */
  lemma {:induction false} CommitsAreCalled(cap: nat, sites: nat, n: nat, moves: seq<Move>)
    ensures
      var p := Play(Begin(cap, sites, n), moves);
      p.cap == cap && OnlyAsked(p, d => Called(moves, d))
    decreases |moves|
  {
    if moves != [] {
      var k := |moves| - 1;
      var p, move := Play(Begin(cap, sites, n), moves[..k]), moves[k];
      CommitsAreCalled(cap, sites, n, moves[..k]);
      AskedMore(p, d => Called(moves[..k], d), d => Called(moves, d));
      if move.Enter? {
        assert Enter(move.thread, move.data) in moves;
      }
      NextAsked(p, move, d => Called(moves, d));
    }
  }

  // ---- And what a site is called with is committed, when it is first ---------------------

  /** The publish of `d`, before its flip or between its flip and its generation store. */
  ghost predicate Midway(cap: nat, m: Memory, h: History, pc: WriterPc, d: seq<byte>) {
    if pc.LoadGeneration? || pc.StoreGeneration? then
      && h.snaps == [Take(d, cap)] && h.bumps == 0 == m.generation && m.published == 1
      && (pc.StoreGeneration? ==> pc.loaded == 0)
    else
      && h.snaps == [] && h.bumps == 0 == m.generation == m.published
      && match pc
         case TestGate(d') => d' == d && !m.dumped
         case SetGate(d') => d' == d
         case Filling(t, d', _) => d' == d && t == 1
         case Clamp(d') => d' == d
         case StoreLen(t, d') => d' == d && t == 1
         case Flip(t, d') => d' == d && t == 1
         case _ => false
  }

  /** The one publish is complete; what buffer 1 holds is left open. */
  ghost predicate Offered(cap: nat, m: Memory, h: History, d: seq<byte>) {
    h.snaps == [Take(d, cap)] && h.bumps == 1 == m.generation == m.published
  }

  lemma MidwayStep(cap: nat, w: WriterState, d: seq<byte>) returns (choice: nat)
    requires Shaped(cap, w.mem) && PcShaped(cap, w.pc) && Midway(cap, w.mem, w.hist, w.pc, d)
    ensures
      var w' := WriterStep(cap, w, Idle, choice);
      if w'.pc == Idle then Offered(cap, w'.mem, w'.hist, d)
      else
        && Midway(cap, w'.mem, w'.hist, w'.pc, d)
        && Nearer(cap, w.pc, w'.pc)
  {
    choice := WriterGoesOn(cap, w, Idle);
  }

  /** Until the latch is taken nothing was committed and the gate is clear. */
  ghost predicate Untaken(p: Process) {
    !p.taken ==>
      && p.hist.snaps == [] && p.hist.bumps == 0 == p.mem.generation == p.mem.published && !p.mem.dumped
      && forall t | 0 <= t < |p.threads| :: !p.threads[t].Inside?
  }

  lemma {:induction false} UntakenAlways(cap: nat, sites: nat, n: nat, moves: seq<Move>)
    ensures Untaken(Play(Begin(cap, sites, n), moves))
    decreases |moves|
  {
    if moves != [] {
      UntakenAlways(cap, sites, n, moves[..|moves| - 1]);
      UntakenNext(Play(Begin(cap, sites, n), moves[..|moves| - 1]), moves[|moves| - 1]);
    }
  }

  lemma UntakenNext(p: Process, move: Move)
    requires Formed(p) && Untaken(p)
    ensures Untaken(Next(p, move))
  {
  }

  lemma {:induction false} PlayConcat(p: Process, x: seq<Move>, y: seq<Move>)
    requires Formed(p)
    ensures Play(p, x + y) == Play(Play(p, x), y)
    decreases |y|
  {
    if y == [] {
      assert x + y == x;
    } else {
      var k := |y| - 1;
      assert (x + y)[..|x + y| - 1] == x + y[..k];
      PlayConcat(p, x, y[..k]);
    }
  }

  lemma PlayOne(p: Process, move: Move)
    requires Formed(p)
    ensures Play(p, [move]) == Next(p, move)
  {
    assert [move][..0] == [];
  }

  ghost predicate ThreadMidway(p: Process, t: nat, d: seq<byte>) {
    && Formed(p) && !p.dead && t < |p.threads| && p.threads[t].Inside?
    && Midway(p.cap, p.mem, p.hist, p.threads[t].pc, d)
  }

  lemma ThreadGoesOn(p: Process, t: nat, d: seq<byte>) returns (choice: nat)
    requires ThreadMidway(p, t, d)
    ensures
      var q := Next(p, Work(t, choice));
      && Formed(q) && q.cap == p.cap
      && (|| Offered(q.cap, q.mem, q.hist, d)
          || (ThreadMidway(q, t, d) && Nearer(p.cap, p.threads[t].pc, q.threads[t].pc)))
  {
    choice := MidwayStep(p.cap, WriterState(p.mem, p.hist, p.threads[t].pc), d);
    NextKeepsForm(p, Work(t, choice));
  }

  lemma {:induction false} ThreadFinishes(p: Process, t: nat, d: seq<byte>) returns (moves: seq<Move>)
    requires ThreadMidway(p, t, d)
    ensures var q := Play(p, moves); q.cap == p.cap && Offered(q.cap, q.mem, q.hist, d)
    decreases Phase(p.threads[t].pc), Left(p.cap, p.threads[t].pc)
  {
    var choice := ThreadGoesOn(p, t, d);
    var q := Next(p, Work(t, choice));
    var more: seq<Move> := [];
    if !Offered(q.cap, q.mem, q.hist, d) {
      more := ThreadFinishes(q, t, d);
    }
    PlayOne(p, Work(t, choice));
    PlayConcat(p, [Work(t, choice)], more);
    moves := [Work(t, choice)] + more;
  }

  lemma EntersFirst(p: Process, t: nat, data: seq<byte>)
    requires Formed(p) && Untaken(p) && !p.dead && !p.taken && t < |p.threads| && p.threads[t] == Outside
    ensures Formed(Next(p, Enter(t, data)))
    ensures var q := Next(Next(p, Enter(t, data)), Compare(t)); q.cap == p.cap && ThreadMidway(q, t, data)
  {
    NextKeepsForm(p, Enter(t, data));
    NextKeepsForm(Next(p, Enter(t, data)), Compare(t));
  }

  /**
   At any point of any run of a live process whose latch is free, a site called with `data` whose
   thread compares first goes on to commit exactly that data, cut at the capacity, and to bump the
   generation.
   */
  lemma {:induction false} FirstCallIsCommitted(
    cap: nat, sites: nat, n: nat, moves: seq<Move>, t: nat, data: seq<byte>) returns (work: seq<Move>)
    requires
      var p := Play(Begin(cap, sites, n), moves);
      !p.dead && !p.taken && t < |p.threads| && p.threads[t] == Outside
    ensures
      var q := Play(Begin(cap, sites, n), moves + [Enter(t, data)] + [Compare(t)] + work);
      q.hist.snaps == [Take(data, cap)] && q.mem.generation == 1 == q.hist.bumps
  {
    var start := Begin(cap, sites, n);
    var p := Play(start, moves);
    UntakenAlways(cap, sites, n, moves);
    CommitsAreCalled(cap, sites, n, moves);
    EntersFirst(p, t, data);
    PlayOne(p, Enter(t, data));
    PlayConcat(start, moves, [Enter(t, data)]);
    PlayOne(Next(p, Enter(t, data)), Compare(t));
    PlayConcat(start, moves + [Enter(t, data)], [Compare(t)]);
    work := ThreadFinishes(Play(start, moves + [Enter(t, data)] + [Compare(t)]), t, data);
    PlayConcat(start, moves + [Enter(t, data)] + [Compare(t)], work);
  }

  // ---- The process is a run of the single-writer machine ---------------------------------

  /** `s` is the single-writer state this process is in. */
  ghost predicate Simulates(p: Process, s: State) {
    && s.cap == p.cap && s.mem == p.mem && s.hist == p.hist && s.readers == p.readers && s.doomed == p.dead
    && if p.dead then s.pc == Dead
       else
         && (forall t | 0 <= t < |p.threads| && p.threads[t].Inside? :: s.pc == p.threads[t].pc)
         && ((forall t | 0 <= t < |p.threads| :: !p.threads[t].Inside?) ==> s.pc == Idle)
  }

  /** The single-writer step that matches a move. */
  ghost function Matching(p: Process, s: State, move: Move): Step {
    var stutter := if s.pc == Idle then Advance(0) else StartReset;
    match move
    case Enter(_, _) => stutter
    case Compare(t) =>
      if !p.dead && t < |p.threads| && p.threads[t].AtLatch? && !p.taken then StartPublish(p.threads[t].data)
      else stutter
    case Work(t, choice) =>
      if !p.dead && t < |p.threads| && p.threads[t].Inside? then Advance(choice) else stutter
    case Terminate => Kill
    case ReadStart(i, out) => StartRead(i, out)
    case ReadNext(i, choice) => AdvanceRead(i, choice)
  }

  lemma WorkSimulates(p: Process, s: State, t: nat, choice: nat)
    requires Formed(p) && WellShaped(s) && Exclusive(p) && Simulates(p, s)
    requires !p.dead && t < |p.threads| && p.threads[t].Inside?
    ensures Simulates(Next(p, Work(t, choice)), Apply(s, Advance(choice)))
  {
    var q := Next(p, Work(t, choice));
    PublishStays(p.cap, WriterState(p.mem, p.hist, p.threads[t].pc), choice);
    forall u | 0 <= u < |q.threads| && u != t
      ensures !q.threads[u].Inside?
    {
      assert q.threads[u] == p.threads[u];
    }
    var w := WriterStep(p.cap, WriterState(p.mem, p.hist, p.threads[t].pc), Idle, choice);
    assert q.threads[t] == if w.pc == Idle then Outside else Inside(w.pc);
  }

  lemma EnterSimulates(p: Process, s: State, t: nat)
    requires Formed(p) && WellShaped(s) && Exclusive(p) && Simulates(p, s)
    requires !p.dead && t < |p.threads| && p.threads[t].AtLatch? && !p.taken
    ensures Simulates(Next(p, Compare(t)), Apply(s, StartPublish(p.threads[t].data)))
  {
    assert s.pc == Idle;
    assert Next(p, Compare(t)).threads[t].Inside?;
  }

  lemma IdleMoveSimulates(p: Process, s: State, move: Move)
    requires Formed(p) && WellShaped(s) && Exclusive(p) && Simulates(p, s)
    requires move.Enter? || move.Compare? || move.Work?
    requires move.Compare? ==> p.dead || move.thread >= |p.threads| || !p.threads[move.thread].AtLatch? || p.taken
    requires move.Work? ==> p.dead || move.thread >= |p.threads| || !p.threads[move.thread].Inside?
    ensures Simulates(Next(p, move), Apply(s, if s.pc == Idle then Advance(0) else StartReset))
  {
    var q := Next(p, move);
    assert |q.threads| == |p.threads|;
    forall u | 0 <= u < |q.threads|
      ensures q.threads[u].Inside? <==> p.threads[u].Inside?
      ensures q.threads[u].Inside? ==> q.threads[u] == p.threads[u]
    {
    }
  }

  /** Readers and the process's end: the same in both machines. */
  lemma OutsideSimulates(p: Process, s: State, move: Move)
    requires Formed(p) && WellShaped(s) && Simulates(p, s)
    requires move.Terminate? || move.ReadStart? || move.ReadNext?
    ensures Simulates(Next(p, move), Apply(s, Matching(p, s, move))) && Matching(p, s, move) != Restart
  {
  }

  lemma MatchingSimulates(p: Process, s: State, move: Move)
    requires Formed(p) && WellShaped(s) && Exclusive(p) && Simulates(p, s)
    ensures Simulates(Next(p, move), Apply(s, Matching(p, s, move)))
    ensures Matching(p, s, move) != Restart
  {
    match move
    case Enter(_, _) => IdleMoveSimulates(p, s, move);
    case Compare(t) =>
      if !p.dead && t < |p.threads| && p.threads[t].AtLatch? && !p.taken {
        EnterSimulates(p, s, t);
      } else {
        IdleMoveSimulates(p, s, move);
      }
    case Work(t, choice) =>
      if !p.dead && t < |p.threads| && p.threads[t].Inside? {
        WorkSimulates(p, s, t, choice);
      } else {
        IdleMoveSimulates(p, s, move);
      }
    case _ => OutsideSimulates(p, s, move);
  }

  /**
   Every interleaving of the publish sites is a run of the single-writer machine, in which no
   writer ever takes the segment over.
   */
  lemma {:induction false} ProcessIsSingleWriter(cap: nat, sites: nat, n: nat, moves: seq<Move>)
    returns (schedule: seq<Step>)
    ensures Simulates(Play(Begin(cap, sites, n), moves), Exec(Init(cap, n), schedule))
    ensures Restart !in schedule
    decreases |moves|
  {
    if moves == [] {
      schedule := [];
    } else {
      var k := |moves| - 1;
      var before := ProcessIsSingleWriter(cap, sites, n, moves[..k]);
      var p, s := Play(Begin(cap, sites, n), moves[..k]), Exec(Init(cap, n), before);
      EnteredAtMostOnce(cap, sites, n, moves[..k]);
      MatchingSimulates(p, s, moves[k]);
      schedule := before + [Matching(p, s, moves[k])];
      assert schedule[..|schedule| - 1] == before;
    }
  }

  /** The outcome names a commit, and there are no more of those than resets and lifetimes. */
  ghost predicate ReadsOneOf(h: History, o: Outcome) {
    && 1 <= o.commit <= Commits(h) <= h.resets + h.lifetimes
    && o.bytes == Take(h.snaps[o.commit - 1], o.call.outCap)
  }

  lemma SingleWriterReads(cap: nat, n: nat, schedule: seq<Step>, o: Outcome)
    requires Restart !in schedule
    requires Logged(Exec(Init(cap, n), schedule), o) && Delivered(o)
    requires var h := Exec(Init(cap, n), schedule).hist; h.resets + h.lifetimes <= 1
    ensures ReadsOneOf(Exec(Init(cap, n), schedule).hist, o)
  {
    NoRestartIsCareful(Init(cap, n), schedule);
    CommitsBoundedByResets(cap, n, schedule);
    RunIsSound(cap, n, schedule, o, true);
  }

  lemma SimulatedRead(p: Process, cap: nat, n: nat, schedule: seq<Step>, i: nat, j: nat)
    requires Simulates(p, Exec(Init(cap, n), schedule)) && Restart !in schedule && Exclusive(p)
    requires i < |p.readers| && j < |p.readers[i].log| && Delivered(p.readers[i].log[j])
    ensures var o := p.readers[i].log[j]; |p.hist.snaps| == 1 && o.bytes == Take(p.hist.snaps[0], o.call.outCap)
  {
    var s := Exec(Init(cap, n), schedule);
    assert s.readers[i].log[j] == p.readers[i].log[j];
    SingleWriterReads(cap, n, schedule, p.readers[i].log[j]);
    assert ReadsOneOf(p.hist, p.readers[i].log[j]);
  }

  /**
   However the threads interleave, a reader in another process that is delivered bytes gets the
   beginning of the one snapshot the process ever commits, which is what some publish site was
   called with, cut at the capacity.
   */
  lemma {:induction false} NoTornReadAcrossThreads(cap: nat, sites: nat, n: nat, moves: seq<Move>, i: nat, j: nat)
    returns (data: seq<byte>)
    requires
      var p := Play(Begin(cap, sites, n), moves);
      i < |p.readers| && j < |p.readers[i].log| && Delivered(p.readers[i].log[j])
    ensures
      var p := Play(Begin(cap, sites, n), moves);
      var o := p.readers[i].log[j];
      p.hist.snaps == [Take(data, cap)] && Called(moves, data) && o.bytes == Take(Take(data, cap), o.call.outCap)
  {
    var schedule := ProcessIsSingleWriter(cap, sites, n, moves);
    EnteredAtMostOnce(cap, sites, n, moves);
    SimulatedRead(Play(Begin(cap, sites, n), moves), cap, n, schedule, i, j);
    CommitsAreCalled(cap, sites, n, moves);
    assert IsAsked(Play(Begin(cap, sites, n), moves).hist.snaps[0], cap, d => Called(moves, d));
    data :| Called(moves, data) && Play(Begin(cap, sites, n), moves).hist.snaps[0] == Take(data, cap);
  }
}
