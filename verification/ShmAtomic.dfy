/**
 The step machine against the abstract channel: a reset or a publish that runs to its end without
 a signal has, whatever readers do meanwhile and in whatever order its bytes are copied, exactly
 the effect the channel operations are proved to have.
 */
module ShmAtomic {
  import opened Bytes
  import opened ShmProtocol
  import opened ShmSolo
  import ShmChannel

  /** The segment as the abstract channel sees it. */
  function SharedOf(cap: nat, m: Memory): ShmChannel.Shared
    requires Shaped(cap, m)
  {
    ShmChannel.Shared(cap, m.buf[m.published][..m.bufLen[m.published]], m.generation, m.truncated)
  }

  function ViewOf(s: State): ShmChannel.View
    requires WellShaped(s)
  {
    ShmChannel.Attached(SharedOf(s.cap, s.mem), !s.mem.dumped)
  }

  /** What a reader that starts now and is left alone gets is what the channel delivers. */
  lemma ReadsAgree(s: State, outCap: nat)
    requires WellShaped(s)
    ensures Readable(s.cap, s.mem, outCap) == ShmChannel.Delivers(ViewOf(s).shared, outCap)
  {
  }

  /** Only the writer's own steps and readers' steps: no new call, signal, death or restart. */
  predicate Uninterrupted(schedule: seq<Step>) {
    forall step | step in schedule :: step.Advance? || step.StartRead? || step.AdvanceRead?
  }

  lemma ReaderStepKeepsWriter(s: State, step: Step)
    requires WellShaped(s) && (step.StartRead? || step.AdvanceRead?)
    ensures var t := Apply(s, step); t.cap == s.cap && t.mem == s.mem && t.pc == s.pc && t.doomed == s.doomed
  {
  }

  // ---- Publish ---------------------------------------------------------------------------

  /** Everything a reader can reach is as it was in `m`. */
  ghost predicate Untouched(cap: nat, m: Memory, m': Memory)
    requires Shaped(cap, m) && Shaped(cap, m')
  {
    && m'.published == m.published && m'.generation == m.generation
    && m'.buf[m.published] == m.buf[m.published] && m'.bufLen[m.published] == m.bufLen[m.published]
  }

  ghost predicate Staged(cap: nat, m: Memory, data: seq<byte>)
    requires Shaped(cap, m)
  {
    m.buf[Staging(m)][..Min(|data|, cap)] == Take(data, cap)
  }

  /** The bytes in `done` have reached the staging buffer. */
  ghost predicate Filled(cap: nat, m: Memory, data: seq<byte>, done: set<nat>)
    requires Shaped(cap, m)
  {
    forall i {:trigger data[i]} | 0 <= i < Min(|data|, cap) && i in done :: m.buf[Staging(m)][i] == data[i]
  }

  /** The flip has landed, the generation store has not. */
  ghost predicate FlippedTo(cap: nat, m: Memory, m': Memory, data: seq<byte>)
    requires Shaped(cap, m) && Shaped(cap, m')
  {
    && m'.dumped && m'.generation == m.generation
    && SharedOf(cap, m') == ShmChannel.Committed(SharedOf(cap, m), data, |data|).(commits := m.generation)
  }

  /** How far a publish of `data` begun over the memory `m` has come. */
  ghost predicate PublishProgress(cap: nat, m: Memory, m': Memory, pc: WriterPc, data: seq<byte>)
    requires Shaped(cap, m) && Shaped(cap, m')
  {
    match pc
    case TestGate(d) => d == data && m' == m
    case SetGate(d) => d == data && m' == m && !m.dumped
    case Filling(t, d, done) =>
      && d == data && t == Staging(m) && !m.dumped && m'.dumped && m'.truncated == m.truncated
      && Untouched(cap, m, m') && Filled(cap, m', data, done)
    case Clamp(d) =>
      && d == data && !m.dumped && m'.dumped && m'.truncated == m.truncated
      && Untouched(cap, m, m') && Staged(cap, m', data)
    case StoreLen(t, d) =>
      && d == data && t == Staging(m) && !m.dumped && m'.dumped && m'.truncated == (m.truncated || |data| > cap)
      && Untouched(cap, m, m') && Staged(cap, m', data)
    case Flip(t, d) =>
      && d == data && t == Staging(m) && !m.dumped && m'.dumped && m'.truncated == (m.truncated || |data| > cap)
      && Untouched(cap, m, m') && Staged(cap, m', data) && m'.bufLen[t] == Min(|data|, cap)
    case LoadGeneration => !m.dumped && FlippedTo(cap, m, m', data)
    case StoreGeneration(g) => !m.dumped && FlippedTo(cap, m, m', data) && g == m.generation
    case Idle => PublishDone(cap, m, m', data)
    case _ => false
  }

  ghost predicate PublishDone(cap: nat, m: Memory, m': Memory, data: seq<byte>)
    requires Shaped(cap, m) && Shaped(cap, m')
  {
    ShmChannel.Attached(SharedOf(cap, m'), !m'.dumped)
      == ShmChannel.After(ShmChannel.Attached(SharedOf(cap, m), !m.dumped), ShmChannel.Publish(data))
  }

  lemma AllFilled(cap: nat, m: Memory, data: seq<byte>, done: set<nat>)
    requires Shaped(cap, m) && Filled(cap, m, data, done) && AllDone(Min(|data|, cap), done)
    ensures Staged(cap, m, data)
  {
    var n := Min(|data|, cap);
    forall i | 0 <= i < n
      ensures m.buf[Staging(m)][..n][i] == Take(data, cap)[i]
    {
      assert data[i] == Take(data, cap)[i];
    }
  }

  lemma FillProgress(cap: nat, m: Memory, w: WriterState, data: seq<byte>, choice: nat)
    requires Shaped(cap, m) && Shaped(cap, w.mem) && PcShaped(cap, w.pc)
    requires PublishProgress(cap, m, w.mem, w.pc, data) && w.pc.Filling?
    ensures
      var w' := WriterStep(cap, w, Idle, choice);
      Shaped(cap, w'.mem) && PublishProgress(cap, m, w'.mem, w'.pc, data)
  {
    if AllDone(Min(|data|, cap), w.pc.done) {
      AllFilled(cap, w.mem, data, w.pc.done);
    }
  }

  lemma FlipProgress(cap: nat, m: Memory, w: WriterState, data: seq<byte>, choice: nat)
    requires Shaped(cap, m) && Shaped(cap, w.mem) && PcShaped(cap, w.pc)
    requires PublishProgress(cap, m, w.mem, w.pc, data) && w.pc.Flip?
    ensures
      var w' := WriterStep(cap, w, Idle, choice);
      Shaped(cap, w'.mem) && PublishProgress(cap, m, w'.mem, w'.pc, data)
  {
  }

  lemma StoreLenProgress(cap: nat, m: Memory, w: WriterState, data: seq<byte>, choice: nat)
    requires Shaped(cap, m) && Shaped(cap, w.mem) && PcShaped(cap, w.pc)
    requires PublishProgress(cap, m, w.mem, w.pc, data) && (w.pc.Clamp? || w.pc.StoreLen?)
    ensures
      var w' := WriterStep(cap, w, Idle, choice);
      Shaped(cap, w'.mem) && PublishProgress(cap, m, w'.mem, w'.pc, data)
  {
  }

  lemma EndProgress(cap: nat, m: Memory, w: WriterState, data: seq<byte>, choice: nat)
    requires Shaped(cap, m) && Shaped(cap, w.mem) && PcShaped(cap, w.pc)
    requires PublishProgress(cap, m, w.mem, w.pc, data)
    requires w.pc.TestGate? || w.pc.SetGate? || w.pc.LoadGeneration? || w.pc.StoreGeneration? || w.pc.Idle?
    ensures
      var w' := WriterStep(cap, w, Idle, choice);
      Shaped(cap, w'.mem) && PublishProgress(cap, m, w'.mem, w'.pc, data)
  {
  }

  lemma PublishStep(cap: nat, m: Memory, w: WriterState, data: seq<byte>, choice: nat)
    requires Shaped(cap, m) && Shaped(cap, w.mem) && PcShaped(cap, w.pc)
    requires PublishProgress(cap, m, w.mem, w.pc, data)
    ensures
      var w' := WriterStep(cap, w, Idle, choice);
      Shaped(cap, w'.mem) && PublishProgress(cap, m, w'.mem, w'.pc, data)
  {
    if w.pc.Filling? {
      FillProgress(cap, m, w, data, choice);
    } else if w.pc.Flip? {
      FlipProgress(cap, m, w, data, choice);
    } else if w.pc.Clamp? || w.pc.StoreLen? {
      StoreLenProgress(cap, m, w, data, choice);
    } else {
      EndProgress(cap, m, w, data, choice);
    }
  }

  lemma {:induction false} PublishProgresses(s: State, data: seq<byte>, rest: seq<Step>)
    requires WellShaped(s) && s.pc == Idle && !s.doomed && Uninterrupted(rest)
    ensures
      var t := Exec(Apply(s, StartPublish(data)), rest);
      t.cap == s.cap && !t.doomed && PublishProgress(s.cap, s.mem, t.mem, t.pc, data)
    decreases |rest|
  {
    if rest != [] {
      var k := |rest| - 1;
      PublishProgresses(s, data, rest[..k]);
      var t := Exec(Apply(s, StartPublish(data)), rest[..k]);
      if rest[k].Advance? {
        PublishStep(s.cap, s.mem, WriterState(t.mem, t.hist, t.pc), data, rest[k].choice);
      } else {
        ReaderStepKeepsWriter(t, rest[k]);
      }
    }
  }

  /** A publish that returns has done exactly what the abstract publish does. */
  lemma PublishIsAtomic(s: State, data: seq<byte>, rest: seq<Step>)
    requires WellShaped(s) && s.pc == Idle && !s.doomed && Uninterrupted(rest)
    requires Exec(Apply(s, StartPublish(data)), rest).pc == Idle
    ensures
      ViewOf(Exec(Apply(s, StartPublish(data)), rest)) == ShmChannel.After(ViewOf(s), ShmChannel.Publish(data))
  {
    PublishProgresses(s, data, rest);
  }

  // ---- Reset -----------------------------------------------------------------------------

  /** How far a reset begun over the memory `m` has come: only its last step can be seen. */
  ghost predicate ResetProgress(cap: nat, m: Memory, m': Memory, pc: WriterPc)
    requires Shaped(cap, m) && Shaped(cap, m')
  {
    && Untouched(cap, m, m') && m'.truncated == m.truncated
    && match pc
       case Zeroing(t, at) =>
         && t == Staging(m) && m'.dumped == m.dumped
         && forall i {:trigger m'.buf[t][i]} | 0 <= i < at && i < cap :: m'.buf[t][i] == 0
       case ClearLen(t) => t == Staging(m) && m'.dumped == m.dumped && Blank(cap, m')
       case ReArm => m'.dumped == m.dumped && Blank(cap, m') && m'.bufLen[Staging(m)] == 0
       case Idle => !m'.dumped && Blank(cap, m') && m'.bufLen[Staging(m)] == 0
       case _ => false
  }

  /** The staging buffer is all zero. */
  ghost predicate Blank(cap: nat, m: Memory)
    requires Shaped(cap, m)
  {
    m.buf[Staging(m)] == Zeros(cap)
  }

  lemma ResetStep(cap: nat, m: Memory, w: WriterState, choice: nat)
    requires Shaped(cap, m) && Shaped(cap, w.mem) && PcShaped(cap, w.pc)
    requires ResetProgress(cap, m, w.mem, w.pc)
    ensures
      var w' := WriterStep(cap, w, Idle, choice);
      Shaped(cap, w'.mem) && ResetProgress(cap, m, w'.mem, w'.pc)
  {
  }

  lemma {:induction false} ResetProgresses(s: State, rest: seq<Step>)
    requires WellShaped(s) && s.pc == Idle && !s.doomed && Uninterrupted(rest)
    ensures
      var t := Exec(Apply(s, StartReset), rest);
      t.cap == s.cap && !t.doomed && ResetProgress(s.cap, s.mem, t.mem, t.pc)
    decreases |rest|
  {
    if rest != [] {
      var k := |rest| - 1;
      ResetProgresses(s, rest[..k]);
      var t := Exec(Apply(s, StartReset), rest[..k]);
      if rest[k].Advance? {
        ResetStep(s.cap, s.mem, WriterState(t.mem, t.hist, t.pc), rest[k].choice);
      } else {
        ReaderStepKeepsWriter(t, rest[k]);
      }
    }
  }

  /**
   A reset that returns has done exactly what the abstract reset does, has left the staging buffer
   blank, and until it returns leaves the gate as it was: a publish that was spent stays spent.
   */
  lemma ResetIsAtomic(s: State, rest: seq<Step>)
    requires WellShaped(s) && s.pc == Idle && !s.doomed && Uninterrupted(rest)
    ensures
      var t := Exec(Apply(s, StartReset), rest);
      && ViewOf(t).shared == ViewOf(s).shared
      && (t.pc != Idle ==> ViewOf(t) == ViewOf(s))
      && (t.pc == Idle ==>
            && ViewOf(t) == ShmChannel.After(ViewOf(s), ShmChannel.Reset)
            && t.mem.buf[Staging(t.mem)] == Zeros(s.cap) && t.mem.bufLen[Staging(t.mem)] == 0)
  {
    ResetProgresses(s, rest);
  }

  // ---- Calls come to an end --------------------------------------------------------------

  lemma {:induction false} CallReturns(s: State) returns (rest: seq<Step>)
    requires WellShaped(s) && !s.doomed && s.pc != Dead
    ensures Uninterrupted(rest) && Exec(s, rest).pc == Idle && !Exec(s, rest).doomed
    decreases Phase(s.pc), Left(s.cap, s.pc)
  {
    if s.pc == Idle {
      rest := [];
    } else {
      var choice := WriterGoesOn(s.cap, WriterState(s.mem, s.hist, s.pc), Idle);
      ApplyKeepsShape(s, Advance(choice));
      var t := Apply(s, Advance(choice));
      var more: seq<Step> := [];
      if t.pc != Idle {
        more := CallReturns(t);
      }
      Exec1(s, Advance(choice));
      ExecConcat(s, [Advance(choice)], more);
      rest := [Advance(choice)] + more;
    }
  }

  /** A publish left alone returns, and has then done what the abstract publish does. */
  lemma PublishCompletes(s: State, data: seq<byte>) returns (rest: seq<Step>)
    requires WellShaped(s) && s.pc == Idle && !s.doomed
    ensures Uninterrupted(rest)
    ensures
      var t := Exec(Apply(s, StartPublish(data)), rest);
      t.pc == Idle && ViewOf(t) == ShmChannel.After(ViewOf(s), ShmChannel.Publish(data))
  {
    ApplyKeepsShape(s, StartPublish(data));
    rest := CallReturns(Apply(s, StartPublish(data)));
    PublishIsAtomic(s, data, rest);
  }

  /** So does a reset. */
  lemma ResetCompletes(s: State) returns (rest: seq<Step>)
    requires WellShaped(s) && s.pc == Idle && !s.doomed
    ensures Uninterrupted(rest)
    ensures
      var t := Exec(Apply(s, StartReset), rest);
      t.pc == Idle && ViewOf(t) == ShmChannel.After(ViewOf(s), ShmChannel.Reset)
  {
    ApplyKeepsShape(s, StartReset);
    rest := CallReturns(Apply(s, StartReset));
    ResetIsAtomic(s, rest);
  }
}
