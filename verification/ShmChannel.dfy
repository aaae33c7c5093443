/**
 The channel operations as one process runs them, over a mapped segment: reset, the two halves
 of publish, publish itself and read. Each is proved against a step of an abstract channel that
 knows only the last snapshot and whether a publish is armed.
 */
module ShmChannel {
  import opened Bytes

  // ---- The abstract channel --------------------------------------------------------------

  /** `commits` is the generation word: the number of commits, modulo 2^32. */
  datatype Shared = Shared(capacity: nat, snapshot: seq<byte>, commits: nat, truncated: bool)

  datatype View = Detached | Attached(shared: Shared, armed: bool)

  datatype Operation = Reset | Publish(data: seq<byte>) | Read(outCap: nat)

  function Committed(s: Shared, data: seq<byte>, total: nat): Shared
    requires Min(total, s.capacity) <= |data|
  {
    s.(snapshot := data[..Min(total, s.capacity)], commits := (s.commits + 1) % TWO_32,
       truncated := s.truncated || total > s.capacity)
  }

  function After(v: View, op: Operation): View {
    match (v, op)
    case (Detached, _) => v
    case (Attached(s, armed), Reset) => Attached(s, true)
    case (Attached(_, _), Read(_)) => v
    case (Attached(s, armed), Publish(data)) => if armed then Attached(Committed(s, data, |data|), false) else v
  }

  /** What a read into a buffer of `outCap` bytes delivers. */
  function Delivers(s: Shared, outCap: nat): seq<byte> {
    if s.commits == 0 then [] else Take(s.snapshot, outCap)
  }

  // ---- Segment and channel ---------------------------------------------------------------

  /** The mapped region: header, then two buffers of `capacity` bytes. */
  class Segment {
    const capacity: nat
    var published: nat
    const bufLen: array<nat>
    const buf0: array<byte>
    const buf1: array<byte>
    var truncated: bool
    var generation: nat

    constructor (capacity: nat)
      ensures Valid() && fresh(this) && fresh(bufLen) && fresh(buf0) && fresh(buf1)
      ensures this.capacity == capacity && Abstract() == Shared(capacity, [], 0, false)
    {
      this.capacity := capacity;
      published := 0;
      bufLen := new nat[2](_ => 0);
      buf0 := new byte[capacity](_ => 0);
      buf1 := new byte[capacity](_ => 0);
      truncated := false;
      generation := 0;
    }

    function Parts(): set<object> {
      {this, bufLen, buf0, buf1}
    }

    function Buf(i: nat): array<byte> {
      if i == 0 then buf0 else buf1
    }

    ghost predicate Valid()
      reads this, bufLen
    {
      && buf0 != buf1 && buf0.Length == capacity && buf1.Length == capacity
      && bufLen.Length == 2 && bufLen[0] <= capacity && bufLen[1] <= capacity
      && published < 2 && generation < TWO_32
    }

    ghost function Abstract(): Shared
      requires Valid()
      reads this, bufLen, buf0, buf1
    {
      Shared(capacity, Buf(published)[..bufLen[published]], generation, truncated)
    }
  }

  /** A channel's own "published at most once this run" flag. */
  class Gate {
    var dumped: bool

    constructor ()
      ensures !dumped
    {
      dumped := false;
    }
  }

  /** A volatile store per byte, from the first to the last. */
  method SlowZero(p: array<byte>)
    modifies p
    ensures p[..] == Zeros(p.Length)
  {
    for i := 0 to p.Length
      invariant forall j | 0 <= j < i :: p[j] == 0
    {
      p[i] := 0;
    }
  }

  /** `memcpy` of the first `n` bytes of `data` to offset `at`. */
  method CopyTo(p: array<byte>, at: nat, data: seq<byte>, n: nat)
    requires n <= |data| && at + n <= p.Length
    modifies p
    ensures p[..] == old(p[..at]) + data[..n] + old(p[at + n..])
  {
    for i := 0 to n
      invariant p[..at] == old(p[..at]) && p[at..at + i] == data[..i]
      invariant p[at + i..] == old(p[at + i..])
    {
      p[at + i] := data[i];
    }
  }

  class Channel {
    var seg: Segment?
    const gate: Gate

    constructor (gate: Gate)
      ensures seg == null && this.gate == gate && Valid()
    {
      this.gate := gate;
      seg := null;
    }

    ghost function Repr(): set<object>
      reads this
    {
      {this, gate} + if seg == null then {} else seg.Parts()
    }

    ghost predicate Valid()
      reads Repr()
    {
      seg != null ==> seg.Valid()
    }

    ghost function Now(): View
      requires Valid()
      reads Repr()
    {
      if seg == null then Detached else Attached(seg.Abstract(), !gate.dumped)
    }

    /** Zeroes the buffer nobody reads, then re-arms. */
    method ResetBuffer()
      requires Valid()
      modifies Repr()
      ensures Valid() && seg == old(seg)
      ensures Now() == After(old(Now()), Reset)
      ensures seg != null ==>
                && seg.published == old(seg.published)
                && seg.bufLen[1 - seg.published] == 0
                && seg.Buf(1 - seg.published)[..] == Zeros(seg.capacity)
    {
      if seg == null { return; }
      var target := 1 - seg.published;
      SlowZero(seg.Buf(target));
      seg.bufLen[target] := 0;
      gate.dumped := false;
    }

    /** First half of a publish: passes the gate and hands out the staging buffer. */
    method Begin() returns (p: array?<byte>)
      requires Valid()
      modifies gate
      ensures Valid() && seg == old(seg)
      ensures p != null <==> seg != null && old(Now().armed)
      ensures p != null ==>
                && p == seg.Buf(1 - seg.published) && p.Length == seg.capacity
                && Now() == Attached(old(Now().shared), false)
      ensures p == null ==> Now() == old(Now())
    {
      if seg == null || gate.dumped { return null; }
      gate.dumped := true;
      var target := 1 - seg.published;
      return seg.Buf(target);
    }

    /** Second half: clamps, flips `published`, then bumps the generation word. */
    method Commit(totalLen: nat)
      requires Valid()
      modifies Repr()
      ensures Valid() && seg == old(seg) && gate.dumped == old(gate.dumped)
      ensures seg == null ==> Now() == Detached
      ensures seg != null ==>
                && seg.published == 1 - old(seg.published)
                && var staged := old(seg.Buf(1 - seg.published)[..]);
                   Now() == Attached(Committed(old(seg.Abstract()), staged, totalLen), old(Now().armed))
    {
      if seg == null { return; }
      var target := 1 - seg.published;
      var len := totalLen;
      if len > seg.capacity {
        len := seg.capacity;
        seg.truncated := true;
      }
      seg.bufLen[target] := len;
      seg.published := target;
      var g := seg.generation;
      seg.generation := (g + 1) % TWO_32;
    }

    method PublishBytes(data: seq<byte>)
      requires Valid()
      modifies Repr()
      ensures Valid() && seg == old(seg)
      ensures Now() == After(old(Now()), Publish(data))
    {
      var p := Begin();
      if p == null { return; }
      var n := Min(|data|, seg.capacity);
      CopyTo(p, 0, data, n);
      assert p[..n] == data[..n];
      Commit(|data|);
    }

    /** Reads into `out`; returns the code and the number of bytes delivered. */
    method Read(out: array<byte>) returns (code: nat, outLen: nat)
      requires Valid() && out !in Repr()
      modifies out
      ensures Valid() && Now() == old(Now())
      ensures code == if seg == null then 0 else 1
      ensures outLen <= out.Length && out[outLen..] == old(out[outLen..])
      ensures out[..outLen] == if seg == null then [] else Delivers(seg.Abstract(), out.Length)
    {
      code, outLen := 0, 0;
      if seg == null { return; }
      var g1 := seg.generation;
      if g1 == 0 { return 1, 0; }
      for attempt := 0 to READ_ATTEMPTS
        invariant attempt == 0 && g1 == seg.generation && out[..] == old(out[..])
      {
        var a := seg.published;
        var len := seg.bufLen[a];
        var n := Min(len, out.Length);
        CopyTo(out, 0, seg.Buf(a)[..len], n);
        var g2 := seg.generation;
        if g2 == g1 {
          assert out[..n] == Delivers(seg.Abstract(), out.Length);
          return 1, n;
        }
        g1 := g2;
      }
    }
  }
}
