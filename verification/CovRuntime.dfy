/**
 An instrumented target's runtime: counter regions gathered into the coverage channel, operand
 pairs logged into a bounded buffer and published over a channel of their own.
 */
module CovRuntime {
  import opened Bytes
  import opened LittleEndian
  import opened CmpLog
  import opened PcovDump
  import opened ShmChannel

  const MAX_REGIONS := 256
  const CMP_MAX_BYTES := 65536
  const CMP_RECORD := 19
  const CMP_MAX_RECORDS := 3449

  // ---- The log, as a value ---------------------------------------------------------------

  /** A record that would pass the cap is dropped whole. */
  function Logged(log: seq<byte>, e: Entry): seq<byte> {
    if |log| + CMP_RECORD > CMP_MAX_BYTES then log else log + Encode(e)
  }

  function LogAll(es: seq<Entry>): seq<byte>
    decreases |es|
  {
    if es == [] then [] else Logged(LogAll(es[..|es| - 1]), es[|es| - 1])
  }

  predicate IsRuntimeEntry(e: Entry) {
    e.IntPair? && e.op == OP_UNKNOWN && e.width < 256 && e.lhs < TWO_32 * TWO_32 && e.rhs < TWO_32 * TWO_32
  }

  lemma {:induction false} EncodeAllAppend(es: seq<Entry>, e: Entry)
    ensures EncodeAll(es + [e]) == EncodeAll(es) + Encode(e)
  {
    if es == [] {
      assert es + [e] == [e] && [e][1..] == [];
    } else {
      assert (es + [e])[1..] == es[1..] + [e];
      EncodeAllAppend(es[1..], e);
    }
  }

  /** Logging one more pair keeps the first 3449. */
  lemma LogNext(es: seq<Entry>, e: Entry)
    requires IsRuntimeEntry(e) && |EncodeAll(Take(es, CMP_MAX_RECORDS))| == CMP_RECORD * Min(|es|, CMP_MAX_RECORDS)
    ensures
      var log, log' := EncodeAll(Take(es, CMP_MAX_RECORDS)), EncodeAll(Take(es + [e], CMP_MAX_RECORDS));
      log' == Logged(log, e) && |log'| == CMP_RECORD * Min(|es| + 1, CMP_MAX_RECORDS)
  {
    if |es| < CMP_MAX_RECORDS {
      assert Take(es + [e], CMP_MAX_RECORDS) == es + [e] && Take(es, CMP_MAX_RECORDS) == es;
      EncodeAllAppend(es, e);
    } else {
      assert Take(es + [e], CMP_MAX_RECORDS) == Take(es, CMP_MAX_RECORDS);
    }
  }

  ghost predicate HoldsFirst(es: seq<Entry>) {
    && LogAll(es) == EncodeAll(Take(es, CMP_MAX_RECORDS))
    && |LogAll(es)| == CMP_RECORD * Min(|es|, CMP_MAX_RECORDS)
  }

  lemma HoldsFirstNext(init: seq<Entry>, last: Entry)
    requires HoldsFirst(init) && IsRuntimeEntry(last)
    ensures HoldsFirst(init + [last])
  {
    var es := init + [last];
    assert es[..|es| - 1] == init;
    LogNext(init, last);
  }

  lemma {:induction false} HoldsFirstAlways(es: seq<Entry>)
    requires forall i | 0 <= i < |es| :: IsRuntimeEntry(es[i])
    ensures HoldsFirst(es)
    decreases |es|
  {
    if es == [] {
      assert Take(es, CMP_MAX_RECORDS) == [];
    } else {
      var init, last := es[..|es| - 1], es[|es| - 1];
      HoldsFirstAlways(init);
      HoldsFirstNext(init, last);
      assert init + [last] == es;
    }
  }

  /** However many pairs are logged, the buffer is exactly the encoding of the first 3449. */
  lemma {:induction false} LogIsFirstRecords(es: seq<Entry>)
    requires forall e | e in es :: IsRuntimeEntry(e)
    ensures LogAll(es) == EncodeAll(Take(es, 3449))
    ensures |LogAll(es)| == 19 * Min(|es|, 3449) <= 65536
  {
    HoldsFirstAlways(es);
  }

  /** A log no longer than the capacity is published whole, and a read delivers a prefix of it. */
  lemma LogIsDelivered(log: seq<byte>, s: Shared, outCap: nat)
    requires |log| <= s.capacity && s.commits + 1 < TWO_32
    ensures
      var v := After(Attached(s, true), Publish(log));
      v.Attached? && Delivers(v.shared, outCap) == log[..Min(outCap, |log|)] && (v.shared.truncated <==> s.truncated)
  {
    assert log[..|log|] == log;
  }

  lemma KeptIsParsed(kept: seq<Entry>, n: nat)
    requires (forall e | e in kept :: IsRuntimeEntry(e)) && n <= |EncodeAll(kept)|
    ensures Parse(EncodeAll(kept)[..n]) == kept[..WholeRecords(kept, n)]
    ensures n == |EncodeAll(kept)| ==> kept[..WholeRecords(kept, n)] == kept
  {
    ParseCutLog(kept, n);
    AllFit(kept);
  }

  /**
   End to end: whatever was logged since the last reset, publishing it over an armed channel of
   the log's capacity and reading it back into any buffer parses to the first pairs, as many as
   are whole in that buffer; a buffer as large as the log gets all of the first 3449.
   */
  lemma {:induction false} LogEndToEnd(es: seq<Entry>, s: Shared, outCap: nat)
    requires forall e | e in es :: IsRuntimeEntry(e)
    requires s.capacity == CMP_MAX_BYTES && s.commits + 1 < TWO_32
    ensures
      var kept := Take(es, CMP_MAX_RECORDS);
      var v := After(Attached(s, true), Publish(LogAll(es)));
      && v.Attached? && (v.shared.truncated <==> s.truncated)
      && Parse(Delivers(v.shared, outCap)) == kept[..WholeRecords(kept, Min(outCap, |LogAll(es)|))]
      && (outCap >= CMP_MAX_BYTES ==> Parse(Delivers(v.shared, outCap)) == kept)
  {
    var kept, log := Take(es, CMP_MAX_RECORDS), LogAll(es);
    var n := Min(outCap, |log|);
    LogIsFirstRecords(es);
    LogIsDelivered(log, s, outCap);
    KeptIsParsed(kept, n);
  }

  // ---- The gather, as a value ------------------------------------------------------------

  /** The next region lands behind the bytes gathered so far. */
  lemma GatherNext(whole: seq<byte>, region: seq<byte>, p: seq<byte>, off: nat, take: nat)
    requires off + take <= |p| && take <= |region| && off <= |whole| && (take > 0 ==> off == |whole|)
    requires p[..off] == whole[..off] && p[off..off + take] == region[..take]
    ensures p[..off + take] == (whole + region)[..off + take]
  {
    assert p[..off + take] == p[..off] + p[off..off + take];
    assert (whole + region)[..off + take] == whole[..off] + region[..take];
  }

  /** What publishing gathered counters does: the total committed is a 32-bit sum. */
  function AfterGather(v: View, counters: seq<byte>): View {
    match v
    case Detached => v
    case Attached(s, armed) =>
      if armed then Attached(Committed(s, counters, |counters| % TWO_32), false) else v
  }

  /**
   Gathering and committing is a publish of the concatenated regions, except when their 32-bit
   total wraps to less than the capacity: then the snapshot is cut short, or its truncation unflagged.
   */
  lemma GatherIsPublishIff(s: Shared, counters: seq<byte>)
    requires s.capacity < TWO_32
    ensures
      var v, wrapped := Attached(s, true), |counters| % TWO_32;
      AfterGather(v, counters) == After(v, Publish(counters)) <==>
        || |counters| < TWO_32 || wrapped > s.capacity || (wrapped == s.capacity && s.truncated)
  {
    var cap, n, wrapped := s.capacity, |counters|, |counters| % TWO_32;
    var short, long := Committed(s, counters, wrapped), Committed(s, counters, n);
    if n >= TWO_32 {
      assert |long.snapshot| == cap && long.truncated && |short.snapshot| == Min(wrapped, cap);
    }
  }

  lemma ConcatNext(contents: seq<seq<byte>>, r: nat)
    requires r < |contents|
    ensures Concat(contents[..r + 1]) == Concat(contents[..r]) + contents[r]
  {
    assert contents[..r + 1][..r] == contents[..r];
  }

  lemma AddWord(a: nat, b: nat)
    ensures (a % TWO_32 + b) % TWO_32 == (a + b) % TWO_32
  {
  }

  /** One region, cut at the space left behind the bytes of `whole`. */
  method TakeRegion(p: array<byte>, off: nat, s: array<byte>, ghost whole: seq<byte>) returns (next: nat)
    requires p != s && off == Min(|whole|, p.Length) && p[..off] == whole[..off]
    modifies p
    ensures next == Min(|whole + s[..]|, p.Length) && p[..next] == (whole + s[..])[..next]
  {
    next := off;
    if off < p.Length {
      var take := s.Length;
      if off + take > p.Length {
        take := p.Length - off;
      }
      ghost var region := s[..];
      CopyTo(p, off, s[..], take);
      GatherNext(whole, region, p[..], off, take);
      next := off + take;
    }
  }

  /**
   The gather loop: regions one after another into `p`, each cut at the space left. The sum
   `off + take` is a 32-bit one in the source and must not wrap.
   */
  method Gather(regions: seq<array<byte>>, p: array<byte>) returns (total: nat)
    requires p !in regions && forall r | r in regions :: r.Length + p.Length <= TWO_32
    modifies p
    ensures total == |Concat(Contents(regions))| % TWO_32
    ensures
      var n := Min(|Concat(Contents(regions))|, p.Length);
      p[..n] == Concat(Contents(regions))[..n]
  {
    ghost var contents := Contents(regions);
    var off := 0;
    total := 0;
    for r := 0 to |regions|
      invariant Contents(regions) == contents
      invariant total == |Concat(contents[..r])| % TWO_32
      invariant off == Min(|Concat(contents[..r])|, p.Length) && p[..off] == Concat(contents[..r])[..off]
    {
      ConcatNext(contents, r);
      AddWord(|Concat(contents[..r])|, regions[r].Length);
      off := TakeRegion(p, off, regions[r], Concat(contents[..r]));
      total := (total + regions[r].Length) % TWO_32;
    }
    assert contents[..|regions|] == contents;
  }

  /** No region reaches 4 GiB together with the channel's capacity. */
  predicate FitsIn(regions: seq<array<byte>>, ch: Channel)
    reads ch
  {
    ch.seg != null ==> forall r | r in regions :: r.Length + ch.seg.capacity <= TWO_32
  }

  /** A whole publish of the regions over one channel: gate, gather, commit. */
  method PublishRegions(ch: Channel, regions: seq<array<byte>>)
    requires ch.Valid() && FitsIn(regions, ch)
    requires forall r | r in regions :: r !in ch.Repr()
    modifies ch.Repr()
    ensures ch.Valid() && ch.seg == old(ch.seg)
    ensures ch.Now() == AfterGather(old(ch.Now()), Concat(Contents(regions)))
  {
    var p := ch.Begin();
    if p == null { return; }
    ghost var shared := ch.seg.Abstract();
    var total := Gather(regions, p);
    assert ch.seg.Abstract() == shared;
    ghost var counters := Concat(Contents(regions));
    SameCommit(shared, p[..], counters, total, Min(|counters|, p.Length));
    ch.Commit(total);
  }

  /** Only the committed beginning of the staged bytes matters. */
  lemma SameCommit(s: Shared, staged: seq<byte>, counters: seq<byte>, total: nat, n: nat)
    requires Min(total, s.capacity) <= n <= |staged| && n <= |counters| && staged[..n] == counters[..n]
    ensures Committed(s, staged, total) == Committed(s, counters, total)
  {
    var m := Min(total, s.capacity);
    assert staged[..m] == staged[..n][..m] && counters[..m] == counters[..n][..m];
  }

  /** The next bytes of a record. */
  method PutField(buf: array<byte>, at: nat, field: seq<byte>)
    requires at + |field| <= buf.Length
    modifies buf
    ensures buf[..at + |field|] == old(buf[..at]) + field
  {
    ghost var before := buf[..at];
    CopyTo(buf, at, field, |field|);
    assert field[..|field|] == field;
  }

  /** One record at offset `at`, advancing the offset field by field. */
  method PutRecord(buf: array<byte>, at: nat, width: byte, lhs: nat, rhs: nat)
    requires at + CMP_RECORD <= buf.Length
    modifies buf
    ensures buf[..at + CMP_RECORD] == old(buf[..at]) + Encode(IntPair(OP_UNKNOWN, width, lhs, rhs))
  {
    ghost var before := buf[..at];
    var head, left, right := Put(0, 1) + Put(OP_UNKNOWN, 1) + Put(width, 1), Put(lhs, 8), Put(rhs, 8);
    RecordParts(before, width, lhs, rhs, head, left, right);
    PutField(buf, at, head);
    PutField(buf, at + 3, left);
    PutField(buf, at + 11, right);
  }

  lemma RecordParts(
    before: seq<byte>, width: byte, lhs: nat, rhs: nat, head: seq<byte>, left: seq<byte>, right: seq<byte>)
    requires head == Put(0, 1) + Put(OP_UNKNOWN, 1) + Put(width, 1) && left == Put(lhs, 8) && right == Put(rhs, 8)
    ensures |head| == 3 && |left| == 8 && |right| == 8
    ensures before + Encode(IntPair(OP_UNKNOWN, width, lhs, rhs)) == before + head + left + right
  {
    assert Encode(IntPair(OP_UNKNOWN, width, lhs, rhs)) == head + left + right;
  }

  // ---- The runtime -----------------------------------------------------------------------

  class Target {
    var regions: seq<array<byte>>
    const cmpBuf: array<byte>
    var cmpLen: nat
    const cmpEnabled: bool
    const cov: Channel
    const cmplog: Channel

    constructor (cov: Channel, cmplog: Channel, cmpEnabled: bool)
      requires cov.Valid() && cmplog.Valid() && cov.Repr() !! cmplog.Repr()
      ensures Valid() && this.cov == cov && this.cmplog == cmplog && this.cmpEnabled == cmpEnabled
      ensures regions == [] && Log() == [] && fresh(cmpBuf)
    {
      regions := [];
      cmpBuf := new byte[CMP_MAX_BYTES](_ => 0);
      cmpLen := 0;
      this.cmpEnabled := cmpEnabled;
      this.cov := cov;
      this.cmplog := cmplog;
    }

    ghost predicate Valid()
      reads this, cov, cmplog, cov.Repr(), cmplog.Repr()
    {
      && cov.Valid() && cmplog.Valid() && cov.Repr() !! cmplog.Repr()
      && this !in cov.Repr() + cmplog.Repr() && cmpBuf !in cov.Repr() + cmplog.Repr()
      && cmpBuf.Length == CMP_MAX_BYTES && cmpLen <= CMP_MAX_BYTES && |regions| <= MAX_REGIONS
      && forall r | r in regions :: r !in cov.Repr() + cmplog.Repr() && r != cmpBuf
    }

    ghost function Log(): seq<byte>
      requires cmpLen <= cmpBuf.Length
      reads this, cmpBuf
    {
      cmpBuf[..cmpLen]
    }

    /** A module's constructor registers its counters; past the limit it is ignored. */
    method RegisterRegion(r: array<byte>)
      requires Valid() && r !in cov.Repr() + cmplog.Repr() && r != cmpBuf
      modifies this`regions
      ensures Valid()
      ensures regions == if |old(regions)| < 256 then old(regions) + [r] else old(regions)
    {
      if |regions| < MAX_REGIONS {
        regions := regions + [r];
      }
    }

    /** Gathers every region into the staging buffer, as far as it goes, and commits. */
    method PublishCounters()
      requires Valid() && FitsIn(regions, cov)
      modifies cov.Repr()
      ensures Valid() && cov.seg == old(cov.seg) && regions == old(regions)
      ensures cov.Now() == AfterGather(old(cov.Now()), Concat(Contents(regions)))
      ensures cmplog.Now() == old(cmplog.Now()) && Contents(regions) == old(Contents(regions)) && Log() == old(Log())
    {
      PublishRegions(cov, regions);
    }

    /** One comparison callback. */
    method LogInt(width: byte, lhs: nat, rhs: nat)
      requires Valid() && lhs < TWO_32 * TWO_32 && rhs < TWO_32 * TWO_32
      modifies this`cmpLen, cmpBuf
      ensures Valid()
      ensures Log() == if cmpEnabled then Logged(old(Log()), IntPair(6, width, lhs, rhs)) else old(Log())
    {
      if !cmpEnabled { return; }
      if cmpLen + CMP_RECORD > CMP_MAX_BYTES { return; }
      PutRecord(cmpBuf, cmpLen, width, lhs, rhs);
      cmpLen := cmpLen + CMP_RECORD;
    }

    method PublishCmp()
      requires Valid()
      modifies cmplog.Repr()
      ensures Valid() && cmplog.seg == old(cmplog.seg) && regions == old(regions)
      ensures cmplog.Now() == if cmpEnabled then After(old(cmplog.Now()), Publish(Log())) else old(cmplog.Now())
      ensures cov.Now() == old(cov.Now()) && Log() == old(Log()) && Contents(regions) == old(Contents(regions))
    {
      if !cmpEnabled { return; }
      cmplog.PublishBytes(cmpBuf[..cmpLen]);
    }

    /** Everything a publish does, coverage first: each channel gets its own snapshot. */
    method PublishAll()
      requires Valid() && FitsIn(regions, cov)
      modifies cov.Repr(), cmplog.Repr()
      ensures Valid() && regions == old(regions) && Log() == old(Log())
      ensures cov.Now() == AfterGather(old(cov.Now()), old(Concat(Contents(regions))))
      ensures cmplog.Now() == if cmpEnabled then After(old(cmplog.Now()), Publish(old(Log()))) else old(cmplog.Now())
    {
      PublishCounters();
      PublishCmp();
    }

    /** The coverage half of the reset: live counters, then the channel. */
    method ResetCounters()
      requires Valid()
      modifies regions, cov.Repr()
      ensures Valid() && regions == old(regions) && cmplog.Now() == old(cmplog.Now())
      ensures forall r | r in regions :: r[..] == Zeros(r.Length)
      ensures cov.Now() == After(old(cov.Now()), Reset)
    {
      ZeroRegions(regions);
      assert cov.Now() == old(cov.Now()) && cmplog.Now() == old(cmplog.Now());
      cov.ResetBuffer();
    }

    method ResetLog()
      requires Valid()
      modifies this`cmpLen, cmplog.Repr()
      ensures Valid() && cov.Now() == old(cov.Now())
      ensures cmplog.Now() == After(old(cmplog.Now()), Reset) && Log() == []
    {
      cmpLen := 0;
      cmplog.ResetBuffer();
    }

    /** The per-input reset: live counters first, then each channel, whose re-arm is its last step. */
    method ResetAll()
      requires Valid()
      modifies this`cmpLen, regions, cov.Repr(), cmplog.Repr()
      ensures Valid() && regions == old(regions)
      ensures forall r | r in regions :: r[..] == Zeros(r.Length)
      ensures cov.Now() == After(old(cov.Now()), Reset) && cmplog.Now() == After(old(cmplog.Now()), Reset)
      ensures Log() == []
    {
      ResetCounters();
      ghost var zeroed := Contents(regions);
      ResetLog();
      assert Contents(regions) == zeroed;
    }
  }

  method ZeroRegions(regions: seq<array<byte>>)
    modifies regions
    ensures forall r | r in regions :: r[..] == Zeros(r.Length)
  {
    for i := 0 to |regions|
      invariant forall r | r in regions[..i] :: r[..] == Zeros(r.Length)
    {
      SlowZero(regions[i]);
    }
  }
}
