/**
 The coverage dump file: what the runtime writes when its writes may come up short, and what
 the reader accepts of it.
 */
module PcovDump {
  import opened Bytes
  import opened LittleEndian
  import opened ShmChannel

  datatype Error = BadMagic | BadVersion | BadLength | BadChecksum

  datatype Decoded = Ok(counters: seq<byte>) | Err(error: Error)

  const MAGIC: seq<byte> := [0x50, 0x43, 0x4F, 0x56]
  const VERSION := 1

  function Sum(s: seq<byte>): nat
    decreases |s|
  {
    if s == [] then 0 else Sum(s[..|s| - 1]) + s[|s| - 1]
  }

  function Checksum(s: seq<byte>): nat {
    Sum(s) % TWO_32
  }

  function Header(targetId: nat, len: nat): (h: seq<byte>)
    ensures |h| == 16
  {
    MAGIC + Put(VERSION, 4) + Put(targetId, 4) + Put(len, 4)
  }

  /** The file a dump leaves when every write is complete. */
  function Dump(targetId: nat, counters: seq<byte>): (d: seq<byte>)
    ensures |d| == 20 + |counters|
  {
    Header(targetId, |counters|) + counters + Put(Checksum(counters), 4)
  }

  function Decode(raw: seq<byte>): Decoded {
    if |raw| < 20 || raw[..4] != MAGIC then Err(BadMagic)
    else if Get(raw[4..8]) != VERSION then Err(BadVersion)
    else
      var len := Get(raw[12..16]);
      if |raw| != 16 + len + 4 then Err(BadLength)
      else
        var counters := raw[16..16 + len];
        if Checksum(counters) != Get(raw[16 + len..]) then Err(BadChecksum) else Ok(counters)
  }

  /** The reader: every field checked before the counters are copied out and summed. */
  method DecodeMap(raw: seq<byte>) returns (r: Decoded)
    ensures r == Decode(raw)
  {
    if |raw| < 20 || raw[..4] != MAGIC { return Err(BadMagic); }
    if Get(raw[4..8]) != VERSION { return Err(BadVersion); }
    var len := Get(raw[12..16]);
    if |raw| != 16 + len + 4 { return Err(BadLength); }
    var counters: seq<byte> := [];
    var sum := 0;
    for i := 0 to len
      invariant counters == raw[16..16 + i] && sum == Checksum(counters)
    {
      ghost var before := counters;
      counters := counters + [raw[16 + i]];
      assert counters[..i] == before;
      sum := (sum + raw[16 + i]) % TWO_32;
    }
    if sum != Get(raw[16 + len..]) { return Err(BadChecksum); }
    return Ok(counters);
  }

  lemma DumpFields(targetId: nat, counters: seq<byte>)
    requires |counters| < TWO_32
    ensures
      var d := Dump(targetId, counters);
      && d[..4] == MAGIC && d[4..8] == Put(VERSION, 4) && d[8..12] == Put(targetId, 4)
      && d[12..16] == Put(|counters|, 4) && d[16..16 + |counters|] == counters
      && d[16 + |counters|..] == Put(Checksum(counters), 4)
      && Get(d[4..8]) == VERSION && Get(d[12..16]) == |counters|
      && Get(d[16 + |counters|..]) == Checksum(counters)
  {
    Pow256Values();
    GetPut(VERSION, 4);
    GetPut(|counters|, 4);
    GetPut(Checksum(counters), 4);
  }

  /** Decoding a complete dump returns its counters. */
  lemma RoundTrip(targetId: nat, counters: seq<byte>)
    requires |counters| < TWO_32
    ensures Decode(Dump(targetId, counters)) == Ok(counters)
  {
    DumpFields(targetId, counters);
  }

  /**
   The file byte by byte: the letters PCOV, then three little-endian words, the version 1, the
   target id and the number of counters, then the counters, then their sum modulo 2^32.
   */
  lemma Layout(targetId: nat, counters: seq<byte>)
    requires |counters| < TWO_32 && targetId < TWO_32
    ensures
      var d, n := Dump(targetId, counters), |counters|;
      && |d| == 20 + n && d[..4] == [0x50, 0x43, 0x4F, 0x56] && d[4..8] == [1, 0, 0, 0]
      && Word(d[8..12]) == targetId && Word(d[12..16]) == n && d[16..16 + n] == counters
      && Word(d[16 + n..]) == Sum(counters) % 0x1_0000_0000
  {
    DumpFields(targetId, counters);
    var d, n := Dump(targetId, counters), |counters|;
    Pow256Values();
    GetPut(targetId, 4);
    GetFour(d[8..12]);
    GetFour(d[12..16]);
    GetFour(d[16 + n..]);
    var one: seq<byte> := [1, 0, 0, 0];
    GetFour(one);
    PutGet(one);
  }

  /** The reader accepts nothing but complete dumps. */
  lemma {:induction false} DecodeOkIff(raw: seq<byte>, counters: seq<byte>)
    ensures
      Decode(raw) == Ok(counters) <==>
        |counters| < TWO_32 && exists targetId: nat :: targetId < TWO_32 && raw == Dump(targetId, counters)
  {
    if Decode(raw) == Ok(counters) {
      var n, targetId := |counters|, Get(raw[8..12]);
      Pow256Values();
      GetBound(raw[8..12]);
      GetBound(raw[12..16]);
      PutGet(raw[4..8]);
      PutGet(raw[8..12]);
      PutGet(raw[12..16]);
      PutGet(raw[16 + n..]);
      assert raw == raw[..4] + raw[4..8] + raw[8..12] + raw[12..16] + raw[16..16 + n] + raw[16 + n..];
      assert raw == Dump(targetId, counters);
    }
    if |counters| < TWO_32 && exists targetId: nat :: targetId < TWO_32 && raw == Dump(targetId, counters) {
      var targetId: nat :| targetId < TWO_32 && raw == Dump(targetId, counters);
      RoundTrip(targetId, counters);
    }
  }

  /** Which check a file fails, in the reader's order. */
  lemma Rejections(raw: seq<byte>)
    ensures
      var magic := |raw| >= 20 && raw[..4] == [0x50, 0x43, 0x4F, 0x56];
      && (!magic <==> Decode(raw) == Err(BadMagic))
      && (Decode(raw) == Err(BadVersion) <==> magic && Word(raw[4..8]) != 1)
      && (Decode(raw) == Err(BadLength) <==> magic && Word(raw[4..8]) == 1 && |raw| != 20 + Word(raw[12..16]))
      && (Decode(raw) == Err(BadChecksum) <==>
            && magic && Word(raw[4..8]) == 1 && |raw| == 20 + Word(raw[12..16])
            && Sum(raw[16..|raw| - 4]) % 0x1_0000_0000 != Word(raw[|raw| - 4..]))
  {
    if |raw| >= 20 {
      GetFour(raw[4..8]);
      GetFour(raw[12..16]);
      GetFour(raw[|raw| - 4..]);
    }
  }

  // ---- Corruption ------------------------------------------------------------------------

  lemma {:induction false} SumUpdate(s: seq<byte>, i: nat, b: byte)
    requires i < |s|
    ensures Sum(s[i := b]) == Sum(s) - s[i] + b
    decreases |s|
  {
    var n := |s| - 1;
    if i < n {
      SumUpdate(s[..n], i, b);
      assert s[i := b][..n] == s[..n][i := b];
    } else {
      assert s[i := b][..n] == s[..n];
    }
  }

  lemma ChecksumUpdate(s: seq<byte>, i: nat, b: byte)
    requires i < |s| && b != s[i]
    ensures Checksum(s[i := b]) != Checksum(s)
  {
    SumUpdate(s, i, b);
  }

  /** Changing one byte inside the field `d[lo..hi]` changes the number it holds. */
  lemma FieldUpdate(d: seq<byte>, lo: nat, hi: nat, i: nat, b: byte)
    requires lo <= i < hi <= |d| && b != d[i]
    ensures Get(d[i := b][lo..hi]) != Get(d[lo..hi])
  {
    var d': seq<byte> := d[i := b];
    assert d'[lo..hi][i - lo] != d[lo..hi][i - lo];
    GetDiffers(d'[lo..hi], d[lo..hi]);
  }

  lemma OtherField(d: seq<byte>, lo: nat, hi: nat, i: nat, b: byte)
    requires i < |d| && lo <= hi <= |d| && (i < lo || hi <= i)
    ensures d[i := b][lo..hi] == d[lo..hi]
  {
  }

  /**
   One changed byte anywhere in a dump is rejected, except in the target id, which nothing
   checks: there it is accepted with the same counters.
   */
  lemma OneByteCorruption(targetId: nat, counters: seq<byte>, i: nat, b: byte)
    requires |counters| < TWO_32 && i < 20 + |counters| && b != Dump(targetId, counters)[i]
    ensures
      var decoded := Decode(Dump(targetId, counters)[i := b]);
      (decoded.Ok? <==> 8 <= i < 12) && (decoded.Ok? ==> decoded.counters == counters)
  {
    var d := Dump(targetId, counters);
    var d': seq<byte> := d[i := b];
    var n := |counters|;
    DumpFields(targetId, counters);
    if i < 4 {
      assert d'[..4][i] == b && d[..4][i] == MAGIC[i];
    } else if i < 8 {
      FieldUpdate(d, 4, 8, i, b);
    } else if i < 12 {
      OtherField(d, 0, 4, i, b);
      OtherField(d, 4, 8, i, b);
      OtherField(d, 12, 16, i, b);
      OtherField(d, 16, 16 + n, i, b);
      OtherField(d, 16 + n, 20 + n, i, b);
      assert d'[..4] == d'[0..4] && d[..4] == d[0..4];
      assert d'[16 + n..] == d'[16 + n..20 + n] && d[16 + n..] == d[16 + n..20 + n];
    } else if i < 16 {
      FieldUpdate(d, 12, 16, i, b);
    } else if i < 16 + n {
      OtherField(d, 12, 16, i, b);
      OtherField(d, 16 + n, 20 + n, i, b);
      assert d'[16 + n..] == d'[16 + n..20 + n] && d[16 + n..] == d[16 + n..20 + n];
      assert d'[16..16 + n] == counters[i - 16 := b];
      ChecksumUpdate(counters, i - 16, b);
    } else {
      OtherField(d, 12, 16, i, b);
      OtherField(d, 16, 16 + n, i, b);
      FieldUpdate(d, 16 + n, 20 + n, i, b);
      assert d'[16 + n..] == d'[16 + n..20 + n] && d[16 + n..] == d[16 + n..20 + n];
    }
  }

  // ---- Writes that come up short ---------------------------------------------------------

  function Concat(chunks: seq<seq<byte>>): seq<byte>
    decreases |chunks|
  {
    if chunks == [] then [] else Concat(chunks[..|chunks| - 1]) + chunks[|chunks| - 1]
  }

  /** What the kernel takes of each write: a prefix of the bytes handed to it. */
  ghost predicate Accepts(chunks: seq<seq<byte>>, accepted: seq<nat>) {
    |accepted| == |chunks| && forall i | 0 <= i < |chunks| :: accepted[i] <= |chunks[i]|
  }

  /** The bytes that reach the file. */
  function Landed(chunks: seq<seq<byte>>, accepted: seq<nat>): seq<byte>
    requires |accepted| == |chunks|
    decreases |chunks|
  {
    if chunks == [] then []
    else
      var n := |chunks| - 1;
      Landed(chunks[..n], accepted[..n]) + Take(chunks[n], accepted[n])
  }

  lemma {:induction false} LandedLength(chunks: seq<seq<byte>>, accepted: seq<nat>)
    requires Accepts(chunks, accepted)
    ensures |Landed(chunks, accepted)| <= |Concat(chunks)|
    ensures |Landed(chunks, accepted)| == |Concat(chunks)| <==>
              forall i | 0 <= i < |chunks| :: accepted[i] == |chunks[i]|
    decreases |chunks|
  {
    if chunks != [] {
      LandedLength(chunks[..|chunks| - 1], accepted[..|chunks| - 1]);
    }
  }

  lemma {:induction false} LandedWhole(chunks: seq<seq<byte>>, accepted: seq<nat>)
    requires |accepted| == |chunks| && forall i | 0 <= i < |chunks| :: accepted[i] == |chunks[i]|
    ensures Landed(chunks, accepted) == Concat(chunks)
    decreases |chunks|
  {
    if chunks != [] {
      LandedWhole(chunks[..|chunks| - 1], accepted[..|chunks| - 1]);
    }
  }

  /** The published file: a short header write publishes nothing, any other short write is ignored. */
  function Published(targetId: nat, regions: seq<seq<byte>>, accepted: seq<nat>): Option<seq<byte>>
    requires |accepted| == |regions| + 2
  {
    var counters, n := Concat(regions), |regions|;
    if accepted[0] < 16 then None
    else Some(Header(targetId, |counters| % TWO_32) + Landed(regions, accepted[1..n + 1])
              + Take(Put(Checksum(counters), 4), accepted[n + 1]))
  }

  /**
   A published file is accepted exactly when every write was complete, and then it holds the
   regions one after another: no cut, wherever it falls, is mistaken for an observation.
   */
  lemma AcceptedIffComplete(targetId: nat, regions: seq<seq<byte>>, accepted: seq<nat>)
    requires |accepted| == |regions| + 2 && Accepts(regions, accepted[1..|regions| + 1])
    requires accepted[0] == 16 && accepted[|regions| + 1] <= 4 && |Concat(regions)| < TWO_32
    ensures
      var file := Published(targetId, regions, accepted);
      var complete := accepted[|regions| + 1] == 4 && forall i | 0 <= i < |regions| :: accepted[i + 1] == |regions[i]|;
      && file.Some?
      && (Decode(file.value).Ok? <==> complete)
      && (complete ==> Decode(file.value) == Ok(Concat(regions)))
  {
    var counters, n := Concat(regions), |regions|;
    var body, tail := accepted[1..n + 1], accepted[n + 1];
    var file := Published(targetId, regions, accepted).value;
    assert forall i | 0 <= i < n :: body[i] == accepted[i + 1];
    LandedLength(regions, body);
    if tail == 4 && forall i | 0 <= i < n :: body[i] == |regions[i]| {
      LandedWhole(regions, body);
      assert file == Dump(targetId, counters);
      RoundTrip(targetId, counters);
    } else {
      var header, rest := Header(targetId, |counters|), Take(Put(Checksum(counters), 4), tail);
      assert file == header + Landed(regions, body) + rest;
      CutFileIsRejected(targetId, counters, file);
    }
  }

  /** A short header write publishes nothing; any other publishes a file. */
  lemma PublishedIff(targetId: nat, regions: seq<seq<byte>>, accepted: seq<nat>)
    requires |accepted| == |regions| + 2 && accepted[0] <= 16
    ensures Published(targetId, regions, accepted).Some? <==> accepted[0] == 16
  {
  }

  /** A complete dump of 4 GiB of counters or more announces its length modulo 2^32, and is rejected. */
  lemma WrappedDumpIsRejected(targetId: nat, regions: seq<seq<byte>>, accepted: seq<nat>)
    requires |accepted| == |regions| + 2 && accepted[0] == 16 && accepted[|regions| + 1] == 4
    requires forall i | 0 <= i < |regions| :: accepted[i + 1] == |regions[i]|
    requires |Concat(regions)| >= TWO_32
    ensures Decode(Published(targetId, regions, accepted).value) == Err(BadLength)
  {
    var counters, n := Concat(regions), |regions|;
    var body := accepted[1..n + 1];
    assert forall i | 0 <= i < n :: body[i] == accepted[i + 1];
    LandedWhole(regions, body);
    Pow256Values();
    GetPut(VERSION, 4);
    GetPut(|counters| % TWO_32, 4);
    var file, header := Published(targetId, regions, accepted).value, Header(targetId, |counters| % TWO_32);
    assert file[..16] == header;
    assert file[..4] == header[..4] == MAGIC && file[4..8] == header[4..8] == Put(VERSION, 4);
    assert file[12..16] == header[12..16] == Put(|counters| % TWO_32, 4);
  }

  /** A file with a whole header but fewer bytes than it announces is rejected. */
  lemma CutFileIsRejected(targetId: nat, counters: seq<byte>, file: seq<byte>)
    requires |counters| < TWO_32 && 16 <= |file| < 20 + |counters| && file[..16] == Header(targetId, |counters|)
    ensures Decode(file) == Err(BadMagic) || Decode(file) == Err(BadLength)
  {
    Pow256Values();
    GetPut(VERSION, 4);
    GetPut(|counters|, 4);
    if |file| >= 20 {
      assert file[..4] == file[..16][..4] == MAGIC;
      assert file[4..8] == file[..16][4..8] == Put(VERSION, 4);
      assert file[12..16] == file[..16][12..16] == Put(|counters|, 4);
    }
  }

  /** Every strict prefix of a complete dump is rejected by its length. */
  lemma StrictPrefixIsRejected(targetId: nat, counters: seq<byte>, n: nat)
    requires |counters| < TWO_32 && n < 20 + |counters|
    ensures var r := Decode(Dump(targetId, counters)[..n]); r == Err(BadMagic) || r == Err(BadLength)
  {
    var d := Dump(targetId, counters);
    if n >= 16 {
      assert d[..n][..16] == Header(targetId, |counters|);
      CutFileIsRejected(targetId, counters, d[..n]);
    }
  }

  // ---- The dump itself -------------------------------------------------------------------

  ghost function Contents(regions: seq<array<byte>>): (r: seq<seq<byte>>)
    reads regions
    ensures |r| == |regions| && forall i | 0 <= i < |r| :: r[i] == regions[i][..]
  {
    seq(|regions|, i requires 0 <= i < |regions| reads regions => regions[i][..])
  }

  /** The sum loop over one region, as 32-bit arithmetic. */
  method AddUp(s: array<byte>, start: nat) returns (sum: nat)
    requires start < TWO_32
    ensures sum == (start + Sum(s[..])) % TWO_32
  {
    sum := start;
    for i := 0 to s.Length
      invariant sum == (start + Sum(s[..i])) % TWO_32
    {
      assert s[..i + 1][..i] == s[..i];
      sum := (sum + s[i]) % TWO_32;
    }
    assert s[..s.Length] == s[..];
  }

  lemma {:induction false} SumConcat(a: seq<byte>, b: seq<byte>)
    ensures Sum(a + b) == Sum(a) + Sum(b)
    decreases |b|
  {
    if b == [] {
      assert a + b == a;
    } else {
      var n := |b| - 1;
      assert (a + b)[..|a + b| - 1] == a + b[..n];
      SumConcat(a, b[..n]);
    }
  }

  method TotalLength(regions: seq<array<byte>>) returns (len: nat)
    ensures len == |Concat(Contents(regions))| % TWO_32
  {
    ghost var contents := Contents(regions);
    len := 0;
    for r := 0 to |regions|
      invariant len == |Concat(contents[..r])| % TWO_32
    {
      assert contents[..r + 1][..r] == contents[..r];
      len := (len + regions[r].Length) % TWO_32;
    }
    assert contents[..|regions|] == contents;
  }

  /** What has landed after the first `r` writes. */
  ghost function LandedUpTo(chunks: seq<seq<byte>>, accepted: seq<nat>, r: nat): seq<byte>
    requires r <= |chunks| == |accepted|
  {
    Landed(chunks[..r], accepted[..r])
  }

  lemma NextRegion(contents: seq<seq<byte>>, accepted: seq<nat>, r: nat)
    requires r < |contents| == |accepted|
    ensures LandedUpTo(contents, accepted, r + 1) == LandedUpTo(contents, accepted, r) + Take(contents[r], accepted[r])
    ensures Checksum(Concat(contents[..r + 1])) == (Checksum(Concat(contents[..r])) + Sum(contents[r])) % TWO_32
  {
    var longer, more := contents[..r + 1], accepted[..r + 1];
    assert longer[..r] == contents[..r] && more[..r] == accepted[..r];
    assert longer[r] == contents[r] && more[r] == accepted[r];
    SumConcat(Concat(contents[..r]), contents[r]);
  }

  lemma Appended(a: seq<byte>, b: seq<byte>, c: seq<byte>)
    ensures (a + b) + c == a + (b + c)
  {
  }

  /** The write loop: every region in turn, added to the running 32-bit sum. */
  method WriteRegions(header: seq<byte>, regions: seq<array<byte>>, accepted: seq<nat>)
    returns (written: seq<byte>, sum: nat)
    requires |accepted| == |regions|
    ensures written == header + Landed(Contents(regions), accepted)
    ensures sum == Checksum(Concat(Contents(regions)))
  {
    ghost var contents := Contents(regions);
    written, sum := header, 0;
    for r := 0 to |regions|
      invariant written == header + LandedUpTo(contents, accepted, r)
      invariant sum == Checksum(Concat(contents[..r]))
    {
      NextRegion(contents, accepted, r);
      sum := AddUp(regions[r], sum);
      var landed := Take(regions[r][..], accepted[r]);
      Appended(header, LandedUpTo(contents, accepted, r), landed);
      written := written + landed;
    }
    assert contents[..|regions|] == contents && accepted[..|regions|] == accepted;
  }

  /**
   One dump through the shared gate. `writable` says the path is set, fits and opens; `accepted[k]`
   is how many bytes write number k takes. The result is the file published, if any.
   */
  method WriteDump(gate: Gate, writable: bool, targetId: nat, regions: seq<array<byte>>, accepted: seq<nat>)
    returns (file: Option<seq<byte>>)
    requires |accepted| == |regions| + 2 && accepted[0] <= 16
    requires forall r | r in regions :: r.Length < TWO_32
    modifies gate
    ensures gate.dumped
    ensures file == if old(gate.dumped) || !writable then None else Published(targetId, Contents(regions), accepted)
  {
    if gate.dumped { return None; }
    gate.dumped := true;
    if !writable { return None; }
    var len := TotalLength(regions);
    if accepted[0] != 16 { return None; }
    var written, sum := WriteRegions(Header(targetId, len), regions, accepted[1..|regions| + 1]);
    written := written + Take(Put(sum, 4), accepted[|regions| + 1]);
    return Some(written);
  }
}
