/**
 The comparison-operand log: the record format, the parser that drops a cut record instead of
 misreading it, and the runtime's bounded buffer.
 */
module CmpLog {
  import opened Bytes
  import opened LittleEndian

  const OP_COUNT := 7
  const OP_UNKNOWN := 6

  /** A logged pair: two integers of some width, two byte strings or two text strings. */
  datatype Entry =
    | IntPair(op: nat, width: nat, lhs: nat, rhs: nat)
    | BytesPair(op: nat, left: seq<byte>, right: seq<byte>)
    | TextPair(op: nat, left: seq<byte>, right: seq<byte>)

  predicate Encodable(e: Entry) {
    && e.op < OP_COUNT
    && match e
       case IntPair(_, width, lhs, rhs) => width < 256 && lhs < TWO_32 * TWO_32 && rhs < TWO_32 * TWO_32
       case BytesPair(_, left, right) => |left| < TWO_32 && |right| < TWO_32
       case TextPair(_, left, right) => |left| < TWO_32 && |right| < TWO_32
  }

  function EncodeBlob(s: seq<byte>): seq<byte> {
    Put(|s|, 4) + s
  }

  function Kind(e: Entry): nat {
    match e
    case IntPair(_, _, _, _) => 0
    case BytesPair(_, _, _) => 1
    case TextPair(_, _, _) => 2
  }

  function Body(e: Entry): seq<byte> {
    match e
    case IntPair(_, width, lhs, rhs) => Put(width, 1) + Put(lhs, 8) + Put(rhs, 8)
    case BytesPair(_, left, right) => EncodeBlob(left) + EncodeBlob(right)
    case TextPair(_, left, right) => EncodeBlob(left) + EncodeBlob(right)
  }

  function Encode(e: Entry): (r: seq<byte>)
    ensures |r| == 2 + |Body(e)|
  {
    Put(Kind(e), 1) + Put(e.op, 1) + Body(e)
  }

  function EncodeAll(es: seq<Entry>): seq<byte> {
    if es == [] then [] else Encode(es[0]) + EncodeAll(es[1..])
  }

  // ---- The parser ------------------------------------------------------------------------

  /** Two length-prefixed strings at the start of `data`, and the bytes they take. */
  function ParseBlobs(data: seq<byte>): (r: Option<(seq<byte>, seq<byte>, nat)>)
    ensures r.Some? ==> r.value.2 <= |data|
  {
    if 4 > |data| then None
    else
      var l := Get(data[..4]);
      if 4 + l + 4 > |data| then None
      else
        var r := Get(data[4 + l..8 + l]);
        if 8 + l + r > |data| then None
        else Some((data[4..4 + l], data[8 + l..8 + l + r], 8 + l + r))
  }

  /** The record at the start of `data` and its size, or nothing when the parser stops there. */
  function ParseOne(data: seq<byte>): (r: Option<(Entry, nat)>)
    ensures r.Some? ==> 0 < r.value.1 <= |data|
  {
    if 2 > |data| || data[0] > 2 || data[1] >= OP_COUNT then None
    else if data[0] == 0 then
      if 2 + 1 + 8 + 8 > |data| then None
      else Some((IntPair(data[1], data[2], Get(data[3..11]), Get(data[11..19])), 19))
    else
      match ParseBlobs(data[2..])
      case None => None
      case Some((l, r, size)) =>
        Some((if data[0] == 1 then BytesPair(data[1], l, r) else TextPair(data[1], l, r), 2 + size))
  }

  function Parse(data: seq<byte>): seq<Entry>
    decreases |data|
  {
    match ParseOne(data)
    case None => []
    case Some((e, size)) => [e] + Parse(data[size..])
  }

  // ---- Round trip, cut anywhere ----------------------------------------------------------

  lemma FiveParts(a: seq<byte>, b: seq<byte>, c: seq<byte>, d: seq<byte>, e: seq<byte>)
    ensures
      var data := (a + b) + (c + d) + e;
      var i, j, k := |a|, |a| + |b|, |a| + |b| + |c|;
      data[..i] == a && data[i..j] == b && data[j..k] == c && data[k..k + |d|] == d && |data| == k + |d| + |e|
  {
  }

  lemma FieldWidths(l: nat, r: nat)
    requires l < TWO_32 && r < TWO_32
    ensures Get(Put(l, 4)) == l && Get(Put(r, 4)) == r
  {
    Pow256Values();
    GetPut(l, 4);
    GetPut(r, 4);
  }

  lemma BlobsAt(left: seq<byte>, right: seq<byte>, rest: seq<byte>)
    requires |left| < TWO_32 && |right| < TWO_32
    ensures
      var data := EncodeBlob(left) + EncodeBlob(right) + rest;
      ParseBlobs(data) == Some((left, right, 8 + |left| + |right|))
  {
    FieldWidths(|left|, |right|);
    FiveParts(Put(|left|, 4), left, Put(|right|, 4), right, rest);
  }

  lemma BlobsCut(left: seq<byte>, right: seq<byte>, n: nat)
    requires |left| < TWO_32 && |right| < TWO_32 && n < 8 + |left| + |right|
    ensures ParseBlobs((EncodeBlob(left) + EncodeBlob(right))[..n]) == None
  {
    var data := EncodeBlob(left) + EncodeBlob(right);
    Pow256Values();
    GetPut(|left|, 4);
    GetPut(|right|, 4);
    if n >= 4 {
      assert data[..n][..4] == Put(|left|, 4);
      if n >= 8 + |left| {
        assert data[..n][4 + |left|..8 + |left|] == Put(|right|, 4);
      }
    }
  }

  /** The first two bytes of a record, and what follows them. */
  lemma Opening(kind: nat, op: nat, body: seq<byte>)
    requires kind < 256 && op < 256
    ensures
      var data := Put(kind, 1) + Put(op, 1) + body;
      |data| == 2 + |body| && data[0] == kind && data[1] == op && data[2..] == body
  {
    PutOne(kind);
    PutOne(op);
  }

  lemma ParseIntPair(op: nat, width: nat, lhs: nat, rhs: nat, rest: seq<byte>)
    requires Encodable(IntPair(op, width, lhs, rhs))
    ensures ParseOne(Encode(IntPair(op, width, lhs, rhs)) + rest) == Some((IntPair(op, width, lhs, rhs), 19))
  {
    var body := (Put(width, 1) + Put(lhs, 8)) + (Put(rhs, 8) + []) + rest;
    var data := Encode(IntPair(op, width, lhs, rhs)) + rest;
    assert data == Put(0, 1) + Put(op, 1) + body;
    Opening(0, op, body);
    PutOne(width);
    Pow256Values();
    GetPut(lhs, 8);
    GetPut(rhs, 8);
    FiveParts(Put(width, 1), Put(lhs, 8), Put(rhs, 8), [], rest);
    assert data[2] == body[0] && data[3..11] == body[1..9] && data[11..19] == body[9..17];
  }

  /** A whole record is read back, whatever follows it. */
  lemma ParseOneWhole(e: Entry, rest: seq<byte>)
    requires Encodable(e)
    ensures ParseOne(Encode(e) + rest) == Some((e, |Encode(e)|))
  {
    if e.IntPair? {
      ParseIntPair(e.op, e.width, e.lhs, e.rhs, rest);
    } else {
      assert Encode(e) + rest == Put(Kind(e), 1) + Put(e.op, 1) + (Body(e) + rest);
      Opening(Kind(e), e.op, Body(e) + rest);
      BlobsAt(e.left, e.right, rest);
    }
  }

  /** A record cut short is not read at all. */
  lemma ParseOneCut(e: Entry, n: nat)
    requires Encodable(e) && n < |Encode(e)|
    ensures ParseOne(Encode(e)[..n]) == None
  {
    if n >= 2 {
      assert Encode(e)[..n] == Put(Kind(e), 1) + Put(e.op, 1) + Body(e)[..n - 2];
      Opening(Kind(e), e.op, Body(e)[..n - 2]);
      if !e.IntPair? {
        BlobsCut(e.left, e.right, n - 2);
      }
    }
  }

  /** How many whole records fit in the first `n` bytes. */
  function WholeRecords(es: seq<Entry>, n: nat): (k: nat)
    ensures k <= |es|
  {
    if es == [] || |Encode(es[0])| > n then 0 else 1 + WholeRecords(es[1..], n - |Encode(es[0])|)
  }

  lemma {:induction false} WholeRecordsFit(es: seq<Entry>, n: nat)
    ensures
      var k := WholeRecords(es, n);
      && |EncodeAll(es[..k])| <= n
      && (k < |es| ==> n < |EncodeAll(es[..k + 1])|)
  {
    if es != [] {
      var m := n - |Encode(es[0])|;
      if m >= 0 {
        WholeRecordsFit(es[1..], m);
        var k := WholeRecords(es[1..], m);
        assert es[..k + 1][1..] == es[1..][..k];
        if k < |es[1..]| {
          assert es[..k + 2][1..] == es[1..][..k + 1];
        }
      } else {
        assert es[..1][1..] == [];
      }
    }
  }

  /**
   Graceful truncation: parsing the first `n` bytes of a log, wherever the cut falls, gives
   exactly the records that are whole.
   */
  lemma {:induction false} ParseCutLog(es: seq<Entry>, n: nat)
    requires (forall e | e in es :: Encodable(e)) && n <= |EncodeAll(es)|
    ensures Parse(EncodeAll(es)[..n]) == es[..WholeRecords(es, n)]
    decreases |es|
  {
    if es != [] {
      var head := Encode(es[0]);
      if n < |head| {
        CutInHead(es, n);
        ParseOneCut(es[0], n);
      } else {
        var m := n - |head|;
        CutAfterHead(es, n);
        ParseNext(es[0], EncodeAll(es[1..])[..m]);
        ParseCutLog(es[1..], m);
        var k := WholeRecords(es[1..], m);
        assert es[..k + 1] == [es[0]] + es[1..][..k];
      }
    }
  }

  lemma CutInHead(es: seq<Entry>, n: nat)
    requires es != [] && n < |Encode(es[0])|
    ensures n <= |EncodeAll(es)| && EncodeAll(es)[..n] == Encode(es[0])[..n]
  {
  }

  lemma CutAfterHead(es: seq<Entry>, n: nat)
    requires es != [] && |Encode(es[0])| <= n <= |EncodeAll(es)|
    ensures
      var head := Encode(es[0]);
      n - |head| <= |EncodeAll(es[1..])| && EncodeAll(es)[..n] == head + EncodeAll(es[1..])[..n - |head|]
  {
  }

  lemma ParseNext(e: Entry, rest: seq<byte>)
    requires Encodable(e)
    ensures Parse(Encode(e) + rest) == [e] + Parse(rest)
  {
    ParseOneWhole(e, rest);
    assert (Encode(e) + rest)[|Encode(e)|..] == rest;
  }

  /** A whole log is read back record for record. */
  lemma RoundTrip(es: seq<Entry>)
    requires forall e | e in es :: Encodable(e)
    ensures Parse(EncodeAll(es)) == es
  {
    var data := EncodeAll(es);
    assert data[..|data|] == data;
    ParseCutLog(es, |data|);
    WholeRecordsFit(es, |data|);
    AllFit(es);
  }

  /** The parsing loop: stops at the first byte it cannot take for a whole record. */
  method ParseLog(data: seq<byte>) returns (entries: seq<Entry>)
    ensures entries == Parse(data)
  {
    entries := [];
    var pos := 0;
    while pos + 2 <= |data|
      invariant pos <= |data| && entries + Parse(data[pos..]) == Parse(data)
    {
      var one := ParseOne(data[pos..]);
      if one.None? { break; }
      var (entry, size) := one.value;
      assert data[pos..][size..] == data[pos + size..];
      entries := entries + [entry];
      pos := pos + size;
    }
  }

  lemma {:induction false} AllFit(es: seq<Entry>)
    ensures WholeRecords(es, |EncodeAll(es)|) == |es| && es[..|es|] == es
  {
    if es != [] {
      AllFit(es[1..]);
    }
  }

  // ---- The format, and what the parser makes of any bytes --------------------------------

  /** The wire format of an integer pair: kind 0, operator, width, two eight-byte words. */
  lemma IntPairLayout(e: Entry)
    requires Encodable(e) && e.IntPair?
    ensures
      var r := Encode(e);
      && |r| == 19 && r[0] == 0 && r[1] == e.op < 7 && r[2] == e.width
      && Word(r[3..7]) + 0x1_0000_0000 * Word(r[7..11]) == e.lhs
      && Word(r[11..15]) + 0x1_0000_0000 * Word(r[15..19]) == e.rhs
  {
    var r, body := Encode(e), Body(e);
    Opening(Kind(e), e.op, body);
    IntLayout(e, body);
    assert r[2..] == body && |r| == 19;
    assert r[2] == body[0] && r[3..7] == body[1..5] && r[7..11] == body[5..9];
    assert r[11..15] == body[9..13] && r[15..19] == body[13..17];
  }

  /** Of a pair of byte strings, kind 1, or of texts, kind 2: operator, two length-prefixed strings. */
  lemma StringPairLayout(e: Entry)
    requires Encodable(e) && !e.IntPair?
    ensures
      var r, m := Encode(e), 6 + |e.left|;
      && |r| == 10 + |e.left| + |e.right| && r[0] == (if e.BytesPair? then 1 else 2) && r[1] == e.op < 7
      && Word(r[2..6]) == |e.left| && r[6..m] == e.left
      && Word(r[m..m + 4]) == |e.right| && r[m + 4..] == e.right
  {
    var r, body, m := Encode(e), Body(e), 4 + |e.left|;
    Opening(Kind(e), e.op, body);
    BlobLayout(e.left, e.right, body);
    assert r[2..] == body;
    assert r[2..6] == body[..4] && r[6..2 + m] == body[4..m];
    assert r[2 + m..6 + m] == body[m..m + 4] && r[6 + m..] == body[m + 4..];
  }

  lemma IntLayout(e: Entry, body: seq<byte>)
    requires Encodable(e) && e.IntPair? && body == Body(e)
    ensures
      && |body| == 17 && body[0] == e.width
      && Word(body[1..5]) + 0x1_0000_0000 * Word(body[5..9]) == e.lhs
      && Word(body[9..13]) + 0x1_0000_0000 * Word(body[13..17]) == e.rhs
  {
    PutOne(e.width);
    LongField(e.lhs, body[1..9]);
    LongField(e.rhs, body[9..17]);
    assert body[1..9][..4] == body[1..5] && body[1..9][4..] == body[5..9];
    assert body[9..17][..4] == body[9..13] && body[9..17][4..] == body[13..17];
  }

  lemma LongField(v: nat, s: seq<byte>)
    requires v < TWO_32 * TWO_32 && s == Put(v, 8)
    ensures Word(s[..4]) + 0x1_0000_0000 * Word(s[4..]) == v
  {
    Pow256Values();
    GetPut(v, 8);
    GetEight(s);
    GetFour(s[..4]);
    GetFour(s[4..]);
  }

  lemma BlobLayout(left: seq<byte>, right: seq<byte>, body: seq<byte>)
    requires |left| < TWO_32 && |right| < TWO_32 && body == EncodeBlob(left) + EncodeBlob(right)
    ensures
      var m := 4 + |left|;
      && |body| == 8 + |left| + |right|
      && Word(body[..4]) == |left| && body[4..m] == left
      && Word(body[m..m + 4]) == |right| && body[m + 4..] == right
  {
    FieldWidths(|left|, |right|);
    FiveParts(Put(|left|, 4), left, Put(|right|, 4), right, []);
    assert body == (Put(|left|, 4) + left) + (Put(|right|, 4) + right) + [];
    GetFour(body[..4]);
    GetFour(body[4 + |left|..8 + |left|]);
  }

  lemma ParsedBlobs(data: seq<byte>)
    requires ParseBlobs(data).Some?
    ensures
      var (l, r, size) := ParseBlobs(data).value;
      |l| < TWO_32 && |r| < TWO_32 && data[..size] == EncodeBlob(l) + EncodeBlob(r)
  {
    var (l, r, size) := ParseBlobs(data).value;
    Pow256Values();
    GetBound(data[..4]);
    PutGet(data[..4]);
    GetBound(data[4 + |l|..8 + |l|]);
    PutGet(data[4 + |l|..8 + |l|]);
    assert data[..size] == data[..4] + data[4..4 + |l|] + data[4 + |l|..8 + |l|] + data[8 + |l|..size];
  }

  lemma ParsedInts(data: seq<byte>, e: Entry)
    requires |data| == 19 && data[0] == 0 && data[1] < 7
    requires e == IntPair(data[1], data[2], Get(data[3..11]), Get(data[11..19]))
    ensures Encodable(e) && data == Encode(e)
  {
    PutOne(data[0]);
    PutOne(data[1]);
    PutOne(data[2]);
    Pow256Values();
    GetBound(data[3..11]);
    PutGet(data[3..11]);
    GetBound(data[11..19]);
    PutGet(data[11..19]);
    assert data == [data[0]] + [data[1]] + ([data[2]] + data[3..11] + data[11..19]);
  }

  lemma ParsedStrings(data: seq<byte>, e: Entry)
    requires |data| >= 2 && data[0] in {1, 2} && data[1] < 7 && ParseBlobs(data[2..]).Some?
    requires
      var (l, r, size) := ParseBlobs(data[2..]).value;
      e == if data[0] == 1 then BytesPair(data[1], l, r) else TextPair(data[1], l, r)
    ensures
      var (l, r, size) := ParseBlobs(data[2..]).value;
      Encodable(e) && data[..2 + size] == Encode(e)
  {
    var (l, r, size) := ParseBlobs(data[2..]).value;
    PutOne(data[0]);
    PutOne(data[1]);
    ParsedBlobs(data[2..]);
    assert data[..2 + size] == [data[0]] + [data[1]] + data[2..][..size];
  }

  /** What the parser takes for a record is the encoding of what it returns. */
  lemma ParsedOne(data: seq<byte>)
    requires ParseOne(data).Some?
    ensures var (e, size) := ParseOne(data).value; Encodable(e) && data[..size] == Encode(e)
  {
    var (e, size) := ParseOne(data).value;
    if e.IntPair? {
      var head := data[..19];
      assert head[3..11] == data[3..11] && head[11..19] == data[11..19];
      ParsedInts(head, e);
    } else {
      ParsedStrings(data, e);
    }
  }

  predicate StartsWith(data: seq<byte>, prefix: seq<byte>) {
    |prefix| <= |data| && data[..|prefix|] == prefix
  }

  lemma RecordIsSeen(data: seq<byte>, e: Entry)
    requires Encodable(e)
    ensures StartsWith(data, Encode(e)) ==> ParseOne(data).Some?
  {
    if StartsWith(data, Encode(e)) {
      var rest := data[|Encode(e)|..];
      assert data == Encode(e) + rest;
      ParseOneWhole(e, rest);
    }
  }

  /**
   Of any bytes whatever, the parser returns exactly the records they begin with: the bytes start
   with the encoding of what is returned, and no further record follows it.
   */
  lemma {:induction false} ParseIsMaximal(data: seq<byte>)
    ensures forall e | e in Parse(data) :: Encodable(e)
    ensures StartsWith(data, EncodeAll(Parse(data)))
    ensures forall e | Encodable(e) :: !StartsWith(data[|EncodeAll(Parse(data))|..], Encode(e))
    decreases |data|
  {
    match ParseOne(data)
    case None =>
      forall e | Encodable(e)
        ensures !StartsWith(data, Encode(e))
      {
        RecordIsSeen(data, e);
      }
      assert data[0..] == data;
    case Some((e, size)) =>
      ParsedOne(data);
      ParseIsMaximal(data[size..]);
      ParseStep(data, e, size);
      Follows(data, Encode(e), EncodeAll(Parse(data[size..])));
  }

  lemma ParseStep(data: seq<byte>, e: Entry, size: nat)
    requires ParseOne(data) == Some((e, size))
    ensures EncodeAll(Parse(data)) == Encode(e) + EncodeAll(Parse(data[size..]))
  {
    var es := [e] + Parse(data[size..]);
    assert Parse(data) == es && es[1..] == Parse(data[size..]);
  }

  lemma Follows(data: seq<byte>, head: seq<byte>, tail: seq<byte>)
    requires StartsWith(data, head) && StartsWith(data[|head|..], tail)
    ensures StartsWith(data, head + tail) && data[|head + tail|..] == data[|head|..][|tail|..]
  {
    assert data[..|head| + |tail|] == data[..|head|] + data[|head|..][..|tail|];
  }
}
