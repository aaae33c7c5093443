/**
 The line-driven reader of `git show` diffs, and a printer of such diffs that it is to undo.
 */
module DiffHunks {
  import opened Bytes

  datatype Hunk = Hunk(path: string, start: nat, removed: seq<string>, added: seq<string>)

  predicate StartsWith(line: string, prefix: string) {
    |prefix| <= |line| && line[..|prefix|] == prefix
  }

  // ---- Decimal numbers -------------------------------------------------------------------

  predicate IsDigit(c: char) {
    '0' <= c <= '9'
  }

  function Decimal(n: nat): string {
    (if n < 10 then "" else Decimal(n / 10)) + [('0' as int + n % 10) as char]
  }

  /** How far the digits at the front of `s` go. */
  function DigitRun(s: string): nat {
    if s == "" || !IsDigit(s[0]) then 0 else 1 + DigitRun(s[1..])
  }

  function Number(s: string): nat {
    if s == "" then 0
    else Number(s[..|s| - 1]) * 10 + (if IsDigit(s[|s| - 1]) then s[|s| - 1] as int - '0' as int else 0)
  }

  lemma {:induction false} NumberDecimal(n: nat)
    ensures Decimal(n) != "" && (forall c | c in Decimal(n) :: IsDigit(c)) && Number(Decimal(n)) == n
  {
    var d := Decimal(n);
    var digit := ('0' as int + n % 10) as char;
    if n < 10 {
      assert d == [digit] && d[..0] == "";
    } else {
      NumberDecimal(n / 10);
      assert d == Decimal(n / 10) + [digit];
      assert d[..|d| - 1] == Decimal(n / 10);
    }
  }

  lemma {:induction false} DigitRunOf(digits: string, rest: string)
    requires forall c | c in digits :: IsDigit(c)
    requires rest == "" || !IsDigit(rest[0])
    ensures DigitRun(digits + rest) <= |digits + rest| && (digits + rest)[..DigitRun(digits + rest)] == digits
  {
    if digits == "" {
      assert digits + rest == rest;
    } else {
      assert (digits + rest)[1..] == digits[1..] + rest;
      DigitRunOf(digits[1..], rest);
    }
  }

  /** The number after the first plus sign that has one, or 0. */
  function PlusNumber(line: string): nat {
    if line == "" then 0
    else if line[0] == '+' && DigitRun(line[1..]) > 0 then Number(Take(line[1..], DigitRun(line[1..])))
    else PlusNumber(line[1..])
  }

  lemma PlusNumberHere(n: nat, rest: string)
    requires rest == "" || !IsDigit(rest[0])
    ensures PlusNumber("+" + (Decimal(n) + rest)) == n
  {
    var line := "+" + (Decimal(n) + rest);
    NumberDecimal(n);
    DigitRunOf(Decimal(n), rest);
    assert line[1..] == Decimal(n) + rest;
  }

  lemma {:induction false} PlusNumberFinds(before: string, n: nat, rest: string)
    requires '+' !in before && (rest == "" || !IsDigit(rest[0]))
    ensures PlusNumber(before + "+" + Decimal(n) + rest) == n
  {
    var line := before + "+" + Decimal(n) + rest;
    if before == "" {
      PlusNumberHere(n, rest);
      assert line == "+" + (Decimal(n) + rest);
    } else {
      assert line[0] == before[0] != '+';
      assert line[1..] == before[1..] + "+" + Decimal(n) + rest;
      PlusNumberFinds(before[1..], n, rest);
    }
  }

  lemma DigitRunStarts(s: string)
    ensures DigitRun(s) > 0 <==> s != "" && IsDigit(s[0])
  {
  }

  /** A header without a number after a plus sign has start 0. */
  lemma {:induction false} PlusNumberAbsent(line: string)
    requires forall i | 0 <= i < |line| - 1 :: !(line[i] == '+' && IsDigit(line[i + 1]))
    ensures PlusNumber(line) == 0
  {
    if line != "" {
      DigitRunStarts(line[1..]);
      if line[1..] != "" {
        assert line[1..][0] == line[0 + 1];
      }
      forall i | 0 <= i < |line[1..]| - 1
        ensures !(line[1..][i] == '+' && IsDigit(line[1..][i + 1]))
      {
        assert line[1..][i] == line[i + 1] && line[1..][i + 1] == line[(i + 1) + 1];
      }
      PlusNumberAbsent(line[1..]);
    }
  }

  // ---- The reader ------------------------------------------------------------------------

  datatype Parser = Parser(path: Option<string>, start: nat, removed: seq<string>, added: seq<string>, out: seq<Hunk>)

  const FRESH := Parser(None, 0, [], [], [])

  /** The hunks given out once the one being read is flushed. */
  function Flushed(p: Parser): seq<Hunk> {
    if p.path.Some? && (p.removed != [] || p.added != [])
    then p.out + [Hunk(p.path.value, p.start, p.removed, p.added)] else p.out
  }

  function Feed(p: Parser, line: string): Parser {
    if StartsWith(line, "diff --git ") then Parser(None, 0, [], [], Flushed(p))
    else if StartsWith(line, "+++ ") then p.(path := if StartsWith(line, "+++ b/") then Some(line[6..]) else None)
    else if StartsWith(line, "@@") then Parser(p.path, PlusNumber(line), [], [], Flushed(p))
    else if StartsWith(line, "-") && !StartsWith(line, "--- ") then p.(removed := p.removed + [line[1..]])
    else if StartsWith(line, "+") then p.(added := p.added + [line[1..]])
    else p
  }

  function FeedAll(p: Parser, lines: seq<string>): Parser {
    if lines == [] then p else Feed(FeedAll(p, lines[..|lines| - 1]), lines[|lines| - 1])
  }

  function Read(lines: seq<string>): seq<Hunk> {
    Flushed(FeedAll(FRESH, lines))
  }

  method HunksOf(lines: seq<string>) returns (out: seq<Hunk>)
    ensures out == Read(lines)
  {
    out := [];
    var path: Option<string> := None;
    var start, removed, added := 0, [], [];
    for k := 0 to |lines|
      invariant Parser(path, start, removed, added, out) == FeedAll(FRESH, lines[..k])
    {
      var line := lines[k];
      assert lines[..k + 1][..k] == lines[..k];
      if StartsWith(line, "diff --git ") {
        if path.Some? && (removed != [] || added != []) {
          out := out + [Hunk(path.value, start, removed, added)];
        }
        path, start, removed, added := None, 0, [], [];
      } else if StartsWith(line, "+++ ") {
        path := if StartsWith(line, "+++ b/") then Some(line[6..]) else None;
      } else if StartsWith(line, "@@") {
        if path.Some? && (removed != [] || added != []) {
          out := out + [Hunk(path.value, start, removed, added)];
        }
        start, removed, added := PlusNumber(line), [], [];
      } else if StartsWith(line, "-") && !StartsWith(line, "--- ") {
        removed := removed + [line[1..]];
      } else if StartsWith(line, "+") {
        added := added + [line[1..]];
      }
    }
    assert lines[..|lines|] == lines;
    if path.Some? && (removed != [] || added != []) {
      out := out + [Hunk(path.value, start, removed, added)];
    }
  }

  lemma {:induction false} FeedAppend(p: Parser, a: seq<string>, b: seq<string>)
    ensures FeedAll(p, a + b) == FeedAll(FeedAll(p, a), b)
    decreases |b|
  {
    if b == [] {
      assert a + b == a;
    } else {
      var n := |b| - 1;
      FeedAppend(p, a, b[..n]);
      assert (a + b)[..|a + b| - 1] == a + b[..n];
    }
  }

  lemma FeedOne(p: Parser, line: string)
    ensures FeedAll(p, [line]) == Feed(p, line)
  {
    assert [line][..0] == [];
  }

  function Behind(out: seq<Hunk>, p: Parser): Parser {
    p.(out := out + p.out)
  }

  lemma FlushedBehind(out: seq<Hunk>, p: Parser)
    ensures Flushed(Behind(out, p)) == out + Flushed(p)
  {
  }

  /** What has been given out already has no influence. */
  lemma {:induction false} FeedBehind(out: seq<Hunk>, p: Parser, lines: seq<string>)
    ensures FeedAll(Behind(out, p), lines) == Behind(out, FeedAll(p, lines))
  {
    if lines != [] {
      var n := |lines| - 1;
      FeedBehind(out, p, lines[..n]);
      FlushedBehind(out, FeedAll(p, lines[..n]));
    }
  }

  // ---- The printer -----------------------------------------------------------------------

  datatype Line = Context(text: string) | Removed(text: string) | Added(text: string) | NoNewline

  datatype HunkText = HunkText(oldRange: string, start: nat, newCount: string, section: string, body: seq<Line>)

  /**
   A file's new side: none at all (a mode change, a binary file), a path, or something else after
   the three pluses: `/dev/null` for a deleted file, a quoted path.
   */
  datatype Side = Bare | Elsewhere(text: string) | At(path: string)

  datatype FileDiff = FileDiff(names: string, extended: seq<string>, oldSide: string, side: Side, hunks: seq<HunkText>)

  function PrintLine(l: Line): string {
    match l
    case Context(text) => " " + text
    case Removed(text) => "-" + text
    case Added(text) => "+" + text
    case NoNewline => "\\ No newline at end of file"
  }

  function PrintBody(body: seq<Line>): (lines: seq<string>)
    ensures |lines| == |body|
  {
    seq(|body|, i requires 0 <= i < |body| => PrintLine(body[i]))
  }

  function PrintHeader(h: HunkText): string {
    ("@@ -" + h.oldRange + " ") + "+" + Decimal(h.start) + (h.newCount + " @@" + h.section)
  }

  function PrintHunks(hunks: seq<HunkText>): seq<string> {
    if hunks == [] then []
    else
      var n := |hunks| - 1;
      PrintHunks(hunks[..n]) + [PrintHeader(hunks[n])] + PrintBody(hunks[n].body)
  }

  function PrintFile(f: FileDiff): seq<string> {
    ["diff --git " + f.names] + f.extended +
    (if f.side.Bare? then []
     else ["--- " + f.oldSide, "+++ " + if f.side.At? then "b/" + f.side.path else f.side.text]) +
    PrintHunks(f.hunks)
  }

  function Print(files: seq<FileDiff>): seq<string> {
    if files == [] then [] else Print(files[..|files| - 1]) + PrintFile(files[|files| - 1])
  }

  /** Lines such as `index`, `old mode` and `rename from` that stand before a file's hunks. */
  predicate Extended(line: string) {
    line == "" || (line[0] !in {'+', '-', '@'} && !StartsWith(line, "diff --git "))
  }

  /** The ranges are digits and commas. */
  predicate WellFormedHunk(h: HunkText) {
    '+' !in h.oldRange && (h.newCount == "" || h.newCount[0] == ',')
  }

  /** Content that prints like the path line of another file. */
  predicate NamesPath(l: Line) {
    l.Added? && StartsWith(l.text, "++ b/")
  }

  /** A file without sides has no hunks; one whose new side is not a path does not add a path line. */
  predicate WellFormed(f: FileDiff) {
    && (forall e | e in f.extended :: Extended(e))
    && (forall h | h in f.hunks :: WellFormedHunk(h))
    && (f.side.Bare? ==> f.hunks == [])
    && (f.side.Elsewhere? ==>
          && !StartsWith(f.side.text, "b/")
          && forall h | h in f.hunks :: forall l | l in h.body :: !NamesPath(l))
  }

  // ---- What the reader should give back --------------------------------------------------

  function RemovedTexts(body: seq<Line>): seq<string> {
    if body == [] then []
    else
      var l := body[|body| - 1];
      RemovedTexts(body[..|body| - 1]) + if l.Removed? then [l.text] else []
  }

  function AddedTexts(body: seq<Line>): seq<string> {
    if body == [] then []
    else
      var l := body[|body| - 1];
      AddedTexts(body[..|body| - 1]) + if l.Added? then [l.text] else []
  }

  function ExpectedHunk(path: string, h: HunkText): seq<Hunk> {
    if RemovedTexts(h.body) == [] && AddedTexts(h.body) == [] then []
    else [Hunk(path, h.start, RemovedTexts(h.body), AddedTexts(h.body))]
  }

  function ExpectedHunks(path: string, hunks: seq<HunkText>): seq<Hunk> {
    if hunks == [] then []
    else ExpectedHunks(path, hunks[..|hunks| - 1]) + ExpectedHunk(path, hunks[|hunks| - 1])
  }

  function ExpectedFile(f: FileDiff): seq<Hunk> {
    if f.side.At? then ExpectedHunks(f.side.path, f.hunks) else []
  }

  /** In order, the hunks with at least one changed line in the files that still exist. */
  function Expected(files: seq<FileDiff>): seq<Hunk> {
    if files == [] then [] else Expected(files[..|files| - 1]) + ExpectedFile(files[|files| - 1])
  }

  /** Content that prints like one of a file's two path lines. */
  predicate Masked(l: Line) {
    (l.Removed? && StartsWith(l.text, "-- ")) || (l.Added? && StartsWith(l.text, "++ "))
  }

  predicate CleanBody(body: seq<Line>) {
    forall l | l in body :: !Masked(l)
  }

  predicate CleanHunks(hunks: seq<HunkText>) {
    forall h | h in hunks :: CleanBody(h.body)
  }

  predicate CleanFile(f: FileDiff) {
    f.side.At? ==> CleanHunks(f.hunks)
  }

  predicate Clean(files: seq<FileDiff>) {
    forall f | f in files :: CleanFile(f)
  }

  // ---- Line by line ----------------------------------------------------------------------

  lemma FeedRemoved(p: Parser, text: string)
    ensures Feed(p, "-" + text) == if StartsWith(text, "-- ") then p else p.(removed := p.removed + [text])
  {
    var line := "-" + text;
    assert line[0] == '-' && line[1..] == text;
    MaskedLine('-', text);
  }

  lemma FeedAdded(p: Parser, text: string)
    ensures
      var q := Feed(p, "+" + text);
      if StartsWith(text, "++ ") then q == p.(path := q.path) && (!StartsWith(text, "++ b/") ==> q.path == None)
      else q == p.(added := p.added + [text])
  {
    var line := "+" + text;
    assert line[0] == '+' && line[1..] == text;
    MaskedLine('+', text);
    if StartsWith(line, "+++ b/") {
      assert text[..5] == line[..6][1..] == "++ b/";
    }
  }

  /** How the reader takes each kind of printed content line. */
  lemma FeedLine(p: Parser, l: Line)
    ensures
      var q := Feed(p, PrintLine(l));
      match l
      case Removed(text) => q == if Masked(l) then p else p.(removed := p.removed + [text])
      case Added(text) =>
        if Masked(l) then q == p.(path := q.path) && (!NamesPath(l) ==> q.path == None)
        else q == p.(added := p.added + [text])
      case _ => q == p
  {
    var line := PrintLine(l);
    match l
    case Removed(text) => FeedRemoved(p, text);
    case Added(text) => FeedAdded(p, text);
    case Context(text) =>
      assert line[0] == ' ';
    case NoNewline =>
      assert line[0] == '\\';
  }

  lemma MaskedLine(c: char, text: string)
    ensures StartsWith([c] + text, [c, c, c, ' ']) <==> StartsWith(text, [c, c, ' '])
  {
    var line := [c] + text;
    if |text| >= 3 {
      assert line[..4] == [c] + text[..3];
      assert text[..3] == line[..4][1..];
    }
  }

  lemma FeedHeader(p: Parser, h: HunkText)
    requires WellFormedHunk(h)
    ensures Feed(p, PrintHeader(h)) == Parser(p.path, h.start, [], [], Flushed(p))
  {
    var line := PrintHeader(h);
    assert line[0] == '@' && line[1] == '@';
    assert line[..2] == "@@";
    PlusNumberFinds("@@ -" + h.oldRange + " ", h.start, h.newCount + " @@" + h.section);
  }

  lemma BodySnoc(body: seq<Line>)
    requires body != []
    ensures PrintBody(body) == PrintBody(body[..|body| - 1]) + [PrintLine(body[|body| - 1])]
  {
  }

  lemma {:induction false} FeedBody(p: Parser, body: seq<Line>)
    requires CleanBody(body)
    ensures FeedAll(p, PrintBody(body)) ==
              p.(removed := p.removed + RemovedTexts(body), added := p.added + AddedTexts(body))
  {
    if body != [] {
      var n := |body| - 1;
      FeedBody(p, body[..n]);
      BodySnoc(body);
      FeedLine(FeedAll(p, PrintBody(body[..n])), body[n]);
      assert PrintBody(body)[..n] == PrintBody(body[..n]);
      assert !Masked(body[n]);
    }
  }

  lemma FeedHunksStep(p: Parser, hunks: seq<HunkText>)
    requires hunks != [] && WellFormedHunk(hunks[|hunks| - 1])
    ensures
      var n := |hunks| - 1;
      var q := FeedAll(p, PrintHunks(hunks[..n]));
      FeedAll(p, PrintHunks(hunks)) ==
        FeedAll(Parser(q.path, hunks[n].start, [], [], Flushed(q)), PrintBody(hunks[n].body))
  {
    var n := |hunks| - 1;
    var before, header := PrintHunks(hunks[..n]), [PrintHeader(hunks[n])];
    FeedAppend(p, before + header, PrintBody(hunks[n].body));
    FeedAppend(p, before, header);
    FeedOne(FeedAll(p, before), PrintHeader(hunks[n]));
    FeedHeader(FeedAll(p, before), hunks[n]);
  }

  lemma FeedHunk(q: Parser, path: string, h: HunkText)
    requires q.path == Some(path) && CleanBody(h.body)
    ensures
      var r := FeedAll(Parser(q.path, h.start, [], [], Flushed(q)), PrintBody(h.body));
      r.path == Some(path) && Flushed(r) == Flushed(q) + ExpectedHunk(path, h)
  {
    FeedBody(Parser(q.path, h.start, [], [], Flushed(q)), h.body);
    assert [] + RemovedTexts(h.body) == RemovedTexts(h.body) && [] + AddedTexts(h.body) == AddedTexts(h.body);
  }

  lemma {:induction false} FeedHunks(p: Parser, path: string, hunks: seq<HunkText>)
    requires p.path == Some(path) && Flushed(p) == []
    requires CleanHunks(hunks) && forall h | h in hunks :: WellFormedHunk(h)
    ensures
      var q := FeedAll(p, PrintHunks(hunks));
      q.path == Some(path) && Flushed(q) == ExpectedHunks(path, hunks)
    decreases |hunks|
  {
    if hunks != [] {
      var n := |hunks| - 1;
      FeedHunks(p, path, hunks[..n]);
      FeedHunksStep(p, hunks);
      FeedHunk(FeedAll(p, PrintHunks(hunks[..n])), path, hunks[n]);
    }
  }

  // ---- Files whose new side is not a path ------------------------------------------------

  lemma {:induction false} FeedBodyElsewhere(p: Parser, body: seq<Line>)
    requires p.path == None && forall l | l in body :: !NamesPath(l)
    ensures var q := FeedAll(p, PrintBody(body)); q.path == None && q.out == p.out
  {
    if body != [] {
      var n := |body| - 1;
      FeedBodyElsewhere(p, body[..n]);
      BodySnoc(body);
      FeedLine(FeedAll(p, PrintBody(body[..n])), body[n]);
      assert PrintBody(body)[..n] == PrintBody(body[..n]);
      assert !NamesPath(body[n]);
    }
  }

  lemma {:induction false} FeedHunksElsewhere(p: Parser, hunks: seq<HunkText>)
    requires p.path == None && p.out == []
    requires forall h | h in hunks :: WellFormedHunk(h) && forall l | l in h.body :: !NamesPath(l)
    ensures var q := FeedAll(p, PrintHunks(hunks)); q.path == None && q.out == []
    decreases |hunks|
  {
    if hunks != [] {
      var n := |hunks| - 1;
      FeedHunksElsewhere(p, hunks[..n]);
      FeedHunksStep(p, hunks);
      var q := FeedAll(p, PrintHunks(hunks[..n]));
      assert hunks[n] in hunks;
      FeedBodyElsewhere(Parser(q.path, hunks[n].start, [], [], Flushed(q)), hunks[n].body);
    }
  }

  // ---- Whole files -----------------------------------------------------------------------

  lemma {:induction false} FeedExtended(p: Parser, extended: seq<string>)
    requires forall e | e in extended :: Extended(e)
    ensures FeedAll(p, extended) == p
  {
    if extended != [] {
      var e := extended[|extended| - 1];
      assert e in extended;
      FeedExtended(p, extended[..|extended| - 1]);
    }
  }

  lemma FeedDiffLine(p: Parser, names: string)
    ensures Feed(p, "diff --git " + names) == Parser(None, 0, [], [], Flushed(p))
  {
    var line := "diff --git " + names;
    assert line[..11] == "diff --git ";
  }

  lemma PathLine(text: string)
    ensures StartsWith("+++ " + text, "+++ b/") <==> StartsWith(text, "b/")
  {
    var line := "+++ " + text;
    if |text| >= 2 {
      assert line[..6] == "+++ " + text[..2];
      assert text[..2] == line[..6][4..];
      assert "+++ b/"[4..] == "b/";
    }
  }

  lemma FeedSides(p: Parser, oldSide: string, side: Side)
    requires !side.Bare? && (side.Elsewhere? ==> !StartsWith(side.text, "b/"))
    ensures
      var plus := "+++ " + if side.At? then "b/" + side.path else side.text;
      FeedAll(p, ["--- " + oldSide, plus]) == p.(path := if side.At? then Some(side.path) else None)
  {
    var minus, plus := "--- " + oldSide, "+++ " + if side.At? then "b/" + side.path else side.text;
    var both := [minus, plus];
    FeedOne(p, minus);
    assert both[..1] == [minus];
    assert minus[..4] == "--- " && minus[0] == '-';
    assert plus[..4] == "+++ " && plus[0] == '+';
    if side.At? {
      assert plus == "+++ b/" + side.path;
      assert plus[..6] == "+++ b/" && plus[6..] == side.path;
    } else {
      PathLine(side.text);
    }
  }

  /** The reader's state when a file's hunks begin. */
  function AtHunks(f: FileDiff): Parser {
    FRESH.(path := if f.side.At? then Some(f.side.path) else None)
  }

  lemma FeedFile(p: Parser, f: FileDiff)
    requires WellFormed(f)
    ensures FeedAll(p, PrintFile(f)) == Behind(Flushed(p), FeedAll(AtHunks(f), PrintHunks(f.hunks)))
  {
    var first := ["diff --git " + f.names];
    var sides := if f.side.Bare? then []
                 else ["--- " + f.oldSide, "+++ " + if f.side.At? then "b/" + f.side.path else f.side.text];
    FeedAppend(p, first + f.extended + sides, PrintHunks(f.hunks));
    FeedAppend(p, first + f.extended, sides);
    FeedAppend(p, first, f.extended);
    FeedOne(p, "diff --git " + f.names);
    FeedDiffLine(p, f.names);
    var reset := Parser(None, 0, [], [], Flushed(p));
    FeedExtended(reset, f.extended);
    if !f.side.Bare? {
      FeedSides(reset, f.oldSide, f.side);
    }
    assert FeedAll(p, first + f.extended + sides) == Behind(Flushed(p), AtHunks(f));
    FeedBehind(Flushed(p), AtHunks(f), PrintHunks(f.hunks));
  }

  function FileHunks(f: FileDiff): seq<Hunk> {
    Flushed(FeedAll(AtHunks(f), PrintHunks(f.hunks)))
  }

  lemma {:induction false} ReadByFile(files: seq<FileDiff>)
    requires files != [] && WellFormed(files[|files| - 1])
    ensures Read(Print(files)) == Read(Print(files[..|files| - 1])) + FileHunks(files[|files| - 1])
  {
    var n := |files| - 1;
    var p := FeedAll(FRESH, Print(files[..n]));
    FeedAppend(FRESH, Print(files[..n]), PrintFile(files[n]));
    FeedFile(p, files[n]);
    FlushedBehind(Flushed(p), FeedAll(AtHunks(files[n]), PrintHunks(files[n].hunks)));
  }

  lemma CleanFileHunks(f: FileDiff)
    requires WellFormed(f) && CleanFile(f)
    ensures FileHunks(f) == ExpectedFile(f)
  {
    match f.side
    case At(path) => FeedHunks(AtHunks(f), path, f.hunks);
    case Elsewhere(_) => FeedHunksElsewhere(AtHunks(f), f.hunks);
    case Bare =>
  }

  // ---- Masked lines are always lost ------------------------------------------------------

  function Total(hunks: seq<Hunk>): nat {
    if hunks == [] then 0
    else Total(hunks[..|hunks| - 1]) + |hunks[|hunks| - 1].removed| + |hunks[|hunks| - 1].added|
  }

  function Changed(l: Line): nat {
    if l.Removed? || l.Added? then 1 else 0
  }

  /** Changed lines, all of them or only those that are not masked. */
  function Lines(body: seq<Line>, unmasked: bool): nat {
    if body == [] then 0
    else
      var l := body[|body| - 1];
      Lines(body[..|body| - 1], unmasked) + if unmasked && Masked(l) then 0 else Changed(l)
  }

  function HunkLines(hunks: seq<HunkText>, unmasked: bool): nat {
    if hunks == [] then 0
    else HunkLines(hunks[..|hunks| - 1], unmasked) + Lines(hunks[|hunks| - 1].body, unmasked)
  }

  lemma {:induction false} TotalAppend(a: seq<Hunk>, b: seq<Hunk>)
    ensures Total(a + b) == Total(a) + Total(b)
  {
    if b == [] {
      assert a + b == a;
    } else {
      var n := |b| - 1;
      TotalAppend(a, b[..n]);
      assert (a + b)[..|a + b| - 1] == a + b[..n];
    }
  }

  lemma TotalOne(h: Hunk)
    ensures Total([h]) == |h.removed| + |h.added|
  {
    assert [h][..0] == [];
  }

  function Held(p: Parser): nat {
    Total(p.out) + |p.removed| + |p.added|
  }

  lemma FlushedHolds(p: Parser)
    ensures Total(Flushed(p)) <= Held(p)
  {
    if p.path.Some? && (p.removed != [] || p.added != []) {
      var h := Hunk(p.path.value, p.start, p.removed, p.added);
      TotalAppend(p.out, [h]);
      TotalOne(h);
    }
  }

  lemma {:induction false} BodyHolds(p: Parser, body: seq<Line>)
    ensures Held(FeedAll(p, PrintBody(body))) <= Held(p) + Lines(body, true)
  {
    if body != [] {
      var n := |body| - 1;
      BodyHolds(p, body[..n]);
      BodySnoc(body);
      FeedLine(FeedAll(p, PrintBody(body[..n])), body[n]);
      assert PrintBody(body)[..n] == PrintBody(body[..n]);
    }
  }

  lemma {:induction false} HunksHold(p: Parser, hunks: seq<HunkText>)
    requires forall h | h in hunks :: WellFormedHunk(h)
    ensures Held(FeedAll(p, PrintHunks(hunks))) <= Held(p) + HunkLines(hunks, true)
    decreases |hunks|
  {
    if hunks != [] {
      var n := |hunks| - 1;
      HunksHold(p, hunks[..n]);
      FeedHunksStep(p, hunks);
      var q := FeedAll(p, PrintHunks(hunks[..n]));
      FlushedHolds(q);
      BodyHolds(Parser(q.path, hunks[n].start, [], [], Flushed(q)), hunks[n].body);
    }
  }

  lemma {:induction false} TextsCount(body: seq<Line>)
    ensures |RemovedTexts(body)| + |AddedTexts(body)| == Lines(body, false)
    ensures Lines(body, true) <= Lines(body, false)
    ensures Lines(body, true) == Lines(body, false) <==> CleanBody(body)
  {
    if body != [] {
      var n := |body| - 1;
      TextsCount(body[..n]);
      assert CleanBody(body) <==> CleanBody(body[..n]) && !Masked(body[n]) by {
        assert body == body[..n] + [body[n]];
      }
    }
  }

  lemma HunkCount(path: string, h: HunkText)
    ensures Total(ExpectedHunk(path, h)) == Lines(h.body, false)
  {
    TextsCount(h.body);
    if ExpectedHunk(path, h) != [] {
      TotalOne(ExpectedHunk(path, h)[0]);
    }
  }

  lemma CleanSnoc(hunks: seq<HunkText>)
    requires hunks != []
    ensures CleanHunks(hunks) <==> CleanHunks(hunks[..|hunks| - 1]) && CleanBody(hunks[|hunks| - 1].body)
  {
    assert hunks == hunks[..|hunks| - 1] + [hunks[|hunks| - 1]];
  }

  lemma {:induction false} ExpectedCount(path: string, hunks: seq<HunkText>)
    ensures Total(ExpectedHunks(path, hunks)) == HunkLines(hunks, false)
    ensures HunkLines(hunks, true) <= HunkLines(hunks, false)
    ensures HunkLines(hunks, true) == HunkLines(hunks, false) <==> CleanHunks(hunks)
    decreases |hunks|
  {
    if hunks != [] {
      var n := |hunks| - 1;
      ExpectedCount(path, hunks[..n]);
      HunkCount(path, hunks[n]);
      TextsCount(hunks[n].body);
      CleanSnoc(hunks);
      TotalAppend(ExpectedHunks(path, hunks[..n]), ExpectedHunk(path, hunks[n]));
    }
  }

  /** A file with masked content comes back with fewer changed lines. */
  lemma FileTotal(f: FileDiff)
    requires WellFormed(f)
    ensures Total(FileHunks(f)) <= Total(ExpectedFile(f))
    ensures !CleanFile(f) ==> Total(FileHunks(f)) < Total(ExpectedFile(f))
  {
    if CleanFile(f) {
      CleanFileHunks(f);
    } else {
      ExpectedCount(f.side.path, f.hunks);
      HunksHold(AtHunks(f), f.hunks);
      FlushedHolds(FeedAll(AtHunks(f), PrintHunks(f.hunks)));
    }
  }

  lemma CleanFilesSnoc(files: seq<FileDiff>)
    requires files != []
    ensures Clean(files) <==> Clean(files[..|files| - 1]) && CleanFile(files[|files| - 1])
  {
    assert files == files[..|files| - 1] + [files[|files| - 1]];
  }

  lemma {:induction false} ReadTotal(files: seq<FileDiff>)
    requires forall f | f in files :: WellFormed(f)
    ensures Total(Read(Print(files))) <= Total(Expected(files))
    ensures !Clean(files) ==> Total(Read(Print(files))) < Total(Expected(files))
  {
    if files != [] {
      var n := |files| - 1;
      ReadTotal(files[..n]);
      ReadByFile(files);
      FileTotal(files[n]);
      TotalAppend(Read(Print(files[..n])), FileHunks(files[n]));
      TotalAppend(Expected(files[..n]), ExpectedFile(files[n]));
      CleanFilesSnoc(files);
    }
  }

  lemma {:induction false} ReaderUndoesPrinter(files: seq<FileDiff>)
    requires Clean(files) && forall f | f in files :: WellFormed(f)
    ensures Read(Print(files)) == Expected(files)
  {
    if files != [] {
      var n := |files| - 1;
      ReaderUndoesPrinter(files[..n]);
      ReadByFile(files);
      CleanFileHunks(files[n]);
    }
  }

  /**
   Reading a printed diff gives back exactly the hunks with a changed line, in order, with path,
   start and both line lists intact, if and only if no removed content starts with "-- " and no
   added content starts with "++ " in a file that still exists.
   */
  lemma {:induction false} ReaderUndoesPrinterIff(files: seq<FileDiff>)
    requires forall f | f in files :: WellFormed(f)
    ensures Read(Print(files)) == Expected(files) <==> Clean(files)
  {
    ReadTotal(files);
    if Clean(files) {
      ReaderUndoesPrinter(files);
    }
  }
}
