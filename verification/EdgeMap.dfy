/** The trace-pc backend: a saturating map of hashed edges, reset between runs. */
module EdgeMap {
  import opened Bytes

  const MAP_LEN := 0x1_0000

  /** Bitwise exclusive or. */
  function Xor(a: nat, b: nat): nat {
    if a == 0 && b == 0 then 0 else (a % 2 + b % 2) % 2 + 2 * Xor(a / 2, b / 2)
  }

  /** A return address folded to a location: `(pc >> 4) ^ (pc >> 12)`. */
  function Fold(pc: nat): nat {
    Xor(pc / 16, pc / 4096)
  }

  /** The cell an edge from the shifted previous location into `cur` hashes to. */
  function Cell(cur: nat, prev: nat): (c: nat)
    ensures c < MAP_LEN
  {
    Xor(cur, prev) % MAP_LEN
  }

  /** The word kept for the next edge: the last location, shifted right by one. */
  function PrevAfter(prev: nat, pcs: seq<nat>): nat {
    if pcs == [] then prev else Fold(pcs[|pcs| - 1]) / 2
  }

  /** The cells of the edges of a trace, in order. */
  function Edges(prev: nat, pcs: seq<nat>): (cells: seq<nat>)
    ensures |cells| == |pcs| && forall c | c in cells :: c < MAP_LEN
    decreases |pcs|
  {
    if pcs == [] then []
    else
      var n := |pcs| - 1;
      Edges(prev, pcs[..n]) + [Cell(Fold(pcs[n]), PrevAfter(prev, pcs[..n]))]
  }

  /** How many edges of a trace hash to cell `c`. */
  function Hits(cells: seq<nat>, c: nat): nat {
    multiset(cells)[c]
  }

  function Bump(b: byte): byte {
    if b < 255 then b + 1 else b
  }

  /** What one edge does to the map and the previous location. */
  datatype Trail = Trail(cells: seq<byte>, prev: nat)

  function Fresh(): (t: Trail)
    ensures |t.cells| == MAP_LEN
  {
    Trail(seq(MAP_LEN, _ => 0 as byte), 0)
  }

  function Traced(t: Trail, pc: nat): (r: Trail)
    requires |t.cells| == MAP_LEN
    ensures |r.cells| == MAP_LEN
  {
    var c := Cell(Fold(pc), t.prev);
    var cells: seq<byte> := t.cells[c := Bump(t.cells[c])];
    Trail(cells, Fold(pc) / 2)
  }

  function TraceAll(t: Trail, pcs: seq<nat>): (r: Trail)
    requires |t.cells| == MAP_LEN
    ensures |r.cells| == MAP_LEN
    decreases |pcs|
  {
    if pcs == [] then t else Traced(TraceAll(t, pcs[..|pcs| - 1]), pcs[|pcs| - 1])
  }

  lemma HitsNext(cells: seq<nat>, d: nat, c: nat)
    ensures Hits(cells + [d], c) == Hits(cells, c) + if c == d then 1 else 0
  {
  }

  lemma {:induction false} TraceFrom(t: Trail, pcs: seq<nat>, c: nat)
    requires |t.cells| == MAP_LEN && c < MAP_LEN
    ensures
      var r := TraceAll(t, pcs);
      r.prev == PrevAfter(t.prev, pcs) && r.cells[c] == Min(255, t.cells[c] + Hits(Edges(t.prev, pcs), c))
    decreases |pcs|
  {
    if pcs != [] {
      var n := |pcs| - 1;
      TraceFrom(t, pcs[..n], c);
      HitsNext(Edges(t.prev, pcs[..n]), Cell(Fold(pcs[n]), PrevAfter(t.prev, pcs[..n])), c);
    }
  }

  /** After any trace of a fresh process each cell holds the number of its edges, saturated at 255. */
  lemma {:induction false} CellsCountEdges(pcs: seq<nat>, c: nat)
    requires c < MAP_LEN
    ensures TraceAll(Fresh(), pcs).cells[c] == Min(255, Hits(Edges(0, pcs), c))
  {
    TraceFrom(Fresh(), pcs, c);
  }

  // ---- Which cell an edge hashes to, bit by bit ------------------------------------------

  function Bit(a: nat, i: nat): nat
    decreases i
  {
    if i == 0 then a % 2 else Bit(a / 2, i - 1)
  }

  lemma {:induction false} ZeroBit(i: nat)
    ensures Bit(0, i) == 0
  {
    if i > 0 {
      ZeroBit(i - 1);
    }
  }

  /** A bit of an exclusive or is set iff exactly one of the two is. */
  lemma {:induction false} XorBit(a: nat, b: nat, i: nat)
    ensures Bit(Xor(a, b), i) == 1 <==> Bit(a, i) + Bit(b, i) == 1
    ensures Bit(Xor(a, b), i) == (Bit(a, i) + Bit(b, i)) % 2
    decreases i
  {
    if a == 0 && b == 0 {
      ZeroBit(i);
    } else if i > 0 {
      assert Xor(a, b) / 2 == Xor(a / 2, b / 2);
      XorBit(a / 2, b / 2, i - 1);
    } else {
      assert Xor(a, b) % 2 == (a % 2 + b % 2) % 2;
    }
  }

  lemma BitAbove(a: nat, i: nat)
    ensures Bit(a / 16, i) == Bit(a, i + 4)
  {
    assert Bit(a, i + 4) == Bit(a / 2, i + 3) == Bit(a / 2 / 2, i + 2) == Bit(a / 2 / 2 / 2, i + 1);
    assert a / 2 / 2 / 2 / 2 == a / 16;
  }

  /** Bit i of a folded address is the exclusive or of its bits i + 4 and i + 12. */
  lemma FoldBit(pc: nat, i: nat)
    ensures Bit(Fold(pc), i) == (Bit(pc, i + 4) + Bit(pc, i + 12)) % 2
  {
    XorBit(pc / 16, pc / 4096, i);
    BitAbove(pc, i);
    assert pc / 4096 == pc / 16 / 16 / 16;
    BitAbove(pc / 16 / 16, i);
    BitAbove(pc / 16, i + 4);
    BitAbove(pc, i + 8);
  }

  /** The low `n` bits. */
  function Low(a: nat, n: nat): nat
    decreases n
  {
    if n == 0 then 0 else a % 2 + 2 * Low(a / 2, n - 1)
  }

  lemma {:induction false} LowBit(a: nat, n: nat, i: nat)
    requires i < n
    ensures Bit(Low(a, n), i) == Bit(a, i)
    decreases n
  {
    assert Low(a, n) % 2 == a % 2 && Low(a, n) / 2 == Low(a / 2, n - 1);
    if i > 0 {
      LowBit(a / 2, n - 1, i - 1);
    }
  }

  lemma LowFour(a: nat, n: nat)
    requires n == 4
    ensures Low(a, n) == a % 16
  {
    LowAbove(a, n - 4);
  }

  lemma LowAbove(a: nat, n: nat)
    ensures Low(a, n + 4) == a % 16 + 16 * Low(a / 16, n)
  {
    assert Low(a, n + 4) == a % 2 + 2 * Low(a / 2, n + 3);
    assert Low(a / 2, n + 3) == a / 2 % 2 + 2 * Low(a / 2 / 2, n + 2);
    assert Low(a / 2 / 2, n + 2) == a / 2 / 2 % 2 + 2 * Low(a / 2 / 2 / 2, n + 1);
    assert Low(a / 2 / 2 / 2, n + 1) == a / 2 / 2 / 2 % 2 + 2 * Low(a / 2 / 2 / 2 / 2, n);
    assert a / 2 / 2 / 2 / 2 == a / 16;
  }

  lemma LowSixteen(a: nat, n: nat)
    requires n == 16
    ensures Low(a, n) == a % 0x1_0000
  {
    var b, c := a / 16, a / 16 / 16;
    LowAbove(a, n - 4);
    LowAbove(b, n - 8);
    LowAbove(c, n - 12);
    LowFour(c / 16, n - 12);
    LowJoins(a);
  }

  lemma LowJoins(a: nat)
    ensures a % 16 + 16 * (a / 16 % 16 + 16 * (a / 16 / 16 % 16 + 16 * (a / 16 / 16 / 16 % 16))) == a % 0x1_0000
  {
    var b := a / 16;
    var c := b / 16;
    assert c % 256 == c % 16 + 16 * (c / 16 % 16);
    assert b % 4096 == b % 16 + 16 * (c % 256);
    assert a % 0x1_0000 == a % 16 + 16 * (b % 4096);
  }

  /** Sixteen bits determine a cell. */
  lemma {:induction false} BitsDetermine(a: nat, b: nat, n: nat)
    requires forall i: nat | i < n :: Bit(a, i) == Bit(b, i)
    ensures Low(a, n) == Low(b, n)
    decreases n
  {
    if n > 0 {
      assert Bit(a, 0) == Bit(b, 0);
      forall i: nat | i < n - 1
        ensures Bit(a / 2, i) == Bit(b / 2, i)
      {
        assert Bit(a, i + 1) == Bit(b, i + 1);
      }
      BitsDetermine(a / 2, b / 2, n - 1);
    }
  }

  lemma {:induction false} EdgesAt(prev: nat, pcs: seq<nat>, k: nat)
    requires k < |pcs|
    ensures Edges(prev, pcs)[k] == Cell(Fold(pcs[k]), PrevAfter(prev, pcs[..k]))
    decreases |pcs|
  {
    var n := |pcs| - 1;
    if k < n {
      EdgesAt(prev, pcs[..n], k);
      assert pcs[..n][..k] == pcs[..k];
    }
  }

  /**
   The cell of an edge is the low 16 bits of the folded address exclusive-or the previous folded
   address shifted right by one. In terms of the return addresses: bit i is the exclusive or of
   bits i + 4 and i + 12 of this one and of bits i + 5 and i + 13 of the one before, if any.
   */
  lemma {:induction false} EdgeBits(pcs: seq<nat>, k: nat, i: nat)
    requires k < |pcs| && i < 16
    ensures Edges(0, pcs)[k] < 0x1_0000
    ensures
      Bit(Edges(0, pcs)[k], i) == (Bit(pcs[k], i + 4) + Bit(pcs[k], i + 12) + BitsBefore(pcs, k, i)) % 2
  {
    EdgesAt(0, pcs, k);
    assert Edges(0, pcs)[k] in Edges(0, pcs);
    EdgeBit(pcs, k, i);
  }

  lemma EdgeBit(pcs: seq<nat>, k: nat, i: nat)
    requires k < |pcs| && i < 16
    ensures
      Bit(Cell(Fold(pcs[k]), PrevAfter(0, pcs[..k])), i)
        == (Bit(pcs[k], i + 4) + Bit(pcs[k], i + 12) + BitsBefore(pcs, k, i)) % 2
  {
    CellBit(Fold(pcs[k]), PrevAfter(0, pcs[..k]), i, 16);
    FoldBit(pcs[k], i);
    PrevBit(pcs, k, i);
    Parity(Bit(pcs[k], i + 4) + Bit(pcs[k], i + 12), BitsBefore(pcs, k, i));
  }

  lemma Parity(x: nat, y: nat)
    ensures (x % 2 + y % 2) % 2 == (x + y) % 2
  {
  }

  /** Bits of the address before this one, shifted right by one more. */
  function BitsBefore(pcs: seq<nat>, k: nat, i: nat): nat
    requires k < |pcs|
  {
    if k == 0 then 0 else Bit(pcs[k - 1], i + 5) + Bit(pcs[k - 1], i + 13)
  }

  lemma PrevBit(pcs: seq<nat>, k: nat, i: nat)
    requires k < |pcs|
    ensures Bit(PrevAfter(0, pcs[..k]), i) == BitsBefore(pcs, k, i) % 2
  {
    if k == 0 {
      ZeroBit(i);
    } else {
      assert PrevAfter(0, pcs[..k]) == Fold(pcs[k - 1]) / 2;
      FoldBit(pcs[k - 1], i + 1);
    }
  }

  lemma CellBit(cur: nat, prev: nat, i: nat, n: nat)
    requires i < n == 16
    ensures Bit(Cell(cur, prev), i) == (Bit(cur, i) + Bit(prev, i)) % 2
  {
    LowSixteen(Xor(cur, prev), n);
    LowBit(Xor(cur, prev), n, i);
    XorBit(cur, prev, i);
  }

  /** Zeroing the cells alone: what a reset that kept the previous location would leave. */
  function Cleared(t: Trail): Trail {
    Fresh().(prev := t.prev)
  }

  /**
   The reset of the previous location is needed: without it some run's map depends on the run
   before it.
   */
  lemma StalePreviousLeaks()
    ensures TraceAll(Cleared(TraceAll(Fresh(), [32])), [0]).cells != TraceAll(Fresh(), [0]).cells
  {
    assert [32][..0] == [] && [0][..0] == [];
    assert Fold(32) == 2 by { XorZero(2); }
    assert Fold(0) == 0;
    XorZero(1);
    var stale := Cleared(TraceAll(Fresh(), [32]));
    assert stale.prev == 1;
    assert Cell(0, 1) == 1 && Cell(0, 0) == 0;
    assert TraceAll(stale, [0]).cells[1] == 1 && TraceAll(Fresh(), [0]).cells[1] == 0;
  }

  lemma XorZero(a: nat)
    ensures Xor(a, 0) == a && Xor(0, a) == a
  {
  }

  class Map {
    const cells: array<byte>
    var prev: nat

    constructor ()
      ensures Valid() && fresh(cells) && State() == Fresh()
    {
      cells := new byte[MAP_LEN](_ => 0);
      prev := 0;
    }

    ghost predicate Valid() {
      cells.Length == MAP_LEN
    }

    ghost function State(): Trail
      reads this, cells
    {
      Trail(cells[..], prev)
    }

    /** One instrumented edge. */
    method Trace(pc: nat)
      requires Valid()
      modifies this`prev, cells
      ensures State() == Traced(old(State()), pc)
    {
      var cur := Fold(pc);
      var idx := Cell(cur, prev);
      if cells[idx] < 255 {
        cells[idx] := cells[idx] + 1;
      }
      prev := cur / 2;
    }

    /** Zeroes the map and the previous location: whatever ran before, the process is as if fresh. */
    method Reset()
      requires Valid()
      modifies this`prev, cells
      ensures State() == Fresh()
    {
      for i := 0 to cells.Length
        invariant forall c | 0 <= c < i :: cells[c] == 0
      {
        cells[i] := 0;
      }
      prev := 0;
    }
  }
}
