/** Fixed-width little-endian fields. */
module LittleEndian {
  import opened Bytes

  function Pow256(n: nat): (r: nat)
    ensures r > 0
  {
    if n == 0 then 1 else 256 * Pow256(n - 1)
  }

  /** The low byte of `v` shifted right by `i` bytes. */
  function Digit(v: nat, i: nat): byte
    decreases i
  {
    if i == 0 then v % 256 else Digit(v / 256, i - 1)
  }

  /** The low `n` bytes of `v`, least significant first. */
  function Put(v: nat, n: nat): (s: seq<byte>)
    ensures |s| == n
  {
    seq(n, i requires 0 <= i < n => Digit(v, i))
  }

  lemma PutNext(v: nat, n: nat)
    requires n > 0
    ensures Put(v, n) == [(v % 256) as byte] + Put(v / 256, n - 1)
  {
  }

  lemma PutOne(v: nat)
    requires v < 256
    ensures Put(v, 1) == [v as byte]
  {
  }

  function Get(s: seq<byte>): nat {
    if s == [] then 0 else s[0] + 256 * Get(s[1..])
  }

  lemma {:induction false} GetBound(s: seq<byte>)
    ensures Get(s) < Pow256(|s|)
  {
    if s != [] {
      GetBound(s[1..]);
    }
  }

  lemma {:induction false} GetPut(v: nat, n: nat)
    requires v < Pow256(n)
    ensures Get(Put(v, n)) == v
    decreases n
  {
    if n > 0 {
      GetPut(v / 256, n - 1);
      PutNext(v, n);
    }
  }

  lemma {:induction false} PutGet(s: seq<byte>)
    ensures Put(Get(s), |s|) == s
  {
    if s != [] {
      PutGet(s[1..]);
      PutNext(Get(s), |s|);
      assert Get(s) % 256 == s[0] && Get(s) / 256 == Get(s[1..]);
    }
  }

  /** Two different fields of one width hold different values. */
  lemma GetDiffers(s: seq<byte>, t: seq<byte>)
    requires |s| == |t| && s != t
    ensures Get(s) != Get(t)
  {
    PutGet(s);
    PutGet(t);
  }

  lemma Pow256Values()
    ensures Pow256(1) == 256 && Pow256(4) == TWO_32 && Pow256(8) == TWO_32 * TWO_32
  {
    assert Pow256(1) == 256 * Pow256(0);
    assert Pow256(2) == 256 * Pow256(1);
    assert Pow256(3) == 256 * Pow256(2);
    assert Pow256(4) == 256 * Pow256(3);
    assert Pow256(5) == 256 * Pow256(4);
    assert Pow256(6) == 256 * Pow256(5);
    assert Pow256(7) == 256 * Pow256(6);
    assert Pow256(8) == 256 * Pow256(7);
  }

  /** A little-endian word, written out. */
  function Word(s: seq<byte>): nat
    requires |s| == 4
  {
    s[0] as int + 0x100 * (s[1] as int) + 0x1_0000 * (s[2] as int) + 0x100_0000 * (s[3] as int)
  }

  /** The least significant byte comes first. */
  lemma GetFour(s: seq<byte>)
    requires |s| == 4
    ensures Get(s) == Word(s)
  {
    assert Get(s) == s[0] + 256 * Get(s[1..]);
    assert Get(s[1..]) == s[1] + 256 * Get(s[1..][1..]);
    assert s[1..][1..] == s[2..] && s[2..][1..] == s[3..] && s[3..][1..] == [];
    assert Get(s[2..]) == s[2] + 256 * Get(s[3..]);
    assert Get(s[3..]) == s[3];
  }

  lemma GetEight(s: seq<byte>)
    requires |s| == 8
    ensures Get(s) == Get(s[..4]) + TWO_32 * Get(s[4..])
  {
    GetAppend(s[..4], s[4..]);
    assert s == s[..4] + s[4..];
    Pow256Values();
  }

  lemma {:induction false} GetAppend(a: seq<byte>, b: seq<byte>)
    ensures Get(a + b) == Get(a) + Pow256(|a|) * Get(b)
  {
    if a == [] {
      assert a + b == b;
    } else {
      assert (a + b)[1..] == a[1..] + b;
      GetAppend(a[1..], b);
      Scaled(Pow256(|a| - 1), Get(b));
    }
  }

  lemma Scaled(p: nat, g: nat)
    ensures 256 * (p * g) == (256 * p) * g
  {
  }
}
