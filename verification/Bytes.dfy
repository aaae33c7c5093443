/** Bytes, 32-bit arithmetic and the little-endian fields shared by every format. */
module Bytes {
  type byte = x: int | 0 <= x < 256

  const TWO_32 := 0x1_0000_0000

  /** How often a read looks for a stable generation before it gives up. */
  const READ_ATTEMPTS := 4

  datatype Option<+T> = None | Some(value: T)

  function Min(a: int, b: int): int {
    if a < b then a else b
  }

  function Max(a: int, b: int): int {
    if a > b then a else b
  }

  /** Counting modulo 2^32. */
  lemma NextWord(n: nat)
    ensures (n % TWO_32 + 1) % TWO_32 == (n + 1) % TWO_32
  {
  }

  /** The first `n` elements of `s`, or all of them when there are fewer. */
  function Take<T>(s: seq<T>, n: nat): seq<T> {
    s[..Min(|s|, n)]
  }

  function Zeros(n: nat): seq<byte> {
    seq(n, _ => 0 as byte)
  }

  function UpTo(n: nat): (all: set<nat>)
    ensures |all| == n && forall x: nat :: x in all <==> x < n
  {
    if n == 0 then {} else UpTo(n - 1) + {n - 1}
  }
}
