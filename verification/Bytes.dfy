/** Bytes, fixed-size MACs and nonces, and the C string helpers the store uses. */
module Bytes {

  type byte = b: int | 0 <= b < 256

  /** Size in bytes of a MAC and of a nonce-plus-counter block. */
  const BLOCK: nat := 16

  type Mac = m: seq<byte> | |m| == 16 witness seq(16, i => 0)
  type Nac = n: seq<byte> | |n| == 16 witness seq(16, i => 0)

  const NUL: byte := 0
  const SPACE: byte := 32

  /** A C string without its terminator: no byte of it is NUL. */
  predicate NulFree(s: seq<byte>) {
    forall i :: 0 <= i < |s| ==> s[i] != NUL
  }

  /** The number of leading bytes of s before the first occurrence of stop. */
  function Until(s: seq<byte>, stop: byte): (n: nat)
    ensures n <= |s|
    ensures forall i :: 0 <= i < n ==> s[i] != stop
    ensures n < |s| ==> s[n] == stop
  {
    if s == [] || s[0] == stop then 0 else 1 + Until(s[1..], stop)
  }

  /** The number of leading bytes of s equal to b. */
  function Leading(s: seq<byte>, b: byte): (n: nat)
    ensures n <= |s|
    ensures forall i :: 0 <= i < n ==> s[i] == b
    ensures n < |s| ==> s[n] != b
  {
    if s == [] || s[0] != b then 0 else 1 + Leading(s[1..], b)
  }

  /** A zeroed buffer of n bytes with s copied to its front. */
  function Padded(s: seq<byte>, n: nat): (r: seq<byte>)
    requires |s| <= n
    ensures |r| == n && s <= r && forall i :: |s| <= i < n ==> r[i] == NUL
  {
    s + seq(n - |s|, i => NUL)
  }

  /** The four little-endian bytes of a 32-bit unsigned integer. */
  function Le32(n: nat): (r: seq<byte>)
    ensures |r| == 4
  {
    [n % 256, n / 256 % 256, n / 65536 % 256, n / 16777216 % 256]
  }

  /** The integer with the given little-endian bytes. */
  function FromLe32(s: seq<byte>): nat
    requires |s| == 4
  {
    (s[0] as int) + 256 * (s[1] as int) + 65536 * (s[2] as int) + 16777216 * (s[3] as int)
  }

  lemma Le32RoundTrip(n: nat)
    requires n < 0x1_0000_0000
    ensures FromLe32(Le32(n)) == n
  {
    assert n / 256 / 256 == n / 65536 && n / 65536 / 256 == n / 16777216;
  }

  /** The concatenation of a list of MACs, in order. */
  function Flat(ms: seq<Mac>): (r: seq<byte>)
    ensures |r| == BLOCK * |ms|
  {
    if ms == [] then [] else Flat(ms[..|ms| - 1]) + ms[|ms| - 1]
  }
}
