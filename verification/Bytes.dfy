/** Byte strings shared by the parsers and packetizers. */
module Bytes {
  type byte = x: int | 0 <= x < 256

  /** A run of n zero bytes. */
  function Zeros(n: nat): (z: seq<byte>)
    ensures |z| == n && forall i :: 0 <= i < n ==> z[i] == 0
  {
    seq(n, i => 0)
  }

  /** Moving one element across a boundary. */
  lemma Shift<T>(a: seq<T>, x: T, b: seq<T>)
    ensures a + ([x] + b) == (a + [x]) + b
  {
  }
}
