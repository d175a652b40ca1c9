/** Octets, as the packets and hashes are made of. */
module Bytes {
  type byte = x: int | 0 <= x < 256

  function Zeros(n: nat): (s: seq<byte>)
    ensures |s| == n && forall i :: 0 <= i < n ==> s[i] == 0
  {
    seq<byte>(n, i => 0)
  }
}
