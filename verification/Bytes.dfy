/** Bytes as numbers. */
module Bytes {
  type Byte = b: int | 0 <= b < 256

  function AsBits(s: seq<Byte>): (r: seq<bv8>)
    ensures |r| == |s| && forall i :: 0 <= i < |s| ==> r[i] == s[i] as bv8
  {
    seq(|s|, i requires 0 <= i < |s| => s[i] as bv8)
  }
}
