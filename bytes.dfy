/** Byte buffers as the Go code handles them: zeroed slices from `make`
    and the XOR that the stream cipher applies to them. */
module Bytes {

  type byte = bv8

  /** A freshly made slice of n bytes: every byte is zero. */
  function Zeros(n: nat): (z: seq<byte>)
    ensures |z| == n
  {
    seq(n, _ => 0)
  }

  /** Byte-wise XOR of two slices of the same length. */
  function Xor(a: seq<byte>, b: seq<byte>): (r: seq<byte>)
    requires |a| == |b|
    ensures |r| == |a|
  {
    seq(|a|, i requires 0 <= i < |a| => a[i] ^ b[i])
  }

  /** XOR into a zeroed buffer leaves exactly the other operand. */
  lemma XorZeros(b: seq<byte>)
    ensures Xor(Zeros(|b|), b) == b
  {
    assert forall i :: 0 <= i < |b| ==> Xor(Zeros(|b|), b)[i] == b[i];
  }

  /** XOR with the same bytes twice is the identity: the seed that rekeying
      derives determines the raw data it was made from, and back. */
  lemma XorInvolution(a: seq<byte>, b: seq<byte>)
    requires |a| == |b|
    ensures Xor(Xor(a, b), b) == a
  {
    assert forall i :: 0 <= i < |a| ==> Xor(Xor(a, b), b)[i] == a[i];
  }

  /** XOR distributes over concatenation of equal-length pieces. */
  lemma XorConcat(a1: seq<byte>, a2: seq<byte>, b1: seq<byte>, b2: seq<byte>)
    requires |a1| == |b1| && |a2| == |b2|
    ensures Xor(a1 + a2, b1 + b2) == Xor(a1, b1) + Xor(a2, b2)
  {
    var l, r := Xor(a1 + a2, b1 + b2), Xor(a1, b1) + Xor(a2, b2);
    forall i | 0 <= i < |l|
      ensures l[i] == r[i]
    {
      if i < |a1| {
        assert l[i] == a1[i] ^ b1[i];
      } else {
        assert l[i] == a2[i - |a1|] ^ b2[i - |a1|];
      }
    }
  }
}
