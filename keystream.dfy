/** The stream cipher (ChaCha20 from golang.org/x/crypto/chacha20) as the
    wrapper sees it: a keystream selected by a key and a nonce, read through
    a cursor that advances by exactly the number of bytes XORed. The cipher's
    internals are foreign; a `Keystream` value stands for them, and nothing
    proved here depends on which function it is. */
module Keystream {
  import opened Bytes

  const KeySize: nat := 32
  const NonceSize: nat := 12

  /** The keystream byte at a position, for a key and a nonce. */
  type Keystream = (seq<byte>, seq<byte>, nat) -> byte

  /** A cipher instance: key, nonce and the keystream position of its cursor. */
  datatype Cipher = Cipher(key: seq<byte>, nonce: seq<byte>, pos: nat)

  /** `chacha20.NewUnauthenticatedCipher` for the only sizes the wrapper
      passes; a fresh instance starts at keystream position 0. */
  function NewCipher(key: seq<byte>, nonce: seq<byte>): Cipher
    requires |key| == KeySize && |nonce| == NonceSize
  {
    Cipher(key, nonce, 0)
  }

  /** The next n keystream bytes of c, starting at its cursor. */
  function Next(ks: Keystream, c: Cipher, n: nat): (s: seq<byte>)
    ensures |s| == n
  {
    seq(n, i requires 0 <= i < n => ks(c.key, c.nonce, c.pos + i))
  }

  /** c after n bytes have been XORed with its keystream. */
  function Advance(c: Cipher, n: nat): Cipher
  {
    c.(pos := c.pos + n)
  }

  /** Reading m bytes and then n bytes uses the same keystream as reading
      m + n bytes at once: no position is skipped or used twice. */
  lemma NextSplit(ks: Keystream, c: Cipher, m: nat, n: nat)
    ensures Next(ks, c, m + n) == Next(ks, c, m) + Next(ks, Advance(c, m), n)
  {
    var l, r := Next(ks, c, m + n), Next(ks, c, m) + Next(ks, Advance(c, m), n);
    forall i | 0 <= i < m + n
      ensures l[i] == r[i]
    {
      if i >= m {
        assert r[i] == Next(ks, Advance(c, m), n)[i - m];
      }
    }
  }
}
