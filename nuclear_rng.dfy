/** The host keystream wrapper `NuclearRNG`: it seeds a stream cipher from
    raw detector bytes, reseeds it on a randomised schedule, and XORs its
    keystream into the caller's buffers. Without a cipher it serves the raw
    bytes unchanged. */
module NuclearRng {
  import opened Bytes
  import opened Keystream
  import opened Port

  /** Reseeds happen every [RekeyBase, 2 * RekeyBase) output bytes. */
  const RekeyBase: nat := 1024 * 1024

  /** Raw bytes that make one seed: a key followed by a nonce. */
  const SeedSize: nat := KeySize + NonceSize

  /** Keystream bytes drawn to pick the next reseed interval. */
  const FuzzSize: nat := 8

  datatype Option<T> = None | Some(value: T)

  /** `binary.BigEndian` on unsigned integers: the first byte is the most
      significant. */
  function BigEndian(b: seq<byte>): nat
  {
    if b == [] then 0 else BigEndian(b[..|b| - 1]) * 256 + b[|b| - 1] as int
  }

  /** The reseed interval drawn from the new cipher's first keystream bytes. */
  function ReseedCount(fuzz: seq<byte>): (r: int)
    requires |fuzz| == FuzzSize
    ensures RekeyBase <= r < 2 * RekeyBase
  {
    RekeyBase + BigEndian(fuzz) % RekeyBase
  }

  /** The data copied into a zeroed buffer of n bytes (truncated or padded with zeros). */
  function CopyInto(n: nat, data: seq<byte>): (buf: seq<byte>)
    ensures |buf| == n
  {
    if |data| >= n then data[..n] else data + Zeros(n - |data|)
  }

  /** The counter after serving `length` bytes: it drops to zero rather
      than below. */
  function Drawdown(counter: int, length: nat): (r: int)
    ensures r >= 0
    ensures counter > length ==> r == counter - length
    ensures counter <= length ==> r == 0
  {
    if counter <= length then 0 else counter - length
  }

  /** `rekey`: the new cipher is keyed by the data XORed with the next
      SeedSize bytes of the old keystream; key first, nonce last. */
  function RekeyOf(ks: Keystream, c: Cipher, data: seq<byte>): Cipher
  {
    var seed := Xor(CopyInto(SeedSize, data), Next(ks, c, SeedSize));
    NewCipher(seed[..KeySize], seed[KeySize..])
  }

  /** What `stirIfNeeded` leaves behind: queue, cipher, counter, error. */
  datatype Stirred = Stirred(port: seq<Reply>, cipher: Cipher, counter: int, err: bool)

  /** `stirIfNeeded(length)` on a wrapper with cipher c. */
  function StirOf(ks: Keystream, port: seq<Reply>, c: Cipher, counter: int, length: nat): Stirred
  {
    if counter <= length then
      var f := FillFrom(port, SeedSize);
      if f.failed then Stirred(f.rest, c, counter, true)
      else
        var next := RekeyOf(ks, c, f.got);
        var count := ReseedCount(Next(ks, next, FuzzSize));
        Stirred(f.rest, Advance(next, FuzzSize), Drawdown(count, length), false)
    else Stirred(port, c, Drawdown(counter, length), false)
  }

  /** What `readRaw(p)` yields: the new contents of p, the count and error it
      returns, and the replies still queued. */
  datatype RawRead = RawRead(out: seq<byte>, n: int, err: bool, rest: seq<Reply>)

  function RawReadOf(port: seq<Reply>, p: seq<byte>): RawRead
  {
    var f := FillFrom(port, |p|);
    FillLength(port, |p|);
    RawRead(f.got + p[|f.got|..], if f.failed then f.lastN else |p|, f.failed, f.rest)
  }

  /** What `Read(p)` leaves behind and returns. */
  datatype ReadResult = ReadResult(port: seq<Reply>, cipher: Option<Cipher>, counter: int,
                                   out: seq<byte>, n: int, err: bool)

  /** `Read(p)`: raw bytes without a cipher; otherwise stir (its error is
      dropped) and XOR p with the keystream. */
  function ReadOf(ks: Keystream, port: seq<Reply>, cipher: Option<Cipher>, counter: int,
                  p: seq<byte>): ReadResult
  {
    match cipher
    case None =>
      var r := RawReadOf(port, p);
      ReadResult(r.rest, None, counter, r.out, r.n, r.err)
    case Some(c) =>
      var s := StirOf(ks, port, c, counter, |p|);
      ReadResult(s.port, Some(Advance(s.cipher, |p|)), s.counter,
                 Xor(p, Next(ks, s.cipher, |p|)), |p|, false)
  }

  // ---------------------------------------------------------------------
  // Properties of the specification

  /** The raw read returns |p| without error exactly when the port can
      deliver |p| bytes before failing; then p holds those bytes in order.
      On failure it returns the failing call's count. */
  lemma RawReadOutcome(port: seq<Reply>, p: seq<byte>)
    ensures var r := RawReadOf(port, p);
      |r.out| == |p| &&
      (!r.err <==> |p| <= |Stream(port)|) &&
      (!r.err ==> r.n == |p| && r.out == Stream(port)[..|p|] &&
                  Stream(r.rest) == Stream(port)[|p|..]) &&
      (r.err ==> |Stream(port)| < |p| && r.out[..|Stream(port)|] == Stream(port) &&
                 r.n == |FillFrom(port, |p|).got| - |Stream(port)| &&
                 0 <= r.n <= |p| - |Stream(port)|)
  {
    var f := FillFrom(port, |p|);
    FillLength(port, |p|);
    FillSucceedsIff(port, |p|);
    if f.failed {
      FillFailure(port, |p|);
    } else {
      FillInOrder(port, |p|);
      assert Stream(port) == f.got + Stream(f.rest);
    }
  }

  /** Rekeying mixes the old keystream into the raw data byte by byte: the
      key is the first KeySize mixed bytes, the nonce the last NonceSize. */
  lemma RekeyMixes(ks: Keystream, c: Cipher, data: seq<byte>)
    requires |data| == SeedSize
    ensures var r := RekeyOf(ks, c, data);
      r.pos == 0 && |r.key| == KeySize && |r.nonce| == NonceSize &&
      (forall i :: 0 <= i < KeySize ==> r.key[i] == data[i] ^ ks(c.key, c.nonce, c.pos + i)) &&
      (forall j :: 0 <= j < NonceSize ==>
         r.nonce[j] == data[KeySize + j] ^ ks(c.key, c.nonce, c.pos + KeySize + j))
  {
    assert CopyInto(SeedSize, data) == data;
  }

  /** No reseed while the counter exceeds the request: queue and cipher stay,
      the counter drops by the request length. */
  lemma StirWithoutReseed(ks: Keystream, port: seq<Reply>, c: Cipher, counter: int, length: nat)
    requires counter > length
    ensures StirOf(ks, port, c, counter, length) == Stirred(port, c, counter - length, false)
  {
  }

  /** A reseed is attempted when the counter is at most the request. It
      fails iff the port cannot deliver a seed, and then the cipher and the
      counter stay as they were. Otherwise it consumes exactly SeedSize raw
      bytes, keys the new cipher from them, and continues at position
      FuzzSize of the new keystream. */
  lemma {:induction false} StirReseeds(ks: Keystream, port: seq<Reply>, c: Cipher, counter: int, length: nat)
    requires counter <= length
    ensures var s := StirOf(ks, port, c, counter, length);
      (s.err <==> |Stream(port)| < SeedSize) &&
      (s.err ==> s.cipher == c && s.counter == counter) &&
      (!s.err ==>
         Stream(s.port) == Stream(port)[SeedSize..] &&
         s.cipher == Advance(RekeyOf(ks, c, Stream(port)[..SeedSize]), FuzzSize) &&
         s.cipher.pos == FuzzSize &&
         s.counter == Drawdown(RekeyBase + BigEndian(Next(ks, RekeyOf(ks, c, Stream(port)[..SeedSize]), FuzzSize)) % RekeyBase, length))
  {
    var f := FillFrom(port, SeedSize);
    FillSucceedsIff(port, SeedSize);
    FillLength(port, SeedSize);
    if !f.failed {
      FillInOrder(port, SeedSize);
      assert Stream(port) == f.got + Stream(f.rest);
      assert Stream(port)[..SeedSize] == f.got;
    }
  }

  /** After a successful reseed the counter is below 2 * RekeyBase, and for
      a request shorter than RekeyBase it is at least RekeyBase - length. */
  lemma StirCounterAfterReseed(ks: Keystream, port: seq<Reply>, c: Cipher, counter: int, length: nat)
    requires counter <= length && !StirOf(ks, port, c, counter, length).err
    ensures var s := StirOf(ks, port, c, counter, length);
      0 <= s.counter < 2 * RekeyBase &&
      (length < RekeyBase ==> RekeyBase - length <= s.counter)
  {
  }

  /** The counter is never negative after a stir, and a counter within
      [0, 2 * RekeyBase) stays there. */
  lemma StirKeepsCounterInRange(ks: Keystream, port: seq<Reply>, c: Cipher, counter: int, length: nat)
    requires 0 <= counter < 2 * RekeyBase
    ensures 0 <= StirOf(ks, port, c, counter, length).counter < 2 * RekeyBase
  {
  }

  /** With a cipher, Read always returns (|p|, no error), even when the
      stir failed, and p is XORed with the keystream of the stirred cipher,
      whose cursor then moves on by |p|. */
  lemma ReadWithCipher(ks: Keystream, port: seq<Reply>, c: Cipher, counter: int, p: seq<byte>)
    ensures var r := ReadOf(ks, port, Some(c), counter, p);
      var s := StirOf(ks, port, c, counter, |p|);
      r.n == |p| && !r.err && r.cipher == Some(Advance(s.cipher, |p|)) &&
      |r.out| == |p| &&
      forall i :: 0 <= i < |p| ==> r.out[i] == p[i] ^ ks(s.cipher.key, s.cipher.nonce, s.cipher.pos + i)
  {
  }

  /** A Read that reseeds serves its bytes from position FuzzSize of the
      new keystream onward. */
  lemma {:induction false} ReadAfterReseed(ks: Keystream, port: seq<Reply>, c: Cipher, counter: int, p: seq<byte>)
    requires counter <= |p| && SeedSize <= |Stream(port)|
    ensures var r := ReadOf(ks, port, Some(c), counter, p);
      var next := RekeyOf(ks, c, Stream(port)[..SeedSize]);
      r.n == |p| && !r.err && |r.out| == |p| &&
      Stream(r.port) == Stream(port)[SeedSize..] &&
      r.cipher == Some(Advance(next, FuzzSize + |p|)) &&
      forall i :: 0 <= i < |p| ==> r.out[i] == p[i] ^ ks(next.key, next.nonce, FuzzSize + i)
  {
    StirReseeds(ks, port, c, counter, |p|);
  }

  /** A Read whose reseed fails still returns (|p|, no error): it XORs p
      with the old keystream from the old cursor and leaves the counter. */
  lemma {:induction false} ReadAfterFailedStir(ks: Keystream, port: seq<Reply>, c: Cipher, counter: int, p: seq<byte>)
    requires counter <= |p| && |Stream(port)| < SeedSize
    ensures var r := ReadOf(ks, port, Some(c), counter, p);
      r.n == |p| && !r.err && r.counter == counter &&
      r.cipher == Some(Advance(c, |p|)) &&
      r.out == Xor(p, Next(ks, c, |p|))
  {
    StirReseeds(ks, port, c, counter, |p|);
  }

  /** Reseeding happens only before a Read, never within one: a Read at
      least 2 * RekeyBase long that reseeds is served whole from the new key
      and leaves the counter at zero, so one key can serve far more than the
      drawn interval. */
  lemma {:induction false} LongReadOneKey(ks: Keystream, port: seq<Reply>, c: Cipher, counter: int, p: seq<byte>)
    requires counter <= |p| && SeedSize <= |Stream(port)| && 2 * RekeyBase <= |p|
    ensures var r := ReadOf(ks, port, Some(c), counter, p);
      var next := RekeyOf(ks, c, Stream(port)[..SeedSize]);
      r.cipher == Some(Advance(next, FuzzSize + |p|)) && r.counter == 0
  {
    StirReseeds(ks, port, c, counter, |p|);
    StirCounterAfterReseed(ks, port, c, counter, |p|);
  }

  /** The counter starts at zero, so the first Read with a cipher attempts
      a reseed even for an empty buffer. */
  lemma {:induction false} FirstReadReseeds(ks: Keystream, port: seq<Reply>, c: Cipher, p: seq<byte>)
    requires SeedSize <= |Stream(port)|
    ensures Stream(ReadOf(ks, port, Some(c), 0, p).port) == Stream(port)[SeedSize..]
  {
    ReadAfterReseed(ks, port, c, 0, p);
  }

  /** Without a cipher, Read is exactly the raw read. */
  lemma ReadWithoutCipher(ks: Keystream, port: seq<Reply>, counter: int, p: seq<byte>)
    ensures var r := ReadOf(ks, port, None, counter, p);
      var raw := RawReadOf(port, p);
      r.out == raw.out && r.n == raw.n && r.err == raw.err && r.port == raw.rest &&
      r.cipher == None && r.counter == counter
  {
  }

  /** Two Reads that do not reseed serve the keystream contiguously: their
      outputs together are the first buffer followed by the second XORed
      with one unbroken stretch of keystream. */
  lemma {:induction false} ConsecutiveReads(ks: Keystream, port: seq<Reply>, c: Cipher, counter: int,
                                            p: seq<byte>, q: seq<byte>)
    requires counter > |p| + |q|
    ensures var r1 := ReadOf(ks, port, Some(c), counter, p);
      var r2 := ReadOf(ks, r1.port, r1.cipher, r1.counter, q);
      r1.out + r2.out == Xor(p + q, Next(ks, c, |p| + |q|)) &&
      r2.cipher == Some(Advance(c, |p| + |q|)) && r2.counter == counter - |p| - |q|
  {
    StirWithoutReseed(ks, port, c, counter, |p|);
    StirWithoutReseed(ks, port, Advance(c, |p|), counter - |p|, |q|);
    NextSplit(ks, c, |p|, |q|);
    XorConcat(p, q, Next(ks, c, |p|), Next(ks, Advance(c, |p|), |q|));
  }

  /** GetRandom with a cipher returns the keystream bytes themselves. */
  lemma {:induction false} GetRandomIsKeystream(ks: Keystream, port: seq<Reply>, c: Cipher, counter: int, n: nat)
    ensures var r := ReadOf(ks, port, Some(c), counter, Zeros(n));
      r.out == Next(ks, StirOf(ks, port, c, counter, n).cipher, n)
  {
    XorZeros(Next(ks, StirOf(ks, port, c, counter, n).cipher, n));
  }

  /** Rekeying loses none of the raw data: XORing the new key and nonce with
      the same stretch of old keystream gives the data back, so distinct raw
      seeds give distinct ciphers. */
  lemma {:induction false} RekeyKeepsData(ks: Keystream, c: Cipher, data: seq<byte>, other: seq<byte>)
    requires |data| == SeedSize && |other| == SeedSize
    ensures var r := RekeyOf(ks, c, data);
      |r.key + r.nonce| == SeedSize && Xor(r.key + r.nonce, Next(ks, c, SeedSize)) == data
    ensures RekeyOf(ks, c, data) == RekeyOf(ks, c, other) ==> data == other
  {
    forall d | d == data || d == other
      ensures var r := RekeyOf(ks, c, d);
        |r.key + r.nonce| == SeedSize && Xor(r.key + r.nonce, Next(ks, c, SeedSize)) == d
    {
      assert CopyInto(SeedSize, d) == d;
      var seed := Xor(d, Next(ks, c, SeedSize));
      assert seed[..KeySize] + seed[KeySize..] == seed;
      XorInvolution(d, Next(ks, c, SeedSize));
    }
  }

  // ---------------------------------------------------------------------
  // The wrapper object

  class NuclearRNG {
    /** The ChaCha20 keystream function, fixed for the session. */
    const keystream: Keystream
    /** Replies the serial port will give, in order. */
    var port: seq<Reply>
    /** The cipher instance; None in raw mode. */
    var cipher: Option<Cipher>
    /** Output bytes left before the next reseed. */
    var reseedCounter: int

    ghost predicate Valid()
      reads this
    {
      0 <= reseedCounter < 2 * RekeyBase &&
      (cipher.Some? ==> |cipher.value.key| == KeySize && |cipher.value.nonce| == NonceSize)
    }

    /** The object `NewRaw` builds once a device port is open: no cipher, a
        zero counter. */
    constructor Raw(ks: Keystream, port: seq<Reply>)
      ensures Valid()
      ensures keystream == ks && this.port == port && cipher == None && reseedCounter == 0
    {
      keystream := ks;
      this.port := port;
      cipher := None;
      reseedCounter := 0;
    }

    /** One `port.Read(p[off:])` call. */
    method PortRead(p: array<byte>, off: nat) returns (n: nat, err: bool)
      requires off < p.Length
      modifies this`port, p
      ensures var c := ReadCall(old(port), p.Length - off);
        port == c.rest && n == |c.bytes| && err == c.failed &&
        p[..] == old(p[..])[..off] + c.bytes + old(p[..])[off + n..]
      ensures var f := FillFrom(old(port), p.Length - off);
        if err then f == Fill(p[off..off + n], true, n, port)
        else f == Prepended(p[off..off + n], FillFrom(port, p.Length - off - n))
    {
      var c := ReadCall(port, p.Length - off);
      forall i | 0 <= i < |c.bytes| {
        p[off + i] := c.bytes[i];
      }
      port, n, err := c.rest, |c.bytes|, c.failed;
      assert p[..] == old(p[..])[..off] + c.bytes + old(p[..])[off + n..];
      assert p[off..off + n] == c.bytes;
    }

    /** `readRaw(p)`: call the port until p is full or a call fails. */
    method ReadRaw(p: array<byte>) returns (n: int, err: bool)
      modifies this`port, p
      ensures var r := RawReadOf(old(port), old(p[..]));
        p[..] == r.out && n == r.n && err == r.err && port == r.rest
    {
      ghost var q0, p0 := port, p[..];
      var count := 0;
      while count < p.Length
        invariant 0 <= count <= p.Length
        invariant FillFrom(q0, p.Length) == Prepended(p[..count], FillFrom(port, p.Length - count))
        invariant p[count..] == p0[count..]
        decreases p.Length - count, |port|
      {
        ghost var before := p[..];
        var k, e := PortRead(p, count);
        assert p[..count + k] == before[..count] + p[count..count + k];
        if e {
          assert p[count + k..] == p0[count + k..];
          FillLength(q0, p.Length);
          assert p[..] == p[..count + k] + p0[count + k..];
          return k, true;
        }
        ghost var rest := FillFrom(port, p.Length - count - k);
        assert FillFrom(q0, p.Length) == Prepended(before[..count], Prepended(p[count..count + k], rest));
        PrependedTwice(before[..count], p[count..count + k], rest);
        count := count + k;
      }
      FillLength(q0, p.Length);
      assert p[..] == p[..count];
      n, err := count, false;
    }

    /** XOR p in place with the next keystream bytes and advance the cipher. */
    method XorKeyStream(p: array<byte>)
      requires cipher.Some?
      modifies this`cipher, p
      ensures cipher == Some(Advance(old(cipher.value), p.Length))
      ensures p[..] == Xor(old(p[..]), Next(keystream, old(cipher.value), p.Length))
    {
      var c := cipher.value;
      forall i | 0 <= i < p.Length {
        p[i] := p[i] ^ keystream(c.key, c.nonce, c.pos + i);
      }
      cipher := Some(Advance(c, p.Length));
    }

    /** `rekey(data)`. The construction error Go checks for cannot occur:
        the seed is always KeySize + NonceSize bytes. */
    method Rekey(data: array<byte>)
      requires cipher.Some?
      modifies this`cipher
      ensures cipher == Some(RekeyOf(keystream, old(cipher.value), old(data[..])))
    {
      var buf := new byte[SeedSize](_ => 0);
      forall i | 0 <= i < SeedSize && i < data.Length {
        buf[i] := data[i];
      }
      ghost var c0 := cipher.value;
      assert buf[..] == CopyInto(SeedSize, data[..]);
      XorKeyStream(buf);
      ghost var seed := Xor(CopyInto(SeedSize, data[..]), Next(keystream, c0, SeedSize));
      assert buf[..] == seed;
      assert buf[..KeySize] == seed[..KeySize] && buf[KeySize..] == seed[KeySize..];
      cipher := Some(NewCipher(buf[..KeySize], buf[KeySize..]));
      assert data[..] == old(data[..]);
      assert cipher == Some(RekeyOf(keystream, c0, data[..]));
    }

    /** `stirIfNeeded(length)`. */
    method StirIfNeeded(length: nat) returns (err: bool)
      requires Valid() && cipher.Some?
      modifies this
      ensures Valid() && cipher.Some?
      ensures var s := StirOf(keystream, old(port), old(cipher.value), old(reseedCounter), length);
        port == s.port && cipher == Some(s.cipher) && reseedCounter == s.counter && err == s.err
    {
      if reseedCounter <= length {
        var buf := new byte[SeedSize](_ => 0);
        var _, e := ReadRaw(buf);
        if e {
          return true;
        }
        ghost var f := FillFrom(old(port), SeedSize);
        FillLength(old(port), SeedSize);
        assert buf[..] == f.got;
        Rekey(buf);
        ghost var next := RekeyOf(keystream, old(cipher.value), f.got);
        assert cipher == Some(next);
        var fuzz := new byte[FuzzSize](_ => 0);
        assert fuzz[..] == Zeros(FuzzSize);
        XorKeyStream(fuzz);
        XorZeros(Next(keystream, next, FuzzSize));
        assert fuzz[..] == Next(keystream, next, FuzzSize);
        reseedCounter := RekeyBase + BigEndian(fuzz[..]) % RekeyBase;
        assert reseedCounter == ReseedCount(Next(keystream, next, FuzzSize));
      }
      if reseedCounter <= length {
        reseedCounter := 0;
      } else {
        reseedCounter := reseedCounter - length;
      }
      err := false;
    }

    /** `Read(p)`, as one atomic step (the lock is not modelled). */
    method Read(p: array<byte>) returns (n: int, err: bool)
      requires Valid()
      modifies this, p
      ensures Valid()
      ensures var r := ReadOf(keystream, old(port), old(cipher), old(reseedCounter), old(p[..]));
        port == r.port && cipher == r.cipher && reseedCounter == r.counter &&
        p[..] == r.out && n == r.n && err == r.err
    {
      if cipher.None? {
        n, err := ReadRaw(p);
        return;
      }
      var _ := StirIfNeeded(p.Length);
      XorKeyStream(p);
      return p.Length, false;
    }

    /** `GetRandom(bytes)`: Read into a zeroed buffer; nothing on error. */
    method GetRandom(bytes: nat) returns (ret: seq<byte>, err: bool)
      requires Valid()
      modifies this
      ensures Valid()
      ensures var r := ReadOf(keystream, old(port), old(cipher), old(reseedCounter), Zeros(bytes));
        port == r.port && cipher == r.cipher && reseedCounter == r.counter &&
        err == r.err && ret == (if r.err then [] else r.out)
    {
      var buf := new byte[bytes](_ => 0);
      assert buf[..] == Zeros(bytes);
      var _, e := Read(buf);
      if e {
        return [], true;
      }
      return buf[..], false;
    }
  }

  /** `New`: open the device's port (the discovery is not modelled), read
      one seed of raw bytes and key the cipher with them unmixed. A failed
      raw read yields no wrapper. */
  method New(ks: Keystream, port: seq<Reply>) returns (rng: NuclearRNG?, err: bool)
    ensures var f := FillFrom(port, SeedSize);
      err == f.failed && (err <==> rng == null) &&
      (!err ==> fresh(rng) && rng.Valid() && rng.keystream == ks && rng.port == f.rest &&
                rng.reseedCounter == 0 && |f.got| == SeedSize &&
                rng.cipher == Some(NewCipher(f.got[..KeySize], f.got[KeySize..])))
  {
    var r := new NuclearRNG.Raw(ks, port);
    var buf := new byte[SeedSize](_ => 0);
    var _, e := r.ReadRaw(buf);
    FillLength(port, SeedSize);
    if e {
      return null, true;
    }
    assert buf[..] == FillFrom(port, SeedSize).got;
    r.cipher := Some(NewCipher(buf[..KeySize], buf[KeySize..]));
    return r, false;
  }
}
