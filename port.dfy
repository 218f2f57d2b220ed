/** The serial port that `readRaw` drains, as an abstract queue of replies.
    Each reply answers one `Read` call of the port: the bytes that call
    delivers and whether it reported an error. Device discovery and opening
    sit outside this model; only the queue remains. */
module Port {
  import opened Bytes

  /** The port's answer to one `Read` call. */
  datatype Reply = Reply(data: seq<byte>, fault: bool)

  /** What one `Read` call into a slice of `room` bytes yields: the bytes it
      placed at the start of the slice, whether it failed, and the replies
      still queued. */
  datatype Chunk = Chunk(bytes: seq<byte>, failed: bool, rest: seq<Reply>)

  /** One call of the port's `Read` into a slice of `room` > 0 bytes. A reply
      larger than the slice delivers what fits; when that reply did not fail,
      its remainder stays queued for the next call. An exhausted queue
      answers with an error and no bytes (a real port would block). */
  function ReadCall(q: seq<Reply>, room: nat): (c: Chunk)
    requires room > 0
    ensures |c.bytes| <= room
    ensures !c.failed ==> (|c.bytes| == room || |c.rest| < |q|)
    ensures q == [] ==> c.failed && c.bytes == []
  {
    if q == [] then Chunk([], true, [])
    else if |q[0].data| <= room then Chunk(q[0].data, q[0].fault, q[1..])
    else if q[0].fault then Chunk(q[0].data[..room], true, q[1..])
    else Chunk(q[0].data[..room], false, [Reply(q[0].data[room..], false)] + q[1..])
  }

  /** The outcome of filling a buffer: the bytes placed at its start, in
      order; whether a call failed; the `n` that the failing call reported;
      and the replies still queued. */
  datatype Fill = Fill(got: seq<byte>, failed: bool, lastN: nat, rest: seq<Reply>)

  /** `pre` read before the calls that produced `f`. */
  function Prepended(pre: seq<byte>, f: Fill): (r: Fill)
    ensures r.got == pre + f.got && r.failed == f.failed && r.lastN == f.lastN && r.rest == f.rest
  {
    f.(got := pre + f.got)
  }

  lemma PrependedTwice(a: seq<byte>, b: seq<byte>, f: Fill)
    ensures Prepended(a, Prepended(b, f)) == Prepended(a + b, f)
  {
    assert a + (b + f.got) == (a + b) + f.got;
  }

  /** The loop of `readRaw`: call the port until `room` bytes have arrived,
      stopping at the first failing call. */
  function FillFrom(q: seq<Reply>, room: nat): (f: Fill)
    decreases room, |q|
  {
    if room == 0 then Fill([], false, 0, q)
    else
      var c := ReadCall(q, room);
      if c.failed then Fill(c.bytes, true, |c.bytes|, c.rest)
      else
        var f := FillFrom(c.rest, room - |c.bytes|);
        Fill(c.bytes + f.got, f.failed, f.lastN, f.rest)
  }

  /** The bytes the port will deliver before its first failing call. */
  function Stream(q: seq<Reply>): seq<byte>
  {
    if q == [] || q[0].fault then [] else q[0].data + Stream(q[1..])
  }

  /** A fill never places more than it was asked for, and places exactly
      that many bytes when no call failed. */
  lemma {:induction false} FillLength(q: seq<Reply>, room: nat)
    ensures |FillFrom(q, room).got| <= room
    ensures !FillFrom(q, room).failed ==> |FillFrom(q, room).got| == room
    decreases room, |q|
  {
    if room > 0 {
      var c := ReadCall(q, room);
      if !c.failed {
        FillLength(c.rest, room - |c.bytes|);
      }
    }
  }

  /** One call consumes its bytes from the front of the stream. */
  lemma ReadCallStream(q: seq<Reply>, room: nat)
    requires room > 0 && !ReadCall(q, room).failed
    ensures Stream(q) == ReadCall(q, room).bytes + Stream(ReadCall(q, room).rest)
  {
    var c := ReadCall(q, room);
    if |q[0].data| > room {
      var d := q[0].data;
      calc {
        Stream(c.rest);
        d[room..] + Stream(q[1..]);
      }
      assert d == d[..room] + d[room..];
    }
  }

  /** A fill succeeds exactly when the port can deliver `room` bytes before
      its first failing call. */
  lemma {:induction false} FillSucceedsIff(q: seq<Reply>, room: nat)
    ensures !FillFrom(q, room).failed <==> room <= |Stream(q)|
    decreases room, |q|
  {
    if room > 0 {
      var c := ReadCall(q, room);
      if !c.failed {
        ReadCallStream(q, room);
        FillSucceedsIff(c.rest, room - |c.bytes|);
      }
    }
  }

  /** On success the bytes placed are the next `room` bytes of the stream,
      in order, and the rest of the stream stays queued. */
  lemma {:induction false} FillInOrder(q: seq<Reply>, room: nat)
    requires !FillFrom(q, room).failed
    ensures FillFrom(q, room).got + Stream(FillFrom(q, room).rest) == Stream(q)
    decreases room, |q|
  {
    if room > 0 {
      var c := ReadCall(q, room);
      var g := FillFrom(c.rest, room - |c.bytes|);
      ReadCallStream(q, room);
      FillInOrder(c.rest, room - |c.bytes|);
      assert FillFrom(q, room) == Fill(c.bytes + g.got, g.failed, g.lastN, g.rest);
      assert (c.bytes + g.got) + Stream(g.rest) == c.bytes + (g.got + Stream(g.rest));
    }
  }

  /** On failure, the bytes placed before the failing call are the whole
      stream, and the reported `n` counts only the failing call's bytes:
      the running count minus the stream's length. */
  lemma {:induction false} FillFailure(q: seq<Reply>, room: nat)
    requires FillFrom(q, room).failed
    ensures FillFrom(q, room).lastN <= |FillFrom(q, room).got| <= room
    ensures FillFrom(q, room).got[..|FillFrom(q, room).got| - FillFrom(q, room).lastN] == Stream(q)
    ensures FillFrom(q, room).lastN == |FillFrom(q, room).got| - |Stream(q)|
    decreases room, |q|
  {
    var f := FillFrom(q, room);
    var c := ReadCall(q, room);
    if c.failed {
      assert Stream(q) == [];
    } else {
      ReadCallStream(q, room);
      FillFailure(c.rest, room - |c.bytes|);
      var g := FillFrom(c.rest, room - |c.bytes|);
      assert f.got[..|f.got| - f.lastN] == c.bytes + g.got[..|g.got| - g.lastN];
    }
  }

  /** Two bytes arrive, then the port fails: the fill reports n = 0, the
      failing call's count, not the two bytes already placed. */
  lemma FailureReportsLastCallOnly()
    ensures var f := FillFrom([Reply([1, 2], false), Reply([], true)], 4);
      f.failed && f.got == [1, 2] && f.lastN == 0
  {
    var q: seq<Reply> := [Reply([1, 2], false), Reply([], true)];
    assert ReadCall(q, 4) == Chunk([1, 2], false, q[1..]);
    assert FillFrom(q[1..], 2) == Fill([], true, 0, []);
  }
}
