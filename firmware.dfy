/** The firmware's bit extractor: the body of the sampling loop in `main`,
    recast as one step of a state machine. The pin read, the clock and the
    serial/LED outputs become the step's inputs and output. */
module Firmware {

  function Pow2(n: nat): (r: nat)
    ensures r >= 1
  {
    if n == 0 then 1 else 2 * Pow2(n - 1)
  }

  function Bit(b: bool): nat
  {
    if b then 1 else 0
  }

  /** Bits packed MSB-first, as repeated `buf <<= 1; buf |= bit` does:
      the first bit ends up the most significant. */
  function Pack(bits: seq<bool>): nat
  {
    if bits == [] then 0 else 2 * Pack(bits[..|bits| - 1]) + Bit(bits[|bits| - 1])
  }

  /** n is odd: the state a boolean reaches from false after n toggles. */
  predicate Odd(n: nat)
  {
    if n == 0 then false else !Odd(n - 1)
  }

  /** A falling edge: the previous sample was high and this one is low. */
  predicate FallingEdge(prev: bool, cur: bool)
  {
    prev && !cur
  }

  /** The alternating-polarity comparator: on a tick cycle a 1 means the
      older interval was longer, on the other cycle that the newer was. */
  function Decide(tick: bool, d1: int, d2: int): bool
  {
    (tick && d1 > d2) || (!tick && d2 > d1)
  }

  /** A lower-case hex digit, as `%x` writes it. */
  function HexDigit(v: nat): (c: char)
    requires v < 16
  {
    if v < 10 then ('0' as int + v) as char else ('a' as int + v - 10) as char
  }

  /** A byte as `fmt.Printf("%02x")` writes it: two lower-case hex digits. */
  function Hex2(b: nat): (s: string)
    ensures |s| == 2
  {
    [HexDigit((b / 16) % 16), HexDigit(b % 16)]
  }

  /** The value of a lower-case hex digit. */
  function HexValue(c: char): nat
  {
    if '0' <= c <= '9' then c as int - '0' as int
    else if 'a' <= c <= 'f' then c as int - 'a' as int + 10
    else 0
  }

  // ---------------------------------------------------------------------
  // Properties

  lemma {:induction false} Pow2Monotone(m: nat, n: nat)
    requires m <= n
    ensures Pow2(m) <= Pow2(n)
    decreases n
  {
    if m < n {
      Pow2Monotone(m, n - 1);
    }
  }

  /** k packed bits fit in k bits. */
  lemma {:induction false} PackBound(bits: seq<bool>)
    ensures Pack(bits) < Pow2(|bits|)
    decreases |bits|
  {
    if bits != [] {
      PackBound(bits[..|bits| - 1]);
    }
  }

  /** Shifting in one more bit. */
  lemma PackAppend(bits: seq<bool>, b: bool)
    ensures Pack(bits + [b]) == 2 * Pack(bits) + Bit(b)
  {
    assert (bits + [b])[..|bits|] == bits;
  }

  /** Shifting one bit into a byte that holds at most 7 bits loses nothing
      to the 8-bit wrap-around of `buf <<= 1`. */
  lemma ShiftIn(bits: seq<bool>, b: bool)
    requires |bits| <= 7
    ensures 2 * Pack(bits) < 256
    ensures 2 * Pack(bits) + Bit(b) == Pack(bits + [b])
  {
    PackBound(bits);
    Pow2Monotone(|bits|, 7);
    assert Pow2(7) == 128;
    PackAppend(bits, b);
  }

  /** Pack starting from the first bit: it carries weight 2^(k-1) in a
      k-bit value. */
  lemma {:induction false} PackCons(b: bool, rest: seq<bool>)
    ensures Pack([b] + rest) == (if b then Pow2(|rest|) else 0) + Pack(rest)
    decreases |rest|
  {
    if rest != [] {
      var init, last := rest[..|rest| - 1], rest[|rest| - 1];
      PackCons(b, init);
      assert ([b] + rest)[..|rest|] == [b] + init;
    }
  }

  /** The first bit packed is the top bit: a k-bit value reaches 2^(k-1)
      iff its first bit is set. With 8 bits, the first bit after a reset is
      bit 7 of the byte. */
  lemma PackLeadingBit(bits: seq<bool>)
    requires |bits| >= 1
    ensures Pack(bits) >= Pow2(|bits| - 1) <==> bits[0]
  {
    PackCons(bits[0], bits[1..]);
    assert [bits[0]] + bits[1..] == bits;
    PackBound(bits[1..]);
  }

  /** The n bits of v, most significant first. */
  function Unpack(v: nat, n: nat): (bits: seq<bool>)
    ensures |bits| == n
  {
    if n == 0 then [] else Unpack(v / 2, n - 1) + [v % 2 == 1]
  }

  /** Packing loses nothing: unpacking an emitted byte gives back the
      decided bits in order. */
  lemma {:induction false} UnpackPack(bits: seq<bool>)
    ensures Unpack(Pack(bits), |bits|) == bits
    decreases |bits|
  {
    if bits != [] {
      var init := bits[..|bits| - 1];
      UnpackPack(init);
      assert Pack(bits) / 2 == Pack(init);
      assert bits == init + [bits[|bits| - 1]];
    }
  }

  /** On equal intervals both polarities give 0; otherwise the two
      polarities give opposite bits, which is what cancels a steady drift. */
  lemma DecidePolarities(d1: int, d2: int)
    ensures d1 == d2 ==> !Decide(true, d1, d2) && !Decide(false, d1, d2)
    ensures d1 != d2 ==> Decide(true, d1, d2) != Decide(false, d1, d2)
  {
  }

  /** The bits decided for a run of (d1, d2) pairs while tick alternates. */
  function DecideRun(tick: bool, pairs: seq<(int, int)>): (bits: seq<bool>)
    ensures |bits| == |pairs|
    decreases |pairs|
  {
    if pairs == [] then []
    else [Decide(tick, pairs[0].0, pairs[0].1)] + DecideRun(!tick, pairs[1..])
  }

  function Ones(bits: seq<bool>): nat
  {
    if bits == [] then 0 else Bit(bits[0]) + Ones(bits[1..])
  }

  /** A steadily slowing pulse train (every newer interval longer) yields
      ones and zeros in turn, half of each, where one fixed polarity gives
      all zeros. */
  lemma {:induction false} DriftBalances(tick: bool, pairs: seq<(int, int)>)
    requires forall k :: 0 <= k < |pairs| ==> pairs[k].0 < pairs[k].1
    ensures forall k :: 0 <= k < |pairs| ==> DecideRun(tick, pairs)[k] == (tick == (k % 2 == 1))
    ensures Ones(DecideRun(tick, pairs)) == (if tick then |pairs| / 2 else (|pairs| + 1) / 2)
    decreases |pairs|
  {
    if pairs != [] {
      assert forall k :: 0 <= k < |pairs[1..]| ==> pairs[1..][k] == pairs[k + 1];
      DriftBalances(!tick, pairs[1..]);
      var run, tail := DecideRun(tick, pairs), DecideRun(!tick, pairs[1..]);
      forall k | 1 <= k < |pairs|
        ensures run[k] == (tick == (k % 2 == 1))
      {
        assert run[k] == tail[k - 1];
      }
    }
  }

  /** Every byte is written as two lower-case hex digits that read back as
      the byte. */
  lemma Hex2RoundTrip(b: nat)
    requires b < 256
    ensures forall k :: 0 <= k < 2 ==> '0' <= Hex2(b)[k] <= '9' || 'a' <= Hex2(b)[k] <= 'f'
    ensures 16 * HexValue(Hex2(b)[0]) + HexValue(Hex2(b)[1]) == b
  {
  }

  // ---------------------------------------------------------------------
  // The loop body as a function on the loop's state

  /** The last two pin samples. */
  datatype Window = Window(sig1: bool, sig2: bool)

  /** The comparator's state: `tick`, the last three falling-edge times
      (0 is the zero `time.Time`), the last two intervals, and the number
      of falling edges seen so far. */
  datatype Timing = Timing(tick: bool, t1: int, t2: int, t3: int, d1: int, d2: int, edges: nat)

  /** The byte being filled, its bit count and the LED, together with the
      bits decided since the last byte was written and the bytes written. */
  datatype Buffer = Buffer(buf: int, bufIdx: int, led: bool, bits: seq<bool>, emitted: seq<int>)

  /** The locals of `main`, grouped, plus what the loop has done so far. */
  datatype Loop = Loop(window: Window, timing: Timing, buffer: Buffer)

  /** The zero values the locals start from. */
  const Start := Loop(Window(false, false), Timing(false, 0, 0, 0, 0, 0, 0), Buffer(0, 0, false, [], []))

  /** What one pass writes to the serial port: nothing, or one byte, which
      `fmt.Printf("%02x")` sends as the two hex digits `Text` gives. */
  datatype Written = Quiet | Wrote(b: nat)

  function Text(w: Written): (s: string)
    ensures |s| == if w.Wrote? then 2 else 0
  {
    match w
    case Quiet => ""
    case Wrote(b) => Hex2(b)
  }

  /** The tail of the loop body once a bit is decided: `buf <<= 1` (8-bit),
      `buf |= 1` for a 1 (the shifted byte is even, so this adds one),
      `bufIdx++`, and at 8 bits toggle the LED, write the byte and start a
      new one. */
  function ShiftOf(b: Buffer, bit: bool): (Buffer, Written)
  {
    var v := (b.buf * 2) % 256 + Bit(bit);
    if b.bufIdx + 1 > 7 then
      (Buffer(0, 0, !b.led, [], b.emitted + [v]), Wrote(v))
    else
      (b.(buf := v, bufIdx := b.bufIdx + 1, bits := b.bits + [bit]), Quiet)
  }

  /** A falling edge flips `tick` and slides the time window. */
  function EdgeOf(t: Timing, now: int): Timing
  {
    t.(tick := !t.tick, t1 := t.t2, t2 := t.t3, t3 := now, edges := t.edges + 1)
  }

  /** The intervals move along: d1 takes the old d2, d2 the newest gap t3 - t2. */
  function IntervalsOf(t: Timing): Timing
  {
    t.(d1 := t.d2, d2 := t.t3 - t.t2)
  }

  /** The rest of the loop body once a falling edge is seen: flip `tick`,
      slide the time window, and from the third edge on take the new
      intervals, decide a bit and shift it in. */
  function FallOf(s: Loop, now: int): (Loop, Written)
  {
    var t := EdgeOf(s.timing, now);
    if t.t1 == 0 then (s.(timing := t), Quiet)
    else
      var t' := IntervalsOf(t);
      var (b, out) := ShiftOf(s.buffer, Decide(t'.tick, t'.d1, t'.d2));
      (Loop(s.window, t', b), out)
  }

  /** One pass of the loop body on pin sample `sample` read at time `now`
      (a non-zero time): slide the sample window, and on a falling edge go
      on as `FallOf` says. Returns the new state and what is written. */
  function StepOf(s: Loop, sample: bool, now: int): (Loop, Written)
  {
    var s1 := s.(window := Window(s.window.sig2, sample));
    if !FallingEdge(s.window.sig2, sample) then (s1, Quiet)
    else FallOf(s1, now)
  }

  /** The byte being filled holds the bits decided since the last byte was
      written, MSB-first, and never 8 of them; the LED shows the parity of
      the number of bytes written. */
  ghost predicate BufferInv(b: Buffer)
  {
    0 <= b.bufIdx <= 7 && |b.bits| == b.bufIdx && b.buf == Pack(b.bits) && b.led == Odd(|b.emitted|)
  }

  /** The time window after `edges` falling edges: a timestamp is set once
      enough edges have been seen, `tick` is their parity, d2 is the newest
      interval and d1 the one before it, where the first decision (the
      third edge) sees d1 == 0 because d2 was still 0. */
  ghost predicate TimingInv(t: Timing)
  {
    t.tick == Odd(t.edges) &&
    (t.t3 != 0 <==> t.edges >= 1) && (t.t2 != 0 <==> t.edges >= 2) && (t.t1 != 0 <==> t.edges >= 3) &&
    (t.edges < 3 ==> t.d1 == 0 && t.d2 == 0) &&
    (t.edges == 3 ==> t.d1 == 0) &&
    (t.edges >= 3 ==> t.d2 == t.t3 - t.t2) &&
    (t.edges >= 4 ==> t.d1 == t.t2 - t.t1)
  }

  /** Every falling edge from the third on decided one bit. */
  ghost predicate Decided(t: Timing, b: Buffer)
  {
    8 * |b.emitted| + |b.bits| == if t.edges >= 2 then t.edges - 2 else 0
  }

  ghost predicate Inv(s: Loop)
  {
    BufferInv(s.buffer) && TimingInv(s.timing) && Decided(s.timing, s.buffer)
  }

  lemma StartInv()
    ensures Inv(Start)
  {
  }

  /** Between passes the byte being filled holds at most 7 bits and fits
      in them. */
  lemma InvBounds(s: Loop)
    requires Inv(s)
    ensures 0 <= s.buffer.bufIdx <= 7 && s.buffer.buf < Pow2(s.buffer.bufIdx)
  {
    PackBound(s.buffer.bits);
  }

  /** Shifting one bit into the buffer: a full byte packs the 8 decided
      bits in order and is written out; otherwise the bit joins the buffer.
      Either way one more bit is accounted for. */
  lemma ShiftOfMeaning(b: Buffer, bit: bool)
    requires BufferInv(b)
    ensures var (b', out) := ShiftOf(b, bit);
      var word := b.bits + [bit];
      BufferInv(b') &&
      8 * |b'.emitted| + |b'.bits| == 8 * |b.emitted| + |b.bits| + 1 &&
      if |word| == 8 then
        out == Wrote(Pack(word)) && b'.emitted == b.emitted + [Pack(word)] && b'.led == !b.led && b'.bits == []
      else
        out == Quiet && b'.bits == word && b'.emitted == b.emitted && b'.led == b.led
  {
    ShiftIn(b.bits, bit);
    assert (b.buf * 2) % 256 + Bit(bit) == Pack(b.bits + [bit]);
  }

  /** A falling edge with fewer than three timestamps keeps the timing
      invariant. */
  lemma WarmupKeepsTiming(t: Timing, now: int)
    requires TimingInv(t) && now > 0 && t.t2 == 0
    ensures TimingInv(EdgeOf(t, now))
  {
  }

  /** A falling edge with three timestamps, and its new intervals, keep
      the timing invariant. */
  lemma DecisionKeepsTiming(t: Timing, now: int)
    requires TimingInv(t) && now > 0 && t.t2 != 0
    ensures TimingInv(IntervalsOf(EdgeOf(t, now)))
  {
  }

  /** The falling-edge part of the loop body keeps the invariant. */
  lemma FallKeepsInv(s: Loop, now: int)
    requires Inv(s) && now > 0
    ensures Inv(FallOf(s, now).0)
  {
    if s.timing.t2 == 0 {
      WarmupKeepsTiming(s.timing, now);
    } else {
      var t' := IntervalsOf(EdgeOf(s.timing, now));
      DecisionKeepsTiming(s.timing, now);
      ShiftOfMeaning(s.buffer, Decide(t'.tick, t'.d1, t'.d2));
    }
  }

  /** The loop body keeps the invariant. */
  lemma StepKeepsInv(s: Loop, sample: bool, now: int)
    requires Inv(s) && now > 0
    ensures Inv(StepOf(s, sample, now).0)
  {
    if FallingEdge(s.window.sig2, sample) {
      FallKeepsInv(s.(window := Window(s.window.sig2, sample)), now);
    }
  }

  /** What one pass of the loop does: without a
      falling edge only the sample window moves; a falling edge flips
      `tick` and records its time; from the third edge on it also decides
      one bit by the alternating comparator on the two newest intervals,
      and every eighth such bit completes a byte that is written, packing
      the bits MSB-first in the order they were decided. */
  lemma StepMeaning(s: Loop, sample: bool, now: int)
    requires Inv(s) && now > 0
    ensures var (s', out) := StepOf(s, sample, now);
      var t, t' := s.timing, s'.timing;
      var b, b' := s.buffer, s'.buffer;
      s'.window == Window(s.window.sig2, sample) &&
      (!FallingEdge(s.window.sig2, sample) ==> out == Quiet && t' == t && b' == b) &&
      (FallingEdge(s.window.sig2, sample) ==>
        t'.tick == !t.tick && t'.t1 == t.t2 && t'.t2 == t.t3 && t'.t3 == now && t'.edges == t.edges + 1) &&
      (FallingEdge(s.window.sig2, sample) && t.t2 == 0 ==>
        out == Quiet && t'.d1 == t.d1 && t'.d2 == t.d2 && b' == b) &&
      (FallingEdge(s.window.sig2, sample) && t.t2 != 0 ==>
        t'.d1 == t.d2 && t'.d2 == now - t.t3 &&
        var word := b.bits + [Decide(t'.tick, t'.d1, t'.d2)];
        if |word| == 8 then
          out == Wrote(Pack(word)) && b'.emitted == b.emitted + [Pack(word)] && b'.led == !b.led && b'.bits == []
        else
          out == Quiet && b'.bits == word && b'.emitted == b.emitted && b'.led == b.led)
  {
    if FallingEdge(s.window.sig2, sample) && s.timing.t2 != 0 {
      var t' := IntervalsOf(EdgeOf(s.timing, now));
      ShiftOfMeaning(s.buffer, Decide(t'.tick, t'.d1, t'.d2));
    }
  }

  /** Every write is one byte below 256, appended to the bytes written
      before, and the LED toggles exactly when a byte is written. */
  lemma StepWritesBytes(s: Loop, sample: bool, now: int)
    requires Inv(s) && now > 0
    ensures var (s', out) := StepOf(s, sample, now);
      var e, e' := s.buffer.emitted, s'.buffer.emitted;
      (out.Wrote? ==> |e'| == |e| + 1 && e'[..|e|] == e && out.b == e'[|e|] && out.b < 256) &&
      (out.Quiet? ==> e' == e) &&
      (s'.buffer.led != s.buffer.led <==> out.Wrote?)
  {
    StepMeaning(s, sample, now);
    var (s', out) := StepOf(s, sample, now);
    if out.Wrote? {
      var word := s.buffer.bits + [Decide(s'.timing.tick, s'.timing.d1, s'.timing.d2)];
      PackBound(word);
      assert Pow2(8) == 256;
      assert s'.buffer.emitted[..|s.buffer.emitted|] == s.buffer.emitted;
    }
  }

  /** The first decision compares the first interval against the zero d2
      the loop started with, instead of against the interval t2 - t1 that
      came before it. */
  lemma FirstDecisionSeesZero(s: Loop, sample: bool, now: int)
    requires Inv(s) && now > 0 && s.timing.edges == 2 && FallingEdge(s.window.sig2, sample)
    ensures var t' := StepOf(s, sample, now).0.timing;
      t'.d1 == 0 && t'.d2 == t'.t3 - t'.t2 && t'.t1 != 0
  {
  }

  // ---------------------------------------------------------------------
  // The loop state of `main`

  class Extractor {
    var sig1: bool
    var sig2: bool
    var tick: bool
    var t1: int
    var t2: int
    var t3: int
    var d1: int
    var d2: int
    var buf: int
    var bufIdx: int
    var led: bool

    /** Falling edges seen so far. */
    ghost var edges: nat
    /** The bits decided since the last byte was written. */
    ghost var bits: seq<bool>
    /** The bytes written so far. */
    ghost var emitted: seq<int>

    ghost function Bytes(): Buffer
      reads this
    {
      Buffer(buf, bufIdx, led, bits, emitted)
    }

    ghost function Times(): Timing
      reads this
    {
      Timing(tick, t1, t2, t3, d1, d2, edges)
    }

    ghost function State(): Loop
      reads this
    {
      Loop(Window(sig1, sig2), Times(), Bytes())
    }

    ghost predicate Valid()
      reads this
    {
      Inv(State())
    }

    /** The zero values the locals of `main` start from. */
    constructor ()
      ensures Valid() && State() == Start
    {
      sig1, sig2, tick, led := false, false, false, false;
      t1, t2, t3, d1, d2 := 0, 0, 0, 0, 0;
      buf, bufIdx := 0, 0;
      edges, bits, emitted := 0, [], [];
    }

    /** The tail of the loop body: shift the decided bit into the byte and
        write the byte out once it holds 8 bits. */
    method ShiftBit(bit: bool) returns (out: Written)
      modifies this`buf, this`bufIdx, this`led, this`bits, this`emitted
      ensures (Bytes(), out) == ShiftOf(old(Bytes()), bit)
    {
      buf := (buf * 2) % 256;
      if bit {
        buf := buf + 1;   // the shifted byte is even, so `buf |= 1` adds one
      }
      bits := bits + [bit];
      bufIdx := bufIdx + 1;
      if bufIdx > 7 {
        led := !led;
        out := Wrote(buf);   // the byte goes to the serial port as text
        emitted := emitted + [buf];
        buf, bufIdx, bits := 0, 0, [];
      } else {
        out := Quiet;
      }
    }

    /** Toggle `tick` and slide the time window. */
    method SlideTimes(now: int)
      modifies this`tick, this`t1, this`t2, this`t3, this`edges
      ensures Times() == EdgeOf(old(Times()), now)
    {
      tick := !tick;
      edges := edges + 1;
      t1, t2, t3 := t2, t3, now;
    }

    /** The intervals move along: d1 takes the old d2, d2 the newest gap t3 - t2. */
    method UpdateIntervals()
      modifies this`d1, this`d2
      ensures Times() == IntervalsOf(old(Times()))
    {
      d1, d2 := d2, t3 - t2;
    }

    /** The alternating-polarity comparator on the two newest intervals,
        which the loop body applies with `buf |= 1` for a 1. */
    method DecideBit() returns (bit: bool)
      ensures bit == Decide(tick, d1, d2)
    {
      bit := false;
      if tick {
        if d1 > d2 {
          bit := true;
        }
      } else {
        if d2 > d1 {
          bit := true;
        }
      }
    }

    /** The loop body after a falling edge was seen. */
    method OnFallingEdge(now: int) returns (out: Written)
      requires Valid() && now > 0
      modifies this`tick, this`t1, this`t2, this`t3, this`d1, this`d2, this`edges
      modifies this`buf, this`bufIdx, this`led, this`bits, this`emitted
      ensures (State(), out) == FallOf(old(State()), now)
      ensures Valid()
    {
      ghost var s0 := State();
      SlideTimes(now);
      if t1 == 0 {
        assert (State(), Quiet) == FallOf(s0, now);
        FallKeepsInv(s0, now);
        return Quiet;
      }
      UpdateIntervals();
      var bit := DecideBit();
      assert Times() == IntervalsOf(EdgeOf(s0.timing, now)) && Bytes() == s0.buffer;
      out := ShiftBit(bit);
      assert (State(), out) == FallOf(s0, now);
      FallKeepsInv(s0, now);
    }

    /** One pass of the loop body, given the pin sample and the clock
        (`now` > 0). Returns the byte written, if any. */
    method Step(sample: bool, now: int) returns (out: Written)
      requires Valid() && now > 0
      modifies this
      ensures (State(), out) == StepOf(old(State()), sample, now)
      ensures Valid()
    {
      sig1, sig2 := sig2, sample;
      if !(sig1 && !sig2) {
        return Quiet;
      }
      out := OnFallingEdge(now);
    }
  }
}
