# nuclear-rng, modelled in Dafny

nuclear-rng is a hardware random number generator in two parts.

- The firmware runs on a Raspberry Pi Pico wired to a radiation detector. It
  timestamps the detector's pulses (falling edges on a GPIO pin) and compares
  consecutive inter-pulse intervals to get one bit per pulse. The comparison
  polarity alternates from pulse to pulse (`tick`), which cancels the slow
  drift caused by the source decaying. Every eight bits are packed MSB-first
  into a byte. The byte is written to the USB serial port as two lower-case
  hex digits, and the LED toggles.
- The Go host package `nuclearrng` finds the Pico by its USB vendor/product
  id and opens its serial port. Its `NuclearRNG` object works in one of two
  modes:
  - Raw mode returns the device's bytes as they come.
  - Keyed mode seeds a ChaCha20 stream cipher with 44 raw bytes (a 32-byte
    key and a 12-byte nonce). `Read` XORs the keystream into the caller's
    buffer; `GetRandom` passes a zeroed buffer and so returns the keystream
    itself.
  - Each reseed reads 44 fresh raw bytes, mixes them with the old
    keystream, and draws a counter in [1, 2) MiB from the new keystream.
    A `Read` whose length reaches the remaining counter reseeds first. A
    long `Read` is therefore served whole from the new key
    (`LongReadOneKey`), and a key can serve far less than 1 MiB or far
    more.

The model has six modules:

| file | module | what it holds |
|---|---|---|
| `bytes.dfy` | `Bytes` | zeroed buffers and byte-wise XOR |
| `keystream.dfy` | `Keystream` | ChaCha20 as an abstract keystream function `(key, nonce, position) -> byte`; a cipher is a key, a nonce and a cursor |
| `port.dfy` | `Port` | the serial port as a queue of replies to `Read` calls; the `readRaw` loop as the function `FillFrom` |
| `vidpid.dfy` | `VidPid` | the allow-list check applied during discovery |
| `nuclear_rng.dfy` | `NuclearRng` | the class `NuclearRNG`, whose methods update `port`, `cipher` and `reseedCounter`; specification functions `RawReadOf`, `RekeyOf`, `StirOf` and `ReadOf`, and lemmas about them |
| `firmware.dfy` | `Firmware` | the class `Extractor`, which holds the locals of the firmware's `main`; its `Step` method is one pass of the sampling loop; the specification function `StepOf`, the invariant `Inv`, and lemmas about them |

Each method is proved equal to its specification function. The properties
are lemmas about those functions.

Three behaviours of the code that a reader might not expect, modelled as written:

- `Read` with a cipher ignores the reseed error. It returns `len(p)` and no
  error even when the port failed during the reseed. In that case the old
  cipher and the old counter stay in place (`ReadAfterFailedStir`).
- On failure, `readRaw` returns the byte count of the failing call only, not
  the total byte count (`Port.FillFailure` and `NuclearRng.RawReadOutcome`
  for all inputs; `FailureReportsLastCallOnly` for one example).
- The firmware's `d1` is the previous `d2`, not `t2 - t1` recomputed. On the
  first decision `d1` is therefore still zero (`FirstDecisionSeesZero`). From
  the fourth edge on the two agree (`TimingInv`).

## Model

| member | source | states |
|---|---|---|
| Port.ReadCall | nuclear_rng.go:135 | one port `Read` call never places more than the room it is given; an empty queue fails with no bytes; a successful call either fills the room or consumes a reply |
| Port.FillFrom | nuclear_rng.go:133-140 | the `readRaw` loop: repeated port calls into the unfilled rest of the buffer until it is full or a call fails, keeping the failing call's count; its properties are `FillLength`, `FillSucceedsIff`, `FillInOrder` and `FillFailure` |
| Port.FillLength | nuclear_rng.go:133-140 | the `readRaw` loop places at most `room` bytes, and exactly `room` when no call failed |
| Port.ReadCallStream | nuclear_rng.go:135 | a successful call takes its bytes from the front of the port's byte stream |
| Port.FillSucceedsIff | nuclear_rng.go:133-140 | the loop succeeds if and only if the port delivers `room` bytes before its first failing call |
| Port.FillInOrder | nuclear_rng.go:133-140 | on success the buffer holds the next `room` stream bytes in order, and the rest of the stream stays queued |
| Port.FillFailure | nuclear_rng.go:134-138 | on failure the bytes placed before the failing call are exactly the port's stream, and the reported `n` is the running count minus that stream's length, i.e. the failing call's bytes only |
| Port.FailureReportsLastCallOnly | nuclear_rng.go:136-137 | two bytes and then a failing call give `n` = 0 with the two bytes already placed |
| Keystream.NextSplit | nuclear_rng.go:127 | reading m and then n keystream bytes gives the same bytes as reading m + n at once, so no position is skipped or used twice |
| Bytes.XorZeros | nuclear_rng.go:84-85 | XOR into a zeroed buffer yields the keystream itself |
| Bytes.XorConcat | nuclear_rng.go:127 | XOR of equal-length concatenations is the concatenation of the XORs |
| VidPid.MatchesAny | nuclear_rng.go:153-158 | the search loop over the allow-list, returning at the first case-insensitive match; `MatchesAnyIff` gives its meaning |
| VidPid.ValidateVIDPID | nuclear_rng.go:151-159 | `validateVIDPID`: the search for `vid:pid` in the allow-list; `ValidateVIDPIDIff` gives its meaning |
| VidPid.MatchesAnyIff | nuclear_rng.go:153-158 | the search loop returns true if and only if some entry equals `vid:pid`, ignoring case |
| VidPid.ValidateVIDPIDIff | nuclear_rng.go:151-163 | a device is accepted if and only if `vid:pid`, lower-cased, is `2e8a:000a` |
| VidPid.ValidateVIDPIDIgnoresCase | nuclear_rng.go:154-162 | upper-case `2E8A:000A` is accepted, and `2e8a:0003` is not |
| NuclearRng.ReseedCount | nuclear_rng.go:86 | the drawn reseed interval lies in [RekeyBase, 2 * RekeyBase) |
| NuclearRng.Drawdown | nuclear_rng.go:89-93 | the counter never goes negative: it drops by the request, or to 0 when the request reaches it |
| NuclearRng.RawReadOf | nuclear_rng.go:132-143 | `readRaw(p)` as a function of the port's queue and the old contents of p; `RawReadOutcome` gives its meaning and `NuclearRNG.ReadRaw` is proved equal to it |
| NuclearRng.RekeyOf | nuclear_rng.go:98-107 | `rekey(data)` as a function of the old cipher; `RekeyMixes` and `RekeyKeepsData` give its meaning |
| NuclearRng.StirOf | nuclear_rng.go:71-96 | `stirIfNeeded(length)` as a function of the port, cipher and counter; `StirWithoutReseed`, `StirReseeds`, `StirCounterAfterReseed` and `StirKeepsCounterInRange` give its meaning |
| NuclearRng.ReadOf | nuclear_rng.go:118-130 | `Read(p)` as a function of the object's state; `ReadWithCipher`, `ReadAfterReseed`, `ReadAfterFailedStir`, `ReadWithoutCipher` and `ConsecutiveReads` give its meaning |
| NuclearRng.RawReadOutcome | nuclear_rng.go:132-143 | `readRaw(p)` returns `len(p)` with no error if and only if the port can deliver `len(p)` bytes, and p then holds exactly those bytes; on error the port could not deliver `len(p)` bytes, p starts with the whole stream, and the returned count excludes those stream bytes: it is only what the failing call placed, at most `len(p)` minus the stream's length |
| NuclearRng.RekeyMixes | nuclear_rng.go:98-107 | the new key is the first 32 data bytes XORed with the old keystream from its cursor; the nonce is the next 12 bytes, mixed the same way; the new cursor is 0 |
| NuclearRng.RekeyKeepsData | nuclear_rng.go:98-107 | XORing the new key and nonce with the same old keystream gives back the raw data, so distinct raw seeds give distinct ciphers |
| NuclearRng.StirWithoutReseed | nuclear_rng.go:89-93 | when the counter exceeds the request, nothing is read, the cipher stays, and the counter drops by the request |
| NuclearRng.StirReseeds | nuclear_rng.go:71-87 | when the counter is at most the request, the stir fails if and only if the port cannot deliver 44 bytes, and then the cipher and the counter stay; otherwise exactly 44 stream bytes are consumed and key the new cipher through `rekey`, the new cipher continues at position 8, and the counter is the big-endian draw reduced by the request |
| NuclearRng.StirCounterAfterReseed | nuclear_rng.go:84-93 | after a reseed the counter lies below 2 * RekeyBase, and for a request shorter than RekeyBase it is at least RekeyBase minus the request |
| NuclearRng.StirKeepsCounterInRange | nuclear_rng.go:71-96 | a counter in [0, 2 * RekeyBase) stays in that range across a stir |
| NuclearRng.ReadWithCipher | nuclear_rng.go:122-129 | with a cipher, `Read` always returns `(len(p), nil)` and XORs p with the stirred cipher's keystream, then advances the cursor by `len(p)` |
| NuclearRng.ReadAfterReseed | nuclear_rng.go:118-130 | a `Read` that reseeds consumes 44 raw bytes and serves p from position 8 of the new keystream onward |
| NuclearRng.ReadAfterFailedStir | nuclear_rng.go:126-129 | a `Read` whose reseed fails still returns `(len(p), nil)` and keeps the old counter; p is XORed with the old keystream from the old cursor |
| NuclearRng.LongReadOneKey | nuclear_rng.go:71-93 | a reseeding `Read` of at least 2 * RekeyBase bytes is served entirely from the new key and leaves the counter at 0, because a reseed happens only before a `Read`, never within one |
| NuclearRng.FirstReadReseeds | nuclear_rng.go:72 | the counter starts at 0, so the first keyed `Read` reseeds, even for an empty buffer |
| NuclearRng.ReadWithoutCipher | nuclear_rng.go:122-124 | without a cipher, `Read` is exactly `readRaw`, and the counter is untouched |
| NuclearRng.ConsecutiveReads | nuclear_rng.go:118-130 | two `Read`s that do not reseed serve one unbroken stretch of keystream, and together they draw the counter down by both lengths |
| NuclearRng.GetRandomIsKeystream | nuclear_rng.go:109-116 | with a cipher, `GetRandom(n)` returns the next n bytes of the stirred keystream |
| NuclearRng.NuclearRNG.Raw | nuclear_rng.go:68 | a freshly opened device has no cipher and a zero counter |
| NuclearRng.NuclearRNG.PortRead | nuclear_rng.go:135 | one port call writes its bytes at the offset and changes no other byte of p; the `readRaw` loop from this point is those bytes followed by the loop over the remaining room |
| NuclearRng.NuclearRNG.ReadRaw | nuclear_rng.go:132-143 | the in-place loop leaves p, the count, the error and the port as `RawReadOf` describes |
| NuclearRng.NuclearRNG.XorKeyStream | nuclear_rng.go:127 | p is XORed in place with the next `len(p)` keystream bytes, and the cursor advances by `len(p)` |
| NuclearRng.NuclearRNG.Rekey | nuclear_rng.go:98-107 | the cipher becomes `RekeyOf` of the old cipher and the data |
| NuclearRng.NuclearRNG.StirIfNeeded | nuclear_rng.go:71-96 | port, cipher, counter and error become what `StirOf` describes, and the object invariant (the counter in [0, 2 * RekeyBase), a 32-byte key and a 12-byte nonce) is kept |
| NuclearRng.NuclearRNG.Read | nuclear_rng.go:118-130 | port, cipher, counter, the contents of p, `n` and `err` become what `ReadOf` describes, and the object invariant is kept |
| NuclearRng.NuclearRNG.GetRandom | nuclear_rng.go:109-116 | `GetRandom` is `Read` into a fresh zeroed buffer; on error it returns nothing |
| NuclearRng.New | nuclear_rng.go:27-44 | `New` fails (no object) if and only if the first 44-byte raw read fails; otherwise the cipher is keyed with those raw bytes unmixed (key first, then nonce), and the counter is 0 |
| Firmware.PackBound | firmware/firmware.go:50-69 | k packed bits fit in k bits |
| Firmware.ShiftIn | firmware/firmware.go:50-59 | doubling a byte that holds at most 7 bits stays below 256, so the 8-bit shift loses nothing, and adding the bit packs the extended bit list |
| Firmware.PackLeadingBit | firmware/firmware.go:50-66 | the first bit shifted in after a reset becomes the top bit of the byte |
| Firmware.UnpackPack | firmware/firmware.go:50-76 | an emitted byte unpacks to the eight decided bits in order, so packing loses nothing |
| Firmware.Decide | firmware/firmware.go:56-66 | the alternating-polarity comparator; `DecidePolarities` and `DriftBalances` give its meaning |
| Firmware.DecidePolarities | firmware/firmware.go:56-66 | equal intervals give 0 in both polarities; unequal intervals give opposite bits in the two polarities |
| Firmware.DriftBalances | firmware/firmware.go:52-66 | for a steadily slowing pulse train the k-th bit is 1 exactly when the k-th decision runs on the non-tick polarity, so ones and zeros alternate and half are ones |
| Firmware.Hex2RoundTrip | firmware/firmware.go:75 | each byte is written as two lower-case hex digits that read back as the byte |
| Firmware.Text | firmware/firmware.go:75 | a pass writes two characters when it emits a byte and none otherwise |
| Firmware.ShiftOf | firmware/firmware.go:49-77 | the shift of one decided bit into the byte and the byte write; `ShiftOfMeaning` gives its meaning |
| Firmware.FallOf | firmware/firmware.go:35-77 | the loop body after a falling edge; `FallKeepsInv` keeps the invariant across it |
| Firmware.StepOf | firmware/firmware.go:26-78 | one pass of the loop body; `StepMeaning`, `StepKeepsInv`, `StepWritesBytes` and `FirstDecisionSeesZero` give its meaning |
| Firmware.StartInv | firmware/firmware.go:18-24 | the zero-valued locals satisfy the loop invariant |
| Firmware.InvBounds | firmware/firmware.go:68-77 | between passes `bufIdx` lies in [0, 7] and `buf` < 2^bufIdx |
| Firmware.ShiftOfMeaning | firmware/firmware.go:49-77 | shifting a bit keeps the buffer invariant; at the eighth bit it writes `Pack` of the eight decided bits, toggles the LED and starts an empty byte; before that it only extends the bit list |
| Firmware.FallKeepsInv | firmware/firmware.go:35-77 | the falling-edge handler keeps the loop invariant |
| Firmware.StepKeepsInv | firmware/firmware.go:26-78 | one loop pass keeps the invariant: `tick` is the parity of the edge count; the set timestamps and the intervals match the edge count; every edge from the third on decided exactly one bit |
| Firmware.StepMeaning | firmware/firmware.go:27-77 | one pass: the window slides; no falling edge means no output and no other change; a falling edge flips `tick` and slides the timestamps; before three timestamps there is no decision; afterwards `d1` takes the old `d2` and `d2` is the newest gap, and with eight bits the pass writes the packed byte and resets |
| Firmware.StepWritesBytes | firmware/firmware.go:71-77 | every write is one byte below 256, appended to the bytes written before; the LED toggles exactly when a byte is written |
| Firmware.FirstDecisionSeesZero | firmware/firmware.go:41-47 | on the first decision `d1` is 0 rather than `t2 - t1` |
| Firmware.Extractor.constructor | firmware/firmware.go:18-24 | the locals start at their zero values, which satisfy the invariant |
| Firmware.Extractor.ShiftBit | firmware/firmware.go:50-77 | the 8-bit shift, the OR of the decided bit, the index step and the byte write change the buffer as `ShiftOf` describes |
| Firmware.Extractor.SlideTimes | firmware/firmware.go:36-39 | `tick` flips and the time window slides in the new timestamp |
| Firmware.Extractor.UpdateIntervals | firmware/firmware.go:47 | `d1` takes the old `d2`, and `d2` becomes `t3 - t2` |
| Firmware.Extractor.DecideBit | firmware/firmware.go:56-66 | the nested comparisons compute the alternating-polarity decision |
| Firmware.Extractor.OnFallingEdge | firmware/firmware.go:35-77 | after a falling edge the state and the output become what `FallOf` describes, and the invariant holds |
| Firmware.Extractor.Step | firmware/firmware.go:26-78 | one loop pass changes the state and the output as `StepOf` describes and keeps the invariant |

## Left out

- Device discovery (`NewRaw`), `serial.Open` and `Close` talk to the operating system. The model starts from an open port, given as a queue of replies. The USB check used in discovery is modelled (`VidPid`); the enumeration loop is not.
- The `sync.Mutex` of `NuclearRNG` is not modelled. `Read` is one atomic step.
- `log.Printf` in `readRaw` and the hex encoding it logs are not modelled.
- ChaCha20's block function is not modelled. The keystream is an abstract function of key, nonce and position, supplied when the object is built.
- The cipher-construction errors in `New` and `rekey` cannot fire: the seed is always 32 + 12 bytes. `NewCipher` takes those sizes as a precondition, and the error paths are absent.
- The panic of `XORKeyStream` once the 32-bit block counter overflows (256 GiB under one key) is not modelled. The cursor is an unbounded position.
- A serial port that has no more replies blocks forever in Go. The model treats an exhausted queue as a failing read with no bytes.
- Firmware: GPIO reads and `time.Now` become the inputs `sample` and `now` of `Step`. Timestamps are unbounded integers, and the zero `time.Time` is 0, so `now` > 0.
- Firmware: the pin and LED configuration and `board.LEDPin.Set` are not modelled. `led` is a field.
- Firmware: `fmt.Printf` becomes the `Written` result of `Step`. `Text` and `Hex2` give the two characters it would print.
- Firmware.Extractor.UpdateIntervals: does not model the saturation of `t3.Sub(t2)` at the int64 limits, because gaps between pulses are far below 292 years.
- VidPid.Lower: lowers ASCII letters only, not Unicode case folding, because the identifiers are hex digits.
- NuclearRng.NuclearRNG.GetRandom: takes a `nat` count. Go's `make([]byte, bytes)` panics for a negative count, and that panic is not modelled.
- Bytes returned by `GetRandom` are reported as a sequence; the Go function's choice to return a nil slice on error is modelled as the empty sequence.
