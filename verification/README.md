# SLCAN protocol engine in Dafny

A model of the protocol engine of a small Rust crate that talks the
Lawicel-style SLCAN ASCII command set to a CAN adapter over a serial line
(`src/lib.rs`). The model covers:

- the hex helpers `hextou8`, `hex2tou8`, `unpack_data`, `hextou32`,
  `hexdigit`, `u32tohex3` and `bytestohex` (module `Hex`, file `hex.dfy`);
- the constants, the `BitRate` setup codes and `CanFrame::new` (module
  `Protocol`, `protocol.dfy`) and the `io` error kinds the socket raises
  (module `Io`, `io.dfy`);
- the line accumulator of `CanSocket::read`: a 32-byte buffer `rbuff`, the
  fill count `rcount` and the overflow flag `error`, stepped one byte at a
  time (module `LineAccumulator`, `accumulator.dfy`);
- the frame decoder `CanSocket::bump` (module `Decoder`, `decoder.dfy`);
- `CanSocket::open`, `close`, `write` and `read` over a transport modelled
  as plain bytes (module `Socket`, `socket.dfy`);
- concrete exchanges on the wire, derived from the general lemmas (module
  `Scenarios`, `scenarios.dfy`).

`open`, `close` and `write` return the bytes they hand to the port. `read`
takes the bytes the port has available now. It returns the outcome, the
number of bytes it consumed and the accumulator it leaves. When the bytes
run out, `port.read` returns no byte and the loop ends with `WouldBlock`.

Rust panics are outcomes, not preconditions:

- `Fallible.OutOfBounds` is a slice or index out of range in the hex helpers.
- `IoResult.Panic` is a panic in the decoder: the u8 underflow of
  `rbuff[4] - 0x30`, or the store `buf[8]` in `unpack_data`.

Where the code differs from a plain reading of the SLCAN line format, the
model follows the code:

- An identifier that is not hex is reported as `WouldBlock`, the same as an
  unknown command, not as a malformed-data error. Only data digits that are
  not hex give `InvalidData` (`Scenarios.BadIdThenFrame`).
- The length digit is the fifth byte of the line. So `t0010042\r` is
  identifier 0x001 with length 0, and the trailing `042` is ignored. It is
  not a one-byte frame holding 0x42 (`Scenarios.ZeroLengthIgnoresTrailingDigits`).
- `bump` decodes the whole 32-byte buffer and never looks at `rcount`. A
  line too short for its length digit is not rejected. It decodes the data
  digits an earlier, longer line left in the buffer
  (`Socket.HeaderOnlyLineReadsStaleData`, `Scenarios.StaleDataDecoded`).
- The length digit is not range-checked. A byte below `'0'` panics. A digit
  above `'8'` panics exactly when the first nine digit pairs decode, and
  otherwise gives `InvalidData` (`Decoder.DlcOverCapacity`).

## Model

| member | source | states |
|---|---|---|
| Hex.Hextou8 | src/lib.rs:43-55 | succeeds exactly on the bytes `[0-9a-fA-F]`, never panics, and returns a nibble below 16 |
| Hex.Hex2tou8 | src/lib.rs:57-62 | succeeds exactly when the first two bytes are hex digits, with the value of those two digits high nibble first; panics exactly when the slice is empty, or has one byte and that byte is a hex digit |
| Hex.UnpackData | src/lib.rs:64-74 | on success, the length is at most 8 and pair `j` of the digits decodes to byte `j` for `j < len`, with the rest zero; when the length fits it never panics and succeeds exactly when the first `2*len` bytes are hex |
| Hex.UnpackFrom | src/lib.rs:67-71 | the loop from iteration `i` on keeps the bytes already stored, stores pair `j` at `j` and leaves the padding untouched |
| Hex.UnpackPastCapacity | src/lib.rs:67-71 | asked for more than eight bytes, the loop panics on the ninth store once the first nine pairs decode |
| Hex.UnpackBadPair | src/lib.rs:67-71 | asked for more than eight bytes, the loop reports a pair that fails to decode among the first nine before the ninth store |
| Hex.UnpackBytesToHex | src/lib.rs:64-74 | `unpack_data(bytestohex(d) ++ rest, len(d))` gives back `d` zero-padded to eight bytes, whatever follows the digits |
| Hex.Hextou32 | src/lib.rs:76-89 | never panics, succeeds exactly when every byte is a hex digit, and for at most eight digits yields their positional value, below `16^len` |
| Hex.Hextou32From | src/lib.rs:79-86 | the shift-in loop from any accumulated value fails exactly when a byte is not a hex digit |
| Hex.Hextou32ThreeDigits | src/lib.rs:76-89 | on three bytes, fails exactly on a non-digit and otherwise yields at most 0xFFF |
| Hex.HexDigit | src/lib.rs:91-93 | emits an upper-case digit from the table that decodes back to the low nibble of the value |
| Hex.DecodeEncodeDigit | src/lib.rs:43-55 | decoding a digit and encoding its value again gives the upper-case form of the digit |
| Hex.U32ToHex3 | src/lib.rs:95-101 | three upper-case hex digits |
| Hex.U32ToHex3RoundTrip | src/lib.rs:95-101 | `hextou32(u32tohex3(v))` is the low twelve bits of `v` |
| Hex.BytesToHex | src/lib.rs:103-112 | twice as many upper-case hex digits as bytes, and pair `i` decodes back to byte `i` |
| Hex.HexPairValue | src/lib.rs:107-108 | the high-nibble digit followed by the low-nibble digit decodes to the byte |
| Protocol.Code | src/lib.rs:18-28 | the setup code of a bit rate is a character from `'0'` to `'8'` |
| Protocol.CodeOrdersRates | src/lib.rs:18-28 | setup codes and speeds are in the same order, both ways |
| Protocol.MtuValue | src/lib.rs:7 | the receive buffer is 32 bytes |
| Protocol.NewFrame | src/lib.rs:114-125 | panics exactly for more than eight bytes; otherwise keeps id and dlc, holds eight bytes, begins with `data` and is zero after it |
| Hex.Pad | src/lib.rs:116-117 | eight bytes that begin with `data` and are zero after it |
| LineAccumulator.Init | src/lib.rs:138-145 | a new socket has a clean accumulator and a zeroed buffer |
| LineAccumulator.Step | src/lib.rs:183-201 | keeps `rcount <= 32`; a terminator resets count and flag and keeps the buffer; another byte is stored at `rcount` exactly when the line has not overflowed and the buffer is not full, and otherwise sets `error` and changes nothing else |
| LineAccumulator.FeedAppend | src/lib.rs:182-204 | stepping over `x ++ y` is stepping over `x`, then `y` |
| LineAccumulator.FeedLine | src/lib.rs:195-197 | a line that fits is written after the bytes already taken; the rest of the buffer keeps what was there |
| LineAccumulator.FeedOverflow | src/lib.rs:195-200 | a line longer than the buffer fills it, sets `error` and drops the bytes that did not fit |
| LineAccumulator.FeedErrored | src/lib.rs:194-201 | once the line has overflowed, bytes up to the next terminator change nothing |
| LineAccumulator.FeedTerminated | src/lib.rs:185-189 | a terminator leaves the accumulator clean, with the buffer as it was |
| LineAccumulator.ShortLineQuiet | src/lib.rs:185-193 | from a clean state, a line of at most four bytes and its terminator are absorbed without a decode |
| LineAccumulator.OverflowLineQuiet | src/lib.rs:194-201 | from a clean state, a line too long for the buffer and its terminator are dropped without a decode |
| Decoder.Bump | src/lib.rs:209-231 | succeeds exactly on a transmit line, with id at most 0xFFF, dlc the length digit, pair `j` decoding to data byte `j` and zeros after; another command or a non-hex id gives `WouldBlock` and nothing else does; with a length digit of at most 8, bad data gives `InvalidData` and nothing panics; a length byte below `'0'` panics (above `'8'`: `Decoder.DlcOverCapacity`); the arm from the length digit on is the helper `Decoder.DecodeFrom` (src/lib.rs:219-227) |
| Decoder.DlcOverCapacity | src/lib.rs:219-222 | with a length digit above 8, decoding panics exactly when the first nine digit pairs are hex, and gives `InvalidData` otherwise |
| Decoder.ZeroLengthIgnoresRest | src/lib.rs:219-224 | a length digit `0` gives an empty zeroed frame whatever follows it |
| Socket.Open | src/lib.rs:147-152 | two command lines: `S` with the bit-rate code, then `O` |
| Socket.Close | src/lib.rs:154-158 | one command line, `C` |
| Socket.TransmitLine | src/lib.rs:167-173 | `t`, the three id digits, a length digit that reads back as the payload length, then the data digits, all upper case, with no terminator inside |
| Socket.Write | src/lib.rs:160-176 | more than eight bytes is `InvalidInput` and nothing else is; otherwise the transmit line and a carriage return, `6 + 2*dlc` bytes |
| Socket.Read | src/lib.rs:178-207 | keeps the accumulator valid; consuming nothing changes nothing; it stops only just after a terminator, and is clean then; anything but `WouldBlock` comes from a terminator; bytes without a terminator are all consumed with `WouldBlock` |
| Socket.ReadFirstLine | src/lib.rs:182-206 | `read` stops at the first byte that completes a line and decodes the buffer as that byte leaves it; when no byte does, it consumes all input with `WouldBlock` |
| Socket.ReadAfterQuiet | src/lib.rs:182-204 | bytes that complete no line only move the accumulator on |
| Socket.ReadOneLine | src/lib.rs:182-193 | from a clean state, one line of five to 32 bytes and its terminator are read as a unit and the buffer they leave is decoded |
| Socket.BumpTransmitLine | src/lib.rs:209-231 | `bump` decodes an encoded transmit line to its frame whatever the rest of the buffer holds |
| Socket.WriteThenRead | src/lib.rs:160-231 | from any clean state, reading what `write` sends gives the frame with the low twelve bits of the id, the payload length and the zero-padded payload, and consumes exactly the bytes sent |
| Socket.ReadAfterNoise | src/lib.rs:185-193 | after a bad line ended by a terminator, the next transmit command decodes as on a fresh socket |
| Socket.OverflowThenFrame | src/lib.rs:194-201 | after a line that overflowed the buffer, the next transmit command decodes normally |
| Socket.ControlLinesAbsorbed | src/lib.rs:147-158 | the commands `open` and `close` send, read back, are absorbed without a decode |
| Socket.HeaderOnlyLineReadsStaleData | src/lib.rs:210-222 | a line that stops after its length digit decodes the data digits left in the buffer |
| Socket.HeaderAfterFrameRepeatsIt | src/lib.rs:210-222 | after a frame is read, its bare header decodes to the same frame |
| Scenarios.EncodeEmptyFrame | src/lib.rs:160-176 | an empty frame for 0x7FF is sent as `t7FF0\r` |
| Scenarios.EncodeDead | src/lib.rs:160-176 | id 0x123 with bytes DE AD is sent as `t1232DEAD\r` |
| Scenarios.DecodeTwoByteFrame | src/lib.rs:178-231 | `t1232DEAD\r` decodes to id 0x123, two bytes DE AD, and consumes ten bytes |
| Scenarios.BadIdThenFrame | src/lib.rs:214-218 | `tZZZ1AA\r` gives `WouldBlock` and the next line decodes |
| Scenarios.ZeroLengthIgnoresTrailingDigits | src/lib.rs:219-224 | `t0010042\r` is an empty frame for id 1 |
| Scenarios.LengthBelowZeroPanics | src/lib.rs:219 | `t123/\r` panics |
| Scenarios.BareReturnThenFrame | src/lib.rs:185-193 | a bare carriage return before `t1232DEAD\r` is absorbed and the frame decodes |
| Scenarios.OverflowThenDead | src/lib.rs:194-201 | forty bytes without a terminator, a carriage return, then `t1232DEAD\r`: the frame decodes after 51 bytes |
| Scenarios.StaleDataDecoded | src/lib.rs:210-222 | `t1232\r` after `t1232DEAD\r` decodes to the earlier payload |

## Left out

- The serial port itself. Errors from `port.read` and `port.write`,
  timeouts and partial writes are not modelled. `read` sees the bytes
  available now, and running out of them is the end of its loop.
- Socket.Open, Socket.Close, Socket.Write: return the bytes sent, not the
  `io::Result` or byte count `port.write` reports, because the port is not
  modelled.
- Hex.Hextou32: states the value only for at most eight digits. The body
  drops the top nibble on each shift as the u32 does, but no contract
  describes the value for longer inputs, which the engine never passes.
- Decoder.Bump: models the debug-build panic of `rbuff[4] - 0x30`. A
  release build wraps the subtraction instead, giving a huge length that
  panics or fails in `unpack_data`.
- `CanSocket::new` is modelled only by its initial state (`LineAccumulator.Init`).
  The generic port it takes is not modelled.
- The `Display` impl of `CanFrame` (`src/lib.rs:127-135`): formatting only.
- `src/embedded_can_impl.rs` is not part of this model. It is an adapter
  that maps `WouldBlock` onto the external `embedded_can` traits, whose
  types are not available.
- The crate's example programs (`embedded_can.rs`, `macos_example.rs`): they
  open a serial device and print in a loop, which is I/O only.
