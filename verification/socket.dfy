/**
  `CanSocket` (src/lib.rs:137-232) over a transport modelled as plain bytes:
  `open`, `close` and `write` return the bytes they hand to the port, and
  `read` takes the bytes the port has available right now and reports how
  many of them it consumed and the accumulator state it leaves behind.
 */
module Socket {
  import opened Hex
  import opened Io
  import opened Protocol
  import opened LineAccumulator
  import opened Decoder

  /** A command for the adapter: bytes without a terminator, then a
      carriage return. */
  predicate IsCommandLine(w: seq<byte>) {
    |w| >= 1 && w[|w| - 1] == CARRIAGE_RETURN && NoTerminator(w[..|w| - 1])
  }

  /** `open`: the setup command for `bitrate`, then the open-channel
      command, as two writes. */
  function Open(bitrate: BitRate): (writes: seq<seq<byte>>)
    ensures |writes| == 2 && |writes[0]| == 3 && |writes[1]| == 2
    ensures IsCommandLine(writes[0]) && IsCommandLine(writes[1])
    ensures writes[0][..2] == [AsU8('S'), Code(bitrate)] && writes[1][..1] == [AsU8('O')]
  {
    [[AsU8('S'), Code(bitrate), AsU8('\r')], [AsU8('O'), AsU8('\r')]]
  }

  /** `close`: the close-channel command, as one write. */
  function Close(): (writes: seq<seq<byte>>)
    ensures |writes| == 1 && |writes[0]| == 2 && IsCommandLine(writes[0]) && writes[0][..1] == [AsU8('C')]
  {
    [AsciiBytes("C\r")]
  }

  /** The transmit command for `id` and `data` without its terminator:
      `t`, three id digits, one length digit, two digits per data byte. */
  function TransmitLine(id: u32, data: seq<byte>): (line: seq<byte>)
    requires |data| <= 8
    ensures |line| == 5 + 2 * |data| && NoTerminator(line)
    ensures line[0] == TRANSMIT_COMMAND && line[1..4] == U32ToHex3(id)
    ensures Hextou8(line[4]) == Ok(|data|) && line[5..] == BytesToHex(data)
    ensures AllUpperHex(line[1..])
  {
    var id3 := U32ToHex3(id);
    var dlc := HexDigit(|data|);
    var hex := BytesToHex(data);
    SmallDigit(|data|);
    LineShape(TRANSMIT_COMMAND, id3, dlc, hex);
    [TRANSMIT_COMMAND] + id3 + [dlc] + hex
  }

  /** A command character, three digits, one digit and a run of digits
      make a line with those fields and no terminator inside. */
  lemma LineShape(c: byte, id3: seq<byte>, dlc: byte, hex: seq<byte>)
    requires |id3| == 3 && !IsTerminator(c)
    requires AllUpperHex(id3) && IsUpperHexDigit(dlc) && AllUpperHex(hex)
    ensures var line := [c] + id3 + [dlc] + hex;
      && |line| == 5 + |hex| && line[0] == c && line[1..4] == id3 && line[4] == dlc && line[5..] == hex
      && NoTerminator(line) && AllUpperHex(line[1..])
  {
    var line := [c] + id3 + [dlc] + hex;
    var digits := id3 + [dlc] + hex;
    assert line == [c] + digits;
    assert line[1..] == digits;
    assert line[1..4] == id3;
    assert line[5..] == hex;
    UpperAppend(id3 + [dlc], hex);
    UpperAppend(id3, [dlc]);
    assert AllHex(digits);
    HexNoTerminator(digits);
    NoTerminatorAppend([c], digits);
  }

  /** `write`: more than eight payload bytes are refused before anything is
      sent; otherwise the transmit command and a carriage return. */
  function Write(id: u32, data: seq<byte>): (r: IoResult<seq<byte>>)
    ensures r.Failure? <==> |data| > 8
    ensures r.Failure? ==> r.kind == InvalidInput
    ensures !r.Panic?
    ensures r.Success? ==> |r.value| == 6 + 2 * |data| && IsCommandLine(r.value)
    ensures r.Success? ==> r.value[..|r.value| - 1] == TransmitLine(id, data)
  {
    var dlc := |data|;
    if dlc > 8 then Failure(InvalidInput)
    else
      var bytes := TransmitLine(id, data) + [CARRIAGE_RETURN];
      assert bytes[..|bytes| - 1] == TransmitLine(id, data);
      Success(bytes)
  }

  /** What one call of `read` does: its result, how many of the available
      bytes it consumed, and the accumulator it leaves. */
  datatype ReadResult = ReadResult(outcome: IoResult<CanFrame>, consumed: nat, state: Accumulator)

  /** `read`: steps the accumulator over the available bytes until a
      terminator completes a line, which is then decoded; when the bytes run
      out first the result is `WouldBlock`. */
  function Read(a: Accumulator, input: seq<byte>): (r: ReadResult)
    requires Valid(a)
    ensures Valid(r.state) && r.consumed <= |input|
    ensures r.consumed == 0 ==> r.state == a && r.outcome == Failure(WouldBlock)
    ensures r.consumed < |input| ==> 0 < r.consumed && IsTerminator(input[r.consumed - 1])
    ensures 0 < r.consumed && IsTerminator(input[r.consumed - 1]) ==> IsClean(r.state)
    ensures !(r.outcome == Failure(WouldBlock)) ==> 0 < r.consumed && IsTerminator(input[r.consumed - 1])
    ensures NoTerminator(input) ==> r.outcome == Failure(WouldBlock) && r.consumed == |input|
    decreases |input|
  {
    if |input| == 0 then ReadResult(Failure(WouldBlock), 0, a)
    else
      var s := input[0];
      var next := Step(a, s);
      if LineComplete(a, s) then ReadResult(Bump(next.rbuff), 1, next)
      else
        var r := Read(next, input[1..]);
        ReadResult(r.outcome, r.consumed + 1, r.state)
  }

  // ---------------------------------------------------------------- lemmas

  /** `read` stops at the first byte that completes a line and returns the
      decoding of the buffer as that byte leaves it; if no byte completes a
      line it consumes everything and returns `WouldBlock`. */
  lemma {:induction false} ReadFirstLine(a: Accumulator, input: seq<byte>)
    requires Valid(a)
    ensures var r := Read(a, input);
      Quiet(a, input) ==> r == ReadResult(Failure(WouldBlock), |input|, Feed(a, input))
    ensures var r := Read(a, input);
      !Quiet(a, input) ==>
        && 0 < r.consumed <= |input|
        && Quiet(a, input[..r.consumed - 1])
        && LineComplete(Feed(a, input[..r.consumed - 1]), input[r.consumed - 1])
        && r.state == Feed(a, input[..r.consumed])
        && r.outcome == Bump(r.state.rbuff)
    decreases |input|
  {
    if |input| > 0 {
      var s := input[0];
      var next := Step(a, s);
      QuietCons(a, input);
      assert input[..0] == [];
      if LineComplete(a, s) {
        FeedPrefixCons(a, input, 1);
        assert input[1..][..0] == [];
      } else {
        var rest := input[1..];
        ReadFirstLine(next, rest);
        if !Quiet(next, rest) {
          var k := Read(next, rest).consumed;
          StoppedLater(a, input, k);
        }
      }
    }
  }

  /** When the first byte does not complete a line and reading the rest
      stops after `k` bytes, reading all of `input` stops after `k + 1`. */
  lemma StoppedLater(a: Accumulator, input: seq<byte>, k: nat)
    requires Valid(a) && 0 < k < |input| && !LineComplete(a, input[0])
    requires var rest := input[1..];
      && Quiet(Step(a, input[0]), rest[..k - 1])
      && LineComplete(Feed(Step(a, input[0]), rest[..k - 1]), rest[k - 1])
    ensures Quiet(a, input[..k])
    ensures LineComplete(Feed(a, input[..k]), input[k])
    ensures Feed(a, input[..k + 1]) == Feed(Step(a, input[0]), input[1..][..k])
  {
    var rest := input[1..];
    FeedPrefixCons(a, input, k + 1);
    FeedPrefixCons(a, input, k);
    QuietCons(a, input[..k]);
    assert input[..k][1..] == rest[..k - 1];
  }

  /** Bytes that complete no line only move the accumulator on: reading
      them and then `rest` is reading `rest` from the state they lead to. */
  lemma {:induction false} ReadAfterQuiet(a: Accumulator, bs: seq<byte>, rest: seq<byte>)
    requires Valid(a) && Quiet(a, bs)
    ensures var r := Read(Feed(a, bs), rest);
      Read(a, bs + rest) == ReadResult(r.outcome, |bs| + r.consumed, r.state)
    decreases |bs|
  {
    if |bs| == 0 {
      assert bs + rest == rest;
    } else {
      QuietCons(a, bs);
      assert (bs + rest)[0] == bs[0] && (bs + rest)[1..] == bs[1..] + rest;
      ReadAfterQuiet(Step(a, bs[0]), bs[1..], rest);
    }
  }

  /** `bump` decodes an encoded transmit line back to its frame whatever
      the rest of the buffer holds. */
  lemma BumpTransmitLine(id: u32, data: seq<byte>, tail: seq<byte>)
    requires |data| <= 8 && |TransmitLine(id, data)| + |tail| == SLCAN_MTU
    ensures Bump(TransmitLine(id, data) + tail) == Success(CanFrame(id % 0x1000, |data|, Pad(data)))
  {
    var line := TransmitLine(id, data);
    U32ToHex3RoundTrip(id);
    DecimalDigit(line[4], |data|);
    UnpackBytesToHex(data, tail);
    LineDecodes(line, tail, id % 0x1000, |data|, Pad(data));
  }

  /** `bump` on a line followed by anything decodes the line's fields. */
  lemma LineDecodes(line: seq<byte>, tail: seq<byte>, id: u32, dlc: nat, data: seq<byte>)
    requires |line| + |tail| == SLCAN_MTU && 5 <= |line| && dlc <= 8
    requires line[0] == TRANSMIT_COMMAND && Hextou32(line[1..4]) == Ok(id)
    requires line[4] == AsU8('0') + dlc && UnpackData(line[5..] + tail, dlc) == Ok(data)
    ensures Bump(line + tail) == Success(CanFrame(id, dlc, data))
  {
    var rb := line + tail;
    assert rb[1..4] == line[1..4];
    assert rb[5..] == line[5..] + tail;
    BumpFields(rb, id, dlc, data);
  }

  /** Round trip: from a clean accumulator, whatever its buffer holds,
      reading the bytes `write` sends yields the frame with the low twelve
      bits of the identifier, the payload length and the payload padded
      with zeros, and consumes exactly those bytes. */
  lemma WriteThenRead(a: Accumulator, id: u32, data: seq<byte>)
    requires Valid(a) && IsClean(a) && |data| <= 8
    ensures Write(id, data).Success?
    ensures var bytes := Write(id, data).value;
      var line := TransmitLine(id, data);
      Read(a, bytes) == ReadResult(
        Success(CanFrame(id % 0x1000, |data|, Pad(data))),
        |bytes|,
        Accumulator(line + a.rbuff[|line|..], 0, false))
    ensures NewFrame(id % 0x1000, |data|, data) == Ok(CanFrame(id % 0x1000, |data|, Pad(data)))
  {
    var line := TransmitLine(id, data);
    assert Write(id, data).value == line + [CARRIAGE_RETURN];
    ReadOneLine(a, line, CARRIAGE_RETURN);
    BumpTransmitLine(id, data, a.rbuff[|line|..]);
  }

  /** From a clean state, one line of five to SLCAN_MTU bytes and its
      terminator are read as a unit: the line overwrites the front of the
      buffer and `bump` decodes the buffer. */
  lemma ReadOneLine(a: Accumulator, line: seq<byte>, t: byte)
    requires Valid(a) && IsClean(a) && NoTerminator(line) && IsTerminator(t)
    requires 4 < |line| <= SLCAN_MTU
    ensures var rbuff := line + a.rbuff[|line|..];
      Read(a, line + [t]) == ReadResult(Bump(rbuff), |line| + 1, Accumulator(rbuff, 0, false))
  {
    NoTerminatorQuiet(a, line);
    ReadAfterQuiet(a, line, [t]);
    FeedLine(a, line);
    assert a.rbuff[..0] + line == line;
  }

  /** A bad line costs only itself: after bytes that complete no line and
      end with a terminator, the next transmit command decodes as if the
      socket were fresh. */
  lemma ReadAfterNoise(a: Accumulator, noise: seq<byte>, id: u32, data: seq<byte>)
    requires Valid(a) && Quiet(a, noise) && |noise| > 0 && IsTerminator(noise[|noise| - 1])
    requires |data| <= 8
    ensures Write(id, data).Success?
    ensures var bytes := Write(id, data).value;
      var r := Read(a, noise + bytes);
      r.outcome == Success(CanFrame(id % 0x1000, |data|, Pad(data)))
      && r.consumed == |noise| + |bytes| && IsClean(r.state)
  {
    var k := |noise| - 1;
    assert noise == noise[..k] + [noise[k]];
    FeedTerminated(a, noise[..k], noise[k]);
    ReadAfterQuiet(a, noise, Write(id, data).value);
    WriteThenRead(Feed(a, noise), id, data);
  }

  /** A line that overflowed the buffer is dropped at its terminator and
      the transmit command after it decodes normally. */
  lemma OverflowThenFrame(a: Accumulator, junk: seq<byte>, t: byte, id: u32, data: seq<byte>)
    requires Valid(a) && IsClean(a) && NoTerminator(junk) && |junk| > SLCAN_MTU && IsTerminator(t)
    requires |data| <= 8
    ensures Write(id, data).Success?
    ensures var bytes := Write(id, data).value;
      var r := Read(a, junk + [t] + bytes);
      r.outcome == Success(CanFrame(id % 0x1000, |data|, Pad(data)))
      && r.consumed == |junk| + 1 + |bytes|
  {
    OverflowLineQuiet(a, junk, t);
    ReadAfterNoise(a, junk + [t], id, data);
  }

  /** The commands `open` and `close` send are lines of at most four bytes,
      so an adapter echoing them back is absorbed without a decode. */
  lemma ControlLinesAbsorbed(a: Accumulator, bitrate: BitRate)
    requires Valid(a) && IsClean(a)
    ensures var bytes := Open(bitrate)[0] + Open(bitrate)[1] + Close()[0];
      Read(a, bytes) == ReadResult(Failure(WouldBlock), |bytes|, Feed(a, bytes))
      && IsClean(Feed(a, bytes))
  {
    var w0, w1, w2 := Open(bitrate)[0], Open(bitrate)[1], Close()[0];
    assert w0 == w0[..2] + [CARRIAGE_RETURN];
    assert w1 == w1[..1] + [CARRIAGE_RETURN];
    assert w2 == w2[..1] + [CARRIAGE_RETURN];
    ShortLineQuiet(a, w0[..2], CARRIAGE_RETURN);
    var b1 := Feed(a, w0);
    ShortLineQuiet(b1, w1[..1], CARRIAGE_RETURN);
    var b2 := Feed(b1, w1);
    ShortLineQuiet(b2, w2[..1], CARRIAGE_RETURN);
    ReadAfterQuiet(a, w0, w1 + w2);
    ReadAfterQuiet(b1, w1, w2);
    ReadAfterQuiet(b2, w2, []);
    assert w2 + [] == w2;
    FeedAppend(a, w0, w1 + w2);
    FeedAppend(b1, w1, w2);
    assert w0 + w1 + w2 == w0 + (w1 + w2);
  }

  /** `bump` ignores `rcount`: a line that stops after its length digit is
      decoded with whatever data digits an earlier, longer line left in the
      buffer, instead of being rejected as truncated. */
  lemma HeaderOnlyLineReadsStaleData(a: Accumulator, id: u32, data: seq<byte>)
    requires Valid(a) && IsClean(a) && |data| <= 8
    requires a.rbuff[5..5 + 2 * |data|] == BytesToHex(data)
    ensures var header := TransmitLine(id, data)[..5];
      Read(a, header + [CARRIAGE_RETURN]).outcome == Success(CanFrame(id % 0x1000, |data|, Pad(data)))
  {
    var line := TransmitLine(id, data);
    var header := line[..5];
    ReadOneLine(a, header, CARRIAGE_RETURN);
    StaleBufferHoldsLine(a.rbuff, line, 5);
    BumpTransmitLine(id, data, a.rbuff[|line|..]);
  }

  /** After a frame has been read, a bare header for the same identifier
      and length decodes to that frame again. */
  lemma HeaderAfterFrameRepeatsIt(a: Accumulator, id: u32, data: seq<byte>)
    requires Valid(a) && IsClean(a) && |data| <= 8
    ensures Write(id, data).Success?
    ensures var r1 := Read(a, Write(id, data).value);
      var header := TransmitLine(id, data)[..5];
      r1.outcome.Success? && Read(r1.state, header + [CARRIAGE_RETURN]).outcome == r1.outcome
  {
    WriteThenRead(a, id, data);
    var line := TransmitLine(id, data);
    var b := Read(a, Write(id, data).value).state;
    assert b.rbuff[5..5 + 2 * |data|] == line[5..];
    HeaderOnlyLineReadsStaleData(b, id, data);
  }

  /** A buffer whose first `k` bytes are overwritten by the start of `line`,
      and which already held the rest of `line` after them, holds `line`. */
  lemma StaleBufferHoldsLine(rbuff: seq<byte>, line: seq<byte>, k: nat)
    requires k <= |line| <= |rbuff| && rbuff[k..|line|] == line[k..]
    ensures line[..k] + rbuff[k..] == line + rbuff[|line|..]
  {
    assert line == line[..k] + line[k..];
    assert rbuff[k..] == rbuff[k..|line|] + rbuff[|line|..];
  }
}
