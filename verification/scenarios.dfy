/**
  Concrete exchanges on the wire, each derived from the general lemmas.
 */
module Scenarios {
  import opened Hex
  import opened Io
  import opened Protocol
  import opened LineAccumulator
  import opened Decoder
  import opened Socket

  // The ASCII spelling of the lines below.

  lemma SpellEmptyFrame()
    ensures AsciiBytes("t7FF0\r") == [0x74, 0x37, 0x46, 0x46, 0x30, 0x0D]
  {
  }

  lemma SpellDead()
    ensures AsciiBytes("t1232DEAD\r") == [0x74, 0x31, 0x32, 0x33, 0x32, 0x44, 0x45, 0x41, 0x44, 0x0D]
  {
  }

  lemma SpellHeader()
    ensures AsciiBytes("t1232\r") == [0x74, 0x31, 0x32, 0x33, 0x32, 0x0D]
  {
  }

  lemma Spell42()
    ensures AsciiBytes("t0010042\r") == [0x74, 0x30, 0x30, 0x31, 0x30, 0x30, 0x34, 0x32, 0x0D]
  {
  }

  lemma SpellBadId()
    ensures AsciiBytes("tZZZ1AA\r") == [0x74, 0x5A, 0x5A, 0x5A, 0x31, 0x41, 0x41, 0x0D]
  {
  }

  lemma SpellBadDlc()
    ensures AsciiBytes("t123/\r") == [0x74, 0x31, 0x32, 0x33, 0x2F, 0x0D]
  {
  }

  lemma EmptyLine(line: seq<byte>)
    requires line == TransmitLine(0x7FF, [])
    ensures line == [0x74, 0x37, 0x46, 0x46, 0x30]
  {
    assert U32ToHex3(0x7FF) == [0x37, 0x46, 0x46];
    DecimalDigit(line[4], 0);
    assert line == [line[0]] + line[1..4] + [line[4]];
  }

  /** An empty frame for identifier 0x7FF is sent as `t7FF0\r`. */
  lemma EncodeEmptyFrame()
    ensures Write(0x7FF, []) == Success(AsciiBytes("t7FF0\r"))
  {
    SpellEmptyFrame();
    EmptyLine(TransmitLine(0x7FF, []));
    assert [0x74, 0x37, 0x46, 0x46, 0x30] + [CARRIAGE_RETURN] == [0x74, 0x37, 0x46, 0x46, 0x30, 0x0D];
  }

  lemma DigitsOf(b: byte, hi: byte, lo: byte)
    requires HexDigit(b / 16) == hi && HexDigit(b) == lo
    ensures BytesToHex([b]) == [hi, lo]
  {
    assert [b][1..] == [];
  }

  /** Two bytes encode as the digits of the first followed by those of the
      second. */
  lemma DigitsOfPair(d: seq<byte>, a: byte, b: byte, c: byte, e: byte)
    requires |d| == 2
    requires HexDigit(d[0] / 16) == a && HexDigit(d[0]) == b
    requires HexDigit(d[1] / 16) == c && HexDigit(d[1]) == e
    ensures BytesToHex(d) == [a, b, c, e]
  {
    assert d[1..] == [d[1]];
    DigitsOf(d[1], c, e);
  }

  lemma DeadDigits()
    ensures HexDigit(0xDE / 16) == 0x44 && HexDigit(0xDE) == 0x45
    ensures HexDigit(0xAD / 16) == 0x41 && HexDigit(0xAD) == 0x44
  {
  }

  lemma HexDead()
    ensures BytesToHex([0xDE, 0xAD]) == [0x44, 0x45, 0x41, 0x44]
  {
    DeadDigits();
    DigitsOfPair([0xDE, 0xAD], 0x44, 0x45, 0x41, 0x44);
  }

  lemma DeadLine(line: seq<byte>)
    requires line == TransmitLine(0x123, [0xDE, 0xAD])
    ensures line == [0x74, 0x31, 0x32, 0x33, 0x32, 0x44, 0x45, 0x41, 0x44]
  {
    HeaderOfDead(line);
    HexDead();
    assert line == line[..5] + line[5..];
  }

  lemma EncodeDead()
    ensures Write(0x123, [0xDE, 0xAD]) == Success(AsciiBytes("t1232DEAD\r"))
  {
    SpellDead();
    DeadLine(TransmitLine(0x123, [0xDE, 0xAD]));
    assert [0x74, 0x31, 0x32, 0x33, 0x32, 0x44, 0x45, 0x41, 0x44] + [CARRIAGE_RETURN]
      == [0x74, 0x31, 0x32, 0x33, 0x32, 0x44, 0x45, 0x41, 0x44, 0x0D];
  }

  lemma PadTwo(data: seq<byte>)
    requires |data| == 2
    ensures Pad(data) == [data[0], data[1], 0, 0, 0, 0, 0, 0]
  {
  }

  lemma ReadDead(a: Accumulator, bytes: seq<byte>)
    requires Valid(a) && IsClean(a) && Write(0x123, [0xDE, 0xAD]) == Success(bytes)
    ensures var r := Read(a, bytes);
      r.outcome == Success(CanFrame(0x123, 2, [0xDE, 0xAD, 0, 0, 0, 0, 0, 0])) && r.consumed == 10
  {
    ReadFrame(a, 0x123, [0xDE, 0xAD], bytes);
  }

  /** The round trip stated for the bytes `write` produced. */
  lemma SentFrame(a: Accumulator, id: u32, data: seq<byte>, bytes: seq<byte>)
    requires Valid(a) && IsClean(a) && Write(id, data) == Success(bytes)
    ensures var r := Read(a, bytes);
      r.outcome == Success(CanFrame(id % 0x1000, |data|, Pad(data))) && r.consumed == |bytes|
  {
    WriteThenRead(a, id, data);
  }

  lemma ReadFrame(a: Accumulator, id: u32, data: seq<byte>, bytes: seq<byte>)
    requires Valid(a) && IsClean(a) && id % 0x1000 == 0x123
    requires |data| == 2 && data[0] == 0xDE && data[1] == 0xAD
    requires Write(id, data) == Success(bytes)
    ensures var r := Read(a, bytes);
      r.outcome == Success(CanFrame(0x123, 2, [0xDE, 0xAD, 0, 0, 0, 0, 0, 0])) && r.consumed == 10
  {
    SentFrame(a, id, data, bytes);
    PadTwo(data);
  }

  /** `t1232DEAD\r` on a clean socket decodes to identifier 0x123 with the
      two bytes 0xDE 0xAD and consumes the whole line. */
  lemma DecodeTwoByteFrame(a: Accumulator)
    requires Valid(a) && IsClean(a)
    ensures var r := Read(a, AsciiBytes("t1232DEAD\r"));
      r.outcome == Success(CanFrame(0x123, 2, [0xDE, 0xAD, 0, 0, 0, 0, 0, 0])) && r.consumed == 10
  {
    EncodeDead();
    ReadDead(a, AsciiBytes("t1232DEAD\r"));
  }

  /** A line of `bytes` read from a clean state decodes the buffer whose
      first bytes are the line's: the facts the decoder's contract needs. */
  lemma ReadLiteralLine(a: Accumulator, bytes: seq<byte>)
    requires Valid(a) && IsClean(a) && 5 < |bytes| <= SLCAN_MTU + 1
    requires bytes[|bytes| - 1] == CARRIAGE_RETURN && NoTerminator(bytes[..|bytes| - 1])
    ensures var line := bytes[..|bytes| - 1];
      var rbuff := line + a.rbuff[|line|..];
      && |rbuff| == SLCAN_MTU && rbuff[..|line|] == line
      && Read(a, bytes) == ReadResult(Bump(rbuff), |bytes|, Accumulator(rbuff, 0, false))
  {
    var line := bytes[..|bytes| - 1];
    assert bytes == line + [CARRIAGE_RETURN];
    ReadOneLine(a, line, CARRIAGE_RETURN);
  }

  lemma ReadBadId(a: Accumulator, bytes: seq<byte>)
    requires Valid(a) && IsClean(a) && bytes == [0x74, 0x5A, 0x5A, 0x5A, 0x31, 0x41, 0x41, 0x0D]
    ensures var r := Read(a, bytes);
      r.outcome == Failure(WouldBlock) && r.consumed == 8 && IsClean(r.state)
  {
    assert NoTerminator(bytes[..7]);
    ReadLiteralLine(a, bytes);
    var rbuff := bytes[..7] + a.rbuff[7..];
    assert rbuff[1..4][0] == 0x5A;
    assert !AllHex(rbuff[1..4]);
  }

  /** `tZZZ1AA\r`: an identifier that is not hex is reported as
      `WouldBlock`, not as malformed data; the line is consumed and the
      next one decodes normally. */
  lemma BadIdThenFrame(a: Accumulator)
    requires Valid(a) && IsClean(a)
    ensures var r1 := Read(a, AsciiBytes("tZZZ1AA\r"));
      var r2 := Read(r1.state, AsciiBytes("t1232DEAD\r"));
      && r1.outcome == Failure(WouldBlock) && r1.consumed == 8
      && r2.outcome == Success(CanFrame(0x123, 2, [0xDE, 0xAD, 0, 0, 0, 0, 0, 0]))
  {
    SpellBadId();
    ReadBadId(a, AsciiBytes("tZZZ1AA\r"));
    DecodeTwoByteFrame(Read(a, AsciiBytes("tZZZ1AA\r")).state);
  }

  lemma ReadZeroLength(a: Accumulator, bytes: seq<byte>)
    requires Valid(a) && IsClean(a) && bytes == [0x74, 0x30, 0x30, 0x31, 0x30, 0x30, 0x34, 0x32, 0x0D]
    ensures var r := Read(a, bytes);
      r.outcome == Success(CanFrame(1, 0, [0, 0, 0, 0, 0, 0, 0, 0])) && r.consumed == 9
  {
    assert NoTerminator(bytes[..8]);
    ReadLiteralLine(a, bytes);
    var rbuff := bytes[..8] + a.rbuff[8..];
    assert rbuff[..8] == bytes[..8];
    ZeroLengthOne(rbuff);
  }

  lemma ZeroLengthOne(rbuff: seq<byte>)
    requires |rbuff| == SLCAN_MTU && rbuff[..5] == [0x74, 0x30, 0x30, 0x31, 0x30]
    ensures Bump(rbuff) == Success(CanFrame(1, 0, [0, 0, 0, 0, 0, 0, 0, 0]))
  {
    assert rbuff[0] == 0x74 && rbuff[4] == 0x30;
    var id := rbuff[1..4];
    assert id == [0x30, 0x30, 0x31];
    HexValueThree(id);
    ZeroLengthIgnoresRest(rbuff);
    assert seq(8, _ => 0) == [0, 0, 0, 0, 0, 0, 0, 0];
  }

  /** `t0010042\r` is identifier 0x001 with length digit `0`: the frame is
      empty and the trailing `042` is ignored. */
  lemma ZeroLengthIgnoresTrailingDigits(a: Accumulator)
    requires Valid(a) && IsClean(a)
    ensures var r := Read(a, AsciiBytes("t0010042\r"));
      r.outcome == Success(CanFrame(1, 0, [0, 0, 0, 0, 0, 0, 0, 0])) && r.consumed == 9
  {
    Spell42();
    ReadZeroLength(a, AsciiBytes("t0010042\r"));
  }

  lemma ReadBadDlc(a: Accumulator, bytes: seq<byte>)
    requires Valid(a) && IsClean(a) && bytes == [0x74, 0x31, 0x32, 0x33, 0x2F, 0x0D]
    ensures Read(a, bytes).outcome == Panic
  {
    assert NoTerminator(bytes[..5]);
    ReadLiteralLine(a, bytes);
    var rbuff := bytes[..5] + a.rbuff[5..];
    assert rbuff[..5] == bytes[..5];
    assert rbuff[0] == 0x74 && rbuff[4] == 0x2F;
    assert rbuff[1..4] == [0x31, 0x32, 0x33];
  }

  /** `t123/\r`: a length byte below `'0'` underflows and panics. */
  lemma LengthBelowZeroPanics(a: Accumulator)
    requires Valid(a) && IsClean(a)
    ensures Read(a, AsciiBytes("t123/\r")).outcome == Panic
  {
    SpellBadDlc();
    ReadBadDlc(a, AsciiBytes("t123/\r"));
  }

  lemma ReadDeadAfterReturn(a: Accumulator, bytes: seq<byte>)
    requires Valid(a) && IsClean(a) && Write(0x123, [0xDE, 0xAD]) == Success(bytes)
    ensures var r := Read(a, [CARRIAGE_RETURN] + bytes);
      r.outcome == Success(CanFrame(0x123, 2, [0xDE, 0xAD, 0, 0, 0, 0, 0, 0])) && r.consumed == 11
  {
    var input := [CARRIAGE_RETURN] + bytes;
    assert input[0] == CARRIAGE_RETURN && input[1..] == bytes;
    assert Step(a, CARRIAGE_RETURN) == a;
    ReadDead(a, bytes);
  }

  /** A bare carriage return before a frame is absorbed and the frame
      decodes. */
  lemma BareReturnThenFrame(a: Accumulator)
    requires Valid(a) && IsClean(a)
    ensures var r := Read(a, [CARRIAGE_RETURN] + AsciiBytes("t1232DEAD\r"));
      r.outcome == Success(CanFrame(0x123, 2, [0xDE, 0xAD, 0, 0, 0, 0, 0, 0])) && r.consumed == 11
  {
    EncodeDead();
    ReadDeadAfterReturn(a, AsciiBytes("t1232DEAD\r"));
  }

  lemma ReadDeadAfterOverflow(a: Accumulator, bytes: seq<byte>)
    requires Valid(a) && IsClean(a) && Write(0x123, [0xDE, 0xAD]) == Success(bytes)
    ensures var junk := seq(40, _ => AsU8('A'));
      var r := Read(a, junk + [CARRIAGE_RETURN] + bytes);
      r.outcome == Success(CanFrame(0x123, 2, [0xDE, 0xAD, 0, 0, 0, 0, 0, 0])) && r.consumed == 51
  {
    var junk := seq(40, _ => AsU8('A'));
    assert NoTerminator(junk);
    OverflowLineQuiet(a, junk, CARRIAGE_RETURN);
    ReadAfterQuiet(a, junk + [CARRIAGE_RETURN], bytes);
    ReadDead(Feed(a, junk + [CARRIAGE_RETURN]), bytes);
  }

  /** Forty bytes without a terminator overflow the buffer; the line is
      dropped at its carriage return and the frame after it decodes. */
  lemma OverflowThenDead(a: Accumulator)
    requires Valid(a) && IsClean(a)
    ensures var junk := seq(40, _ => AsU8('A'));
      var r := Read(a, junk + [CARRIAGE_RETURN] + AsciiBytes("t1232DEAD\r"));
      r.outcome == Success(CanFrame(0x123, 2, [0xDE, 0xAD, 0, 0, 0, 0, 0, 0])) && r.consumed == 51
  {
    EncodeDead();
    ReadDeadAfterOverflow(a, AsciiBytes("t1232DEAD\r"));
  }

  lemma Id123()
    ensures U32ToHex3(0x123) == [0x31, 0x32, 0x33]
  {
    assert HexDigit(0x123 / 0x100) == 0x31;
    assert HexDigit(0x123 / 0x10) == 0x32;
    assert HexDigit(0x123) == 0x33;
  }

  lemma HeaderOfDead(line: seq<byte>)
    requires line == TransmitLine(0x123, [0xDE, 0xAD])
    ensures line[..5] == [0x74, 0x31, 0x32, 0x33, 0x32]
  {
    Id123();
    DecimalDigit(line[4], 2);
    assert line[..5] == [line[0]] + line[1..4] + [line[4]];
  }

  lemma SpellHeaderOfDead()
    ensures TransmitLine(0x123, [0xDE, 0xAD])[..5] + [CARRIAGE_RETURN] == AsciiBytes("t1232\r")
  {
    SpellHeader();
    HeaderOfDead(TransmitLine(0x123, [0xDE, 0xAD]));
  }

  lemma ReadStale(a: Accumulator, dead: seq<byte>, header: seq<byte>)
    requires Valid(a) && IsClean(a) && Write(0x123, [0xDE, 0xAD]) == Success(dead)
    requires header == TransmitLine(0x123, [0xDE, 0xAD])[..5] + [CARRIAGE_RETURN]
    ensures Read(Read(a, dead).state, header).outcome
      == Success(CanFrame(0x123, 2, [0xDE, 0xAD, 0, 0, 0, 0, 0, 0]))
  {
    HeaderAfterFrameRepeatsIt(a, 0x123, [0xDE, 0xAD]);
    ReadDead(a, dead);
  }

  /** `t1232DEAD\r` then `t1232\r`: the second line has no data digits, yet
      it decodes to the first line's payload, left in the buffer. */
  lemma StaleDataDecoded(a: Accumulator)
    requires Valid(a) && IsClean(a)
    ensures var r1 := Read(a, AsciiBytes("t1232DEAD\r"));
      var r2 := Read(r1.state, AsciiBytes("t1232\r"));
      r2.outcome == Success(CanFrame(0x123, 2, [0xDE, 0xAD, 0, 0, 0, 0, 0, 0]))
  {
    EncodeDead();
    SpellHeaderOfDead();
    ReadStale(a, AsciiBytes("t1232DEAD\r"), AsciiBytes("t1232\r"));
  }
}
