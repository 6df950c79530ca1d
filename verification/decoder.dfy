/**
  The frame decoder `CanSocket::bump` (src/lib.rs:209-231). It reads the
  whole receive buffer, not just the `rcount` bytes of the line that
  triggered it: positions past the end of a short line still hold what an
  earlier line put there.
 */
module Decoder {
  import opened Hex
  import opened Io
  import opened Protocol

  /** The data-length digit of a line: `rbuff[4] - '0'`. */
  function DlcDigit(rbuff: seq<byte>): int
    requires |rbuff| == SLCAN_MTU
  {
    rbuff[SLCAN_CMD_LEN + SLCAN_SDD_ID_LEN] - AsU8('0')
  }

  /** A buffer holding a transmit command `bump` accepts: `t`, three id
      digits, a length digit from 0 to 8, and that many digit pairs. */
  predicate IsTransmitLine(rbuff: seq<byte>)
    requires |rbuff| == SLCAN_MTU
  {
    && rbuff[0] == TRANSMIT_COMMAND
    && AllHex(rbuff[1..4])
    && 0 <= DlcDigit(rbuff) <= 8
    && AllHex(rbuff[5..5 + 2 * DlcDigit(rbuff)])
  }

  /** `bump`: decodes the buffer as a transmit command. Another command, or
      an identifier that is not hex, yields `WouldBlock`; data digits that
      are not hex yield `InvalidData`. A length byte below `'0'` underflows
      the u8 subtraction, and a length above 8 makes `unpack_data` store past
      its eight-byte array unless a digit pair fails first: both panic. */
  function Bump(rbuff: seq<byte>): (r: IoResult<CanFrame>)
    requires |rbuff| == SLCAN_MTU
    ensures r.Success? <==> IsTransmitLine(rbuff)
    ensures r.Success? ==>
      && r.value.id == HexValue(rbuff[1..4]) <= 0xFFF
      && r.value.dlc == DlcDigit(rbuff)
      && |r.value.data| == 8
      && (forall j | 0 <= j < r.value.dlc :: Hex2tou8(rbuff[5 + 2 * j..]) == Ok(r.value.data[j]))
      && (forall j | r.value.dlc <= j < 8 :: r.value.data[j] == 0)
    ensures rbuff[0] != TRANSMIT_COMMAND || !AllHex(rbuff[1..4]) ==> r == Failure(WouldBlock)
    ensures r == Failure(WouldBlock) ==> rbuff[0] != TRANSMIT_COMMAND || !AllHex(rbuff[1..4])
    ensures r.Failure? ==> r.kind == WouldBlock || r.kind == InvalidData
    ensures r == Failure(InvalidData) ==>
      rbuff[0] == TRANSMIT_COMMAND && AllHex(rbuff[1..4]) && 0 <= DlcDigit(rbuff)
    ensures r.Panic? ==>
      rbuff[0] == TRANSMIT_COMMAND && AllHex(rbuff[1..4]) && !(0 <= DlcDigit(rbuff) <= 8)
    ensures rbuff[0] == TRANSMIT_COMMAND && AllHex(rbuff[1..4]) && DlcDigit(rbuff) < 0 ==> r == Panic
  {
    var cmd := rbuff[0];
    if cmd != TRANSMIT_COMMAND then Failure(WouldBlock)
    else
      var id := Hextou32(rbuff[SLCAN_CMD_LEN..SLCAN_CMD_LEN + SLCAN_SDD_ID_LEN]);
      Hextou32ThreeDigits(rbuff[1..4]);
      if !id.Ok? then Failure(WouldBlock)
      else
        var s := rbuff[SLCAN_CMD_LEN + SLCAN_SDD_ID_LEN + 1..];
        DataSlices(rbuff, DlcDigit(rbuff));
        DecodeFrom(id.value, rbuff[SLCAN_CMD_LEN + SLCAN_SDD_ID_LEN], s)
  }

  /** The data digits of `rbuff` seen from offset 5, where `bump` hands
      them to `unpack_data`. */
  lemma DataSlices(rbuff: seq<byte>, dlc: int)
    requires |rbuff| == SLCAN_MTU
    ensures 0 <= dlc <= 8 ==> rbuff[5..][..2 * dlc] == rbuff[5..5 + 2 * dlc]
    ensures forall j | 0 <= j < 8 :: rbuff[5..][2 * j..] == rbuff[5 + 2 * j..]
  {
  }

  /** The transmit arm of `bump` from the length digit on, once the
      identifier has decoded to `id`: `digit - 0x30` on a u8 panics below
      `'0'`; a failed data pair is `InvalidData`, an out-of-range store a
      panic. */
  function DecodeFrom(id: u32, digit: byte, s: seq<byte>): IoResult<CanFrame> {
    if digit < 0x30 then Panic
    else
      var dlc: nat := digit - 0x30;
      var data := UnpackData(s, dlc);
      if data.Ok? then Success(CanFrame(id, dlc, data.value))
      else if data.NotHex? then Failure(InvalidData)
      else Panic
  }

  /** A length digit above 8 is not rejected: decoding panics exactly
      when the first nine data digit pairs are hex, and otherwise reports
      the pair that fails as `InvalidData`. */
  lemma DlcOverCapacity(rbuff: seq<byte>)
    requires |rbuff| == SLCAN_MTU
    requires rbuff[0] == TRANSMIT_COMMAND && AllHex(rbuff[1..4]) && DlcDigit(rbuff) > 8
    ensures Bump(rbuff) == Panic <==> AllHex(rbuff[5..23])
    ensures !AllHex(rbuff[5..23]) ==> Bump(rbuff) == Failure(InvalidData)
  {
    var s := rbuff[5..];
    assert s[..18] == rbuff[5..23];
    var zeros: seq<byte> := seq(8, _ => 0);
    if AllHex(rbuff[5..23]) {
      UnpackPastCapacity(s, DlcDigit(rbuff), 0, zeros);
    } else {
      var j :| 0 <= j < 18 && !IsHexDigit(rbuff[5..23][j]);
      UnpackBadPair(s, DlcDigit(rbuff), 0, zeros, j);
    }
  }

  /** A length digit `0` gives an empty frame whatever follows it: data
      digits after it are never looked at. */
  lemma ZeroLengthIgnoresRest(rbuff: seq<byte>)
    requires |rbuff| == SLCAN_MTU
    requires rbuff[0] == TRANSMIT_COMMAND && AllHex(rbuff[1..4]) && rbuff[4] == AsU8('0')
    ensures var r := Bump(rbuff);
      r.Success? && r.value.id == HexValue(rbuff[1..4]) && r.value.dlc == 0 && r.value.data == seq(8, _ => 0)
  {
    assert IsTransmitLine(rbuff);
    var f := Bump(rbuff).value;
    assert f.data == seq(8, _ => 0);
  }

  /** `bump` assembles its frame from the identifier `hextou32` reads, the
      length digit and the bytes `unpack_data` reads. */
  lemma BumpFields(rbuff: seq<byte>, id: u32, dlc: nat, data: seq<byte>)
    requires |rbuff| == SLCAN_MTU && dlc <= 8
    requires rbuff[0] == TRANSMIT_COMMAND && Hextou32(rbuff[1..4]) == Ok(id)
    requires rbuff[4] == AsU8('0') + dlc && UnpackData(rbuff[5..], dlc) == Ok(data)
    ensures Bump(rbuff) == Success(CanFrame(id, dlc, data))
  {
    BumpHeader(rbuff, id);
    assert rbuff[4] - 0x30 == dlc;
  }

  /** Past a transmit command and a hex identifier, `bump` is the rest of
      the transmit arm on the length digit and the bytes after it. */
  lemma BumpHeader(rbuff: seq<byte>, id: u32)
    requires |rbuff| == SLCAN_MTU
    requires rbuff[0] == TRANSMIT_COMMAND && Hextou32(rbuff[1..4]) == Ok(id)
    ensures Bump(rbuff) == DecodeFrom(id, rbuff[4], rbuff[5..])
  {
    assert rbuff[SLCAN_CMD_LEN..SLCAN_CMD_LEN + SLCAN_SDD_ID_LEN] == rbuff[1..4];
    assert rbuff[SLCAN_CMD_LEN + SLCAN_SDD_ID_LEN + 1..] == rbuff[5..];
  }
}
