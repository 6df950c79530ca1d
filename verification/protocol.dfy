/**
  Constants and value types of the SLCAN engine (src/lib.rs, top of file):
  the receive-buffer size, the line terminators, the bit-rate setup codes
  and the CAN frame.
 */
module Protocol {
  import opened Hex

  /** Receive-buffer size: an extended frame with eight data bytes and a
      timestamp, its terminator, plus one. */
  const SLCAN_MTU: nat := |"T1111222281122334455667788EA5F\r"| + 1

  /** Length of the command character at the start of a line. */
  const SLCAN_CMD_LEN: nat := 1

  /** Number of hex digits of a standard identifier. */
  const SLCAN_SDD_ID_LEN: nat := 3

  /** Sent by an adapter in place of a carriage return when it rejects a line. */
  const BELL: byte := 0x07

  const CARRIAGE_RETURN: byte := AsU8('\r')

  const TRANSMIT_COMMAND: byte := AsU8('t')

  /** The nine bit rates of the `S` setup command. */
  datatype BitRate =
    | Setup10Kbit | Setup20Kbit | Setup50Kbit | Setup100Kbit | Setup125Kbit
    | Setup250Kbit | Setup500Kbit | Setup800Kbit | Setup1Mbit

  /** The rate itself, in kbit/s. */
  function Kbits(b: BitRate): nat {
    match b
    case Setup10Kbit => 10
    case Setup20Kbit => 20
    case Setup50Kbit => 50
    case Setup100Kbit => 100
    case Setup125Kbit => 125
    case Setup250Kbit => 250
    case Setup500Kbit => 500
    case Setup800Kbit => 800
    case Setup1Mbit => 1000
  }

  /** The `#[repr(u8)]` discriminant of a bit rate: the setup character. */
  function Code(b: BitRate): (c: byte)
    ensures AsU8('0') <= c <= AsU8('8')
  {
    match b
    case Setup10Kbit => AsU8('0')
    case Setup20Kbit => AsU8('1')
    case Setup50Kbit => AsU8('2')
    case Setup100Kbit => AsU8('3')
    case Setup125Kbit => AsU8('4')
    case Setup250Kbit => AsU8('5')
    case Setup500Kbit => AsU8('6')
    case Setup800Kbit => AsU8('7')
    case Setup1Mbit => AsU8('8')
  }

  /** A CAN frame: only `data[..dlc]` is meaningful, the rest is padding. */
  datatype CanFrame = CanFrame(id: u32, dlc: nat, data: seq<byte>)

  /** `CanFrame::new`: copies `data` into a zeroed eight-byte array; the
      slice `copy[..data.len()]` panics for more than eight bytes. `dlc` is
      taken as given and not compared with the length of `data`. */
  function NewFrame(id: u32, dlc: nat, data: seq<byte>): (r: Fallible<CanFrame>)
    ensures !r.NotHex?
    ensures r.Ok? <==> |data| <= 8
    ensures r.Ok? ==> r.value.id == id && r.value.dlc == dlc && |r.value.data| == 8
    ensures r.Ok? ==> r.value.data[..|data|] == data
    ensures r.Ok? ==> forall j | |data| <= j < 8 :: r.value.data[j] == 0
  {
    if |data| > 8 then OutOfBounds else Ok(CanFrame(id, dlc, Pad(data)))
  }

  /** The setup character orders the bit rates by speed, slowest first. */
  lemma CodeOrdersRates(a: BitRate, b: BitRate)
    ensures Kbits(a) < Kbits(b) <==> Code(a) < Code(b)
  {
  }

  /** The receive buffer holds 32 bytes, enough for the longest line this
      engine encodes (21 bytes). */
  lemma MtuValue()
    ensures SLCAN_MTU == 32
  {
  }
}
