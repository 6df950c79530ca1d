/**
  Hex arithmetic of the SLCAN engine: conversions between nibbles or bytes and
  their ASCII hex digits (src/lib.rs, `hextou8` to `bytestohex`).

  Bytes are the integers 0..255 and `u32` is modelled by its range, so every
  shift or mask of the source is written out as division, remainder or an
  explicit truncation. A Rust panic (a slice or array index out of range) is
  the `OutOfBounds` outcome; Rust's `Err(())` is `NotHex`.
 */
module Hex {

  /** Rust `u8`. */
  type byte = x: int | 0 <= x < 0x100

  /** Rust `u32`. */
  type u32 = x: int | 0 <= x < 0x1_0000_0000

  /** Rust's `Result<T, ()>` of the hex helpers, extended with the panic an
      out-of-range slice or index raises. */
  datatype Fallible<+T> = Ok(value: T) | NotHex | OutOfBounds

  /** Rust's `c as u8` on a `char`: the low eight bits of the code point. */
  function AsU8(c: char): byte {
    (c as int) % 0x100
  }

  /** `str::as_bytes` of an ASCII string literal. */
  function AsciiBytes(s: string): seq<byte> {
    seq(|s|, i requires 0 <= i < |s| => AsU8(s[i]))
  }

  /** The digit table the encoder indexes: upper case only. */
  const HEX_LUT: seq<byte> := AsciiBytes("0123456789ABCDEF")

  /** The table spelled out: `'0'` to `'9'`, then `'A'` to `'F'`. */
  lemma HexLutEntries()
    ensures |HEX_LUT| == 16
    ensures forall i | 0 <= i < 16 :: HEX_LUT[i] == if i < 10 then AsU8('0') + i else AsU8('A') + i - 10
  {
    assert HEX_LUT == [0x30, 0x31, 0x32, 0x33, 0x34, 0x35, 0x36, 0x37, 0x38, 0x39, 0x41, 0x42, 0x43, 0x44, 0x45, 0x46];
  }

  /** The bytes `[0-9a-fA-F]` that the decoder accepts. */
  predicate IsHexDigit(b: byte) {
    || AsU8('0') <= b <= AsU8('9')
    || AsU8('a') <= b <= AsU8('f')
    || AsU8('A') <= b <= AsU8('F')
  }

  /** The bytes `[0-9A-F]` that the encoder emits. */
  predicate IsUpperHexDigit(b: byte) {
    AsU8('0') <= b <= AsU8('9') || AsU8('A') <= b <= AsU8('F')
  }

  /** Maps `a`..`f` to `A`..`F` and leaves every other byte alone. */
  function ToUpper(b: byte): byte {
    if AsU8('a') <= b <= AsU8('f') then b - AsU8('a') + AsU8('A') else b
  }

  predicate AllHex(s: seq<byte>) {
    forall i | 0 <= i < |s| :: IsHexDigit(s[i])
  }

  /** Digits as the encoder writes them: upper case only. */
  predicate AllUpperHex(s: seq<byte>) {
    forall i | 0 <= i < |s| :: IsUpperHexDigit(s[i])
  }

  lemma UpperAppend(x: seq<byte>, y: seq<byte>)
    requires AllUpperHex(x) && AllUpperHex(y)
    ensures AllUpperHex(x + y)
  {
    forall i | 0 <= i < |x + y|
      ensures IsUpperHexDigit((x + y)[i])
    {
      if i >= |x| {
        assert (x + y)[i] == y[i - |x|];
      }
    }
  }

  /** 16 to the power `n`. */
  function Pow16(n: nat): (p: nat)
    ensures p > 0
  {
    if n == 0 then 1 else 16 * Pow16(n - 1)
  }

  /** Positional value of a run of hex digits, most significant first:
      sixteen times the value of all but the last digit, plus the last. */
  function HexValue(s: seq<byte>): nat
    requires AllHex(s)
  {
    if |s| == 0 then 0 else 16 * HexValue(s[..|s| - 1]) + Hextou8(s[|s| - 1]).value
  }

  /** `hextou8`: the value of one hex digit, either case. */
  function Hextou8(s: byte): (r: Fallible<byte>)
    ensures !r.OutOfBounds?
    ensures r.Ok? <==> IsHexDigit(s)
    ensures r.Ok? ==> r.value < 16
  {
    if AsU8('0') <= s <= AsU8('9') then Ok(s - AsU8('0'))
    else if AsU8('a') <= s <= AsU8('f') then Ok(s - AsU8('a') + 10)
    else if AsU8('A') <= s <= AsU8('F') then Ok(s - AsU8('A') + 10)
    else NotHex
  }

  /** `hex2tou8`: the byte spelled by the first two digits of `s`, most
      significant nibble first. Indexing `s[0]` or `s[1]` past the end of the
      slice panics; the first digit is decoded before the second is read. */
  function Hex2tou8(s: seq<byte>): (r: Fallible<byte>)
    ensures r.Ok? <==> 2 <= |s| && IsHexDigit(s[0]) && IsHexDigit(s[1])
    ensures r.Ok? ==> r.value == HexValue(s[..2])
    ensures r.OutOfBounds? <==> |s| == 0 || (|s| == 1 && IsHexDigit(s[0]))
  {
    if |s| == 0 then OutOfBounds
    else
      var msn := Hextou8(s[0]);
      if !msn.Ok? then NotHex
      else if |s| < 2 then OutOfBounds
      else
        var lsn := Hextou8(s[1]);
        if !lsn.Ok? then NotHex
        else
          HexValueTwo(s[..2]);
          // both nibbles are below 16, so `(msn << 4) | lsn` is this sum
          Ok(msn.value * 16 + lsn.value)
  }

  /** `hextou32`: shifts in one nibble per digit of `buf`, stopping at the
      first byte that is not a hex digit. */
  function Hextou32(buf: seq<byte>): (r: Fallible<u32>)
    ensures !r.OutOfBounds?
    ensures r.Ok? <==> AllHex(buf)
    ensures r.Ok? && |buf| <= 8 ==> r.value == HexValue(buf) && r.value < Pow16(|buf|)
  {
    Hextou32FromZero(buf);
    Hextou32From(0, buf)
  }

  /** The loop of `hextou32` from the accumulated `value` on. */
  function Hextou32From(value: u32, buf: seq<byte>): (r: Fallible<u32>)
    ensures !r.OutOfBounds?
    ensures r.Ok? <==> AllHex(buf)
    decreases |buf|
  {
    if |buf| == 0 then Ok(value)
    else
      // `value <<= 4` on a u32 drops the top four bits; the low nibble of
      // the shifted value is zero, so `|= byte` adds the digit
      var shifted := (value % 0x1000_0000) * 16;
      var n := Hextou8(buf[0]);
      if !n.Ok? then NotHex
      else Hextou32From(shifted + n.value, buf[1..])
  }

  /** `hexdigit`: the upper-case digit of the low nibble of `value`. */
  function HexDigit(value: u32): (r: byte)
    ensures r == if value % 16 < 10 then AsU8('0') + value % 16 else AsU8('A') + value % 16 - 10
    ensures IsUpperHexDigit(r)
    ensures Hextou8(r) == Ok(value % 16)
  {
    HexLutEntries();
    HEX_LUT[value % 16]
  }

  /** A digit worth less than ten is the decimal digit of that value. */
  lemma DecimalDigit(b: byte, n: nat)
    requires Hextou8(b) == Ok(n) && n < 10
    ensures b == AsU8('0') + n
  {
  }

  /** A value below 16 is written as one digit that reads back as itself. */
  lemma SmallDigit(n: u32)
    requires n < 16
    ensures Hextou8(HexDigit(n)) == Ok(n)
  {
    assert n % 16 == n;
  }

  /** `u32tohex3`: the low twelve bits of `value` as three digits. */
  function U32ToHex3(value: u32): (r: seq<byte>)
    ensures |r| == 3 && AllHex(r) && AllUpperHex(r)
  {
    [HexDigit(value / 0x100), HexDigit(value / 0x10), HexDigit(value)]
  }

  /** `bytestohex`: two digits per byte, high nibble first. */
  function BytesToHex(data: seq<byte>): (r: seq<byte>)
    ensures |r| == 2 * |data|
    ensures AllHex(r) && AllUpperHex(r)
    ensures forall i | 0 <= i < |data| :: Hex2tou8(r[2 * i..]) == Ok(data[i])
  {
    if |data| == 0 then []
    else
      var b := data[0];
      var rest := BytesToHex(data[1..]);
      var r := [HexDigit(b / 16), HexDigit(b)] + rest;
      EncodeCons(data, rest);
      r
  }

  /** Prepending the two digits of `data[0]` to digits whose pairs decode to
      `data[1..]` gives digits whose pairs decode to `data`. */
  lemma EncodeCons(data: seq<byte>, rest: seq<byte>)
    requires |data| > 0 && |rest| == 2 * (|data| - 1)
    requires forall i | 0 <= i < |data| - 1 :: Hex2tou8(rest[2 * i..]) == Ok(data[1..][i])
    ensures var r := [HexDigit(data[0] / 16), HexDigit(data[0])] + rest;
      forall i | 0 <= i < |data| :: Hex2tou8(r[2 * i..]) == Ok(data[i])
  {
    var r := [HexDigit(data[0] / 16), HexDigit(data[0])] + rest;
    forall i | 0 <= i < |data|
      ensures Hex2tou8(r[2 * i..]) == Ok(data[i])
    {
      if i == 0 {
        HexPairValue(data[0], r);
      } else {
        assert r[2 * i..] == rest[2 * (i - 1)..];
      }
    }
  }

  /** `data` followed by zeros up to the eight-byte capacity of a frame. */
  function Pad(data: seq<byte>): (r: seq<byte>)
    requires |data| <= 8
    ensures |r| == 8 && r[..|data|] == data
    ensures forall j | |data| <= j < 8 :: r[j] == 0
  {
    data + seq(8 - |data|, _ => 0)
  }

  /** `unpack_data`: decodes `len` bytes from the digit pairs of `s` into a
      zeroed eight-byte array. */
  function UnpackData(s: seq<byte>, len: nat): (r: Fallible<seq<byte>>)
    ensures r.Ok? ==> len <= 8 && 2 * len <= |s| && |r.value| == 8
    ensures r.Ok? ==> forall j | 0 <= j < len :: Hex2tou8(s[2 * j..]) == Ok(r.value[j])
    ensures r.Ok? ==> forall j | len <= j < 8 :: r.value[j] == 0
    ensures len <= 8 && 2 * len <= |s| ==> !r.OutOfBounds? && (r.Ok? <==> AllHex(s[..2 * len]))
  {
    UnpackFrom(s, len, 0, seq(8, _ => 0))
  }

  /** Iterations `i` to `len - 1` of the loop of `unpack_data` on `buf`.
      The right-hand side `hex2tou8(&s[offset..])?` is evaluated before the
      store `buf[i]`, so an invalid pair is reported before an out-of-range
      store. */
  function UnpackFrom(s: seq<byte>, len: nat, i: nat, buf: seq<byte>): (r: Fallible<seq<byte>>)
    requires i <= len && i <= 8 && 2 * i <= |s| && |buf| == 8
    ensures r.Ok? ==> len <= 8 && 2 * len <= |s| && |r.value| == 8
    ensures r.Ok? ==> forall j | 0 <= j < i :: r.value[j] == buf[j]
    ensures r.Ok? ==> forall j | i <= j < len :: Hex2tou8(s[2 * j..]) == Ok(r.value[j])
    ensures r.Ok? ==> forall j | len <= j < 8 :: r.value[j] == buf[j]
    ensures len <= 8 && 2 * len <= |s| ==> !r.OutOfBounds? && (r.Ok? <==> AllHex(s[2 * i..2 * len]))
    decreases len - i
  {
    if i == len then Ok(buf)
    else
      var offset := 2 * i;
      if offset > |s| then OutOfBounds
      else match Hex2tou8(s[offset..])
        case Ok(b) =>
          if i < 8 then
            PairSplit(s, len, i);
            UnpackFrom(s, len, i + 1, buf[i := b])
          else OutOfBounds
        case NotHex =>
          PairSplit(s, len, i);
          NotHex
        case OutOfBounds => OutOfBounds
  }

  /** The digits of iterations `i` to `len - 1` are pair `i` followed by the
      digits of the iterations after it. */
  lemma PairSplit(s: seq<byte>, len: nat, i: nat)
    requires i < len && 2 * i <= |s|
    ensures len <= 8 && 2 * len <= |s| ==>
      s[2 * i..2 * len] == s[2 * i..][..2] + s[2 * (i + 1)..2 * len]
    ensures len <= 8 && 2 * len <= |s| ==>
      s[2 * i] == s[2 * i..2 * len][0] && s[2 * i + 1] == s[2 * i..2 * len][1]
  {
  }

  // ---------------------------------------------------------------- lemmas

  lemma HexValueOne(t: seq<byte>)
    requires |t| == 1 && AllHex(t)
    ensures HexValue(t) == Hextou8(t[0]).value
  {
    assert HexValue(t[..0]) == 0;
  }

  lemma HexValueTwo(t: seq<byte>)
    requires |t| == 2 && AllHex(t)
    ensures HexValue(t) == 16 * Hextou8(t[0]).value + Hextou8(t[1]).value
  {
    HexValueOne(t[..1]);
  }

  lemma HexValueThree(t: seq<byte>)
    requires |t| == 3 && AllHex(t)
    ensures HexValue(t) == 0x100 * Hextou8(t[0]).value + 0x10 * Hextou8(t[1]).value + Hextou8(t[2]).value
  {
    HexValueTwo(t[..2]);
  }

  /** `hex2tou8` looks at the first two bytes of its slice only. */
  lemma Hex2tou8Prefix(t: seq<byte>, u: seq<byte>)
    requires 2 <= |t|
    ensures Hex2tou8(t + u) == Hex2tou8(t)
  {
    assert (t + u)[0] == t[0] && (t + u)[1] == t[1];
    assert (t + u)[..2] == t[..2];
  }

  lemma PairInPrefix(t: seq<byte>, u: seq<byte>, k: nat)
    requires k + 2 <= |t|
    ensures Hex2tou8((t + u)[k..]) == Hex2tou8(t[k..])
  {
    assert (t + u)[k..] == t[k..] + u;
    Hex2tou8Prefix(t[k..], u);
  }

  /** Two digits written by `hexdigit` for the high and low nibble of `b`
      decode back to `b`. */
  lemma HexPairValue(b: byte, s: seq<byte>)
    requires 2 <= |s| && s[0] == HexDigit(b / 16) && s[1] == HexDigit(b)
    ensures Hex2tou8(s) == Ok(b)
  {
    var hi, lo := b / 16, b % 16;
    SmallDigit(hi);
    PairOf(s, hi, lo);
    assert b == 16 * hi + lo;
  }

  /** Two digits of values `hi` and `lo` spell the byte `16 * hi + lo`. */
  lemma PairOf(s: seq<byte>, hi: byte, lo: byte)
    requires 2 <= |s| && Hextou8(s[0]) == Ok(hi) && Hextou8(s[1]) == Ok(lo)
    ensures Hex2tou8(s) == Ok(16 * hi + lo)
  {
  }

  lemma {:induction false} HexValueBound(s: seq<byte>)
    requires AllHex(s)
    ensures HexValue(s) < Pow16(|s|)
    decreases |s|
  {
    if |s| > 0 {
      HexValueBound(s[..|s| - 1]);
      assert Pow16(|s|) == 16 * Pow16(|s| - 1);
    }
  }

  /** Below 16^7 the shift loses nothing: one digit is shifted in. */
  lemma Hextou32FromStep(value: u32, buf: seq<byte>)
    requires |buf| > 0 && IsHexDigit(buf[0]) && value < 0x1000_0000
    ensures Hextou32From(value, buf) == Hextou32From(value * 16 + Hextou8(buf[0]).value, buf[1..])
  {
    assert value % 0x1000_0000 == value;
  }

  /** The loop invariant of `hextou32`: after the first `k` digits of at
      most eight, the accumulator holds their value. */
  lemma {:induction false} Hextou32Prefix(buf: seq<byte>, k: nat, v: u32)
    requires AllHex(buf) && |buf| <= 8 && k <= |buf| && v == HexValue(buf[..k])
    ensures Hextou32From(0, buf) == Hextou32From(v, buf[k..])
    decreases k
  {
    if k == 0 {
      assert buf[..0] == [] && buf[0..] == buf;
    } else {
      var init := buf[..k - 1];
      assert buf[..k][..k - 1] == init;
      var w := HexValue(init);
      assert v == 16 * w + Hextou8(buf[k - 1]).value;
      Hextou32Prefix(buf, k - 1, w);
      HexValueBound(init);
      Pow16Le(k - 1, 7);
      assert Pow16(7) == 0x1000_0000;
      var rest := buf[k - 1..];
      Hextou32FromStep(w, rest);
      assert rest[1..] == buf[k..];
    }
  }

  lemma Hextou32FromZero(buf: seq<byte>)
    ensures AllHex(buf) && |buf| <= 8 ==>
      Hextou32From(0, buf) == Ok(HexValue(buf)) && HexValue(buf) < Pow16(|buf|)
  {
    if AllHex(buf) && |buf| <= 8 {
      HexValueBound(buf);
      Pow16Le(|buf|, 8);
      assert Pow16(8) == 0x1_0000_0000;
      assert buf[..|buf|] == buf;
      Hextou32Prefix(buf, |buf|, HexValue(buf));
    }
  }

  lemma {:induction false} Pow16Le(m: nat, n: nat)
    requires m <= n
    ensures Pow16(m) <= Pow16(n)
    decreases n
  {
    if m < n {
      Pow16Le(m, n - 1);
    }
  }

  /** Decoding a digit and encoding its value again gives the upper-case
      form of the digit. */
  lemma DecodeEncodeDigit(s: byte)
    requires IsHexDigit(s)
    ensures HexDigit(Hextou8(s).value) == ToUpper(s)
  {
    var v := Hextou8(s).value;
    assert v % 16 == v;
    if AsU8('0') <= s <= AsU8('9') {
      assert v == s - AsU8('0') && v < 10;
    } else if AsU8('a') <= s <= AsU8('f') {
      assert v == s - AsU8('a') + 10 && 10 <= v;
    } else {
      assert v == s - AsU8('A') + 10 && 10 <= v;
    }
  }

  lemma TwelveBits(v: nat)
    ensures (v / 0x100) % 16 * 0x100 + (v / 0x10) % 16 * 0x10 + v % 16 == v % 0x1000
  {
    var a := v % 16;
    var q := v / 16;
    var b := q % 16;
    var q2 := q / 16;
    var c := q2 % 16;
    var q3 := q2 / 16;
    assert v == 16 * q + a;
    assert q == 16 * q2 + b;
    assert q2 == 16 * q3 + c;
    assert v == 256 * q2 + (16 * b + a);
    assert v / 256 == q2;
    assert v == 4096 * q3 + (256 * c + 16 * b + a);
    assert v % 4096 == 256 * c + 16 * b + a;
  }

  /** `hextou32(u32tohex3(v))` recovers the low twelve bits of `v`. */
  lemma U32ToHex3RoundTrip(v: u32)
    ensures Hextou32(U32ToHex3(v)) == Ok(v % 0x1000)
  {
    var s := U32ToHex3(v);
    HexValueThree(s);
    TwelveBits(v);
  }

  /** On exactly three bytes, `hextou32` fails precisely on a non-digit and
      otherwise yields a twelve-bit identifier. */
  lemma Hextou32ThreeDigits(buf: seq<byte>)
    requires |buf| == 3
    ensures Hextou32(buf).Ok? <==> AllHex(buf)
    ensures Hextou32(buf).Ok? ==> Hextou32(buf).value <= 0xFFF
  {
    assert Pow16(3) == 0x1000;
  }

  /** `unpack_data(bytestohex(d) ++ rest, |d|)` gives back `d`, zero-padded
      to eight bytes, whatever follows the digits. */
  lemma UnpackBytesToHex(d: seq<byte>, rest: seq<byte>)
    requires |d| <= 8
    ensures UnpackData(BytesToHex(d) + rest, |d|) == Ok(Pad(d))
  {
    UnpackDigits(BytesToHex(d), rest, d);
  }

  /** Digits whose pairs decode to `d` unpack to `d` padded with zeros. */
  lemma UnpackDigits(hex: seq<byte>, rest: seq<byte>, d: seq<byte>)
    requires |d| <= 8 && |hex| == 2 * |d| && AllHex(hex)
    requires forall i | 0 <= i < |d| :: Hex2tou8(hex[2 * i..]) == Ok(d[i])
    ensures UnpackData(hex + rest, |d|) == Ok(Pad(d))
  {
    UnpackEncodedOk(hex, rest, |d|);
    var v := UnpackData(hex + rest, |d|).value;
    var want := Pad(d);
    forall j | 0 <= j < 8
      ensures v[j] == want[j]
    {
      if j < |d| {
        UnpackedAt(hex, rest, |d|, j, v, d[j]);
      }
    }
    assert v == want;
  }

  /** Unpacking reads pair `j` of the digits in front of `rest`. */
  lemma UnpackedAt(hex: seq<byte>, rest: seq<byte>, len: nat, j: nat, v: seq<byte>, w: byte)
    requires j < len <= 8 && |hex| == 2 * len
    requires UnpackData(hex + rest, len) == Ok(v) && Hex2tou8(hex[2 * j..]) == Ok(w)
    ensures v[j] == w
  {
    SamePair(hex, rest, 2 * j, v[j], w);
  }

  /** Unpacking succeeds on any run of `2 * len` hex digits. */
  lemma UnpackEncodedOk(hex: seq<byte>, rest: seq<byte>, len: nat)
    requires len <= 8 && |hex| == 2 * len && AllHex(hex)
    ensures UnpackData(hex + rest, len).Ok?
  {
    assert (hex + rest)[..2 * len] == hex;
  }

  /** A digit pair that lies inside `hex` decodes the same with anything
      after it. */
  lemma SamePair(hex: seq<byte>, rest: seq<byte>, k: nat, v: byte, w: byte)
    requires k + 2 <= |hex| && Hex2tou8((hex + rest)[k..]) == Ok(v) && Hex2tou8(hex[k..]) == Ok(w)
    ensures v == w
  {
    PairInPrefix(hex, rest, k);
  }

  /** Asked for more than eight bytes, `unpack_data` panics on the store
      `buf[8]` once the first nine digit pairs decode. */
  lemma {:induction false} UnpackPastCapacity(s: seq<byte>, len: nat, i: nat, buf: seq<byte>)
    requires 8 < len && i <= 8 && |buf| == 8 && 18 <= |s| && AllHex(s[2 * i..18])
    ensures UnpackFrom(s, len, i, buf).OutOfBounds?
    decreases 8 - i
  {
    assert s[2 * i] == s[2 * i..18][0] && s[2 * i + 1] == s[2 * i..18][1];
    var b := Hex2tou8(s[2 * i..]);
    assert b.Ok?;
    if i < 8 {
      assert s[2 * (i + 1)..18] == s[2 * i..18][2..];
      UnpackPastCapacity(s, len, i + 1, buf[i := b.value]);
    }
  }

  /** Asked for more than eight bytes, `unpack_data` reports a digit pair
      that fails to decode, before the store `buf[8]`, when a byte `k` among
      the first nine pairs is not a hex digit. */
  lemma {:induction false} UnpackBadPair(s: seq<byte>, len: nat, i: nat, buf: seq<byte>, k: nat)
    requires 8 < len && i <= 8 && |buf| == 8 && 18 <= |s|
    requires 2 * i <= k < 18 && !IsHexDigit(s[k])
    ensures UnpackFrom(s, len, i, buf).NotHex?
    decreases 8 - i
  {
    var pair := Hex2tou8(s[2 * i..]);
    if pair.Ok? {
      assert k != 2 * i && k != 2 * i + 1;
      UnpackBadPair(s, len, i + 1, buf[i := pair.value], k);
    }
  }

}
