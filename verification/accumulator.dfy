/**
  The line accumulator of `CanSocket::read` (src/lib.rs:182-204): a fixed
  buffer `rbuff` of SLCAN_MTU bytes, a fill count `rcount` and an `error`
  flag that marks a line which overflowed the buffer. Bytes are taken one at
  a time; a carriage return or a BELL ends the line.
 */
module LineAccumulator {
  import opened Hex
  import opened Protocol

  /** The receive state of a socket. The buffer is never cleared: a reset
      only sets the count back to zero. */
  datatype Accumulator = Accumulator(rbuff: seq<byte>, rcount: nat, error: bool)

  /** The buffer has its fixed size and the count never exceeds it. */
  predicate Valid(a: Accumulator) {
    |a.rbuff| == SLCAN_MTU && a.rcount <= SLCAN_MTU
  }

  /** No byte of the current line has been taken yet. */
  predicate IsClean(a: Accumulator) {
    a.rcount == 0 && !a.error
  }

  /** The state `CanSocket::new` starts from: a zeroed buffer. */
  function Init(): (a: Accumulator)
    ensures Valid(a) && IsClean(a)
    ensures forall i | 0 <= i < SLCAN_MTU :: a.rbuff[i] == 0
  {
    Accumulator(seq(SLCAN_MTU, _ => 0), 0, false)
  }

  predicate IsTerminator(s: byte) {
    s == CARRIAGE_RETURN || s == BELL
  }

  predicate NoTerminator(bs: seq<byte>) {
    forall i | 0 <= i < |bs| :: !IsTerminator(bs[i])
  }

  /** Hex digits are never mistaken for the end of a line. */
  lemma HexNoTerminator(bs: seq<byte>)
    requires AllHex(bs)
    ensures NoTerminator(bs)
  {
  }

  lemma NoTerminatorAppend(x: seq<byte>, y: seq<byte>)
    requires NoTerminator(x) && NoTerminator(y)
    ensures NoTerminator(x + y)
  {
    forall i | 0 <= i < |x + y|
      ensures !IsTerminator((x + y)[i])
    {
      if i >= |x| {
        assert (x + y)[i] == y[i - |x|];
      }
    }
  }

  /** The `valid` test of `read`: the terminator `s` closes a line that did
      not overflow and holds more than four bytes, so it is decoded. */
  predicate LineComplete(a: Accumulator, s: byte) {
    IsTerminator(s) && !a.error && a.rcount > 4
  }

  /** One iteration of the loop of `read` on the byte `s`. */
  function Step(a: Accumulator, s: byte): (r: Accumulator)
    requires Valid(a)
    ensures Valid(r)
    ensures IsTerminator(s) ==> IsClean(r) && r.rbuff == a.rbuff
    ensures !IsTerminator(s) ==> (r.rcount == a.rcount + 1 <==> !a.error && a.rcount < SLCAN_MTU)
    ensures !IsTerminator(s) && r.rcount == a.rcount + 1 ==> !r.error && r.rbuff == a.rbuff[a.rcount := s]
    ensures !IsTerminator(s) && r.rcount != a.rcount + 1 ==> r.error && r.rcount == a.rcount && r.rbuff == a.rbuff
  {
    if IsTerminator(s) then Accumulator(a.rbuff, 0, false)
    else if !a.error then
      if a.rcount < SLCAN_MTU then Accumulator(a.rbuff[a.rcount := s], a.rcount + 1, false)
      else Accumulator(a.rbuff, a.rcount, true)
    else a
  }

  /** The state after stepping through every byte of `bs`. */
  function Feed(a: Accumulator, bs: seq<byte>): (r: Accumulator)
    requires Valid(a)
    ensures Valid(r)
    decreases |bs|
  {
    if |bs| == 0 then a else Feed(Step(a, bs[0]), bs[1..])
  }

  // ---------------------------------------------------------------- lemmas

  lemma {:induction false} FeedAppend(a: Accumulator, x: seq<byte>, y: seq<byte>)
    requires Valid(a)
    ensures Feed(a, x + y) == Feed(Feed(a, x), y)
    decreases |x|
  {
    if |x| > 0 {
      assert (x + y)[0] == x[0] && (x + y)[1..] == x[1..] + y;
      FeedAppend(Step(a, x[0]), x[1..], y);
    } else {
      assert x + y == y;
    }
  }

  /** A line that fits is stored in place after the bytes already taken;
      the rest of the buffer keeps whatever an earlier line left there. */
  lemma {:induction false} FeedLine(a: Accumulator, bs: seq<byte>)
    requires Valid(a) && !a.error && NoTerminator(bs)
    requires a.rcount + |bs| <= SLCAN_MTU
    ensures Feed(a, bs) == Accumulator(a.rbuff[..a.rcount] + bs + a.rbuff[a.rcount + |bs|..], a.rcount + |bs|, false)
    decreases |bs|
  {
    if |bs| > 0 {
      var n := Step(a, bs[0]);
      assert n.rbuff == a.rbuff[a.rcount := bs[0]];
      FeedLine(n, bs[1..]);
      assert n.rbuff[..n.rcount] + bs[1..] == a.rbuff[..a.rcount] + bs;
      assert n.rbuff[n.rcount + |bs[1..]|..] == a.rbuff[a.rcount + |bs|..];
    } else {
      assert a.rbuff[..a.rcount] + bs + a.rbuff[a.rcount..] == a.rbuff;
    }
  }

  /** Once the line has overflowed, bytes up to the next terminator are
      dropped and change nothing. */
  lemma {:induction false} FeedErrored(a: Accumulator, bs: seq<byte>)
    requires Valid(a) && a.error && NoTerminator(bs)
    ensures Feed(a, bs) == a
    decreases |bs|
  {
    if |bs| > 0 {
      FeedErrored(Step(a, bs[0]), bs[1..]);
    }
  }

  /** A line longer than the buffer fills it, sets `error` and drops every
      byte that did not fit. */
  lemma FeedOverflow(a: Accumulator, bs: seq<byte>)
    requires Valid(a) && !a.error && NoTerminator(bs)
    requires a.rcount + |bs| > SLCAN_MTU
    ensures Feed(a, bs) == Accumulator(a.rbuff[..a.rcount] + bs[..SLCAN_MTU - a.rcount], SLCAN_MTU, true)
  {
    var k := SLCAN_MTU - a.rcount;
    var head, tail := bs[..k], bs[k..];
    NoTerminatorSlices(bs, k);
    FeedFill(a, head);
    assert bs == head + tail;
    FeedAppend(a, head, tail);
    FeedPastFull(Feed(a, head), tail);
  }

  lemma NoTerminatorSlices(bs: seq<byte>, k: nat)
    requires NoTerminator(bs) && k <= |bs|
    ensures NoTerminator(bs[..k]) && NoTerminator(bs[k..])
  {
    forall i | 0 <= i < |bs| - k
      ensures !IsTerminator(bs[k..][i])
    {
      assert bs[k..][i] == bs[k + i];
    }
  }

  /** Bytes that arrive when the buffer is full set `error` and are
      dropped. */
  lemma FeedPastFull(full: Accumulator, bs: seq<byte>)
    requires Valid(full) && !full.error && full.rcount == SLCAN_MTU
    requires NoTerminator(bs) && |bs| > 0
    ensures Feed(full, bs) == full.(error := true)
  {
    var over := Step(full, bs[0]);
    assert over == full.(error := true);
    FeedErrored(over, bs[1..]);
  }

  /** A line that exactly fills the buffer leaves it full and not errored. */
  lemma FeedFill(a: Accumulator, bs: seq<byte>)
    requires Valid(a) && !a.error && NoTerminator(bs)
    requires a.rcount + |bs| == SLCAN_MTU
    ensures Feed(a, bs) == Accumulator(a.rbuff[..a.rcount] + bs, SLCAN_MTU, false)
  {
    FeedLine(a, bs);
    assert a.rbuff[a.rcount + |bs|..] == [];
  }

  /** Whatever came before, a terminator leaves the accumulator clean with
      its buffer contents untouched. */
  lemma FeedTerminated(a: Accumulator, bs: seq<byte>, t: byte)
    requires Valid(a) && IsTerminator(t)
    ensures IsClean(Feed(a, bs + [t]))
    ensures Feed(a, bs + [t]).rbuff == Feed(a, bs).rbuff
  {
    FeedAppend(a, bs, [t]);
  }

  /** Feeding `bs` from `a` never completes a line worth decoding. */
  predicate Quiet(a: Accumulator, bs: seq<byte>)
    requires Valid(a)
  {
    forall j | 0 <= j < |bs| :: !LineComplete(Feed(a, bs[..j]), bs[j])
  }

  lemma FeedPrefixCons(a: Accumulator, input: seq<byte>, k: nat)
    requires Valid(a) && 0 < k <= |input|
    ensures Feed(a, input[..k]) == Feed(Step(a, input[0]), input[1..][..k - 1])
  {
    assert input[..k][0] == input[0];
    assert input[..k][1..] == input[1..][..k - 1];
  }

  /** A run of bytes is quiet when its first byte does not complete a line
      and the rest is quiet from the state that byte leads to. */
  lemma QuietCons(a: Accumulator, bs: seq<byte>)
    requires Valid(a) && |bs| > 0
    ensures Quiet(a, bs) <==> !LineComplete(a, bs[0]) && Quiet(Step(a, bs[0]), bs[1..])
  {
    var n := Step(a, bs[0]);
    assert Feed(a, bs[..0]) == a by {
      assert bs[..0] == [];
    }
    forall j | 1 <= j < |bs|
      ensures Feed(a, bs[..j]) == Feed(n, bs[1..][..j - 1]) && bs[j] == bs[1..][j - 1]
    {
      FeedPrefixCons(a, bs, j);
    }
    if !LineComplete(a, bs[0]) && Quiet(n, bs[1..]) {
      forall j | 0 <= j < |bs|
        ensures !LineComplete(Feed(a, bs[..j]), bs[j])
      {
        if j > 0 {
          assert !LineComplete(Feed(n, bs[1..][..j - 1]), bs[1..][j - 1]);
        }
      }
    }
    if Quiet(a, bs) {
      forall i | 0 <= i < |bs[1..]|
        ensures !LineComplete(Feed(n, bs[1..][..i]), bs[1..][i])
      {
        assert !LineComplete(Feed(a, bs[..i + 1]), bs[i + 1]);
      }
    }
  }

  /** Bytes that hold no terminator never complete a line. */
  lemma NoTerminatorQuiet(a: Accumulator, bs: seq<byte>)
    requires Valid(a) && NoTerminator(bs)
    ensures Quiet(a, bs)
  {
  }

  /** From a clean state, a line of at most four bytes and its terminator
      are absorbed without being decoded: an acknowledgement or a short
      command leaves nothing behind. */
  lemma ShortLineQuiet(a: Accumulator, line: seq<byte>, t: byte)
    requires Valid(a) && IsClean(a) && NoTerminator(line) && |line| <= 4 && IsTerminator(t)
    ensures Quiet(a, line + [t])
    ensures IsClean(Feed(a, line + [t]))
  {
    FeedLine(a, line);
    FeedTerminated(a, line, t);
    var bs := line + [t];
    forall j | 0 <= j < |bs|
      ensures !LineComplete(Feed(a, bs[..j]), bs[j])
    {
      if j == |line| {
        assert bs[..j] == line;
      }
    }
  }

  /** From a clean state, a line too long for the buffer and its
      terminator are dropped without being decoded. */
  lemma OverflowLineQuiet(a: Accumulator, line: seq<byte>, t: byte)
    requires Valid(a) && IsClean(a) && NoTerminator(line) && |line| > SLCAN_MTU && IsTerminator(t)
    ensures Quiet(a, line + [t])
    ensures IsClean(Feed(a, line + [t]))
  {
    FeedOverflow(a, line);
    FeedTerminated(a, line, t);
    var bs := line + [t];
    forall j | 0 <= j < |bs|
      ensures !LineComplete(Feed(a, bs[..j]), bs[j])
    {
      if j == |line| {
        assert bs[..j] == line;
      }
    }
  }
}
