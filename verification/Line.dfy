/** The serial line of `src/fskio/fsk.cxx`: the levels `send_baudot` drives, and
    a start-stop receiver with a clock of its own that reads them back. */
module Line {
  import opened Common

  /** What the sender does to the line: one frame, or rest at MARK. */
  datatype LineEvent = Frame(bits: nat, short: bool) | Rest(span: real)

  /** BITLEN, the length of one bit at 45.45 baud. */
  const BITLEN: real := 0.022

  const MARK := false
  const SPACE := true

  /** `fsk_out`: the level put on the pin, reversed when FSK_INVERTED is set. */
  function Pin(state: bool, inverted: bool): bool { state != inverted }

  function Bit(bits: nat, k: nat): bool
    requires k < 5
  {
    var shifted := if k == 0 then bits else if k == 1 then bits / 2 else if k == 2 then bits / 4
                   else if k == 3 then bits / 8 else bits / 16;
    shifted % 2 == 1
  }

  /** FSK_STOPBITS selects 1.5 stop bits, otherwise 2. */
  function StopSpan(short: bool): real { BITLEN * (if short then 1.5 else 2.0) }

  function DataState(bits: nat, k: nat): bool
    requires k < 5
  {
    if Bit(bits, k) then MARK else SPACE
  }

  /** The seven levels of one frame. */
  function FrameSegs(bits: nat, short: bool, inverted: bool): (w: seq<Seg>)
    ensures |w| == 7
  {
    [ Seg(Pin(SPACE, inverted), BITLEN),
      Seg(Pin(DataState(bits, 0), inverted), BITLEN),
      Seg(Pin(DataState(bits, 1), inverted), BITLEN),
      Seg(Pin(DataState(bits, 2), inverted), BITLEN),
      Seg(Pin(DataState(bits, 3), inverted), BITLEN),
      Seg(Pin(DataState(bits, 4), inverted), BITLEN),
      Seg(Pin(MARK, inverted), StopSpan(short)) ]
  }

  /** One frame in plain figures, at 45.45 baud: the line is off for MARK and on for SPACE,
      or the other way round when inverted; a start bit of SPACE, five data bits, lowest
      first, of MARK for one and SPACE for zero, and MARK for 1.5 or 2 bits. */
  lemma FrameInFigures(bits: nat, short: bool, inverted: bool)
    ensures FrameSegs(bits, short, inverted)
      == [ Seg(!inverted, 0.022),
           Seg((bits % 2 == 0) != inverted, 0.022), Seg((bits / 2 % 2 == 0) != inverted, 0.022),
           Seg((bits / 4 % 2 == 0) != inverted, 0.022), Seg((bits / 8 % 2 == 0) != inverted, 0.022),
           Seg((bits / 16 % 2 == 0) != inverted, 0.022),
           Seg(inverted, if short then 0.033 else 0.044) ]
    ensures 45.45 < 1.0 / BITLEN < 45.46
  {
  }

  function EventSegs(e: LineEvent, inverted: bool): seq<Seg> {
    match e
    case Frame(bits, short) => FrameSegs(bits, short, inverted)
    case Rest(span) => [Seg(Pin(MARK, inverted), span)]
  }

  function Wave(events: seq<LineEvent>, inverted: bool): seq<Seg> {
    if events == [] then [] else EventSegs(events[0], inverted) + Wave(events[1..], inverted)
  }

  lemma {:induction false} WaveAppend(a: seq<LineEvent>, b: seq<LineEvent>, inverted: bool)
    ensures Wave(a + b, inverted) == Wave(a, inverted) + Wave(b, inverted)
  {
    Front(a, b);
    if a != [] {
      WaveAppend(a[1..], b, inverted);
      Assoc(EventSegs(a[0], inverted), Wave(a[1..], inverted), Wave(b, inverted));
    }
  }

  function Codes(events: seq<LineEvent>): seq<nat> {
    if events == [] then []
    else (if events[0].Frame? then [events[0].bits] else []) + Codes(events[1..])
  }

  lemma {:induction false} CodesAppend(a: seq<LineEvent>, b: seq<LineEvent>)
    ensures Codes(a + b) == Codes(a) + Codes(b)
  {
    Front(a, b);
    if a != [] {
      CodesAppend(a[1..], b);
      Assoc(if a[0].Frame? then [a[0].bits] else [], Codes(a[1..]), Codes(b));
    }
  }

  function Length(w: seq<Seg>): real {
    if w == [] then 0.0 else w[0].span + Length(w[1..])
  }

  lemma {:induction false} LengthAppend(a: seq<Seg>, b: seq<Seg>)
    ensures Length(a + b) == Length(a) + Length(b)
  {
    Front(a, b);
    if a != [] { LengthAppend(a[1..], b); }
  }

  // ---- The start-stop receiver ------------------------------------------

  /** The level `t` seconds into the wave; past its end, the last level. */
  function LevelAt(w: seq<Seg>, t: real): bool
    requires w != []
  {
    if t < w[0].span || |w| == 1 then w[0].level else LevelAt(w[1..], t - w[0].span)
  }

  /** What is left of the wave `t` seconds in. */
  function Skip(w: seq<Seg>, t: real): (r: seq<Seg>)
    ensures |r| <= |w|
    ensures r != [] ==> r[0].level == LevelAt(w, t)
    ensures r != [] && |r| == |w| ==> r[0].level == w[0].level
  {
    if w == [] then []
    else if t < w[0].span then [w[0].(span := w[0].span - t)] + w[1..]
    else Skip(w[1..], t - w[0].span)
  }

  /** The five data bits, each sampled in its middle by a clock of period `p`. */
  function SampledBits(w: seq<Seg>, inverted: bool, p: real): nat
    requires w != []
  {
    var mark := Pin(MARK, inverted);
    (if LevelAt(w, 1.5 * p) == mark then 1 else 0)
    + (if LevelAt(w, 2.5 * p) == mark then 2 else 0)
    + (if LevelAt(w, 3.5 * p) == mark then 4 else 0)
    + (if LevelAt(w, 4.5 * p) == mark then 8 else 0)
    + (if LevelAt(w, 5.5 * p) == mark then 16 else 0)
  }

  /** A start-stop receiver whose bit period is `p`: it waits for SPACE, samples
      five bits, demands MARK in the middle of the next bit, and from there waits
      for SPACE again.  A frame without its stop bit is skipped, an unfinished
      one is dropped. */
  function Receive(w: seq<Seg>, inverted: bool, p: real): seq<nat>
    decreases |w|
  {
    if w == [] then []
    else if w[0].level == Pin(MARK, inverted) then Receive(w[1..], inverted, p)
    else
      var rest := Skip(w, 6.5 * p);
      if rest == [] then []
      else if rest[0].level == Pin(SPACE, inverted) then Receive(w[1..], inverted, p)
      else [SampledBits(w, inverted, p)] + Receive(rest, inverted, p)
  }

  /** The receiver clocks that stay inside every bit of a frame: the last data bit
      must be sampled before it ends and the stop bit after it begins. */
  predicate ClockFits(p: real) { 12.0 * BITLEN <= 13.0 * p && 11.0 * p < 12.0 * BITLEN }

  predicate FiveBits(events: seq<LineEvent>) {
    forall e :: e in events && e.Frame? ==> e.bits < 32
  }

  lemma {:induction false} LevelInBit(w: seq<Seg>, k: nat, t: real)
    requires k < |w|
    requires forall i :: 0 <= i < k ==> w[i].span == BITLEN
    requires k as real * BITLEN <= t < k as real * BITLEN + w[k].span
    ensures LevelAt(w, t) == w[k].level
    ensures Skip(w, t) == [w[k].(span := k as real * BITLEN + w[k].span - t)] + w[k + 1..]
  {
    if k > 0 {
      LevelInBit(w[1..], k - 1, t - BITLEN);
      assert w[1..][k - 1] == w[k] && w[1..][k..] == w[k + 1..];
      assert w[0].span == BITLEN;
    }
  }

  lemma BitsOf(bits: nat)
    requires bits < 32
    ensures bits == (if Bit(bits, 0) then 1 else 0) + (if Bit(bits, 1) then 2 else 0)
                  + (if Bit(bits, 2) then 4 else 0) + (if Bit(bits, 3) then 8 else 0)
                  + (if Bit(bits, 4) then 16 else 0)
  {
  }

  /** One frame in front of anything is received as its code, and the receiver is
      back to waiting before the next frame can begin. */
  lemma ReceiveFrame(bits: nat, short: bool, inverted: bool, p: real, after: seq<Seg>)
    requires bits < 32 && ClockFits(p)
    ensures Receive(FrameSegs(bits, short, inverted) + after, inverted, p)
         == [bits] + Receive(after, inverted, p)
  {
    var f := FrameSegs(bits, short, inverted);
    var w := f + after;
    assert forall i :: 0 <= i < 7 ==> w[i] == f[i];
    LevelInBit(w, 1, 1.5 * p);
    LevelInBit(w, 2, 2.5 * p);
    LevelInBit(w, 3, 3.5 * p);
    LevelInBit(w, 4, 4.5 * p);
    LevelInBit(w, 5, 5.5 * p);
    LevelInBit(w, 6, 6.5 * p);
    BitsOf(bits);
    assert w[7..] == after;
    var rest := Skip(w, 6.5 * p);
    assert rest[1..] == after;
    assert SampledBits(w, inverted, p) == bits;
    assert Receive(rest, inverted, p) == Receive(after, inverted, p);
  }

  /** Whatever the sender does, a receiver whose clock fits reads exactly the
      codes sent, with either length of stop bit and either polarity. */
  lemma {:induction false} ReceiveWave(events: seq<LineEvent>, inverted: bool, p: real)
    requires ClockFits(p) && FiveBits(events)
    ensures Receive(Wave(events, inverted), inverted, p) == Codes(events)
  {
    if events != [] {
      ReceiveWave(events[1..], inverted, p);
      var after := Wave(events[1..], inverted);
      match events[0]
      case Frame(bits, short) =>
        ReceiveFrame(bits, short, inverted, p, after);
      case Rest(span) =>
        assert ([Seg(Pin(MARK, inverted), span)] + after)[1..] == after;
    }
  }

  /** The clock condition is exact: outside it the code 15, whose last data bit is
      SPACE, is not received. */
  lemma ClockExact(short: bool, inverted: bool, p: real)
    ensures Receive(FrameSegs(15, short, inverted), inverted, p) == [15] <==> ClockFits(p)
  {
    var f := FrameSegs(15, short, inverted);
    if ClockFits(p) {
      ReceiveFrame(15, short, inverted, p, []);
      assert f + [] == f;
    } else if 11.0 * p >= 12.0 * BITLEN {
      FastFails(short, inverted, p);
    } else {
      SlowFails(short, inverted, p);
    }
  }

  /** A clock that samples the last data bit in the stop bit, or beyond the frame. */
  lemma FastFails(short: bool, inverted: bool, p: real)
    requires 11.0 * p >= 12.0 * BITLEN
    ensures Receive(FrameSegs(15, short, inverted), inverted, p) != [15]
  {
    var f := FrameSegs(15, short, inverted);
    if 6.5 * p < 6.0 * BITLEN + StopSpan(short) {
      LevelInBit(f, 6, 6.5 * p);
      LevelInBit(f, 6, 5.5 * p);
      assert SampledBits(f, inverted, p) >= 16;
      assert Receive(f, inverted, p)[0] == SampledBits(f, inverted, p);
    } else {
      FrameLength(15, short, inverted);
      SkipAll(f, 6.5 * p);
    }
  }

  lemma {:induction false} SkipAll(w: seq<Seg>, t: real)
    requires t >= Length(w)
    requires forall i :: 0 <= i < |w| ==> w[i].span >= 0.0
    ensures Skip(w, t) == []
  {
    if w != [] {
      LengthNonNegative(w[1..]);
      SkipAll(w[1..], t - w[0].span);
    }
  }

  lemma {:induction false} LengthNonNegative(w: seq<Seg>)
    requires forall i :: 0 <= i < |w| ==> w[i].span >= 0.0
    ensures Length(w) >= 0.0
  {
    if w != [] { LengthNonNegative(w[1..]); }
  }

  lemma LevelOf15(short: bool, inverted: bool, t: real)
    requires t < 6.0 * BITLEN
    ensures var f := FrameSegs(15, short, inverted);
      && LevelAt(f, t) == Pin(if BITLEN <= t < 5.0 * BITLEN then MARK else SPACE, inverted)
      && Skip(f, t) != []
  {
    var f := FrameSegs(15, short, inverted);
    if t >= BITLEN {
      var k := if t < 2.0 * BITLEN then 1 else if t < 3.0 * BITLEN then 2 else if t < 4.0 * BITLEN then 3
               else if t < 5.0 * BITLEN then 4 else 5;
      LevelInBit(f, k, t);
      assert DataState(15, 0) == DataState(15, 1) == DataState(15, 2) == DataState(15, 3) == MARK;
      assert DataState(15, 4) == SPACE;
    }
  }

  /** A clock that looks for the stop bit too early: the frame is lost or its code is wrong. */
  lemma SlowFails(short: bool, inverted: bool, p: real)
    requires 13.0 * p < 12.0 * BITLEN
    ensures Receive(FrameSegs(15, short, inverted), inverted, p) != [15]
  {
    var f := FrameSegs(15, short, inverted);
    LevelOf15(short, inverted, 6.5 * p);
    if BITLEN <= 6.5 * p < 5.0 * BITLEN {
      LevelOf15(short, inverted, 5.5 * p);
      LevelOf15(short, inverted, 1.5 * p);
      assert SampledBits(f, inverted, p) != 15;
      assert Receive(f, inverted, p)[0] == SampledBits(f, inverted, p);
    } else {
      MissedStop(short, inverted, p);
      LastBit(short, inverted, p);
    }
  }

  /** Without a stop bit the receiver moves on to the next SPACE, the last data bit of 15. */
  lemma MissedStop(short: bool, inverted: bool, p: real)
    requires var rest := Skip(FrameSegs(15, short, inverted), 6.5 * p);
      rest != [] && rest[0].level == Pin(SPACE, inverted)
    ensures var f := FrameSegs(15, short, inverted); Receive(f, inverted, p) == Receive(f[5..], inverted, p)
  {
    var f := FrameSegs(15, short, inverted);
    assert Receive(f, inverted, p) == Receive(f[1..], inverted, p);
    assert f[1..][1..] == f[2..] && f[2..][1..] == f[3..] && f[3..][1..] == f[4..] && f[4..][1..] == f[5..];
    assert Receive(f[1..], inverted, p) == Receive(f[2..], inverted, p) == Receive(f[3..], inverted, p)
        == Receive(f[4..], inverted, p) == Receive(f[5..], inverted, p);
  }

  /** And there it finds no stop bit either, or the end of the line. */
  lemma LastBit(short: bool, inverted: bool, p: real)
    requires 6.5 * p < BITLEN || 6.5 * p >= 5.0 * BITLEN
    ensures Receive(FrameSegs(15, short, inverted)[5..], inverted, p) == []
  {
    var f := FrameSegs(15, short, inverted);
    var tail := f[5..];
    assert tail == [f[5], f[6]] && tail[1..] == [f[6]] && tail[1..][1..] == [];
    assert Receive(tail[1..], inverted, p) == Receive([], inverted, p);
    if 6.5 * p >= 5.0 * BITLEN {
      assert Length(tail) == BITLEN + Length(tail[1..]);
      assert Length(tail[1..]) == StopSpan(short) + Length([]);
      SkipAll(tail, 6.5 * p);
    }
  }

  // ---- Air time ----------------------------------------------------------

  /** Half-bits on the air: 15 for a frame with a short stop bit, 16 otherwise. */
  function HalfBits(events: seq<LineEvent>): nat {
    if events == [] then 0
    else (if events[0].Rest? then 0 else if events[0].short then 15 else 16) + HalfBits(events[1..])
  }

  function RestTime(events: seq<LineEvent>): real {
    if events == [] then 0.0
    else (if events[0].Rest? then events[0].span else 0.0) + RestTime(events[1..])
  }

  lemma {:induction false} AirTime(events: seq<LineEvent>, inverted: bool)
    ensures Length(Wave(events, inverted))
         == HalfBits(events) as real * (BITLEN / 2.0) + RestTime(events)
  {
    if events != [] {
      AirTime(events[1..], inverted);
      var head := EventSegs(events[0], inverted);
      LengthAppend(head, Wave(events[1..], inverted));
      match events[0]
      case Frame(bits, short) => FrameLength(bits, short, inverted);
      case Rest(span) => assert head[1..] == [];
    }
  }

  lemma FrameLength(bits: nat, short: bool, inverted: bool)
    ensures Length(FrameSegs(bits, short, inverted)) == (if short then 7.5 else 8.0) * BITLEN
  {
    var f := FrameSegs(bits, short, inverted);
    assert f[1..][1..] == f[2..] && f[2..][1..] == f[3..] && f[3..][1..] == f[4..];
    assert f[4..][1..] == f[5..] && f[5..][1..] == f[6..] && f[6..][1..] == [];
    assert Length(f[6..]) == StopSpan(short);
    assert Length(f[5..]) == BITLEN + Length(f[6..]);
    assert Length(f[4..]) == BITLEN + Length(f[5..]);
    assert Length(f[3..]) == BITLEN + Length(f[4..]);
    assert Length(f[2..]) == BITLEN + Length(f[3..]);
    assert Length(f[1..]) == BITLEN + Length(f[2..]);
  }
}
