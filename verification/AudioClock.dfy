/**
 * The audio timeline (audio.c): a clock that stamps frames by counting samples,
 * and what its stamps become as RTP timestamps (rtsp.c).
 */
module AudioClock {
  import opened Bytes
  import opened Rtp

  const SLACK_US: nat := 150_000
  const AUDIO_RATE: nat := 8000

  datatype Clock = Clock(anchor: nat, samples: nat, rate: nat, started: bool)

  /** samples_us */
  function SamplesUs(samples: nat, rate: nat): nat
    requires rate > 0
  {
    samples / rate * 1_000_000 + samples % rate * 1_000_000 / rate
  }

  function Init(rate: nat): Clock {
    Clock(0, 0, if rate != 0 then rate else AUDIO_RATE, false)
  }

  /** Where the timeline would end after a frame of n samples. */
  function End(c: Clock, n: nat): nat
    requires c.rate > 0
  {
    c.anchor + SamplesUs(c.samples + n, c.rate)
  }

  /** jipc_audio_clock_ahead */
  predicate Ahead(c: Clock, now: nat, n: nat)
    requires c.rate > 0
  {
    c.started && End(c, n) > now + SLACK_US
  }

  predicate Restarts(c: Clock, now: nat, n: nat)
    requires c.rate > 0
  {
    !c.started || now > End(c, n) + SLACK_US
  }

  /** The clock a frame is stamped from: re-anchored after a stall so that the frame ends now. */
  function Anchored(c: Clock, now: nat, n: nat): (a: Clock)
    requires c.rate > 0
    ensures a.rate == c.rate && a.started
  {
    var duration := SamplesUs(n, c.rate);
    if Restarts(c, now, n) then Clock(if now > duration then now - duration else 0, 0, c.rate, true) else c
  }

  /** jipc_audio_clock_stamp: the frame's time, and the clock after it. */
  function Stamp(c: Clock, now: nat, n: nat): nat
    requires c.rate > 0
  {
    End(Anchored(c, now, n), 0)
  }

  function After(c: Clock, now: nat, n: nat): (a: Clock)
    requires c.rate > 0
    ensures a.rate == c.rate && a.started
  {
    var a := Anchored(c, now, n);
    a.(samples := a.samples + n)
  }

  /** A clock starts unstarted at its rate, or at 8 kHz for none. */
  lemma InitRate(rate: nat)
    ensures var c := Init(rate); !c.started && c.rate > 0 && c.anchor == c.samples == 0 && c.rate == if rate == 0 then 8000 else rate
  {
  }

  // ----- the clock is exact

  lemma DivUnique(x: nat, y: nat, q: nat, r: nat)
    requires y > 0 && x == q * y + r && r < y
    ensures x / y == q
  {
    var d := x / y - q;
    assert x == x / y * y + x % y;
    assert d * y == x / y * y - q * y;
    assert d > 0 ==> d * y >= y;
    assert d < 0 ==> d * y + y <= 0;
  }

  lemma ScaledDiv(samples: nat, rate: nat, q: nat, m: nat, p: nat, t: nat)
    requires rate > 0 && samples == q * rate + m && m * 1_000_000 == p * rate + t && t < rate
    ensures samples * 1_000_000 / rate == q * 1_000_000 + p
  {
    assert (q * 1_000_000 + p) * rate == q * rate * 1_000_000 + p * rate;
    DivUnique(samples * 1_000_000, rate, q * 1_000_000 + p, t);
  }

  lemma DivMod(x: nat, y: nat)
    requires y > 0
    ensures x == x / y * y + x % y && x % y < y
  {
  }

  /** samples_us never loses a microsecond to its split arithmetic. */
  lemma SamplesExact(samples: nat, rate: nat)
    requires rate > 0
    ensures SamplesUs(samples, rate) == samples * 1_000_000 / rate
  {
    var q, m := samples / rate, samples % rate;
    var p, t := m * 1_000_000 / rate, m * 1_000_000 % rate;
    assert samples == q * rate + m by {
      DivMod(samples, rate);
    }
    assert m * 1_000_000 == p * rate + t && t < rate by {
      DivMod(m * 1_000_000, rate);
    }
    ScaledDiv(samples, rate, q, m, p, t);
  }

  lemma SumDiv(rate: nat, p: nat, q: nat, s: nat, t: nat)
    requires s < rate && t < rate
    ensures p + q <= (p * rate + s + (q * rate + t)) / rate <= p + q + 1
  {
    var sum := p * rate + s + (q * rate + t);
    if s + t < rate {
      assert sum == (p + q) * rate + (s + t);
      DivUnique(sum, rate, p + q, s + t);
    } else {
      assert sum == (p + q + 1) * rate + (s + t - rate);
      DivUnique(sum, rate, p + q + 1, s + t - rate);
    }
  }

  lemma DivAdd(x: nat, y: nat, rate: nat)
    requires rate > 0
    ensures x / rate + y / rate <= (x + y) / rate <= x / rate + y / rate + 1
  {
    DivMod(x, rate);
    DivMod(y, rate);
    SumDiv(rate, x / rate, y / rate, x % rate, y % rate);
  }

  /** Rounding down, the whole is never shorter than its parts, nor longer by more than a microsecond. */
  lemma SamplesAdd(a: nat, b: nat, rate: nat)
    requires rate > 0
    ensures SamplesUs(a, rate) + SamplesUs(b, rate) <= SamplesUs(a + b, rate) <= SamplesUs(a, rate) + SamplesUs(b, rate) + 1
  {
    SamplesExact(a, rate);
    SamplesExact(b, rate);
    SamplesExact(a + b, rate);
    DivAdd(a * 1_000_000, b * 1_000_000, rate);
  }

  // ----- the timeline

  /** Time never repeats or goes back; a re-anchor skips more than 150 ms ahead of where the last frame ended. */
  lemma StampsForward(c: Clock, now: nat, n: nat)
    requires c.rate > 0 && c.started
    ensures Stamp(c, now, n) >= End(c, 0)
    ensures Restarts(c, now, n) ==> Stamp(c, now, n) > End(c, 0) + SLACK_US
    ensures !Restarts(c, now, n) ==> Stamp(c, now, n) == End(c, 0)
    ensures End(After(c, now, n), 0) >= Stamp(c, now, n) + SamplesUs(n, c.rate)
  {
    SamplesAdd(c.samples, n, c.rate);
    SamplesAdd(0, n, c.rate);
  }

  /**
   * A frame that the ahead test lets through leaves the timeline's end within
   * 150 ms of the capture clock, unless it is the very first and longer than the
   * clock has been running.
   */
  lemma EndsNearNow(c: Clock, now: nat, n: nat)
    requires c.rate > 0 && !Ahead(c, now, n)
    ensures now <= End(After(c, now, n), 0) + SLACK_US
    ensures End(After(c, now, n), 0) <= now + SLACK_US <==> c.started || SamplesUs(n, c.rate) <= now + SLACK_US
  {
    SamplesAdd(c.samples, n, c.rate);
  }

  /** Once the clock runs, exactly the frames are dropped that would leave its end more than 150 ms ahead. */
  lemma DroppedIff(c: Clock, now: nat, n: nat)
    requires c.rate > 0
    ensures Ahead(c, now, n) <==> c.started && End(After(c, now, n), 0) > now + SLACK_US
  {
    if !Ahead(c, now, n) {
      EndsNearNow(c, now, n);
    }
  }

  /** Such a frame: 200 ms of audio in a clock's first microsecond. */
  lemma FirstFrameFarOff()
    ensures var c := Init(AUDIO_RATE);
            !Ahead(c, 1, 1600) && End(After(c, 1, 1600), 0) == 200_000 > 1 + SLACK_US
  {
    SamplesExact(1600, AUDIO_RATE);
  }

  // ----- as RTP timestamps

  /** At 8 kHz a sample is 125 us, and a timestamp counts whole samples. */
  lemma Ticks(base: nat, pts: nat)
    ensures MediaTimestamp(base, pts, AUDIO_RATE) == (base + pts / 125) % TWO32
  {
    var q, m := pts / 1_000_000, pts % 1_000_000;
    assert pts == q * 1_000_000 + m;
    assert pts / 125 == q * 8000 + m / 125;
    assert m * 8000 / 1_000_000 == m / 125;
  }

  lemma EndTicks(c: Clock, n: nat)
    requires c.rate == AUDIO_RATE
    ensures End(c, n) == c.anchor + 125 * (c.samples + n)
    ensures End(c, n) / 125 == c.anchor / 125 + c.samples + n
  {
    SamplesExact(c.samples + n, AUDIO_RATE);
  }

  /** An A-law frame: one byte a sample, and the clock when it was captured. */
  datatype Captured = Captured(now: nat, data: seq<byte>)

  /** The packets of frames stamped one after the other. */
  function Items(c: Clock, base: nat, frames: seq<Captured>): seq<Item>
    requires c.rate == AUDIO_RATE
    decreases |frames|
  {
    if frames == [] then []
    else
      var f := frames[0];
      AudioItems(f.data, 0, MediaTimestamp(base, Stamp(c, f.now, |f.data|), AUDIO_RATE)) +
      Items(After(c, f.now, |f.data|), base, frames[1..])
  }

  /** None of the frames re-anchors the clock. */
  predicate Steady(c: Clock, frames: seq<Captured>)
    requires c.rate > 0
    decreases |frames|
  {
    frames == [] ||
    (!Restarts(c, frames[0].now, |frames[0].data|) && Steady(After(c, frames[0].now, |frames[0].data|), frames[1..]))
  }

  function Captures(frames: seq<Captured>): seq<byte> {
    if frames == [] then [] else frames[0].data + Captures(frames[1..])
  }

  /** From ts on, every packet starts where the one before ended, a tick a byte, and data is what they carry. */
  predicate Gapless(items: seq<Item>, ts: nat, data: seq<byte>)
    decreases |items|
  {
    if items == [] then data == []
    else
      var n := |items[0].payload|;
      && items[0].timestamp == ts % TWO32 && 1 <= n <= PAYLOAD_MAX && n <= |data| && items[0].payload == data[..n]
      && Gapless(items[1..], ts + n, data[n..])
  }

  lemma {:induction false} GaplessConcat(a: seq<Item>, b: seq<Item>, ts: nat, x: seq<byte>, y: seq<byte>)
    requires Gapless(a, ts, x) && Gapless(b, ts + |x|, y)
    ensures Gapless(a + b, ts, x + y)
    decreases |a|
  {
    if a == [] {
      assert a + b == b && x + y == y;
    } else {
      var n := |a[0].payload|;
      GaplessConcat(a[1..], b, ts + n, x[n..], y);
      assert (a + b)[1..] == a[1..] + b && (x + y)[n..] == x[n..] + y && (x + y)[..n] == x[..n];
    }
  }

  lemma ModShift(a: nat, b: nat, n: nat)
    requires a % TWO32 == b % TWO32
    ensures (a + n) % TWO32 == (b + n) % TWO32
  {
  }

  lemma {:induction false} GaplessShift(items: seq<Item>, ts: nat, other: nat, data: seq<byte>)
    requires Gapless(items, ts, data) && ts % TWO32 == other % TWO32
    ensures Gapless(items, other, data)
    decreases |items|
  {
    if items != [] {
      var n := |items[0].payload|;
      ModShift(ts, other, n);
      GaplessShift(items[1..], ts + n, other + n, data[n..]);
    }
  }

  lemma {:induction false} FrameGapless(data: seq<byte>, offset: nat, ts: nat)
    requires offset <= |data|
    ensures Gapless(AudioItems(data, offset, ts), ts + offset, data[offset..])
    decreases |data| - offset
  {
    if offset < |data| {
      var size := if |data| - offset > PAYLOAD_MAX then PAYLOAD_MAX else |data| - offset;
      FrameGapless(data, offset + size, ts);
      assert data[offset..][size..] == data[offset + size..] && data[offset..][..size] == data[offset..offset + size];
    }
  }

  /**
   * Between re-anchors the RTP timestamp advances by exactly one tick per A-law
   * byte, modulo 2^32, within a frame and from frame to frame (section 4.5.14 of
   * RFC 3551).
   */
  lemma {:induction false} TickPerByte(c: Clock, base: nat, frames: seq<Captured>)
    requires c.rate == AUDIO_RATE && Steady(c, frames)
    ensures Gapless(Items(c, base, frames), base + End(c, 0) / 125, Captures(frames))
    decreases |frames|
  {
    if frames != [] {
      var f := frames[0];
      var n, next := |f.data|, After(c, f.now, |f.data|);
      var ts := MediaTimestamp(base, Stamp(c, f.now, n), AUDIO_RATE);
      Ticks(base, Stamp(c, f.now, n));
      FrameGapless(f.data, 0, ts);
      assert f.data[0..] == f.data;
      GaplessShift(AudioItems(f.data, 0, ts), ts, base + End(c, 0) / 125, f.data);
      TickPerByte(next, base, frames[1..]);
      EndTicks(c, 0);
      EndTicks(next, 0);
      GaplessConcat(AudioItems(f.data, 0, ts), Items(next, base, frames[1..]), base + End(c, 0) / 125, f.data, Captures(frames[1..]));
    }
  }

  /** A re-anchor moves the timestamps forward, by more than 150 ms beyond the bytes sent. */
  lemma ReanchorTicks(c: Clock, now: nat, n: nat)
    requires c.rate == AUDIO_RATE && c.started && Restarts(c, now, n)
    ensures Stamp(c, now, n) / 125 >= End(c, 0) / 125 + SLACK_US / 125
  {
    StampsForward(c, now, n);
  }

  // ----- the code

  /** jipc_audio_clock */
  class SampleClock {
    var anchorUs: nat
    var samples: nat
    const rate: nat
    var started: bool

    ghost predicate Valid() {
      rate > 0
    }

    ghost function View(): Clock
      reads this
    {
      Clock(anchorUs, samples, rate, started)
    }

    constructor (rate0: nat)
      ensures Valid() && View() == Init(rate0)
    {
      anchorUs, samples, started := 0, 0, false;
      rate := if rate0 != 0 then rate0 else AUDIO_RATE;
    }

    method IsAhead(now: nat, n: nat) returns (ahead: bool)
      requires Valid()
      ensures ahead == Ahead(View(), now, n)
    {
      if !started {
        return false;
      }
      var end := anchorUs + SamplesUs(samples + n, rate);
      ahead := end > now + SLACK_US;
    }

    method StampFrame(now: nat, n: nat) returns (pts: nat, discontinuity: bool)
      requires Valid()
      modifies this
      ensures pts == Stamp(old(View()), now, n) && View() == After(old(View()), now, n)
      ensures discontinuity == Restarts(old(View()), now, n)
    {
      var duration := SamplesUs(n, rate);
      var restart := !started;
      if started {
        var end := anchorUs + SamplesUs(samples + n, rate);
        restart := now > end + SLACK_US;
      }
      if restart {
        anchorUs := if now > duration then now - duration else 0;
        samples, started := 0, true;
      }
      discontinuity := restart;
      pts := anchorUs + SamplesUs(samples, rate);
      samples := samples + n;
    }
  }
}
