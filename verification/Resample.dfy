/** Resampling the device rate to 44100 by straight lines, exactly: positions are counted in 1/44100 of a frame. */
module ResampleSpec {
  import opened Wire

  const MAX_STAGED: nat := 8192

  // Division that drops the fraction, as a cast to an integer does.
  function Truncate(n: int, d: nat): int
    requires d > 0
  {
    if n >= 0 then n / d else -(-n / d)
  }

  // The point r/44100 of the way from a to b.
  function Lerp(a: int, b: int, r: nat): int { Truncate(a * (RATE - r) + b * r, RATE) }

  // Input frame i and the next one exist.
  predicate FramesAt(input: seq<Sample>, i: nat) { 2 * i + 3 < |input| }

  // Whether output frame k can be computed from the input seen so far.
  predicate Ready(input: seq<Sample>, rate: nat, k: nat) { FramesAt(input, k * rate / RATE) }

  function Point(input: seq<Sample>, position: nat, channel: nat): (p: Sample)
    requires FramesAt(input, position / RATE) && channel < 2
  {
    var i := position / RATE;
    LerpBetween(input[2 * i + channel], input[2 * i + 2 + channel], position % RATE);
    Lerp(input[2 * i + channel], input[2 * i + 2 + channel], position % RATE)
  }

  // The first n output frames of a whole input, in one piece.
  function OneShot(input: seq<Sample>, rate: nat, n: nat): (r: seq<Sample>)
    requires forall k :: 0 <= k < n ==> Ready(input, rate, k)
    ensures |r| == 2 * n
  {
    seq(2 * n, j requires 0 <= j < 2 * n => assert Ready(input, rate, j / 2); Point(input, j / 2 * rate, j % 2))
  }

  lemma TruncateBounds(n: int, lo: int, hi: int)
    requires lo * RATE <= n <= hi * RATE
    ensures lo <= Truncate(n, RATE) <= hi
  {
  }

  /** An interpolated sample lies between its neighbours, so it fits sixteen bits like them. */
  lemma LerpBetween(a: int, b: int, r: nat)
    requires r < RATE
    ensures a <= b ==> a <= Lerp(a, b, r) <= b
    ensures b <= a ==> b <= Lerp(a, b, r) <= a
    ensures r == 0 ==> Lerp(a, b, r) == a
  {
    var n := a * (RATE - r) + b * r;
    assert n == a * RATE + (b - a) * r && n == b * RATE + (a - b) * (RATE - r);
    if a <= b {
      NonNegative(b - a, r);
      NonNegative(b - a, RATE - r);
      assert (a - b) * (RATE - r) == -((b - a) * (RATE - r));
      TruncateBounds(n, a, b);
    }
    if b <= a {
      NonNegative(a - b, r);
      NonNegative(a - b, RATE - r);
      assert (b - a) * r == -((a - b) * r);
      TruncateBounds(n, b, a);
    }
  }

  /** The value: the weighted sum of the neighbours, a fraction of one dropped towards zero. */
  lemma LerpValue(a: int, b: int, r: nat)
    requires r < RATE
    ensures var n, s := a * (RATE - r) + b * r, RATE * Lerp(a, b, r);
      if n >= 0 then 0 <= s <= n < s + RATE else s - RATE < n <= s <= 0
  {
    TruncateValue(a * (RATE - r) + b * r, RATE);
  }

  lemma TruncateValue(n: int, d: nat)
    requires d > 0
    ensures if n >= 0 then 0 <= d * Truncate(n, d) <= n < d * Truncate(n, d) + d
            else d * Truncate(n, d) - d < n <= d * Truncate(n, d) <= 0
  {
    if n >= 0 {
      Quotient(n, d);
    } else {
      Quotient(-n, d);
      Negated(d, -n / d);
    }
  }

  lemma Quotient(n: nat, d: nat)
    requires d > 0
    ensures 0 <= d * (n / d) <= n < d * (n / d) + d
  {
  }

  lemma Negated(d: int, q: int)
    ensures d * -q == -(d * q)
  {
  }

  // Channel `channel` of the input rises by d from frame to frame, from c on.
  ghost predicate Ramp(input: seq<Sample>, channel: nat, c: int, d: int)
  {
    forall i: nat :: 2 * i + channel < |input| ==> input[2 * i + channel] == Height(c, d, i)
  }

  // s is less than one away from exact / 44100.
  predicate Near(s: int, exact: int) { exact - RATE < RATE * s < exact + RATE }

  function Height(c: int, d: int, i: nat): int { c + d * i }

  /** Resampling changes the rate and nothing else: what rises evenly in the input rises evenly in the output, frame k
      having the height of the line at k * rate / 44100, less than one off. */
  lemma RampStaysRamp(input: seq<Sample>, rate: nat, n: nat, wire: seq<Sample>, channel: nat, c: int, d: int, k: nat)
    requires Made(input, rate, n, wire) && Ramp(input, channel, c, d) && channel < 2 && k < n
    ensures |wire| == 2 * n && Near(wire[2 * k + channel], RATE * c + d * (k * rate))
  {
    hide Lerp, Height, Ramp, Near, Point;
    assert Ready(input, rate, k);
    var j := 2 * k + channel;
    assert j / 2 == k && j % 2 == channel;
    RampPoint(input, k * rate, channel, c, d);
  }

  lemma RampPoint(input: seq<Sample>, position: nat, channel: nat, c: int, d: int)
    requires FramesAt(input, position / RATE) && channel < 2 && Ramp(input, channel, c, d)
    ensures Near(Point(input, position, channel), RATE * c + d * position)
  {
    hide Lerp, Height;
    var i, r := position / RATE, position % RATE;
    assert input[2 * i + channel] == Height(c, d, i) && input[2 * (i + 1) + channel] == Height(c, d, i + 1);
    LerpValue(Height(c, d, i), Height(c, d, i + 1), r);
    OnTheLine(c, d, i, r);
    assert RATE * i + r == position;
  }

  lemma OnTheLine(c: int, d: int, i: nat, r: nat)
    requires r < RATE
    ensures Height(c, d, i) * (RATE - r) + Height(c, d, i + 1) * r == RATE * c + d * (RATE * i + r)
  {
    Spread(Height(c, d, i), d, r);
    NextHeight(c, d, i);
    Gathered(c, d, i, r);
  }

  lemma NextHeight(c: int, d: int, i: nat)
    ensures Height(c, d, i + 1) == Height(c, d, i) + d
  {
  }

  lemma Spread(a: int, d: int, r: int)
    ensures a * (RATE - r) + (a + d) * r == RATE * a + d * r
  {
  }

  lemma Gathered(c: int, d: int, i: int, r: int)
    ensures RATE * (c + d * i) + d * r == RATE * c + d * (RATE * i + r)
  {
  }

  lemma NonNegative(x: int, y: int)
    requires x >= 0 && y >= 0
    ensures x * y >= 0
  {
  }

  // The frames made so far are the first n of the whole input.
  ghost predicate Made(input: seq<Sample>, rate: nat, n: nat, wire: seq<Sample>)
  {
    (forall k :: 0 <= k < n ==> Ready(input, rate, k)) && wire == OneShot(input, rate, n)
  }

  // ---- More input does not change what was ready ----

  lemma PointStays(input: seq<Sample>, more: seq<Sample>, position: nat, channel: nat)
    requires FramesAt(input, position / RATE) && channel < 2
    ensures FramesAt(input + more, position / RATE)
    ensures Point(input + more, position, channel) == Point(input, position, channel)
  {
    hide Lerp;
  }

  lemma OneShotStays(input: seq<Sample>, more: seq<Sample>, rate: nat, n: nat)
    requires forall k :: 0 <= k < n ==> Ready(input, rate, k)
    ensures forall k :: 0 <= k < n ==> Ready(input + more, rate, k)
    ensures OneShot(input + more, rate, n) == OneShot(input, rate, n)
  {
    hide Point;
    forall k | 0 <= k < n ensures Ready(input + more, rate, k) {
      assert Ready(input, rate, k);
    }
    forall j | 0 <= j < 2 * n ensures OneShot(input + more, rate, n)[j] == OneShot(input, rate, n)[j] {
      assert Ready(input, rate, j / 2);
      PointStays(input, more, j / 2 * rate, j % 2);
    }
  }

  lemma OneShotMore(input: seq<Sample>, rate: nat, n: nat)
    requires forall k :: 0 <= k < n + 1 ==> Ready(input, rate, k)
    ensures Ready(input, rate, n)
    ensures OneShot(input, rate, n + 1)
      == OneShot(input, rate, n) + [Point(input, n * rate, 0), Point(input, n * rate, 1)]
  {
    hide Point;
    assert Ready(input, rate, n);
  }

  lemma MadeStays(input: seq<Sample>, more: seq<Sample>, rate: nat, n: nat, wire: seq<Sample>)
    requires Made(input, rate, n, wire)
    ensures Made(input + more, rate, n, wire)
  {
    hide OneShot, Ready;
    OneShotStays(input, more, rate, n);
  }

  lemma MadeOneMore(input: seq<Sample>, rate: nat, n: nat, wire: seq<Sample>)
    requires Made(input, rate, n, wire) && Ready(input, rate, n)
    ensures FramesAt(input, n * rate / RATE)
    ensures Made(input, rate, n + 1, wire + [Point(input, n * rate, 0), Point(input, n * rate, 1)])
  {
    hide OneShot, Point;
    OneShotMore(input, rate, n);
  }

  lemma {:induction false} PositionsGrow(rate: nat, j: nat, k: nat)
    requires j <= k
    ensures j * rate / RATE <= k * rate / RATE
    decreases k - j
  {
    if j < k {
      PositionsGrow(rate, j, k - 1);
      assert k * rate == (k - 1) * rate + rate;
    }
  }

  // The frames wanted at once span less input than the staging buffer holds.
  predicate Fits(want: nat, rate: nat) { want * rate <= (MAX_STAGED - 2) * RATE }

  // Where the phase is kept between packets: in the first frame, or past what was staged by less than a step.
  predicate PhaseKept(phase: nat, rate: nat) { phase < RATE || phase + RATE < rate }

  // Where it is before the frames used up are dropped: past the last full pair of staged frames by less than a step.
  predicate PhaseIn(phase: nat, rate: nat, frames: nat)
  {
    PhaseKept(phase, rate) || phase + RATE < RATE * frames + rate
  }

  /** Wanted frames that fit never run out of a full staging buffer. */
  lemma FullSuffices(start: nat, produced: nat, want: nat, rate: nat)
    requires Fits(want, rate) && PhaseKept(start, rate) && produced < want
    ensures (start + produced * rate) / RATE + 1 < MAX_STAGED
  {
    Monotone(produced + 1, want, rate);
    assert (produced + 1) * rate == produced * rate + rate;
    var phase := start + produced * rate;
    assert phase < (MAX_STAGED - 1) * RATE;
    assert phase / RATE < MAX_STAGED - 1;
  }

  lemma Monotone(a: nat, b: nat, c: nat)
    requires a <= b
    ensures a * c <= b * c
  {
  }

  // No frame from the n-th on can be computed.
  ghost predicate Starved(input: seq<Sample>, rate: nat, n: nat)
  {
    forall k :: k >= n ==> !Ready(input, rate, k)
  }

  /** Once starved, later frames cannot be computed either; and less than a frame more input does not help. */
  lemma StarvedStaysStarved(input: seq<Sample>, rest: seq<Sample>, rate: nat, n: nat)
    requires !Ready(input, rate, n) && |input| % 2 == 0 && |rest| < 2
    ensures Starved(input, rate, n) && Starved(input + rest, rate, n)
  {
    forall k | n <= k ensures !Ready(input, rate, k) && !Ready(input + rest, rate, k) {
      PositionsGrow(rate, n, k);
      PartialFrame(input, rest, k * rate / RATE);
    }
  }

  lemma PartialFrame(input: seq<Sample>, rest: seq<Sample>, i: nat)
    requires |input| % 2 == 0 && |rest| < 2
    ensures FramesAt(input + rest, i) <==> FramesAt(input, i)
  {
    assert (2 * i + 3) % 2 == 1;
  }
}

/** The resampler as the sender keeps it: a staging buffer topped up from the ring, and a phase in it. */
module Resample {
  import opened Wire
  import opened ResampleSpec
  import opened Ring

  // How many frames to take: what is there, as far as there is room.
  method PullCount(staged: nat, available: nat) returns (pull: nat)
    requires staged % 2 == 0 && staged <= 2 * MAX_STAGED
    ensures 2 * pull <= available && staged + 2 * pull <= 2 * MAX_STAGED
    ensures available - 2 * pull < 2 || staged + 2 * pull == 2 * MAX_STAGED
  {
    var bufFrames := staged / 2;
    var room := if MAX_STAGED > bufFrames then MAX_STAGED - bufFrames else 0;
    pull := Min(room, available / 2);
  }

  // Pops n frames that are known to be there; the result of the pop needs no checking.
  method Pull(ring: RingBuffer<Sample>, n: nat) returns (frames: seq<Sample>)
    requires ring.Valid() && 2 * n <= |ring.contents|
    modifies ring
    ensures ring.Valid() && |frames| == 2 * n && frames + ring.contents == old(ring.contents)
  {
    hide Holds;
    if n == 0 { return []; }
    var got := new Sample[2 * n];
    var popped := ring.TryPop(got);
    assert popped;
    return got[..];
  }

  method CopyTo(dst: array<int>, got: seq<Sample>)
    requires |got| <= dst.Length
    modifies dst
    ensures dst[..|got|] == got
  {
    var j := 0;
    while j < |got|
      invariant j <= |got| && forall i :: 0 <= i < j ==> dst[i] == got[i]
    {
      dst[j] := got[j];
      j := j + 1;
    }
  }

  method Silence(dst: array<int>, from: nat)
    requires from <= dst.Length
    modifies dst
    ensures dst[..from] == old(dst[..from]) && forall j :: from <= j < dst.Length ==> dst[j] == 0
  {
    var j := from;
    while j < dst.Length
      invariant from <= j <= dst.Length && dst[..from] == old(dst[..from])
      invariant forall i :: from <= i < j ==> dst[i] == 0
    {
      dst[j] := 0;
      j := j + 1;
    }
  }

  // The staging buffer holds whole frames: what has been pulled and not dropped.
  ghost predicate Staging(input: seq<Sample>, inBuf: seq<Sample>, dropped: nat)
  {
    && |input| == 2 * dropped + |inBuf| && |inBuf| % 2 == 0 && |inBuf| <= 2 * MAX_STAGED
    && inBuf == input[2 * dropped..]
  }

  lemma StagingMore(input: seq<Sample>, inBuf: seq<Sample>, dropped: nat, n: nat, more: seq<Sample>)
    requires Staging(input, inBuf, dropped) && |more| == 2 * n && |inBuf| + |more| <= 2 * MAX_STAGED
    ensures Staging(input + more, inBuf + more, dropped)
  {
    Staged(input, more, dropped);
  }

  lemma StagingSize(input: seq<Sample>, inBuf: seq<Sample>, dropped: nat)
    requires Staging(input, inBuf, dropped)
    ensures |input| == 2 * dropped + |inBuf| && |inBuf| % 2 == 0 && |inBuf| <= 2 * MAX_STAGED && |input| % 2 == 0
  {
  }

  lemma Shifted(input: seq<Sample>, frames: seq<Sample>, rest: seq<Sample>)
    ensures input + frames + rest == input + (frames + rest)
  {
  }

  class Resampler {
    const inputRate: nat
    var inBuf: seq<Sample>
    var phase: nat
    ghost var input: seq<Sample>       // everything pulled from the ring
    ghost var dropped: nat             // frames of it that have left the staging buffer
    ghost var made: nat                // frames produced
    ghost var wire: seq<Sample>        // what they were

    ghost predicate Valid()
      reads this
    {
      Aligned() && PhaseKept(phase, inputRate)
    }

    // The staging buffer and the phase are where the frames made so far leave them.
    ghost predicate Aligned()
      reads this
    {
      Staging(input, inBuf, dropped) && phase + RATE * dropped == made * inputRate && Made(input, inputRate, made, wire)
    }

    constructor (rate: nat)
      ensures Valid() && inputRate == rate && made == 0 && input == []
    {
      inputRate, inBuf, phase := rate, [], 0;
      input, dropped, made, wire := [], 0, 0, [];
    }

    // Moves whole frames from the ring to the staging buffer, as far as there is room.
    method TopUp(ring: RingBuffer<Sample>)
      requires Valid() && ring.Valid()
      modifies this`inBuf, this`input, ring
      ensures Valid() && ring.Valid()
      ensures input + ring.contents == old(input) + old(ring.contents)
      ensures |ring.contents| < 2 || |inBuf| == 2 * MAX_STAGED
      ensures |input| == 2 * dropped + |inBuf| && |input| % 2 == 0
    {
      hide Made, Ready, Holds, U64, PhaseKept, RATE, MAX_STAGED, Staging;
      StagingSize(input, inBuf, dropped);
      var available := ring.AvailableRead();
      var pull := PullCount(|inBuf|, available);
      var frames := Pull(ring, pull);
      MadeStays(input, frames, inputRate, made, wire);
      StagingMore(input, inBuf, dropped, pull, frames);
      Shifted(input, frames, ring.contents);
      inBuf := inBuf + frames;
      input := input + frames;
      StagingSize(input, inBuf, dropped);
    }

    method Produce(dst: array<int>, want: nat) returns (produced: nat)
      requires Valid() && dst.Length == 2 * want
      modifies this`phase, this`made, this`wire, dst
      ensures Aligned() && made == old(made) + produced && produced <= want
      ensures wire == old(wire) + dst[..2 * produced]
      ensures produced < want ==> !Ready(input, inputRate, made)
      ensures produced < want && Fits(want, inputRate) ==> |inBuf| < 2 * MAX_STAGED
      ensures PhaseIn(phase, inputRate, |inBuf| / 2)
    {
      hide Made, Point, Lerp, Ready, FramesAt, Fits, PhaseKept;
      produced := 0;
      assert wire + dst[..0] == wire;
      while produced < want
        invariant produced <= want && Aligned() && made == old(made) + produced
        invariant phase == old(phase) + produced * inputRate
        invariant PhaseIn(phase, inputRate, |inBuf| / 2)
        invariant wire == old(wire) + dst[..2 * produced]
      {
        var i0 := phase / RATE;
        Position(input, inBuf, inputRate, made, dropped, phase);
        if i0 + 1 >= |inBuf| / 2 {
          if Fits(want, inputRate) {
            FullSuffices(old(phase), produced, want, inputRate);
          }
          break;
        }
        var r := phase % RATE;
        var left := Lerp(inBuf[2 * i0], inBuf[2 * i0 + 2], r);
        var right := Lerp(inBuf[2 * i0 + 1], inBuf[2 * i0 + 3], r);
        MadeOneMore(input, inputRate, made, wire);
        NextPosition(made, inputRate);
        NextPosition(produced, inputRate);
        dst[2 * produced] := left;
        dst[2 * produced + 1] := right;
        phase := phase + inputRate;
        produced := produced + 1;
        made, wire := made + 1, wire + [left, right];
        assert dst[..2 * produced] == dst[..2 * produced - 2] + [left, right];
      }
    }

    // Drops the frames before the one at the phase.
    method Compact()
      requires Aligned()
      requires PhaseIn(phase, inputRate, |inBuf| / 2)
      modifies this`inBuf, this`phase, this`dropped
      ensures Valid()
    {
      hide Made;
      var keepFrom := phase / RATE;
      if keepFrom > 0 {
        var drop := Min(keepFrom, |inBuf| / 2);
        inBuf := inBuf[2 * drop..];
        phase := phase - RATE * drop;
        dropped := dropped + drop;
      }
    }

    /** One packet's worth of frames: what the input yields, then silence. */
    method FillFrames(ring: RingBuffer<Sample>, dst: array<int>, want: nat) returns (produced: nat)
      requires Valid() && ring.Valid() && dst.Length == 2 * want
      modifies this, ring, dst
      ensures Valid() && ring.Valid() && produced <= want && made == old(made) + produced
      ensures input + ring.contents == old(input) + old(ring.contents)
      ensures wire == old(wire) + dst[..2 * produced]
      ensures forall j :: 2 * produced <= j < 2 * want ==> dst[j] == 0
      ensures |ring.contents| < 2 || |input| == 2 * old(dropped) + 2 * MAX_STAGED
      ensures produced < want ==> Starved(input, inputRate, made)
      ensures produced < want && Fits(want, inputRate)
        ==> |ring.contents| < 2 && Starved(input + ring.contents, inputRate, made)
    {
      hide Made, Ready, Holds, Fits, PhaseKept, PhaseIn, Starved, Aligned, RATE, MAX_STAGED;
      TopUp(ring);
      produced := Produce(dst, want);
      if produced < want {
        StarvedStaysStarved(input, if |ring.contents| < 2 then ring.contents else [], inputRate, made);
      }
      Silence(dst, 2 * produced);
      Compact();
    }
  }

  /** Whatever it was fed and in whatever chunks, a resampler has put out the evenly rising signal it was given. */
  lemma RampThrough(r: Resampler, channel: nat, c: int, d: int, k: nat)
    requires r.Valid() && Ramp(r.input, channel, c, d) && channel < 2 && k < r.made
    ensures 2 * k + channel < |r.wire|
    ensures Near(r.wire[2 * k + channel], RATE * c + d * (k * r.inputRate))
  {
    hide Made, Ramp;
    RampStaysRamp(r.input, r.inputRate, r.made, r.wire, channel, c, d, k);
  }

  /** Chunking makes no difference: of two resamplers to whose rings the same samples were pushed, taken from there in
      whatever chunks, one has put out a beginning of what the other has, and the same once both are starved. */
  lemma ChunkingIrrelevant(a: Resampler, ra: RingBuffer<Sample>, b: Resampler, rb: RingBuffer<Sample>)
    requires a.Valid() && b.Valid() && a.inputRate == b.inputRate && a.input + ra.contents == b.input + rb.contents
    ensures a.wire <= b.wire || b.wire <= a.wire
    ensures a.wire <= b.wire <==> a.made <= b.made
    ensures Starved(a.input + ra.contents, a.inputRate, a.made) && Starved(b.input + rb.contents, b.inputRate, b.made)
      ==> a.made == b.made && a.wire == b.wire
  {
    MadeStays(a.input, ra.contents, a.inputRate, a.made, a.wire);
    MadeStays(b.input, rb.contents, b.inputRate, b.made, b.wire);
    MadePrefix(a.input + ra.contents, a.inputRate, a.made, a.wire, b.made, b.wire);
  }

  lemma MadePrefix(input: seq<Sample>, rate: nat, n: nat, wire: seq<Sample>, m: nat, other: seq<Sample>)
    requires Made(input, rate, n, wire) && Made(input, rate, m, other)
    ensures wire <= other || other <= wire
    ensures wire <= other <==> n <= m
    ensures Starved(input, rate, n) && Starved(input, rate, m) ==> n == m && wire == other
  {
    hide OneShot, Ready;
    OneShotPrefix(input, rate, if n <= m then n else m, if n <= m then m else n);
    assert Starved(input, rate, n) && n < m ==> !Ready(input, rate, n);
    assert Starved(input, rate, m) && m < n ==> !Ready(input, rate, m);
  }

  lemma OneShotPrefix(input: seq<Sample>, rate: nat, n: nat, m: nat)
    requires n <= m && forall k :: 0 <= k < m ==> Ready(input, rate, k)
    ensures OneShot(input, rate, n) <= OneShot(input, rate, m)
  {
    hide Point, Ready;
  }

  lemma NextPosition(k: nat, rate: nat)
    ensures (k + 1) * rate == k * rate + rate
  {
  }

  lemma Position(input: seq<Sample>, inBuf: seq<Sample>, rate: nat, k: nat, dropped: nat, phase: nat)
    requires |input| == 2 * dropped + |inBuf| && inBuf == input[2 * dropped..] && |inBuf| % 2 == 0
    requires phase + RATE * dropped == k * rate
    ensures phase / RATE + dropped == k * rate / RATE && phase % RATE == k * rate % RATE
    ensures Ready(input, rate, k) <==> phase / RATE + 1 < |inBuf| / 2
    ensures Ready(input, rate, k) <==> FramesAt(input, k * rate / RATE)
    ensures Ready(input, rate, k) ==>
      var i := phase / RATE;
      && 2 * i + 3 < |inBuf|
      && Point(input, k * rate, 0) == Lerp(inBuf[2 * i], inBuf[2 * i + 2], phase % RATE)
      && Point(input, k * rate, 1) == Lerp(inBuf[2 * i + 1], inBuf[2 * i + 3], phase % RATE)
  {
    hide Lerp, Point, FramesAt;
    PositionAt(input, inBuf, dropped, phase, k * rate);
  }

  lemma PositionAt(input: seq<Sample>, inBuf: seq<Sample>, dropped: nat, phase: nat, position: nat)
    requires |input| == 2 * dropped + |inBuf| && inBuf == input[2 * dropped..] && |inBuf| % 2 == 0
    requires phase + RATE * dropped == position
    ensures phase / RATE + dropped == position / RATE && phase % RATE == position % RATE
    ensures FramesAt(input, position / RATE) <==> phase / RATE + 1 < |inBuf| / 2
    ensures FramesAt(input, position / RATE) ==>
      var i := phase / RATE;
      && 2 * i + 3 < |inBuf|
      && Point(input, position, 0) == Lerp(inBuf[2 * i], inBuf[2 * i + 2], phase % RATE)
      && Point(input, position, 1) == Lerp(inBuf[2 * i + 1], inBuf[2 * i + 3], phase % RATE)
  {
    hide Lerp;
    Rebased(phase, dropped, position);
    if FramesAt(input, position / RATE) {
      var i := phase / RATE;
      assert inBuf[2 * i] == input[2 * (i + dropped)] && inBuf[2 * i + 1] == input[2 * (i + dropped) + 1];
      assert inBuf[2 * i + 2] == input[2 * (i + dropped) + 2] && inBuf[2 * i + 3] == input[2 * (i + dropped) + 3];
    }
  }

  lemma Staged(input: seq<Sample>, more: seq<Sample>, dropped: nat)
    requires 2 * dropped <= |input|
    ensures (input + more)[2 * dropped..] == input[2 * dropped..] + more
  {
  }

  lemma Rebased(phase: nat, dropped: nat, position: nat)
    requires phase + RATE * dropped == position
    ensures phase / RATE + dropped == position / RATE && phase % RATE == position % RATE
  {
  }

  /** At the device's own rate of 44100 nothing is resampled: what the ring holds passes through, then silence. */
  method PassThrough(ring: RingBuffer<Sample>, dst: array<int>, want: nat) returns (take: nat)
    requires ring.Valid() && dst.Length == 2 * want
    modifies ring, dst
    ensures ring.Valid() && take == Min(|old(ring.contents)| / 2, want)
    ensures dst[..2 * take] + ring.contents == old(ring.contents)
    ensures forall j :: 2 * take <= j < 2 * want ==> dst[j] == 0
  {
    hide Holds;
    var available := ring.AvailableRead();
    take := Min(available / 2, want);
    var got := Pull(ring, take);
    CopyTo(dst, got);
    Silence(dst, 2 * take);
  }
}
