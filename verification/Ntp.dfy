/** The sender's clock arithmetic: NTP time, RTP timestamps and back. */
module Ntp {
  import opened Wire

  // ((ntp >> 16) * rate) >> 16 in 64 bits
  function Ntp2Ts(ntp: Word64): Word64 { U64(ntp / 0x1_0000 * RATE) / 0x1_0000 }

  // ((ts << 16) / rate) << 16 in 64 bits
  function Ts2Ntp(ts: Word64): Word64 { U64(U64(ts * 0x1_0000) / RATE * 0x1_0000) }

  // Timestamps whose NTP time fits 64 bits.
  const TS_LIMIT: nat := 0x1_0000_0000 * 44100

  /** Nothing overflows: for any NTP time, and for timestamps below the limit, the 64-bit results are the exact ones. */
  lemma NoOverflow(ntp: Word64, ts: Word64)
    ensures Ntp2Ts(ntp) == ntp / 0x1_0000 * RATE / 0x1_0000 < TS_LIMIT
    ensures ts < TS_LIMIT ==> Ts2Ntp(ts) == ts * 0x1_0000 / RATE * 0x1_0000
  {
    ToTsFits(ntp);
    if ts < TS_LIMIT {
      ToNtpFits(ts);
    }
  }

  lemma ToTsFits(ntp: Word64)
    ensures ntp / 0x1_0000 * RATE < TWO_64 && ntp / 0x1_0000 * RATE / 0x1_0000 < TS_LIMIT
  {
    assert ntp / 0x1_0000 < 0x1_0000_0000_0000;
  }

  lemma ToNtpFits(ts: nat)
    requires ts < TS_LIMIT
    ensures ts * 0x1_0000 < TWO_64 && ts * 0x1_0000 / RATE * 0x1_0000 < TWO_64
  {
    assert ts * 0x1_0000 / RATE < 0x1_0000_0000_0000;
  }

  // 16384 is invertible modulo 11025.
  lemma Divides(t: nat, k: nat)
    requires t * 0x1_0000 == RATE * k
    ensures t % 11025 == 0
  {
    assert 16384 * t == 11025 * k;
    assert t == 11025 * (4489 * k - 6671 * t);
  }

  /** A timestamp through NTP and back is itself, or one less; it is itself exactly for the multiples of 11025. */
  lemma TimestampRoundTrip(t: Word64)
    requires t < TS_LIMIT
    ensures Ntp2Ts(Ts2Ntp(t)) == t || Ntp2Ts(Ts2Ntp(t)) == t - 1
    ensures Ntp2Ts(Ts2Ntp(t)) == t <==> t % 11025 == 0
  {
    hide Ntp2Ts, Ts2Ntp;
    var n := Ts2Ntp(t);
    NoOverflow(n, t);
    Unshift(n, t * 0x1_0000 / RATE);
    BackAgain(t, n / 0x1_0000, Ntp2Ts(n));
  }

  lemma Unshift(n: nat, q: nat)
    requires n == q * 0x1_0000
    ensures n / 0x1_0000 == q
  {
  }

  lemma BackAgain(t: nat, q: nat, r: nat)
    requires q == t * 0x1_0000 / RATE && r == q * RATE / 0x1_0000
    ensures (r == t || r == t - 1) && (r == t <==> t % 11025 == 0)
  {
    QuotientBack(t, q);
    ExactQuotient(t, q);
  }

  lemma QuotientBack(t: nat, q: nat)
    requires q == t * 0x1_0000 / RATE
    ensures q * RATE / 0x1_0000 == if q * RATE == t * 0x1_0000 then t else t - 1
  {
    assert t * 0x1_0000 - RATE < q * RATE <= t * 0x1_0000;
  }

  lemma ExactQuotient(t: nat, q: nat)
    requires q == t * 0x1_0000 / RATE
    ensures q * RATE == t * 0x1_0000 <==> t % 11025 == 0
  {
    if q * RATE == t * 0x1_0000 {
      Divides(t, q);
    }
    if t % 11025 == 0 {
      var j := t / 11025;
      assert t * 0x1_0000 == RATE * (j * 16384);
    }
  }

  /** An NTP time through a timestamp and back loses less than three units of 2^-16 seconds, and never gains. */
  lemma NtpRoundTrip(x: Word64)
    ensures 0 <= x - Ts2Ntp(Ntp2Ts(x)) < 3 * 0x1_0000
  {
    hide Ntp2Ts, Ts2Ntp;
    NoOverflow(x, Ntp2Ts(x));
    var y := x / 0x1_0000;
    LossBound(y, y * RATE / 0x1_0000, y * RATE / 0x1_0000 * 0x1_0000 / RATE);
  }

  lemma LossBound(y: nat, t: nat, u: nat)
    requires t == y * RATE / 0x1_0000 && u == t * 0x1_0000 / RATE
    ensures u <= y <= u + 2
  {
    assert y * RATE - 0x1_0000 < t * 0x1_0000 <= y * RATE;
    assert t * 0x1_0000 - RATE < u * RATE <= t * 0x1_0000;
  }

  /** Both conversions keep order, so sync packets never run backwards. */
  lemma ConversionsKeepOrder(a: Word64, b: Word64)
    requires a <= b
    ensures Ntp2Ts(a) <= Ntp2Ts(b)
    ensures b < TS_LIMIT ==> Ts2Ntp(a) <= Ts2Ntp(b)
  {
    hide Ntp2Ts, Ts2Ntp;
    NoOverflow(a, a);
    NoOverflow(b, b);
    Shifted(a, b);
    Shifted(a / 0x1_0000 * RATE, b / 0x1_0000 * RATE);
    Rated(a * 0x1_0000, b * 0x1_0000);
  }

  lemma Shifted(a: nat, b: nat)
    ensures a <= b ==> a / 0x1_0000 <= b / 0x1_0000
  {
  }

  lemma Rated(a: nat, b: nat)
    ensures a <= b ==> a / RATE <= b / RATE
  {
  }
}
