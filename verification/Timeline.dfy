/** The packet timeline: numbering, the retransmission window and the pacer. */
module TimelineSpec {
  import opened Wire
  import opened Arith
  import opened Framing

  const WINDOW: nat := 1024
  const FRAMES_PER_PACKET: nat := 352
  const LATENCY: nat := 66150

  // What does not change during a stream; `seal` is used when the audio is encrypted.
  datatype Stream = Stream(seq0: nat, ssrc: nat, encrypted: bool)

  function SeqOf(seq0: nat, k: nat): (s: nat)
    ensures s < TWO_16
  {
    (seq0 + k) % TWO_16
  }

  // The k-th packet of a stream: header, then the payload or its ciphertext with the nonce behind it.
  function Header(c: Stream, k: nat): Bytes
  {
    [0x80, if k == 0 then 0xE0 else 0x60] + BE(SeqOf(c.seq0, k), 2) + BE((LATENCY + FRAMES_PER_PACKET * k) % TWO_32, 4)
    + BE(c.ssrc, 4)
  }

  function Packet(seal: Seal, c: Stream, k: nat, payload: Bytes): Bytes
  {
    var h := Header(c, k);
    h + if c.encrypted then seal(Nonce(U64(k)), payload, h[4..12]) + Nonce(U64(k)) else payload
  }

  // ---- The window ----

  // The first packet still kept after n have been sent.
  function WindowStart(n: nat): nat { if n < WINDOW then 0 else n - WINDOW }

  // The packet kept under sequence number s, after n packets.
  function Kept(seq0: nat, n: nat, s: nat): Option<nat>
  {
    var back := (seq0 + n - 1 - s) % TWO_16;
    if back < n - WindowStart(n) then Some(n - 1 - back) else None
  }

  /** A sequence number is kept exactly when one of the last min(n, 1024) packets carries it. */
  lemma KeptExactly(seq0: nat, n: nat, s: nat, k: nat)
    requires s < TWO_16
    ensures Kept(seq0, n, s) == Some(k) <==> WindowStart(n) <= k < n && SeqOf(seq0, k) == s
  {
  }

  function SlotOf(s: nat): (i: nat)
    ensures i < WINDOW
  {
    s % WINDOW
  }

  // Packets of one window fall into different slots.
  lemma SlotsDiffer(seq0: nat, j: nat, k: nat)
    requires j < k < j + WINDOW
    ensures SlotOf(SeqOf(seq0, j)) != SlotOf(SeqOf(seq0, k))
  {
    SlotOfSeq(seq0, j);
    SlotOfSeq(seq0, k);
    ModsDiffer(seq0 + j, seq0 + k, WINDOW);
  }

  lemma SlotOfSeq(seq0: nat, k: nat)
    ensures SlotOf(SeqOf(seq0, k)) == (seq0 + k) % WINDOW
  {
    ModOfMod(seq0 + k, WINDOW, 64);
  }

  // ---- Answers to a retransmit request ----

  // The packets resent for the first i of the lost ones.
  function Resent(seq0: nat, n: nat, lost: nat, i: nat): seq<nat>
  {
    if i == 0 then []
    else
      Resent(seq0, n, lost, i - 1)
      + match Kept(seq0, n, SeqOf(lost, i - 1)) case None => [] case Some(k) => [k]
  }

  function Answer(s: nat, packet: Bytes): Bytes
    requires s < TWO_16
  {
    [0x80, 0xD6] + BE(s, 2) + packet
  }

  // The resent packets all lie in the window and in the range asked for.
  ghost predicate Asked(seq0: nat, n: nat, lost: nat, i: nat, k: nat)
  {
    WindowStart(n) <= k < n && exists j :: 0 <= j < i && SeqOf(seq0, k) == SeqOf(lost, j)
  }

  lemma {:induction false} ResentAsked(seq0: nat, n: nat, lost: nat, i: nat)
    ensures forall k :: k in Resent(seq0, n, lost, i) <==> Asked(seq0, n, lost, i, k)
    decreases i
  {
    if i > 0 {
      hide Kept, WindowStart, SeqOf;
      var s := SeqOf(lost, i - 1);
      ResentAsked(seq0, n, lost, i - 1);
      forall k ensures k in Resent(seq0, n, lost, i) <==> Asked(seq0, n, lost, i, k) {
        if k >= 0 {
          KeptExactly(seq0, n, s, k);
          AskedOneMore(seq0, n, lost, i, k);
        }
      }
    }
  }

  lemma AskedOneMore(seq0: nat, n: nat, lost: nat, i: nat, k: nat)
    requires i > 0
    ensures Asked(seq0, n, lost, i, k)
      <==> Asked(seq0, n, lost, i - 1, k) || (WindowStart(n) <= k < n && SeqOf(seq0, k) == SeqOf(lost, i - 1))
  {
    hide WindowStart, SeqOf;
    if WindowStart(n) <= k < n && SeqOf(seq0, k) == SeqOf(lost, i - 1) {
      assert 0 <= i - 1 < i;
    }
  }

  lemma {:induction false} ResentDistinct(seq0: nat, n: nat, lost: nat, i: nat)
    requires i <= TWO_16
    ensures forall a, b :: 0 <= a < b < |Resent(seq0, n, lost, i)| ==>
              Resent(seq0, n, lost, i)[a] != Resent(seq0, n, lost, i)[b]
    decreases i
  {
    if i > 0 {
      hide Kept, WindowStart, SeqOf;
      var s := SeqOf(lost, i - 1);
      ResentDistinct(seq0, n, lost, i - 1);
      ResentAsked(seq0, n, lost, i - 1);
      var before := Resent(seq0, n, lost, i - 1);
      if Kept(seq0, n, s).Some? {
        var k := Kept(seq0, n, s).value;
        KeptExactly(seq0, n, s, k);
        if k in before {
          NumbersDiffer(lost, i, s);
        }
      }
    }
  }

  lemma NumbersDiffer(lost: nat, i: nat, s: nat)
    requires 0 < i <= TWO_16 && s == SeqOf(lost, i - 1)
    ensures !exists j :: 0 <= j < i - 1 && s == SeqOf(lost, j)
  {
    forall j | 0 <= j < i - 1 ensures s != SeqOf(lost, j) {
      ModsDiffer(lost + j, lost + i - 1, TWO_16);
    }
  }

  // Different numbers between lo and hi are at most hi - lo.
  lemma {:induction false} DistinctFew(ks: seq<nat>, lo: nat, hi: nat)
    requires lo <= hi && forall k :: k in ks ==> lo <= k < hi
    requires forall a, b :: 0 <= a < b < |ks| ==> ks[a] != ks[b]
    ensures |ks| <= hi - lo
    decreases hi - lo
  {
    if ks != [] {
      assert ks[0] in ks;
      if hi - 1 in ks {
        var p :| 0 <= p < |ks| && ks[p] == hi - 1;
        var rest := ks[..p] + ks[p + 1..];
        forall q | 0 <= q < |rest| ensures lo <= rest[q] < hi - 1 {
          var x := if q < p then q else q + 1;
          assert rest[q] == ks[x] && ks[x] in ks;
          assert x != p && (x < p ==> ks[x] != ks[p]) && (p < x ==> ks[p] != ks[x]);
        }
        DistinctFew(rest, lo, hi - 1);
      } else {
        DistinctFew(ks, lo, hi - 1);
      }
    }
  }

  // How far into the request packet k is.
  function OffsetOf(seq0: nat, lost: nat, k: nat): nat { (seq0 + k - lost) % TWO_16 }

  lemma OffsetIs(seq0: nat, lost: nat, k: nat, j: nat)
    requires j < TWO_16 && SeqOf(seq0, k) == SeqOf(lost, j)
    ensures OffsetOf(seq0, lost, k) == j
  {
  }

  lemma {:induction false} ResentInOrder(seq0: nat, n: nat, lost: nat, i: nat)
    requires i <= TWO_16
    ensures forall k :: k in Resent(seq0, n, lost, i) ==> OffsetOf(seq0, lost, k) < i
    ensures forall a, b :: 0 <= a < b < |Resent(seq0, n, lost, i)| ==>
      OffsetOf(seq0, lost, Resent(seq0, n, lost, i)[a]) < OffsetOf(seq0, lost, Resent(seq0, n, lost, i)[b])
    decreases i
  {
    if i > 0 {
      hide Kept, WindowStart, SeqOf, OffsetOf;
      var s := SeqOf(lost, i - 1);
      ResentInOrder(seq0, n, lost, i - 1);
      if Kept(seq0, n, s).Some? {
        var k := Kept(seq0, n, s).value;
        KeptExactly(seq0, n, s, k);
        OffsetIs(seq0, lost, k, i - 1);
        var before := Resent(seq0, n, lost, i - 1);
        forall a | 0 <= a < |before| ensures OffsetOf(seq0, lost, before[a]) < i - 1 {
          assert before[a] in before;
        }
      }
    }
  }

  /** A retransmit request for `count` packets from sequence number `lost` on is answered with exactly the packets
      of the last min(n, 1024) that it asks for, each once and in the order asked: at most min(count, 1024) of them. */
  lemma RetransmitsExactly(seq0: nat, n: nat, lost: nat, count: nat)
    requires count < TWO_16
    ensures forall k :: k in Resent(seq0, n, lost, count) <==> Asked(seq0, n, lost, count, k)
    ensures forall a, b :: 0 <= a < b < |Resent(seq0, n, lost, count)| ==>
      Resent(seq0, n, lost, count)[a] != Resent(seq0, n, lost, count)[b]
      && OffsetOf(seq0, lost, Resent(seq0, n, lost, count)[a]) < OffsetOf(seq0, lost, Resent(seq0, n, lost, count)[b])
    ensures |Resent(seq0, n, lost, count)| <= Min(count, Min(n, WINDOW))
  {
    hide Kept, SeqOf, Asked, OffsetOf;
    ResentAsked(seq0, n, lost, count);
    ResentDistinct(seq0, n, lost, count);
    ResentInOrder(seq0, n, lost, count);
    ResentShort(seq0, n, lost, count);
    forall k | k in Resent(seq0, n, lost, count) ensures WindowStart(n) <= k < n {
      assert Asked(seq0, n, lost, count, k);
      AskedInWindow(seq0, n, lost, count, k);
    }
    DistinctFew(Resent(seq0, n, lost, count), WindowStart(n), n);
  }

  lemma AskedInWindow(seq0: nat, n: nat, lost: nat, i: nat, k: nat)
    requires Asked(seq0, n, lost, i, k)
    ensures WindowStart(n) <= k < n
  {
  }

  lemma {:induction false} ResentShort(seq0: nat, n: nat, lost: nat, i: nat)
    ensures |Resent(seq0, n, lost, i)| <= i
    decreases i
  {
    if i > 0 {
      ResentShort(seq0, n, lost, i - 1);
    }
  }

  /** The wire numbers of a stream: what a receiver reads from the k-th packet. */
  lemma PacketNumbers(seal: Seal, c: Stream, k: nat, payload: Bytes)
    requires c.ssrc < TWO_32
    ensures var p := Packet(seal, c, k, payload);
      && |p| >= 12 && ReadWord(p, 2, 2) == (c.seq0 + k) % TWO_16
      && ReadWord(p, 4, 4) == (66150 + 352 * k) % TWO_32 && ReadWord(p, 8, 4) == c.ssrc
      && p[0] / 64 == 2 && p[0] % 64 == 0 && p[1] % 128 == 96 && (p[1] >= 128 <==> k == 0)
      && (c.encrypted ==> p[|p| - 8..] == Nonce(U64(k)))
  {
    hide BE, ReadWord;
    var p := Packet(seal, c, k, payload);
    var head: Bytes := [0x80, if k == 0 then 0xE0 else 0x60];
    var s, t, r := BE(SeqOf(c.seq0, k), 2), BE((LATENCY + FRAMES_PER_PACKET * k) % TWO_32, 4), BE(c.ssrc, 4);
    var rest := p[12..];
    assert p == head + s + t + r + rest;
    assert p[2..4] == s && p[4..8] == t && p[8..12] == r;
    FieldReads(p, 2, SeqOf(c.seq0, k), 2);
    FieldReads(p, 4, (LATENCY + FRAMES_PER_PACKET * k) % TWO_32, 4);
    FieldReads(p, 8, c.ssrc, 4);
    Widths();
  }

  /** The receiver opens a packet with the nonce it finds behind it, the time and the sender's number being
      authenticated; unencrypted, the payload stands behind the header. */
  lemma PacketOpens(seal: Seal, open: Open, c: Stream, k: nat, payload: Bytes)
    requires Matching(seal, open)
    ensures var p := Packet(seal, c, k, payload);
      if c.encrypted then |p| >= 20 && open(p[|p| - 8..], p[12..|p| - 8], p[4..12]) == Some(payload)
      else |p| >= 12 && p[12..] == payload
  {
    hide BE;
    var p, h := Packet(seal, c, k, payload), Header(c, k);
    if c.encrypted {
      var ct := seal(Nonce(U64(k)), payload, h[4..12]);
      assert p == h + ct + Nonce(U64(k));
      assert p[|p| - 8..] == Nonce(U64(k)) && p[12..|p| - 8] == ct && p[4..12] == h[4..12];
    }
  }

  /** A retransmitted packet is told by its type, its number and the packet itself. */
  lemma AnswerReads(s: nat, packet: Bytes)
    requires s < TWO_16
    ensures var a := Answer(s, packet);
      |a| >= 4 && a[0] / 64 == 2 && a[1] % 128 == 0x56 && ReadWord(a, 2, 2) == s && a[4..] == packet
  {
    hide BE, ReadWord;
    var a := Answer(s, packet);
    assert a[2..4] == BE(s, 2);
    FieldReads(a, 2, s, 2);
    Widths();
  }

  // The number in two bytes of a datagram.
  function Word16(hi: Byte, lo: Byte): nat { 256 * hi + lo }

  /** A request for `count` packets from `lost` on is read as that. */
  lemma RequestReads(dg: Bytes, lost: nat, count: nat)
    requires lost < TWO_16 && count < TWO_16 && |dg| >= 8 && dg[4..8] == BE(lost, 2) + BE(count, 2)
    ensures Word16(dg[4], dg[5]) == lost && Word16(dg[6], dg[7]) == count
  {
    var b := dg[4..8];
    assert b[..2] == BE(lost, 2) && b[2..] == BE(count, 2);
    WordReads(lost, dg[4], dg[5]);
    WordReads(count, dg[6], dg[7]);
  }

  lemma WordReads(v: nat, hi: Byte, lo: Byte)
    requires v < TWO_16 && BE(v, 2) == [hi, lo]
    ensures Word16(hi, lo) == v
  {
    assert BE(v, 2)[0] == hi && BE(v, 2)[1] == lo;
    assert Shr8(v, 0) == v && Shr8(v, 1) == v / 256;
  }

  lemma Widths()
    ensures Pow256(2) == TWO_16 && Pow256(4) == TWO_32
  {
    assert Pow256(1) == 256;
    assert Pow256(3) == 0x100_0000;
  }

  lemma FieldReads(p: Bytes, at: nat, v: nat, width: nat)
    requires at + width <= |p| && p[at..at + width] == BE(v, width)
    ensures v < Pow256(width) ==> ReadWord(p, at, width) == v
  {
    hide BE;
    if v < Pow256(width) {
      forall k | 0 <= k < width ensures p[at + k] == BE(v, width)[k] {
        assert p[at..at + width][k] == p[at + k];
      }
      ReadWordInvertsBE(p, at, v, width);
    }
  }
}

/** The pacer: packets follow the wall clock at 44100 frames a second, in bursts of at most 16. */
module PacerSpec {
  import opened Wire
  import opened TimelineSpec

  const BURST: nat := 16
  const NS: nat := 1_000_000_000

  // Frames due after elapsedNs, computed in 64 bits.
  function Target(elapsedNs: Word64): nat { U64(elapsedNs * RATE) / NS }

  // The packets sent in one tick.
  function Burst(sent: nat, target: nat): nat
  {
    if sent + FRAMES_PER_PACKET > target then 0 else Min(BURST, (target - sent) / FRAMES_PER_PACKET)
  }

  function AfterTick(sent: nat, elapsedNs: Word64): nat { sent + FRAMES_PER_PACKET * Burst(sent, Target(elapsedNs)) }

  // Frames sent after the first i ticks of a stream.
  function SentAfter(ticks: seq<Word64>, i: nat): nat
    requires i <= |ticks|
  {
    if i == 0 then 0 else AfterTick(SentAfter(ticks, i - 1), ticks[i - 1])
  }

  predicate Monotone(ticks: seq<Word64>) { forall i, j :: 0 <= i <= j < |ticks| ==> ticks[i] <= ticks[j] }

  // The product still fits 64 bits: about 4.84 days of streaming.
  predicate ClockFits(elapsedNs: Word64) { elapsedNs * RATE < TWO_64 }

  /** The 64-bit target is the true one exactly while the product fits. */
  lemma TargetExact(elapsedNs: Word64)
    ensures Target(elapsedNs) == elapsedNs * RATE / NS <==> ClockFits(elapsedNs)
  {
    WrapLoses(elapsedNs * RATE);
  }

  lemma WrapLoses(x: nat)
    ensures U64(x) / NS == x / NS <==> x < TWO_64
  {
    if x >= TWO_64 {
      assert U64(x) + TWO_64 <= x;
    }
  }

  lemma TargetGrows(a: Word64, b: Word64)
    requires a <= b && ClockFits(b)
    ensures Target(a) <= Target(b)
  {
    hide Target;
    TargetExact(a);
    TargetExact(b);
    NsOrder(a * RATE, b * RATE);
  }

  lemma NsOrder(x: nat, y: nat)
    requires x <= y
    ensures x / NS <= y / NS
  {
  }

  lemma TickStep(sent: nat, elapsedNs: Word64)
    ensures var n := Burst(sent, Target(elapsedNs)); var s' := AfterTick(sent, elapsedNs);
      && n <= BURST && (sent <= Target(elapsedNs) ==> s' <= Target(elapsedNs))
      && (n == BURST || Target(elapsedNs) < s' + FRAMES_PER_PACKET)
  {
    hide Target;
  }

  /** Never ahead of the clock: over any sequence of ticks with a clock that does not run back, the frames sent never
      exceed the target, and each tick sends 16 packets or ends less than one packet behind. */
  lemma {:induction false} NeverAhead(ticks: seq<Word64>, i: nat)
    requires Monotone(ticks) && 0 < i <= |ticks| && ClockFits(ticks[i - 1])
    ensures SentAfter(ticks, i) <= Target(ticks[i - 1])
    ensures SentAfter(ticks, i) == SentAfter(ticks, i - 1) + FRAMES_PER_PACKET * BURST
         || Target(ticks[i - 1]) < SentAfter(ticks, i) + FRAMES_PER_PACKET
    decreases i
  {
    hide Target, AfterTick, Burst;
    var before := SentAfter(ticks, i - 1);
    if i > 1 {
      assert ticks[i - 2] <= ticks[i - 1];
      NeverAhead(ticks, i - 1);
      TargetGrows(ticks[i - 2], ticks[i - 1]);
    }
    TickStep(before, ticks[i - 1]);
    TickIs(before, ticks[i - 1]);
  }

  lemma TickIs(sent: nat, elapsedNs: Word64)
    ensures AfterTick(sent, elapsedNs) == sent + FRAMES_PER_PACKET * Burst(sent, Target(elapsedNs))
  {
  }

  // In 127 ms fewer frames fall due than one burst sends.
  lemma OneBurstCatchesUp(a: Word64, b: Word64)
    requires a <= b <= a + 127_000_000 && ClockFits(b)
    ensures Target(b) < Target(a) + FRAMES_PER_PACKET * BURST
  {
    hide Target;
    TargetExact(a);
    TargetExact(b);
    assert b * RATE <= a * RATE + 5_600_700_000_000;
    NsStep(a * RATE, b * RATE);
  }

  lemma NsStep(x: nat, y: nat)
    requires y <= x + 5_600_700_000_000
    ensures y / NS <= x / NS + 5601
  {
  }

  /** Catching up: with ticks at most 127 ms apart any backlog gets strictly smaller from tick to tick until it is
      less than one packet. */
  lemma BacklogShrinks(ticks: seq<Word64>, i: nat)
    requires Monotone(ticks) && 0 < i < |ticks| && ClockFits(ticks[i]) && ticks[i] <= ticks[i - 1] + 127_000_000
    ensures var before := Target(ticks[i - 1]) - SentAfter(ticks, i);
      var now := Target(ticks[i]) - SentAfter(ticks, i + 1);
      0 <= now && (now < FRAMES_PER_PACKET || now < before)
  {
    hide Target, AfterTick, Burst;
    assert ticks[i - 1] <= ticks[i];
    NeverAhead(ticks, i + 1);
    OneBurstCatchesUp(ticks[i - 1], ticks[i]);
  }

  const OUT_OF_TIME: Word64 := 418_293_516_410_648

  /** The bound is tight: one nanosecond after the last instant whose product fits, the target has fallen from about
      18 * 10^9 frames to zero, and nothing is sent. */
  lemma ClockRunsOut(sent: nat)
    ensures ClockFits(OUT_OF_TIME - 1) && Target(OUT_OF_TIME - 1) == 18_446_744_073
    ensures !ClockFits(OUT_OF_TIME) && Target(OUT_OF_TIME) == 0 && Burst(sent, Target(OUT_OF_TIME)) == 0
  {
  }
}

/** The audio side of a stream as the object keeps it. */
module Timeline {
  import opened Wire
  import opened Arith
  import opened Framing
  import opened TimelineSpec
  import PacerSpec

  // The backlog holds the last packets, each in the slot of its number, and no others.
  ghost predicate WindowHolds(b: seq<Bytes>, numbers: seq<int>, seq0: nat, packets: seq<Bytes>)
  {
    && |b| == |numbers| == WINDOW
    && (forall k :: WindowStart(|packets|) <= k < |packets| ==> Kept1(b, numbers, seq0, packets, k))
    && (forall i :: 0 <= i < WINDOW && numbers[i] != -1 ==>
          0 <= numbers[i] < TWO_16 && SlotOf(numbers[i]) == i && Kept(seq0, |packets|, numbers[i]).Some?)
  }

  ghost predicate Kept1(b: seq<Bytes>, numbers: seq<int>, seq0: nat, packets: seq<Bytes>, k: nat)
    requires |b| == |numbers| == WINDOW && k < |packets|
  {
    var i := SlotOf(SeqOf(seq0, k));
    numbers[i] == SeqOf(seq0, k) && b[i] == packets[k]
  }

  lemma KeptStays(seq0: nat, n: nat, s: nat)
    requires s < TWO_16 && Kept(seq0, n, s).Some? && SlotOf(s) != SlotOf(SeqOf(seq0, n))
    ensures Kept(seq0, n + 1, s) == Kept(seq0, n, s)
  {
    hide Kept, SeqOf, SlotOf;
    var k := Kept(seq0, n, s).value;
    KeptExactly(seq0, n, s, k);
    SlotRepeats(seq0, k);
    KeptExactly(seq0, n + 1, s, k);
  }

  // The packet that leaves the window has the slot of the one that enters it.
  lemma SlotRepeats(seq0: nat, k: nat)
    ensures SlotOf(SeqOf(seq0, k + WINDOW)) == SlotOf(SeqOf(seq0, k))
  {
    hide SlotOf, SeqOf;
    SlotOfSeq(seq0, k);
    SlotOfSeq(seq0, k + WINDOW);
    WindowMod(seq0 + k);
  }

  lemma WindowMod(x: nat)
    ensures (x + WINDOW) % WINDOW == x % WINDOW
  {
  }

  lemma PacketStored(b: seq<Bytes>, numbers: seq<int>, seq0: nat, packets: seq<Bytes>, p: Bytes)
    requires WindowHolds(b, numbers, seq0, packets)
    ensures var s := SeqOf(seq0, |packets|);
      WindowHolds(b[SlotOf(s) := p], numbers[SlotOf(s) := s], seq0, packets + [p])
  {
    hide Kept, SeqOf, SlotOf;
    var n := |packets|;
    var s := SeqOf(seq0, n);
    var b', numbers', packets' := b[SlotOf(s) := p], numbers[SlotOf(s) := s], packets + [p];
    forall k | WindowStart(n + 1) <= k < n + 1 ensures Kept1(b', numbers', seq0, packets', k) {
      if k < n {
        SlotsDiffer(seq0, k, n);
        assert Kept1(b, numbers, seq0, packets, k);
      }
    }
    KeptExactly(seq0, n + 1, s, n);
    forall i | 0 <= i < WINDOW && numbers'[i] != -1
      ensures 0 <= numbers'[i] < TWO_16 && SlotOf(numbers'[i]) == i && Kept(seq0, n + 1, numbers'[i]).Some?
    {
      if i != SlotOf(s) {
        KeptStays(seq0, n, numbers[i]);
      }
    }
  }

  /** Looking a number up in its slot finds the packet that carries it, or that it has aged out. */
  lemma LookUp(b: seq<Bytes>, numbers: seq<int>, seq0: nat, packets: seq<Bytes>, s: nat)
    requires WindowHolds(b, numbers, seq0, packets) && s < TWO_16
    ensures numbers[SlotOf(s)] == s <==> Kept(seq0, |packets|, s).Some?
    ensures numbers[SlotOf(s)] == s ==>
      Kept(seq0, |packets|, s).value < |packets| && b[SlotOf(s)] == packets[Kept(seq0, |packets|, s).value]
  {
    hide Kept, SeqOf, SlotOf;
    if Kept(seq0, |packets|, s).Some? {
      var k := Kept(seq0, |packets|, s).value;
      KeptExactly(seq0, |packets|, s, k);
      assert Kept1(b, numbers, seq0, packets, k);
    }
  }

  function Answers(seq0: nat, packets: seq<Bytes>, ks: seq<nat>): seq<Bytes>
    requires forall k :: k in ks ==> k < |packets|
  {
    seq(|ks|, j requires 0 <= j < |ks| => assert ks[j] in ks; Answer(SeqOf(seq0, ks[j]), packets[ks[j]]))
  }

  class AudioStream {
    const stream: Stream
    var seqNo: nat
    var framesSent: Word64
    var firstAudio: bool
    var audioNonce: Word64
    const backlog: array<Bytes>
    const backlogSeq: array<int>
    ghost var packets: seq<Bytes>       // everything sent so far

    ghost predicate Valid()
      reads this, backlog, backlogSeq
    {
      && backlog != backlogSeq as object
      && seqNo == SeqOf(stream.seq0, |packets|)
      && framesSent == U64(FRAMES_PER_PACKET * |packets|)
      && (firstAudio <==> packets == [])
      && (stream.encrypted ==> audioNonce == U64(|packets|))
      && WindowHolds(backlog[..], backlogSeq[..], stream.seq0, packets)
    }

    constructor (c: Stream)
      requires c.seq0 < TWO_16
      ensures Valid() && fresh(backlog) && fresh(backlogSeq) && packets == [] && stream == c
    {
      stream := c;
      seqNo, framesSent, firstAudio, audioNonce := c.seq0, 0, true, 0;
      backlog := new Bytes[WINDOW](_ => []);
      backlogSeq := new int[WINDOW](_ => -1);
      packets := [];
    }

    method RtpTime() returns (t: nat)
      requires Valid()
      ensures t == (LATENCY + FRAMES_PER_PACKET * |packets|) % TWO_32
    {
      t := U64(LATENCY + framesSent) % TWO_32;
      LowWord(FRAMES_PER_PACKET * |packets|);
    }

    method EncryptAudioPayload(seal: Seal, header: Bytes, payload: Bytes) returns (out: Bytes)
      requires |header| >= 12
      modifies this`audioNonce
      ensures out == if stream.encrypted
        then seal(Nonce(old(audioNonce)), payload, header[4..12]) + Nonce(old(audioNonce))
                     else payload
      ensures audioNonce == if stream.encrypted then U64(old(audioNonce) + 1) else old(audioNonce)
    {
      if !stream.encrypted { return payload; }
      var nonce8 := Nonce(audioNonce);
      var ct := seal(nonce8, payload, header[4..12]);
      audioNonce := U64(audioNonce + 1);
      out := ct + nonce8;
    }

    method SendAudioPacket(seal: Seal, payload: Bytes) returns (pkt: Bytes)
      requires Valid()
      modifies this, backlog, backlogSeq
      ensures Valid() && pkt == Packet(seal, stream, |old(packets)|, payload) && packets == old(packets) + [pkt]
      ensures framesSent == U64(FRAMES_PER_PACKET * |packets|)
    {
      hide WindowHolds, BE, SlotOf, SeqOf, U64, Nonce;
      ghost var n := |packets|;
      var t := RtpTime();
      var header: Bytes := [0x80, if firstAudio then 0xE0 else 0x60];
      header := AppendBE(header, seqNo, 2);
      header := AppendBE(header, t, 4);
      header := AppendBE(header, stream.ssrc, 4);
      assert header == Header(stream, n);
      var wire := EncryptAudioPayload(seal, header, payload);
      pkt := header + wire;
      assert pkt == Packet(seal, stream, n, payload);
      CounterAdds(n, 1);
      Remember(pkt);
    }

    method Remember(pkt: Bytes)
      requires WindowHolds(backlog[..], backlogSeq[..], stream.seq0, packets) && backlog != backlogSeq as object
      requires seqNo == SeqOf(stream.seq0, |packets|) && framesSent == U64(FRAMES_PER_PACKET * |packets|)
      requires stream.encrypted ==> audioNonce == U64(|packets| + 1)
      modifies this, backlog, backlogSeq
      ensures Valid() && packets == old(packets) + [pkt]
    {
      hide WindowHolds, SlotOf, Kept, SeqOf, U64;
      StepNumbers(stream.seq0, |packets|);
      var slot := SlotOf(seqNo);
      PacketStored(backlog[..], backlogSeq[..], stream.seq0, packets, pkt);
      SlotInside(backlog[..], backlogSeq[..], stream.seq0, packets, seqNo);
      backlog[slot] := pkt;
      backlogSeq[slot] := seqNo;
      firstAudio := false;
      seqNo := (seqNo + 1) % TWO_16;
      framesSent := U64(framesSent + FRAMES_PER_PACKET);
      packets := packets + [pkt];
    }

    method OnPacerTick(seal: Seal, payloads: seq<Bytes>, elapsedNs: Word64) returns (sent: nat)
      requires Valid() && |payloads| >= PacerSpec.BURST && FRAMES_PER_PACKET * (|packets| + 17) < TWO_64
      modifies this, backlog, backlogSeq
      ensures Valid() && sent == PacerSpec.Burst(old(framesSent), PacerSpec.Target(elapsedNs))
      ensures framesSent == PacerSpec.AfterTick(old(framesSent), elapsedNs) && |packets| == |old(packets)| + sent
      ensures forall i :: 0 <= i < sent ==>
                packets[|old(packets)| + i] == Packet(seal, stream, |old(packets)| + i, payloads[i])
      ensures |packets| >= |old(packets)| && packets[..|old(packets)|] == old(packets)
    {
      ghost var n := |packets|;
      assert framesSent == FRAMES_PER_PACKET * n;
      hide Valid, U64, Packet, PacerSpec.Target;
      var target := PacerSpec.Target(elapsedNs);
      sent := 0;
      while framesSent + FRAMES_PER_PACKET <= target && sent < PacerSpec.BURST
        invariant sent <= PacerSpec.BURST && Valid()
        invariant |packets| == n + sent && framesSent == FRAMES_PER_PACKET * (n + sent)
        invariant sent > 0 ==> framesSent <= target
        invariant packets[..|old(packets)|] == old(packets)
        invariant forall i :: 0 <= i < sent ==>
                    packets[|old(packets)| + i] == Packet(seal, stream, |old(packets)| + i, payloads[i])
      {
        var pkt := SendAudioPacket(seal, payloads[sent]);
        sent := sent + 1;
        NoWrap(FRAMES_PER_PACKET * (n + sent));
      }
    }

    method OnControlDatagram(dg: Bytes) returns (replies: seq<Bytes>)
      requires Valid()
      ensures |dg| < 8 || dg[1] % 128 != 0x55 ==> replies == []
      ensures |dg| >= 8 && dg[1] % 128 == 0x55 ==>
        var ks := Resent(stream.seq0, |packets|, Word16(dg[4], dg[5]), Word16(dg[6], dg[7]));
        (forall k :: k in ks ==> k < |packets|) && replies == Answers(stream.seq0, packets, ks)
    {
      hide WindowHolds, Kept, SlotOf, BE, SeqOf;
      replies := [];
      if |dg| < 8 || dg[1] % 128 != 0x55 { return; }
      var lostSeq, lostCount := Word16(dg[4], dg[5]), Word16(dg[6], dg[7]);
      var i := 0;
      ghost var ks: seq<nat> := [];
      while i < lostCount
        invariant i <= lostCount && ks == Resent(stream.seq0, |packets|, lostSeq, i)
        invariant forall k :: k in ks ==> k < |packets|
        invariant replies == Answers(stream.seq0, packets, ks)
      {
        var s := SeqOf(lostSeq, i);
        var slot := SlotOf(s);
        LookUp(backlog[..], backlogSeq[..], stream.seq0, packets, s);
        SlotInside(backlog[..], backlogSeq[..], stream.seq0, packets, s);
        i := i + 1;
        if backlogSeq[slot] == s {
          ghost var k := Kept(stream.seq0, |packets|, s).value;
          KeptExactly(stream.seq0, |packets|, s, k);
          replies := replies + [Answer(s, backlog[slot])];
          ks := ks + [k];
        }
      }
    }
  }

  lemma SlotInside(b: seq<Bytes>, numbers: seq<int>, seq0: nat, packets: seq<Bytes>, s: nat)
    requires WindowHolds(b, numbers, seq0, packets)
    ensures SlotOf(s) < |b| == |numbers|
  {
  }

  lemma StepNumbers(seq0: nat, n: nat)
    ensures (SeqOf(seq0, n) + 1) % TWO_16 == SeqOf(seq0, n + 1)
    ensures U64(U64(FRAMES_PER_PACKET * n) + FRAMES_PER_PACKET) == U64(FRAMES_PER_PACKET * (n + 1))
  {
    hide U64;
    NextSeq(seq0, n);
    CounterAdds(FRAMES_PER_PACKET * n, FRAMES_PER_PACKET);
  }

  lemma NoWrap(n: nat)
    requires n < TWO_64
    ensures U64(n) == n
  {
  }

  lemma NextSeq(seq0: nat, n: nat)
    ensures (SeqOf(seq0, n) + 1) % TWO_16 == SeqOf(seq0, n + 1)
  {
  }

  lemma LowWord(x: nat)
    ensures U64(LATENCY + U64(x)) % TWO_32 == (LATENCY + x) % TWO_32
  {
    assert U64(LATENCY + U64(x)) == U64(LATENCY + x) by { CounterAdds(x, LATENCY); }
    ModOfMod(LATENCY + x, TWO_32, TWO_32);
  }
}
