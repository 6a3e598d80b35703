/** Encrypted frames: a two-byte length, the sealed chunk and its tag, under a counter nonce. Writing, and the
    incremental reader that must not care how TCP cuts the stream. */
module Framing {
  import opened Wire

  const TAG: nat := 16
  const CHUNK: nat := 1024

  // Authenticated encryption under a fixed key: nonce, text, associated data.
  type Seal = (Bytes, Bytes, Bytes) -> Bytes
  type Open = (Bytes, Bytes, Bytes) -> Option<Bytes>

  // What the two ends' cipher promises (sections 2.8 and 2.8.1 of RFC 8439).
  ghost predicate Matching(seal: Seal, open: Open)
  {
    forall n, p, a :: |seal(n, p, a)| == |p| + TAG && open(n, seal(n, p, a), a) == Some(p)
  }

  // The low `width` bytes of v, least significant first.
  function LE(v: nat, width: nat): (r: Bytes)
    ensures |r| == width
  {
    seq(width, k requires 0 <= k < width => Shr8(v, k) % 256)
  }

  function Nonce(ctr: Word64): Bytes { LE(ctr, 8) }

  function LengthField(n: nat): (r: Bytes)
    ensures |r| == 2
  {
    [n % 256, n / 256 % 256]
  }

  // ---- Writing ----

  function Frame(seal: Seal, ctr: Word64, chunk: Bytes): Bytes
  {
    LengthField(|chunk|) + seal(Nonce(ctr), chunk, LengthField(|chunk|))
  }

  function Frames(seal: Seal, ctr: Word64, data: Bytes): Bytes
    decreases |data|
  {
    if data == [] then []
    else
      var n := Min(CHUNK, |data|);
      Frame(seal, ctr, data[..n]) + Frames(seal, U64(ctr + 1), data[n..])
  }

  function FrameCount(n: nat): nat { (n + CHUNK - 1) / CHUNK }

  // A sequence of messages under successive counters.
  function Stream(seal: Seal, ctr: Word64, msgs: seq<Bytes>): Bytes
    decreases |msgs|
  {
    if msgs == [] then []
    else Frames(seal, ctr, msgs[0]) + Stream(seal, U64(ctr + FrameCount(|msgs[0]|)), msgs[1..])
  }

  function Concat(parts: seq<Bytes>): Bytes
  {
    if parts == [] then [] else parts[0] + Concat(parts[1..])
  }

  function TotalFrames(msgs: seq<Bytes>): nat
  {
    if msgs == [] then 0 else FrameCount(|msgs[0]|) + TotalFrames(msgs[1..])
  }

  // ---- Reading ----

  function Need(buf: Bytes): nat
    requires |buf| >= 2
  {
    2 + (buf[0] + 256 * buf[1]) + TAG
  }

  // buf starts with a complete frame.
  predicate Whole(buf: Bytes) { |buf| >= 2 && |buf| >= Need(buf) }

  // What opening the frames of a buffer yields: text, what is left, the next counter, and whether all were authentic.
  datatype Opened = Opened(plain: Bytes, rest: Bytes, ctr: Word64, ok: bool)

  function OpenOne(open: Open, ctr: Word64, buf: Bytes): Option<Bytes>
    requires Whole(buf)
  {
    open(Nonce(ctr), buf[2..Need(buf)], buf[..2])
  }

  function OpenAll(open: Open, ctr: Word64, buf: Bytes): Opened
    decreases |buf|
  {
    if !Whole(buf) then Opened([], buf, ctr, true)
    else
      match OpenOne(open, ctr, buf)
      case None => Opened([], buf, U64(ctr + 1), false)
      case Some(p) => Before(p, OpenAll(open, U64(ctr + 1), buf[Need(buf)..]))
  }

  function Before(p: Bytes, o: Opened): Opened { o.(plain := p + o.plain) }

  // The reader between two deliveries; once a frame is rejected the session is over.
  datatype Reader = Reader(buf: Bytes, ctr: Word64, plain: Bytes, ok: bool)

  function Feed(open: Open, r: Reader, bytes: Bytes): Reader
  {
    if !r.ok then r
    else
      var o := OpenAll(open, r.ctr, r.buf + bytes);
      Reader(o.rest, o.ctr, r.plain + o.plain, o.ok)
  }

  function FeedAll(open: Open, r: Reader, segments: seq<Bytes>): Reader
    decreases |segments|
  {
    if segments == [] then r else FeedAll(open, Feed(open, r, segments[0]), segments[1..])
  }

  // ---- Nonces ----

  // A number written with its lowest byte first.
  function ReadLE(b: Bytes): nat { if b == [] then 0 else b[0] + 256 * ReadLE(b[1..]) }

  lemma {:induction false} LEReads(v: nat, width: nat)
    requires v < Pow256(width)
    ensures ReadLE(LE(v, width)) == v
  {
    if width > 0 {
      Shr8Zero(v);
      forall k | 0 <= k < width - 1 ensures LE(v, width)[1..][k] == LE(v / 256, width - 1)[k] {
        Shr8Tail(v, k);
      }
      assert LE(v, width)[1..] == LE(v / 256, width - 1);
      LEReads(v / 256, width - 1);
    }
  }

  lemma Shr8Zero(v: nat)
    ensures Shr8(v, 0) == v
  {
  }

  lemma {:induction false} Shr8Tail(v: nat, k: nat)
    ensures Shr8(v, k + 1) == Shr8(v / 256, k)
  {
    if k > 0 {
      Shr8Tail(v, k - 1);
    }
  }

  /** A nonce is the counter in eight bytes, the lowest first; and so is the length of a frame in two. */
  lemma NonceReads(ctr: Word64)
    ensures |Nonce(ctr)| == 8 && ReadLE(Nonce(ctr)) == ctr
  {
    assert Pow256(8) == TWO_64;
    LEReads(ctr, 8);
  }

  lemma LengthReads(n: nat)
    requires n < TWO_16
    ensures ReadLE(LengthField(n)) == n
  {
    var b := LengthField(n);
    var high := b[1..];
    assert high[1..] == [];
    assert ReadLE(high) == n / 256;
  }

  /** Different counters give different nonces. */
  lemma NoncesDiffer(a: Word64, b: Word64)
    requires a != b
    ensures Nonce(a) != Nonce(b)
  {
    NonceReads(a);
    NonceReads(b);
  }

  // ---- Segmentation ----

  // A complete frame at the front does not change when more bytes arrive.
  lemma WholeGrows(x: Bytes, y: Bytes)
    requires Whole(x)
    ensures Whole(x + y) && Need(x + y) == Need(x)
    ensures (x + y)[2..Need(x)] == x[2..Need(x)] && (x + y)[..2] == x[..2] && (x + y)[Need(x)..] == x[Need(x)..] + y
  {
  }

  /** Opening x and then the rest of x together with y is opening x + y: the decoder cannot tell where it was cut. */
  lemma {:induction false} OpenSplits(open: Open, ctr: Word64, x: Bytes, y: Bytes)
    ensures var a := OpenAll(open, ctr, x); var b := OpenAll(open, ctr, x + y);
      && (a.ok ==> b == Before(a.plain, OpenAll(open, a.ctr, a.rest + y)))
      && (!a.ok ==> !b.ok && b.plain == a.plain && b.ctr == a.ctr)
    decreases |x|
  {
    hide Need;
    if Whole(x) {
      WholeGrows(x, y);
      NeedPositive(x);
      match OpenOne(open, ctr, x)
      case None =>
      case Some(p) =>
        OpenSplits(open, U64(ctr + 1), x[Need(x)..], y);
        var a := OpenAll(open, U64(ctr + 1), x[Need(x)..]);
        BeforeTwice(p, a.plain, OpenAll(open, a.ctr, a.rest + y));
    } else {
      BeforeNothing(OpenAll(open, ctr, x + y));
    }
  }

  lemma NeedPositive(x: Bytes)
    requires Whole(x)
    ensures 0 < Need(x) <= |x|
  {
  }

  lemma BeforeTwice(p: Bytes, q: Bytes, o: Opened)
    ensures Before(p, Before(q, o)) == Before(p + q, o)
  {
    assert p + (q + o.plain) == p + q + o.plain;
  }

  lemma BeforeNothing(o: Opened)
    ensures Before([], o) == o
  {
    assert [] + o.plain == o.plain;
  }

  lemma FeedTwice(open: Open, r: Reader, x: Bytes, y: Bytes)
    ensures var a := Feed(open, Feed(open, r, x), y); var b := Feed(open, r, x + y);
      a.ok == b.ok && a.plain == b.plain && a.ctr == b.ctr && (a.ok ==> a == b)
  {
    hide OpenAll;
    if r.ok {
      OpenSplits(open, r.ctr, r.buf + x, y);
      assert r.buf + x + y == r.buf + (x + y);
      var o := OpenAll(open, r.ctr, r.buf + x);
      if o.ok {
        var o2 := OpenAll(open, o.ctr, o.rest + y);
        assert r.plain + (o.plain + o2.plain) == r.plain + o.plain + o2.plain;
      }
    }
  }

  /** However a byte stream is cut into reads, the reader ends with the same text, counter and verdict as if it had
      come in one piece, and with the same bytes left over unless a frame was rejected. */
  lemma {:induction false} SegmentationDoesNotMatter(open: Open, r: Reader, segments: seq<Bytes>)
    requires !Whole(r.buf)
    ensures var a := FeedAll(open, r, segments); var b := Feed(open, r, Concat(segments));
      a.ok == b.ok && a.plain == b.plain && a.ctr == b.ctr && (a.ok ==> a == b)
    decreases |segments|
  {
    hide Whole;
    if segments == [] {
      FeedNothing(open, r);
    } else {
      var r1 := Feed(open, r, segments[0]);
      FeedTwice(open, r, segments[0], Concat(segments[1..]));
      if r1.ok {
        RestIsIncomplete(open, r, segments[0]);
        SegmentationDoesNotMatter(open, r1, segments[1..]);
      } else {
        RejectedStays(open, r1, segments[1..]);
      }
    }
  }

  lemma {:induction false} RejectedStays(open: Open, r: Reader, segments: seq<Bytes>)
    requires !r.ok
    ensures FeedAll(open, r, segments) == r
    decreases |segments|
  {
    if segments != [] {
      RejectedStays(open, r, segments[1..]);
    }
  }

  lemma FeedNothing(open: Open, r: Reader)
    requires !Whole(r.buf)
    ensures Feed(open, r, []) == r
  {
    hide Whole;
    assert r.buf + [] == r.buf;
    assert r.plain + [] == r.plain;
  }

  lemma {:induction false} OnlyIncompleteLeft(open: Open, ctr: Word64, buf: Bytes)
    requires OpenAll(open, ctr, buf).ok
    ensures !Whole(OpenAll(open, ctr, buf).rest)
    decreases |buf|
  {
    if Whole(buf) {
      NeedPositive(buf);
      OnlyIncompleteLeft(open, U64(ctr + 1), buf[Need(buf)..]);
    }
  }

  /** Between two reads only an incomplete frame is buffered. */
  lemma RestIsIncomplete(open: Open, r: Reader, bytes: Bytes)
    requires Feed(open, r, bytes).ok
    ensures !Whole(Feed(open, r, bytes).buf)
  {
    if r.ok {
      OnlyIncompleteLeft(open, r.ctr, r.buf + bytes);
    }
  }

  // ---- End to end ----

  lemma FrameOpens(seal: Seal, open: Open, ctr: Word64, chunk: Bytes, y: Bytes)
    requires Matching(seal, open) && |chunk| < TWO_16
    ensures var f := Frame(seal, ctr, chunk);
      |f| == 2 + |chunk| + TAG && Whole(f + y) && Need(f + y) == |f| && OpenOne(open, ctr, f + y) == Some(chunk)
      && (f + y)[|f|..] == y
  {
    var f := Frame(seal, ctr, chunk);
    var c := seal(Nonce(ctr), chunk, LengthField(|chunk|));
    assert |c| == |chunk| + TAG;
    assert (f + y)[..2] == LengthField(|chunk|);
    assert (f + y)[2..|f|] == c;
  }

  lemma {:induction false} FramesOpen(seal: Seal, open: Open, ctr: Word64, data: Bytes, y: Bytes)
    requires Matching(seal, open)
    ensures OpenAll(open, ctr, Frames(seal, ctr, data) + y)
         == Before(data, OpenAll(open, U64(ctr + FrameCount(|data|)), y))
    decreases |data|
  {
    hide Matching, Whole, Need, OpenOne, Frame, OpenAll;
    if data == [] {
      assert [] + y == y && Before([], OpenAll(open, ctr, y)) == OpenAll(open, U64(ctr), y) by {
        BeforeNothing(OpenAll(open, ctr, y));
      }
    } else {
      hide U64, FrameCount, Before;
      var n := Min(CHUNK, |data|);
      var f, tail := Frame(seal, ctr, data[..n]), Frames(seal, U64(ctr + 1), data[n..]);
      assert f + tail + y == f + (tail + y);
      FrameOpens(seal, open, ctr, data[..n], tail + y);
      OpenFirst(open, ctr, f + (tail + y));
      FramesOpen(seal, open, U64(ctr + 1), data[n..], y);
      BeforeTwice(data[..n], data[n..], OpenAll(open, U64(ctr + FrameCount(|data|)), y));
      assert data[..n] + data[n..] == data;
      OneFrameMore(ctr, |data|);
    }
  }

  lemma OpenFirst(open: Open, ctr: Word64, buf: Bytes)
    requires Whole(buf) && OpenOne(open, ctr, buf).Some?
    ensures Need(buf) <= |buf|
    ensures OpenAll(open, ctr, buf)
      == Before(OpenOne(open, ctr, buf).value, OpenAll(open, U64(ctr + 1), buf[Need(buf)..]))
  {
  }

  lemma OneFrameMore(ctr: Word64, n: nat)
    requires n > 0
    ensures U64(U64(ctr + 1) + FrameCount(n - Min(CHUNK, n))) == U64(ctr + FrameCount(n))
  {
  }

  lemma {:induction false} StreamOpens(seal: Seal, open: Open, ctr: Word64, msgs: seq<Bytes>)
    requires Matching(seal, open)
    ensures OpenAll(open, ctr, Stream(seal, ctr, msgs)) == Opened(Concat(msgs), [], U64(ctr + TotalFrames(msgs)), true)
    decreases |msgs|
  {
    hide Matching, OpenAll, U64;
    if msgs == [] {
      OpenNothing(open, ctr);
    } else {
      hide Frames, FrameCount;
      var c := U64(ctr + FrameCount(|msgs[0]|));
      var tail := Stream(seal, c, msgs[1..]);
      StreamOpens(seal, open, c, msgs[1..]);
      FramesOpen(seal, open, ctr, msgs[0], tail);
      CounterAdds(ctr + FrameCount(|msgs[0]|), TotalFrames(msgs[1..]));
    }
  }

  lemma OpenNothing(open: Open, ctr: Word64)
    ensures OpenAll(open, ctr, []) == Opened([], [], U64(ctr + 0), true)
  {
  }

  lemma OpenPrefix(open: Open, ctr: Word64, x: Bytes, y: Bytes)
    requires OpenAll(open, ctr, x + y).ok
    ensures OpenAll(open, ctr, x).ok && OpenAll(open, ctr, x).plain <= OpenAll(open, ctr, x + y).plain
  {
    hide OpenAll;
    OpenSplits(open, ctr, x, y);
  }

  /** The encrypted channel end to end: whatever messages are written and however the stream is cut, the reader gets
      exactly their text, nothing is left over, and its counter has advanced by one per 1024-byte chunk. */
  lemma ChannelDelivers(seal: Seal, open: Open, ctr: Word64, msgs: seq<Bytes>, segments: seq<Bytes>)
    requires Matching(seal, open) && Concat(segments) == Stream(seal, ctr, msgs)
    ensures FeedAll(open, Reader([], ctr, [], true), segments)
         == Reader([], U64(ctr + TotalFrames(msgs)), Concat(msgs), true)
  {
    hide Matching;
    SegmentationDoesNotMatter(open, Reader([], ctr, [], true), segments);
    StreamOpens(seal, open, ctr, msgs);
    assert [] + Concat(segments) == Concat(segments);
    assert [] + Concat(msgs) == Concat(msgs);
  }

  /** In the middle of the stream: what has been read is a prefix of the text and only an incomplete frame waits. */
  lemma PrefixDelivers(seal: Seal, open: Open, ctr: Word64, msgs: seq<Bytes>, segments: seq<Bytes>)
    requires Matching(seal, open) && Concat(segments) <= Stream(seal, ctr, msgs)
    ensures var r := FeedAll(open, Reader([], ctr, [], true), segments);
      r.ok && r.plain <= Concat(msgs) && !Whole(r.buf)
  {
    hide Matching, Whole, Stream, OpenAll, FeedAll;
    var got, all := Concat(segments), Stream(seal, ctr, msgs);
    var r := Reader([], ctr, [], true);
    EmptyIsIncomplete();
    SegmentationDoesNotMatter(open, r, segments);
    StreamOpens(seal, open, ctr, msgs);
    assert got + all[|got|..] == all;
    OpenPrefix(open, ctr, got, all[|got|..]);
    OnlyIncompleteLeft(open, ctr, got);
    assert [] + got == got;
  }

  lemma EmptyIsIncomplete()
    ensures !Whole([])
  {
  }
}
