/** The incremental RTSP parser on the control channel, and the two decoders of that channel stacked: frames to
    text, text to replies. */
module Rtsp {
  import opened Wire
  import opened Text
  import opened Framing

  const RX_CAP: nat := 4 * 1024 * 1024

  type HeaderMap = map<Bytes, Bytes>

  datatype Message = Message(status: Bytes, headers: HeaderMap, body: Bytes)

  const CONTENT_LENGTH: Bytes := Ascii("content-length")
  const CSEQ: Bytes := Ascii("cseq")
  const RTSP_SLASH: Bytes := Ascii("RTSP/")
  const HTTP_SLASH: Bytes := Ascii("HTTP/")

  // CR LF CR LF stands at i.
  predicate BlankAt(buf: Bytes, i: nat)
  {
    i + 4 <= |buf| && buf[i] == CR && buf[i + 1] == LF && buf[i + 2] == CR && buf[i + 3] == LF
  }

  // The first blank line from i on.
  function FindBlank(buf: Bytes, i: nat): (r: Option<nat>)
    ensures r.Some? ==> i <= r.value && BlankAt(buf, r.value) && forall j :: i <= j < r.value ==> !BlankAt(buf, j)
    ensures r.None? ==> forall j :: i <= j < |buf| ==> !BlankAt(buf, j)
    decreases |buf| - i
  {
    if i >= |buf| then None else if BlankAt(buf, i) then Some(i) else FindBlank(buf, i + 1)
  }

  // A header line: name before the first colon, lower-cased, and value.
  function HeaderOf(line: Bytes): Option<(Bytes, Bytes)>
  {
    var t := Trim(line);
    var colon := IndexOf(t, COLON, 0);
    if colon == |t| || colon == 0 then None else Some((Trim(Lower(t[..colon])), Trim(t[colon + 1..])))
  }

  // The headers of lines[..n], the first line being the status line; later ones overwrite earlier ones.
  function HeadersTo(lines: seq<Bytes>, n: nat): HeaderMap
    requires 1 <= n <= |lines|
  {
    if n == 1 then map[]
    else
      var before := HeadersTo(lines, n - 1);
      match HeaderOf(lines[n - 1])
      case None => before
      case Some(h) => before[h.0 := h.1]
  }

  function Lookup(h: HeaderMap, key: Bytes, missing: Bytes): Bytes { if key in h then h[key] else missing }

  // A bad or negative length counts as none.
  function ContentLength(h: HeaderMap): nat
  {
    match ToInt32(Lookup(h, CONTENT_LENGTH, [48]))
    case None => 0
    case Some(v) => if v < 0 then 0 else v
  }

  function HeaderLines(buf: Bytes, headEnd: nat): HeaderMap
    requires headEnd <= |buf|
  {
    var lines := Split(buf[..headEnd], LF);
    HeadersTo(lines, |lines|)
  }

  // How many bytes the first message takes, once its head is complete.
  function Total(buf: Bytes, headEnd: nat): nat
    requires headEnd <= |buf|
  {
    headEnd + 4 + ContentLength(HeaderLines(buf, headEnd))
  }

  // The first message starts at 0, its head ends at the result; None while anything of it is missing.
  function Complete(buf: Bytes): (r: Option<nat>)
    ensures r.Some? ==> BlankAt(buf, r.value) && Total(buf, r.value) <= |buf|
  {
    match FindBlank(buf, 0)
    case None => None
    case Some(e) => if |buf| < Total(buf, e) then None else Some(e)
  }

  function MessageAt(buf: Bytes, e: nat): Message
    requires e + 4 <= |buf| && Total(buf, e) <= |buf|
  {
    Message(Trim(Split(buf[..e], LF)[0]), HeaderLines(buf, e), buf[e + 4..Total(buf, e)])
  }

  datatype Parsed = Parsed(msgs: seq<Message>, rest: Bytes)

  function ParseAll(buf: Bytes): Parsed
    decreases |buf|
  {
    match Complete(buf)
    case None => Parsed([], buf)
    case Some(e) => Then([MessageAt(buf, e)], ParseAll(buf[Total(buf, e)..]))
  }

  function Then(first: seq<Message>, p: Parsed): Parsed { p.(msgs := first + p.msgs) }

  // The first q messages; the rest of the text stays.
  function ParseSome(buf: Bytes, q: nat): Parsed
    decreases |buf|
  {
    if q == 0 then Parsed([], buf)
    else
      match Complete(buf)
      case None => Parsed([], buf)
      case Some(e) => Then([MessageAt(buf, e)], ParseSome(buf[Total(buf, e)..], q - 1))
  }

  // The status code of a reply; a request pushed by the receiver is no reply.
  function ReplyCode(m: Message): Option<int>
  {
    if !StartsWith(m.status, RTSP_SLASH) && !StartsWith(m.status, HTTP_SLASH) then None
    else
      var parts := Split(m.status, SPACE);
      Some(ToInt(if |parts| > 1 then parts[1] else []))
  }

  // ---- Segmentation of the text ----

  lemma {:induction false} FindBlankGrows(x: Bytes, y: Bytes, i: nat)
    requires FindBlank(x, i).Some?
    ensures FindBlank(x + y, i) == FindBlank(x, i)
    decreases |x| - i
  {
    if !BlankAt(x, i) {
      FindBlankGrows(x, y, i + 1);
    }
  }

  // A complete message is the same message when more text has arrived.
  lemma CompleteGrows(x: Bytes, y: Bytes)
    requires Complete(x).Some?
    ensures Complete(x + y) == Complete(x)
    ensures var e := Complete(x).value;
      && Total(x + y, e) == Total(x, e) && MessageAt(x + y, e) == MessageAt(x, e)
      && (x + y)[Total(x, e)..] == x[Total(x, e)..] + y
  {
    var e := Complete(x).value;
    FindBlankGrows(x, y, 0);
    assert (x + y)[..e] == x[..e];
    assert (x + y)[e + 4..Total(x, e)] == x[e + 4..Total(x, e)];
  }

  lemma ThenTwice(a: seq<Message>, b: seq<Message>, p: Parsed)
    ensures Then(a, Then(b, p)) == Then(a + b, p) && Then([], p) == p
  {
    assert a + (b + p.msgs) == a + b + p.msgs;
    assert [] + p.msgs == p.msgs;
  }

  /** Parsing x and then what is left of it together with y is parsing x + y. */
  lemma {:induction false} ParseSplits(x: Bytes, y: Bytes)
    ensures ParseAll(x + y) == Then(ParseAll(x).msgs, ParseAll(ParseAll(x).rest + y))
    decreases |x|
  {
    hide Total, MessageAt;
    match Complete(x)
    case None => ThenTwice([], [], ParseAll(x + y));
    case Some(e) =>
      TotalPositive(x, e);
      CompleteGrows(x, y);
      var tail := x[Total(x, e)..];
      ParseSplits(tail, y);
      ThenTwice([MessageAt(x, e)], ParseAll(tail).msgs, ParseAll(ParseAll(tail).rest + y));
  }

  lemma TotalPositive(x: Bytes, e: nat)
    requires e <= |x|
    ensures Total(x, e) > 0
  {
  }

  // Left-over text holds no complete message.
  lemma {:induction false} LeftoverIncomplete(x: Bytes)
    ensures Complete(ParseAll(x).rest).None?
    decreases |x|
  {
    if Complete(x).Some? {
      TotalPositive(x, Complete(x).value);
      LeftoverIncomplete(x[Total(x, Complete(x).value)..]);
    }
  }

  lemma RestShorter(x: Bytes)
    ensures |ParseAll(x).rest| <= |x|
    decreases |x|
  {
    if Complete(x).Some? {
      TotalPositive(x, Complete(x).value);
      RestShorter(x[Total(x, Complete(x).value)..]);
    }
  }

  /** Stopping after q messages gives the first q of all, and goes on later where it stopped. */
  lemma {:induction false} SomeIsPrefix(buf: Bytes, q: nat)
    ensures var p := ParseSome(buf, q);
      && ParseAll(buf) == Then(p.msgs, ParseAll(p.rest)) && |p.msgs| <= q
      && (|p.msgs| < q ==> p == ParseAll(buf))
    decreases |buf|
  {
    hide Total, MessageAt;
    if q == 0 {
      ThenTwice([], [], ParseAll(buf));
    } else {
      match Complete(buf)
      case None => ThenTwice([], [], ParseAll(buf));
      case Some(e) =>
        TotalPositive(buf, e);
        var tail := buf[Total(buf, e)..];
        SomeIsPrefix(tail, q - 1);
        ThenTwice([MessageAt(buf, e)], ParseSome(tail, q - 1).msgs, ParseAll(ParseSome(tail, q - 1).rest));
    }
  }

  // ---- The whole channel ----

  // The receiving half of the control channel between two reads.
  datatype Inbound = Inbound(enc: Bytes, ctr: Word64, rx: Bytes, failed: bool)

  datatype Read = Read(next: Inbound, msgs: seq<Message>)

  // Text that has just become readable: the cap is tested before anything is parsed.
  function TakeText(s: Inbound, text: Bytes): Read
  {
    var rx := s.rx + text;
    if |rx| > RX_CAP then Read(s.(rx := rx, failed := true), [])
    else Read(s.(rx := ParseAll(rx).rest), ParseAll(rx).msgs)
  }

  function OnRead(open: Open, encrypted: bool, s: Inbound, bytes: Bytes): Read
  {
    if s.failed then Read(s, [])
    else if !encrypted then TakeText(s, bytes)
    else
      var o := OpenAll(open, s.ctr, s.enc + bytes);
      if !o.ok then Read(Inbound(o.rest, o.ctr, s.rx + o.plain, true), [])
      else TakeText(Inbound(o.rest, o.ctr, s.rx, false), o.plain)
  }

  // As OnRead, but the session is over after `quota` messages: the rest of the read is not looked at.
  function OnReadUntil(open: Open, encrypted: bool, s: Inbound, bytes: Bytes, quota: nat): Read
  {
    var r := OnRead(open, encrypted, s, bytes);
    if s.failed || r.next.failed then r
    else
      var text := if encrypted then OpenAll(open, s.ctr, s.enc + bytes).plain else bytes;
      var p := ParseSome(s.rx + text, quota);
      Read(r.next.(rx := p.rest), p.msgs)
  }

  function ReadAll(open: Open, encrypted: bool, s: Inbound, segments: seq<Bytes>): Read
    decreases |segments|
  {
    if segments == [] then Read(s, [])
    else
      var r := OnRead(open, encrypted, s, segments[0]);
      var t := ReadAll(open, encrypted, r.next, segments[1..]);
      t.(msgs := r.msgs + t.msgs)
  }

  lemma TakeTextTwice(s: Inbound, a: Bytes, b: Bytes)
    requires !TakeText(s, a + b).next.failed && !s.failed
    ensures var r := TakeText(s, a); var t := TakeText(r.next, b);
      !r.next.failed && TakeText(s, a + b) == Read(t.next, r.msgs + t.msgs)
  {
    hide ParseAll, Then;
    assert s.rx + (a + b) == s.rx + a + b;
    ParseSplits(s.rx + a, b);
    RestShorter(s.rx + a);
    ThenParts(ParseAll(s.rx + a).msgs, ParseAll(ParseAll(s.rx + a).rest + b));
  }

  lemma ThenParts(a: seq<Message>, p: Parsed)
    ensures Then(a, p) == Parsed(a + p.msgs, p.rest)
  {
  }

  lemma ReadTwice(open: Open, encrypted: bool, s: Inbound, x: Bytes, y: Bytes)
    requires !OnRead(open, encrypted, s, x + y).next.failed
    ensures var r := OnRead(open, encrypted, s, x); var t := OnRead(open, encrypted, r.next, y);
      !r.next.failed && OnRead(open, encrypted, s, x + y) == Read(t.next, r.msgs + t.msgs)
  {
    hide TakeText, OpenAll;
    TakeTextFields(s, x);
    if !s.failed && !encrypted {
      TakeTextTwice(s, x, y);
    } else if !s.failed {
      var o := OpenAll(open, s.ctr, s.enc + x);
      OpenSplits(open, s.ctr, s.enc + x, y);
      assert s.enc + (x + y) == s.enc + x + y;
      var o2 := OpenAll(open, o.ctr, o.rest + y);
      TextThroughFrames(Inbound(o.rest, o.ctr, s.rx, false), Inbound(o2.rest, o2.ctr, s.rx, false), o.plain, o2.plain);
    }
  }

  lemma TakeTextFields(s: Inbound, text: Bytes)
    ensures TakeText(s, text).next.enc == s.enc && TakeText(s, text).next.ctr == s.ctr
  {
  }

  // The frame half of the state plays no part in parsing.
  lemma TextThroughFrames(s: Inbound, s2: Inbound, a: Bytes, b: Bytes)
    requires !s.failed && s2 == s.(enc := s2.enc, ctr := s2.ctr)
    ensures TakeText(s2, a + b).next.failed == TakeText(s, a + b).next.failed
    ensures !TakeText(s2, a + b).next.failed ==>
      var r := TakeText(s, a);
      var t := TakeText(r.next.(enc := s2.enc, ctr := s2.ctr), b);
      && !r.next.failed && r.next.enc == s.enc && r.next.ctr == s.ctr
      && TakeText(s2, a + b) == Read(t.next, r.msgs + t.msgs)
  {
    hide ParseAll;
    if !TakeText(s2, a + b).next.failed {
      TakeTextTwice(s2, a, b);
    }
  }

  // Nothing is waiting that could have been read already.
  predicate Settled(encrypted: bool, s: Inbound)
  {
    !s.failed && |s.rx| <= RX_CAP && Complete(s.rx).None? && (encrypted ==> !Whole(s.enc))
  }

  lemma ReadNothing(open: Open, encrypted: bool, s: Inbound)
    requires Settled(encrypted, s)
    ensures OnRead(open, encrypted, s, []) == Read(s, [])
  {
    assert s.rx + [] == s.rx;
    assert s.enc + [] == s.enc;
  }

  lemma TextSettles(s: Inbound, text: Bytes)
    requires !s.failed && !TakeText(s, text).next.failed
    ensures Complete(TakeText(s, text).next.rx).None? && |TakeText(s, text).next.rx| <= RX_CAP
  {
    LeftoverIncomplete(s.rx + text);
    RestShorter(s.rx + text);
  }

  lemma ReadSettles(open: Open, encrypted: bool, s: Inbound, bytes: Bytes)
    requires Settled(encrypted, s) && !OnRead(open, encrypted, s, bytes).next.failed
    ensures Settled(encrypted, OnRead(open, encrypted, s, bytes).next)
  {
    hide TakeText, Complete, Whole, OpenAll;
    if encrypted {
      var o := OpenAll(open, s.ctr, s.enc + bytes);
      OnlyIncompleteLeft(open, s.ctr, s.enc + bytes);
      TextSettles(Inbound(o.rest, o.ctr, s.rx, false), o.plain);
      TakeTextFields(Inbound(o.rest, o.ctr, s.rx, false), o.plain);
    } else {
      TextSettles(s, bytes);
    }
  }

  /** Reading in pieces is no worse than in one: if one read of everything would neither meet a forged frame nor exceed
      the 4 MiB cap, no way of cutting it does, and the messages and the state left behind are the same. */
  lemma {:induction false} PiecesNeverWorse(open: Open, encrypted: bool, s: Inbound, segments: seq<Bytes>)
    requires Settled(encrypted, s) && !OnRead(open, encrypted, s, Concat(segments)).next.failed
    ensures ReadAll(open, encrypted, s, segments) == OnRead(open, encrypted, s, Concat(segments))
    decreases |segments|
  {
    hide OnRead, Settled;
    if segments == [] {
      ReadNothing(open, encrypted, s);
    } else {
      ReadTwice(open, encrypted, s, segments[0], Concat(segments[1..]));
      ReadSettles(open, encrypted, s, segments[0]);
      PiecesNeverWorse(open, encrypted, OnRead(open, encrypted, s, segments[0]).next, segments[1..]);
    }
  }

  // What everything that arrives amounts to, whatever its length: the cap belongs to single reads.
  function OnePiece(open: Open, encrypted: bool, s: Inbound, bytes: Bytes): Read
  {
    if !encrypted then Parse(s, bytes)
    else
      var o := OpenAll(open, s.ctr, s.enc + bytes);
      Parse(Inbound(o.rest, o.ctr, s.rx, !o.ok), o.plain)
  }

  function Parse(s: Inbound, text: Bytes): Read
  {
    Read(s.(rx := ParseAll(s.rx + text).rest), ParseAll(s.rx + text).msgs)
  }

  // Nothing readable is waiting.
  predicate Drained(encrypted: bool, s: Inbound)
  {
    !s.failed && Complete(s.rx).None? && (encrypted ==> !Whole(s.enc))
  }

  lemma {:induction false} FailedStays(open: Open, encrypted: bool, s: Inbound, segments: seq<Bytes>)
    requires s.failed
    ensures ReadAll(open, encrypted, s, segments).next.failed
    decreases |segments|
  {
    if segments != [] {
      FailedStays(open, encrypted, s, segments[1..]);
    }
  }

  lemma OneReadIsPiece(open: Open, encrypted: bool, s: Inbound, bytes: Bytes)
    requires Drained(encrypted, s) && !OnRead(open, encrypted, s, bytes).next.failed
    ensures OnRead(open, encrypted, s, bytes) == OnePiece(open, encrypted, s, bytes)
    ensures Drained(encrypted, OnRead(open, encrypted, s, bytes).next)
    ensures encrypted ==> OpenAll(open, s.ctr, s.enc + bytes).ok
  {
    hide OpenAll, ParseAll, Complete, Whole;
    if encrypted {
      var o := OpenAll(open, s.ctr, s.enc + bytes);
      if o.ok {
        OnlyIncompleteLeft(open, s.ctr, s.enc + bytes);
        LeftoverIncomplete(s.rx + o.plain);
      }
    } else {
      LeftoverIncomplete(s.rx + bytes);
    }
  }

  lemma ParseTwice(s: Inbound, a: Bytes, b: Bytes)
    ensures var r := Parse(s, a); var t := Parse(r.next, b); Parse(s, a + b) == Read(t.next, r.msgs + t.msgs)
  {
    hide ParseAll, Then;
    assert s.rx + (a + b) == s.rx + a + b;
    ParseSplits(s.rx + a, b);
    ThenParts(ParseAll(s.rx + a).msgs, ParseAll(ParseAll(s.rx + a).rest + b));
  }

  lemma PieceTwice(open: Open, encrypted: bool, s: Inbound, x: Bytes, y: Bytes)
    requires !s.failed && !OnePiece(open, encrypted, s, x).next.failed
    ensures var r := OnePiece(open, encrypted, s, x); var t := OnePiece(open, encrypted, r.next, y);
      OnePiece(open, encrypted, s, x + y) == Read(t.next, r.msgs + t.msgs)
  {
    hide OpenAll, ParseAll;
    if encrypted {
      var o := OpenAll(open, s.ctr, s.enc + x);
      OpenSplits(open, s.ctr, s.enc + x, y);
      assert s.enc + (x + y) == s.enc + x + y;
      var o2 := OpenAll(open, o.ctr, o.rest + y);
      ParseTwice(Inbound(o2.rest, o2.ctr, s.rx, !o2.ok), o.plain, o2.plain);
    } else {
      ParseTwice(s, x, y);
    }
  }

  lemma PieceOfNothing(open: Open, encrypted: bool, s: Inbound)
    requires Drained(encrypted, s)
    ensures OnePiece(open, encrypted, s, []) == Read(s, [])
  {
    assert s.rx + [] == s.rx;
    assert s.enc + [] == s.enc;
  }

  /** The messages the control channel delivers, their order and the state it is left in depend only on the bytes that
      arrived, not on how they were cut into reads, in plain text and encrypted alike: as long as no read failed, they
      are those of the whole stream, however long it is. */
  lemma {:induction false} DeliveryDoesNotDependOnReads(open: Open, encrypted: bool, s: Inbound, segments: seq<Bytes>)
    requires Drained(encrypted, s) && !ReadAll(open, encrypted, s, segments).next.failed
    ensures ReadAll(open, encrypted, s, segments) == OnePiece(open, encrypted, s, Concat(segments))
    decreases |segments|
  {
    hide OnRead, OnePiece, Drained;
    if segments == [] {
      PieceOfNothing(open, encrypted, s);
    } else {
      var r := OnRead(open, encrypted, s, segments[0]);
      assert !s.failed by { DrainedIsAlive(encrypted, s); }
      if r.next.failed {
        FailedStays(open, encrypted, r.next, segments[1..]);
      } else {
        OneReadIsPiece(open, encrypted, s, segments[0]);
        DeliveryDoesNotDependOnReads(open, encrypted, r.next, segments[1..]);
        PieceTwice(open, encrypted, s, segments[0], Concat(segments[1..]));
      }
    }
  }

  lemma DrainedIsAlive(encrypted: bool, s: Inbound)
    requires Drained(encrypted, s)
    ensures !s.failed
  {
  }

  // ---- End to end ----

  // t is exactly one message.
  predicate OneMessage(t: Bytes) { Complete(t).Some? && Total(t, Complete(t).value) == |t| }

  function MessageOf(t: Bytes): Message
    requires OneMessage(t)
  {
    MessageAt(t, Complete(t).value)
  }

  function MessagesOf(texts: seq<Bytes>): (r: seq<Message>)
    requires forall t :: t in texts ==> OneMessage(t)
    ensures |r| == |texts|
  {
    seq(|texts|, i requires 0 <= i < |texts| => assert texts[i] in texts; MessageOf(texts[i]))
  }

  lemma {:induction false} ConcatParses(texts: seq<Bytes>, tail: Bytes)
    requires (forall t :: t in texts ==> OneMessage(t)) && Complete(tail).None?
    ensures ParseAll(Concat(texts) + tail) == Parsed(MessagesOf(texts), tail)
    decreases |texts|
  {
    hide Complete, Total, MessageAt;
    if texts == [] {
      assert [] + tail == tail;
      NothingParses(tail);
    } else {
      assert Concat(texts) + tail == texts[0] + (Concat(texts[1..]) + tail);
      OneParses(texts[0], Concat(texts[1..]) + tail);
      ConcatParses(texts[1..], tail);
      assert MessagesOf(texts) == [MessageOf(texts[0])] + MessagesOf(texts[1..]);
    }
  }

  lemma NothingParses(tail: Bytes)
    requires Complete(tail).None?
    ensures ParseAll(tail) == Parsed([], tail)
  {
  }

  lemma OneParses(t: Bytes, y: Bytes)
    requires OneMessage(t)
    ensures ParseAll(t + y) == Then([MessageOf(t)], ParseAll(y))
  {
    hide MessageAt;
    CompleteGrows(t, y);
    assert t[|t|..] + y == y;
  }

  /** A receiver's replies arrive: whenever the frames of the stream open to well-formed texts and perhaps an incomplete
      one, however the receiver framed them, TCP cut them and however many there are, each text comes out as one
      message, in order, as long as no read overruns the cap. */
  lemma {:induction false} AuthenticRepliesArrive(open: Open, ctr: Word64, texts: seq<Bytes>, tail: Bytes,
      segments: seq<Bytes>)
    requires (forall t :: t in texts ==> OneMessage(t)) && Complete(tail).None?
    requires OpenAll(open, ctr, Concat(segments)).plain == Concat(texts) + tail
    requires !ReadAll(open, true, Inbound([], ctr, [], false), segments).next.failed
    ensures var o := OpenAll(open, ctr, Concat(segments));
      ReadAll(open, true, Inbound([], ctr, [], false), segments)
        == Read(Inbound(o.rest, o.ctr, tail, false), MessagesOf(texts))
  {
    hide OpenAll, ParseAll, OneMessage, MessagesOf, ReadAll;
    var s := Inbound([], ctr, [], false);
    ConcatParses(texts, tail);
    assert [] + Concat(segments) == Concat(segments);
    assert [] + (Concat(texts) + tail) == Concat(texts) + tail;
    StartDrained(ctr);
    DeliveryDoesNotDependOnReads(open, true, s, segments);
  }

  lemma StartDrained(ctr: Word64)
    ensures Drained(true, Inbound([], ctr, [], false))
  {
  }
}
