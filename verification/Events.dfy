/** The event channel: requests pushed by the receiver, each answered by one sealed 200. */
module Events {
  import opened Wire
  import opened Text
  import opened Framing
  import opened Rtsp

  const OK_HEAD: Bytes := Ascii("RTSP/1.0 200 OK") + CRLF + Ascii("Server: AirTunes/550.10") + CRLF
  const CSEQ_FIELD: Bytes := Ascii("CSeq: ")

  // What the answer depends on: the length of the body and the sequence number, empty if the request has none.
  datatype Fields = Fields(contentLen: int, cseq: Bytes)

  function FieldsTo(lines: seq<Bytes>, n: nat): Fields
    requires n <= |lines|
  {
    if n == 0 then Fields(0, [])
    else
      var f := FieldsTo(lines, n - 1);
      match HeaderOf(lines[n - 1])
      case None => f
      case Some(h) =>
        if h.0 == CONTENT_LENGTH then f.(contentLen := ToInt(h.1))
        else if h.0 == CSEQ then f.(cseq := h.1)
        else f
  }

  function FieldsOf(buf: Bytes, headEnd: nat): Fields
    requires headEnd <= |buf|
  {
    var lines := Split(buf[..headEnd], LF);
    FieldsTo(lines, |lines|)
  }

  function Length(buf: Bytes, headEnd: nat): nat
    requires headEnd <= |buf|
  {
    var n := FieldsOf(buf, headEnd).contentLen;
    headEnd + 4 + if n > 0 then n else 0
  }

  function Request(buf: Bytes): (r: Option<nat>)
    ensures r.Some? ==> BlankAt(buf, r.value) && Length(buf, r.value) <= |buf|
  {
    match FindBlank(buf, 0)
    case None => None
    case Some(e) => if |buf| < Length(buf, e) then None else Some(e)
  }

  // The sequence numbers of the complete requests in a buffer, and what is left.
  datatype Requests = Requests(cseqs: seq<Bytes>, rest: Bytes)

  function TakeAll(buf: Bytes): Requests
    decreases |buf|
  {
    match Request(buf)
    case None => Requests([], buf)
    case Some(e) => After([FieldsOf(buf, e).cseq], TakeAll(buf[Length(buf, e)..]))
  }

  function After(first: seq<Bytes>, r: Requests): Requests { r.(cseqs := first + r.cseqs) }

  function Response(cseq: Bytes): Bytes
  {
    OK_HEAD + (if cseq != [] then CSEQ_FIELD + cseq + CRLF else []) + CRLF
  }

  function Replies(seal: Seal, ctr: Word64, cseqs: seq<Bytes>): (out: seq<Bytes>)
    ensures |out| == |cseqs|
    decreases |cseqs|
  {
    if cseqs == [] then [] else [Frame(seal, ctr, Response(cseqs[0]))] + Replies(seal, U64(ctr + 1), cseqs[1..])
  }

  datatype State = State(enc: Bytes, recvCtr: Word64, text: Bytes, sendCtr: Word64)

  datatype Answered = Answered(next: State, out: seq<Bytes>)

  function OnRead(seal: Seal, open: Open, s: State, bytes: Bytes): Answered
  {
    var o := OpenAll(open, s.recvCtr, s.enc + bytes);
    if !o.ok then Answered(State([], o.ctr, s.text + o.plain, s.sendCtr), [])
    else AnswerText(seal, State(o.rest, o.ctr, s.text + o.plain, s.sendCtr))
  }

  function AnswerText(seal: Seal, s: State): Answered
  {
    var r := TakeAll(s.text);
    Answered(s.(text := r.rest, sendCtr := U64(s.sendCtr + |r.cseqs|)), Replies(seal, s.sendCtr, r.cseqs))
  }

  function ReadAll(seal: Seal, open: Open, s: State, segments: seq<Bytes>): Answered
    decreases |segments|
  {
    if segments == [] then Answered(s, [])
    else
      var a := OnRead(seal, open, s, segments[0]);
      var b := ReadAll(seal, open, a.next, segments[1..]);
      b.(out := a.out + b.out)
  }

  // ---- Segmentation ----

  lemma RequestGrows(x: Bytes, y: Bytes)
    requires Request(x).Some?
    ensures Request(x + y) == Request(x)
    ensures var e := Request(x).value;
      && Length(x + y, e) == Length(x, e) && FieldsOf(x + y, e) == FieldsOf(x, e)
      && (x + y)[Length(x, e)..] == x[Length(x, e)..] + y
  {
    FindBlankGrows(x, y, 0);
    assert (x + y)[..Request(x).value] == x[..Request(x).value];
  }

  lemma LengthPositive(x: Bytes, e: nat)
    requires e <= |x|
    ensures Length(x, e) > 0
  {
  }

  lemma AfterTwice(a: seq<Bytes>, b: seq<Bytes>, r: Requests)
    ensures After(a, After(b, r)) == After(a + b, r) && After([], r) == r
  {
    assert a + (b + r.cseqs) == a + b + r.cseqs;
    assert [] + r.cseqs == r.cseqs;
  }

  lemma {:induction false} TakeSplits(x: Bytes, y: Bytes)
    ensures TakeAll(x + y) == After(TakeAll(x).cseqs, TakeAll(TakeAll(x).rest + y))
    decreases |x|
  {
    hide Length, FieldsOf;
    match Request(x)
    case None => AfterTwice([], [], TakeAll(x + y));
    case Some(e) =>
      LengthPositive(x, e);
      RequestGrows(x, y);
      var tail := x[Length(x, e)..];
      TakeSplits(tail, y);
      AfterTwice([FieldsOf(x, e).cseq], TakeAll(tail).cseqs, TakeAll(TakeAll(tail).rest + y));
  }

  lemma SameCounter(ctr: Word64)
    ensures U64(ctr + 0) == ctr
  {
  }

  lemma {:induction false} RepliesSplit(seal: Seal, ctr: Word64, a: seq<Bytes>, b: seq<Bytes>)
    ensures Replies(seal, ctr, a + b) == Replies(seal, ctr, a) + Replies(seal, U64(ctr + |a|), b)
    decreases |a|
  {
    hide Frame, Response, U64;
    if a == [] {
      assert a + b == b;
      SameCounter(ctr);
    } else {
      assert (a + b)[0] == a[0] && (a + b)[1..] == a[1..] + b;
      RepliesSplit(seal, U64(ctr + 1), a[1..], b);
      CounterAdds(ctr + 1, |a| - 1);
    }
  }

  lemma AnswerTwice(seal: Seal, s: State, enc: Bytes, ctr: Word64, b: Bytes)
    ensures var x := AnswerText(seal, s);
      var y := AnswerText(seal, State(enc, ctr, x.next.text + b, x.next.sendCtr));
      AnswerText(seal, State(enc, ctr, s.text + b, s.sendCtr)) == Answered(y.next, x.out + y.out)
  {
    hide TakeAll, Replies, After;
    var p := TakeAll(s.text);
    var q := TakeAll(p.rest + b);
    TakeSplits(s.text, b);
    AfterParts(p.cseqs, q);
    RepliesSplit(seal, s.sendCtr, p.cseqs, q.cseqs);
    CounterAdds(s.sendCtr + |p.cseqs|, |q.cseqs|);
  }

  lemma AfterParts(a: seq<Bytes>, r: Requests)
    ensures After(a, r) == Requests(a + r.cseqs, r.rest)
  {
  }

  lemma ReadTwice(seal: Seal, open: Open, s: State, x: Bytes, y: Bytes)
    requires OpenAll(open, s.recvCtr, s.enc + x + y).ok
    ensures var a := OnRead(seal, open, s, x); var b := OnRead(seal, open, a.next, y);
      OnRead(seal, open, s, x + y) == Answered(b.next, a.out + b.out)
      && OpenAll(open, a.next.recvCtr, a.next.enc + y).ok
  {
    hide OpenAll, AnswerText;
    var o := OpenAll(open, s.recvCtr, s.enc + x);
    OpenSplits(open, s.recvCtr, s.enc + x, y);
    assert s.enc + (x + y) == s.enc + x + y;
    var o2 := OpenAll(open, o.ctr, o.rest + y);
    AnswerFields(seal, State(o.rest, o.ctr, s.text + o.plain, s.sendCtr));
    AnswerTwice(seal, State(o.rest, o.ctr, s.text + o.plain, s.sendCtr), o2.rest, o2.ctr, o2.plain);
    assert s.text + (o.plain + o2.plain) == s.text + o.plain + o2.plain;
  }

  lemma AnswerFields(seal: Seal, s: State)
    ensures AnswerText(seal, s).next.enc == s.enc && AnswerText(seal, s).next.recvCtr == s.recvCtr
  {
  }

  predicate Settled(s: State) { !Whole(s.enc) && Request(s.text).None? }

  lemma {:induction false} LeftoverIsIncomplete(x: Bytes)
    ensures Request(TakeAll(x).rest).None?
    decreases |x|
  {
    if Request(x).Some? {
      LengthPositive(x, Request(x).value);
      LeftoverIsIncomplete(x[Length(x, Request(x).value)..]);
    }
  }

  lemma ReadSettles(seal: Seal, open: Open, s: State, bytes: Bytes)
    requires OpenAll(open, s.recvCtr, s.enc + bytes).ok
    ensures Settled(OnRead(seal, open, s, bytes).next)
  {
    hide OpenAll, TakeAll, Whole, Request;
    var o := OpenAll(open, s.recvCtr, s.enc + bytes);
    OnlyIncompleteLeft(open, s.recvCtr, s.enc + bytes);
    LeftoverIsIncomplete(s.text + o.plain);
  }

  lemma ReadNothing(seal: Seal, open: Open, s: State)
    requires Settled(s)
    ensures OnRead(seal, open, s, []) == Answered(s, [])
  {
    assert s.enc + [] == s.enc;
    assert s.text + [] == s.text;
  }

  /** For an authentic stream the answers, their order and counters do not depend on how it was cut. */
  lemma {:induction false} AnswersDoNotDependOnReads(seal: Seal, open: Open, s: State, segments: seq<Bytes>)
    requires Settled(s) && OpenAll(open, s.recvCtr, s.enc + Concat(segments)).ok
    ensures ReadAll(seal, open, s, segments) == OnRead(seal, open, s, Concat(segments))
    decreases |segments|
  {
    hide OnRead, Settled, OpenAll;
    if segments == [] {
      ReadNothing(seal, open, s);
    } else {
      var x, y := segments[0], Concat(segments[1..]);
      assert s.enc + (x + y) == s.enc + x + y;
      ReadTwice(seal, open, s, x, y);
      OpenPrefix(open, s.recvCtr, s.enc + x, y);
      ReadSettles(seal, open, s, x);
      AnswersDoNotDependOnReads(seal, open, OnRead(seal, open, s, x).next, segments[1..]);
    }
  }

  // ---- Forged streams ----

  // How many frames a buffer makes the reader open or reject.
  function FramesIn(open: Open, ctr: Word64, buf: Bytes): (n: nat)
    ensures n <= |buf|
    decreases |buf|
  {
    if !Whole(buf) then 0
    else if OpenOne(open, ctr, buf).None? then 1
    else 1 + FramesIn(open, U64(ctr + 1), buf[Need(buf)..])
  }

  lemma {:induction false} CounterIsFrames(open: Open, ctr: Word64, buf: Bytes)
    ensures OpenAll(open, ctr, buf).ctr == U64(ctr + FramesIn(open, ctr, buf))
    decreases |buf|
  {
    if Whole(buf) && OpenOne(open, ctr, buf).Some? {
      NeedPositive(buf);
      CounterIsFrames(open, U64(ctr + 1), buf[Need(buf)..]);
      CounterAdds(ctr + 1, FramesIn(open, U64(ctr + 1), buf[Need(buf)..]));
    }
  }

  // The first frame of a rejected stream is the rejected one, or opens and leaves a rejected stream.
  lemma RejectedStep(open: Open, ctr: Word64, buf: Bytes)
    requires !OpenAll(open, ctr, buf).ok
    ensures Whole(buf) && 2 <= Need(buf) <= |buf|
    ensures var w := OpenAll(open, ctr, buf);
      match OpenOne(open, ctr, buf)
      case None => w == Opened([], buf, U64(ctr + 1), false)
      case Some(p) =>
        var t := OpenAll(open, U64(ctr + 1), buf[Need(buf)..]);
        !t.ok && w == Before(p, t) && w.rest == t.rest && w.ctr == t.ctr && w.plain == p + t.plain
  {
  }

  // What a rejected stream leaves: the rest starts with the rejected frame, and everything before it opens.
  lemma {:induction false} RejectedRest(open: Open, ctr: Word64, buf: Bytes)
    requires !OpenAll(open, ctr, buf).ok
    ensures var o := OpenAll(open, ctr, buf);
      && Whole(o.rest) && |o.rest| <= |buf| && buf[|buf| - |o.rest|..] == o.rest
      && Whole(buf) && (|buf| - |o.rest| == 0 || |buf| - |o.rest| >= Need(buf))
    decreases |buf|
  {
    hide OpenAll, Whole, Need, OpenOne, Before;
    RejectedStep(open, ctr, buf);
    if OpenOne(open, ctr, buf).Some? {
      var t := buf[Need(buf)..];
      RejectedRest(open, U64(ctr + 1), t);
      var r := OpenAll(open, U64(ctr + 1), t).rest;
      assert t[|t| - |r|..] == buf[|buf| - |r|..];
    } else {
      assert buf[0..] == buf;
    }
  }

  // Up to any point inside the rejected frame all is well, and the text is all there.
  lemma {:induction false} BeforeRejected(open: Open, ctr: Word64, buf: Bytes, n: nat)
    requires !OpenAll(open, ctr, buf).ok
    requires var r := OpenAll(open, ctr, buf).rest; |buf| - |r| <= n <= |buf| && |r| >= 2 && n < |buf| - |r| + Need(r)
    ensures var o := OpenAll(open, ctr, buf[..n]); o.ok && o.plain == OpenAll(open, ctr, buf).plain
    decreases |buf|
  {
    hide OpenAll, Whole, Need, OpenOne, Before;
    RejectedStep(open, ctr, buf);
    RejectedRest(open, ctr, buf);
    if OpenOne(open, ctr, buf).Some? {
      var t := buf[Need(buf)..];
      RejectedRest(open, U64(ctr + 1), t);
      SliceSwap(buf, Need(buf), n);
      BeforeRejected(open, U64(ctr + 1), t, n - Need(buf));
      SameFirst(open, ctr, buf, n);
      OpenFirst(open, ctr, buf[..n]);
      BeforeParts(OpenOne(open, ctr, buf).value, OpenAll(open, U64(ctr + 1), t[..n - Need(buf)]));
    } else {
      CutFrame(buf, n);
      NotWholeOpens(open, ctr, buf[..n]);
    }
  }

  lemma SliceSwap(b: Bytes, k: nat, n: nat)
    requires k <= n <= |b|
    ensures b[k..][..n - k] == b[..n][k..]
  {
  }

  lemma BeforeParts(p: Bytes, o: Opened)
    ensures Before(p, o) == Opened(p + o.plain, o.rest, o.ctr, o.ok)
  {
  }

  lemma NotWholeOpens(open: Open, ctr: Word64, buf: Bytes)
    requires !Whole(buf)
    ensures OpenAll(open, ctr, buf) == Opened([], buf, ctr, true)
  {
  }

  // The first frame is the same frame when the buffer is cut behind it.
  lemma SameFirst(open: Open, ctr: Word64, buf: Bytes, n: nat)
    requires Whole(buf) && Need(buf) <= n <= |buf|
    ensures Whole(buf[..n]) && Need(buf[..n]) == Need(buf) && OpenOne(open, ctr, buf[..n]) == OpenOne(open, ctr, buf)
  {
    WholePrefix(buf, n);
  }

  lemma WholePrefix(buf: Bytes, n: nat)
    requires Whole(buf) && Need(buf) <= n <= |buf|
    ensures Whole(buf[..n]) && Need(buf[..n]) == Need(buf)
    ensures buf[..n][2..Need(buf)] == buf[2..Need(buf)] && buf[..n][..2] == buf[..2]
  {
  }

  lemma CutFrame(buf: Bytes, n: nat)
    requires Whole(buf) && n < Need(buf) && n <= |buf|
    ensures !Whole(buf[..n])
  {
  }

  // Through the end of the rejected frame the verdict is the final one.
  lemma {:induction false} ThroughRejected(open: Open, ctr: Word64, buf: Bytes, n: nat)
    requires !OpenAll(open, ctr, buf).ok
    requires var r := OpenAll(open, ctr, buf).rest; n <= |buf| && |r| >= 2 && n >= |buf| - |r| + Need(r)
    ensures var o, w := OpenAll(open, ctr, buf[..n]), OpenAll(open, ctr, buf);
      !o.ok && o.plain == w.plain && o.ctr == w.ctr
    decreases |buf|
  {
    hide OpenAll, Whole, Need, OpenOne, Before;
    RejectedStep(open, ctr, buf);
    RejectedRest(open, ctr, buf);
    SameFirst(open, ctr, buf, n);
    if OpenOne(open, ctr, buf).Some? {
      var t := buf[Need(buf)..];
      RejectedRest(open, U64(ctr + 1), t);
      SliceSwap(buf, Need(buf), n);
      ThroughRejected(open, U64(ctr + 1), t, n - Need(buf));
      OpenFirst(open, ctr, buf[..n]);
      BeforeParts(OpenOne(open, ctr, buf).value, OpenAll(open, U64(ctr + 1), t[..n - Need(buf)]));
    } else {
      OpenRejects(open, ctr, buf[..n]);
    }
  }

  lemma OpenRejects(open: Open, ctr: Word64, buf: Bytes)
    requires Whole(buf) && OpenOne(open, ctr, buf).None?
    ensures OpenAll(open, ctr, buf) == Opened([], buf, U64(ctr + 1), false)
  {
  }

  // Nothing is lost by reading in pieces: no request is waiting for an answer, and the rejected frame ends the stream.
  predicate Harmless(s: State, o: Opened)
  {
    TakeAll(s.text + o.plain).cseqs == [] && |o.rest| >= 2 && |o.rest| == Need(o.rest)
  }

  lemma NoRequestInPrefix(x: Bytes, y: Bytes)
    requires TakeAll(x + y).cseqs == []
    ensures TakeAll(x).cseqs == [] && TakeAll(x).rest == x
  {
    TakeSplits(x, y);
    NoneTaken(x);
  }

  lemma NoneTaken(x: Bytes)
    ensures TakeAll(x).cseqs == [] ==> TakeAll(x).rest == x
  {
  }

  // Anything short of the end of the rejected frame is fine.
  lemma {:induction false} ShortIsOk(open: Open, ctr: Word64, buf: Bytes, n: nat)
    requires !OpenAll(open, ctr, buf).ok && n <= |buf|
    requires var r := OpenAll(open, ctr, buf).rest; |r| >= 2 && n < |buf| - |r| + Need(r)
    ensures OpenAll(open, ctr, buf[..n]).ok
    decreases |buf|
  {
    hide OpenAll, Whole, Need, OpenOne, Before;
    RejectedStep(open, ctr, buf);
    if n < Need(buf) {
      CutFrame(buf, n);
      NotWholeOpens(open, ctr, buf[..n]);
    } else if OpenOne(open, ctr, buf).Some? {
      var t := buf[Need(buf)..];
      RejectedRest(open, U64(ctr + 1), t);
      SliceSwap(buf, Need(buf), n);
      ShortIsOk(open, U64(ctr + 1), t, n - Need(buf));
      SameFirst(open, ctr, buf, n);
      OpenFirst(open, ctr, buf[..n]);
      BeforeParts(OpenOne(open, ctr, buf).value, OpenAll(open, U64(ctr + 1), t[..n - Need(buf)]));
    }
  }

  // A proper piece of a harmless stream is read silently and leaves a harmless stream.
  lemma HarmlessPiece(seal: Seal, open: Open, s: State, x: Bytes, y: Bytes)
    requires y != [] && !OpenAll(open, s.recvCtr, s.enc + x + y).ok
      && Harmless(s, OpenAll(open, s.recvCtr, s.enc + x + y))
    ensures var a := OnRead(seal, open, s, x);
      && Settled(a.next) && a.out == []
      && !OpenAll(open, a.next.recvCtr, a.next.enc + y).ok
      && Harmless(a.next, OpenAll(open, a.next.recvCtr, a.next.enc + y))
      && OnRead(seal, open, a.next, y) == OnRead(seal, open, s, x + y)
  {
    hide OpenAll, TakeAll, Whole, Need, Replies, Request;
    var all := s.enc + x + y;
    var w := OpenAll(open, s.recvCtr, all);
    RejectedRest(open, s.recvCtr, all);
    assert all[..|s.enc + x|] == s.enc + x;
    ShortIsOk(open, s.recvCtr, all, |s.enc + x|);
    OpenSplits(open, s.recvCtr, s.enc + x, y);
    var o := OpenAll(open, s.recvCtr, s.enc + x);
    var o2 := OpenAll(open, o.ctr, o.rest + y);
    assert s.text + (o.plain + o2.plain) == s.text + o.plain + o2.plain;
    NoRequestInPrefix(s.text + o.plain, o2.plain);
    SilentText(seal, State(o.rest, o.ctr, s.text + o.plain, s.sendCtr));
    ReadSettles(seal, open, s, x);
    assert s.enc + (x + y) == all;
  }

  lemma SilentText(seal: Seal, s: State)
    requires TakeAll(s.text).cseqs == [] && TakeAll(s.text).rest == s.text
    ensures AnswerText(seal, s) == Answered(s, [])
  {
  }

  lemma {:induction false} EmptyReads(seal: Seal, open: Open, s: State, segments: seq<Bytes>)
    requires Settled(s) && Concat(segments) == []
    ensures ReadAll(seal, open, s, segments) == Answered(s, [])
    decreases |segments|
  {
    hide OnRead, Settled;
    if segments != [] {
      assert segments[0] == [] && Concat(segments[1..]) == [];
      ReadNothing(seal, open, s);
      EmptyReads(seal, open, s, segments[1..]);
    }
  }

  lemma RejectedSettles(seal: Seal, open: Open, s: State, d: Bytes)
    requires !OpenAll(open, s.recvCtr, s.enc + d).ok && Harmless(s, OpenAll(open, s.recvCtr, s.enc + d))
    ensures Settled(OnRead(seal, open, s, d).next) && OnRead(seal, open, s, d).out == []
  {
    hide OpenAll, TakeAll, Request;
    EmptyIsIncomplete();
    NoRequestLeft(s.text + OpenAll(open, s.recvCtr, s.enc + d).plain);
  }

  lemma NoRequestLeft(x: Bytes)
    ensures TakeAll(x).cseqs == [] ==> Request(x).None?
  {
  }

  lemma {:induction false} HarmlessAgrees(seal: Seal, open: Open, s: State, segments: seq<Bytes>)
    requires Settled(s) && !OpenAll(open, s.recvCtr, s.enc + Concat(segments)).ok
    requires Harmless(s, OpenAll(open, s.recvCtr, s.enc + Concat(segments)))
    ensures ReadAll(seal, open, s, segments) == OnRead(seal, open, s, Concat(segments))
    decreases |segments|
  {
    hide OpenAll, Harmless, Settled;
    if segments == [] {
      NothingOpens(open, s);
    } else {
      hide OnRead;
      var x, y := segments[0], Concat(segments[1..]);
      assert s.enc + (x + y) == s.enc + x + y;
      if y == [] {
        assert x + y == x;
        RejectedSettles(seal, open, s, x);
        EmptyReads(seal, open, OnRead(seal, open, s, x).next, segments[1..]);
      } else {
        HarmlessPiece(seal, open, s, x, y);
        HarmlessAgrees(seal, open, OnRead(seal, open, s, x).next, segments[1..]);
      }
    }
  }

  lemma NothingOpens(open: Open, s: State)
    requires Settled(s)
    ensures OpenAll(open, s.recvCtr, s.enc + []).ok
  {
    assert s.enc + [] == s.enc;
  }

  lemma OneRead(seal: Seal, open: Open, s: State, y: Bytes)
    ensures Concat([y]) == y && ReadAll(seal, open, s, [y]) == OnRead(seal, open, s, y)
  {
    hide OnRead;
    assert [y][1..] == [] && y + [] == y;
    var b := OnRead(seal, open, s, y);
    assert ReadAll(seal, open, b.next, []) == Answered(b.next, []);
    assert b.out + [] == b.out;
  }

  lemma TwoReads(seal: Seal, open: Open, s: State, x: Bytes, y: Bytes)
    ensures Concat([x, y]) == x + y
    ensures var a := OnRead(seal, open, s, x); var b := OnRead(seal, open, a.next, y);
      ReadAll(seal, open, s, [x, y]) == Answered(b.next, a.out + b.out)
  {
    hide OnRead;
    assert [x, y][1..] == [y];
    OneRead(seal, open, OnRead(seal, open, s, x).next, y);
  }

  // The rejected frame ends after the bytes that were already waiting.
  lemma RejectedAfterWaiting(open: Open, s: State, d: Bytes)
    requires Settled(s) && !OpenAll(open, s.recvCtr, s.enc + d).ok
    ensures var r := OpenAll(open, s.recvCtr, s.enc + d).rest; var all := s.enc + d;
      |r| >= 2 && |s.enc| < |all| - |r| + Need(r) <= |all|
  {
    hide OpenAll;
    var all := s.enc + d;
    RejectedRest(open, s.recvCtr, all);
    var r := OpenAll(open, s.recvCtr, all).rest;
    NeedPositive(r);
  }

  // Cut right before the rejected frame, the requests are answered.
  lemma {:induction false} CutBefore(seal: Seal, open: Open, s: State, d: Bytes) returns (x: Bytes, y: Bytes)
    requires Settled(s) && !OpenAll(open, s.recvCtr, s.enc + d).ok
    requires TakeAll(s.text + OpenAll(open, s.recvCtr, s.enc + d).plain).cseqs != []
    ensures d == x + y && OnRead(seal, open, s, x).out != []
  {
    hide OpenAll, TakeAll, Settled, AnswerText;
    var all := s.enc + d;
    var r := OpenAll(open, s.recvCtr, all).rest;
    RejectedAfterWaiting(open, s, d);
    RejectedRest(open, s.recvCtr, all);
    var n := if |all| - |r| > |s.enc| then |all| - |r| else |s.enc|;
    BeforeRejected(open, s.recvCtr, all, n);
    x, y := d[..n - |s.enc|], d[n - |s.enc|..];
    assert s.enc + x == all[..n];
    var o := OpenAll(open, s.recvCtr, s.enc + x);
    AnswersSome(seal, State(o.rest, o.ctr, s.text + o.plain, s.sendCtr));
  }

  lemma AnswersSome(seal: Seal, s: State)
    requires TakeAll(s.text).cseqs != []
    ensures AnswerText(seal, s).out != []
  {
    hide TakeAll;
  }

  // Cut right behind the rejected frame, the bytes after it are no longer dropped.
  lemma CutBehind(seal: Seal, open: Open, s: State, d: Bytes) returns (x: Bytes, y: Bytes)
    requires Settled(s) && !OpenAll(open, s.recvCtr, s.enc + d).ok && |d| < TWO_64
    requires |OpenAll(open, s.recvCtr, s.enc + d).rest| >= 2
    requires |OpenAll(open, s.recvCtr, s.enc + d).rest| != Need(OpenAll(open, s.recvCtr, s.enc + d).rest)
    ensures d == x + y && OnRead(seal, open, OnRead(seal, open, s, x).next, y).next != OnRead(seal, open, s, d).next
  {
    hide OpenAll, TakeAll, Settled, Need, Replies;
    var all := s.enc + d;
    var o := OpenAll(open, s.recvCtr, all);
    RejectedAfterWaiting(open, s, d);
    RejectedRest(open, s.recvCtr, all);
    var n := |all| - |o.rest| + Need(o.rest);
    ThroughRejected(open, s.recvCtr, all, n);
    x, y := d[..n - |s.enc|], d[n - |s.enc|..];
    assert s.enc + x == all[..n];
    var s1 := State([], o.ctr, s.text + o.plain, s.sendCtr);
    assert OnRead(seal, open, s, x).next == s1;
    assert [] + y == y;
    TailMatters(seal, open, s1, y);
  }

  lemma TailMatters(seal: Seal, open: Open, s: State, y: Bytes)
    requires s.enc == [] && 0 < |y| < TWO_64
    ensures OnRead(seal, open, s, y).next.enc != [] || OnRead(seal, open, s, y).next.recvCtr != s.recvCtr
  {
    hide TakeAll, Replies, OpenAll, Whole;
    assert s.enc + y == y;
    OpenMovesOn(open, s.recvCtr, y);
  }

  // Reading something leaves an incomplete frame, or moves the counter.
  lemma OpenMovesOn(open: Open, ctr: Word64, y: Bytes)
    requires 0 < |y| < TWO_64
    ensures var o := OpenAll(open, ctr, y); (o.ok && o.rest != []) || o.ctr != ctr
  {
    hide OpenAll, Whole, U64;
    if Whole(y) {
      CounterIsFrames(open, ctr, y);
      SomeFrames(open, ctr, y);
      CounterMoves(ctr, FramesIn(open, ctr, y));
    } else {
      NotWholeOpens(open, ctr, y);
    }
  }

  lemma SomeFrames(open: Open, ctr: Word64, y: Bytes)
    requires Whole(y)
    ensures FramesIn(open, ctr, y) > 0
  {
  }

  lemma CounterMoves(ctr: Word64, n: nat)
    requires 0 < n < TWO_64
    ensures U64(ctr + n) != ctr
  {
  }

  ghost predicate CutsAgree(seal: Seal, open: Open, s: State, d: Bytes)
  {
    forall segments :: Concat(segments) == d ==> ReadAll(seal, open, s, segments) == OnRead(seal, open, s, d)
  }

  /** Exactly when reads do not matter on the event channel: every way of cutting a stream gives the answers and the
      state of one read if and only if all its frames are authentic, or the rejected one is the last thing in it and no
      request before it is complete. */
  lemma CutsAgreeExactly(seal: Seal, open: Open, s: State, d: Bytes)
    requires Settled(s) && |d| < TWO_64
    ensures CutsAgree(seal, open, s, d)
      <==> OpenAll(open, s.recvCtr, s.enc + d).ok || Harmless(s, OpenAll(open, s.recvCtr, s.enc + d))
  {
    hide OpenAll, Settled, OnRead, ReadAll, Need;
    var o := OpenAll(open, s.recvCtr, s.enc + d);
    if o.ok || Harmless(s, o) {
      hide Harmless;
      forall segments | Concat(segments) == d ensures ReadAll(seal, open, s, segments) == OnRead(seal, open, s, d) {
        if o.ok {
          AnswersDoNotDependOnReads(seal, open, s, segments);
        } else {
          HarmlessAgrees(seal, open, s, segments);
        }
      }
    } else {
      RejectedAfterWaiting(open, s, d);
      var x, y;
      if TakeAll(s.text + o.plain).cseqs != [] {
        x, y := CutBefore(seal, open, s, d);
        TwoReads(seal, open, s, x, y);
        RejectedIsSilent(seal, open, s, d);
      } else {
        x, y := CutBehind(seal, open, s, d);
        TwoReads(seal, open, s, x, y);
      }
      assert ReadAll(seal, open, s, [x, y]) != OnRead(seal, open, s, d);
    }
  }

  lemma RejectedIsSilent(seal: Seal, open: Open, s: State, d: Bytes)
    requires !OpenAll(open, s.recvCtr, s.enc + d).ok
    ensures OnRead(seal, open, s, d).out == []
  {
    hide OpenAll;
  }

  /** What a forged frame costs: read in one piece with it, the requests that came before it get no answer; read by
      themselves first, they do. */
  lemma ForgeryDropsAnswers(seal: Seal, open: Open, s: State, x: Bytes, y: Bytes)
    requires OpenAll(open, s.recvCtr, s.enc + x).ok && !OpenAll(open, s.recvCtr, s.enc + x + y).ok
    ensures OnRead(seal, open, s, x + y).out == []
    ensures var a := OnRead(seal, open, s, x);
      a.out == Replies(seal, s.sendCtr, TakeAll(s.text + OpenAll(open, s.recvCtr, s.enc + x).plain).cseqs)
      && OnRead(seal, open, a.next, y).out == []
  {
    hide OpenAll;
    OpenSplits(open, s.recvCtr, s.enc + x, y);
    assert s.enc + (x + y) == s.enc + x + y;
  }

  // ---- A forged stream ----

  // A cipher for the example: the tag is sixteen zeros.
  function ZeroTag(): Bytes { seq(16, _ => 0) }
  function PlainSeal(n: Bytes, p: Bytes, a: Bytes): Bytes { p + ZeroTag() }
  function PlainOpen(n: Bytes, c: Bytes, a: Bytes): Option<Bytes>
  {
    if |c| >= 16 && c[|c| - 16..] == ZeroTag() then Some(c[..|c| - 16]) else None
  }

  const BARE: Bytes := [CR, LF, CR, LF]
  const FORGED: Bytes := [0, 0] + seq(16, _ => 1)

  lemma PlainMatches()
    ensures Matching(PlainSeal, PlainOpen)
  {
    forall n: Bytes, p: Bytes, a: Bytes
      ensures |PlainSeal(n, p, a)| == |p| + TAG && PlainOpen(n, PlainSeal(n, p, a), a) == Some(p) {
      assert (p + ZeroTag())[|p|..] == ZeroTag() && (p + ZeroTag())[..|p|] == p;
    }
  }

  lemma BareRequest()
    ensures TakeAll(BARE) == Requests([[]], [])
  {
    assert BARE[..0] == [] && SplitFrom([], LF, 0) == [[]];
    assert FieldsTo([[]], 1) == Fields(0, []);
    assert Request(BARE) == Some(0);
    assert TakeAll(BARE[4..]) == Requests([], []);
  }

  lemma ForgedFrame(ctr: Word64)
    ensures !OpenAll(PlainOpen, ctr, FORGED).ok && OpenAll(PlainOpen, ctr, FORGED).plain == []
  {
    hide OpenAll;
    ForgedTag();
    OpenRejects(PlainOpen, ctr, FORGED);
  }

  lemma ForgedTag()
    ensures |FORGED| == 18 && Whole(FORGED) && Need(FORGED) == 18
    ensures forall n, a :: PlainOpen(n, FORGED[2..18], a).None?
  {
    var c := FORGED[2..18];
    assert c[|c| - 16..][0] == 1;
    assert ZeroTag()[0] == 0;
  }

  /** A forged stream on which reads matter: a request and then a forged frame. In one read nothing is answered; with
      the request read first, it is. */
  lemma ForgedStream(s: State)
    requires s == State([], 0, [], 0)
    ensures var x := Frame(PlainSeal, 0, BARE);
      && Matching(PlainSeal, PlainOpen)
      && OnRead(PlainSeal, PlainOpen, s, x + FORGED).out == []
      && |OnRead(PlainSeal, PlainOpen, s, x).out| == 1
      && |ReadAll(PlainSeal, PlainOpen, s, [x, FORGED]).out| >= 1
      && !CutsAgree(PlainSeal, PlainOpen, s, x + FORGED)
  {
    hide OpenAll, TakeAll, Matching, Whole, Need, OpenOne, Frame;
    var x := Frame(PlainSeal, 0, BARE);
    PlainMatches();
    BareRequest();
    FrameOpens(PlainSeal, PlainOpen, 0, BARE, FORGED);
    OpenFirst(PlainOpen, 0, x + FORGED);
    ForgedFrame(1);
    assert [] + (x + FORGED) == x + FORGED;
    FrameOpens(PlainSeal, PlainOpen, 0, BARE, []);
    assert x + [] == x;
    OpenFirst(PlainOpen, 0, x);
    OpenNothing(PlainOpen, 1);
    assert [] + x == x && BARE + [] == BARE && [] + BARE == BARE;
    TwoReads(PlainSeal, PlainOpen, s, x, FORGED);
  }

  // ---- End to end ----

  predicate OneRequest(t: Bytes) { Request(t).Some? && Length(t, Request(t).value) == |t| }

  function CSeqOf(t: Bytes): Bytes
    requires OneRequest(t)
  {
    FieldsOf(t, Request(t).value).cseq
  }

  function CSeqs(texts: seq<Bytes>): (r: seq<Bytes>)
    requires forall t :: t in texts ==> OneRequest(t)
    ensures |r| == |texts|
  {
    seq(|texts|, i requires 0 <= i < |texts| => assert texts[i] in texts; CSeqOf(texts[i]))
  }

  lemma OneTaken(t: Bytes, y: Bytes)
    requires OneRequest(t)
    ensures TakeAll(t + y) == After([CSeqOf(t)], TakeAll(y))
  {
    hide FieldsOf;
    RequestGrows(t, y);
    assert t[|t|..] + y == y;
  }

  lemma {:induction false} ConcatTaken(texts: seq<Bytes>, tail: Bytes)
    requires (forall t :: t in texts ==> OneRequest(t)) && Request(tail).None?
    ensures TakeAll(Concat(texts) + tail) == Requests(CSeqs(texts), tail)
    decreases |texts|
  {
    hide OneRequest, TakeAll, CSeqOf, Request;
    if texts == [] {
      assert [] + tail == tail;
      NothingTaken(tail);
    } else {
      assert Concat(texts) + tail == texts[0] + (Concat(texts[1..]) + tail);
      OneTaken(texts[0], Concat(texts[1..]) + tail);
      ConcatTaken(texts[1..], tail);
      assert CSeqs(texts) == [CSeqOf(texts[0])] + CSeqs(texts[1..]);
    }
  }

  lemma NothingTaken(tail: Bytes)
    requires Request(tail).None?
    ensures TakeAll(tail) == Requests([], tail)
  {
  }

  /** Keep-alive: whenever the frames of the stream are authentic and open to complete requests and perhaps an
      incomplete one, however the receiver framed them and TCP cut them, exactly one sealed 200 goes out per request, in
      order, echoing its CSeq, under consecutive counters. */
  lemma {:induction false} EveryRequestAnswered(seal: Seal, open: Open, recvCtr: Word64, sendCtr: Word64,
                             texts: seq<Bytes>, tail: Bytes, segments: seq<Bytes>)
    requires (forall t :: t in texts ==> OneRequest(t)) && Request(tail).None?
    requires OpenAll(open, recvCtr, Concat(segments)).ok
    requires OpenAll(open, recvCtr, Concat(segments)).plain == Concat(texts) + tail
    ensures var o := OpenAll(open, recvCtr, Concat(segments));
      ReadAll(seal, open, State([], recvCtr, [], sendCtr), segments)
      == Answered(State(o.rest, o.ctr, tail, U64(sendCtr + |texts|)), Replies(seal, sendCtr, CSeqs(texts)))
  {
    hide OpenAll, TakeAll, OneRequest, CSeqs, Replies, Request, ReadAll, AnswerText, Settled;
    var s := State([], recvCtr, [], sendCtr);
    ConcatTaken(texts, tail);
    var o := OpenAll(open, recvCtr, Concat(segments));
    AnswerIs(seal, State(o.rest, o.ctr, Concat(texts) + tail, sendCtr), CSeqs(texts), tail);
    assert [] + Concat(segments) == Concat(segments);
    assert [] + (Concat(texts) + tail) == Concat(texts) + tail;
    StartSettled(recvCtr, sendCtr);
    AnswersDoNotDependOnReads(seal, open, s, segments);
  }

  lemma AnswerIs(seal: Seal, s: State, cseqs: seq<Bytes>, tail: Bytes)
    requires TakeAll(s.text) == Requests(cseqs, tail)
    ensures AnswerText(seal, s)
      == Answered(State(s.enc, s.recvCtr, tail, U64(s.sendCtr + |cseqs|)), Replies(seal, s.sendCtr, cseqs))
  {
    hide TakeAll, Replies;
  }

  lemma StartSettled(recvCtr: Word64, sendCtr: Word64)
    ensures Settled(State([], recvCtr, [], sendCtr))
  {
  }

  function Responses(cseqs: seq<Bytes>): Bytes
  {
    if cseqs == [] then [] else Response(cseqs[0]) + Responses(cseqs[1..])
  }

  /** The receiver can read the answers: with responses of at most 65535 bytes the sealed frames open, under the
      counters it expects, to exactly the responses. */
  lemma {:induction false} ReceiverReadsAnswers(seal: Seal, theirOpen: Open, ctr: Word64, cseqs: seq<Bytes>)
    requires Matching(seal, theirOpen) && forall c :: c in cseqs ==> |Response(c)| < TWO_16
    ensures OpenAll(theirOpen, ctr, Concat(Replies(seal, ctr, cseqs)))
         == Opened(Responses(cseqs), [], U64(ctr + |cseqs|), true)
    decreases |cseqs|
  {
    hide Matching, Response, Frame, Need, OpenOne, Whole, U64, OpenAll;
    if cseqs == [] {
      OpenNothing(theirOpen, ctr);
    } else {
      var tail := Concat(Replies(seal, U64(ctr + 1), cseqs[1..]));
      var f := Frame(seal, ctr, Response(cseqs[0]));
      assert Concat(Replies(seal, ctr, cseqs)) == f + tail;
      FrameOpens(seal, theirOpen, ctr, Response(cseqs[0]), tail);
      OpenFirst(theirOpen, ctr, f + tail);
      ReceiverReadsAnswers(seal, theirOpen, U64(ctr + 1), cseqs[1..]);
      CounterAdds(ctr + 1, |cseqs| - 1);
    }
  }
}
