/** The two encrypted channels as the sender keeps them: buffers and counters changed in place by read and write. */
module Channels {
  import opened Wire
  import opened Text
  import opened Framing
  import Rtsp
  import Events

  method CounterNonce(ctr: Word64) returns (n: Bytes)
    ensures n == Nonce(ctr)
  {
    n := [];
    var i := 0;
    while i < 8
      invariant i <= 8 && n == Nonce(ctr)[..i]
    {
      n := n + [Shr8(ctr, i) % 256];
      i := i + 1;
    }
  }

  lemma FramesFrom(seal: Seal, ctr: Word64, data: Bytes, off: nat)
    requires off < |data|
    ensures var n := Min(CHUNK, |data| - off);
      && Frames(seal, ctr, data[off..])
         == Frame(seal, ctr, data[off..off + n]) + Frames(seal, U64(ctr + 1), data[off + n..])
      && U64(U64(ctr + 1) + FrameCount(|data| - off - n)) == U64(ctr + FrameCount(|data| - off))
  {
    var n := Min(CHUNK, |data| - off);
    assert data[off..][..n] == data[off..off + n] && data[off..][n..] == data[off + n..];
    OneFrameMore(ctr, |data| - off);
  }

  class ControlChannel {
    var encrypted: bool
    var sendCtr: Word64
    var encBuf: Bytes
    var recvCtr: Word64
    var rxBuf: Bytes
    var failed: bool

    ghost function Inbound(): Rtsp.Inbound
      reads this
    {
      Rtsp.Inbound(encBuf, recvCtr, rxBuf, failed)
    }

    // One frame under the next counter.
    method SealFrame(seal: Seal, chunk: Bytes) returns (frame: Bytes)
      modifies this`sendCtr
      ensures frame == Frame(seal, old(sendCtr), chunk) && sendCtr == U64(old(sendCtr) + 1)
    {
      hide Nonce;
      var lp := LengthField(|chunk|);
      var nonce := CounterNonce(sendCtr);
      sendCtr := U64(sendCtr + 1);
      var ct := seal(nonce, chunk, lp);
      frame := lp + ct;
    }

    // The bytes handed to the socket for one message.
    method WriteRtsp(seal: Seal, data: Bytes) returns (out: Bytes)
      modifies this`sendCtr
      ensures out == if encrypted then Frames(seal, old(sendCtr), data) else data
      ensures sendCtr == if encrypted then U64(old(sendCtr) + FrameCount(|data|)) else old(sendCtr)
    {
      hide Frame, U64, FrameCount, Frames;
      if !encrypted { return data; }
      out := [];
      var off := 0;
      assert data[0..] == data;
      while off < |data|
        invariant off <= |data|
        invariant out + Frames(seal, sendCtr, data[off..]) == Frames(seal, old(sendCtr), data)
        invariant U64(sendCtr + FrameCount(|data| - off)) == U64(old(sendCtr) + FrameCount(|data|))
      {
        FramesFrom(seal, sendCtr, data, off);
        var len := Min(CHUNK, |data| - off);
        var frame := SealFrame(seal, data[off..off + len]);
        assert out + (frame + Frames(seal, sendCtr, data[off + len..]))
          == out + frame + Frames(seal, sendCtr, data[off + len..]);
        out := out + frame;
        off := off + len;
      }
      NoFramesLeft(seal, sendCtr);
      assert data[off..] == [];
    }

    // Moves the text of whole frames from encBuf to rxBuf.
    method OpenFrames(open: Open) returns (ok: bool)
      modifies this`encBuf, this`recvCtr, this`rxBuf
      ensures var o := OpenAll(open, old(recvCtr), old(encBuf));
        ok == o.ok && encBuf == o.rest && recvCtr == o.ctr && rxBuf == old(rxBuf) + o.plain
    {
      hide OpenAll, Nonce, U64;
      ghost var o := OpenAll(open, recvCtr, encBuf);
      ghost var got: Bytes := [];
      BeforeNothing(o);
      assert rxBuf + [] == rxBuf;
      while Whole(encBuf)
        invariant Before(got, OpenAll(open, recvCtr, encBuf)) == o && rxBuf == old(rxBuf) + got
        decreases |encBuf|
      {
        OpenStep(open, recvCtr, encBuf);
        var need := Need(encBuf);
        var nonce := CounterNonce(recvCtr);
        var dec := open(nonce, encBuf[2..need], encBuf[..2]);
        recvCtr := U64(recvCtr + 1);
        if dec.None? {
          assert got + [] == got;
          return false;
        }
        BeforeTwice(got, dec.value, OpenAll(open, recvCtr, encBuf[need..]));
        got := got + dec.value;
        rxBuf := rxBuf + dec.value;
        encBuf := encBuf[need..];
      }
      OpenStep(open, recvCtr, encBuf);
      assert got + [] == got;
      return true;
    }

    // Takes complete messages off rxBuf, until one of them, the last of the quota, ends the session.
    method ParseReplies(quota: nat) returns (msgs: seq<Rtsp.Message>)
      modifies this`rxBuf
      ensures Rtsp.Parsed(msgs, rxBuf) == Rtsp.ParseSome(old(rxBuf), quota)
    {
      hide Rtsp.Complete, Rtsp.Total, Rtsp.MessageAt, Rtsp.ParseSome;
      msgs := [];
      ghost var all := Rtsp.ParseSome(rxBuf, quota);
      Rtsp.ThenTwice([], [], all);
      while |msgs| < quota
        invariant |msgs| <= quota && Rtsp.Then(msgs, Rtsp.ParseSome(rxBuf, quota - |msgs|)) == all
        decreases |rxBuf|
      {
        var m, total := FirstMessage(rxBuf);
        ParseStep(rxBuf, quota - |msgs|);
        if m.None? {
          assert msgs + [] == msgs;
          return;
        }
        Rtsp.ThenTwice(msgs, [m.value], Rtsp.ParseSome(rxBuf[total..], quota - |msgs| - 1));
        rxBuf := rxBuf[total..];
        msgs := msgs + [m.value];
      }
      ParseStep(rxBuf, 0);
      assert msgs + [] == msgs;
    }

    // One read; `quota` says after how many messages the session is over.
    method OnReadable(open: Open, bytes: Bytes, quota: nat) returns (msgs: seq<Rtsp.Message>)
      modifies this
      ensures encrypted == old(encrypted) && sendCtr == old(sendCtr)
      ensures Rtsp.Read(Inbound(), msgs) == Rtsp.OnReadUntil(open, encrypted, old(Inbound()), bytes, quota)
    {
      hide OpenAll, Rtsp.ParseAll, Rtsp.ParseSome;
      if failed { return []; }
      if !encrypted {
        rxBuf := rxBuf + bytes;
      } else {
        encBuf := encBuf + bytes;
        var ok := OpenFrames(open);
        if !ok {
          failed := true;
          return [];
        }
      }
      if |rxBuf| > Rtsp.RX_CAP {
        failed := true;
        return [];
      }
      msgs := ParseReplies(quota);
    }
  }

  lemma NoFramesLeft(seal: Seal, ctr: Word64)
    ensures Frames(seal, ctr, []) == [] && U64(ctr + FrameCount(0)) == ctr
  {
  }

  lemma OpenStep(open: Open, ctr: Word64, buf: Bytes)
    ensures !Whole(buf) ==> OpenAll(open, ctr, buf) == Opened([], buf, ctr, true)
    ensures Whole(buf) ==> 2 <= Need(buf) <= |buf|
    ensures Whole(buf) ==>
      var one := open(Nonce(ctr), buf[2..Need(buf)], buf[..2]);
      if one.None? then OpenAll(open, ctr, buf) == Opened([], buf, U64(ctr + 1), false)
      else OpenAll(open, ctr, buf) == Before(one.value, OpenAll(open, U64(ctr + 1), buf[Need(buf)..]))
  {
  }

  lemma ParseStep(buf: Bytes, q: nat)
    ensures q == 0 || Rtsp.Complete(buf).None? ==> Rtsp.ParseSome(buf, q) == Rtsp.Parsed([], buf)
    ensures q > 0 && Rtsp.Complete(buf).Some? ==>
      var e := Rtsp.Complete(buf).value;
      Rtsp.ParseSome(buf, q) == Rtsp.Then([Rtsp.MessageAt(buf, e)], Rtsp.ParseSome(buf[Rtsp.Total(buf, e)..], q - 1))
  {
  }

  // The first message of the buffer and its size, once all of it is there.
  method FirstMessage(buf: Bytes) returns (m: Option<Rtsp.Message>, total: nat)
    ensures m.Some? <==> Rtsp.Complete(buf).Some?
    ensures m.Some? ==>
      var e := Rtsp.Complete(buf).value;
      m.value == Rtsp.MessageAt(buf, e) && total == Rtsp.Total(buf, e) && 0 < total <= |buf|
  {
    hide Rtsp.ContentLength, Split, Trim, Rtsp.FindBlank, Rtsp.HeadersTo;
    total := 0;
    var headEnd := Rtsp.FindBlank(buf, 0);
    if headEnd.None? { return None, 0; }
    HeadFits(buf);
    var e := headEnd.value;
    var lines := SplitOn(buf[..e], LF);
    var headers := ParseHeaders(lines);
    var contentLen := Rtsp.ContentLength(headers);
    if |buf| < e + 4 + contentLen { return None, 0; }
    total := e + 4 + contentLen;
    var status := TrimAscii(lines[0]);
    m := Some(Rtsp.Message(status, headers, buf[e + 4..total]));
  }

  lemma HeadFits(buf: Bytes)
    ensures Rtsp.FindBlank(buf, 0).Some? ==> Rtsp.FindBlank(buf, 0).value + 4 <= |buf|
  {
  }

  method ParseHeaderLine(line: Bytes) returns (field: Option<(Bytes, Bytes)>)
    ensures field == Rtsp.HeaderOf(line)
  {
    hide Trim, IndexOf;
    var t := TrimAscii(line);
    var colon := IndexOf(t, COLON, 0);
    if colon == |t| || colon == 0 { return None; }
    var key := TrimAscii(Lower(t[..colon]));
    var value := TrimAscii(t[colon + 1..]);
    return Some((key, value));
  }

  method ParseHeaders(lines: seq<Bytes>) returns (h: Rtsp.HeaderMap)
    requires |lines| > 0
    ensures h == Rtsp.HeadersTo(lines, |lines|)
  {
    hide Rtsp.HeaderOf;
    h := map[];
    var i := 1;
    while i < |lines|
      invariant 1 <= i <= |lines| && h == Rtsp.HeadersTo(lines, i)
    {
      var field := ParseHeaderLine(lines[i]);
      if field.Some? { h := h[field.value.0 := field.value.1]; }
      i := i + 1;
    }
  }

  class EventChannel {
    var encBuf: Bytes
    var recvCtr: Word64
    var plainBuf: Bytes
    var sendCtr: Word64

    ghost function State(): Events.State
      reads this
    {
      Events.State(encBuf, recvCtr, plainBuf, sendCtr)
    }

    method OpenFrames(open: Open) returns (ok: bool)
      modifies this`encBuf, this`recvCtr, this`plainBuf
      ensures var o := OpenAll(open, old(recvCtr), old(encBuf));
        ok == o.ok && encBuf == (if o.ok then o.rest else []) && recvCtr == o.ctr && plainBuf == old(plainBuf) + o.plain
    {
      hide OpenAll, Nonce, U64;
      ghost var o := OpenAll(open, recvCtr, encBuf);
      ghost var got: Bytes := [];
      BeforeNothing(o);
      assert plainBuf + [] == plainBuf;
      while Whole(encBuf)
        invariant Before(got, OpenAll(open, recvCtr, encBuf)) == o && plainBuf == old(plainBuf) + got
        decreases |encBuf|
      {
        OpenStep(open, recvCtr, encBuf);
        var need := Need(encBuf);
        var nonce := CounterNonce(recvCtr);
        var dec := open(nonce, encBuf[2..need], encBuf[..2]);
        recvCtr := U64(recvCtr + 1);
        if dec.None? {
          assert got + [] == got;
          encBuf := [];
          return false;
        }
        BeforeTwice(got, dec.value, OpenAll(open, recvCtr, encBuf[need..]));
        got := got + dec.value;
        plainBuf := plainBuf + dec.value;
        encBuf := encBuf[need..];
      }
      OpenStep(open, recvCtr, encBuf);
      assert got + [] == got;
      return true;
    }

    // One sealed answer for every complete request in plainBuf.
    method AnswerRequests(seal: Seal) returns (out: seq<Bytes>)
      modifies this`plainBuf, this`sendCtr
      ensures Events.Answered(State(), out) == Events.AnswerText(seal, old(State()))
    {
      hide Events.Length, Split, Trim, Rtsp.FindBlank, Events.FieldsTo, U64, Frame, Events.Response, Events.TakeAll,
        Events.Replies;
      out := [];
      ghost var all := Events.TakeAll(plainBuf);
      ghost var cseqs: seq<Bytes> := [];
      Events.AfterTwice([], [], all);
      AnsweredSoFar(seal, sendCtr);
      while true
        invariant Events.After(cseqs, Events.TakeAll(plainBuf)) == all
        invariant out == Events.Replies(seal, old(sendCtr), cseqs) && sendCtr == U64(old(sendCtr) + |cseqs|)
        decreases |plainBuf|
      {
        var headEnd := Rtsp.FindBlank(plainBuf, 0);
        TakeStep(plainBuf);
        HeadFits(plainBuf);
        if headEnd.None? {
          assert cseqs + [] == cseqs;
          return;
        }
        var e := headEnd.value;
        var lines := SplitOn(plainBuf[..e], LF);
        var f := ParseFields(lines);
        var total := e + 4 + (if f.contentLen > 0 then f.contentLen else 0);
        LengthIs(plainBuf, e);
        if |plainBuf| < total {
          assert cseqs + [] == cseqs;
          return;
        }
        Events.AfterTwice(cseqs, [f.cseq], Events.TakeAll(plainBuf[total..]));
        plainBuf := plainBuf[total..];
        var resp := Events.Response(f.cseq);
        var lp := LengthField(|resp|);
        var nonce := CounterNonce(sendCtr);
        var sealed := seal(nonce, resp, lp);
        NextReply(seal, old(sendCtr), cseqs, f.cseq);
        sendCtr := U64(sendCtr + 1);
        FrameIs(seal, nonce, resp, lp, U64(old(sendCtr) + |cseqs|));
        out := out + [lp + sealed];
        cseqs := cseqs + [f.cseq];
      }
    }

    method OnReadable(seal: Seal, open: Open, bytes: Bytes) returns (out: seq<Bytes>)
      modifies this
      ensures Events.Answered(State(), out) == Events.OnRead(seal, open, old(State()), bytes)
    {
      hide OpenAll, Events.AnswerText;
      encBuf := encBuf + bytes;
      var ok := OpenFrames(open);
      if !ok { return []; }
      out := AnswerRequests(seal);
    }
  }

  lemma AnsweredSoFar(seal: Seal, ctr: Word64)
    ensures Events.Replies(seal, ctr, []) == [] && U64(ctr + 0) == ctr
  {
  }

  lemma FrameIs(seal: Seal, nonce: Bytes, text: Bytes, lp: Bytes, ctr: Word64)
    requires nonce == Nonce(ctr) && lp == LengthField(|text|)
    ensures Frame(seal, ctr, text) == lp + seal(nonce, text, lp)
  {
  }

  lemma NextReply(seal: Seal, ctr: Word64, cseqs: seq<Bytes>, c: Bytes)
    ensures Events.Replies(seal, ctr, cseqs + [c])
         == Events.Replies(seal, ctr, cseqs) + [Frame(seal, U64(ctr + |cseqs|), Events.Response(c))]
    ensures U64(U64(ctr + |cseqs|) + 1) == U64(ctr + (|cseqs| + 1))
  {
    hide Frame, Events.Response;
    Events.RepliesSplit(seal, ctr, cseqs, [c]);
    CounterAdds(ctr + |cseqs|, 1);
  }

  lemma TakeStep(buf: Bytes)
    ensures Events.Request(buf).None? ==> Events.TakeAll(buf) == Events.Requests([], buf)
    ensures Events.Request(buf).Some? ==>
      var e := Events.Request(buf).value;
      Events.TakeAll(buf) == Events.After([Events.FieldsOf(buf, e).cseq], Events.TakeAll(buf[Events.Length(buf, e)..]))
  {
  }

  lemma LengthIs(buf: Bytes, e: nat)
    requires e <= |buf|
    ensures var n := Events.FieldsOf(buf, e).contentLen;
      Events.Length(buf, e) == e + 4 + if n > 0 then n else 0
  {
  }

  method ParseFields(lines: seq<Bytes>) returns (f: Events.Fields)
    ensures f == Events.FieldsTo(lines, |lines|)
  {
    hide Rtsp.HeaderOf;
    f := Events.Fields(0, []);
    var i := 0;
    while i < |lines|
      invariant i <= |lines| && f == Events.FieldsTo(lines, i)
    {
      var field := ParseHeaderLine(lines[i]);
      if field.Some? {
        if field.value.0 == Rtsp.CONTENT_LENGTH {
          f := f.(contentLen := ToInt(field.value.1));
        } else if field.value.0 == Rtsp.CSEQ {
          f := f.(cseq := field.value.1);
        }
      }
      i := i + 1;
    }
  }
}
