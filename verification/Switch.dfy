/** The moment the control channel becomes encrypted, in the middle of reading: what is parsed afterwards. */
module Switch {
  import opened Wire
  import opened Text
  import opened Rtsp
  import SessionSpec
  import SessionProof

  // How the sender understands a reply; arbitrary.
  type Sense = Message -> SessionSpec.Reply

  // Where dispatching stands: the session, the text not yet parsed, and whether the channel has just been encrypted.
  datatype Stand = Stand(s: SessionSpec.Session, rest: Bytes, switched: bool)

  ghost predicate Live(s: SessionSpec.Session) { SessionProof.Inv(s) && s.link == SessionSpec.Connected }

  // The session after one message: replies go to the oldest request, anything else is ignored.
  ghost function Taken(s: SessionSpec.Session, m: Message, sense: Sense, now: nat): (r: SessionSpec.Session)
    requires Live(s)
    ensures SessionProof.Inv(r)
  {
    SessionProof.InvIsSafe(s);
    SessionProof.ReplyKeeps(s, sense(m), now);
    if ReplyCode(m).None? then s else SessionSpec.OnReply(s, sense(m), now)
  }

  // Messages of a plain-text read are dispatched one after the other, until none is complete, the session has ended or
  // the channel has been encrypted.
  ghost function Dispatch(s: SessionSpec.Session, text: Bytes, sense: Sense, now: nat): (r: Stand)
    requires Live(s) && !s.keys.controlEncrypted
    ensures r.switched <==> r.s.keys.controlEncrypted && r.s.link == SessionSpec.Connected
    decreases |text|
  {
    match Complete(text)
    case None => Stand(s, text, false)
    case Some(e) =>
      TotalPositive(text, e);
      var t := Taken(s, MessageAt(text, e), sense, now);
      var rest := text[Total(text, e)..];
      if t.link != SessionSpec.Connected then Stand(t, rest, false)
      else if t.keys.controlEncrypted then Stand(t, rest, true)
      else Dispatch(t, rest, sense, now)
  }

  lemma EndOfEnd(text: Bytes, n: nat, r: Bytes)
    requires n <= |text| && |r| <= |text| - n && r == text[n..][|text| - n - |r|..]
    ensures r == text[|text| - |r|..]
  {
  }

  // What is left over is the end of the text.
  lemma {:induction false} RestIsEnd(s: SessionSpec.Session, text: Bytes, sense: Sense, now: nat)
    requires Live(s) && !s.keys.controlEncrypted
    ensures var r := Dispatch(s, text, sense, now).rest; |r| <= |text| && r == text[|text| - |r|..]
    decreases |text|
  {
    hide SessionProof.Inv, Taken, Total;
    assert text[0..] == text;
    if Complete(text).Some? {
      var e := Complete(text).value;
      TotalPositive(text, e);
      var t := Taken(s, MessageAt(text, e), sense, now);
      var rest := text[Total(text, e)..];
      if t.link == SessionSpec.Connected && !t.keys.controlEncrypted {
        RestIsEnd(t, rest, sense, now);
        EndOfEnd(text, Total(text, e), Dispatch(t, rest, sense, now).rest);
      }
    }
  }

  // Where the messages of a text start.
  function Starts(text: Bytes, base: nat): seq<nat>
    decreases |text|
  {
    match Complete(text)
    case None => []
    case Some(e) => TotalPositive(text, e); [base] + Starts(text[Total(text, e)..], base + Total(text, e))
  }

  // Whatever the authenticated frames will say, no message parsed from now on holds a byte of the text left over.
  ghost predicate OnlyAuthentic(left: Bytes)
  {
    forall plain: Bytes, a: nat :: a in Starts(left + plain, 0) ==> a >= |left|
  }

  const BLANK: Bytes := [CR, LF, CR, LF]

  // Any left-over text can be completed to a message.
  lemma Completed(left: Bytes) returns (plain: Bytes)
    ensures Complete(left + plain).Some?
  {
    var x := left + BLANK;
    assert BlankAt(x, |left|);
    var e := FindBlank(x, 0).value;
    var body: Bytes := seq(ContentLength(HeaderLines(x, e)), _ => 0);
    plain := BLANK + body;
    assert left + plain == x + body;
    FindBlankGrows(x, body, 0);
    assert (x + body)[..e] == x[..e];
    assert Total(x + body, e) == Total(x, e);
  }

  lemma FirstStart(text: Bytes)
    requires Complete(text).Some?
    ensures 0 in Starts(text, 0)
  {
    assert Starts(text, 0)[0] == 0;
  }

  /** After the switch every message comes from authenticated frames alone, whatever they say, exactly when the read
      that carried the last pairing reply had no text behind it: what was left over in plain text is parsed as the
      beginning of the next message. */
  lemma AuthenticExactly(s: SessionSpec.Session, text: Bytes, sense: Sense, now: nat)
    requires Live(s) && !s.keys.controlEncrypted && Dispatch(s, text, sense, now).switched
    ensures OnlyAuthentic(Dispatch(s, text, sense, now).rest) <==> Dispatch(s, text, sense, now).rest == []
  {
    var left := Dispatch(s, text, sense, now).rest;
    if left != [] {
      var plain := Completed(left);
      FirstStart(left + plain);
    }
  }

  // The reply that completes pair-verify encrypts the channel.
  lemma LastPairingReply(s: SessionSpec.Session, r: SessionSpec.Reply, now: nat)
    requires Live(s) && s.cfg.airplay2 && s.state == SessionSpec.Pairing && s.stage == SessionSpec.VerifyDone
    requires SessionSpec.Success(r)
    ensures SessionSpec.Safe(s)
    ensures var t := SessionSpec.OnReply(s, r, now); t.keys.controlEncrypted && t.link == SessionSpec.Connected
  {
    hide SessionSpec.Watch, SessionSpec.Log, SessionSpec.Enqueue;
    SessionProof.InvIsSafe(s);
    VerifyKeyed(s);
    var q := SessionProof.Pop(s);
    var s2 := q.(stage := SessionSpec.Ap2Info, rtsp := q.rtsp.(retried := false), state := SessionSpec.Handshake,
                 keys := q.keys.(controlEncrypted := true, ctrlSendCtr := 0));
    KeepsEncryption(s2, SessionSpec.GET, true);
  }

  lemma VerifyKeyed(s: SessionSpec.Session)
    requires Live(s) && s.state == SessionSpec.Pairing && s.stage == SessionSpec.VerifyDone
    ensures s.keys.ap2.Some? && s.keys.ap2.value.controlKey.Some? && s.fifo.methods == [SessionSpec.POST]
    ensures s.fifo.isHttp == [true] && s.auth == SessionSpec.HapPin
  {
    hide SessionSpec.Watch;
  }

  lemma KeepsEncryption(s: SessionSpec.Session, m: SessionSpec.Method, http: bool)
    ensures var r := SessionSpec.Enqueue(s, m, http);
      r.keys.controlEncrypted == s.keys.controlEncrypted && r.link == s.link
  {
    hide SessionSpec.Watch, SessionSpec.Log;
  }

  /** So it goes wrong whenever the receiver sends anything right behind its last pairing reply. */
  lemma TextBehindIsParsed(s: SessionSpec.Session, reply: Bytes, left: Bytes, sense: Sense, now: nat)
    requires Live(s) && !s.keys.controlEncrypted && s.cfg.airplay2
    requires s.state == SessionSpec.Pairing && s.stage == SessionSpec.VerifyDone
    requires OneMessage(reply) && ReplyCode(MessageOf(reply)).Some? && SessionSpec.Success(sense(MessageOf(reply)))
    ensures var d := Dispatch(s, reply + left, sense, now);
      d.switched && d.rest == left && (OnlyAuthentic(d.rest) <==> left == [])
  {
    hide SessionProof.Inv, SessionSpec.OnReply, MessageAt, Total, Complete;
    CompleteGrows(reply, left);
    assert reply[|reply|..] + left == left;
    LastPairingReply(s, sense(MessageOf(reply)), now);
    AuthenticExactly(s, reply + left, sense, now);
  }
}
