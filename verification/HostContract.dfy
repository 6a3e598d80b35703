/** Where the session and the poll host meet: the session relies on exactly what the host promises. */
module HostContract {
  import opened SessionSpec
  import opened SessionProof
  import opened SessionRuns
  import P = PollSpec

  // The host's view of the control channel and the session's agree.
  predicate Agrees(link: Link, phase: P.Phase)
  {
    match link
    case NotConnected => phase == P.Down
    case Opening => phase == P.Starting
    case Connected => phase == P.Up
  }

  // What happens at the host: a call of the application, or a notification on the control channel. The bytes of a
  // read hold any number of replies, or end in bytes the session rejects.
  datatype Event =
    | Call(input: Input)
    | Note(h: P.Happening, error: bool, read: seq<Input>)

  predicate IsCall(i: Input)
  {
    i.StartCall? || i.StopCall? || i.PinCall? || i.VolumeCall? || i.NowPlayingCall? || i.EventNote? || i.DatagramNote?
    || i.TickCall?
  }

  // The inputs a notification turns into.
  function InputsOf(e: Event): seq<Input>
    requires e.Note?
  {
    match e.h
    case NoteFailed => [ConnectFailedNote]
    case NoteConnected => [ConnectedNote]
    case NoteData(_) => e.read
    case NoteClosed => [ClosedNote(e.error)]
    case _ => []
  }

  predicate EventOk(e: Event)
  {
    match e
    case Call(i) => IsCall(i)
    case Note(h, _, read) => P.IsNote(h) && forall i :: i in read ==> i.ReplyNote? || i == BadBytesNote
  }

  // What the session does to the control channel in one step: start() connects, stop() and failures close; the peer's
  // FIN has closed it already.
  function Happenings(s: Session, i: Input, now: nat): seq<P.Happening>
    requires Enabled(s, i)
  {
    if i.StartCall? then
      (if s.state != Idle then [P.Dropped] else []) + (if i.udpOk then [P.Dropped, P.Opened] else [])
    else if s.state != Idle && Step(s, i, now).state == Idle && i != ClosedNote(false) then [P.Dropped]
    else []
  }

  function Follow(p: P.Progress, hs: seq<P.Happening>): P.Progress
    decreases |hs|
  {
    if hs == [] then p else Follow(P.Advance(p, hs[0]), hs[1..])
  }

  // The session and the host's log of the control channel.
  datatype Joint = Joint(s: Session, p: P.Progress)

  function JointStep(j: Joint, i: Input, now: nat): Joint
    requires Enabled(j.s, i)
  {
    Joint(Step(j.s, i, now), Follow(j.p, Happenings(j.s, i, now)))
  }

  // The inputs of one event, in order; a read stops when a reply has ended the session.
  predicate AllEnabled(j: Joint, inputs: seq<Input>, now: nat)
    decreases |inputs|
  {
    inputs == [] || j.s.state == Idle
    || (Enabled(j.s, inputs[0]) && AllEnabled(JointStep(j, inputs[0], now), inputs[1..], now))
  }

  function Feed(j: Joint, inputs: seq<Input>, now: nat): Joint
    requires AllEnabled(j, inputs, now)
    decreases |inputs|
  {
    if inputs == [] || j.s.state == Idle then j else Feed(JointStep(j, inputs[0], now), inputs[1..], now)
  }

  predicate Delivers(j: Joint, e: Event, now: nat)
  {
    match e
    case Call(i) => Enabled(j.s, i)
    case Note(h, _, _) => AllEnabled(j.(p := P.Advance(j.p, h)), InputsOf(e), now)
  }

  function AfterEvent(j: Joint, e: Event, now: nat): Joint
    requires Delivers(j, e, now)
  {
    match e
    case Call(i) => JointStep(j, i, now)
    case Note(h, _, _) => Feed(j.(p := P.Advance(j.p, h)), InputsOf(e), now)
  }

  // All the host answers for: a notification keeps its contract. The application hands in a PIN only while the
  // session is active.
  predicate HostPermits(j: Joint, e: Event)
  {
    match e
    case Call(i) => i.PinCall? ==> j.s.state != Idle
    case Note(h, _, _) => P.Advance(j.p, h).phase != P.Broken
  }

  // Between two events.
  predicate Together(j: Joint) { Inv(j.s) && Agrees(j.s.link, j.p.phase) }

  /** A notification the host may deliver is an input the session allows, and the other way round. */
  lemma NoteIsAllowed(j: Joint, e: Event)
    requires Agrees(j.s.link, j.p.phase) && EventOk(e) && e.Note? && InputsOf(e) != []
    ensures P.Advance(j.p, e.h).phase != P.Broken <==> Allowed(j.s, InputsOf(e)[0])
  {
    if e.h.NoteData? {
      assert e.read[0] in e.read;
    }
  }

  lemma FollowOne(p: P.Progress, h: P.Happening)
    ensures Follow(p, [h]) == P.Advance(p, h)
  {
    assert [h][1..] == [];
  }

  lemma FollowTwo(p: P.Progress, h: P.Happening, k: P.Happening)
    ensures Follow(p, [h, k]) == P.Advance(P.Advance(p, h), k)
  {
    assert [h, k][1..] == [k];
    FollowOne(P.Advance(p, h), k);
  }

  lemma StartHappens(p: P.Progress, idle: bool, udpOk: bool)
    requires p.phase != P.Broken && (idle ==> p.phase == P.Down)
    ensures Follow(p, (if !idle then [P.Dropped] else []) + (if udpOk then [P.Dropped, P.Opened] else [])).phase
         == if udpOk then P.Starting else P.Down
  {
    var d := P.Advance(p, P.Dropped);
    FollowOne(p, P.Dropped);
    FollowTwo(p, P.Dropped, P.Opened);
    FollowTwo(d, P.Dropped, P.Opened);
    assert [P.Dropped] + [P.Dropped, P.Opened] == [P.Dropped, P.Dropped, P.Opened];
    assert [P.Dropped, P.Dropped, P.Opened][1..] == [P.Dropped, P.Opened];
    assert [] + [P.Dropped, P.Opened] == [P.Dropped, P.Opened];
    assert [P.Dropped] + [] == [P.Dropped];
  }

  // After the host has done its part of a notification, the phase is the one the session will be in.
  predicate Ahead(s: Session, i: Input, phase: P.Phase)
  {
    match i
    case ConnectedNote => s.link == Opening && phase == P.Up
    case ConnectFailedNote => s.link == Opening && phase == P.Down
    case ClosedNote(_) => s.link == Connected && phase == P.Down
    case _ => Agrees(s.link, phase)
  }

  lemma InvLink(s: Session)
    requires Inv(s)
    ensures LinkFollowsState(s)
  {
    hide Watch, CountersFresh;
  }

  lemma EndsAtOnce(s: Session, i: Input, now: nat)
    requires Enabled(s, i) && s.state != Idle
    ensures i.ConnectFailedNote? || i.ClosedNote? ==> Step(s, i, now).state == Idle
  {
    hide Fail, OnClosed, OnConnectFailed;
    ClosedEnds(s, i.ClosedNote? && i.error);
  }

  lemma ClosedEnds(s: Session, error: bool)
    requires s.state != Idle
    ensures OnConnectFailed(s).state == Idle && OnClosed(s, error).state == Idle
  {
    hide Watch, Log;
  }

  lemma ConnectedLink(s: Session, now: nat)
    requires Enabled(s, ConnectedNote) && s.state == Connecting
    ensures Step(s, ConnectedNote, now).link == Connected || Step(s, ConnectedNote, now).link == NotConnected
  {
    hide BeginAuthChain;
  }

  // One step keeps session and host together, once the host has done its part of a notification.
  lemma StepTogether(j: Joint, i: Input, now: nat)
    requires Inv(j.s) && Allowed(j.s, i) && Ahead(j.s, i, j.p.phase)
    ensures Enabled(j.s, i) && Together(JointStep(j, i, now))
  {
    hide Inv, Step, LinkFollowsState, P.Advance;
    StepKeeps(j.s, i, now);
    InvLink(j.s);
    InvLink(Step(j.s, i, now));
    if i.StartCall? {
      StartTogether(j, i.udpOk, now);
    } else {
      OtherTogether(j, i, now);
    }
  }

  lemma StartTogether(j: Joint, udpOk: bool, now: nat)
    requires Enabled(j.s, StartCall(udpOk)) && LinkFollowsState(j.s) && Agrees(j.s.link, j.p.phase)
    ensures Agrees(Step(j.s, StartCall(udpOk), now).link, Follow(j.p, Happenings(j.s, StartCall(udpOk), now)).phase)
  {
    hide Step, Follow;
    StartHappens(j.p, j.s.state == Idle, udpOk);
    StartLink(j.s, udpOk, now);
  }

  lemma StartLink(s: Session, udpOk: bool, now: nat)
    requires Enabled(s, StartCall(udpOk))
    ensures Step(s, StartCall(udpOk), now).link
      == if udpOk then Opening else if s.state == Idle then s.link else NotConnected
  {
    hide Start;
  }

  lemma OtherTogether(j: Joint, i: Input, now: nat)
    requires Enabled(j.s, i) && !i.StartCall? && LinkFollowsState(j.s) && Ahead(j.s, i, j.p.phase)
    requires LinkFollowsState(Step(j.s, i, now))
    ensures Agrees(Step(j.s, i, now).link, Follow(j.p, Happenings(j.s, i, now)).phase)
  {
    hide Step, Follow;
    FollowOne(j.p, P.Dropped);
    assert Follow(j.p, []) == j.p by { FollowNone(j.p); }
    if j.s.state != Idle {
      EndsAtOnce(j.s, i, now);
    }
    if i.ConnectedNote? {
      ConnectedLink(j.s, now);
    }
  }

  lemma FollowNone(p: P.Progress)
    ensures Follow(p, []) == p
  {
  }

  lemma {:induction false} FeedTogether(j: Joint, inputs: seq<Input>, now: nat)
    requires Together(j) && forall i :: i in inputs ==> i.ReplyNote? || i == BadBytesNote
    requires j.s.state == Idle || j.s.link == Connected
    ensures AllEnabled(j, inputs, now) && Together(Feed(j, inputs, now))
    decreases |inputs|
  {
    hide Inv, JointStep, Agrees;
    if inputs != [] && j.s.state != Idle {
      assert inputs[0] in inputs;
      StepTogether(j, inputs[0], now);
      StillConnected(j, inputs[0], now);
      FeedTogether(JointStep(j, inputs[0], now), inputs[1..], now);
    }
  }

  lemma StillConnected(j: Joint, i: Input, now: nat)
    requires Inv(j.s) && Enabled(j.s, i) && (i.ReplyNote? || i == BadBytesNote) && j.s.link == Connected
    requires Inv(JointStep(j, i, now).s)
    ensures JointStep(j, i, now).s.state == Idle || JointStep(j, i, now).s.link == Connected
  {
    hide Inv, Step;
    InvLink(JointStep(j, i, now).s);
  }

  /** One event: whatever the host may deliver and the application may call, every input the session gets is one it
      allows, and afterwards the session's link and the host's phase agree again. */
  lemma EventTogether(j: Joint, e: Event, now: nat)
    requires Together(j) && EventOk(e) && HostPermits(j, e)
    ensures Delivers(j, e, now) && Together(AfterEvent(j, e, now))
  {
    hide Inv, JointStep;
    InvLink(j.s);
    match e
    case Call(i) => StepTogether(j, i, now);
    case Note(h, error, read) =>
      var k := j.(p := P.Advance(j.p, h));
      match h
      case NoteData(_) => FeedTogether(k, read, now);
      case NoteFailed => OneTogether(k, ConnectFailedNote, now);
      case NoteConnected => OneTogether(k, ConnectedNote, now);
      case NoteClosed => OneTogether(k, ClosedNote(error), now);
  }

  lemma OneTogether(j: Joint, i: Input, now: nat)
    requires Inv(j.s) && Allowed(j.s, i) && Ahead(j.s, i, j.p.phase) && j.s.state != Idle
    ensures AllEnabled(j, [i], now) && Together(Feed(j, [i], now))
  {
    hide Inv, Step, Agrees, Happenings;
    StepTogether(j, i, now);
    assert [i][1..] == [];
  }

  // ---- Histories ----

  datatype Moment = Moment(event: Event, at: nat)

  // Every event of the history is one the host and the application may produce where it is produced.
  predicate History(j: Joint, es: seq<Moment>)
    decreases |es|
  {
    es == [] ||
    (EventOk(es[0].event) && HostPermits(j, es[0].event)
     && (Delivers(j, es[0].event, es[0].at) ==> History(AfterEvent(j, es[0].event, es[0].at), es[1..])))
  }

  // All events of the history can be handed to the session as allowed inputs.
  predicate AllDelivered(j: Joint, es: seq<Moment>)
    decreases |es|
  {
    es == [] || (Delivers(j, es[0].event, es[0].at) && AllDelivered(AfterEvent(j, es[0].event, es[0].at), es[1..]))
  }

  function AfterHistory(j: Joint, es: seq<Moment>): Joint
    requires AllDelivered(j, es)
    decreases |es|
  {
    if es == [] then j else AfterHistory(AfterEvent(j, es[0].event, es[0].at), es[1..])
  }

  lemma {:induction false} HistoryTogether(j: Joint, es: seq<Moment>)
    requires Together(j) && History(j, es)
    ensures AllDelivered(j, es) && Together(AfterHistory(j, es))
    decreases |es|
  {
    hide Together, Delivers, AfterEvent, HostPermits, EventOk;
    if es != [] {
      EventTogether(j, es[0].event, es[0].at);
      HistoryTogether(AfterEvent(j, es[0].event, es[0].at), es[1..]);
    }
  }

  /** A host that keeps its notification contract is all the session needs: over any history of application calls and
      notifications every input is allowed where it arrives, and the session's link and the host's phase always
      agree. */
  lemma HostSuffices(cfg: Config, auth: Auth, es: seq<Moment>)
    requires Configured(Initial(cfg, auth)) && History(Joint(Initial(cfg, auth), P.Progress(P.Down, [], [], [])), es)
    ensures var j := Joint(Initial(cfg, auth), P.Progress(P.Down, [], [], []));
      AllDelivered(j, es) && Inv(AfterHistory(j, es).s)
        && Agrees(AfterHistory(j, es).s.link, AfterHistory(j, es).p.phase)
  {
    hide Inv;
    InitialInv(cfg, auth);
    HistoryTogether(Joint(Initial(cfg, auth), P.Progress(P.Down, [], [], [])), es);
  }
}

/** What replies and PINs do that arrive after the session has ended. */
module LateInputs {
  import opened Wire
  import opened SessionSpec
  import opened SessionProof
  import opened SessionDeadline

  // A late reply to such a request makes the sender act.
  predicate ActsLate(m: Method, http: bool, r: Reply) { !http && (SetupMethod(m) || (m == GET && !Success(r))) }

  lemma EnqueueSends(s: Session, m: Method, http: bool)
    ensures |Enqueue(s, m, http).trace| > |s.trace|
  {
    hide Watch;
  }

  lemma FailRaises(s: Session)
    ensures |Fail(s).trace| > |s.trace| && Fail(s).state == Idle
  {
    hide Watch;
  }

  lemma RequestSends(s: Session, m: Method, now: nat)
    ensures |SendRequest(s, m, now).trace| > |s.trace| && SendRequest(s, m, now).state == s.state
  {
    hide Enqueue;
    EnqueueSends(s, m, false);
    EnqueueShape(s, m, false);
  }

  lemma MetadataGrows(s: Session, now: nat)
    ensures |SendMetadata(s, now).trace| >= |s.trace|
  {
    hide SendRequest;
    RequestSends(s, SET_PARAMETER, now);
    RequestSends(SendRequest(s, SET_PARAMETER, now), SET_PARAMETER, now);
  }

  lemma LaunchGrows(s: Session, now: nat)
    ensures |LaunchStream(s, now).trace| > |s.trace|
  {
    hide SendRequest, SendMetadata, Watch;
    RequestSends(s, SET_PARAMETER, now);
    var s1 := if s.wishes.volume then SendRequest(s, SET_PARAMETER, now) else s;
    var s2 := s1.(timers := s1.timers.(pacer := Due(now + PACER_MS)));
    var t := s2.(timers := s2.timers.(feedbackMs := FEEDBACK_AP1_MS));
    RequestSends(t, POST, now);
    MetadataGrows(if s.cfg.airplay2
      then s2.(timers := s2.timers.(feedbackMs := FEEDBACK_AP2_MS, feedback := Due(now + FEEDBACK_AP2_MS)))
      else SendRequest(t, POST, now), now);
  }

  lemma StreamStarts(s: Session, now: nat)
    ensures |StartStreaming(s, now).trace| > |s.trace| && StartStreaming(s, now).state == Streaming
  {
    hide LaunchStream, Watch;
    LaunchGrows(OpenStream(s, now), now);
    LaunchStays(OpenStream(s, now), now);
  }

  // The oldest request is off the queue.
  function Taken(s: Session): Session
    requires s.fifo.methods != []
  {
    var q := s.fifo;
    Log(s.(fifo := Fifo(q.methods[1..], if q.isHttp == [] then [] else q.isHttp[1..], q.sentEver)),
        Answered(q.methods[0], HttpFirst(q)))
  }

  // The reply to a keep-alive still switches its timer: 200 starts it if it is off, anything else stops it.
  function KeepAlive(s: Session, r: Reply, now: nat): Session
  {
    s.(timers := s.timers.(feedback :=
      if r.code != 200 then Off
      else if s.timers.feedback.Off? then Due(now + s.timers.feedbackMs)
      else s.timers.feedback))
  }

  /** A reply that arrives after the end is taken off the queue and changes nothing else, but for the timer of a
      keep-alive, exactly unless it answers a request of the RTSP handshake (or refuses a GET); it brings the stream
      back to life exactly when it accepts a RECORD. */
  lemma LateReplyExactly(s: Session, r: Reply, now: nat)
    requires s.state == Idle && s.fifo.methods != []
    ensures var m, http := s.fifo.methods[0], HttpFirst(s.fifo);
      && Safe(s)
      && (OnReply(s, r, now).trace == Taken(s).trace <==> !ActsLate(m, http, r))
      && (OnReply(s, r, now) == (if m == POST && !http then KeepAlive(Taken(s), r, now) else Taken(s))
          <==> !ActsLate(m, http, r))
      && (OnReply(s, r, now).state != Idle <==> !http && m == RECORD && Success(r))
  {
    hide Fail, SendRequest, StartStreaming, Watch, HandleResponse, KeepAlive;
    var m, http := s.fifo.methods[0], HttpFirst(s.fifo);
    assert Taken(s).trace == s.trace + [Answered(m, http)] && Taken(s).state == Idle;
    assert KeepAlive(Taken(s), r, now).trace == Taken(s).trace by { KeepAliveIsSilent(Taken(s), r, now); }
    if !http {
      LateResponse(Taken(s), m, r, now);
    }
  }

  lemma KeepAliveIsSilent(s: Session, r: Reply, now: nat)
    ensures KeepAlive(s, r, now).trace == s.trace
  {
  }

  lemma LateResponse(s: Session, m: Method, r: Reply, now: nat)
    requires s.state == Idle
    ensures HandleResponse(s, m, r, now).trace == s.trace <==> !ActsLate(m, false, r)
    ensures !ActsLate(m, false, r) ==> HandleResponse(s, m, r, now) == if m == POST then KeepAlive(s, r, now) else s
    ensures HandleResponse(s, m, r, now).state != Idle <==> m == RECORD && Success(r)
  {
    hide Fail, SendRequest, StartStreaming;
    var s1 := s.(rtsp := s.rtsp.(challenged := true, retried := true));
    var s2 := s.(rtsp := s.rtsp.(serverPort := r.serverPort, controlPort := r.controlPort, session := true));
    FailRaises(s);
    FailRaises(s1);
    FailRaises(s2);
    RequestSends(s1, m, now);
    RequestSends(s, ANNOUNCE, now);
    RequestSends(s, SETUP, now);
    RequestSends(s2, RECORD, now);
    StreamStarts(s, now);
  }

  /** A PIN submitted after the end is ignored exactly unless the session had been stopped while waiting for it; then
      it sends a request, ends the session once more, or throws, by the receiver's B. */
  lemma LatePinExactly(s: Session, now: nat)
    requires s.state == Idle && Safe(s) && (s.waitingForPin ==> s.keys.ap2.Some?)
    ensures SubmitPin(s, now) == s <==> !s.waitingForPin
    ensures SubmitPin(s, now).trace == s.trace <==> !s.waitingForPin || s.exchange.serverB == TooLong
    ensures s.waitingForPin && s.exchange.serverB == Usable ==>
      SubmitPin(s, now).fifo.methods == s.fifo.methods + [POST] && SubmitPin(s, now).timers.timeout.Due?
  {
    hide Watch, Log, Enqueue, Fail;
    if s.waitingForPin {
      var s1 := ArmTimeout(s.(waitingForPin := false, timers := s.timers.(pin := Off)), now);
      var s2 := WithAp2(s1, s1.keys.ap2.value.(srp := true));
      FailRaises(s2);
      FailEnds(s2);
      EnqueueShape(s2.(stage := SetupM4), POST, true);
      EnqueueSends(s2.(stage := SetupM4), POST, true);
    }
  }

  lemma FailEnds(s: Session)
    ensures Fail(s).waitingForPin == s.waitingForPin
  {
    hide Watch, Log;
  }
}

/** Where the session and the frame format meet: fresh counters are fresh nonces. */
module NonceContract {
  import opened Wire
  import opened SessionSpec
  import opened SessionProof
  import opened SessionRuns
  import F = Framing

  /** Over any run, no key of a channel ever seals two texts under one nonce, as long as its counter has not gone
      through all 64-bit values. */
  lemma NoncesNeverRepeat(cfg: Config, auth: Auth, run: seq<Timed>, i: nat, j: nat, a: nat, b: nat)
    requires Configured(Initial(cfg, auth)) && HostRun(Initial(cfg, auth), run)
    requires var t := After(Initial(cfg, auth), run).trace;
      && i < |t| && j < |t| && t[i].Sealed? && t[j].Sealed? && t[i].channel == t[j].channel && t[i].key == t[j].key
      && a < t[i].count && b < t[j].count && (i, a) != (j, b)
      && t[i].first + t[i].count <= TWO_64 && t[j].first + t[j].count <= TWO_64
    ensures var t := After(Initial(cfg, auth), run).trace;
      F.Nonce(U64(t[i].first + a)) != F.Nonce(U64(t[j].first + b))
  {
    hide Initial, Configured, HostRun, After;
    NonceFreshness(cfg, auth, run);
    var t := After(Initial(cfg, auth), run).trace;
    assert i < j ==> !Overlap(t[i], t[j]);
    assert j < i ==> !Overlap(t[j], t[i]);
    F.NoncesDiffer(U64(t[i].first + a), U64(t[j].first + b));
  }
}

/** Where the session and the SRP client meet: the three kinds of B. */
module OfferContract {
  import opened Wire
  import SessionSpec
  import S = SrpSpec

  function KeyOf(takes: S.Limit, c: S.Group, serverB: Bytes): SessionSpec.ServerKey
    requires c.N > 0
  {
    var B := S.Number(serverB);
    if !takes(serverB) then SessionSpec.TooLong
    else if B % c.N == 0 then SessionSpec.Zero
    else if B >= Pow256(c.width) then SessionSpec.TooLong
    else SessionSpec.Usable
  }

  /** The three kinds are the three outcomes of the SRP client: refused, thrown, keys; and the B of an honest receiver
      never throws. */
  lemma KindsAreOutcomes(hash: S.Hash, takes: S.Limit, c: S.Group, pin: Bytes, a: nat, salt: Bytes, serverB: Bytes,
                         k: nat, x: nat, b: nat)
    requires S.GroupOk(c) && S.Is512(hash) && S.TakesWidth(takes, c)
    ensures var r := S.Process(hash, takes, c, pin, a, salt, serverB);
      && (r.Refused? <==> KeyOf(takes, c, serverB) == SessionSpec.Zero)
      && (r.TooLong? <==> KeyOf(takes, c, serverB) == SessionSpec.TooLong)
      && (r.Keys? <==> KeyOf(takes, c, serverB) == SessionSpec.Usable)
    ensures KeyOf(takes, c, S.Bytes1(S.ServerB(c, k, x, b))) != SessionSpec.TooLong
  {
    hide S.ServerB, S.Bytes1, S.Number, S.HashPair, S.X, S.K0, S.ProofOfClient, S.ClientS, S.ClientA;
    S.BIsResidue(c, k, x, b);
    S.NumberReadsBack(S.ServerB(c, k, x, b));
    S.BytesFit(S.ServerB(c, k, x, b), c.width);
  }
}
