/** That starting leads somewhere: with a receiver that answers every request well, and a user who types the PIN, every
    start ends in a stream, from wherever it has got to. */
module SessionProgress {
  import opened Wire
  import opened SessionSpec
  import opened SessionProof
  import opened SessionRuns
  import opened SessionDeadline
  import opened SessionWitness

  // Nothing has gone wrong yet: the session is starting, in a way that exists, and the B it may hold can be used.
  predicate Promising(s: Session)
  {
    && Starting(s) && !s.exchange.aborted && (s.state == Connecting ==> s.auth != LegacyPin)
    && (s.waitingForPin ==> s.exchange.serverB == Usable)
  }

  // What the host, the user or the receiver does next to help.
  function Helpful(s: Session): Input
  {
    if s.state == Connecting then ConnectedNote else if s.waitingForPin then PinCall else ReplyNote(GOOD)
  }

  function Measure(s: Session): nat { 2 * Rank(s) + if s.waitingForPin then 0 else 1 }

  // The step leads to the stream, or closer to it.
  predicate Closer(s: Session, r: Session) { r.state == Streaming || (Promising(r) && Measure(r) < Measure(s)) }

  // Sending the one request of a step.
  lemma SentRank(s0: Session, s: Session, m: Method, http: bool, now: nat)
    requires s.state == Pairing || s.state == Handshake
    requires !s.exchange.aborted && !s.waitingForPin && s.fifo.methods == []
    requires Rank(s.(fifo := Push(s.fifo, m, http))) < Rank(s0)
    ensures Closer(s0, ArmTimeout(Enqueue(s, m, http), now))
  {
    hide Enqueue;
    EnqueueShape(s, m, http);
    RankFields(ArmTimeout(Enqueue(s, m, http), now), s.(fifo := Push(s.fifo, m, http)));
  }

  lemma AfterAuthCloser(s0: Session, s: Session, now: nat)
    requires s.fifo.methods == [] && !s.waitingForPin && !s.exchange.aborted && TailRequests(s.cfg) <= Rank(s0)
    ensures Closer(s0, AfterAuthOk(s, now))
  {
    hide Enqueue, Closer;
    var s1 := s.(rtsp := s.rtsp.(retried := false), state := Handshake);
    if s.cfg.airplay2 {
      var keyed := s.keys.ap2.Some? && s.keys.ap2.value.controlKey.Some?;
      var s2 := if keyed then s1.(keys := s.keys.(controlEncrypted := true, ctrlSendCtr := 0)) else s1;
      SentRank(s0, s2.(stage := Ap2Info), GET, true, now);
    } else {
      SentRank(s0, s1, OPTIONS, false, now);
    }
  }

  lemma ConnectedCloser(s: Session, now: nat)
    requires Inv(s) && s.state == Connecting && Promising(s)
    ensures Closer(s, OnConnected(s, now))
  {
    hide Watch, CountersFresh, Log, Enqueue, Fail, Closer;
    var p := s.(link := Connected, state := Pairing);
    match s.auth
    case Open => SentRank(s, p.(state := Handshake), OPTIONS, false, now);
    case Password => SentRank(s, p.(state := Handshake), OPTIONS, false, now);
    case MfiSetup => SentRank(s, p.(stage := AuthSetup), POST, true, now);
    case HapTransient => SentRank(s, WithAp2(p, FRESH_AP2).(stage := SetupM2), POST, true, now);
    case HapPin =>
      if s.cfg.storedCreds {
        SentRank(s, WithAp2(p, FRESH_AP2.(accessoryKnown := true)).(stage := VerifyM2), POST, true, now);
      } else {
        SentRank(s, WithAp2(p, FRESH_AP2).(stage := PinStart), POST, true, now);
      }
  }

  lemma M3Closer(s0: Session, s: Session, now: nat)
    requires s.keys.ap2.Some? && s.state == Pairing && !s.waitingForPin && s.fifo.methods == [] && !s.exchange.aborted
    requires s.exchange.serverB == Usable && (if s.auth == HapTransient then 0 else 3) + TailRequests(s.cfg) < Rank(s0)
    ensures Closer(s0, SendPairSetupM3(s, now))
  {
    hide Enqueue, Closer;
    SentRank(s0, WithAp2(s, s.keys.ap2.value.(srp := true)).(stage := SetupM4), POST, true, now);
  }

  lemma PinCloser(s: Session, now: nat)
    requires Inv(s) && Promising(s) && s.state != Connecting && s.waitingForPin
    ensures Safe(s) && Closer(s, SubmitPin(s, now))
  {
    hide Watch, CountersFresh, SendPairSetupM3, Closer;
    M3Closer(s, ArmTimeout(s.(waitingForPin := false, timers := s.timers.(pin := Off)), now), now);
  }

  // s is s0 with its oldest reply taken off the queue.
  predicate Answering(s0: Session, s: Session)
  {
    Popped(s) && !s.exchange.aborted && Rank(s) == Rank(s0) && !s0.waitingForPin
  }

  lemma M2Closer(s0: Session, s: Session, now: nat)
    requires Answering(s0, s) && s.state == Pairing && s.stage == SetupM2
    ensures Closer(s0, HandleM2(s, GOOD, now))
  {
    hide Watch, CountersFresh, SendPairSetupM3, Log;
    if s.auth == HapTransient {
      M3Closer(s0, s.(exchange := s.exchange.(serverB := Usable)), now);
    }
  }

  lemma M4Closer(s0: Session, s: Session, now: nat)
    requires Answering(s0, s) && s.state == Pairing && s.stage == SetupM4
    ensures Closer(s0, HandleM4(s, GOOD, now))
  {
    hide Watch, CountersFresh, Log, AfterAuthOk, Enqueue, Fail, Closer;
    var s1 := Log(s, Checked(SrpProof, true));
    if s.auth == HapTransient {
      AfterAuthCloser(s0, Agree(s1, false).(stage := Done), now);
    } else {
      SentRank(s0, s1.(stage := SetupM6), POST, true, now);
    }
  }

  lemma M6Closer(s0: Session, s: Session, now: nat)
    requires Answering(s0, s) && s.state == Pairing && s.stage == SetupM6
    ensures Closer(s0, HandleM6(s, GOOD, now))
  {
    hide Watch, CountersFresh, Log, Enqueue, Fail, Closer;
    var s1 := Log(WithAp2(s, s.keys.ap2.value.(accessoryKnown := true)), CredentialsObtained);
    SentRank(s0, s1.(stage := VerifyM2), POST, true, now);
  }

  lemma VerifyCloser(s0: Session, s: Session, now: nat)
    requires Answering(s0, s) && s.state == Pairing && s.stage == VerifyM2
    ensures Closer(s0, HandleVerifyM2(s, GOOD, now))
  {
    hide Watch, CountersFresh, Log, HttpPost, Fail, Agree, Closer;
    VerifiedCloser(s0, Log(s, Checked(VerifySignature, true)), now);
  }

  lemma VerifiedCloser(s0: Session, s: Session, now: nat)
    requires s.keys.ap2.Some? && s.state == Pairing && !s.waitingForPin && !s.exchange.aborted && s.fifo.methods == []
    requires TailRequests(s.cfg) < Rank(s0)
    ensures Closer(s0, HttpPost(Agree(s, true).(stage := VerifyDone), now))
  {
    hide Enqueue, Closer;
    SentRank(s0, Agree(s, true).(stage := VerifyDone), POST, true, now);
  }

  lemma StreamIsCloser(s0: Session, s: Session, now: nat)
    ensures Closer(s0, StartStreaming(s, now))
  {
    hide Enqueue, Log, Watch, LaunchStream;
    LaunchStays(OpenStream(s, now), now);
  }

  lemma Ap2Closer(s0: Session, s: Session, now: nat)
    requires Answering(s0, s) && s.state == Handshake
    ensures Closer(s0, OnPairingResponse(s, GOOD, now))
  {
    hide Watch, CountersFresh, Enqueue, StartStreaming, Closer, Fail;
    var a := s.keys.ap2.value;
    match s.stage
    case Ap2Info => SentRank(s0, s.(stage := Ap2Session), SETUP, true, now);
    case Ap2Session =>
      SentRank(s0, WithAp2(s, a.(eventPort := GOOD.eventPort)).(stage := Ap2Record), RECORD, true, now);
    case Ap2Record =>
      SentRank(s0, WithAp2(s, a.(audioKey := a.secret, audioNonce := 0)).(stage := Ap2Stream), SETUP, true, now);
    case _ =>
      StreamIsCloser(s0, s.(rtsp := s.rtsp.(serverPort := GOOD.serverPort, controlPort := GOOD.controlPort)), now);
  }

  lemma PairingCloser(s0: Session, s: Session, now: nat)
    requires Answering(s0, s) && s.state == Pairing
    ensures Closer(s0, OnPairingResponse(s, GOOD, now))
  {
    hide Watch, CountersFresh, HandleM2, HandleM4, HandleM6, HandleVerifyM2, AfterAuthOk, OnPairingRefused, Enqueue,
      Closer;
    match s.stage
    case AuthSetup => AfterAuthCloser(s0, s.(stage := Done), now);
    case PinStart => SentRank(s0, s.(stage := SetupM2), POST, true, now);
    case SetupM2 => M2Closer(s0, s, now);
    case SetupM4 => M4Closer(s0, s, now);
    case SetupM6 => M6Closer(s0, s, now);
    case VerifyM2 => VerifyCloser(s0, s, now);
    case _ => AfterAuthCloser(s0, s.(stage := Done), now);
  }

  lemma SetupCloser(s0: Session, s: Session, m: Method, now: nat)
    requires SetupMethod(m) && s.state == Handshake && !s.cfg.airplay2 && s.fifo.methods == []
    requires !s.waitingForPin && !s.exchange.aborted
    requires Rank(s0) == SetupRank(m) + (if s.cfg.password && !s.rtsp.retried then 1 else 0)
    ensures Closer(s0, HandleResponse(s, m, GOOD, now))
  {
    hide Enqueue, StartStreaming, Closer, HandleResponse;
    AnswerIs(s, m, GOOD, now);
    match m
    case OPTIONS => SentRank(s0, s, ANNOUNCE, false, now);
    case ANNOUNCE => SentRank(s0, s, SETUP, false, now);
    case SETUP =>
      SentRank(s0, s.(rtsp := s.rtsp.(serverPort := GOOD.serverPort, controlPort := GOOD.controlPort, session := true)),
               RECORD, false, now);
    case RECORD => StreamIsCloser(s0, s, now);
  }

  lemma ReplyCloser(s: Session, now: nat)
    requires Inv(s) && Promising(s) && s.state != Connecting && !s.waitingForPin
    ensures s.link == Connected && Safe(s) && Closer(s, OnReply(s, GOOD, now))
  {
    hide Watch, CountersFresh, OnPairingResponse, HandleResponse, Log, Closer;
    InvIsSafe(s);
    var q, s1 := s.fifo, Pop(s);
    if q.isHttp[0] {
      PopKeepsRank(s);
      PopRank(s);
      if s.state == Pairing {
        PairingCloser(s, s1, now);
      } else {
        Ap2Closer(s, s1, now);
      }
    } else {
      SetupCloser(s, s1, q.methods[0], now);
    }
  }

  lemma PopRank(s: Session)
    requires Inv(s) && s.fifo.methods != [] && s.fifo.isHttp != [] && s.fifo.isHttp[0] && s.state != Idle
    ensures Rank(Pop(s)) == Rank(s)
  {
    hide Watch, CountersFresh, Log;
  }

  lemma HelpBringsCloser(s: Session)
    requires Inv(s) && Promising(s)
    ensures Enabled(s, Helpful(s)) && Inv(Step(s, Helpful(s), 0)) && Closer(s, Step(s, Helpful(s), 0))
  {
    hide Inv, OnConnected, OnReply, SubmitPin, Closer;
    InvIsSafe(s);
    Linked(s);
    StepKeeps(s, Helpful(s), 0);
    if s.state == Connecting {
      ConnectedCloser(s, 0);
    } else if s.waitingForPin {
      PinCloser(s, 0);
    } else {
      ReplyCloser(s, 0);
    }
  }

  lemma Linked(s: Session)
    requires Inv(s)
    ensures s.state == Connecting ==> s.link == Opening
    ensures s.state == Pairing || s.state == Handshake ==> s.link == Connected
  {
    hide Watch, CountersFresh;
  }

  /** From any point of any run at which nothing has gone wrong yet, good replies and the PIN lead to the stream. */
  lemma {:induction false} HelpIsEnough(cfg: Config, auth: Auth, run: seq<Timed>) returns (longer: seq<Timed>)
    requires Configured(Initial(cfg, auth)) && HostRun(Initial(cfg, auth), run)
    requires Promising(After(Initial(cfg, auth), run))
    ensures run <= longer && HostRun(Initial(cfg, auth), longer)
    ensures After(Initial(cfg, auth), longer).state == Streaming
    decreases Measure(After(Initial(cfg, auth), run))
  {
    hide Initial, Inv, Step, Enabled, Allowed, Promising, Measure, Helpful, Configured;
    var s := After(Initial(cfg, auth), run);
    assert Inv(s) by { ReachedInv(cfg, auth, run); }
    HelpBringsCloser(s);
    longer := Extend(cfg, auth, run, HelpfulIsAllowed(s));
    if After(Initial(cfg, auth), longer).state != Streaming {
      longer := HelpIsEnough(cfg, auth, longer);
    }
  }

  function HelpfulIsAllowed(s: Session): (i: Input)
    requires Enabled(s, Helpful(s))
    ensures i == Helpful(s) && Allowed(s, i)
  {
    Helpful(s)
  }

  lemma ReachedInv(cfg: Config, auth: Auth, run: seq<Timed>)
    requires Configured(Initial(cfg, auth)) && HostRun(Initial(cfg, auth), run)
    ensures Inv(After(Initial(cfg, auth), run))
  {
    hide Inv;
    InitialInv(cfg, auth);
    RunKeeps(Initial(cfg, auth), run);
  }

  /** So every start() can succeed, with every configuration and every way of authentication the sender has. */
  lemma EveryStartCanSucceed(cfg: Config, auth: Auth) returns (run: seq<Timed>)
    requires Configured(Initial(cfg, auth)) && auth != LegacyPin
    ensures HostRun(Initial(cfg, auth), run) && After(Initial(cfg, auth), run).state == Streaming
  {
    hide Initial, Configured;
    run := SessionWitness.Started(cfg, auth);
    assert Promising(After(Initial(cfg, auth), run)) by { StartIsPromising(cfg, auth, run); }
    run := HelpIsEnough(cfg, auth, run);
  }

  lemma StartIsPromising(cfg: Config, auth: Auth, run: seq<Timed>)
    requires Configured(Initial(cfg, auth)) && HostRun(Initial(cfg, auth), run) && auth != LegacyPin
    requires var s := After(Initial(cfg, auth), run); s.state == Connecting && s.auth == auth && !s.waitingForPin
    ensures Promising(After(Initial(cfg, auth), run))
  {
    hide Initial, Watch, CountersFresh;
    ReachedInv(cfg, auth, run);
  }
}
