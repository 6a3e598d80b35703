/** Runs that reach the corners: the exception, and what a reply or a PIN can do after the session has ended. */
module SessionWitness {
  import opened Wire
  import opened SessionSpec
  import opened SessionProof
  import opened SessionRuns
  import opened SessionDeadline

  // ---- Building runs ----

  lemma {:induction false} OneMore(s: Session, run: seq<Timed>, t: Timed)
    requires HostRun(s, run) && Enabled(After(s, run), t.input)
    ensures HostRun(s, run + [t]) && After(s, run + [t]) == Step(After(s, run), t.input, t.at)
    decreases |run|
  {
    hide Step, Safe, Allowed;
    if run == [] {
      assert run + [t] == [t] && [t][1..] == [];
    } else {
      assert (run + [t])[0] == run[0] && (run + [t])[1..] == run[1..] + [t];
      OneMore(Step(s, run[0].input, run[0].at), run[1..], t);
    }
  }

  // The run extended by one allowed input.
  lemma Extend(cfg: Config, auth: Auth, run: seq<Timed>, i: Input) returns (longer: seq<Timed>)
    requires Configured(Initial(cfg, auth)) && HostRun(Initial(cfg, auth), run)
    requires Allowed(After(Initial(cfg, auth), run), i)
    ensures longer == run + [Timed(i, 0)]
    ensures HostRun(Initial(cfg, auth), longer) && Enabled(After(Initial(cfg, auth), run), i)
    ensures After(Initial(cfg, auth), longer) == Step(After(Initial(cfg, auth), run), i, 0)
  {
    hide Initial, Step, Enabled, Allowed;
    NoStepIsStuck(cfg, auth, run, i);
    OneMore(Initial(cfg, auth), run, Timed(i, 0));
    longer := run + [Timed(i, 0)];
  }

  const GOOD: Reply := Reply(200, false, true, Usable, Some(true), true, true, true, true, true, true, true, true,
    6000, 6001, 0, false)

  // Connecting, after a first start().
  lemma Started(cfg: Config, auth: Auth) returns (run: seq<Timed>)
    requires Configured(Initial(cfg, auth))
    ensures HostRun(Initial(cfg, auth), run)
    ensures var s := After(Initial(cfg, auth), run);
      s.state == Connecting && s.link == Opening && s.cfg == cfg && s.auth == auth && s.fifo.methods == []
        && !s.waitingForPin
      && s.fifo.isHttp == [] && !s.rtsp.session
  {
    hide Watch, Log;
    run := Extend(cfg, auth, [], StartCall(true));
  }

  // ---- The exception is reached ----

  lemma FirstPost(s: Session)
    requires s.state == Connecting && s.link == Opening && s.fifo.methods == [] && s.fifo.isHttp == []
      && !s.waitingForPin
    requires IsHap(s.auth) && !(s.auth == HapPin && s.cfg.storedCreds)
    ensures var r := OnConnected(s, 0);
      && r.state == Pairing && r.link == Connected && r.fifo.methods == [POST] && r.fifo.isHttp == [true]
      && !r.waitingForPin
      && r.stage == (if s.auth == HapTransient then SetupM2 else PinStart) && r.auth == s.auth && r.keys.ap2.Some?
  {
    hide Watch, Log, Enqueue;
    var p := WithAp2(s.(link := Connected, state := Pairing), FRESH_AP2);
    EnqueueShape(p.(stage := SetupM2), POST, true);
    EnqueueShape(p.(stage := PinStart), POST, true);
    EnqueueKeys(p.(stage := SetupM2), POST, true);
    EnqueueKeys(p.(stage := PinStart), POST, true);
  }

  lemma EnqueueKeys(s: Session, m: Method, http: bool)
    ensures Enqueue(s, m, http).keys.ap2 == s.keys.ap2
  {
    hide Watch, Log;
  }

  /** A receiver can reach the exception with its first reply: transient pairing, and a B too long to pad. */
  lemma ExceptionIsReached(cfg: Config) returns (run: seq<Timed>, i: Input)
    ensures Configured(Initial(cfg, HapTransient)) && HostRun(Initial(cfg, HapTransient), run)
    ensures var s := After(Initial(cfg, HapTransient), run); Allowed(s, i) && Throws(s, i)
  {
    hide OnConnected, Initial;
    assert Configured(Initial(cfg, HapTransient)) by { AnyConfig(cfg); }
    run := Started(cfg, HapTransient);
    FirstPost(After(Initial(cfg, HapTransient), run));
    run := Extend(cfg, HapTransient, run, ConnectedNote);
    i := ReplyNote(GOOD.(serverKey := TooLong));
  }

  lemma AnyConfig(cfg: Config)
    ensures Configured(Initial(cfg, HapTransient)) && Configured(Initial(cfg, HapPin))
    ensures !cfg.airplay2 ==> Configured(Initial(cfg, Open))
  {
  }

  // ---- After the end ----

  // The RTSP handshake with request m outstanding.
  predicate Asking(s: Session, m: Method)
  {
    && s.state == Handshake && s.link == Connected && !s.cfg.airplay2 && s.fifo.methods == [m]
    && s.fifo.isHttp == [false]
    && (m == RECORD ==> s.rtsp.session)
  }

  lemma FirstRequest(s: Session)
    requires s.state == Connecting && s.link == Opening && s.auth == Open && !s.cfg.airplay2
    requires s.fifo.methods == [] && s.fifo.isHttp == []
    ensures Asking(OnConnected(s, 0), OPTIONS)
  {
    hide Watch, Log, Enqueue;
    EnqueueShape(s.(link := Connected, state := Handshake), OPTIONS, false);
  }

  lemma NextRequest(s: Session, m: Method, next: Method)
    requires Asking(s, m) && Safe(s)
    requires (m == OPTIONS && next == ANNOUNCE) || (m == ANNOUNCE && next == SETUP) || (m == SETUP && next == RECORD)
    ensures Asking(OnReply(s, GOOD, 0), next)
  {
    hide Watch, Log, Enqueue;
    var s1 := Pop(s);
    EnqueueShape(s1, next, false);
    EnqueueShape(s1.(rtsp := s1.rtsp.(serverPort := 6000, controlPort := 6001, session := true)), next, false);
  }

  lemma AskingSteps(s: Session)
    requires Asking(s, OPTIONS) || Asking(s, ANNOUNCE) || Asking(s, SETUP) || Asking(s, RECORD)
    ensures Allowed(s, ReplyNote(GOOD)) && Allowed(s, StopCall)
  {
  }

  lemma StopLeavesQueue(s: Session)
    requires Asking(s, RECORD)
    ensures var r := Stop(s, 0);
      r.state == Idle && r.fifo.methods == [RECORD, TEARDOWN] && r.fifo.isHttp == [false, false]
  {
    hide Watch, Log, Enqueue;
    EnqueueShape(s.(timers := StopTimers(s.timers)), TEARDOWN, false);
  }

  lemma Ask(cfg: Config, run: seq<Timed>, m: Method, next: Method) returns (longer: seq<Timed>)
    requires !cfg.airplay2 && HostRun(Initial(cfg, Open), run) && Asking(After(Initial(cfg, Open), run), m)
    requires (m == OPTIONS && next == ANNOUNCE) || (m == ANNOUNCE && next == SETUP) || (m == SETUP && next == RECORD)
    ensures HostRun(Initial(cfg, Open), longer) && Asking(After(Initial(cfg, Open), longer), next)
  {
    hide Initial, Asking, OnReply;
    assert Configured(Initial(cfg, Open)) by { AnyConfig(cfg); }
    AskingSteps(After(Initial(cfg, Open), run));
    longer := Extend(cfg, Open, run, ReplyNote(GOOD));
    NextRequest(After(Initial(cfg, Open), run), m, next);
  }

  /** stop() with RECORD unanswered leaves an idle session that a late reply would start again. */
  lemma LateRecordIsReached(cfg: Config) returns (run: seq<Timed>)
    requires !cfg.airplay2
    ensures Configured(Initial(cfg, Open)) && HostRun(Initial(cfg, Open), run)
    ensures var s := After(Initial(cfg, Open), run);
      s.state == Idle && s.fifo.methods == [RECORD, TEARDOWN] && s.fifo.isHttp == [false, false]
  {
    hide Initial, Asking, OnConnected, Stop;
    assert Configured(Initial(cfg, Open)) by { AnyConfig(cfg); }
    run := Started(cfg, Open);
    FirstRequest(After(Initial(cfg, Open), run));
    run := Extend(cfg, Open, run, ConnectedNote);
    run := Ask(cfg, run, OPTIONS, ANNOUNCE);
    run := Ask(cfg, run, ANNOUNCE, SETUP);
    run := Ask(cfg, run, SETUP, RECORD);
    AskingSteps(After(Initial(cfg, Open), run));
    StopLeavesQueue(After(Initial(cfg, Open), run));
    run := Extend(cfg, Open, run, StopCall);
  }

  // ---- A PIN wait that has been stopped ----

  predicate PinStarted(s: Session)
  {
    s.state == Pairing && s.link == Connected && s.fifo.methods == [POST] && s.fifo.isHttp == [true] && !s.waitingForPin
    && s.auth == HapPin && s.keys.ap2.Some?
  }

  lemma PinShown(s: Session)
    requires PinStarted(s) && s.stage == PinStart && Safe(s)
    ensures var r := OnReply(s, GOOD, 0); PinStarted(r) && r.stage == SetupM2
  {
    hide Watch, Log, Enqueue;
    EnqueueShape(Pop(s).(stage := SetupM2), POST, true);
    EnqueueKeys(Pop(s).(stage := SetupM2), POST, true);
  }

  predicate AwaitingPin(s: Session)
  {
    s.state == Pairing && s.link == Connected && s.waitingForPin && s.exchange.serverB == Usable && s.keys.ap2.Some?
  }

  lemma PinAsked(s: Session)
    requires PinStarted(s) && s.stage == SetupM2 && Safe(s)
    ensures AwaitingPin(OnReply(s, GOOD, 0))
  {
    hide Watch, Log;
  }

  lemma StopKeepsWaiting(s: Session)
    requires AwaitingPin(s)
    ensures var r := Stop(s, 0); r.state == Idle && r.waitingForPin && r.exchange.serverB == Usable && r.keys.ap2.Some?
  {
    hide Watch, Log, Enqueue;
    var s1 := s.(timers := StopTimers(s.timers));
    EnqueueShape(s1, TEARDOWN, false);
    EnqueueKeys(s1, TEARDOWN, false);
  }

  lemma PinWaitIsReached(cfg: Config) returns (run: seq<Timed>)
    requires !cfg.storedCreds
    ensures Configured(Initial(cfg, HapPin)) && HostRun(Initial(cfg, HapPin), run)
    ensures AwaitingPin(After(Initial(cfg, HapPin), run))
  {
    hide Initial, OnReply, PinStarted, AwaitingPin, Configured, Allowed;
    var before := PinStartAnswered(cfg);
    PinStartedTakes(After(Initial(cfg, HapPin), before));
    run := Extend(cfg, HapPin, before, ReplyNote(GOOD));
    PinAsked(After(Initial(cfg, HapPin), before));
  }

  lemma PinStartedTakes(s: Session)
    requires PinStarted(s)
    ensures Allowed(s, ReplyNote(GOOD)) && (Safe(s) ==> Step(s, ReplyNote(GOOD), 0) == OnReply(s, GOOD, 0))
  {
    hide OnReply;
  }

  lemma PinStartPosted(cfg: Config) returns (run: seq<Timed>)
    requires !cfg.storedCreds
    ensures Configured(Initial(cfg, HapPin)) && HostRun(Initial(cfg, HapPin), run)
    ensures var s := After(Initial(cfg, HapPin), run); PinStarted(s) && s.stage == PinStart
  {
    hide Initial, OnConnected;
    assert Configured(Initial(cfg, HapPin)) by { AnyConfig(cfg); }
    run := Started(cfg, HapPin);
    FirstPost(After(Initial(cfg, HapPin), run));
    run := Extend(cfg, HapPin, run, ConnectedNote);
  }

  lemma PinStartAnswered(cfg: Config) returns (run: seq<Timed>)
    requires !cfg.storedCreds
    ensures Configured(Initial(cfg, HapPin)) && HostRun(Initial(cfg, HapPin), run)
    ensures var s := After(Initial(cfg, HapPin), run); PinStarted(s) && s.stage == SetupM2
  {
    hide Initial, OnReply, PinStarted, Configured, Allowed;
    var before := PinStartPosted(cfg);
    PinStartedTakes(After(Initial(cfg, HapPin), before));
    run := Extend(cfg, HapPin, before, ReplyNote(GOOD));
    PinShown(After(Initial(cfg, HapPin), before));
  }

  /** stop() while the PIN is awaited leaves an idle session that still takes a PIN. */
  lemma LatePinIsReached(cfg: Config) returns (run: seq<Timed>)
    requires !cfg.storedCreds
    ensures Configured(Initial(cfg, HapPin)) && HostRun(Initial(cfg, HapPin), run)
    ensures var s := After(Initial(cfg, HapPin), run);
      s.state == Idle && s.waitingForPin && s.exchange.serverB == Usable && s.keys.ap2.Some?
  {
    hide Initial, Stop;
    run := PinWaitIsReached(cfg);
    StopKeepsWaiting(After(Initial(cfg, HapPin), run));
    run := Extend(cfg, HapPin, run, StopCall);
  }
}
