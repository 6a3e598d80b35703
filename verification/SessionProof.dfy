/** What every run of a session keeps: the event language, one outstanding request, an armed watchdog, fresh
    nonces, a checked receiver and a bounded handshake. */
module SessionProof {
  import opened Wire
  import opened SessionSpec

  predicate Starting(s: Session) { s.state == Connecting || s.state == Pairing || s.state == Handshake }

  predicate IsHap(a: Auth) { a == HapTransient || a == HapPin }

  // AirPlay 2 is only used with HAP pairing.
  predicate Configured(s: Session) { s.cfg.airplay2 ==> IsHap(s.auth) }

  predicate LinkFollowsState(s: Session)
  {
    match s.state
    case Idle => s.link == NotConnected
    case Connecting => s.link == Opening
    case _ => s.link == Connected
  }

  predicate StreamMethod(m: Method) { m == SET_PARAMETER || m == POST || m == FEEDBACK }
  predicate SetupMethod(m: Method) { m == OPTIONS || m == ANNOUNCE || m == SETUP || m == RECORD }

  // RECORD is only sent once SETUP has told the audio port and a Session value.
  predicate PortKnown(s: Session, m: Method) { m == RECORD ==> s.rtsp.serverPort != 0 && s.rtsp.session }

  // The keep-alive of AirPlay 2 is no POST, so no answer can switch its timer.
  predicate StreamRequest(c: Config, m: Method) { StreamMethod(m) && (c.airplay2 ==> m != POST) }

  // Where the stream goes; AirPlay 2 always has a control port, AirPlay 1 a Session value to tear down.
  predicate Routed(c: Config, r: Rtsp) { r.serverPort != 0 && if c.airplay2 then r.controlPort != 0 else r.session }

  // In Pairing and Handshake exactly one request is unanswered; none while the PIN is awaited, or when computing the
  // proof for M3 has thrown.
  predicate OneOutstanding(s: Session)
  {
    var q := s.fifo;
    && |q.methods| == |q.isHttp|
    && match s.state
      case Idle => true
      case Connecting => q.methods == [] && !s.waitingForPin && !s.exchange.aborted
      case Pairing =>
        if s.waitingForPin then q.methods == [] && s.stage == SetupM2 && s.auth == HapPin && !s.exchange.aborted
        else if s.exchange.aborted then q.methods == [] && s.stage == SetupM2
        else q.methods == [POST] && q.isHttp == [true]
      case Handshake =>
        && !s.waitingForPin && !s.exchange.aborted && |q.methods| == 1 && q.isHttp == [s.cfg.airplay2]
        && (!s.cfg.airplay2 ==> SetupMethod(q.methods[0]) && PortKnown(s, q.methods[0]))
      case Streaming =>
        && !s.waitingForPin && !s.exchange.aborted
        && forall i :: 0 <= i < |q.methods| ==> StreamRequest(s.cfg, q.methods[i]) && !q.isHttp[i]
  }

  predicate HasSecret(k: Keys) { k.ap2.Some? && k.ap2.value.secret.Some? }

  // Pairing under way: the state exists, nothing has been agreed on yet.
  predicate Unkeyed(k: Keys) { k.ap2.Some? && k.ap2.value.secret.None? }

  predicate AudioUnkeyed(k: Keys) { k.ap2.Some? ==> k.ap2.value.audioKey.None? }

  // Only verification derives a key for the event channel.
  predicate EventKeyFits(a: Auth, k: Keys) { k.ap2.Some? && (k.ap2.value.eventKey.Some? <==> a == HapPin) }

  predicate AudioKeyed(k: Keys) { k.ap2.Some? && k.ap2.value.audioKey.Some? }

  predicate StageFits(s: Session)
  {
    match s.state
    case Idle => true
    case Connecting => s.stage == Unstarted && !s.rtsp.retried && !s.triedTransient && s.keys.ap2.None?
                       && !s.keys.controlEncrypted
    case Pairing => !s.keys.controlEncrypted && AudioUnkeyed(s.keys) && PairingStageFits(s)
    case Handshake =>
      if s.cfg.airplay2 then
        && (s.stage == Ap2Info || s.stage == Ap2Session || s.stage == Ap2Record || s.stage == Ap2Stream)
        && HasSecret(s.keys) && s.keys.controlEncrypted && EventKeyFits(s.auth, s.keys)
        && (if s.stage == Ap2Stream then AudioKeyed(s.keys) else AudioUnkeyed(s.keys))
      else (s.stage == Unstarted || s.stage == Done) && (IsHap(s.auth) ==> HasSecret(s.keys))
    case Streaming =>
      && (if s.cfg.airplay2 then s.stage == Ap2Stream else s.stage == Unstarted || s.stage == Done)
      && (IsHap(s.auth) ==> HasSecret(s.keys)) && Routed(s.cfg, s.rtsp)
      && (s.cfg.airplay2 ==> s.keys.controlEncrypted && AudioKeyed(s.keys) && EventKeyFits(s.auth, s.keys))
  }

  predicate PairingStageFits(s: Session)
  {
    match s.stage
    case AuthSetup => s.auth == MfiSetup && s.keys.ap2.None?
    case PinStart => s.auth == HapPin && Unkeyed(s.keys)
    case SetupM2 => IsHap(s.auth) && Unkeyed(s.keys)
    case SetupM4 => IsHap(s.auth) && Unkeyed(s.keys) && s.keys.ap2.value.srp
    case SetupM6 => s.auth == HapPin && Unkeyed(s.keys)
    case VerifyM2 => s.auth == HapPin && Unkeyed(s.keys) && s.keys.ap2.value.accessoryKnown
    case VerifyDone => s.auth == HapPin && HasSecret(s.keys) && s.keys.ap2.value.eventKey.Some?
    case _ => false
  }

  // The timers of a stream run only while streaming.
  predicate StreamTimersOff(t: Timers) { t.feedback.Off? && t.sync.Off? && t.pacer.Off? }

  // While streaming the pacer and the sync timer run, and in AirPlay 2 the keep-alive every two seconds.
  predicate StreamTimersRun(c: Config, t: Timers)
  {
    t.sync.Due? && t.pacer.Due? && KeepAliveRuns(c, t)
  }

  predicate KeepAliveRuns(c: Config, t: Timers)
  {
    c.airplay2 ==> t.feedback.Due? && t.feedbackMs == FEEDBACK_AP2_MS
  }

  // While a session is starting a watchdog runs: the handshake timer, or the PIN timer while the PIN is awaited.
  predicate Watched(s: Session)
  {
    var t := s.timers;
    match s.state
    case Idle => t.pin.Off? && StreamTimersOff(t)
    case Streaming => t.pin.Off? && t.timeout.Off? && StreamTimersRun(s.cfg, t)
    case _ => StreamTimersOff(t) && if s.waitingForPin then t.pin.Due? && t.timeout.Off?
                                    else t.timeout.Due? && t.pin.Off?
  }

  // The events since the last start() fit the state: nothing yet while starting, launched(true) while streaming.
  predicate EventsFit(state: State, w: Progress)
  {
    && w.phase != Broken
    && match state
      case Idle => true
      case Streaming => w.phase == Running && w.streams == 1
      case _ => w.phase == Quiet && w.streams == 0
  }

  // No counter has been used twice, every key seen is an old one, and the next counters of the live keys are ahead
  // of everything sealed under them.
  predicate CountersFresh(k: Keys, w: Usage)
  {
    && !w.reused
    && (forall c :: c in w.used ==> c.1 < k.agreements)
    && (k.ap2.Some? ==> LiveKeysAhead(k, k.ap2.value, w))
  }

  predicate LiveKeysAhead(k: Keys, a: Ap2, w: Usage)
  {
    && a.controlKey == a.secret
    && (a.eventKey.Some? ==> a.eventKey == a.secret)
    && (a.audioKey.Some? ==> a.audioKey == a.secret)
    && (a.secret.Some? ==>
        var n := a.secret.value;
        && n < k.agreements
        && UsedUpTo(w, Control, n) <= (if k.controlEncrypted then k.ctrlSendCtr else 0)
        && UsedUpTo(w, Event, n) <= (if a.eventKey.Some? then k.eventSendCtr else 0)
        && UsedUpTo(w, Audio, n) <= (if a.audioKey.Some? then a.audioNonce else 0))
  }

  // In strict mode nothing gets past a failed check, and a key agreement means its check has passed.
  predicate ReceiverChecked(s: Session, w: Progress)
  {
    s.cfg.strict && s.state != Idle ==>
      && !w.failedCheck && (w.paired ==> w.proofOk)
      && (s.state == Pairing && s.stage == SetupM6 ==> w.proofOk)
      && (HasSecret(s.keys) ==> w.signatureOk || (w.proofOk && s.auth == HapTransient))
  }

  // Requests of the part after pairing: four, and one digest retry.
  function TailRequests(c: Config): nat { if !c.airplay2 && c.password then 5 else 4 }

  // The most handshake requests that can still be sent.
  function Rank(s: Session): nat
  {
    if s.exchange.aborted then 0 else LiveRank(s)
  }

  function LiveRank(s: Session): nat
  {
    var tail := TailRequests(s.cfg);
    match s.state
    case Connecting =>
      (match s.auth
       case MfiSetup => 1 + tail
       case LegacyPin => 0
       case HapTransient => 9 + tail
       case HapPin => if s.cfg.storedCreds then 2 + tail else 8 + tail
       case _ => tail)
    case Pairing => PairingRank(s) + tail
    case Handshake =>
      if s.cfg.airplay2 then (match s.stage case Ap2Info => 3 case Ap2Session => 2 case Ap2Record => 1 case _ => 0)
      else if s.fifo.methods == [] then 0
      else SetupRank(s.fifo.methods[0]) + (if s.cfg.password && !s.rtsp.retried then 1 else 0)
    case _ => 0
  }

  function SetupRank(m: Method): nat
  {
    match m case OPTIONS => 3 case ANNOUNCE => 2 case SETUP => 1 case _ => 0
  }

  function PairingRank(s: Session): nat
  {
    match s.stage
    case PinStart => if s.triedTransient then 5 else 7
    case SetupM2 => if s.auth == HapPin then 4 else if s.triedTransient then 6 else 8
    case SetupM4 => if s.auth == HapTransient then 0 else 3
    case SetupM6 => 2
    case VerifyM2 => 1
    case _ => 0
  }

  function RequestLimit(c: Config): nat { 9 + TailRequests(c) }

  // What has been sent and not answered is what the queue holds, in order and with its routing.
  predicate Outstanding(q: Fifo, w: Progress) { w.unanswered == q.methods && w.routes == q.isHttp }

  // Everything but the outstanding request and the timers.
  predicate Sound(s: Session, w: Seen)
  {
    && Configured(s) && LinkFollowsState(s) && StageFits(s) && EventsFit(s.state, w.now)
    && CountersFresh(s.keys, w.keys) && ReceiverChecked(s, w.now) && Outstanding(s.fifo, w.now)
  }

  predicate InvW(s: Session, w: Seen)
  {
    Sound(s, w) && OneOutstanding(s) && Watched(s) && w.now.requests + Rank(s) <= RequestLimit(s.cfg)
  }

  predicate Inv(s: Session) { InvW(s, Watch(s.trace)) }

  // A session that has ended by itself has told so: launched(false) unless it was launched, and closed, last of all.
  predicate Told(s: Session)
  {
    s.state == Idle ==> s.trace != [] && s.trace[|s.trace| - 1] == Closed && Watch(s.trace).now.phase == Over
  }

  lemma InvIsSafe(s: Session)
    requires Inv(s)
    ensures Safe(s) && (s.link == Connected <==> s.state != Idle && s.state != Connecting)
  {
    hide CountersFresh, EventsFit, ReceiverChecked;
  }

  // ---- Ending ----

  // All that fail_() needs to leave a consistent idle session behind.
  predicate CanFail(s: Session)
  {
    var w := Watch(s.trace);
    && s.state != Idle && Configured(s) && |s.fifo.methods| == |s.fifo.isHttp| && EventsFit(s.state, w.now)
    && CountersFresh(s.keys, w.keys) && w.now.requests <= RequestLimit(s.cfg) && Outstanding(s.fifo, w.now)
  }

  lemma FailKeeps(s: Session)
    requires CanFail(s)
    ensures Inv(Fail(s)) && Told(Fail(s)) && Fail(s).state == Idle
  {
    hide Watch, Log, CountersFresh;
    LastLogged(if s.state != Streaming then Log(s.(state := Idle, link := NotConnected, timers := StopTimers(s.timers)),
                                                Launched(false))
               else s.(state := Idle, link := NotConnected, timers := StopTimers(s.timers)), Closed);
  }

  lemma LastLogged(s: Session, o: Obs)
    ensures Log(s, o).trace != [] && Log(s, o).trace[|Log(s, o).trace| - 1] == o
  {
    hide Watch;
  }

  // ---- Sending ----

  predicate SameButCounters(k: Keys, l: Keys)
  {
    k.ap2 == l.ap2 && k.controlEncrypted == l.controlEncrypted && k.eventSendCtr == l.eventSendCtr
    && k.agreements == l.agreements
  }

  // Queueing a request keeps the counters fresh and touches nothing but the queue, the send counter and the trace.
  lemma EnqueueEffect(s: Session, m: Method, http: bool)
    requires CountersFresh(s.keys, Watch(s.trace).keys)
    ensures var r := Enqueue(s, m, http);
      && r == s.(fifo := Push(s.fifo, m, http), keys := r.keys, trace := r.trace)
      && SameButCounters(r.keys, s.keys)
      && CountersFresh(r.keys, Watch(r.trace).keys)
      && Watch(r.trace).now == AdvanceProgress(Watch(s.trace).now, Sent(m, http))
  {
    hide Watch, Log;
  }

  // Ready to send the one request of the step it is in; `m` and `http` are what will be outstanding.
  predicate AboutToSend(s: Session, m: Method, http: bool)
  {
    var w := Watch(s.trace);
    && Sound(s, w) && (s.state == Pairing || s.state == Handshake)
    && s.fifo.methods == [] && s.fifo.isHttp == [] && !s.waitingForPin && !s.exchange.aborted
    && StreamTimersOff(s.timers) && s.timers.pin.Off?
    && (s.state == Pairing ==> m == POST && http)
    && (s.state == Handshake ==> http == s.cfg.airplay2 && (!s.cfg.airplay2 ==> SetupMethod(m) && PortKnown(s, m)))
    && w.now.requests + 1 + Rank(s.(fifo := Push(s.fifo, m, http))) <= RequestLimit(s.cfg)
    && m != TEARDOWN
  }

  lemma SendKeeps(s: Session, m: Method, http: bool, now: nat)
    requires AboutToSend(s, m, http)
    ensures Inv(ArmTimeout(Enqueue(s, m, http), now)) && Told(ArmTimeout(Enqueue(s, m, http), now))
  {
    hide Watch, Log, Enqueue, CountersFresh;
    EnqueueEffect(s, m, http);
  }

  // A key agreement under a new number leaves every earlier counter behind.
  lemma AgreeKeepsFresh(s: Session, withEvents: bool)
    requires Unkeyed(s.keys) && AudioUnkeyed(s.keys) && CountersFresh(s.keys, Watch(s.trace).keys)
    ensures var k := Agree(s, withEvents).keys; CountersFresh(k, Watch(s.trace).keys) && HasSecret(k)
  {
    hide Watch;
  }

  // Enabling encryption restarts the counter before the key's first use.
  lemma EncryptKeepsFresh(k: Keys, w: Usage)
    requires CountersFresh(k, w) && !k.controlEncrypted
    ensures CountersFresh(k.(controlEncrypted := true, ctrlSendCtr := 0), w)
  {
  }

  // Pairing has succeeded and its last reply has been taken off the queue.
  predicate PairingOver(s: Session)
  {
    var w := Watch(s.trace);
    && s.state == Pairing && s.stage == Done && Configured(s) && LinkFollowsState(s)
    && !s.keys.controlEncrypted && AudioUnkeyed(s.keys) && (IsHap(s.auth) ==> HasSecret(s.keys))
    && (s.cfg.airplay2 ==> EventKeyFits(s.auth, s.keys))
    && EventsFit(s.state, w.now) && CountersFresh(s.keys, w.keys) && ReceiverChecked(s, w.now)
    && Idling(s) && w.now.requests + TailRequests(s.cfg) <= RequestLimit(s.cfg) && Outstanding(s.fifo, w.now)
  }

  // Nothing outstanding, no PIN awaited, no timer but the handshake watchdog.
  predicate Idling(s: Session)
  {
    s.fifo.methods == [] && s.fifo.isHttp == [] && !s.waitingForPin && !s.exchange.aborted
    && StreamTimersOff(s.timers) && s.timers.pin.Off?
  }

  lemma AfterAuthKeeps(s: Session, now: nat)
    requires PairingOver(s)
    ensures Inv(AfterAuthOk(s, now)) && Told(AfterAuthOk(s, now)) && AfterAuthOk(s, now).state == Handshake
  {
    hide Watch, Log, Enqueue, CountersFresh;
    var s1 := s.(rtsp := s.rtsp.(retried := false), state := Handshake);
    if s.cfg.airplay2 {
      ControlKeyIsSecret(s.keys, Watch(s.trace).keys);
      EncryptKeepsFresh(s.keys, Watch(s.trace).keys);
      SendKeeps(s1.(keys := s.keys.(controlEncrypted := true, ctrlSendCtr := 0), stage := Ap2Info), GET, true, now);
      EnqueueEffect(s1.(keys := s.keys.(controlEncrypted := true, ctrlSendCtr := 0), stage := Ap2Info), GET, true);
    } else {
      SendKeeps(s1, OPTIONS, false, now);
      EnqueueEffect(s1, OPTIONS, false);
    }
  }

  lemma ControlKeyIsSecret(k: Keys, w: Usage)
    requires CountersFresh(k, w) && HasSecret(k)
    ensures k.ap2.value.controlKey.Some?
  {
  }

  // Keys whose numbers do not change stay fresh.
  lemma SameNumbers(k: Keys, a: Ap2, w: Usage)
    requires CountersFresh(k, w) && k.ap2.Some?
    requires a == k.ap2.value.(srp := a.srp, accessoryKnown := a.accessoryKnown, eventPort := a.eventPort)
    ensures CountersFresh(k.(ap2 := Some(a)), w)
  {
  }

  lemma FreshAp2IsFresh(k: Keys, a: Ap2, w: Usage)
    requires CountersFresh(k, w) && a.secret.None? && a.controlKey.None? && a.eventKey.None? && a.audioKey.None?
    ensures CountersFresh(k.(ap2 := Some(a)), w)
  {
  }

  // ---- The PIN ----

  lemma M3Keeps(s: Session, now: nat)
    requires Sound(s, Watch(s.trace)) && Idling(s) && s.state == Pairing && s.stage == SetupM2 && s.timers.timeout.Due?
    requires Watch(s.trace).now.requests + 1 + (if s.auth == HapTransient then 0 else 3) + TailRequests(s.cfg)
          <= RequestLimit(s.cfg)
    ensures Inv(SendPairSetupM3(s, now)) && Told(SendPairSetupM3(s, now))
  {
    hide Watch, Log, Enqueue, CountersFresh;
    var a := s.keys.ap2.value.(srp := true);
    SameNumbers(s.keys, a, Watch(s.trace).keys);
    match s.exchange.serverB
    case Zero => FailKeeps(WithAp2(s, a));
    case TooLong => ThrownKeeps(s, a);
    case Usable => SendKeeps(WithAp2(s, a).(stage := SetupM4), POST, true, now);
  }

  // The call left by the exception leaves a session that waits for its watchdog.
  lemma ThrownKeeps(s: Session, a: Ap2)
    requires Sound(s, Watch(s.trace)) && Idling(s) && s.state == Pairing && s.stage == SetupM2 && s.timers.timeout.Due?
    requires Watch(s.trace).now.requests <= RequestLimit(s.cfg) && s.keys.ap2.Some?
      && a == s.keys.ap2.value.(srp := true)
    requires CountersFresh(s.keys.(ap2 := Some(a)), Watch(s.trace).keys)
    ensures Inv(WithAp2(s, a).(exchange := s.exchange.(aborted := true)))
    ensures Told(WithAp2(s, a).(exchange := s.exchange.(aborted := true)))
  {
    hide Watch, CountersFresh;
  }

  lemma SubmitPinKeeps(s: Session, now: nat)
    requires Inv(s) && s.state != Idle
    ensures Inv(SubmitPin(s, now)) && Told(SubmitPin(s, now))
  {
    hide Watch, Log, CountersFresh, SendPairSetupM3;
    if s.waitingForPin {
      M3Keeps(ArmTimeout(s.(waitingForPin := false, timers := s.timers.(pin := Off)), now), now);
    }
  }

  // ---- Replies to pairing requests ----

  // A reply has just been taken off the queue in Pairing, or in an AirPlay 2 handshake.
  predicate Popped(s: Session)
  {
    var w := Watch(s.trace);
    && Sound(s, w) && Idling(s) && (s.state == Pairing || (s.state == Handshake && s.cfg.airplay2))
    && s.timers.timeout.Due? && w.now.requests + Rank(s) <= RequestLimit(s.cfg)
  }

  function Pop(s: Session): Session
    requires s.fifo.methods != [] && s.fifo.isHttp != []
  {
    Log(s.(fifo := Fifo(s.fifo.methods[1..], s.fifo.isHttp[1..], s.fifo.sentEver)),
      Answered(s.fifo.methods[0], s.fifo.isHttp[0]))
  }

  lemma PopKeepsRank(s: Session)
    requires Inv(s) && s.fifo.methods != [] && s.fifo.isHttp != [] && s.fifo.isHttp[0] && s.state != Idle
    ensures Popped(Pop(s))
  {
    hide Watch, CountersFresh, Log;
  }

  lemma M2Keeps(s: Session, r: Reply, now: nat)
    requires Popped(s) && s.stage == SetupM2
    ensures Inv(HandleM2(s, r, now)) && Told(HandleM2(s, r, now))
  {
    hide Watch, Log, CountersFresh, SendPairSetupM3;
    if r.tlvError || !r.saltAndKey {
      FailKeeps(s);
    } else if s.auth == HapTransient {
      M3Keeps(s.(exchange := s.exchange.(serverB := r.serverKey)), now);
    }
  }

  lemma M4Keeps(s: Session, r: Reply, now: nat)
    requires Popped(s) && s.stage == SetupM4
    ensures Inv(HandleM4(s, r, now)) && Told(HandleM4(s, r, now))
    ensures var s' := HandleM4(s, r, now);
      if r.tlvError || (s.cfg.strict && r.proof != Some(true)) then s'.state == Idle
      else if s.auth == HapTransient then s'.state == Handshake && HasSecret(s'.keys)
      else s'.state == Pairing && s'.stage == SetupM6 && s'.fifo.methods == [POST]
  {
    hide Watch, Log, CountersFresh, Enqueue, AfterAuthOk, HttpPost, Agree, Inv, Fail;
    var ok := r.proof == Some(true);
    var s1 := Log(s, Checked(SrpProof, ok));
    if r.tlvError {
      FailKeeps(s);
    } else if !ok && s.cfg.strict {
      AfterProof(s, s1, ok);
      FailKeeps(s1);
    } else if s.auth == HapTransient {
      ProvedTransient(s, s1, now);
    } else {
      ProvedNormal(s, s1, now);
    }
  }

  lemma AfterProof(s0: Session, s: Session, ok: bool)
    requires Popped(s0) && s0.stage == SetupM4 && s == Log(s0, Checked(SrpProof, ok))
    ensures CanFail(s)
  {
    hide Watch, Log, CountersFresh;
  }

  // The proof has been checked, and in strict mode it was right.
  lemma ProvedTransient(s0: Session, s: Session, now: nat)
    requires Popped(s0) && s0.stage == SetupM4 && s0.auth == HapTransient
    requires exists ok :: s == Log(s0, Checked(SrpProof, ok)) && (s.cfg.strict ==> ok)
    ensures var r := AfterAuthOk(Agree(s, false).(stage := Done), now);
      Inv(r) && r.state == Handshake && HasSecret(r.keys)
  {
    hide Watch, Log, CountersFresh, Enqueue, AfterAuthOk;
    AgreeKeepsFresh(s, false);
    NoEventKey(s.keys, Watch(s.trace).keys);
    AfterAuthKeeps(Agree(s, false).(stage := Done), now);
    AfterAuthSecret(Agree(s, false).(stage := Done), now);
  }

  lemma NoEventKey(k: Keys, w: Usage)
    requires CountersFresh(k, w) && Unkeyed(k)
    ensures k.ap2.value.eventKey.None?
  {
  }

  lemma AfterAuthSecret(s: Session, now: nat)
    requires CountersFresh(s.keys, Watch(s.trace).keys)
    ensures HasSecret(AfterAuthOk(s, now).keys) == HasSecret(s.keys)
  {
    hide Watch, Log, Enqueue, CountersFresh;
    var s1 := s.(rtsp := s.rtsp.(retried := false), state := Handshake);
    var keyed := s.keys.ap2.Some? && s.keys.ap2.value.controlKey.Some?;
    var s2 := if keyed then s1.(keys := s.keys.(controlEncrypted := true, ctrlSendCtr := 0)) else s1;
    EnqueueSecret(s1, OPTIONS, false);
    EnqueueSecret(s2.(stage := Ap2Info), GET, true);
  }

  lemma EnqueueSecret(s: Session, m: Method, http: bool)
    ensures HasSecret(Enqueue(s, m, http).keys) == HasSecret(s.keys)
  {
    hide Watch, Log;
  }

  lemma ProvedNormal(s0: Session, s: Session, now: nat)
    requires Popped(s0) && s0.stage == SetupM4 && s0.auth != HapTransient
    requires exists ok :: s == Log(s0, Checked(SrpProof, ok)) && (s.cfg.strict ==> ok)
    ensures var r := HttpPost(s.(stage := SetupM6), now);
      Inv(r) && r.state == Pairing && r.stage == SetupM6 && r.fifo.methods == [POST]
  {
    hide Watch, Log, CountersFresh, Enqueue;
    SendKeeps(s.(stage := SetupM6), POST, true, now);
    EnqueueEffect(s.(stage := SetupM6), POST, true);
  }

  lemma M6Keeps(s: Session, r: Reply, now: nat)
    requires Popped(s) && s.stage == SetupM6
    ensures Inv(HandleM6(s, r, now)) && Told(HandleM6(s, r, now))
  {
    hide Watch, Log, CountersFresh, Enqueue;
    if r.tlvError || !r.sealedKeys || !r.keysOpen || !r.keysComplete {
      FailKeeps(s);
    } else {
      var a := s.keys.ap2.value.(accessoryKnown := true);
      SameNumbers(s.keys, a, Watch(s.trace).keys);
      SendKeeps(Log(WithAp2(s, a), CredentialsObtained).(stage := VerifyM2), POST, true, now);
    }
  }

  lemma VerifyM2Keeps(s: Session, r: Reply, now: nat)
    requires Popped(s) && s.stage == VerifyM2
    ensures Inv(HandleVerifyM2(s, r, now)) && Told(HandleVerifyM2(s, r, now))
    ensures s.cfg.strict && !(s.keys.ap2.value.accessoryKnown && r.signatureOk) ==>
              HandleVerifyM2(s, r, now).state == Idle
  {
    hide Watch, Log, CountersFresh, Agree, HttpPost, Inv;
    var ok := s.keys.ap2.value.accessoryKnown && r.signatureOk;
    var s1 := Log(s, Checked(VerifySignature, ok));
    if r.tlvError || !r.verifyComplete || !r.secretOk || !r.verifyOpens || !r.signed {
      FailKeeps(s);
    } else if !ok && s.cfg.strict {
      FailKeeps(s1);
    } else {
      VerifiedKeeps(s, s1, now);
    }
  }

  lemma VerifiedKeeps(s0: Session, s: Session, now: nat)
    requires Popped(s0) && s0.stage == VerifyM2
    requires exists ok :: s == Log(s0, Checked(VerifySignature, ok)) && (s.cfg.strict ==> ok)
    ensures Inv(HttpPost(Agree(s, true).(stage := VerifyDone), now))
    ensures Told(HttpPost(Agree(s, true).(stage := VerifyDone), now))
  {
    hide Watch, Log, CountersFresh, Enqueue;
    AgreeKeepsFresh(s, true);
    SendKeeps(Agree(s, true).(stage := VerifyDone), POST, true, now);
  }

  lemma RefusedKeeps(s: Session, r: Reply, now: nat)
    requires Popped(s)
    ensures Inv(OnPairingRefused(s, r, now)) && Told(OnPairingRefused(s, r, now))
    ensures var s' := OnPairingRefused(s, r, now);
      if r.code == 470 && s.auth == HapTransient && s.stage == SetupM2 then
        s'.state == s.state && s'.auth == HapPin && s'.stage == PinStart && s'.fifo.methods == [POST]
      else if r.code == 403 && s.stage == PinStart && !s.triedTransient then
        s'.state == s.state && s'.auth == HapTransient && s'.triedTransient && s'.stage == SetupM2
        && s'.fifo.methods == [POST]
      else s'.state == Idle
  {
    hide Watch, Log, CountersFresh, Enqueue;
    FreshAp2IsFresh(s.keys, FRESH_AP2, Watch(s.trace).keys);
    if r.code == 470 && s.auth == HapTransient && s.stage == SetupM2 {
      var s1 := WithAp2(s.(auth := HapPin), FRESH_AP2).(stage := PinStart);
      SendKeeps(s1, POST, true, now);
      EnqueueEffect(s1, POST, true);
    } else if r.code == 403 && s.stage == PinStart && !s.triedTransient {
      var s1 := WithAp2(s.(triedTransient := true, auth := HapTransient), FRESH_AP2).(stage := SetupM2);
      SendKeeps(s1, POST, true, now);
      EnqueueEffect(s1, POST, true);
    } else {
      FailKeeps(s);
    }
  }

  // ---- AirPlay 2 SETUP ----

  lemma Ap2SessionKeeps(s: Session, r: Reply, now: nat)
    requires Popped(s) && s.state == Handshake && s.stage == Ap2Session
    ensures Inv(HandleAp2Session(s, r, now)) && Told(HandleAp2Session(s, r, now))
  {
    hide Watch, Log, CountersFresh, Enqueue;
    var a := s.keys.ap2.value.(eventPort := r.eventPort);
    SameNumbers(s.keys, a, Watch(s.trace).keys);
    SendKeeps(WithAp2(s, a).(stage := Ap2Record), RECORD, true, now);
  }

  lemma Ap2RecordKeeps(s: Session, now: nat)
    requires Popped(s) && s.state == Handshake && s.stage == Ap2Record
    ensures Inv(SendAp2SetupStream(s, now)) && Told(SendAp2SetupStream(s, now))
  {
    hide Watch, Log, CountersFresh, Enqueue;
    var a := s.keys.ap2.value.(audioKey := s.keys.ap2.value.secret, audioNonce := 0);
    AudioKeyIsFresh(s.keys, a, Watch(s.trace).keys);
    SendKeeps(WithAp2(s, a).(stage := Ap2Stream), SETUP, true, now);
  }

  lemma AudioKeyIsFresh(k: Keys, a: Ap2, w: Usage)
    requires CountersFresh(k, w) && k.ap2.Some? && k.ap2.value.audioKey.None?
    requires a == k.ap2.value.(audioKey := k.ap2.value.secret, audioNonce := 0)
    ensures CountersFresh(k.(ap2 := Some(a)), w)
  {
  }

  // ---- Streaming ----

  // A stream is up; `phase` says whether launched(true) has been raised yet.
  predicate StreamCore(s: Session, phase: Phase)
  {
    var w := Watch(s.trace);
    && s.state == Streaming && Configured(s) && s.link == Connected && StageFits(s) && OneOutstanding(s)
    && CountersFresh(s.keys, w.keys) && ReceiverChecked(s, w.now) && s.timers.pin.Off? && s.timers.timeout.Off?
    && w.now.phase == phase && phase != Broken && Outstanding(s.fifo, w.now) && w.now.streams == 1
    && w.now.requests <= RequestLimit(s.cfg) && StreamClock(s.cfg, s.timers, phase)
  }

  // The sync timer runs first, the others before launched(true) is raised.
  predicate StreamClock(c: Config, t: Timers, phase: Phase)
  {
    t.sync.Due? && (phase == Running ==> StreamTimersRun(c, t))
  }

  lemma StreamCoreIsInv(s: Session)
    ensures StreamCore(s, Running) <==> Inv(s) && s.state == Streaming
  {
    hide Watch, CountersFresh;
  }

  lemma StreamSend(s: Session, m: Method, phase: Phase)
    requires StreamCore(s, phase) && StreamRequest(s.cfg, m)
    ensures var r := Enqueue(s, m, false);
      StreamCore(r, phase) && r == s.(fifo := r.fifo, keys := r.keys, trace := r.trace)
  {
    hide Watch, Enqueue, CountersFresh;
    EnqueueEffect(s, m, false);
  }

  lemma MetadataKeeps(s: Session, now: nat, phase: Phase)
    requires StreamCore(s, phase)
    ensures StreamCore(SendMetadata(s, now), phase) && SendMetadata(s, now).timers == s.timers
  {
    hide StreamCore, Enqueue;
    IsStreaming(s, phase);
    if s.wishes.text {
      StreamSend(s, SET_PARAMETER, phase);
    }
    var s1 := if s.wishes.text then SendRequest(s, SET_PARAMETER, now) else s;
    if s.wishes.cover {
      StreamSend(s1, SET_PARAMETER, phase);
    }
  }

  lemma IsStreaming(s: Session, phase: Phase)
    requires StreamCore(s, phase)
    ensures s.state == Streaming
  {
  }

  // Entering the stream: the ports are known and the last handshake request is answered.
  predicate ReadyToStream(s: Session)
  {
    var w := Watch(s.trace);
    && Sound(s, w) && Idling(s) && s.state == Handshake && Routed(s.cfg, s.rtsp)
    && (s.cfg.airplay2 ==> s.stage == Ap2Stream) && w.now.requests <= RequestLimit(s.cfg)
  }

  lemma OpenStreamKeeps(s: Session, now: nat)
    requires ReadyToStream(s)
    ensures StreamCore(OpenStream(s, now), Quiet)
  {
    hide Watch, Log, CountersFresh;
  }

  // Arming the stream's own timers and storing wishes changes nothing the stream relies on.
  lemma StreamTimersFree(s: Session, t: Timers, w: Wishes, phase: Phase)
    requires StreamCore(s, phase) && t.pin.Off? && t.timeout.Off? && StreamClock(s.cfg, t, phase)
    ensures StreamCore(s.(timers := t, wishes := w), phase)
  {
    hide Watch, CountersFresh;
  }

  lemma StreamShape(s: Session, phase: Phase)
    requires StreamCore(s, phase)
    ensures s.state == Streaming && s.timers.pin.Off? && s.timers.timeout.Off? && StreamClock(s.cfg, s.timers, phase)
  {
  }

  lemma LaunchKeeps(s: Session, now: nat)
    requires StreamCore(s, Quiet)
    ensures Inv(LaunchStream(s, now)) && Told(LaunchStream(s, now)) && LaunchStream(s, now).state == Streaming
  {
    hide StreamCore, Enqueue, SendMetadata, Log, Watch, Inv;
    StreamShape(s, Quiet);
    if s.wishes.volume {
      StreamSend(s, SET_PARAMETER, Quiet);
    }
    var s1 := if s.wishes.volume then SendRequest(s, SET_PARAMETER, now) else s;
    StreamShape(s1, Quiet);
    var s2 := s1.(timers := s1.timers.(pacer := Due(now + PACER_MS)));
    StreamTimersFree(s1, s2.timers, s1.wishes, Quiet);
    var t := if s.cfg.airplay2 then s2.timers.(feedbackMs := FEEDBACK_AP2_MS, feedback := Due(now + FEEDBACK_AP2_MS))
             else s2.timers.(feedbackMs := FEEDBACK_AP1_MS);
    StreamTimersFree(s2, t, s2.wishes, Quiet);
    if !s.cfg.airplay2 {
      StreamSend(s2.(timers := t), POST, Quiet);
    }
    var s3 := if s.cfg.airplay2 then s2.(timers := t) else SendRequest(s2.(timers := t), POST, now);
    MetadataKeeps(s3, now, Quiet);
    LaunchedKeeps(SendMetadata(s3, now));
  }

  lemma LaunchedKeeps(s: Session)
    requires StreamCore(s, Quiet) && StreamTimersRun(s.cfg, s.timers)
    ensures Inv(Log(s, Launched(true))) && Told(Log(s, Launched(true))) && Log(s, Launched(true)).state == Streaming
  {
    hide Watch, Log, CountersFresh;
  }

  lemma Ap2StreamKeeps(s: Session, r: Reply, now: nat)
    requires Popped(s) && s.state == Handshake && s.stage == Ap2Stream
    ensures Inv(HandleAp2Stream(s, r, now)) && Told(HandleAp2Stream(s, r, now))
  {
    hide Watch, CountersFresh, OpenStream, LaunchStream;
    var s1 := s.(rtsp := s.rtsp.(serverPort := r.serverPort,
                                 controlPort := if r.controlPort == 0 then r.serverPort else r.controlPort));
    if r.serverPort == 0 {
      FailKeeps(s1);
    } else {
      OpenStreamKeeps(s1, now);
      LaunchKeeps(OpenStream(s1, now), now);
    }
  }

  lemma PairingReplyKeeps(s: Session, r: Reply, now: nat)
    requires Popped(s)
    ensures Inv(OnPairingResponse(s, r, now)) && Told(OnPairingResponse(s, r, now))
  {
    hide Watch, CountersFresh, Inv, HandleM2, HandleM4, HandleM6, HandleVerifyM2, AfterAuthOk, HandleAp2Stream,
      SendAp2SetupSession, HandleAp2Session, SendAp2SetupStream, OnPairingRefused, Enqueue;
    if s.stage == AuthSetup {
      AfterAuthKeeps(s.(stage := Done), now);
    } else if s.state == Handshake {
      Ap2ReplyKeeps(s, r, now);
    } else if !Success(r) {
      RefusedKeeps(s, r, now);
    } else {
      match s.stage
      case PinStart => SendKeeps(s.(stage := SetupM2), POST, true, now);
      case SetupM2 => M2Keeps(s, r, now);
      case SetupM4 => M4Keeps(s, r, now);
      case SetupM6 => M6Keeps(s, r, now);
      case VerifyM2 => VerifyM2Keeps(s, r, now);
      case VerifyDone => AfterAuthKeeps(s.(stage := Done), now);
      case _ =>
    }
  }

  lemma Ap2ReplyKeeps(s: Session, r: Reply, now: nat)
    requires Popped(s) && s.state == Handshake
    ensures Inv(OnPairingResponse(s, r, now)) && Told(OnPairingResponse(s, r, now))
  {
    hide Watch, CountersFresh, Inv, HandleAp2Stream, HandleAp2Session, SendAp2SetupStream, OnPairingRefused, Enqueue;
    if s.stage == Ap2Record {
      Ap2RecordKeeps(s, now);
    } else if !Success(r) {
      RefusedKeeps(s, r, now);
    } else if s.stage == Ap2Info {
      SendKeeps(s.(stage := Ap2Session), SETUP, true, now);
    } else if s.stage == Ap2Session {
      Ap2SessionKeeps(s, r, now);
    } else {
      Ap2StreamKeeps(s, r, now);
    }
  }

  // ---- RTSP replies ----

  // The reply to a plain RTSP handshake request has just been taken off the queue.
  predicate PoppedSetup(s: Session, m: Method)
  {
    var w := Watch(s.trace);
    && Sound(s, w) && Idling(s) && s.state == Handshake && !s.cfg.airplay2 && SetupMethod(m) && PortKnown(s, m)
    && w.now.requests + SetupRank(m) + (if s.cfg.password && !s.rtsp.retried then 1 else 0) <= RequestLimit(s.cfg)
  }

  lemma SetupReplyKeeps(s: Session, m: Method, r: Reply, now: nat)
    requires PoppedSetup(s, m)
    ensures Inv(HandleResponse(s, m, r, now)) && Told(HandleResponse(s, m, r, now))
  {
    hide Watch, CountersFresh, Enqueue, OpenStream, LaunchStream, Inv, HandleResponse, Fail;
    if r.code == 401 {
      ChallengeKeeps(s, m, r, now);
    } else if !Success(r) {
      AnswerIs(s, m, r, now);
      FailKeeps(s);
    } else {
      AnswerIs(s, m, r, now);
      match m
      case OPTIONS => SendKeeps(s, ANNOUNCE, false, now);
      case ANNOUNCE => SendKeeps(s, SETUP, false, now);
      case SETUP => PortsKeep(s, r, now);
      case RECORD =>
        OpenStreamKeeps(s, now);
        LaunchKeeps(OpenStream(s, now), now);
    }
  }

  lemma AnswerIs(s: Session, m: Method, r: Reply, now: nat)
    requires SetupMethod(m) && r.code != 401 && s.state == Handshake
    ensures !Success(r) ==> HandleResponse(s, m, r, now) == Fail(s)
    ensures Success(r) && m == OPTIONS ==> HandleResponse(s, m, r, now) == SendRequest(s, ANNOUNCE, now)
    ensures Success(r) && m == ANNOUNCE ==> HandleResponse(s, m, r, now) == SendRequest(s, SETUP, now)
    ensures Success(r) && m == RECORD ==> HandleResponse(s, m, r, now) == StartStreaming(s, now)
    ensures Success(r) && m == SETUP ==>
      var s1 := s.(rtsp := s.rtsp.(serverPort := r.serverPort, controlPort := r.controlPort, session := true));
      HandleResponse(s, m, r, now) == if r.serverPort == 0 then Fail(s1) else SendRequest(s1, RECORD, now)
  {
    hide Fail, SendRequest, StartStreaming;
  }

  lemma ChallengeKeeps(s: Session, m: Method, r: Reply, now: nat)
    requires PoppedSetup(s, m) && r.code == 401
    ensures Inv(HandleResponse(s, m, r, now)) && Told(HandleResponse(s, m, r, now))
    ensures var s' := HandleResponse(s, m, r, now);
      if s.cfg.password && !s.rtsp.retried && r.challenge then
        s'.state == Handshake && s'.rtsp.retried && s'.rtsp.challenged && s'.fifo.methods == [m]
      else s'.state == Idle
  {
    hide Watch, CountersFresh, Enqueue, Inv, HandleResponse;
    ChallengeIs(s, m, r, now);
    if !s.cfg.password || s.rtsp.retried || !r.challenge {
      FailKeeps(s);
    } else {
      var s1 := s.(rtsp := s.rtsp.(challenged := true, retried := true));
      SendKeeps(s1, m, false, now);
      EnqueueEffect(s1, m, false);
    }
  }

  lemma ChallengeIs(s: Session, m: Method, r: Reply, now: nat)
    requires SetupMethod(m) && r.code == 401
    ensures HandleResponse(s, m, r, now)
      == if !s.cfg.password || s.rtsp.retried || !r.challenge then Fail(s)
         else SendRequest(s.(rtsp := s.rtsp.(challenged := true, retried := true)), m, now)
  {
    hide Fail, SendRequest, StartStreaming;
  }

  lemma PortsKeep(s: Session, r: Reply, now: nat)
    requires PoppedSetup(s, SETUP)
    ensures var s1 := s.(rtsp := s.rtsp.(serverPort := r.serverPort, controlPort := r.controlPort, session := true));
      var s2 := if r.serverPort == 0 then Fail(s1) else SendRequest(s1, RECORD, now);
      Inv(s2) && Told(s2)
  {
    hide Watch, CountersFresh, Enqueue, Inv;
    var s1 := s.(rtsp := s.rtsp.(serverPort := r.serverPort, controlPort := r.controlPort, session := true));
    if r.serverPort == 0 {
      FailKeeps(s1);
    } else {
      SendKeeps(s1, RECORD, false, now);
    }
  }

  // Answers while streaming at most switch the keep-alive.
  lemma StreamReplyKeeps(s: Session, m: Method, r: Reply, now: nat)
    requires StreamCore(s, Running) && StreamRequest(s.cfg, m)
    ensures Inv(HandleResponse(s, m, r, now)) && HandleResponse(s, m, r, now).state == Streaming
    ensures Told(HandleResponse(s, m, r, now))
  {
    hide StreamCore, Inv;
    StreamShape(s, Running);
    var t := if m != POST then s.timers
             else s.timers.(feedback := if r.code != 200 then Off
                                        else if s.timers.feedback.Off? then Due(now + s.timers.feedbackMs)
                                        else s.timers.feedback);
    StreamTimersFree(s, t, s.wishes, Running);
    StreamCoreIsInv(s.(timers := t));
    StreamCoreIsInv(s);
    assert s.(timers := s.timers, wishes := s.wishes) == s;
  }

  lemma ReplyKeeps(s: Session, r: Reply, now: nat)
    requires Inv(s) && s.link == Connected
    ensures Inv(OnReply(s, r, now)) && Told(OnReply(s, r, now))
  {
    hide Watch, CountersFresh, OnPairingResponse, HandleResponse, Log;
    var q := s.fifo;
    InvIsSafe(s);
    if q.methods != [] {
      var s1 := Pop(s);
      if s.state == Streaming {
        StreamPop(s);
        StreamReplyKeeps(s1, q.methods[0], r, now);
      } else if q.isHttp[0] {
        PopKeepsRank(s);
        PairingReplyKeeps(s1, r, now);
      } else {
        assert PoppedSetup(s1, q.methods[0]);
        SetupReplyKeeps(s1, q.methods[0], r, now);
      }
    }
  }

  lemma StreamPop(s: Session)
    requires Inv(s) && s.state == Streaming && s.fifo.methods != []
    ensures StreamRequest(s.cfg, s.fifo.methods[0]) && !s.fifo.isHttp[0]
    ensures StreamCore(Pop(s), Running)
  {
    hide Watch, CountersFresh, Log;
  }

  // ---- The other calls ----

  lemma StopKeeps(s: Session, now: nat)
    requires Inv(s)
    ensures Inv(Stop(s, now)) && Stop(s, now).state == Idle
  {
    hide Watch, CountersFresh, Enqueue;
    var s1 := s.(timers := StopTimers(s.timers));
    EnqueueEffect(s1, TEARDOWN, false);
  }

  lemma StartKeeps(s: Session, udpOk: bool, now: nat)
    requires Inv(s)
    ensures Inv(Start(s, udpOk, now))
  {
    hide Watch, CountersFresh, Log, Stop;
    StopKeeps(s, now);
    var s0 := Stop(s, now);
    DroppedKeysFresh(s0.keys, Watch(s0.trace).keys);
  }

  lemma DroppedKeysFresh(k: Keys, w: Usage)
    requires CountersFresh(k, w)
    ensures CountersFresh(Keys(None, false, 0, 0, k.agreements), w)
  {
  }

  lemma ConnectedKeeps(s: Session, now: nat)
    requires Inv(s) && s.link == Opening
    ensures Inv(OnConnected(s, now)) && Told(OnConnected(s, now))
  {
    hide Watch, CountersFresh, Log, HttpPost, Enqueue;
    var p := s.(link := Connected, state := Pairing);
    match s.auth
    case Open => SendKeeps(p.(state := Handshake), OPTIONS, false, now);
    case Password => SendKeeps(p.(state := Handshake), OPTIONS, false, now);
    case MfiSetup => MfiKeeps(s, now);
    case LegacyPin => FailKeeps(p);
    case HapTransient => HapStarts(s, now);
    case HapPin => HapStarts(s, now);
  }

  lemma MfiKeeps(s: Session, now: nat)
    requires Inv(s) && s.link == Opening && s.auth == MfiSetup
    ensures Inv(HttpPost(s.(link := Connected, state := Pairing, stage := AuthSetup), now))
    ensures Told(HttpPost(s.(link := Connected, state := Pairing, stage := AuthSetup), now))
  {
    hide Watch, CountersFresh, Log, Enqueue;
    SendKeeps(s.(link := Connected, state := Pairing, stage := AuthSetup), POST, true, now);
  }

  lemma HapStarts(s: Session, now: nat)
    requires Inv(s) && s.link == Opening && IsHap(s.auth)
    ensures Inv(BeginAuthChain(s.(link := Connected), now)) && Told(BeginAuthChain(s.(link := Connected), now))
  {
    hide Watch, CountersFresh, Log, Enqueue, Inv;
    var p := s.(link := Connected, state := Pairing);
    var stored := s.auth == HapPin && s.cfg.storedCreds;
    var a := if stored then FRESH_AP2.(accessoryKnown := true) else FRESH_AP2;
    var stage := if stored then VerifyM2 else if s.auth == HapPin then PinStart else SetupM2;
    ReadyForFirst(s, a, stage);
    SendKeeps(WithAp2(p, a).(stage := stage), POST, true, now);
  }

  lemma ReadyForFirst(s: Session, a: Ap2, stage: Stage)
    requires Inv(s) && s.link == Opening && IsHap(s.auth)
    requires a == FRESH_AP2.(accessoryKnown := a.accessoryKnown) && (stage == VerifyM2 ==> a.accessoryKnown)
    requires stage == if s.auth == HapTransient then SetupM2 else if s.cfg.storedCreds then VerifyM2 else PinStart
    ensures AboutToSend(WithAp2(s.(link := Connected, state := Pairing), a).(stage := stage), POST, true)
  {
    hide Watch, CountersFresh;
    FreshAp2IsFresh(s.keys, a, Watch(s.trace).keys);
  }

  lemma ClosedKeeps(s: Session, error: bool)
    requires Inv(s) && s.link == Connected
    ensures Inv(OnClosed(s, error)) && Told(OnClosed(s, error)) && OnClosed(s, error).state == Idle
  {
    hide Watch, CountersFresh, Log;
    FailKeeps(s);
  }

  lemma EventKeeps(s: Session, n: nat)
    requires Inv(s)
    ensures Inv(OnEventRequests(s, n)) && (s.state != Idle ==> Told(OnEventRequests(s, n)))
  {
    hide Watch, Log;
  }

  lemma DatagramsKeep(s: Session, n: nat)
    requires Inv(s)
    ensures Inv(OnDatagrams(s, n)) && (s.state != Idle ==> Told(OnDatagrams(s, n)))
  {
    hide Watch, Log, CountersFresh;
  }

  lemma VolumeKeeps(s: Session, now: nat)
    requires Inv(s)
    ensures Inv(SetVolume(s, now)) && (s.state != Idle ==> Told(SetVolume(s, now)))
  {
    hide Enqueue;
    var w := s.wishes.(volume := true);
    if s.state == Streaming {
      hide Inv, StreamCore;
      StreamCoreIsInv(s);
      StreamShape(s, Running);
      StreamTimersFree(s, s.timers, w, Running);
      StreamSend(s.(wishes := w), SET_PARAMETER, Running);
      StreamCoreIsInv(SetVolume(s, now));
    } else {
      WishesAreFree(s, w);
    }
  }

  lemma NowPlayingKeeps(s: Session, text: bool, cover: bool, changed: bool, now: nat)
    requires Inv(s)
    ensures Inv(SetNowPlaying(s, text, cover, changed, now))
    ensures s.state != Idle ==> Told(SetNowPlaying(s, text, cover, changed, now))
  {
    hide Enqueue, SendMetadata;
    var w := s.wishes.(text := text, cover := cover);
    if s.state == Streaming && changed {
      hide Inv, StreamCore;
      StreamCoreIsInv(s);
      StreamShape(s, Running);
      StreamTimersFree(s, s.timers, w, Running);
      MetadataKeeps(s.(wishes := w), now, Running);
      StreamCoreIsInv(SetNowPlaying(s, text, cover, changed, now));
    } else {
      WishesAreFree(s, w);
    }
  }

  lemma WishesAreFree(s: Session, w: Wishes)
    requires Inv(s)
    ensures Inv(s.(wishes := w)) && (s.state != Idle ==> Told(s.(wishes := w)))
  {
    hide Watch, CountersFresh;
  }

  lemma TickKeeps(s: Session, packets: nat, now: nat)
    requires Inv(s)
    ensures Inv(Tick(s, packets, now)) && (s.state != Idle ==> Told(Tick(s, packets, now)))
  {
    hide Inv, TickTimeout, TickPin, TickFeedback, TickSync, TickPacer;
    TickTimeoutKeeps(s, now);
    var s1 := TickTimeout(s, now);
    TickPinKeeps(s1, now);
    var s2 := TickPin(s1, now);
    TickFeedbackKeeps(s2, now);
    var s3 := TickFeedback(s2, now);
    TickSyncKeeps(s3, now);
    TickPacerKeeps(TickSync(s3, now), packets, now);
    IdleRests(s1, packets, now);
    IdleRests(s2, packets, now);
    IdleRests(s3, packets, now);
    IdleRests(TickSync(s3, now), packets, now);
  }

  // No timer that a session has left when it ended does anything.
  lemma IdleRests(s: Session, packets: nat, now: nat)
    requires Inv(s)
    ensures s.state == Idle ==>
      TickPin(s, now) == s && TickFeedback(s, now) == s && TickSync(s, now) == s && TickPacer(s, packets, now) == s
  {
    hide Watch, CountersFresh;
  }

  lemma TickTimeoutKeeps(s: Session, now: nat)
    requires Inv(s)
    ensures Inv(TickTimeout(s, now)) && (s.state != Idle ==> Told(TickTimeout(s, now)))
  {
    hide Watch, CountersFresh;
    if Starting(s) {
      FailKeeps(s.(timers := s.timers.(timeout := Off)));
    }
  }

  lemma TickPinKeeps(s: Session, now: nat)
    requires Inv(s)
    ensures Inv(TickPin(s, now)) && (s.state != Idle ==> Told(TickPin(s, now)))
  {
    hide Watch, CountersFresh;
    if s.waitingForPin && Fires(s.timers.pin, now) {
      FailKeeps(s.(timers := s.timers.(pin := Off), waitingForPin := false));
    }
  }

  lemma StreamTimerMeansStreaming(s: Session)
    requires Inv(s)
    ensures s.timers.feedback.Due? || s.timers.sync.Due? || s.timers.pacer.Due? ==> s.state == Streaming
  {
    hide Watch, CountersFresh, Sound;
  }

  lemma TickFeedbackKeeps(s: Session, now: nat)
    requires Inv(s)
    ensures Inv(TickFeedback(s, now)) && (s.state != Idle ==> Told(TickFeedback(s, now)))
  {
    hide Inv, StreamCore, Enqueue;
    StreamTimerMeansStreaming(s);
    if Fires(s.timers.feedback, now) {
      StreamCoreIsInv(s);
      StreamShape(s, Running);
      var t := s.timers.(feedback := Due(now + s.timers.feedbackMs));
      StreamTimersFree(s, t, s.wishes, Running);
      StreamSend(s.(timers := t), if s.cfg.airplay2 then FEEDBACK else POST, Running);
      StreamCoreIsInv(TickFeedback(s, now));
    }
  }

  lemma TickSyncKeeps(s: Session, now: nat)
    requires Inv(s)
    ensures Inv(TickSync(s, now)) && (s.state != Idle ==> Told(TickSync(s, now)))
  {
    hide Watch, Log, CountersFresh;
    StreamTimerMeansStreaming(s);
  }

  lemma TickPacerKeeps(s: Session, packets: nat, now: nat)
    requires Inv(s)
    ensures Inv(TickPacer(s, packets, now)) && (s.state != Idle ==> Told(TickPacer(s, packets, now)))
  {
    hide Watch, Log, CountersFresh;
    StreamTimerMeansStreaming(s);
    if Fires(s.timers.pacer, now) {
      var s1 := s.(timers := s.timers.(pacer := Due(now + PACER_MS)));
      AudioKeepsFresh(s1, packets);
    }
  }

  lemma AudioKeepsFresh(s: Session, packets: nat)
    requires CountersFresh(s.keys, Watch(s.trace).keys)
    ensures var r := SendAudio(s, packets);
      && CountersFresh(r.keys, Watch(r.trace).keys)
      && Watch(r.trace).now == Watch(s.trace).now
      && HasSecret(r.keys) == HasSecret(s.keys)
      && r == s.(keys := r.keys, trace := r.trace)
  {
    hide Watch, Log;
  }

  /** Every input the host is allowed to make keeps the invariant. */
  lemma StepKeeps(s: Session, i: Input, now: nat)
    requires Inv(s) && Allowed(s, i)
    ensures Safe(s) && (s.link == Connected ==> s.state != Idle)
    ensures Inv(Step(s, i, now)) && (s.state != Idle && !i.StartCall? && !i.StopCall? ==> Told(Step(s, i, now)))
  {
    hide Inv, Start, Stop, SubmitPin, SetVolume, SetNowPlaying, OnConnected, OnReply, OnClosed, OnEventRequests, Tick,
      Fail, OnDatagrams;
    InvIsSafe(s);
    match i
    case StartCall(udpOk) => StartKeeps(s, udpOk, now);
    case StopCall => StopKeeps(s, now);
    case PinCall => SubmitPinKeeps(s, now);
    case VolumeCall => VolumeKeeps(s, now);
    case NowPlayingCall(text, cover, changed) => NowPlayingKeeps(s, text, cover, changed, now);
    case ConnectedNote => ConnectedKeeps(s, now);
    case ConnectFailedNote => ActiveFailKeeps(s);
    case ReplyNote(r) => ReplyKeeps(s, r, now);
    case BadBytesNote => ActiveFailKeeps(s);
    case ClosedNote(error) => ClosedKeeps(s, error);
    case EventNote(n) => EventKeeps(s, n);
    case DatagramNote(n) => DatagramsKeep(s, n);
    case TickCall(n) => TickKeeps(s, n, now);
  }

  lemma ActiveFailKeeps(s: Session)
    requires Inv(s) && (s.link == Opening || s.link == Connected)
    ensures s.state != Idle && Inv(Fail(s)) && Told(Fail(s))
  {
    hide Watch, CountersFresh;
    FailKeeps(s);
  }
}
