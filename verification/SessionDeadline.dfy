/** How long a start() can stay undecided, whatever the receiver does. */
module SessionDeadline {
  import opened Wire
  import opened SessionSpec
  import opened SessionProof
  import opened SessionRuns

  // When the running watchdog of a starting session fires.
  function Watchdog(s: Session): nat
  {
    var t := if s.waitingForPin then s.timers.pin else s.timers.timeout;
    if t.Due? then t.at else 0
  }

  // A PIN wait may still begin.
  predicate PinAhead(s: Session)
  {
    || (s.state == Connecting && IsHap(s.auth))
    || (s.state == Pairing && !s.waitingForPin && !s.exchange.aborted && (s.stage == PinStart || s.stage == SetupM2))
  }

  // The latest instant at which a starting session can still be undecided.
  function Limit(s: Session): nat
  {
    Watchdog(s) + HANDSHAKE_MS * Rank(s) + if PinAhead(s) then PIN_MS else 0
  }

  // Undecided sessions do not outlive the limit of an earlier one.
  predicate Within(s: Session, limit: nat) { Starting(s) ==> Limit(s) <= limit }

  lemma EnqueueShape(s: Session, m: Method, http: bool)
    ensures var r := Enqueue(s, m, http); r == s.(fifo := Push(s.fifo, m, http), keys := r.keys, trace := r.trace)
  {
    hide Watch, Log;
  }

  // One more request: the watchdog restarts and the rank has gone down.
  lemma SendWithin(s0: Session, s: Session, m: Method, http: bool, now: nat)
    requires Starting(s0) && now <= Watchdog(s0) && !s.waitingForPin && s.state != Connecting
    requires Rank(s.(fifo := Push(s.fifo, m, http))) < Rank(s0) && (PinAhead(s) ==> PinAhead(s0))
    ensures Within(ArmTimeout(Enqueue(s, m, http), now), Limit(s0))
  {
    hide Enqueue, PinAhead;
    EnqueueShape(s, m, http);
    var r := ArmTimeout(Enqueue(s, m, http), now);
    assert PinAhead(r) == PinAhead(s) by { PinAheadFields(r, s); }
    RankFields(r, s.(fifo := Push(s.fifo, m, http)));
  }

  lemma PinAheadFields(r: Session, s: Session)
    requires r.state == s.state && r.auth == s.auth && r.stage == s.stage && r.waitingForPin == s.waitingForPin
    requires r.exchange == s.exchange
    ensures PinAhead(r) == PinAhead(s)
  {
  }

  lemma RankFields(r: Session, s: Session)
    requires r.state == s.state && r.auth == s.auth && r.stage == s.stage && r.cfg == s.cfg
    requires r.triedTransient == s.triedTransient && r.fifo == s.fifo && r.rtsp == s.rtsp && r.exchange == s.exchange
    ensures Rank(r) == Rank(s)
  {
  }

  lemma FailDecides(s: Session)
    ensures !Starting(Fail(s))
  {
  }

  lemma M3Within(s0: Session, s: Session, now: nat)
    requires s.keys.ap2.Some? && s.state == Pairing && !s.waitingForPin && s.fifo.methods == []
    requires Starting(s0) && now <= Watchdog(s0)
    requires (if s.auth == HapTransient then 0 else 3) + TailRequests(s.cfg) < Rank(s0)
    requires s.timers.timeout.Due? && s.timers.timeout.at <= Watchdog(s0) + HANDSHAKE_MS && !s.exchange.aborted
    ensures Within(SendPairSetupM3(s, now), Limit(s0))
  {
    hide Enqueue;
    var s1 := WithAp2(s, s.keys.ap2.value.(srp := true));
    FailDecides(s1);
    match s.exchange.serverB
    case Zero =>
    case TooLong => ThrownWithin(s0, s1.(exchange := s.exchange.(aborted := true)), now);
    case Usable => SendWithin(s0, s1.(stage := SetupM4), POST, true, now);
  }

  // After the exception nothing but the watchdog is left to come.
  lemma ThrownWithin(s0: Session, s: Session, now: nat)
    requires Starting(s0) && now <= Watchdog(s0) && Rank(s0) > 0
    requires s.exchange.aborted && s.state == Pairing && !s.waitingForPin && s.timers.timeout.Due?
    requires s.timers.timeout.at <= Watchdog(s0) + HANDSHAKE_MS
    ensures Within(s, Limit(s0))
  {
  }

  lemma AfterAuthWithin(s0: Session, s: Session, now: nat)
    requires Starting(s0) && now <= Watchdog(s0) && !s.waitingForPin && s.fifo.methods == []
    requires TailRequests(s.cfg) <= Rank(s0)
    ensures Within(AfterAuthOk(s, now), Limit(s0))
  {
    hide Enqueue;
    var s1 := s.(rtsp := s.rtsp.(retried := false), state := Handshake);
    if s.cfg.airplay2 {
      var keyed := s.keys.ap2.Some? && s.keys.ap2.value.controlKey.Some?;
      var s2 := if keyed then s1.(keys := s.keys.(controlEncrypted := true, ctrlSendCtr := 0)) else s1;
      SendWithin(s0, s2.(stage := Ap2Info), GET, true, now);
    } else {
      SendWithin(s0, s1, OPTIONS, false, now);
    }
  }

  // s is s0 with its oldest reply taken off the queue.
  predicate TakenFrom(s0: Session, s: Session, now: nat)
  {
    && Inv(s0) && Starting(s0) && now <= Watchdog(s0) && Popped(s) && Rank(s) <= Rank(s0) && Limit(s) <= Limit(s0)
    && PinAhead(s) == PinAhead(s0) && s.timers == s0.timers && s.waitingForPin == s0.waitingForPin
  }

  lemma M2Within(s0: Session, s: Session, r: Reply, now: nat)
    requires TakenFrom(s0, s, now) && s.state == Pairing && s.stage == SetupM2
    ensures Within(HandleM2(s, r, now), Limit(s0))
  {
    hide Watch, CountersFresh, SendPairSetupM3, Inv, Fail, Log;
    FailDecides(s);
    if !r.tlvError && r.saltAndKey && s.auth == HapTransient {
      M3Within(s0, s.(exchange := s.exchange.(serverB := r.serverKey)), now);
    }
  }

  lemma M4Within(s0: Session, s: Session, r: Reply, now: nat)
    requires TakenFrom(s0, s, now) && s.state == Pairing && s.stage == SetupM4
    ensures Within(HandleM4(s, r, now), Limit(s0))
  {
    hide Watch, CountersFresh, Inv, Fail, Log, AfterAuthOk, Enqueue;
    var s1 := Log(s, Checked(SrpProof, r.proof == Some(true)));
    FailDecides(s);
    FailDecides(s1);
    if s.auth == HapTransient {
      AfterAuthWithin(s0, Agree(s1, false).(stage := Done), now);
    } else {
      SendWithin(s0, s1.(stage := SetupM6), POST, true, now);
    }
  }

  lemma M6Within(s0: Session, s: Session, r: Reply, now: nat)
    requires TakenFrom(s0, s, now) && s.state == Pairing && s.stage == SetupM6
    ensures Within(HandleM6(s, r, now), Limit(s0))
  {
    hide Watch, CountersFresh, Inv, Fail, Log, Enqueue;
    FailDecides(s);
    var s1 := Log(WithAp2(s, s.keys.ap2.value.(accessoryKnown := true)), CredentialsObtained);
    SendWithin(s0, s1.(stage := VerifyM2), POST, true, now);
  }

  lemma VerifyWithin(s0: Session, s: Session, r: Reply, now: nat)
    requires TakenFrom(s0, s, now) && s.state == Pairing && s.stage == VerifyM2
    ensures Within(HandleVerifyM2(s, r, now), Limit(s0))
  {
    hide Watch, CountersFresh, Inv, Fail, Log, Enqueue, Agree, Within;
    var s1 := Log(s, Checked(VerifySignature, s.keys.ap2.value.accessoryKnown && r.signatureOk));
    FailDecides(s);
    FailDecides(s1);
    UndecidedOnly(Fail(s), Limit(s0));
    UndecidedOnly(Fail(s1), Limit(s0));
    VerifiedWithin(s0, s1, now);
  }

  lemma UndecidedOnly(s: Session, limit: nat)
    ensures !Starting(s) ==> Within(s, limit)
  {
  }

  lemma VerifiedWithin(s0: Session, s: Session, now: nat)
    requires Starting(s0) && now <= Watchdog(s0) && s.keys.ap2.Some? && s.state == Pairing && !s.waitingForPin
    requires s.fifo.methods == [] && TailRequests(s.cfg) < Rank(s0)
    ensures Within(HttpPost(Agree(s, true).(stage := VerifyDone), now), Limit(s0))
  {
    hide Watch, Enqueue;
    SendWithin(s0, Agree(s, true).(stage := VerifyDone), POST, true, now);
  }

  lemma RefusedWithin(s0: Session, s: Session, r: Reply, now: nat)
    requires TakenFrom(s0, s, now)
    ensures Within(OnPairingRefused(s, r, now), Limit(s0))
  {
    hide Watch, CountersFresh, Inv, Fail, Enqueue;
    FailDecides(s);
    if r.code == 470 && s.auth == HapTransient && s.stage == SetupM2 {
      SendWithin(s0, WithAp2(s.(auth := HapPin), FRESH_AP2).(stage := PinStart), POST, true, now);
    } else if r.code == 403 && s.stage == PinStart && !s.triedTransient {
      SendWithin(s0, WithAp2(s.(triedTransient := true, auth := HapTransient), FRESH_AP2).(stage := SetupM2),
                 POST, true, now);
    }
  }

  lemma StreamingDecides(s: Session, now: nat)
    ensures !Starting(StartStreaming(s, now))
  {
    hide Watch, Log, Enqueue;
    var s0 := OpenStream(s, now);
    EnqueueShape(s0, SET_PARAMETER, false);
    LaunchStays(s0, now);
  }

  lemma LaunchStays(s: Session, now: nat)
    requires s.state == Streaming
    ensures LaunchStream(s, now).state == Streaming
  {
    hide Watch, Log, Enqueue, SendMetadata;
    EnqueueShape(s, SET_PARAMETER, false);
    var s1 := if s.wishes.volume then SendRequest(s, SET_PARAMETER, now) else s;
    var s2 := s1.(timers := s1.timers.(pacer := Due(now + PACER_MS), feedbackMs := FEEDBACK_AP1_MS));
    EnqueueShape(s2, POST, false);
    MetadataStays(if s.cfg.airplay2
      then s1.(timers := s1.timers.(pacer := Due(now + PACER_MS), feedbackMs := FEEDBACK_AP2_MS,
        feedback := Due(now + FEEDBACK_AP2_MS)))
      else SendRequest(s2, POST, now), now);
  }

  lemma MetadataStays(s: Session, now: nat)
    ensures SendMetadata(s, now).state == s.state
  {
    hide Watch, Log, Enqueue;
    EnqueueShape(s, SET_PARAMETER, false);
    EnqueueShape(SendRequest(s, SET_PARAMETER, now), SET_PARAMETER, false);
  }

  lemma Ap2Within(s0: Session, s: Session, r: Reply, now: nat)
    requires TakenFrom(s0, s, now) && s.state == Handshake
    ensures Within(OnPairingResponse(s, r, now), Limit(s0))
  {
    hide Watch, CountersFresh, Inv, Fail, Enqueue, OnPairingRefused, StartStreaming;
    FailDecides(s);
    var a := s.keys.ap2.value;
    if s.stage == Ap2Record {
      SendWithin(s0, WithAp2(s, a.(audioKey := a.secret, audioNonce := 0)).(stage := Ap2Stream), SETUP, true, now);
    } else if !Success(r) {
      RefusedWithin(s0, s, r, now);
    } else if s.stage == Ap2Info {
      SendWithin(s0, s.(stage := Ap2Session), SETUP, true, now);
    } else if s.stage == Ap2Session {
      SendWithin(s0, WithAp2(s, a.(eventPort := r.eventPort)).(stage := Ap2Record), RECORD, true, now);
    } else {
      var s1 := s.(rtsp := s.rtsp.(serverPort := r.serverPort,
                                   controlPort := if r.controlPort == 0 then r.serverPort else r.controlPort));
      FailDecides(s1);
      StreamingDecides(s1, now);
    }
  }

  lemma PairingWithin(s0: Session, s: Session, r: Reply, now: nat)
    requires TakenFrom(s0, s, now) && s.state == Pairing
    ensures Within(OnPairingResponse(s, r, now), Limit(s0))
  {
    hide Watch, CountersFresh, Inv, HandleM2, HandleM4, HandleM6, HandleVerifyM2, AfterAuthOk, OnPairingRefused,
      Enqueue, Within;
    if s.stage == AuthSetup {
      AfterAuthWithin(s0, s.(stage := Done), now);
    } else if !Success(r) {
      RefusedWithin(s0, s, r, now);
    } else {
      match s.stage
      case PinStart => SendWithin(s0, s.(stage := SetupM2), POST, true, now);
      case SetupM2 => M2Within(s0, s, r, now);
      case SetupM4 => M4Within(s0, s, r, now);
      case SetupM6 => M6Within(s0, s, r, now);
      case VerifyM2 => VerifyWithin(s0, s, r, now);
      case VerifyDone => AfterAuthWithin(s0, s.(stage := Done), now);
      case _ =>
    }
  }

  lemma SetupWithin(s0: Session, s: Session, m: Method, r: Reply, now: nat)
    requires Inv(s0) && s0.state == Handshake && !s0.cfg.airplay2 && now <= Watchdog(s0) && s0.fifo.methods == [m]
    requires s == s0.(fifo := s.fifo, trace := s.trace) && s.fifo.methods == []
    ensures Within(HandleResponse(s, m, r, now), Limit(s0))
  {
    hide Watch, CountersFresh, Fail, Enqueue, StartStreaming, Sound;
    FailDecides(s);
    var s1 := s.(rtsp := s.rtsp.(challenged := true, retried := true));
    var s2 := s.(rtsp := s.rtsp.(serverPort := r.serverPort, controlPort := r.controlPort, session := true));
    FailDecides(s1);
    FailDecides(s2);
    StreamingDecides(s, now);
    if r.code == 401 {
      if s.cfg.password && !s.rtsp.retried {
        SendWithin(s0, s1, m, false, now);
      }
    } else if m == OPTIONS {
      SendWithin(s0, s, ANNOUNCE, false, now);
    } else if m == ANNOUNCE {
      SendWithin(s0, s, SETUP, false, now);
    } else if m == SETUP {
      SendWithin(s0, s2, RECORD, false, now);
    }
  }

  lemma ReplyWithin(s: Session, r: Reply, now: nat)
    requires Inv(s) && s.link == Connected && Starting(s) && now <= Watchdog(s)
    ensures Safe(s) && Within(OnReply(s, r, now), Limit(s))
  {
    hide Watch, CountersFresh, OnPairingResponse, HandleResponse, Log;
    var q := s.fifo;
    InvIsSafe(s);
    if q.methods != [] {
      var s1 := Pop(s);
      if q.isHttp[0] {
        PopKeepsRank(s);
        if s.state == Pairing {
          PairingWithin(s, s1, r, now);
        } else {
          Ap2Within(s, s1, r, now);
        }
      } else {
        SetupWithin(s, s1, q.methods[0], r, now);
      }
    }
  }

  lemma ConnectedWithin(s: Session, now: nat)
    requires Inv(s) && s.link == Opening && now <= Watchdog(s)
    ensures Within(OnConnected(s, now), Limit(s))
  {
    hide Watch, CountersFresh, Log, Enqueue, Fail;
    var p := s.(link := Connected, state := Pairing);
    FailDecides(p);
    match s.auth
    case Open => SendWithin(s, p.(state := Handshake), OPTIONS, false, now);
    case Password => SendWithin(s, p.(state := Handshake), OPTIONS, false, now);
    case MfiSetup => SendWithin(s, p.(stage := AuthSetup), POST, true, now);
    case LegacyPin =>
    case HapTransient => SendWithin(s, WithAp2(p, FRESH_AP2).(stage := SetupM2), POST, true, now);
    case HapPin =>
      if s.cfg.storedCreds {
        SendWithin(s, WithAp2(p, FRESH_AP2.(accessoryKnown := true)).(stage := VerifyM2), POST, true, now);
      } else {
        SendWithin(s, WithAp2(p, FRESH_AP2).(stage := PinStart), POST, true, now);
      }
  }

  lemma PinWithin(s: Session, now: nat)
    requires Inv(s) && Starting(s) && now <= Watchdog(s)
    ensures Within(SubmitPin(s, now), Limit(s))
  {
    hide Watch, CountersFresh, SendPairSetupM3;
    if s.waitingForPin {
      M3Within(s, ArmTimeout(s.(waitingForPin := false, timers := s.timers.(pin := Off)), now), now);
    }
  }

  // Before its watchdog is due a tick leaves a starting session alone; from then on it decides it.
  lemma TickDecides(s: Session, packets: nat, now: nat)
    requires Inv(s) && Starting(s)
    ensures now < Watchdog(s) ==> Tick(s, packets, now) == s
    ensures now >= Watchdog(s) ==> Tick(s, packets, now).state == Idle
  {
    hide Watch, CountersFresh, Log, Sound;
    if now >= Watchdog(s) {
      TickIdles(s, packets, now);
    }
  }

  lemma TickIdles(s: Session, packets: nat, now: nat)
    requires Inv(s) && Starting(s) && now >= Watchdog(s)
    ensures Tick(s, packets, now).state == Idle
  {
    hide Watch, CountersFresh, Log, Sound;
    var s1 := if s.waitingForPin then Fail(s.(timers := s.timers.(pin := Off), waitingForPin := false))
              else Fail(s.(timers := s.timers.(timeout := Off)));
    assert TickPin(TickTimeout(s, now), now) == s1;
  }

  /** No input that comes in time moves the limit of a starting session. */
  lemma StepWithin(s: Session, i: Input, now: nat)
    requires Inv(s) && Starting(s) && Allowed(s, i) && !i.StartCall? && now <= Watchdog(s)
    ensures Enabled(s, i) && Within(Step(s, i, now), Limit(s))
  {
    hide Inv, Start, SubmitPin, OnConnected, OnReply, Tick, Limit, Starting, Log, Watch;
    InvIsSafe(s);
    match i
    case StartCall(_) =>
    case StopCall => IdleDecided(Stop(s, now), Limit(s));
    case PinCall => PinWithin(s, now);
    case VolumeCall => NotStreaming(s); SameLimit(s, SetVolume(s, now));
    case NowPlayingCall(text, cover, changed) =>
      NotStreaming(s);
      SameLimit(s, SetNowPlaying(s, text, cover, changed, now));
    case ConnectedNote => ConnectedWithin(s, now);
    case ConnectFailedNote => FailDecides(s);
    case ReplyNote(r) => ReplyWithin(s, r, now);
    case BadBytesNote => FailDecides(s);
    case ClosedNote(error) => IdleDecided(OnClosed(s, error), Limit(s));
    case EventNote(n) => SameLimit(s, OnEventRequests(s, n));
    case DatagramNote(n) => SameLimit(s, OnDatagrams(s, n));
    case TickCall(n) => TickDecides(s, n, now); IdleDecided(Step(s, i, now), Limit(s)); SameLimit(s, s);
  }

  lemma NotStreaming(s: Session)
    ensures Starting(s) ==> s.state != Streaming
  {
  }

  lemma IdleDecided(s: Session, limit: nat)
    ensures s.state == Idle ==> Within(s, limit)
  {
  }

  lemma SameLimit(s: Session, r: Session)
    ensures Starting(s) && r == s.(wishes := r.wishes, keys := r.keys, trace := r.trace) ==> Within(r, Limit(s))
  {
    hide Watch;
  }

  // ---- Decided sessions stay decided ----

  lemma IdleStays(s: Session, i: Input, now: nat)
    requires Inv(s) && s.state == Idle && Allowed(s, i) && !i.StartCall?
    ensures Enabled(s, i) && Step(s, i, now).state == Idle && Step(s, i, now).trace == s.trace
  {
    hide Watch, CountersFresh;
    InvIsSafe(s);
    if i.TickCall? {
      IdleTick(s, i.packets, now);
    }
  }

  lemma IdleTick(s: Session, packets: nat, now: nat)
    requires s.state == Idle && s.timers.pin.Off? && StreamTimersOff(s.timers)
    ensures Tick(s, packets, now).state == Idle && Tick(s, packets, now).trace == s.trace
  {
    hide Watch, Log;
  }

  lemma StreamTick(s: Session, packets: nat, now: nat)
    requires s.state == Streaming && s.timers.pin.Off? && s.timers.timeout.Off?
    ensures Tick(s, packets, now).state == Streaming
  {
    hide Watch, Log, Enqueue, SendSync, SendAudio;
    assert TickPin(TickTimeout(s, now), now) == s;
    var s0 := s.(timers := s.timers.(feedback := Due(now + s.timers.feedbackMs)));
    EnqueueShape(s0, FEEDBACK, false);
    EnqueueShape(s0, POST, false);
    var s1 := TickFeedback(s, now);
    SyncStays(s1.(timers := s1.timers.(sync := Due(now + SYNC_MS))));
    var s2 := TickSync(s1, now);
    AudioStays(s2.(timers := s2.timers.(pacer := Due(now + PACER_MS))), packets);
  }

  lemma SyncStays(s: Session)
    ensures SendSync(s).state == s.state
  {
    hide Watch, Log;
  }

  lemma AudioStays(s: Session, packets: nat)
    ensures SendAudio(s, packets).state == s.state
  {
    hide Watch, Log;
  }

  lemma StreamReply(s: Session, r: Reply, now: nat)
    requires Inv(s) && s.state == Streaming
    ensures Safe(s) && OnReply(s, r, now).state == Streaming
  {
    hide Watch, CountersFresh, Log, Sound;
    InvIsSafe(s);
  }

  lemma StreamStays(s: Session, i: Input, now: nat)
    requires Inv(s) && s.state == Streaming && Allowed(s, i) && !i.StartCall?
    ensures Enabled(s, i) && !Starting(Step(s, i, now))
  {
    hide Watch, CountersFresh, Log, Enqueue, Start, Fail, OnReply, Tick, Sound, SendMetadata;
    InvIsSafe(s);
    match i
    case PinCall => assert !s.waitingForPin;
    case VolumeCall => EnqueueShape(s.(wishes := s.wishes.(volume := true)), SET_PARAMETER, false);
    case NowPlayingCall(text, cover, changed) =>
      MetadataStays(s.(wishes := s.wishes.(text := text, cover := cover)), now);
    case ReplyNote(r) => StreamReply(s, r, now);
    case TickCall(n) => StreamTick(s, n, now);
    case BadBytesNote => FailDecides(s);
    case ClosedNote(error) => FailDecides(s);
    case ConnectFailedNote => FailDecides(s);
    case _ =>
  }

  // ---- Runs ----

  // A run without another start() that is never late: while the session is starting, every input (a tick, if
  // nothing else) comes at the latest when the watchdog is due.
  predicate OnTime(s: Session, run: seq<Timed>)
    decreases |run|
  {
    run == [] ||
    (Enabled(s, run[0].input) && !run[0].input.StartCall? && (Starting(s) ==> run[0].at <= Watchdog(s))
     && OnTime(Step(s, run[0].input, run[0].at), run[1..]))
  }

  lemma {:induction false} OnTimeIsHostRun(s: Session, run: seq<Timed>)
    requires OnTime(s, run)
    ensures HostRun(s, run)
    decreases |run|
  {
    hide Step;
    if run != [] {
      OnTimeIsHostRun(Step(s, run[0].input, run[0].at), run[1..]);
    }
  }

  lemma {:induction false} RunWithin(s: Session, run: seq<Timed>, limit: nat)
    requires Inv(s) && OnTime(s, run) && Within(s, limit)
    ensures HostRun(s, run) && Within(After(s, run), limit) && Inv(After(s, run))
    decreases |run|
  {
    hide Inv, Step, Limit, Starting, Safe, Allowed;
    OnTimeIsHostRun(s, run);
    if run != [] {
      var r := Step(s, run[0].input, run[0].at);
      StepKeeps(s, run[0].input, run[0].at);
      if Starting(s) {
        StepWithin(s, run[0].input, run[0].at);
      } else {
        DecidedStays(s, run[0].input, run[0].at);
      }
      RunWithin(r, run[1..], limit);
    }
  }

  lemma DecidedStays(s: Session, i: Input, now: nat)
    requires Inv(s) && !Starting(s) && Allowed(s, i) && !i.StartCall?
    ensures Enabled(s, i) && !Starting(Step(s, i, now))
  {
    hide Inv, Step;
    if s.state == Idle {
      IdleStays(s, i, now);
    } else {
      StreamStays(s, i, now);
    }
  }

  // How long a start() may take: one watchdog for the connection, one per request, and the PIN wait.
  function StartLimit(c: Config): nat { HANDSHAKE_MS * (1 + RequestLimit(c)) + PIN_MS }

  lemma StartWithin(s: Session, udpOk: bool, now: nat)
    requires Inv(s)
    ensures Enabled(s, StartCall(udpOk)) && Within(Step(s, StartCall(udpOk), now), now + StartLimit(s.cfg))
  {
    hide Watch, CountersFresh, Log, Enqueue, Sound;
    InvIsSafe(s);
    StopShape(s, now);
  }

  lemma StopShape(s: Session, now: nat)
    ensures Stop(s, now).state == Idle && Stop(s, now).auth == s.auth
  {
    hide Watch, Log, Enqueue;
    EnqueueShape(s.(timers := StopTimers(s.timers)), TEARDOWN, false);
  }

  /** Every start() is decided in bounded time: take any history, a start() at t0 and any on-time run after it,
      whatever the receiver answers. If the session is still starting, its watchdog is due no later than
      10 + 10 * RequestLimit + 180 seconds after t0, and a tick from then on ends the session. */
  lemma StartIsDecided(cfg: Config, auth: Auth, before: seq<Timed>, udpOk: bool, t0: nat, run: seq<Timed>, packets: nat)
    requires Configured(Initial(cfg, auth)) && HostRun(Initial(cfg, auth), before)
    requires Enabled(After(Initial(cfg, auth), before), StartCall(udpOk))
    requires OnTime(Step(After(Initial(cfg, auth), before), StartCall(udpOk), t0), run)
    ensures var s := Step(After(Initial(cfg, auth), before), StartCall(udpOk), t0);
      && HostRun(s, run)
      && (Starting(After(s, run)) ==>
          && Watchdog(After(s, run)) <= t0 + StartLimit(cfg)
          && forall now: nat | now >= Watchdog(After(s, run)) :: Tick(After(s, run), packets, now).state == Idle)
    ensures cfg.airplay2 ==> StartLimit(cfg) == 10_000 + 13 * 10_000 + 180_000
  {
    hide Inv, Step, Tick, Initial;
    var s0 := After(Initial(cfg, auth), before);
    var s := Step(s0, StartCall(udpOk), t0);
    InitialInv(cfg, auth);
    RunKeeps(Initial(cfg, auth), before);
    ConfigFixed(Initial(cfg, auth), before);
    assert Initial(cfg, auth).cfg == cfg by { InitialConfig(cfg, auth); }
    StepKeeps(s0, StartCall(udpOk), t0);
    StartWithin(s0, udpOk, t0);
    RunWithin(s, run, t0 + StartLimit(cfg));
    forall now: nat | Starting(After(s, run)) && now >= Watchdog(After(s, run))
      ensures Tick(After(s, run), packets, now).state == Idle
    {
      TickDecides(After(s, run), packets, now);
    }
  }

  lemma InitialConfig(cfg: Config, auth: Auth)
    ensures Initial(cfg, auth).cfg == cfg
  {
  }

  // Requests sent since the last start() before streaming, TEARDOWN aside.
  function HandshakeRequests(trace: seq<Obs>, n: nat): nat
    requires n <= |trace|
  {
    if n == 0 || trace[n - 1].Started? then 0
    else
      HandshakeRequests(trace, n - 1)
      + if trace[n - 1].Sent? && trace[n - 1].m != TEARDOWN && StreamsSince(trace, n - 1) == 0 then 1 else 0
  }

  lemma RequestStep(p: Progress, o: Obs)
    requires !o.Sealed? && AdvanceProgress(p, o).phase != Broken
    ensures AdvanceProgress(p, o).requests
         == if o.Started? then 0
            else p.requests + if o.Sent? && o.m != TEARDOWN && p.streams == 0 then 1 else 0
  {
  }

  lemma {:induction false} RequestsCounted(trace: seq<Obs>, n: nat)
    requires n <= |trace| && WatchTo(trace, n).now.phase != Broken
    ensures WatchTo(trace, n).now.requests == HandshakeRequests(trace, n)
  {
    if n > 0 {
      hide WatchTo, AdvanceProgress;
      WatchStep(trace, n);
      RequestsCounted(trace, n - 1);
      StreamsAreLawful(trace, n - 1);
      if !trace[n - 1].Sealed? {
        RequestStep(WatchTo(trace, n - 1).now, trace[n - 1]);
      }
    }
  }

  /** No receiver can make the sender send more than 13 requests before the stream of an AirPlay 2 session. */
  lemma HandshakeIsBounded(cfg: Config, auth: Auth, run: seq<Timed>)
    requires Configured(Initial(cfg, auth)) && HostRun(Initial(cfg, auth), run)
    ensures var t := After(Initial(cfg, auth), run).trace;
      HandshakeRequests(t, |t|) <= RequestLimit(cfg) && (cfg.airplay2 ==> RequestLimit(cfg) == 13)
  {
    InitialInv(cfg, auth);
    RunKeeps(Initial(cfg, auth), run);
    ConfigFixed(Initial(cfg, auth), run);
    var t := After(Initial(cfg, auth), run).trace;
    RequestsCounted(t, |t|);
  }

  /** Nothing but start() wakes an idle session, though a timer may be armed and datagrams keep coming: an allowed input
      sends, raises and answers nothing exactly when it is not a start(). */
  lemma IdleIsInert(cfg: Config, auth: Auth, run: seq<Timed>, i: Input, now: nat)
    requires Configured(Initial(cfg, auth)) && HostRun(Initial(cfg, auth), run)
    requires After(Initial(cfg, auth), run).state == Idle && Allowed(After(Initial(cfg, auth), run), i)
    ensures var s := After(Initial(cfg, auth), run);
      Enabled(s, i) && (Step(s, i, now).trace == s.trace <==> !i.StartCall?)
        && (!i.StartCall? ==> Step(s, i, now).state == Idle)
  {
    hide Inv, Step;
    InitialInv(cfg, auth);
    RunKeeps(Initial(cfg, auth), run);
    var s := After(Initial(cfg, auth), run);
    InvIsSafe(s);
    if i.StartCall? {
      StartShows(s, i.udpOk, now);
    } else {
      IdleStays(s, i, now);
    }
  }

  lemma StartShows(s: Session, udpOk: bool, now: nat)
    requires Enabled(s, StartCall(udpOk)) && s.state == Idle
    ensures Step(s, StartCall(udpOk), now).trace != s.trace
  {
    hide Watch;
    assert |Start(s, udpOk, now).trace| > |s.trace|;
  }

  // ---- What stop() leaves behind ----

  /** stop() disarms every timer, but its TEARDOWN arms the handshake watchdog again exactly when the session was
      still pairing or in its handshake and had something to tear down. */
  lemma StopArmsTheWatchdog(s: Session, now: nat)
    requires s.state != Idle
    ensures var t := Stop(s, now).timers;
      && t.pin.Off? && StreamTimersOff(t)
      && (t.timeout.Due? <==>
          s.link == Connected && (s.rtsp.session || s.cfg.airplay2) && (s.state == Pairing || s.state == Handshake))
  {
    hide Watch, Log, Enqueue;
    EnqueueShape(s.(timers := StopTimers(s.timers)), TEARDOWN, false);
  }
}
