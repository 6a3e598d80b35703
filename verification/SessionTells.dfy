/** What a session lets the application and the receiver see when it acts: the end is told, the PIN asked for, checks
    are reported as they came out, and whatever is due to be encrypted is sealed. */
module SessionTells {
  import opened Wire
  import opened SessionSpec
  import opened SessionProof
  import opened SessionRuns
  import opened SessionDeadline
  import opened SessionPace

  lemma Logged(s: Session, o: Obs)
    ensures Log(s, o) == s.(trace := s.trace + [o])
  {
    hide Watch;
  }

  // ---- The end ----

  /** A session never ends silently: unless the application itself stops or restarts it, the step that ends it raises
      launched(false) if the stream was not launched, and closed in any case, and nothing after it. */
  lemma EndIsTold(s: Session, i: Input, now: nat)
    requires Inv(s) && Allowed(s, i) && s.state != Idle && !i.StartCall? && !i.StopCall?
    ensures Enabled(s, i)
    ensures var r := Step(s, i, now);
      r.state == Idle ==> r.trace != [] && r.trace[|r.trace| - 1] == Closed && Watch(r.trace).now.phase == Over
  {
    hide Inv, Step, Watch;
    InvIsSafe(s);
    StepKeeps(s, i, now);
  }

  /** start() leaves nothing of the session before: no request, key, port, challenge or volume; what is to be told of
      the track stays. */
  lemma StartIsFresh(s: Session, udpOk: bool, now: nat)
    ensures var r := Start(s, udpOk, now);
      && r.fifo.methods == [] && r.fifo.isHttp == [] && r.keys.ap2 == None && !r.keys.controlEncrypted
      && r.rtsp == Rtsp(false, 0, 0, false, false) && !r.waitingForPin && !r.exchange.aborted && !r.triedTransient
      && r.wishes == s.wishes.(volume := false)
      && Shows(s, r, Started)
      && (if udpOk then r.state == Connecting && r.link == Opening && r.timers.timeout == Due(now + 10_000)
          else r.state == Idle && Shows(s, r, Launched(false)))
  {
    hide Watch, Log, Shows, Stop;
    var s0 := Stop(s, now);
    StopKeepsWishes(s, now);
    var r1 := s0.(
      stage := Unstarted, waitingForPin := false, triedTransient := false,
      exchange := Exchange(s0.exchange.serverB, false),
      rtsp := Rtsp(false, 0, 0, false, false), fifo := Fifo([], [], s0.fifo.sentEver),
      keys := Keys(None, false, 0, 0, s0.keys.agreements), wishes := s0.wishes.(volume := false));
    StartShown(s, r1);
    assert udpOk ==> Start(s, udpOk, now).trace == Log(r1, Started).trace;
  }

  lemma StopKeepsWishes(s: Session, now: nat)
    ensures Stop(s, now).wishes == s.wishes && s.trace <= Stop(s, now).trace && Stop(s, now).state == Idle
  {
    hide Watch, Log, Enqueue;
    var s1 := s.(timers := StopTimers(s.timers));
    EnqueueShape(s1, TEARDOWN, false);
    RequestExtends(s1, TEARDOWN, false);
  }

  lemma StartShown(s: Session, r: Session)
    requires s.trace <= r.trace
    ensures forall q: Session :: q.trace == Log(r, Started).trace ==> Shows(s, q, Started)
    ensures var r2 := Log(Log(r, Started), Launched(false)); Shows(s, r2, Started) && Shows(s, r2, Launched(false))
  {
    hide Log, Watch;
    Logged(r, Started);
    Logged(Log(r, Started), Launched(false));
    var t := Log(Log(r, Started), Launched(false)).trace;
    assert t[|r.trace|] == Started && t[|r.trace| + 1] == Launched(false);
    assert t[|s.trace|..][|r.trace| - |s.trace|] == Started;
    assert t[|s.trace|..][|r.trace| + 1 - |s.trace|] == Launched(false);
    var u := Log(r, Started).trace;
    assert u[|s.trace|..][|r.trace| - |s.trace|] == Started;
  }

  // ---- Pairing ----

  /** A good M2 of PIN pairing asks the application for the PIN and gives it three minutes; of transient pairing it goes
      on to M4 with the fixed one. */
  lemma PinIsAskedFor(s: Session, r: Reply, now: nat)
    requires Popped(s) && s.stage == SetupM2 && !r.tlvError && r.saltAndKey
    ensures var s' := HandleM2(s, r, now);
      if s.auth == HapPin then
        s'.waitingForPin && s'.trace == s.trace + [PinRequired] && s'.timers.pin == Due(now + 180_000)
        && s'.exchange.serverB == r.serverKey
      else r.serverKey == Usable ==> s'.stage == SetupM4 && s'.fifo.methods == [POST] && s'.state == Pairing
  {
    hide Watch, Enqueue, CountersFresh;
    var s1 := s.(exchange := s.exchange.(serverB := r.serverKey));
    EnqueueShape(WithAp2(s1, s1.keys.ap2.value.(srp := true)).(stage := SetupM4), POST, true);
  }

  /** The PIN, once given, goes into M3; a B that is a multiple of N ends the session instead. */
  lemma PinIsUsed(s: Session, now: nat)
    requires Inv(s) && s.state == Pairing && s.waitingForPin
    ensures Safe(s) && var r := SubmitPin(s, now);
      && !r.waitingForPin
      && (s.exchange.serverB == Usable ==> r.stage == SetupM4 && r.state == Pairing && r.fifo.methods == [POST])
      && (s.exchange.serverB == Zero ==> r.state == Idle)
  {
    hide Watch, Enqueue, CountersFresh, Log;
    var s1 := ArmTimeout(s.(waitingForPin := false, timers := s.timers.(pin := Off)), now);
    EnqueueShape(WithAp2(s1, s1.keys.ap2.value.(srp := true)).(stage := SetupM4), POST, true);
  }

  /** Once the accessory's keys have opened, the application gets the credentials and verification begins. */
  lemma CredentialsAreTold(s: Session, r: Reply, now: nat)
    requires Popped(s) && s.stage == SetupM6
    ensures var s' := HandleM6(s, r, now);
      if !r.tlvError && r.sealedKeys && r.keysOpen && r.keysComplete then
        Shows(s, s', CredentialsObtained) && s'.stage == VerifyM2 && s'.state == Pairing && s'.fifo.methods == [POST]
      else s'.state == Idle
  {
    hide Watch, Log, Enqueue, Fail, CountersFresh, Shows;
    var s1 := WithAp2(s, s.keys.ap2.value.(accessoryKnown := true));
    var s2 := Log(s1, CredentialsObtained).(stage := VerifyM2);
    FailIdles(s);
    FirstShown(s1, CredentialsObtained);
    EnqueueShape(s2, POST, true);
    RequestExtends(s2, POST, true);
    ShownThrough(s, s1, s2, HttpPost(s2, now), CredentialsObtained);
  }

  lemma ShownThrough(s: Session, s1: Session, s2: Session, r: Session, o: Obs)
    requires s1.trace == s.trace && s2.trace == Log(s1, o).trace && s2.trace <= r.trace && Shows(s1, Log(s1, o), o)
    ensures Shows(s, r, o)
  {
    hide Log;
    StillShown(s1, Log(s1, o), r, o);
  }

  /** Checks are reported as they came out: M4 shows whether the receiver's proof verified, pair-verify whether the
      signature of the known accessory did. */
  lemma ChecksAreHonest(s: Session, r: Reply, now: nat)
    requires Popped(s) && !r.tlvError
    ensures s.stage == SetupM4 ==> Shows(s, HandleM4(s, r, now), Checked(SrpProof, r.proof == Some(true)))
    ensures s.stage == VerifyM2 && r.verifyComplete && r.secretOk && r.verifyOpens && r.signed ==>
      Shows(s, HandleVerifyM2(s, r, now), Checked(VerifySignature, r.signatureOk))
  {
    hide Watch, Enqueue, CountersFresh, Shows, HandleM4, HandleVerifyM2;
    if s.stage == SetupM4 {
      ProofIsShown(s, r, now);
    } else if s.stage == VerifyM2 && r.verifyComplete && r.secretOk && r.verifyOpens && r.signed {
      SignatureIsShown(s, r, now);
    }
  }

  lemma ProofIsShown(s: Session, r: Reply, now: nat)
    requires s.keys.ap2.Some? && s.keys.ap2.value.srp && !r.tlvError
    ensures Shows(s, HandleM4(s, r, now), Checked(SrpProof, r.proof == Some(true)))
  {
    hide Log, Watch, Fail, AfterAuthOk, HttpPost, Agree, Shows;
    var o := Checked(SrpProof, r.proof == Some(true));
    var s1 := Log(s, o);
    FirstShown(s, o);
    FailExtends(s1);
    AfterAuthExtends(Agree(s1, false).(stage := Done), now);
    AgreeSilent(s1, false);
    PostExtends(s1.(stage := SetupM6), now);
    StillShown(s, s1, HandleM4(s, r, now), o);
  }

  lemma SignatureIsShown(s: Session, r: Reply, now: nat)
    requires s.keys.ap2.Some? && s.keys.ap2.value.accessoryKnown
    requires !r.tlvError && r.verifyComplete && r.secretOk && r.verifyOpens && r.signed
    ensures Shows(s, HandleVerifyM2(s, r, now), Checked(VerifySignature, r.signatureOk))
  {
    hide Log, Watch, Fail, HttpPost, Agree, Shows;
    var o := Checked(VerifySignature, r.signatureOk);
    var s1 := Log(s, o);
    FirstShown(s, o);
    FailExtends(s1);
    AgreeSilent(s1, true);
    PostExtends(Agree(s1, true).(stage := VerifyDone), now);
    StillShown(s, s1, HandleVerifyM2(s, r, now), o);
  }

  lemma FirstShown(s: Session, o: Obs)
    ensures Shows(s, Log(s, o), o)
  {
    Logged(s, o);
    assert (s.trace + [o])[|s.trace|] == o;
  }

  lemma StillShown(s: Session, t: Session, r: Session, o: Obs)
    requires Shows(s, t, o)
    ensures t.trace <= r.trace ==> Shows(s, r, o)
  {
    if t.trace <= r.trace {
      assert r.trace[|s.trace|..|t.trace|] == t.trace[|s.trace|..];
    }
  }

  lemma FailExtends(s: Session)
    ensures s.trace <= Fail(s).trace
  {
    hide Watch;
  }

  lemma AgreeSilent(s: Session, withEvents: bool)
    requires s.keys.ap2.Some?
    ensures Agree(s, withEvents).trace == s.trace
  {
  }

  lemma PostExtends(s: Session, now: nat)
    ensures s.trace <= HttpPost(s, now).trace
  {
    hide Enqueue;
    RequestExtends(s, POST, true);
  }

  lemma AfterAuthExtends(s: Session, now: nat)
    ensures s.trace <= AfterAuthOk(s, now).trace
  {
    hide Enqueue;
    var s1 := s.(rtsp := s.rtsp.(retried := false), state := Handshake);
    var s2 := s1.(keys := s.keys.(controlEncrypted := true, ctrlSendCtr := 0));
    RequestExtends(s1, OPTIONS, false);
    RequestExtends(s1.(stage := Ap2Info), GET, true);
    RequestExtends(s2.(stage := Ap2Info), GET, true);
  }

  lemma RequestExtends(s: Session, m: Method, http: bool)
    ensures s.trace <= Enqueue(s, m, http).trace
  {
    hide Watch;
  }

  lemma RequestShown(s: Session, m: Method, http: bool)
    ensures s.trace <= Enqueue(s, m, http).trace && Shows(s, Enqueue(s, m, http), Sent(m, http))
  {
    hide Watch;
    assert Enqueue(s, m, http).trace[|s.trace|] == Sent(m, http);
  }

  // ---- Encryption ----

  /** Once the control channel is keyed a request is written in frames under its key, starting at the next counter. */
  lemma RequestIsSealed(s: Session, m: Method, http: bool)
    ensures var k, r := s.keys, Enqueue(s, m, http);
      if k.controlEncrypted && k.ap2.Some? && k.ap2.value.controlKey.Some? then
        var n := FramesOf(s.cfg, s.fifo.sentEver + 1);
        && r.trace == s.trace + [Sent(m, http), Sealed(Control, k.ap2.value.controlKey.value, k.ctrlSendCtr, n)]
        && r.keys == k.(ctrlSendCtr := k.ctrlSendCtr + n)
      else r.trace == s.trace + [Sent(m, http)] && r.keys == k
  {
    hide Watch;
  }

  /** From the end of pairing the control channel of an AirPlay 2 session is keyed by what was agreed, and while it
      streams so is the audio. */
  lemma Ap2IsKeyed(s: Session)
    requires Inv(s) && s.cfg.airplay2 && (s.state == Handshake || s.state == Streaming)
    ensures s.keys.controlEncrypted && s.keys.ap2.Some? && s.keys.ap2.value.secret.Some?
    ensures s.keys.ap2.value.controlKey == s.keys.ap2.value.secret
    ensures s.state == Streaming ==> s.keys.ap2.value.audioKey == s.keys.ap2.value.secret
    ensures s.keys.ap2.value.eventKey == if s.auth == HapPin then s.keys.ap2.value.secret else None
  {
    hide Watch, EventsFit, ReceiverChecked;
  }

  /** Ports are taken from the reply that tells them: a SETUP's audio and control port, the event port of the AirPlay 2
      session, and of its stream the audio port, for the control port too if none is told. */
  lemma PortsAreTaken(s: Session, r: Reply, now: nat)
    requires s.state == Handshake && r.serverPort != 0
    ensures Success(r) ==> var s' := HandleResponse(s, SETUP, r, now);
      s'.rtsp.serverPort == r.serverPort && s'.rtsp.controlPort == r.controlPort && s'.rtsp.session
    ensures s.keys.ap2.Some? ==> var s' := HandleAp2Session(s, r, now);
      s'.keys.ap2.Some? && s'.keys.ap2.value.eventPort == r.eventPort
    ensures var s' := HandleAp2Stream(s, r, now);
      s'.rtsp.serverPort == r.serverPort
      && s'.rtsp.controlPort == if r.controlPort == 0 then r.serverPort else r.controlPort
  {
    hide Watch, Log, Enqueue, StartStreaming, HandleResponse;
    var s1 := s.(rtsp := s.rtsp.(serverPort := r.serverPort, controlPort := r.controlPort, session := true));
    var s2 := s.(rtsp := s.rtsp.(serverPort := r.serverPort,
                                 controlPort := if r.controlPort == 0 then r.serverPort else r.controlPort));
    if Success(r) {
      AnswerIs(s, SETUP, r, now);
      EnqueueShape(s1, RECORD, false);
    }
    if s.keys.ap2.Some? {
      var s3 := WithAp2(s, s.keys.ap2.value.(eventPort := r.eventPort)).(stage := Ap2Record);
      EnqueueShape(s3, RECORD, true);
      RequestIsSealed(s3, RECORD, true);
    }
    StreamKeepsPorts(s2, now);
  }

  lemma StreamKeepsPorts(s: Session, now: nat)
    ensures StartStreaming(s, now).rtsp == s.rtsp
  {
    hide Watch, Log, SendMetadata, Parameters, StartStreaming, Shows, Count;
    var s3 := StreamLaunches(s, now);
    MetadataCounts(s3, now, AudioBeat);
  }

  // ---- Keep-alive in AirPlay 1 ----

  /** In AirPlay 1 the receiver's answer to a keep-alive decides whether they go on: 200 sets the timer going, anything
      else stops it. */
  lemma KeepAliveIsAnswered(s: Session, r: Reply, now: nat)
    requires s.state == Streaming
    ensures HandleResponse(s, POST, r, now) == s.(timers := s.timers.(feedback :=
      if r.code != 200 then Off
      else if s.timers.feedback.Off? then Due(now + s.timers.feedbackMs)
      else s.timers.feedback))
  {
  }

  /** And while the timer runs one is sent each time it fires. */
  lemma KeepAliveIsSent(s: Session, now: nat)
    requires s.state == Streaming && !s.cfg.airplay2
    ensures var s' := TickFeedback(s, now);
      if Fires(s.timers.feedback, now) then
        Shows(s, s', Sent(POST, false)) && s'.timers.feedback == Due(now + s.timers.feedbackMs)
      else s' == s
  {
    hide Watch, Log, Enqueue, Shows;
    var s1 := s.(timers := s.timers.(feedback := Due(now + s.timers.feedbackMs)));
    EnqueueShape(s1, POST, false);
    RequestShown(s1, POST, false);
    SameTraceShows(s, s1, Enqueue(s1, POST, false), Sent(POST, false));
  }

  lemma SameTraceShows(s: Session, t: Session, r: Session, o: Obs)
    requires s.trace == t.trace
    ensures Shows(s, r, o) <==> Shows(t, r, o)
  {
  }

  /** The first one is sent when the stream starts, and the period is 25 seconds. */
  lemma KeepAliveIsAsked(s: Session, now: nat)
    requires !s.cfg.airplay2
    ensures var r := StartStreaming(s, now); r.timers.feedbackMs == 25_000 && Shows(s, r, Sent(POST, false))
  {
    hide Watch, Log, SendMetadata, Parameters, StartStreaming, Shows, Count;
    var s3 := StreamLaunches(s, now);
    MetadataCounts(s3, now, AudioBeat);
    MetadataExtends(s3, now);
    Logged(SendMetadata(s3, now), Launched(true));
    StillShown(s, s3, StartStreaming(s, now), Sent(POST, false));
  }

  lemma OpenExtends(s: Session, now: nat)
    ensures s.trace <= OpenStream(s, now).trace
  {
    hide Watch;
  }

  lemma MetadataExtends(s: Session, now: nat)
    requires s.state == Streaming
    ensures s.trace <= SendMetadata(s, now).trace
  {
    hide Enqueue;
    RequestParameters(s, SET_PARAMETER);
    RequestExtends(s, SET_PARAMETER, false);
    RequestExtends(Enqueue(s, SET_PARAMETER, false), SET_PARAMETER, false);
  }

  /** With an audio key a burst is sealed under it, packet for packet, from the next nonce on. */
  lemma AudioIsSealed(s: Session, packets: nat)
    ensures var r := SendAudio(s, packets);
      if s.keys.ap2.Some? && s.keys.ap2.value.audioKey.Some? then
        var a := s.keys.ap2.value;
        && r.trace == s.trace + [Sealed(Audio, a.audioKey.value, a.audioNonce, packets), AudioSent(packets)]
        && r.keys.ap2 == Some(a.(audioNonce := a.audioNonce + packets))
      else r.trace == s.trace + [AudioSent(packets)] && r.keys == s.keys
  {
    hide Watch;
  }

  /** Requests on the event channel are answered, one sealed reply each, whenever there is a key for them. */
  lemma EventsAreAnswered(s: Session, requests: nat)
    requires s.state != Idle
    ensures var r := OnEventRequests(s, requests);
      if s.keys.ap2.Some? && s.keys.ap2.value.eventKey.Some? then
        && r.trace == s.trace + [Sealed(Event, s.keys.ap2.value.eventKey.value, s.keys.eventSendCtr, requests)]
        && r.keys.eventSendCtr == s.keys.eventSendCtr + requests
      else r == s
    ensures forall n: nat :: OnDatagrams(s, n) == s.(trace := s.trace + [DatagramsSent(n)])
  {
    hide Watch;
  }

  // ---- What the application asked for ----

  // How many parameter requests have been sent.
  function Parameters(trace: seq<Obs>): nat
  {
    if trace == [] then 0
    else Parameters(trace[..|trace| - 1]) + if trace[|trace| - 1] == Sent(SET_PARAMETER, false) then 1 else 0
  }

  lemma LogParameters(s: Session, o: Obs)
    ensures Parameters(Log(s, o).trace) == Parameters(s.trace) + if o == Sent(SET_PARAMETER, false) then 1 else 0
  {
    hide Watch;
    assert Log(s, o).trace[..|s.trace|] == s.trace;
  }

  lemma RequestParameters(s: Session, m: Method)
    ensures var r := Enqueue(s, m, false);
      && Parameters(r.trace) == Parameters(s.trace) + (if m == SET_PARAMETER then 1 else 0)
      && r == s.(fifo := Push(s.fifo, m, false), keys := r.keys, trace := r.trace)
  {
    hide Watch, Log, WriteRtsp;
    var s1 := s.(fifo := Push(s.fifo, m, false));
    var s2 := Log(s1, Sent(m, false));
    EnqueueShape(s, m, false);
    LogParameters(s1, Sent(m, false));
    WriteParameters(s2);
  }

  lemma WriteParameters(s: Session)
    ensures Parameters(WriteRtsp(s).trace) == Parameters(s.trace)
  {
    hide Watch, Log;
    var k := s.keys;
    if k.controlEncrypted && k.ap2.Some? && k.ap2.value.controlKey.Some? {
      LogParameters(s, Sealed(Control, k.ap2.value.controlKey.value, k.ctrlSendCtr, FramesOf(s.cfg, s.fifo.sentEver)));
    }
  }

  function Number(b: bool): nat { if b then 1 else 0 }

  lemma MetadataParameters(s: Session, now: nat)
    requires s.state == Streaming
    ensures Parameters(SendMetadata(s, now).trace)
      == Parameters(s.trace) + Number(s.wishes.text) + Number(s.wishes.cover)
  {
    hide Enqueue, Parameters;
    RequestParameters(s, SET_PARAMETER);
    RequestParameters(Enqueue(s, SET_PARAMETER, false), SET_PARAMETER);
  }

  /** A volume set while streaming is sent at once; before, it is kept for the start of the stream. */
  lemma VolumeIsSent(s: Session, now: nat)
    ensures var r := SetVolume(s, now);
      r.wishes.volume && Parameters(r.trace) == Parameters(s.trace) + Number(s.state == Streaming)
  {
    hide Enqueue, Parameters;
    RequestParameters(s.(wishes := s.wishes.(volume := true)), SET_PARAMETER);
  }

  /** Text and cover are kept, and sent at once where they change what is playing while streaming. */
  lemma NowPlayingIsSent(s: Session, text: bool, cover: bool, changed: bool, now: nat)
    ensures var r := SetNowPlaying(s, text, cover, changed, now);
      && r.wishes == s.wishes.(text := text, cover := cover)
      && Parameters(r.trace)
        == Parameters(s.trace) + if s.state == Streaming && changed then Number(text) + Number(cover) else 0
  {
    hide Enqueue, Parameters;
    var s1 := s.(wishes := s.wishes.(text := text, cover := cover));
    RequestParameters(s1, SET_PARAMETER);
    RequestParameters(Enqueue(s1, SET_PARAMETER, false), SET_PARAMETER);
  }

  /** A stream starts with what was asked for before: the volume (in AirPlay 2 in any case), the text and the cover; and
      with launched(true), last of all. */
  lemma StartSendsWishes(s: Session, now: nat)
    ensures var r := StartStreaming(s, now);
      && Parameters(r.trace)
        == Parameters(s.trace) + Number(s.wishes.volume || s.cfg.airplay2)
           + Number(s.wishes.text) + Number(s.wishes.cover)
      && r.trace != [] && r.trace[|r.trace| - 1] == Launched(true)
  {
    hide Watch, Log, SendMetadata, Parameters, StartStreaming;
    var s3 := StreamLaunches(s, now);
    MetadataParameters(s3, now);
    LogParameters(SendMetadata(s3, now), Launched(true));
    LastLogged(SendMetadata(s3, now), Launched(true));
  }

  // The stream as it is before the metadata: opened, its volume sent and its own timers set.
  lemma StreamLaunches(s: Session, now: nat) returns (s3: Session)
    ensures StartStreaming(s, now) == Log(SendMetadata(s3, now), Launched(true))
    ensures s3.state == Streaming && s3.rtsp == s.rtsp && s3.cfg == s.cfg
    ensures s3.wishes == s.wishes.(volume := s.wishes.volume || s.cfg.airplay2)
    ensures Parameters(s3.trace) == Parameters(s.trace) + Number(s.wishes.volume || s.cfg.airplay2)
    ensures !s.cfg.airplay2 ==> s3.timers.feedbackMs == 25_000 && Shows(s, s3, Sent(POST, false))
  {
    hide Watch, Log, Enqueue, SendMetadata, Parameters, OpenStream, Shows;
    var s0 := OpenStream(s, now);
    OpenParameters(s, now);
    OpenExtends(s, now);
    RequestParameters(s0, SET_PARAMETER);
    RequestExtends(s0, SET_PARAMETER, false);
    var s1 := if s0.wishes.volume then SendRequest(s0, SET_PARAMETER, now) else s0;
    var s2 := s1.(timers := s1.timers.(pacer := Due(now + PACER_MS)));
    var t := s2.timers.(feedbackMs := FEEDBACK_AP1_MS);
    RequestParameters(s2.(timers := t), POST);
    RequestShown(s2.(timers := t), POST, false);
    s3 := if s.cfg.airplay2
          then s2.(timers := s2.timers.(feedbackMs := FEEDBACK_AP2_MS, feedback := Due(now + FEEDBACK_AP2_MS)))
          else Enqueue(s2.(timers := t), POST, false);
    if !s.cfg.airplay2 {
      ShowsEarlier(s, s2.(timers := t), s3, Sent(POST, false));
    }
  }

  lemma OpenParameters(s: Session, now: nat)
    ensures var r := OpenStream(s, now);
      && r.state == Streaming && Parameters(r.trace) == Parameters(s.trace) && r.cfg == s.cfg && r.rtsp == s.rtsp
      && r.wishes == s.wishes.(volume := s.wishes.volume || s.cfg.airplay2)
  {
    hide Watch, Log, Parameters;
    var s1 := s.(state := Streaming, timers := s.timers.(timeout := Off));
    LogParameters(s1, EnteredStreaming(s.rtsp.serverPort));
    LogParameters(Log(s1, EnteredStreaming(s.rtsp.serverPort)), SyncSent);
  }
}
