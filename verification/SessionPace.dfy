/** That a stream keeps time: audio every 8 ms, a sync packet every second and, in AirPlay 2, a keep-alive every two
    seconds, whatever else happens meanwhile; and that stopping it tells the receiver. */
module SessionPace {
  import opened Wire
  import opened SessionSpec
  import opened SessionProof
  import opened SessionRuns
  import opened SessionDeadline

  datatype Beat = AudioBeat | SyncBeat | KeepAliveBeat

  predicate IsBeat(o: Obs, b: Beat)
  {
    match b
    case AudioBeat => o.AudioSent?
    case SyncBeat => o.SyncSent?
    case KeepAliveBeat => o == Sent(FEEDBACK, false)
  }

  function Period(b: Beat): nat { match b case AudioBeat => 8 case SyncBeat => 1_000 case KeepAliveBeat => 2_000 }

  function TimerOf(t: Timers, b: Beat): Timer
  {
    match b case AudioBeat => t.pacer case SyncBeat => t.sync case KeepAliveBeat => t.feedback
  }

  // Sync packets need the receiver's control port, which AirPlay 1 may leave untold; the keep-alive is AirPlay 2's.
  predicate Carries(s: Session, b: Beat)
  {
    s.state == Streaming
    && match b
      case AudioBeat => true
      case SyncBeat => s.rtsp.controlPort != 0
      case KeepAliveBeat => s.cfg.airplay2
  }

  // How often the beat has been seen.
  function Count(trace: seq<Obs>, b: Beat): nat
  {
    if trace == [] then 0
    else Count(trace[..|trace| - 1], b) + if IsBeat(trace[|trace| - 1], b) then 1 else 0
  }

  lemma LogCounts(s: Session, o: Obs, b: Beat)
    ensures Count(Log(s, o).trace, b) == Count(s.trace, b) + if IsBeat(o, b) then 1 else 0
  {
    hide Watch;
    assert Log(s, o).trace[..|s.trace|] == s.trace;
  }

  // r has seen o since s.
  predicate Shows(s: Session, r: Session, o: Obs) { |s.trace| <= |r.trace| && o in r.trace[|s.trace|..] }

  lemma ShowsEarlier(s: Session, t: Session, r: Session, o: Obs)
    requires Shows(t, r, o) && |s.trace| <= |t.trace|
    ensures Shows(s, r, o)
  {
  }

  // ---- What does not touch the beats ----

  // The same clock, and nothing new to hear.
  predicate SameBeat(s: Session, r: Session, b: Beat)
  {
    r.cfg == s.cfg && r.state == s.state && r.rtsp == s.rtsp && TimerOf(r.timers, b) == TimerOf(s.timers, b)
    && r.timers.feedbackMs == s.timers.feedbackMs && Count(r.trace, b) == Count(s.trace, b)
  }

  lemma WriteCounts(s: Session, b: Beat)
    ensures SameBeat(s, WriteRtsp(s), b)
  {
    hide Watch, Log;
    var k := s.keys;
    if k.controlEncrypted && k.ap2.Some? && k.ap2.value.controlKey.Some? {
      LogCounts(s, Sealed(Control, k.ap2.value.controlKey.value, k.ctrlSendCtr, FramesOf(s.cfg, s.fifo.sentEver)), b);
    }
  }

  lemma EnqueueCounts(s: Session, m: Method, http: bool, b: Beat)
    requires m != FEEDBACK || b != KeepAliveBeat
    ensures SameBeat(s, Enqueue(s, m, http), b)
  {
    hide Watch, Log, WriteRtsp;
    var s1 := s.(fifo := Push(s.fifo, m, http));
    LogCounts(s1, Sent(m, http), b);
    WriteCounts(Log(s1, Sent(m, http)), b);
  }

  lemma MetadataCounts(s: Session, now: nat, b: Beat)
    requires s.state == Streaming
    ensures SameBeat(s, SendMetadata(s, now), b)
  {
    hide Enqueue, Count;
    EnqueueCounts(s, SET_PARAMETER, false, b);
    EnqueueCounts(Enqueue(s, SET_PARAMETER, false), SET_PARAMETER, false, b);
  }

  // ---- The start of a stream ----

  // Every beat the stream carries has just been set going.
  predicate JustStarted(r: Session, b: Beat, now: nat)
  {
    Carries(r, b) ==> TimerOf(r.timers, b) == Due(now + Period(b))
  }

  lemma StreamJustStarted(s: Session, b: Beat, now: nat)
    ensures JustStarted(StartStreaming(s, now), b, now)
  {
    hide Watch, Log, Enqueue, SendMetadata, Count, OpenStream;
    var s0 := OpenStream(s, now);
    StreamOpened(s, now);
    EnqueueCounts(s0, SET_PARAMETER, false, b);
    var s1 := if s0.wishes.volume then SendRequest(s0, SET_PARAMETER, now) else s0;
    var s2 := s1.(timers := s1.timers.(pacer := Due(now + PACER_MS)));
    var t := s2.timers.(feedbackMs := FEEDBACK_AP1_MS);
    EnqueueCounts(s2.(timers := t), POST, false, b);
    var s3 := if s.cfg.airplay2
              then s2.(timers := s2.timers.(feedbackMs := FEEDBACK_AP2_MS, feedback := Due(now + FEEDBACK_AP2_MS)))
              else SendRequest(s2.(timers := t), POST, now);
    MetadataCounts(s3, now, b);
  }

  lemma StreamOpened(s: Session, now: nat)
    ensures OpenStream(s, now).state == Streaming && OpenStream(s, now).timers.sync == Due(now + 1_000)
  {
    hide Watch, Log;
  }

  // Sending a request and giving up do not start a stream.
  lemma NotStreamingYet(s: Session, m: Method, http: bool, now: nat)
    ensures Fail(s).state == Idle && Enqueue(s, m, http).state == s.state && HttpPost(s, now).state == s.state
    ensures SendAp2Rtsp(s, m, now).state == s.state && SendRequest(s, m, now).state == s.state
  {
    hide Watch, Log, Enqueue;
    EnqueueShape(s, m, http);
    EnqueueShape(s, m, true);
    EnqueueShape(s, m, false);
    EnqueueShape(s, POST, true);
  }

  lemma M3Stays(s: Session, now: nat)
    requires s.keys.ap2.Some? && s.state == Pairing
    ensures SendPairSetupM3(s, now).state != Streaming
  {
    hide Watch, Log, Enqueue, HttpPost, Fail;
    var s1 := WithAp2(s, s.keys.ap2.value.(srp := true));
    NotStreamingYet(s1, POST, true, now);
    NotStreamingYet(s1.(stage := SetupM4), POST, true, now);
  }

  lemma AfterAuthStays(s: Session, now: nat)
    ensures AfterAuthOk(s, now).state == Handshake
  {
    hide Watch, Log, Enqueue, SendAp2Rtsp, SendRequest;
    var s1 := s.(rtsp := s.rtsp.(retried := false), state := Handshake);
    var s2 := s1.(keys := s.keys.(controlEncrypted := true, ctrlSendCtr := 0));
    NotStreamingYet(s1, OPTIONS, false, now);
    NotStreamingYet(s1.(stage := Ap2Info), GET, true, now);
    NotStreamingYet(s2.(stage := Ap2Info), GET, true, now);
  }

  lemma RefusedStays(s: Session, r: Reply, now: nat)
    requires s.state != Streaming
    ensures OnPairingRefused(s, r, now).state != Streaming
  {
    hide Watch, Log, Enqueue, HttpPost, Fail;
    NotStreamingYet(s, POST, true, now);
    NotStreamingYet(WithAp2(s.(auth := HapPin), FRESH_AP2).(stage := PinStart), POST, true, now);
    NotStreamingYet(WithAp2(s.(triedTransient := true, auth := HapTransient), FRESH_AP2).(stage := SetupM2), POST, true,
                    now);
  }

  lemma M2Stays(s: Session, r: Reply, now: nat)
    requires s.keys.ap2.Some? && s.state == Pairing
    ensures HandleM2(s, r, now).state != Streaming
  {
    hide Watch, Log, Fail, SendPairSetupM3;
    NotStreamingYet(s, POST, true, now);
    M3Stays(s.(exchange := s.exchange.(serverB := r.serverKey)), now);
  }

  lemma M4Stays(s: Session, r: Reply, now: nat)
    requires s.keys.ap2.Some? && s.keys.ap2.value.srp && s.state == Pairing
    ensures HandleM4(s, r, now).state != Streaming
  {
    hide Watch, Log, Fail, HttpPost, AfterAuthOk;
    var s1 := Log(s, Checked(SrpProof, r.proof == Some(true)));
    NotStreamingYet(s, POST, true, now);
    NotStreamingYet(s1, POST, true, now);
    NotStreamingYet(s1.(stage := SetupM6), POST, true, now);
    AfterAuthStays(Agree(s1, false).(stage := Done), now);
  }

  lemma M6Stays(s: Session, r: Reply, now: nat)
    requires s.keys.ap2.Some? && s.state == Pairing
    ensures HandleM6(s, r, now).state != Streaming
  {
    hide Watch, Log, Fail, HttpPost;
    NotStreamingYet(s, POST, true, now);
    var s1 := Log(WithAp2(s, s.keys.ap2.value.(accessoryKnown := true)), CredentialsObtained);
    NotStreamingYet(s1.(stage := VerifyM2), POST, true, now);
  }

  lemma VerifyStays(s: Session, r: Reply, now: nat)
    requires s.keys.ap2.Some? && s.state == Pairing
    ensures HandleVerifyM2(s, r, now).state != Streaming
  {
    hide Watch, Log, Fail, HttpPost, Agree;
    if r.tlvError || !r.verifyComplete || !r.secretOk || !r.verifyOpens || !r.signed {
      FailIdles(s);
    } else {
      var s1 := Log(s, Checked(VerifySignature, s.keys.ap2.value.accessoryKnown && r.signatureOk));
      FailIdles(s1);
      VerifiedStays(s1, now);
    }
  }

  lemma FailIdles(s: Session)
    ensures Fail(s).state == Idle
  {
    hide Watch, Log;
  }

  lemma VerifiedStays(s: Session, now: nat)
    requires s.keys.ap2.Some?
    ensures HttpPost(Agree(s, true).(stage := VerifyDone), now).state == s.state
  {
    hide HttpPost;
    NotStreamingYet(Agree(s, true).(stage := VerifyDone), POST, true, now);
  }

  lemma PairingStays(s: Session, r: Reply, now: nat)
    requires Popped(s) && s.state == Pairing
    ensures OnPairingResponse(s, r, now).state != Streaming
  {
    hide Watch, HttpPost, AfterAuthOk, OnPairingRefused, HandleM2, HandleM4, HandleM6, HandleVerifyM2, CountersFresh;
    if s.stage == AuthSetup || s.stage == VerifyDone {
      AfterAuthStays(s.(stage := Done), now);
    }
    RefusedStays(s, r, now);
    match s.stage
    case PinStart => NotStreamingYet(s.(stage := SetupM2), POST, true, now);
    case SetupM2 => M2Stays(s, r, now);
    case SetupM4 => M4Stays(s, r, now);
    case SetupM6 => M6Stays(s, r, now);
    case VerifyM2 => VerifyStays(s, r, now);
    case _ =>
  }

  lemma Ap2Starts(s: Session, r: Reply, b: Beat, now: nat)
    requires Popped(s) && s.state == Handshake
    ensures JustStarted(OnPairingResponse(s, r, now), b, now)
  {
    hide Watch, SendAp2SetupSession, HandleAp2Session, SendAp2SetupStream, HandleAp2Stream, OnPairingRefused,
      CountersFresh, JustStarted;
    Ap2Stays(s, r, now);
    RefusedStays(s, r, now);
    StillStarting(OnPairingResponse(s, r, now), b, now);
    Ap2StreamStarts(s, r, b, now);
  }

  lemma Ap2Stays(s: Session, r: Reply, now: nat)
    requires s.keys.ap2.Some? && s.state == Handshake
    ensures SendAp2SetupSession(s, now).state == Handshake && HandleAp2Session(s, r, now).state == Handshake
    ensures SendAp2SetupStream(s, now).state == Handshake
  {
    hide SendAp2Rtsp;
    var a := s.keys.ap2.value;
    NotStreamingYet(s.(stage := Ap2Session), SETUP, true, now);
    NotStreamingYet(WithAp2(s, a.(eventPort := r.eventPort)).(stage := Ap2Record), RECORD, true, now);
    NotStreamingYet(WithAp2(s, a.(audioKey := a.secret, audioNonce := 0)).(stage := Ap2Stream), SETUP, true, now);
  }

  lemma Ap2StreamStarts(s: Session, r: Reply, b: Beat, now: nat)
    ensures JustStarted(HandleAp2Stream(s, r, now), b, now)
  {
    hide Fail, StartStreaming, JustStarted;
    var s1 := s.(rtsp := s.rtsp.(serverPort := r.serverPort,
                                 controlPort := if r.controlPort == 0 then r.serverPort else r.controlPort));
    NotStreamingYet(s1, SETUP, true, now);
    StillStarting(Fail(s1), b, now);
    StreamJustStarted(s1, b, now);
  }

  lemma StillStarting(r: Session, b: Beat, now: nat)
    ensures r.state != Streaming ==> JustStarted(r, b, now)
  {
  }

  lemma SetupStarts(s: Session, m: Method, r: Reply, b: Beat, now: nat)
    requires PoppedSetup(s, m)
    ensures JustStarted(HandleResponse(s, m, r, now), b, now)
  {
    hide Watch, Log, Enqueue, SendRequest, Fail, StartStreaming, CountersFresh, JustStarted;
    var s1 := s.(rtsp := s.rtsp.(challenged := true, retried := true));
    var s2 := s.(rtsp := s.rtsp.(serverPort := r.serverPort, controlPort := r.controlPort, session := true));
    var result := HandleResponse(s, m, r, now);
    NotStreamingYet(s, ANNOUNCE, false, now);
    NotStreamingYet(s, SETUP, false, now);
    NotStreamingYet(s1, m, false, now);
    NotStreamingYet(s2, RECORD, false, now);
    StreamJustStarted(s, b, now);
    assert result.state != Streaming || result == StartStreaming(s, now);
    StillStarting(result, b, now);
  }

  // ---- While streaming ----

  predicate SameRoute(s: Session, r: Session) { r.cfg == s.cfg && r.rtsp == s.rtsp && r.state == s.state }

  lemma StreamReplyCounts(s: Session, m: Method, r: Reply, b: Beat, now: nat)
    requires s.state == Streaming && StreamRequest(s.cfg, m)
    ensures SameRoute(s, HandleResponse(s, m, r, now))
    ensures Carries(s, b) ==> SameBeat(s, HandleResponse(s, m, r, now), b)
  {
  }

  lemma PopCounts(s: Session, b: Beat)
    requires s.fifo.methods != [] && s.fifo.isHttp != []
    ensures SameBeat(s, Pop(s), b)
  {
    hide Watch, Log;
    LogCounts(s.(fifo := Fifo(s.fifo.methods[1..], s.fifo.isHttp[1..], s.fifo.sentEver)),
              Answered(s.fifo.methods[0], s.fifo.isHttp[0]), b);
  }

  // What a reply does: it starts the beats with the stream, or leaves them alone.
  lemma ReplyPaces(s: Session, r: Reply, b: Beat, now: nat)
    requires Inv(s) && s.link == Connected
    ensures Safe(s) && var s' := OnReply(s, r, now);
      if s.state == Streaming then SameRoute(s, s') && (Carries(s, b) ==> SameBeat(s, s', b))
      else JustStarted(s', b, now)
  {
    hide Watch, Log, CountersFresh, OnPairingResponse, HandleResponse, SameBeat, Count, JustStarted;
    var q := s.fifo;
    InvIsSafe(s);
    SameAsItself(s, b);
    StillStarting(s, b, now);
    if q.methods != [] {
      var s1 := Pop(s);
      if s.state == Streaming {
        StreamPop(s);
        PopCounts(s, b);
        assert SameRoute(s, s1);
        StreamReplyCounts(s1, q.methods[0], r, b, now);
        if Carries(s, b) {
          SameTwice(s, s1, OnReply(s, r, now), b);
        }
      } else if q.isHttp[0] {
        PopKeepsRank(s);
        if s.state == Pairing {
          PairingStays(s1, r, now);
          StillStarting(OnReply(s, r, now), b, now);
        } else {
          Ap2Starts(s1, r, b, now);
        }
      } else {
        assert PoppedSetup(s1, q.methods[0]);
        SetupStarts(s1, q.methods[0], r, b, now);
      }
    }
  }

  lemma SameAsItself(s: Session, b: Beat)
    ensures SameBeat(s, s, b)
  {
  }

  lemma SameTwice(s: Session, t: Session, u: Session, b: Beat)
    requires SameBeat(s, t, b) && SameBeat(t, u, b)
    ensures SameBeat(s, u, b)
  {
  }

  // One timer's part in a tick: the beat is heard once and its timer set anew, or nothing happens to it.
  predicate Beaten(s: Session, r: Session, b: Beat, fires: bool, now: nat)
  {
    && r.cfg == s.cfg && r.state == s.state && r.rtsp == s.rtsp && r.timers.feedbackMs == s.timers.feedbackMs
    && TimerOf(r.timers, b) == (if fires then Due(now + Period(b)) else TimerOf(s.timers, b))
    && Count(r.trace, b) == Count(s.trace, b) + if fires then 1 else 0
  }

  lemma KeepAliveSent(s: Session, b: Beat)
    requires s.state == Streaming && s.cfg.airplay2
    ensures var r := Enqueue(s, FEEDBACK, false);
      r.cfg == s.cfg && r.state == s.state && r.rtsp == s.rtsp && r.timers == s.timers
      && Count(r.trace, b) == Count(s.trace, b) + if b == KeepAliveBeat then 1 else 0
  {
    hide Watch, Log, WriteRtsp;
    var s1 := s.(fifo := Push(s.fifo, FEEDBACK, false));
    EnqueueShape(s, FEEDBACK, false);
    LogCounts(s1, Sent(FEEDBACK, false), b);
    WriteCounts(Log(s1, Sent(FEEDBACK, false)), b);
  }

  lemma FeedbackPaces(s: Session, b: Beat, now: nat)
    requires Inv(s) && Carries(s, b)
    ensures Beaten(s, TickFeedback(s, now), b, b == KeepAliveBeat && Fires(s.timers.feedback, now), now)
  {
    hide Watch, Log, Enqueue, Sound, OneOutstanding, Count;
    var s1 := s.(timers := s.timers.(feedback := Due(now + s.timers.feedbackMs)));
    if Fires(s.timers.feedback, now) {
      if s.cfg.airplay2 {
        KeepAliveSent(s1, b);
      } else {
        EnqueueCounts(s1, POST, false, b);
      }
    }
  }

  lemma SyncPaces(s: Session, b: Beat, now: nat)
    requires s.state == Streaming && s.rtsp.serverPort != 0 && Carries(s, b)
    ensures Beaten(s, TickSync(s, now), b, b == SyncBeat && Fires(s.timers.sync, now), now)
  {
    hide Watch, Log, Count;
    LogCounts(s.(timers := s.timers.(sync := Due(now + SYNC_MS))), SyncSent, b);
  }

  lemma PacerPaces(s: Session, packets: nat, b: Beat, now: nat)
    requires s.state == Streaming && Carries(s, b)
    ensures Beaten(s, TickPacer(s, packets, now), b, b == AudioBeat && Fires(s.timers.pacer, now), now)
    ensures Fires(s.timers.pacer, now) ==> Shows(s, TickPacer(s, packets, now), AudioSent(packets))
  {
    hide Watch, Log, Count;
    hide SendAudio;
    var s1 := s.(timers := s.timers.(pacer := Due(now + PACER_MS)));
    AudioCounts(s1, packets, b);
  }

  lemma AudioCounts(s: Session, packets: nat, b: Beat)
    ensures var r := SendAudio(s, packets);
      && r.cfg == s.cfg && r.state == s.state && r.rtsp == s.rtsp && r.timers == s.timers
      && Count(r.trace, b) == Count(s.trace, b) + (if b == AudioBeat then 1 else 0)
      && Shows(s, r, AudioSent(packets))
  {
    hide Watch, Log, Count;
    if s.keys.ap2.Some? && s.keys.ap2.value.audioKey.Some? {
      var a := s.keys.ap2.value;
      var sealed := Sealed(Audio, a.audioKey.value, a.audioNonce, packets);
      LogCounts(s, sealed, b);
      LogCounts(Log(s, sealed), AudioSent(packets), b);
      NewlyLogged(s, sealed, |s.trace|);
      NewlyLogged(Log(s, sealed), AudioSent(packets), |s.trace|);
    } else {
      LogCounts(s, AudioSent(packets), b);
      NewlyLogged(s, AudioSent(packets), |s.trace|);
    }
  }

  lemma NewlyLogged(s: Session, o: Obs, n: nat)
    requires n <= |s.trace|
    ensures o in Log(s, o).trace[n..] && |Log(s, o).trace| == |s.trace| + 1
  {
    hide Watch;
    var t := Log(s, o).trace[n..];
    assert t[|t| - 1] == o;
  }

  lemma BeatenTwice(s: Session, t: Session, u: Session, b: Beat, x: bool, y: bool, now: nat)
    requires Beaten(s, t, b, x, now) && Beaten(t, u, b, y, now) && !(x && y)
    ensures Beaten(s, u, b, x || y, now)
  {
  }

  // A tick lets the beats that are due be heard, each once, and nothing ends the stream.
  lemma TickPaces(s: Session, packets: nat, b: Beat, now: nat)
    requires Inv(s) && Carries(s, b)
    ensures Beaten(s, Tick(s, packets, now), b, Fires(TimerOf(s.timers, b), now), now)
    ensures Fires(s.timers.pacer, now) ==> Shows(s, Tick(s, packets, now), AudioSent(packets))
  {
    hide TickFeedback, TickSync, TickPacer, Beaten, Inv, Count, Carries, Tick, Shows;
    CarriedIsStreaming(s, b);
    assert Carries(s, AudioBeat) by { StreamsCarryAudio(s); }
    NoWatchdog(s, packets, now);
    var s2 := TickSync(TickFeedback(s, now), now);
    var x := b != AudioBeat && Fires(TimerOf(s.timers, b), now);
    SignalsPace(s, b, now);
    BeatenKeeps(s, s2, b, x, now);
    PacerPaces(s2, packets, b, now);
    BeatenTwice(s, s2, TickPacer(s2, packets, now), b, x, b == AudioBeat && Fires(s2.timers.pacer, now), now);
    if Fires(s.timers.pacer, now) {
      ShowsEarlier(s, s2, Tick(s, packets, now), AudioSent(packets));
    }
  }

  // Keep-alive and sync, the parts of a tick before the audio.
  lemma SignalsPace(s: Session, b: Beat, now: nat)
    requires Inv(s) && Carries(s, b)
    ensures var s2 := TickSync(TickFeedback(s, now), now);
      && Beaten(s, s2, b, b != AudioBeat && Fires(TimerOf(s.timers, b), now), now)
      && s2.timers.pacer == s.timers.pacer && |s2.trace| >= |s.trace|
  {
    hide TickFeedback, TickSync, Beaten, Inv, Count, Carries;
    CarriedIsStreaming(s, b);
    var s1 := TickFeedback(s, now);
    var x, y := b == KeepAliveBeat && Fires(s.timers.feedback, now), b == SyncBeat && Fires(s1.timers.sync, now);
    FeedbackPaces(s, b, now);
    FeedbackTouches(s, now);
    BeatenKeeps(s, s1, b, x, now);
    SyncPaces(s1, b, now);
    SyncTouches(s1, now);
    BeatenTwice(s, s1, TickSync(s1, now), b, x, y, now);
  }

  lemma StreamsCarryAudio(s: Session)
    requires s.state == Streaming
    ensures Carries(s, AudioBeat)
  {
  }

  lemma CarriedIsStreaming(s: Session, b: Beat)
    requires Inv(s) && Carries(s, b)
    ensures s.state == Streaming && s.rtsp.serverPort != 0
  {
    hide Watch, CountersFresh;
  }

  lemma NoWatchdog(s: Session, packets: nat, now: nat)
    requires Inv(s) && Carries(s, AudioBeat)
    ensures Tick(s, packets, now) == TickPacer(TickSync(TickFeedback(s, now), now), packets, now)
  {
    hide Watch, CountersFresh, TickFeedback, TickSync, TickPacer;
  }

  lemma BeatenKeeps(s: Session, r: Session, b: Beat, fires: bool, now: nat)
    requires Beaten(s, r, b, fires, now)
    ensures r.cfg == s.cfg && r.state == s.state && r.rtsp == s.rtsp && (Carries(s, b) ==> Carries(r, b))
  {
  }

  lemma FeedbackTouches(s: Session, now: nat)
    requires s.state == Streaming
    ensures TickFeedback(s, now).timers.sync == s.timers.sync && TickFeedback(s, now).timers.pacer == s.timers.pacer
    ensures |TickFeedback(s, now).trace| >= |s.trace|
  {
    hide Watch, Log, Enqueue;
    var s1 := s.(timers := s.timers.(feedback := Due(now + s.timers.feedbackMs)));
    EnqueueShape(s1, FEEDBACK, false);
    EnqueueShape(s1, POST, false);
    EnqueueGrows(s1, FEEDBACK);
    EnqueueGrows(s1, POST);
  }

  lemma EnqueueGrows(s: Session, m: Method)
    ensures |Enqueue(s, m, false).trace| > |s.trace| && Shows(s, Enqueue(s, m, false), Sent(m, false))
  {
    hide Watch;
    assert Enqueue(s, m, false).trace[|s.trace|] == Sent(m, false);
  }

  lemma SyncTouches(s: Session, now: nat)
    ensures TickSync(s, now).timers.pacer == s.timers.pacer && |TickSync(s, now).trace| >= |s.trace|
  {
    hide Watch;
  }

  // ---- One step ----

  // A new stream, or a beat heard in the old one.
  predicate Beats(s: Session, r: Session, b: Beat)
  {
    r.state == Streaming && (s.state != Streaming || Count(r.trace, b) > Count(s.trace, b))
  }

  /** Every step of a stream: a beat's timer is set exactly when the stream starts or the beat is heard, for one period
      later; and it is heard exactly in a tick at or after that time, once. */
  lemma StepPaces(s: Session, i: Input, now: nat, b: Beat)
    requires Inv(s) && Allowed(s, i)
    ensures Enabled(s, i)
    ensures var r := Step(s, i, now);
      Carries(r, b) ==>
        && (Beats(s, r, b) || Carries(s, b))
        && TimerOf(r.timers, b) == if Beats(s, r, b) then Due(now + Period(b)) else TimerOf(s.timers, b)
    ensures var r := Step(s, i, now);
      Carries(s, b) && r.state == Streaming ==>
        && Carries(r, b)
        && Count(r.trace, b) == Count(s.trace, b) + if i.TickCall? && Fires(TimerOf(s.timers, b), now) then 1 else 0
  {
    hide Inv, SubmitPin, SetVolume, SetNowPlaying, OnConnected, OnReply, OnEventRequests, OnDatagrams, Tick, Count, Log;
    InvIsSafe(s);
    var r := Step(s, i, now);
    if i.TickCall? {
      if s.state != Streaming {
        NoTickStarts(s, i.packets, now);
      } else {
        TickCarries(s, i.packets, b, now);
      }
    } else if s.state != Streaming {
      StepStarts(s, i, b, now);
    } else {
      StreamStays(s, i, b, now);
    }
  }

  lemma NoTickStarts(s: Session, packets: nat, now: nat)
    requires Inv(s) && s.state != Streaming
    ensures Tick(s, packets, now).state != Streaming
  {
    hide Inv, TickTimeout, TickPin, TickFeedback, TickSync, TickPacer;
    WatchdogsStay(s, now);
    WatchdogsStay(TickTimeout(s, now), now);
    var s2 := TickPin(TickTimeout(s, now), now);
    BeatsStay(s2, packets, now);
    BeatsStay(TickFeedback(s2, now), packets, now);
    BeatsStay(TickSync(TickFeedback(s2, now), now), packets, now);
  }

  lemma WatchdogsStay(s: Session, now: nat)
    requires s.state != Streaming
    ensures TickTimeout(s, now).state != Streaming && TickPin(s, now).state != Streaming
  {
    hide Log, Watch;
  }

  lemma BeatsStay(s: Session, packets: nat, now: nat)
    requires s.state != Streaming
    ensures TickFeedback(s, now).state != Streaming && TickSync(s, now).state != Streaming
    ensures TickPacer(s, packets, now).state != Streaming
  {
    hide Log, Watch;
  }

  lemma TickCarries(s: Session, packets: nat, b: Beat, now: nat)
    requires Inv(s) && s.state == Streaming
    ensures SameRoute(s, Tick(s, packets, now))
    ensures Carries(s, b) ==> Beaten(s, Tick(s, packets, now), b, Fires(TimerOf(s.timers, b), now), now)
  {
    hide Inv, Tick, Count;
    TickPaces(s, packets, AudioBeat, now);
    if Carries(s, b) {
      TickPaces(s, packets, b, now);
    }
  }

  lemma ConnectedStays(s: Session, now: nat)
    requires s.state != Streaming
    ensures OnConnected(s, now).state != Streaming
  {
    hide Watch, Log, Enqueue, Fail, HttpPost, SendRequest;
    var p := s.(link := Connected, state := Pairing);
    NotStreamingYet(p, POST, true, now);
    NotStreamingYet(p.(state := Handshake), OPTIONS, false, now);
    NotStreamingYet(p.(stage := AuthSetup), POST, true, now);
    NotStreamingYet(WithAp2(p, FRESH_AP2).(stage := SetupM2), POST, true, now);
    NotStreamingYet(WithAp2(p, FRESH_AP2.(accessoryKnown := true)).(stage := VerifyM2), POST, true, now);
    NotStreamingYet(WithAp2(p, FRESH_AP2).(stage := PinStart), POST, true, now);
  }

  lemma PinStays(s: Session, now: nat)
    requires Inv(s) && s.state != Streaming && s.state != Idle
    ensures Safe(s) && SubmitPin(s, now).state != Streaming
  {
    hide Watch, Log, CountersFresh, SendPairSetupM3;
    if s.waitingForPin {
      M3Stays(ArmTimeout(s.(waitingForPin := false, timers := s.timers.(pin := Off)), now), now);
    }
  }

  // Outside a stream only a reply starts one.
  lemma StepStarts(s: Session, i: Input, b: Beat, now: nat)
    requires Inv(s) && Allowed(s, i) && s.state != Streaming && !i.TickCall?
    ensures Enabled(s, i) && JustStarted(Step(s, i, now), b, now)
  {
    hide Inv, SubmitPin, OnConnected, OnReply, Fail, JustStarted, Start, Stop, OnClosed, SetVolume, SetNowPlaying,
      OnEventRequests, OnDatagrams, Tick;
    InvIsSafe(s);
    StillStarting(Step(s, i, now), b, now);
    FailIdles(s);
    ConnectedStays(s, now);
    CallsStay(s, i, now);
    if i.ReplyNote? {
      ReplyPaces(s, i.reply, b, now);
    } else if i.PinCall? {
      PinStays(s, now);
    }
  }

  lemma CallsStay(s: Session, i: Input, now: nat)
    requires s.state != Streaming
    ensures Stop(s, now).state == Idle && SetVolume(s, now).state == s.state
    ensures i.StartCall? ==> Start(s, i.udpOk, now).state != Streaming
    ensures i.NowPlayingCall? ==> SetNowPlaying(s, i.text, i.cover, i.changed, now).state == s.state
    ensures i.ClosedNote? ==> OnClosed(s, i.error).state == Idle
    ensures i.EventNote? ==> OnEventRequests(s, i.requests).state == s.state
    ensures i.DatagramNote? ==> OnDatagrams(s, i.answers).state == s.state
  {
    hide Log, Watch, Stop, Fail;
    StopIdles(s, now);
    FailIdles(s);
  }

  lemma StopIdles(s: Session, now: nat)
    ensures Stop(s, now).state == Idle
  {
    hide Watch, Log, Enqueue;
  }

  // In a stream nothing but a tick lets a beat be heard.
  lemma StreamStays(s: Session, i: Input, b: Beat, now: nat)
    requires Inv(s) && Allowed(s, i) && s.state == Streaming && !i.TickCall?
    ensures Enabled(s, i) && var r := Step(s, i, now);
      r.state == Streaming ==> SameRoute(s, r) && (Carries(s, b) ==> SameBeat(s, r, b))
  {
    hide Inv, OnReply, Fail, Log, Enqueue, Stop, SendMetadata, OnEventRequests, Count;
    InvIsSafe(s);
    StopIdles(s, now);
    NotStreamingYet(s, POST, true, now);
    match i
    case ReplyNote(r) => ReplyPaces(s, r, b, now);
    case VolumeCall => EnqueueCounts(s.(wishes := s.wishes.(volume := true)), SET_PARAMETER, false, b);
    case NowPlayingCall(text, cover, changed) =>
      MetadataCounts(s.(wishes := s.wishes.(text := text, cover := cover)), now, b);
    case EventNote(n) => EventCounts(s, n, b);
    case DatagramNote(n) => LogCounts(s, DatagramsSent(n), b);
    case PinCall => PinIsIgnored(s, now);
    case _ =>
  }

  lemma PinIsIgnored(s: Session, now: nat)
    requires Inv(s) && s.state == Streaming
    ensures Safe(s) && SubmitPin(s, now) == s
  {
    hide Watch, CountersFresh;
  }

  lemma EventCounts(s: Session, n: nat, b: Beat)
    ensures SameBeat(s, OnEventRequests(s, n), b)
  {
    hide Watch, Log;
    var k := s.keys;
    if k.ap2.Some? && k.ap2.value.eventKey.Some? {
      LogCounts(s, Sealed(Event, k.ap2.value.eventKey.value, k.eventSendCtr, n), b);
    }
  }

  // ---- Whole runs ----

  // When the beat's timer was last set in a run: t, or the last step that started a stream or let the beat be heard.
  function LastBeat(s: Session, run: seq<Timed>, b: Beat, t: nat): nat
    requires HostRun(s, run)
    decreases |run|
  {
    if run == [] then t
    else
      var r := Step(s, run[0].input, run[0].at);
      LastBeat(r, run[1..], b, if Beats(s, r, b) then run[0].at else t)
  }

  lemma {:induction false} RunPaces(s: Session, run: seq<Timed>, b: Beat, t: nat)
    requires Inv(s) && HostRun(s, run) && (Carries(s, b) ==> TimerOf(s.timers, b) == Due(t + Period(b)))
    ensures var u := After(s, run);
      Inv(u) && (Carries(u, b) ==> TimerOf(u.timers, b) == Due(LastBeat(s, run, b, t) + Period(b)))
    decreases |run|
  {
    hide Inv, Step, Allowed, Count, TimerOf;
    if run != [] {
      var i, at := run[0].input, run[0].at;
      StepKeeps(s, i, at);
      StepPaces(s, i, at, b);
      RunPaces(Step(s, i, at), run[1..], b, if Beats(s, Step(s, i, at), b) then at else t);
    }
  }

  lemma InitialPaces(cfg: Config, auth: Auth, b: Beat)
    requires Configured(Initial(cfg, auth))
    ensures Inv(Initial(cfg, auth)) && !Carries(Initial(cfg, auth), b)
  {
    hide Inv;
    InitialInv(cfg, auth);
  }

  /** A stream keeps time, in any run: a tick lets the audio be heard exactly from 8 ms after the stream started or the
      audio was last heard, the sync packet exactly from one second (when the receiver has told a control port, as it
      always has in AirPlay 2), the AirPlay 2 keep-alive exactly from two seconds; each once, and the audio is the
      packets the clock asks for. */
  lemma StreamKeepsTime(cfg: Config, auth: Auth, run: seq<Timed>, packets: nat, now: nat, b: Beat)
    requires Configured(Initial(cfg, auth)) && HostRun(Initial(cfg, auth), run)
    requires Carries(After(Initial(cfg, auth), run), b)
    ensures TickLetsHear(After(Initial(cfg, auth), run), packets, now, b,
                         LastBeat(Initial(cfg, auth), run, b, 0) + Period(b))
  {
    hide Inv, Initial, HostRun, LastBeat, Configured, After, TickLetsHear, Carries, Period;
    InitialPaces(cfg, auth, b);
    RunPaces(Initial(cfg, auth), run, b, 0);
    DueTick(After(Initial(cfg, auth), run), packets, now, b, LastBeat(Initial(cfg, auth), run, b, 0) + Period(b));
  }

  // A tick now: the stream goes on, and the beat is heard once if it is due, else not at all.
  ghost predicate TickLetsHear(s: Session, packets: nat, now: nat, b: Beat, due: nat)
  {
    && Enabled(s, TickCall(packets))
    && var r := Step(s, TickCall(packets), now);
       && r.state == Streaming && Count(r.trace, b) == Count(s.trace, b) + (if now >= due then 1 else 0)
       && (b == AudioBeat && now >= due ==> Shows(s, r, AudioSent(packets)))
  }

  lemma DueTick(s: Session, packets: nat, now: nat, b: Beat, due: nat)
    requires Inv(s) && Carries(s, b) && TimerOf(s.timers, b) == Due(due)
    ensures TickLetsHear(s, packets, now, b, due)
  {
    hide Inv, Tick, Count;
    InvIsSafe(s);
    TickPaces(s, packets, b, now);
  }

  /** In AirPlay 2 every stream carries all three beats. */
  lemma Ap2CarriesAll(s: Session, b: Beat)
    requires Inv(s) && s.state == Streaming && s.cfg.airplay2
    ensures Carries(s, b)
  {
    hide Watch, CountersFresh;
  }

  /** stop() tells the receiver exactly when the connection is up and there is something to tear down, and of a stream
      always. */
  lemma StopTearsDown(s: Session, now: nat)
    requires Inv(s) && s.state != Idle
    ensures Shows(s, Stop(s, now), Sent(TEARDOWN, false)) <==> s.link == Connected && (s.rtsp.session || s.cfg.airplay2)
    ensures s.state == Streaming ==> Shows(s, Stop(s, now), Sent(TEARDOWN, false))
  {
    hide Watch, Log, Enqueue, CountersFresh;
    EnqueueGrows(s.(timers := StopTimers(s.timers)), TEARDOWN);
  }
}
