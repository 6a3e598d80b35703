/** The session as the object it is: every method does in place what SessionSpec says of one step. */
module Sender {
  import opened Wire
  import opened SessionSpec
  import opened SessionProof
  import opened SessionRuns
  import opened SessionDeadline

  class RaopSender {
    const cfg: Config
    var auth: Auth
    var state: State
    var stage: Stage
    var link: Link
    var waitingForPin: bool
    var triedTransient: bool
    var exchange: Exchange
    var rtsp: Rtsp
    var fifo: Fifo
    var keys: Keys
    var timers: Timers
    var wishes: Wishes
    ghost var trace: seq<Obs>

    ghost function Model(): Session
      reads this
    {
      Session(cfg, auth, state, stage, link, waitingForPin, triedTransient, exchange, rtsp, fifo, keys, timers,
              wishes, trace)
    }

    ghost method Note(o: Obs)
      modifies this`trace
      ensures Model() == Log(old(Model()), o)
    {
      hide Watch;
      trace := trace + [o];
    }

    // ---- Requests ----

    method WriteRtsp()
      modifies this`keys, this`trace
      ensures Model() == SessionSpec.WriteRtsp(old(Model()))
    {
      hide Watch, Log;
      if !keys.controlEncrypted || keys.ap2.None? || keys.ap2.value.controlKey.None? { return; }
      var n := FramesOf(cfg, fifo.sentEver);
      Note(Sealed(Control, keys.ap2.value.controlKey.value, keys.ctrlSendCtr, n));
      keys := keys.(ctrlSendCtr := keys.ctrlSendCtr + n);
    }

    method Enqueue(m: Method, http: bool)
      modifies this`fifo, this`keys, this`trace
      ensures Model() == SessionSpec.Enqueue(old(Model()), m, http)
    {
      hide Watch, Log, SessionSpec.WriteRtsp;
      fifo := Push(fifo, m, http);
      Note(Sent(m, http));
      WriteRtsp();
    }

    method ArmTimeout(now: nat)
      modifies this`timers
      ensures Model() == SessionSpec.ArmTimeout(old(Model()), now)
    {
      timers := timers.(timeout := Due(now + HANDSHAKE_MS));
    }

    method SendRequest(m: Method, now: nat)
      modifies this`fifo, this`keys, this`timers, this`trace
      ensures Model() == SessionSpec.SendRequest(old(Model()), m, now)
    {
      hide Watch, Log, SessionSpec.Enqueue, SessionSpec.ArmTimeout;
      Enqueue(m, false);
      if state == Handshake || state == Pairing { ArmTimeout(now); }
    }

    method HttpPost(now: nat)
      modifies this`fifo, this`keys, this`timers, this`trace
      ensures Model() == SessionSpec.HttpPost(old(Model()), now)
    {
      hide Watch, Log, SessionSpec.Enqueue, SessionSpec.ArmTimeout;
      Enqueue(POST, true);
      if !waitingForPin { ArmTimeout(now); }
    }

    method SendAp2Rtsp(m: Method, now: nat)
      modifies this`fifo, this`keys, this`timers, this`trace
      ensures Model() == SessionSpec.SendAp2Rtsp(old(Model()), m, now)
    {
      hide Watch, Log, SessionSpec.Enqueue, SessionSpec.ArmTimeout;
      Enqueue(m, true);
      ArmTimeout(now);
    }

    // ---- Lifecycle ----

    method Fail()
      modifies this`state, this`link, this`timers, this`trace
      ensures Model() == SessionSpec.Fail(old(Model()))
    {
      hide Watch, Log;
      var wasStarting := state != Streaming;
      state := Idle;
      timers := StopTimers(timers);
      link := NotConnected;
      if wasStarting { Note(Launched(false)); }
      Note(Closed);
    }

    method Stop(now: nat)
      modifies this
      ensures Model() == SessionSpec.Stop(old(Model()), now)
    {
      hide Watch, Log, SessionSpec.SendRequest;
      if state == Idle { return; }
      timers := StopTimers(timers);
      if link == Connected && (rtsp.session || cfg.airplay2) { SendRequest(TEARDOWN, now); }
      state := Idle;
      link := NotConnected;
    }

    // Nothing of the last session is carried into the next.
    method Reset()
      modifies this
      ensures Model() == old(Model()).(
        stage := Unstarted, waitingForPin := false, triedTransient := false,
        exchange := Exchange(old(exchange.serverB), false), rtsp := Rtsp(false, 0, 0, false, false),
        fifo := Fifo([], [], old(fifo.sentEver)),
        keys := Keys(None, false, 0, 0, old(keys.agreements)), wishes := old(wishes).(volume := false))
    {
      keys := Keys(None, false, 0, 0, keys.agreements);
      fifo := Fifo([], [], fifo.sentEver);
      rtsp := Rtsp(false, 0, 0, false, false);
      wishes := wishes.(volume := false);
      stage, waitingForPin, triedTransient := Unstarted, false, false;
      exchange := exchange.(aborted := false);
    }

    method Start(udpOk: bool, now: nat)
      modifies this
      ensures Model() == SessionSpec.Start(old(Model()), udpOk, now)
    {
      hide Watch, Log, SessionSpec.Stop;
      Stop(now);
      Reset();
      Note(Started);
      if !udpOk {
        Note(Launched(false));
        return;
      }
      state, link := Connecting, Opening;
      ArmTimeout(now);
    }

    // ---- Pairing ----

    method WithAp2(a: Ap2)
      modifies this`keys
      ensures Model() == SessionSpec.WithAp2(old(Model()), a)
    {
      keys := keys.(ap2 := Some(a));
    }

    method Agree(withEvents: bool)
      requires keys.ap2.Some?
      modifies this`keys
      ensures Model() == SessionSpec.Agree(old(Model()), withEvents)
    {
      var k := Some(keys.agreements);
      var a := keys.ap2.value;
      a := a.(secret := k, controlKey := k);
      if withEvents { a := a.(eventKey := k); }
      keys := keys.(ap2 := Some(a), agreements := keys.agreements + 1);
    }

    // One pairing message: the stage it leaves the session in, and the POST.
    method SendAtStage(g: Stage, now: nat)
      modifies this`stage, this`fifo, this`keys, this`timers, this`trace
      ensures Model() == SessionSpec.HttpPost(old(Model()).(stage := g), now)
    {
      hide SessionSpec.HttpPost;
      stage := g;
      HttpPost(now);
    }

    method SendPairSetupM3(now: nat)
      requires keys.ap2.Some?
      modifies this
      ensures Model() == SessionSpec.SendPairSetupM3(old(Model()), now)
    {
      hide SessionSpec.HttpPost, SessionSpec.Fail;
      WithAp2(keys.ap2.value.(srp := true));
      if exchange.serverB == Zero {
        Fail();
        return;
      }
      if exchange.serverB == TooLong {
        exchange := exchange.(aborted := true);       // thrown
        return;
      }
      SendAtStage(SetupM4, now);
    }

    method BeginAuthChain(now: nat)
      modifies this
      ensures Model() == SessionSpec.BeginAuthChain(old(Model()), now)
    {
      hide SessionSpec.HttpPost, SessionSpec.Fail, SessionSpec.SendRequest;
      state := Pairing;
      match auth
      case Open | Password =>
        state := Handshake;
        SendRequest(OPTIONS, now);
      case MfiSetup => SendAtStage(AuthSetup, now);
      case LegacyPin => Fail();
      case HapTransient =>
        WithAp2(FRESH_AP2);
        SendAtStage(SetupM2, now);
      case HapPin =>
        WithAp2(FRESH_AP2);
        if cfg.storedCreds {
          WithAp2(keys.ap2.value.(accessoryKnown := true));
          SendAtStage(VerifyM2, now);
          return;
        }
        SendAtStage(PinStart, now);
    }

    method AfterAuthOk(now: nat)
      modifies this
      ensures Model() == SessionSpec.AfterAuthOk(old(Model()), now)
    {
      hide SessionSpec.SendAp2Rtsp, SessionSpec.SendRequest;
      rtsp := rtsp.(retried := false);
      if cfg.airplay2 {
        if keys.ap2.Some? && keys.ap2.value.controlKey.Some? {
          keys := keys.(controlEncrypted := true, ctrlSendCtr := 0);
        }
        state := Handshake;
        stage := Ap2Info;
        SendAp2Rtsp(GET, now);
      } else {
        state := Handshake;
        SendRequest(OPTIONS, now);
      }
    }

    method HandleM2(r: Reply, now: nat)
      requires keys.ap2.Some?
      modifies this
      ensures Model() == SessionSpec.HandleM2(old(Model()), r, now)
    {
      hide Watch, Log, SessionSpec.SendPairSetupM3, SessionSpec.Fail;
      if r.tlvError || !r.saltAndKey {
        Fail();
        return;
      }
      exchange := exchange.(serverB := r.serverKey);
      if auth == HapTransient {
        SendPairSetupM3(now);
      } else {
        waitingForPin := true;
        timers := timers.(timeout := Off);
        timers := timers.(pin := Due(now + PIN_MS));
        Note(PinRequired);
      }
    }

    method SubmitPin(now: nat)
      requires waitingForPin ==> keys.ap2.Some?
      modifies this
      ensures Model() == SessionSpec.SubmitPin(old(Model()), now)
    {
      hide SessionSpec.SendPairSetupM3;
      if !waitingForPin { return; }
      waitingForPin := false;
      timers := timers.(pin := Off);
      ArmTimeout(now);
      SendPairSetupM3(now);
    }

    method HandleM4(r: Reply, now: nat)
      requires keys.ap2.Some? && keys.ap2.value.srp
      modifies this
      ensures Model() == SessionSpec.HandleM4(old(Model()), r, now)
    {
      hide Watch, Log, SessionSpec.HttpPost, SessionSpec.Fail, SessionSpec.AfterAuthOk;
      if r.tlvError {
        Fail();
        return;
      }
      var ok := r.proof == Some(true);
      Note(Checked(SrpProof, ok));
      if !ok && cfg.strict {
        Fail();
        return;
      }
      if auth == HapTransient {
        Agree(false);
        stage := Done;
        AfterAuthOk(now);
        return;
      }
      SendAtStage(SetupM6, now);
    }

    method HandleM6(r: Reply, now: nat)
      requires keys.ap2.Some?
      modifies this
      ensures Model() == SessionSpec.HandleM6(old(Model()), r, now)
    {
      hide Watch, Log, SessionSpec.HttpPost, SessionSpec.Fail;
      if r.tlvError || !r.sealedKeys || !r.keysOpen || !r.keysComplete {
        Fail();
        return;
      }
      WithAp2(keys.ap2.value.(accessoryKnown := true));
      Note(CredentialsObtained);
      SendAtStage(VerifyM2, now);
    }

    method HandleVerifyM2(r: Reply, now: nat)
      requires keys.ap2.Some?
      modifies this
      ensures Model() == SessionSpec.HandleVerifyM2(old(Model()), r, now)
    {
      hide Watch, Log, SessionSpec.HttpPost, SessionSpec.Fail;
      if r.tlvError || !r.verifyComplete || !r.secretOk || !r.verifyOpens || !r.signed {
        Fail();
        return;
      }
      var verified := false;
      if keys.ap2.value.accessoryKnown { verified := r.signatureOk; }
      Note(Checked(VerifySignature, verified));
      if !verified && cfg.strict {
        Fail();
        return;
      }
      Agree(true);
      SendAtStage(VerifyDone, now);
    }

    // ---- AirPlay 2 SETUP ----

    method SendAp2AtStage(g: Stage, m: Method, now: nat)
      modifies this`stage, this`fifo, this`keys, this`timers, this`trace
      ensures Model() == SessionSpec.SendAp2Rtsp(old(Model()).(stage := g), m, now)
    {
      hide SessionSpec.SendAp2Rtsp;
      stage := g;
      SendAp2Rtsp(m, now);
    }

    method HandleAp2Session(r: Reply, now: nat)
      requires keys.ap2.Some?
      modifies this
      ensures Model() == SessionSpec.HandleAp2Session(old(Model()), r, now)
    {
      hide SessionSpec.SendAp2Rtsp;
      WithAp2(keys.ap2.value.(eventPort := r.eventPort));
      SendAp2AtStage(Ap2Record, RECORD, now);
    }

    method SendAp2SetupStream(now: nat)
      requires keys.ap2.Some?
      modifies this
      ensures Model() == SessionSpec.SendAp2SetupStream(old(Model()), now)
    {
      hide SessionSpec.SendAp2Rtsp;
      WithAp2(keys.ap2.value.(audioKey := keys.ap2.value.secret, audioNonce := 0));
      SendAp2AtStage(Ap2Stream, SETUP, now);
    }

    method HandleAp2Stream(r: Reply, now: nat)
      modifies this
      ensures Model() == SessionSpec.HandleAp2Stream(old(Model()), r, now)
    {
      hide SessionSpec.Fail, SessionSpec.StartStreaming;
      rtsp := rtsp.(serverPort := r.serverPort, controlPort := r.controlPort);
      if rtsp.controlPort == 0 { rtsp := rtsp.(controlPort := rtsp.serverPort); }
      if rtsp.serverPort == 0 {
        Fail();
        return;
      }
      StartStreaming(now);
    }

    // ---- Replies ----

    method OnPairingRefused(r: Reply, now: nat)
      modifies this
      ensures Model() == SessionSpec.OnPairingRefused(old(Model()), r, now)
    {
      hide SessionSpec.HttpPost, SessionSpec.Fail;
      if r.code == 470 && auth == HapTransient && stage == SetupM2 {
        auth := HapPin;
        WithAp2(FRESH_AP2);
        SendAtStage(PinStart, now);
        return;
      }
      if r.code == 403 && stage == PinStart && !triedTransient {
        triedTransient := true;
        auth := HapTransient;
        WithAp2(FRESH_AP2);
        SendAtStage(SetupM2, now);
        return;
      }
      Fail();
    }

    method OnPairingStep(r: Reply, now: nat)
      requires Safe(Model()) && state != Idle && state != Streaming && Success(r) && stage != Ap2Record
      requires !(auth == MfiSetup && keys.ap2.None? && stage == AuthSetup)
      modifies this
      ensures Model() == SessionSpec.OnPairingResponse(old(Model()), r, now)
    {
      hide SessionSpec.HttpPost, SessionSpec.SendAp2Rtsp, SessionSpec.AfterAuthOk, SessionSpec.HandleM2,
        SessionSpec.HandleM4, SessionSpec.HandleM6, SessionSpec.HandleVerifyM2, SessionSpec.HandleAp2Session,
        SessionSpec.HandleAp2Stream;
      match stage
      case PinStart => SendAtStage(SetupM2, now);
      case SetupM2 => HandleM2(r, now);
      case SetupM4 => HandleM4(r, now);
      case SetupM6 => HandleM6(r, now);
      case VerifyM2 => HandleVerifyM2(r, now);
      case VerifyDone =>
        stage := Done;
        AfterAuthOk(now);
      case Ap2Info => SendAp2AtStage(Ap2Session, SETUP, now);
      case Ap2Session => HandleAp2Session(r, now);
      case Ap2Stream => HandleAp2Stream(r, now);
      case _ =>
    }

    method OnPairingResponse(r: Reply, now: nat)
      requires Safe(Model())
      modifies this
      ensures Model() == SessionSpec.OnPairingResponse(old(Model()), r, now)
    {
      hide SessionSpec.AfterAuthOk, SessionSpec.SendAp2SetupStream, SessionSpec.OnPairingRefused, SessionSpec.HandleM2,
        SessionSpec.HandleM4, SessionSpec.HandleM6, SessionSpec.HandleVerifyM2, SessionSpec.HandleAp2Session,
        SessionSpec.HandleAp2Stream, SessionSpec.HttpPost, SessionSpec.SendAp2Rtsp;
      if state == Idle || state == Streaming { return; }
      if auth == MfiSetup && keys.ap2.None? && stage == AuthSetup {
        stage := Done;
        AfterAuthOk(now);
      } else if stage == Ap2Record {
        SendAp2SetupStream(now);
      } else if !Success(r) {
        OnPairingRefused(r, now);
      } else {
        OnPairingStep(r, now);
      }
    }

    method OnChallenge(m: Method, r: Reply, now: nat)
      requires r.code == 401 && m != SET_PARAMETER && m != FEEDBACK && m != TEARDOWN && m != POST
      modifies this
      ensures Model() == SessionSpec.HandleResponse(old(Model()), m, r, now)
    {
      hide SessionSpec.SendRequest, SessionSpec.Fail, SessionSpec.StartStreaming;
      if !cfg.password || rtsp.retried || !r.challenge {
        Fail();
        return;
      }
      rtsp := rtsp.(challenged := true, retried := true);
      if m == OPTIONS || m == ANNOUNCE || m == SETUP || m == RECORD {
        SendRequest(m, now);
      } else {
        Fail();
      }
    }

    method HandleResponse(m: Method, r: Reply, now: nat)
      modifies this
      ensures Model() == SessionSpec.HandleResponse(old(Model()), m, r, now)
    {
      hide SessionSpec.SendRequest, SessionSpec.Fail, SessionSpec.StartStreaming;
      if m == SET_PARAMETER || m == FEEDBACK || m == TEARDOWN { return; }
      if m == POST {
        if r.code != 200 {
          timers := timers.(feedback := Off);
        } else if timers.feedback.Off? {
          timers := timers.(feedback := Due(now + timers.feedbackMs));
        }
        return;
      }
      if r.code == 401 {
        OnChallenge(m, r, now);
        return;
      }
      if !Success(r) {
        if !(state == Streaming && m == RECORD) { Fail(); }
        return;
      }
      match m
      case OPTIONS => SendRequest(ANNOUNCE, now);
      case ANNOUNCE => SendRequest(SETUP, now);
      case SETUP =>
        rtsp := rtsp.(serverPort := r.serverPort, controlPort := r.controlPort, session := true);
        if rtsp.serverPort == 0 {
          Fail();
          return;
        }
        SendRequest(RECORD, now);
      case RECORD => if state != Streaming { StartStreaming(now); }
      case _ =>
    }

    // Takes the oldest unanswered request off the queue and hands it its reply.
    method OnReply(r: Reply, now: nat)
      requires Safe(Model())
      modifies this
      ensures Model() == SessionSpec.OnReply(old(Model()), r, now)
    {
      hide Watch, Log, SessionSpec.OnPairingResponse, SessionSpec.HandleResponse;
      if fifo.methods == [] { return; }
      var m, http := fifo.methods[0], false;
      var isHttp := fifo.isHttp;
      if isHttp != [] {
        http := isHttp[0];
        isHttp := isHttp[1..];
      }
      fifo := Fifo(fifo.methods[1..], isHttp, fifo.sentEver);
      Note(Answered(m, http));
      if http { OnPairingResponse(r, now); } else { HandleResponse(m, r, now); }
    }

    // ---- Streaming ----

    method SendSync()
      modifies this`trace
      ensures Model() == SessionSpec.SendSync(old(Model()))
    {
      hide Watch, Log;
      if rtsp.serverPort == 0 || rtsp.controlPort == 0 { return; }
      Note(SyncSent);
    }

    method SendMetadata(now: nat)
      modifies this`fifo, this`keys, this`timers, this`trace
      ensures Model() == SessionSpec.SendMetadata(old(Model()), now)
    {
      hide SessionSpec.SendRequest;
      if state != Streaming { return; }
      if wishes.text { SendRequest(SET_PARAMETER, now); }
      if wishes.cover { SendRequest(SET_PARAMETER, now); }
    }

    method StartStreaming(now: nat)
      modifies this
      ensures Model() == SessionSpec.StartStreaming(old(Model()), now)
    {
      hide SessionSpec.OpenStream, SessionSpec.LaunchStream;
      OpenStream(now);
      LaunchStream(now);
    }

    method OpenStream(now: nat)
      modifies this
      ensures Model() == SessionSpec.OpenStream(old(Model()), now)
    {
      hide Watch, Log, SessionSpec.SendSync;
      state := Streaming;
      timers := timers.(timeout := Off);
      Note(EnteredStreaming(rtsp.serverPort));
      SendSync();
      timers := timers.(sync := Due(now + SYNC_MS));
      if cfg.airplay2 && !wishes.volume { wishes := wishes.(volume := true); }
    }

    method LaunchStream(now: nat)
      modifies this
      ensures Model() == SessionSpec.LaunchStream(old(Model()), now)
    {
      hide Watch, Log, SessionSpec.SendRequest, SessionSpec.SendMetadata;
      if wishes.volume { SendRequest(SET_PARAMETER, now); }
      timers := timers.(pacer := Due(now + PACER_MS));
      if cfg.airplay2 {
        timers := timers.(feedbackMs := FEEDBACK_AP2_MS, feedback := Due(now + FEEDBACK_AP2_MS));
      } else {
        timers := timers.(feedbackMs := FEEDBACK_AP1_MS);
        SendRequest(POST, now);
      }
      SendMetadata(now);
      Note(Launched(true));
    }

    method SetVolume(now: nat)
      modifies this
      ensures Model() == SessionSpec.SetVolume(old(Model()), now)
    {
      hide SessionSpec.SendRequest;
      wishes := wishes.(volume := true);
      if state == Streaming { SendRequest(SET_PARAMETER, now); }
    }

    method SetNowPlaying(text: bool, cover: bool, changed: bool, now: nat)
      modifies this
      ensures Model() == SessionSpec.SetNowPlaying(old(Model()), text, cover, changed, now)
    {
      hide SessionSpec.SendMetadata;
      wishes := wishes.(text := text, cover := cover);
      if state == Streaming && changed { SendMetadata(now); }
    }

    // ---- The clock ----

    method OnHandshakeTimeout()
      modifies this
      ensures Model() == if !old(waitingForPin)
        && (old(state) == Connecting || old(state) == Pairing || old(state) == Handshake)
                         then SessionSpec.Fail(old(Model())) else old(Model())
    {
      hide SessionSpec.Fail;
      if waitingForPin { return; }
      if state == Connecting || state == Pairing || state == Handshake { Fail(); }
    }

    method OnFeedbackTimer(now: nat)
      modifies this
      ensures Model() == SessionSpec.OnFeedbackTimer(old(Model()), now)
    {
      hide SessionSpec.Enqueue, SessionSpec.SendRequest;
      if state != Streaming { return; }
      if cfg.airplay2 { Enqueue(FEEDBACK, false); } else { SendRequest(POST, now); }
    }

    method SendAudio(packets: nat)
      modifies this`keys, this`trace
      ensures Model() == SessionSpec.SendAudio(old(Model()), packets)
    {
      hide Watch, Log;
      if keys.ap2.Some? && keys.ap2.value.audioKey.Some? {
        var a := keys.ap2.value;
        Note(Sealed(Audio, a.audioKey.value, a.audioNonce, packets));
        Note(AudioSent(packets));
        WithAp2(a.(audioNonce := a.audioNonce + packets));
      } else {
        Note(AudioSent(packets));
      }
    }

    method TickTimers(now: nat)
      modifies this
      ensures Model() == SessionSpec.TickPin(SessionSpec.TickTimeout(old(Model()), now), now)
    {
      hide SessionSpec.Fail;
      if Fires(timers.timeout, now) {
        timers := timers.(timeout := Off);
        OnHandshakeTimeout();
      }
      if Fires(timers.pin, now) {
        timers := timers.(pin := Off);
        if waitingForPin {
          waitingForPin := false;
          Fail();
        }
      }
    }

    method TickStream(packets: nat, now: nat)
      modifies this
      ensures Model()
        == SessionSpec.TickPacer(SessionSpec.TickSync(SessionSpec.TickFeedback(old(Model()), now), now), packets, now)
    {
      hide SessionSpec.OnFeedbackTimer, SessionSpec.SendSync, SessionSpec.SendAudio;
      if Fires(timers.feedback, now) {
        timers := timers.(feedback := Due(now + timers.feedbackMs));
        OnFeedbackTimer(now);
      }
      if Fires(timers.sync, now) {
        timers := timers.(sync := Due(now + SYNC_MS));
        SendSync();
      }
      if Fires(timers.pacer, now) {
        timers := timers.(pacer := Due(now + PACER_MS));
        SendAudio(packets);
      }
    }

    method Tick(packets: nat, now: nat)
      modifies this
      ensures Model() == SessionSpec.Tick(old(Model()), packets, now)
    {
      hide SessionSpec.TickTimeout, SessionSpec.TickPin, SessionSpec.TickFeedback, SessionSpec.TickSync,
        SessionSpec.TickPacer;
      TickTimers(now);
      TickStream(packets, now);
    }

    // ---- Host notifications ----

    method OnConnected(now: nat)
      modifies this
      ensures Model() == SessionSpec.OnConnected(old(Model()), now)
    {
      hide SessionSpec.BeginAuthChain;
      if state != Connecting { return; }
      link := Connected;
      BeginAuthChain(now);
    }

    method OnConnectFailed()
      modifies this
      ensures Model() == SessionSpec.OnConnectFailed(old(Model()))
    {
      hide SessionSpec.Fail;
      if state != Idle { Fail(); }
    }

    method OnClosed(error: bool)
      modifies this
      ensures Model() == SessionSpec.OnClosed(old(Model()), error)
    {
      hide Watch, Log;
      link := NotConnected;
      if state == Idle { return; }
      if error {
        Fail();
        return;
      }
      var wasStarting := state != Streaming;
      state := Idle;
      timers := StopTimers(timers);
      if wasStarting { Note(Launched(false)); }
      Note(Closed);
    }

    method OnEventRequests(requests: nat)
      modifies this
      ensures Model() == SessionSpec.OnEventRequests(old(Model()), requests)
    {
      hide Watch, Log;
      if state == Idle || keys.ap2.None? || keys.ap2.value.eventKey.None? { return; }
      Note(Sealed(Event, keys.ap2.value.eventKey.value, keys.eventSendCtr, requests));
      keys := keys.(eventSendCtr := keys.eventSendCtr + requests);
    }

    method OnDatagrams(answers: nat)
      modifies this`trace
      ensures Model() == SessionSpec.OnDatagrams(old(Model()), answers)
    {
      hide Watch, Log;
      if state == Idle { return; }
      Note(DatagramsSent(answers));
    }

    method Dispatch(i: Input, now: nat)
      requires Safe(Model()) && Allowed(Model(), i) && (link == Connected ==> state != Idle)
      modifies this
      ensures Model() == Step(old(Model()), i, now)
    {
      hide SessionSpec.Start, SessionSpec.Stop, SessionSpec.SubmitPin, SessionSpec.SetVolume,
        SessionSpec.SetNowPlaying, SessionSpec.OnConnected, SessionSpec.OnConnectFailed, SessionSpec.OnReply,
        SessionSpec.Fail, SessionSpec.OnClosed, SessionSpec.OnEventRequests, SessionSpec.Tick, SessionSpec.OnDatagrams;
      match i
      case StartCall(udpOk) => Start(udpOk, now);
      case StopCall => Stop(now);
      case PinCall => SubmitPin(now);
      case VolumeCall => SetVolume(now);
      case NowPlayingCall(text, cover, changed) => SetNowPlaying(text, cover, changed, now);
      case ConnectedNote => OnConnected(now);
      case ConnectFailedNote => OnConnectFailed();
      case ReplyNote(r) => OnReply(r, now);
      case BadBytesNote => Fail();
      case ClosedNote(error) => OnClosed(error);
      case EventNote(n) => OnEventRequests(n);
      case DatagramNote(n) => OnDatagrams(n);
      case TickCall(n) => Tick(n, now);
    }

    // Every reachable session is valid.
    ghost predicate Valid()
      reads this
    {
      Inv(Model())
    }

    constructor (c: Config, a: Auth)
      requires c.airplay2 ==> IsHap(a)
      ensures Valid() && Model() == Initial(c, a)
    {
      cfg, auth, state, stage, link, waitingForPin, triedTransient := c, a, Idle, Unstarted, NotConnected, false, false;
      exchange, rtsp, fifo := Exchange(Zero, false), Rtsp(false, 0, 0, false, false), Fifo([], [], 0);
      keys, timers := Keys(None, false, 0, 0, 0), Timers(Off, Off, Off, Off, Off, FEEDBACK_AP1_MS);
      wishes, trace := Wishes(false, false, false), [];
      new;
      InitialInv(c, a);
    }

    /** Any allowed call on a valid session leaves a valid one: the events since start() stay lawful, no counter of a
        key is used twice, replies follow requests, one request is outstanding while pairing or in the handshake unless
        a PIN is awaited or an exception was thrown, a starting session is watched, and an idle one stays inert until
        start(). */
    method Handle(i: Input, now: nat)
      requires Valid() && Allowed(Model(), i)
      modifies this
      ensures Valid() && Model() == Step(old(Model()), i, now)
      ensures forall n :: 0 <= n <= |trace| ==> LawfulEvents(EventsSince(trace, n)) && StreamsSince(trace, n) <= 1
      ensures forall a, b :: 0 <= a < b < |trace| ==> !Overlap(trace[a], trace[b])
      ensures AnsweredSince(trace, |trace|) <= SentSince(trace, |trace|)
      ensures HandshakeRequests(trace, |trace|) <= RequestLimit(cfg)
      ensures state == Pairing || state == Handshake ==>
        |fifo.methods| == if waitingForPin || exchange.aborted then 0 else 1
      ensures exchange.aborted && !old(exchange.aborted) <==> Throws(old(Model()), i)
      ensures state == Connecting || state == Pairing || state == Handshake ==>
        (if waitingForPin then timers.pin.Due? else timers.timeout.Due?)
      ensures old(state) == Idle && !i.StartCall? ==> state == Idle && trace == old(trace)
    {
      hide Inv, Step, Safe;
      ghost var before := Model();
      InvIsSafe(Model());
      Facts(Model(), i, now);
      Dispatch(i, now);
    }
  }

  // What a caller learns from one step of a valid session.
  lemma Facts(s: Session, i: Input, now: nat)
    requires Inv(s) && Allowed(s, i)
    ensures Enabled(s, i)
    ensures var r := Step(s, i, now);
      && Inv(r) && Known(r) && Armed(r)
      && (r.exchange.aborted && !s.exchange.aborted <==> Throws(s, i))
      && (s.state == Idle && !i.StartCall? ==> r.state == Idle && r.trace == s.trace)
  {
    hide Inv, Step, Known, Armed;
    StepKeeps(s, i, now);
    InvIsKnown(Step(s, i, now));
    InvIsArmed(Step(s, i, now));
    ThrowOnce(s, i, now);
    if s.state == Idle && !i.StartCall? {
      IdleStays(s, i, now);
    }
  }

  lemma ThrowOnce(s: Session, i: Input, now: nat)
    requires Inv(s) && Allowed(s, i) && Enabled(s, i)
    ensures Step(s, i, now).exchange.aborted && !s.exchange.aborted <==> Throws(s, i)
  {
    hide Inv, Step;
    assert Step(s, i, now).exchange.aborted == (!i.StartCall? && (s.exchange.aborted || Throws(s, i)));
    if Throws(s, i) {
      ThrowsWhilePairing(s, i);
    }
  }

  ghost predicate Known(s: Session)
  {
    var t := s.trace;
    && (forall n :: 0 <= n <= |t| ==> LawfulEvents(EventsSince(t, n)) && StreamsSince(t, n) <= 1)
    && (forall a, b :: 0 <= a < b < |t| ==> !Overlap(t[a], t[b]))
    && AnsweredSince(t, |t|) <= SentSince(t, |t|) && HandshakeRequests(t, |t|) <= RequestLimit(s.cfg)
  }

  lemma InvIsKnown(s: Session)
    requires Inv(s)
    ensures Known(s)
  {
    InvSeen(s);
    hide Inv, WatchTo;
    var t := s.trace;
    PhaseIsEvents(t, |t|);
    StreamsAreLawful(t, |t|);
    UsageCoversTrace(t, |t|);
    AnswersFollowRequests(t, |t|);
    RequestsCounted(t, |t|);
  }

  lemma InvSeen(s: Session)
    requires Inv(s)
    ensures var w := WatchTo(s.trace, |s.trace|);
      w.now.phase != Broken && !w.keys.reused && w.now.requests <= RequestLimit(s.cfg)
  {
    hide WatchTo;
  }

  predicate Armed(s: Session)
  {
    && (s.state == Pairing || s.state == Handshake ==>
          |s.fifo.methods| == if s.waitingForPin || s.exchange.aborted then 0 else 1)
    && (Starting(s) ==> if s.waitingForPin then s.timers.pin.Due? else s.timers.timeout.Due?)
  }

  lemma InvIsArmed(s: Session)
    requires Inv(s)
    ensures Armed(s)
  {
    hide Watch, Sound;
  }
}
