/** One session of the sender, step by step: what each host call does to the session's state and which
    observable things it makes happen. The receiver's answers are arbitrary. */
module SessionSpec {
  import opened Wire

  datatype Auth = Open | Password | MfiSetup | LegacyPin | HapTransient | HapPin
  datatype State = Idle | Connecting | Pairing | Handshake | Streaming
  datatype Stage =
    | Unstarted | AuthSetup | PinStart | SetupM2 | SetupM4 | SetupM6 | VerifyM2 | VerifyDone
    | Ap2Info | Ap2Session | Ap2Record | Ap2Stream | Done
  datatype Method = OPTIONS | ANNOUNCE | SETUP | RECORD | GET | POST | SET_PARAMETER | FEEDBACK | TEARDOWN

  // The control connection as the host sees it.
  datatype Link = NotConnected | Opening | Connected

  datatype Channel = Control | Event | Audio
  datatype Check = SrpProof | VerifySignature

  // Everything a run lets an outside observer see, in order.
  datatype Obs =
    | Started
    | Launched(ok: bool)
    | Closed
    | PinRequired
    | CredentialsObtained
    | Sent(m: Method, http: bool)
    | Answered(m: Method, http: bool)                      // a reply was taken as the answer to this request
    | Sealed(channel: Channel, key: nat, first: nat, count: nat)   // `count` plaintexts under successive counters
    | Checked(check: Check, passed: bool)
    | EnteredStreaming(serverPort: nat)
    | SyncSent
    | AudioSent(packets: nat)
    | DatagramsSent(count: nat)                            // retransmits, or a timing answer

  const HANDSHAKE_MS: nat := 10_000
  const PIN_MS: nat := 180_000
  const PACER_MS: nat := 8
  const SYNC_MS: nat := 1_000
  const FEEDBACK_AP1_MS: nat := 25_000
  const FEEDBACK_AP2_MS: nat := 2_000

  // An armed deadline, or none.
  datatype Timer = Off | Due(at: nat)

  // How the receiver must be reached; fixed before start(). `frames[i]` is how many encrypted frames the i-th
  // request of the sender's life takes (1 past the end): header texts are not modelled, so it is arbitrary.
  datatype Config = Config(airplay2: bool, strict: bool, storedCreds: bool, password: bool,
                           frames: seq<nat>)

  // Pairing state. Keys are named by the number of the key agreement they come from.
  datatype Ap2 = Ap2(srp: bool, accessoryKnown: bool, secret: Option<nat>, controlKey: Option<nat>,
                     eventKey: Option<nat>, audioKey: Option<nat>, audioNonce: nat, eventPort: nat)

  // Keys and send counters; `agreements` numbers the key agreements completed so far.
  datatype Keys = Keys(ap2: Option<Ap2>, controlEncrypted: bool, ctrlSendCtr: nat, eventSendCtr: nat, agreements: nat)

  // Unanswered requests with their reply routing; `sentEver` counts requests over the sender's life.
  datatype Fifo = Fifo(methods: seq<Method>, isHttp: seq<bool>, sentEver: nat)

  datatype Timers = Timers(timeout: Timer, pin: Timer, feedback: Timer, sync: Timer, pacer: Timer, feedbackMs: nat)

  // What RTSP replies have told: a Session value, the receiver's ports, a digest challenge and its one retry.
  datatype Rtsp = Rtsp(session: bool, serverPort: nat, controlPort: nat, challenged: bool, retried: bool)

  // The receiver's B in pair-setup M2: a multiple of N; too long, for the big-number library or, not being one, to
  // pad to 384 bytes; or neither.
  datatype ServerKey = Zero | TooLong | Usable

  // The B of M2, and whether computing the proof for it has thrown since start().
  datatype Exchange = Exchange(serverB: ServerKey, aborted: bool)

  // What the application asked for before the stream was up.
  datatype Wishes = Wishes(volume: bool, text: bool, cover: bool)

  datatype Session = Session(
    cfg: Config, auth: Auth, state: State, stage: Stage, link: Link,
    waitingForPin: bool, triedTransient: bool,
    exchange: Exchange,
    rtsp: Rtsp, fifo: Fifo, keys: Keys, timers: Timers, wishes: Wishes,
    trace: seq<Obs>)

  // What a receiver's reply contains, as far as the sender looks at it.
  datatype Reply = Reply(
    code: int,
    tlvError: bool,
    saltAndKey: bool, serverKey: ServerKey,                     // pair-setup M2
    proof: Option<bool>,                                    // pair-setup M4: the proof, and whether it verifies
    sealedKeys: bool, keysOpen: bool, keysComplete: bool,   // pair-setup M6
    verifyComplete: bool, secretOk: bool, verifyOpens: bool, signed: bool, signatureOk: bool,   // pair-verify M2
    serverPort: nat, controlPort: nat, eventPort: nat,      // the SETUP replies
    challenge: bool)                                        // a 401's nonce could be parsed

  predicate Success(r: Reply) { 200 <= r.code < 300 }

  // ---- Small steps ----

  function Log(s: Session, o: Obs): (r: Session)
    ensures r == s.(trace := r.trace)
    ensures Watch(r.trace) == Advance(Watch(s.trace), o)
  {
    WatchPrefix(s.trace, [o], |s.trace|);
    s.(trace := s.trace + [o])
  }

  // The control connection stays as it is, or is given up.
  predicate LinkKept(s: Session, s': Session) { s'.link == s.link || s'.link == NotConnected }

  function ArmTimeout(s: Session, now: nat): (s': Session)
    ensures s'.cfg == s.cfg && s'.exchange == s.exchange && LinkKept(s, s')
  {
    s.(timers := s.timers.(timeout := Due(now + HANDSHAKE_MS)))
  }

  function StopTimers(t: Timers): Timers { Timers(Off, Off, Off, Off, Off, t.feedbackMs) }

  // Frames are sealed only once the control channel is keyed.
  function WriteRtsp(s: Session): (s': Session)
    ensures s'.cfg == s.cfg && s'.exchange == s.exchange && LinkKept(s, s')
  {
    var k := s.keys;
    if !k.controlEncrypted || k.ap2.None? || k.ap2.value.controlKey.None? then s
    else
      var n := FramesOf(s.cfg, s.fifo.sentEver);
      Log(s, Sealed(Control, k.ap2.value.controlKey.value, k.ctrlSendCtr, n))
        .(keys := k.(ctrlSendCtr := k.ctrlSendCtr + n))
  }

  function FramesOf(c: Config, request: nat): nat { if request < |c.frames| then c.frames[request] else 1 }

  function Push(q: Fifo, m: Method, http: bool): Fifo
  {
    Fifo(q.methods + [m], q.isHttp + [http], q.sentEver + 1)
  }

  function Enqueue(s: Session, m: Method, http: bool): (s': Session)
    ensures s'.cfg == s.cfg && s'.exchange == s.exchange && LinkKept(s, s')
  {
    WriteRtsp(Log(s.(fifo := Push(s.fifo, m, http)), Sent(m, http)))
  }

  function SendRequest(s: Session, m: Method, now: nat): (s': Session)
    ensures s'.cfg == s.cfg && s'.exchange == s.exchange && LinkKept(s, s')
  {
    var s1 := Enqueue(s, m, false);
    if s.state == Handshake || s.state == Pairing then ArmTimeout(s1, now) else s1
  }

  function HttpPost(s: Session, now: nat): (s': Session)
    ensures s'.cfg == s.cfg && s'.exchange == s.exchange && LinkKept(s, s')
  {
    var s1 := Enqueue(s, POST, true);
    if s.waitingForPin then s1 else ArmTimeout(s1, now)
  }

  function SendAp2Rtsp(s: Session, m: Method, now: nat): (s': Session)
    ensures s'.cfg == s.cfg && s'.exchange == s.exchange && LinkKept(s, s')
  {
    ArmTimeout(Enqueue(s, m, true), now)
  }

  function Fail(s: Session): (s': Session)
    ensures s'.cfg == s.cfg && s'.exchange == s.exchange && LinkKept(s, s')
  {
    var s1 := s.(state := Idle, link := NotConnected, timers := StopTimers(s.timers));
    Log(if s.state != Streaming then Log(s1, Launched(false)) else s1, Closed)
  }

  // ---- Lifecycle ----

  function Stop(s: Session, now: nat): (s': Session)
    ensures s'.cfg == s.cfg && s'.exchange == s.exchange && LinkKept(s, s')
  {
    if s.state == Idle then s
    else
      var s1 := s.(timers := StopTimers(s.timers));
      var s2 := if s.link == Connected && (s.rtsp.session || s.cfg.airplay2) then SendRequest(s1, TEARDOWN, now)
        else s1;
      s2.(state := Idle, link := NotConnected)
  }

  function Start(s: Session, udpOk: bool, now: nat): (s': Session)
    ensures s'.cfg == s.cfg && !s'.exchange.aborted
    ensures s'.link == if udpOk then Opening else if s.state == Idle then s.link else NotConnected
  {
    var s0 := Stop(s, now);
    var s1 := s0.(
      stage := Unstarted, waitingForPin := false, triedTransient := false,
      exchange := Exchange(s0.exchange.serverB, false),
      rtsp := Rtsp(false, 0, 0, false, false), fifo := Fifo([], [], s0.fifo.sentEver),
      keys := Keys(None, false, 0, 0, s0.keys.agreements), wishes := s0.wishes.(volume := false));
    var s2 := Log(s1, Started);
    if !udpOk then Log(s2, Launched(false))
    else ArmTimeout(s2.(state := Connecting, link := Opening), now)
  }

  // ---- Pairing ----

  const FRESH_AP2: Ap2 := Ap2(false, false, None, None, None, None, 0, 0)

  function WithAp2(s: Session, a: Ap2): (s': Session)
    ensures s'.cfg == s.cfg && s'.exchange == s.exchange && LinkKept(s, s')
  {
    s.(keys := s.keys.(ap2 := Some(a)))
  }

  // A completed key agreement: the secret, and the keys derived from it.
  function Agree(s: Session, withEvents: bool): (s': Session)
    ensures s'.cfg == s.cfg && s'.exchange == s.exchange && LinkKept(s, s')
    requires s.keys.ap2.Some?
  {
    var k := Some(s.keys.agreements);
    var a := s.keys.ap2.value;
    var a1 := a.(secret := k, controlKey := k, eventKey := if withEvents then k else a.eventKey);
    s.(keys := s.keys.(ap2 := Some(a1), agreements := s.keys.agreements + 1))
  }

  function SendPairPinStart(s: Session, now: nat): (s': Session)
    ensures s'.cfg == s.cfg && s'.exchange == s.exchange && LinkKept(s, s')
  {
    HttpPost(s.(stage := PinStart), now)
  }

  function SendPairSetupM1(s: Session, now: nat): (s': Session)
    ensures s'.cfg == s.cfg && s'.exchange == s.exchange && LinkKept(s, s')
  {
    HttpPost(s.(stage := SetupM2), now)
  }

  function SendPairVerifyM1(s: Session, now: nat): (s': Session)
    ensures s'.cfg == s.cfg && s'.exchange == s.exchange && LinkKept(s, s')
  {
    HttpPost(s.(stage := VerifyM2), now)
  }

  // A B that is too long makes the computation throw: the call is left with M3 not sent and the stage unchanged.
  function SendPairSetupM3(s: Session, now: nat): (s': Session)
    ensures s'.cfg == s.cfg && LinkKept(s, s')
    ensures s'.exchange == s.exchange.(aborted := s.exchange.aborted || s.exchange.serverB == TooLong)
    requires s.keys.ap2.Some?
  {
    var s1 := WithAp2(s, s.keys.ap2.value.(srp := true));
    match s.exchange.serverB
    case Zero => Fail(s1)
    case TooLong => s1.(exchange := s.exchange.(aborted := true))
    case Usable => HttpPost(s1.(stage := SetupM4), now)
  }

  function BeginAuthChain(s: Session, now: nat): (s': Session)
    ensures s'.cfg == s.cfg && s'.exchange == s.exchange && LinkKept(s, s')
  {
    var p := s.(state := Pairing);
    match s.auth
    case Open => SendRequest(p.(state := Handshake), OPTIONS, now)
    case Password => SendRequest(p.(state := Handshake), OPTIONS, now)
    case MfiSetup => HttpPost(p.(stage := AuthSetup), now)
    case LegacyPin => Fail(p)
    case HapTransient => SendPairSetupM1(WithAp2(p, FRESH_AP2), now)
    case HapPin =>
      if s.cfg.storedCreds then SendPairVerifyM1(WithAp2(p, FRESH_AP2.(accessoryKnown := true)), now)
      else SendPairPinStart(WithAp2(p, FRESH_AP2), now)
  }

  function AfterAuthOk(s: Session, now: nat): (s': Session)
    ensures s'.cfg == s.cfg && s'.exchange == s.exchange && LinkKept(s, s')
  {
    var s1 := s.(rtsp := s.rtsp.(retried := false), state := Handshake);
    if s.cfg.airplay2 then
      var keyed := s.keys.ap2.Some? && s.keys.ap2.value.controlKey.Some?;
      var s2 := if keyed then s1.(keys := s.keys.(controlEncrypted := true, ctrlSendCtr := 0)) else s1;
      SendAp2Rtsp(s2.(stage := Ap2Info), GET, now)
    else SendRequest(s1, OPTIONS, now)
  }

  // Transient pairing goes on to M3 at once, with a B that is too long.
  predicate ThrowsAtM2(s: Session, r: Reply)
  {
    !r.tlvError && r.saltAndKey && s.auth == HapTransient && r.serverKey == TooLong
  }

  function HandleM2(s: Session, r: Reply, now: nat): (s': Session)
    ensures s'.cfg == s.cfg && LinkKept(s, s')
    ensures s'.exchange.aborted == (s.exchange.aborted || ThrowsAtM2(s, r))
    requires s.keys.ap2.Some?
  {
    if r.tlvError || !r.saltAndKey then Fail(s)
    else
      var s1 := s.(exchange := s.exchange.(serverB := r.serverKey));
      if s.auth == HapTransient then SendPairSetupM3(s1, now)
      else
        Log(s1.(waitingForPin := true, timers := s.timers.(timeout := Off, pin := Due(now + PIN_MS))), PinRequired)
  }

  function SubmitPin(s: Session, now: nat): (s': Session)
    ensures s'.cfg == s.cfg && LinkKept(s, s')
    ensures s'.exchange.aborted == (s.exchange.aborted || (s.waitingForPin && s.exchange.serverB == TooLong))
    requires s.waitingForPin ==> s.keys.ap2.Some?
  {
    if !s.waitingForPin then s
    else SendPairSetupM3(ArmTimeout(s.(waitingForPin := false, timers := s.timers.(pin := Off)), now), now)
  }

  function HandleM4(s: Session, r: Reply, now: nat): (s': Session)
    ensures s'.cfg == s.cfg && s'.exchange == s.exchange && LinkKept(s, s')
    requires s.keys.ap2.Some? && s.keys.ap2.value.srp
  {
    if r.tlvError then Fail(s)
    else
      var ok := r.proof == Some(true);
      var s1 := Log(s, Checked(SrpProof, ok));
      if !ok && s.cfg.strict then Fail(s1)
      else if s.auth == HapTransient then AfterAuthOk(Agree(s1, false).(stage := Done), now)
      else HttpPost(s1.(stage := SetupM6), now)
  }

  function HandleM6(s: Session, r: Reply, now: nat): (s': Session)
    ensures s'.cfg == s.cfg && s'.exchange == s.exchange && LinkKept(s, s')
    requires s.keys.ap2.Some?
  {
    if r.tlvError || !r.sealedKeys || !r.keysOpen || !r.keysComplete then Fail(s)
    else SendPairVerifyM1(Log(WithAp2(s, s.keys.ap2.value.(accessoryKnown := true)), CredentialsObtained), now)
  }

  function HandleVerifyM2(s: Session, r: Reply, now: nat): (s': Session)
    ensures s'.cfg == s.cfg && s'.exchange == s.exchange && LinkKept(s, s')
    requires s.keys.ap2.Some?
  {
    if r.tlvError || !r.verifyComplete || !r.secretOk || !r.verifyOpens || !r.signed then Fail(s)
    else
      var ok := s.keys.ap2.value.accessoryKnown && r.signatureOk;
      var s1 := Log(s, Checked(VerifySignature, ok));
      if !ok && s.cfg.strict then Fail(s1)
      else HttpPost(Agree(s1, true).(stage := VerifyDone), now)
  }

  // ---- AirPlay 2 SETUP ----

  function SendAp2SetupSession(s: Session, now: nat): (s': Session)
    ensures s'.cfg == s.cfg && s'.exchange == s.exchange && LinkKept(s, s')
    requires s.keys.ap2.Some?
  {
    SendAp2Rtsp(s.(stage := Ap2Session), SETUP, now)
  }

  function HandleAp2Session(s: Session, r: Reply, now: nat): (s': Session)
    ensures s'.cfg == s.cfg && s'.exchange == s.exchange && LinkKept(s, s')
    requires s.keys.ap2.Some?
  {
    SendAp2Rtsp(WithAp2(s, s.keys.ap2.value.(eventPort := r.eventPort)).(stage := Ap2Record), RECORD, now)
  }

  function SendAp2SetupStream(s: Session, now: nat): (s': Session)
    ensures s'.cfg == s.cfg && s'.exchange == s.exchange && LinkKept(s, s')
    requires s.keys.ap2.Some?
  {
    var a := s.keys.ap2.value;
    SendAp2Rtsp(WithAp2(s, a.(audioKey := a.secret, audioNonce := 0)).(stage := Ap2Stream), SETUP, now)
  }

  function HandleAp2Stream(s: Session, r: Reply, now: nat): (s': Session)
    ensures s'.cfg == s.cfg && s'.exchange == s.exchange && LinkKept(s, s')
  {
    var s1 := s.(rtsp := s.rtsp.(serverPort := r.serverPort,
                                 controlPort := if r.controlPort == 0 then r.serverPort else r.controlPort));
    if r.serverPort == 0 then Fail(s1) else StartStreaming(s1, now)
  }

  // ---- Replies ----

  // Stages whose reply handler uses the pairing state without testing for it.
  predicate NeedsAp2(g: Stage)
  {
    g.SetupM2? || g.SetupM4? || g.SetupM6? || g.VerifyM2? || g.Ap2Info? || g.Ap2Session? || g.Ap2Record?
  }

  // What the handlers take for granted: the pairing state exists wherever it is used untested.
  predicate Safe(s: Session)
  {
    s.state != Idle ==>
      && (NeedsAp2(s.stage) || s.waitingForPin ==> s.keys.ap2.Some?)
      && (s.stage == SetupM4 ==> s.keys.ap2.value.srp)
  }

  // The reply to M1 that makes the sender compute a proof for a B that is too long.
  predicate ThrowsOnReply(s: Session, r: Reply)
  {
    s.state != Idle && s.state != Streaming && s.stage == SetupM2 && Success(r) && ThrowsAtM2(s, r)
  }

  function OnPairingResponse(s: Session, r: Reply, now: nat): (s': Session)
    ensures s'.cfg == s.cfg && LinkKept(s, s')
    ensures s'.exchange.aborted == (s.exchange.aborted || ThrowsOnReply(s, r))
    requires Safe(s)
  {
    if s.state == Idle || s.state == Streaming then s
    else if s.auth == MfiSetup && s.keys.ap2.None? && s.stage == AuthSetup then AfterAuthOk(s.(stage := Done), now)
    else if s.stage == Ap2Record then SendAp2SetupStream(s, now)
    else if !Success(r) then OnPairingRefused(s, r, now)
    else
      match s.stage
      case PinStart => SendPairSetupM1(s, now)
      case SetupM2 => HandleM2(s, r, now)
      case SetupM4 => HandleM4(s, r, now)
      case SetupM6 => HandleM6(s, r, now)
      case VerifyM2 => HandleVerifyM2(s, r, now)
      case VerifyDone => AfterAuthOk(s.(stage := Done), now)
      case Ap2Info => SendAp2SetupSession(s, now)
      case Ap2Session => HandleAp2Session(s, r, now)
      case Ap2Stream => HandleAp2Stream(s, r, now)
      case _ => s
  }

  // The two fallbacks: 470 from transient pairing to the on-screen PIN, one 403 from there back to transient.
  function OnPairingRefused(s: Session, r: Reply, now: nat): (s': Session)
    ensures s'.cfg == s.cfg && s'.exchange == s.exchange && LinkKept(s, s')
  {
    if r.code == 470 && s.auth == HapTransient && s.stage == SetupM2 then
      SendPairPinStart(WithAp2(s.(auth := HapPin), FRESH_AP2), now)
    else if r.code == 403 && s.stage == PinStart && !s.triedTransient then
      SendPairSetupM1(WithAp2(s.(triedTransient := true, auth := HapTransient), FRESH_AP2), now)
    else Fail(s)
  }

  function HandleResponse(s: Session, m: Method, r: Reply, now: nat): (s': Session)
    ensures s'.cfg == s.cfg && s'.exchange == s.exchange && LinkKept(s, s')
  {
    if m == SET_PARAMETER || m == FEEDBACK || m == TEARDOWN then s
    else if m == POST then
      if r.code != 200 then s.(timers := s.timers.(feedback := Off))
      else if s.timers.feedback.Off? then s.(timers := s.timers.(feedback := Due(now + s.timers.feedbackMs)))
      else s
    else if r.code == 401 then
      if !s.cfg.password || s.rtsp.retried || !r.challenge then Fail(s)
      else
        var s1 := s.(rtsp := s.rtsp.(challenged := true, retried := true));
        if m == OPTIONS || m == ANNOUNCE || m == SETUP || m == RECORD then SendRequest(s1, m, now) else Fail(s1)
    else if !Success(r) then (if s.state == Streaming && m == RECORD then s else Fail(s))
    else
      match m
      case OPTIONS => SendRequest(s, ANNOUNCE, now)
      case ANNOUNCE => SendRequest(s, SETUP, now)
      case SETUP =>
        var s1 := s.(rtsp := s.rtsp.(serverPort := r.serverPort, controlPort := r.controlPort, session := true));
        if r.serverPort == 0 then Fail(s1) else SendRequest(s1, RECORD, now)
      case RECORD => if s.state != Streaming then StartStreaming(s, now) else s
      case _ => s
  }

  // The oldest unanswered request expects a pairing reply.
  predicate HttpFirst(q: Fifo) { q.methods != [] && q.isHttp != [] && q.isHttp[0] }

  // One parsed reply off the control connection goes to the oldest unanswered request.
  function OnReply(s: Session, r: Reply, now: nat): (s': Session)
    ensures s'.cfg == s.cfg && LinkKept(s, s')
    ensures s'.exchange.aborted == (s.exchange.aborted || (HttpFirst(s.fifo) && ThrowsOnReply(s, r)))
    requires Safe(s)
  {
    var q := s.fifo;
    if q.methods == [] then s
    else
      var m, http := q.methods[0], HttpFirst(q);
      var s1 := Log(s.(fifo := Fifo(q.methods[1..], if q.isHttp == [] then [] else q.isHttp[1..], q.sentEver)),
                    Answered(m, http));
      if http then OnPairingResponse(s1, r, now) else HandleResponse(s1, m, r, now)
  }

  // ---- Streaming ----

  function SendSync(s: Session): (s': Session)
    ensures s'.cfg == s.cfg && s'.exchange == s.exchange && LinkKept(s, s')
  {
    if s.rtsp.serverPort == 0 || s.rtsp.controlPort == 0 then s else Log(s, SyncSent)
  }

  function SendMetadata(s: Session, now: nat): (s': Session)
    ensures s'.cfg == s.cfg && s'.exchange == s.exchange && LinkKept(s, s')
  {
    if s.state != Streaming then s
    else
      var s1 := if s.wishes.text then SendRequest(s, SET_PARAMETER, now) else s;
      if s.wishes.cover then SendRequest(s1, SET_PARAMETER, now) else s1
  }

  function StartStreaming(s: Session, now: nat): (s': Session)
    ensures s'.cfg == s.cfg && s'.exchange == s.exchange && LinkKept(s, s')
  {
    LaunchStream(OpenStream(s, now), now)
  }

  // The first sync packet, before anything else is sent.
  function OpenStream(s: Session, now: nat): (s': Session)
    ensures s'.cfg == s.cfg && s'.exchange == s.exchange && LinkKept(s, s')
  {
    var s1 := Log(s.(state := Streaming, timers := s.timers.(timeout := Off)), EnteredStreaming(s.rtsp.serverPort));
    var s2 := SendSync(s1);
    s2.(timers := s2.timers.(sync := Due(now + SYNC_MS)),
        wishes := s.wishes.(volume := s.wishes.volume || s.cfg.airplay2))
  }

  // Volume, pacer, keep-alive and metadata, then launched(true).
  function LaunchStream(s: Session, now: nat): (s': Session)
    ensures s'.cfg == s.cfg && s'.exchange == s.exchange && LinkKept(s, s')
  {
    var s1 := if s.wishes.volume then SendRequest(s, SET_PARAMETER, now) else s;
    var s2 := s1.(timers := s1.timers.(pacer := Due(now + PACER_MS)));
    var s3 := if s.cfg.airplay2
              then s2.(timers := s2.timers.(feedbackMs := FEEDBACK_AP2_MS, feedback := Due(now + FEEDBACK_AP2_MS)))
              else SendRequest(s2.(timers := s2.timers.(feedbackMs := FEEDBACK_AP1_MS)), POST, now);
    Log(SendMetadata(s3, now), Launched(true))
  }

  function SetVolume(s: Session, now: nat): (s': Session)
    ensures s'.cfg == s.cfg && s'.exchange == s.exchange && LinkKept(s, s')
  {
    var s1 := s.(wishes := s.wishes.(volume := true));
    if s.state == Streaming then SendRequest(s1, SET_PARAMETER, now) else s1
  }

  function SetNowPlaying(s: Session, text: bool, cover: bool, changed: bool, now: nat): (s': Session)
    ensures s'.cfg == s.cfg && s'.exchange == s.exchange && LinkKept(s, s')
  {
    var s1 := s.(wishes := s.wishes.(text := text, cover := cover));
    if s.state == Streaming && changed then SendMetadata(s1, now) else s1
  }

  function OnFeedbackTimer(s: Session, now: nat): (s': Session)
    ensures s'.cfg == s.cfg && s'.exchange == s.exchange && LinkKept(s, s')
  {
    if s.state != Streaming then s
    else if s.cfg.airplay2 then Enqueue(s, FEEDBACK, false)
    else SendRequest(s, POST, now)
  }

  // The pacer's burst: how many packets are due is the clock's business.
  function SendAudio(s: Session, packets: nat): (s': Session)
    ensures s'.cfg == s.cfg && s'.exchange == s.exchange && LinkKept(s, s')
  {
    if s.keys.ap2.Some? && s.keys.ap2.value.audioKey.Some? then
      var a := s.keys.ap2.value;
      WithAp2(Log(Log(s, Sealed(Audio, a.audioKey.value, a.audioNonce, packets)), AudioSent(packets)),
              a.(audioNonce := a.audioNonce + packets))
    else Log(s, AudioSent(packets))
  }

  predicate Fires(t: Timer, now: nat) { t.Due? && t.at <= now }

  function TickTimeout(s: Session, now: nat): (s': Session)
    ensures s'.cfg == s.cfg && s'.exchange == s.exchange && LinkKept(s, s')
  {
    if !Fires(s.timers.timeout, now) then s
    else
      var s1 := s.(timers := s.timers.(timeout := Off));
      if s.waitingForPin then s1
      else if s.state == Connecting || s.state == Pairing || s.state == Handshake then Fail(s1)
      else s1
  }

  function TickPin(s: Session, now: nat): (s': Session)
    ensures s'.cfg == s.cfg && s'.exchange == s.exchange && LinkKept(s, s')
  {
    if !Fires(s.timers.pin, now) then s
    else
      var s1 := s.(timers := s.timers.(pin := Off));
      if !s.waitingForPin then s1 else Fail(s1.(waitingForPin := false))
  }

  function TickFeedback(s: Session, now: nat): (s': Session)
    ensures s'.cfg == s.cfg && s'.exchange == s.exchange && LinkKept(s, s')
  {
    if !Fires(s.timers.feedback, now) then s
    else OnFeedbackTimer(s.(timers := s.timers.(feedback := Due(now + s.timers.feedbackMs))), now)
  }

  function TickSync(s: Session, now: nat): (s': Session)
    ensures s'.cfg == s.cfg && s'.exchange == s.exchange && LinkKept(s, s')
  {
    if !Fires(s.timers.sync, now) then s else SendSync(s.(timers := s.timers.(sync := Due(now + SYNC_MS))))
  }

  function TickPacer(s: Session, packets: nat, now: nat): (s': Session)
    ensures s'.cfg == s.cfg && s'.exchange == s.exchange && LinkKept(s, s')
  {
    if !Fires(s.timers.pacer, now) then s
    else SendAudio(s.(timers := s.timers.(pacer := Due(now + PACER_MS))), packets)
  }

  function Tick(s: Session, packets: nat, now: nat): (s': Session)
    ensures s'.cfg == s.cfg && s'.exchange == s.exchange && LinkKept(s, s')
  {
    TickPacer(TickSync(TickFeedback(TickPin(TickTimeout(s, now), now), now), now), packets, now)
  }

  // ---- Host notifications ----

  function OnConnected(s: Session, now: nat): (s': Session)
    ensures s'.cfg == s.cfg && s'.exchange == s.exchange
      && (s.state == Connecting ==> LinkKept(s.(link := Connected), s'))
  {
    if s.state != Connecting then s else BeginAuthChain(s.(link := Connected), now)
  }

  function OnConnectFailed(s: Session): (s': Session)
    ensures s'.cfg == s.cfg && s'.exchange == s.exchange && LinkKept(s, s')
  {
    if s.state != Idle then Fail(s) else s
  }

  // The peer closed (no error text) or the socket failed.
  function OnClosed(s: Session, error: bool): (s': Session)
    ensures s'.cfg == s.cfg && s'.exchange == s.exchange && LinkKept(s, s')
  {
    if s.state == Idle then s.(link := NotConnected)
    else if error then Fail(s)
    else
      var s1 := s.(state := Idle, link := NotConnected, timers := StopTimers(s.timers));
      Log(if s.state != Streaming then Log(s1, Launched(false)) else s1, Closed)
  }

  // `requests` complete requests pushed on the event channel, each answered by one sealed reply.
  function OnEventRequests(s: Session, requests: nat): (s': Session)
    ensures s'.cfg == s.cfg && s'.exchange == s.exchange && LinkKept(s, s')
  {
    var k := s.keys;
    if s.state == Idle || k.ap2.None? || k.ap2.value.eventKey.None? then s
    else
      Log(s, Sealed(Event, k.ap2.value.eventKey.value, k.eventSendCtr, requests))
        .(keys := k.(eventSendCtr := k.eventSendCtr + requests))
  }

  // Datagrams of the receiver: `answers` of them are answered, with stored packets or the time; nothing is sealed.
  function OnDatagrams(s: Session, answers: nat): (s': Session)
    ensures s'.cfg == s.cfg && s'.exchange == s.exchange && LinkKept(s, s')
  {
    if s.state == Idle then s else Log(s, DatagramsSent(answers))
  }

  // ---- Runs ----

  datatype Input =
    | StartCall(udpOk: bool)
    | StopCall
    | PinCall
    | VolumeCall
    | NowPlayingCall(text: bool, cover: bool, changed: bool)
    | ConnectedNote
    | ConnectFailedNote
    | ReplyNote(reply: Reply)
    | BadBytesNote                    // undecryptable or oversized control bytes
    | ClosedNote(error: bool)
    | EventNote(requests: nat)
    | DatagramNote(answers: nat)
    | TickCall(packets: nat)

  // What the host promises: notifications of a connection follow its opening and stop once it is down. The
  // application submits a PIN only while a session is active.
  predicate Allowed(s: Session, i: Input)
  {
    match i
    case ConnectedNote => s.link == Opening
    case ConnectFailedNote => s.link == Opening
    case ReplyNote(_) => s.link == Connected
    case BadBytesNote => s.link == Connected
    case ClosedNote(_) => s.link == Connected
    case PinCall => s.state != Idle
    case _ => true
  }

  // The calls that an exception leaves: those that run M3 on a B that is too long.
  predicate Throws(s: Session, i: Input)
  {
    match i
    case PinCall => s.waitingForPin && s.exchange.serverB == TooLong
    case ReplyNote(r) => HttpFirst(s.fifo) && ThrowsOnReply(s, r)
    case _ => false
  }

  function Step(s: Session, i: Input, now: nat): (s': Session)
    ensures s'.cfg == s.cfg && (!i.StartCall? && !i.ConnectedNote? ==> LinkKept(s, s'))
    ensures s'.exchange.aborted == (!i.StartCall? && (s.exchange.aborted || Throws(s, i)))
    requires Safe(s) && Allowed(s, i) && (s.link == Connected ==> s.state != Idle)
  {
    match i
    case StartCall(udpOk) => Start(s, udpOk, now)
    case StopCall => Stop(s, now)
    case PinCall => SubmitPin(s, now)
    case VolumeCall => SetVolume(s, now)
    case NowPlayingCall(text, cover, changed) => SetNowPlaying(s, text, cover, changed, now)
    case ConnectedNote => OnConnected(s, now)
    case ConnectFailedNote => OnConnectFailed(s)
    case ReplyNote(r) => OnReply(s, r, now)
    case BadBytesNote => Fail(s)
    case ClosedNote(error) => OnClosed(s, error)
    case EventNote(n) => OnEventRequests(s, n)
    case DatagramNote(n) => OnDatagrams(s, n)
    case TickCall(n) => Tick(s, n, now)
  }

  // ---- What a trace has shown so far ----

  // Since the last Started: nothing, launched(true), launched(false), closed.
  datatype Phase = Quiet | Running | Refused | Over | Broken

  // The session since the last start(): its event phase, checks, stream starts, requests sent before streaming and
  // requests not yet answered. Broken is final.
  datatype Progress = Progress(phase: Phase, failedCheck: bool, proofOk: bool, signatureOk: bool, paired: bool,
                               streams: nat, requests: nat, unanswered: seq<Method>, routes: seq<bool>)

  // For every key of the run the first counter not yet used, and whether one was ever used twice.
  datatype Usage = Usage(used: map<(Channel, nat), nat>, reused: bool)

  datatype Seen = Seen(now: Progress, keys: Usage)

  const QUIET: Progress := Progress(Quiet, false, false, false, false, 0, 0, [], [])

  function Advance(w: Seen, o: Obs): Seen
  {
    if o.Sealed? then w.(keys := UseCounters(w.keys, o)) else w.(now := AdvanceProgress(w.now, o))
  }

  function AdvanceProgress(p: Progress, o: Obs): Progress
  {
    match o
    case Started => if p.phase == Broken then p else QUIET
    case Launched(ok) => p.(phase := if p.phase != Quiet then Broken else if ok then Running else Refused)
    case Closed => p.(phase := if p.phase == Running || p.phase == Refused then Over else Broken)
    case Sent(m, http) =>
      p.(unanswered := p.unanswered + [m], routes := p.routes + [http],
         requests := if p.streams == 0 && m != TEARDOWN then p.requests + 1 else p.requests)
    case Answered(m, http) =>
      if p.unanswered == [] || p.unanswered[0] != m || p.routes == [] || p.routes[0] != http then p.(phase := Broken)
      else p.(unanswered := p.unanswered[1..], routes := p.routes[1..])
    case Checked(c, ok) =>
      p.(failedCheck := p.failedCheck || !ok, proofOk := p.proofOk || (c == SrpProof && ok),
         signatureOk := p.signatureOk || (c == VerifySignature && ok))
    case CredentialsObtained => p.(paired := true)
    case EnteredStreaming(port) =>
      p.(streams := p.streams + 1,
         phase := if port == 0 || p.streams > 0 || p.phase != Quiet then Broken else p.phase)
    case _ => p
  }

  function UseCounters(u: Usage, o: Obs): Usage
    requires o.Sealed?
  {
    Usage(u.used[(o.channel, o.key) := o.first + o.count],
          u.reused || o.first < UsedUpTo(u, o.channel, o.key))
  }

  function UsedUpTo(u: Usage, ch: Channel, k: nat): nat { if (ch, k) in u.used then u.used[(ch, k)] else 0 }

  const NOTHING_SEEN: Seen := Seen(QUIET.(phase := Over), Usage(map[], false))

  function Watch(trace: seq<Obs>): Seen { WatchTo(trace, |trace|) }

  // The summary of the first n observations.
  function WatchTo(trace: seq<Obs>, n: nat): Seen
    requires n <= |trace|
  {
    if n == 0 then NOTHING_SEEN else Advance(WatchTo(trace, n - 1), trace[n - 1])
  }

  lemma {:induction false} WatchPrefix(trace: seq<Obs>, more: seq<Obs>, n: nat)
    requires n <= |trace|
    ensures WatchTo(trace + more, n) == WatchTo(trace, n)
  {
    if n > 0 {
      WatchPrefix(trace, more, n - 1);
    }
  }
}
