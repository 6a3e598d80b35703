/** Whole runs: what the trace of any sequence of host calls looks like. */
module SessionRuns {
  import opened Wire
  import opened SessionSpec
  import opened SessionProof

  datatype Timed = Timed(input: Input, at: nat)

  function Initial(cfg: Config, auth: Auth): Session
  {
    Session(cfg, auth, Idle, Unstarted, NotConnected, false, false, Exchange(Zero, false),
      Rtsp(false, 0, 0, false, false),
            Fifo([], [], 0), Keys(None, false, 0, 0, 0), Timers(Off, Off, Off, Off, Off, FEEDBACK_AP1_MS),
            Wishes(false, false, false), [])
  }

  predicate Enabled(s: Session, i: Input) { Safe(s) && Allowed(s, i) && (s.link == Connected ==> s.state != Idle) }

  // Every input of the run is one the host is allowed to make where it is made.
  predicate HostRun(s: Session, run: seq<Timed>)
    decreases |run|
  {
    run == [] || (Enabled(s, run[0].input) && HostRun(Step(s, run[0].input, run[0].at), run[1..]))
  }

  function After(s: Session, run: seq<Timed>): Session
    requires HostRun(s, run)
    decreases |run|
  {
    if run == [] then s else After(Step(s, run[0].input, run[0].at), run[1..])
  }

  lemma InitialInv(cfg: Config, auth: Auth)
    requires Configured(Initial(cfg, auth))
    ensures Inv(Initial(cfg, auth))
  {
  }

  lemma {:induction false} RunKeeps(s: Session, run: seq<Timed>)
    requires Inv(s) && HostRun(s, run)
    ensures Inv(After(s, run))
    decreases |run|
  {
    hide Inv, Step;
    if run != [] {
      StepKeeps(s, run[0].input, run[0].at);
      RunKeeps(Step(s, run[0].input, run[0].at), run[1..]);
    }
  }

  /** The pairing state is there whenever a handler uses it: in every run, whatever the host may do next is
      defined. */
  lemma NoStepIsStuck(cfg: Config, auth: Auth, run: seq<Timed>, i: Input)
    requires Configured(Initial(cfg, auth)) && HostRun(Initial(cfg, auth), run)
    requires Allowed(After(Initial(cfg, auth), run), i)
    ensures Enabled(After(Initial(cfg, auth), run), i)
  {
    hide Inv;
    InitialInv(cfg, auth);
    RunKeeps(Initial(cfg, auth), run);
    InvIsSafe(After(Initial(cfg, auth), run));
  }

  // ---- Events ----

  // The launched and closed events since the last start() among the first n observations.
  function EventsSince(trace: seq<Obs>, n: nat): seq<Obs>
    requires n <= |trace|
  {
    if n == 0 then [] else Grow(EventsSince(trace, n - 1), trace[n - 1])
  }

  function Grow(e: seq<Obs>, o: Obs): seq<Obs>
  {
    if o.Started? then [] else if o.Launched? || o.Closed? then e + [o] else e
  }

  predicate LawfulEvents(e: seq<Obs>)
  {
    e == [] || e == [Launched(true)] || e == [Launched(false)]
    || e == [Launched(true), Closed] || e == [Launched(false), Closed]
  }

  // How the event phase of a summary reads as a list of events.
  predicate PhaseReads(p: Phase, e: seq<Obs>)
  {
    match p
    case Quiet => e == []
    case Running => e == [Launched(true)]
    case Refused => e == [Launched(false)]
    case Over => e == [] || e == [Launched(true), Closed] || e == [Launched(false), Closed]
    case Broken => true
  }

  lemma PhaseStep(p: Progress, o: Obs, e: seq<Obs>)
    requires PhaseReads(p.phase, e) && !o.Sealed? && AdvanceProgress(p, o).phase != Broken
    ensures PhaseReads(AdvanceProgress(p, o).phase, Grow(e, o))
  {
  }

  lemma SealIsNoEvent(e: seq<Obs>, o: Obs)
    ensures o.Sealed? ==> Grow(e, o) == e
  {
  }

  lemma WatchStep(trace: seq<Obs>, n: nat)
    requires 0 < n <= |trace|
    ensures WatchTo(trace, n) == Advance(WatchTo(trace, n - 1), trace[n - 1])
    ensures WatchTo(trace, n).now.phase != Broken ==> WatchTo(trace, n - 1).now.phase != Broken
  {
  }

  lemma {:induction false} PhaseIsEvents(trace: seq<Obs>, n: nat)
    requires n <= |trace| && WatchTo(trace, n).now.phase != Broken
    ensures PhaseReads(WatchTo(trace, n).now.phase, EventsSince(trace, n))
    ensures forall j :: 0 <= j <= n ==> LawfulEvents(EventsSince(trace, j))
  {
    if n > 0 {
      hide WatchTo, AdvanceProgress, PhaseReads, LawfulEvents, Grow;
      WatchStep(trace, n);
      SealIsNoEvent(EventsSince(trace, n - 1), trace[n - 1]);
      PhaseIsEvents(trace, n - 1);
      if !trace[n - 1].Sealed? {
        PhaseStep(WatchTo(trace, n - 1).now, trace[n - 1], EventsSince(trace, n - 1));
      }
      ReadsLawfully(WatchTo(trace, n).now.phase, EventsSince(trace, n));
    }
  }

  lemma ReadsLawfully(p: Phase, e: seq<Obs>)
    requires PhaseReads(p, e) && p != Broken
    ensures LawfulEvents(e)
  {
  }

  // Stream starts since the last start(), each with a known port.
  function StreamsSince(trace: seq<Obs>, n: nat): nat
    requires n <= |trace|
  {
    if n == 0 || trace[n - 1].Started? then 0
    else StreamsSince(trace, n - 1) + (if trace[n - 1].EnteredStreaming? then 1 else 0)
  }

  lemma StreamStep(p: Progress, o: Obs)
    requires !o.Sealed? && AdvanceProgress(p, o).phase != Broken
    ensures AdvanceProgress(p, o).streams == if o.Started? then 0 else p.streams + if o.EnteredStreaming? then 1 else 0
    ensures o.EnteredStreaming? ==> o.serverPort != 0 && p.streams == 0
  {
  }

  lemma {:induction false} StreamsAreLawful(trace: seq<Obs>, n: nat)
    requires n <= |trace| && WatchTo(trace, n).now.phase != Broken
    ensures WatchTo(trace, n).now.streams == StreamsSince(trace, n)
    ensures forall j :: 0 <= j <= n ==> StreamsSince(trace, j) <= 1
    ensures forall j :: 0 <= j < n && trace[j].EnteredStreaming? ==> trace[j].serverPort != 0
  {
    if n > 0 {
      hide WatchTo, AdvanceProgress;
      WatchStep(trace, n);
      StreamsAreLawful(trace, n - 1);
      if !trace[n - 1].Sealed? {
        StreamStep(WatchTo(trace, n - 1).now, trace[n - 1]);
      }
    }
  }

  /** The event language: at any point of any run, the events since the last start() are a prefix of
      launched(true) closed or of launched(false) closed; streaming is entered at most once, with a known port. */
  lemma EventLanguage(cfg: Config, auth: Auth, run: seq<Timed>)
    requires Configured(Initial(cfg, auth)) && HostRun(Initial(cfg, auth), run)
    ensures var t := After(Initial(cfg, auth), run).trace;
      && (forall j :: 0 <= j <= |t| ==> LawfulEvents(EventsSince(t, j)))
      && (forall j :: 0 <= j <= |t| ==> StreamsSince(t, j) <= 1)
      && (forall j :: 0 <= j < |t| && t[j].EnteredStreaming? ==> t[j].serverPort != 0)
  {
    InitialInv(cfg, auth);
    RunKeeps(Initial(cfg, auth), run);
    var t := After(Initial(cfg, auth), run).trace;
    PhaseIsEvents(t, |t|);
    StreamsAreLawful(t, |t|);
  }

  // ---- Nonces ----

  lemma {:induction false} UsageCoversTrace(trace: seq<Obs>, n: nat)
    requires n <= |trace| && !WatchTo(trace, n).keys.reused
    ensures forall i :: 0 <= i < n && trace[i].Sealed? ==>
      trace[i].first + trace[i].count <= UsedUpTo(WatchTo(trace, n).keys, trace[i].channel, trace[i].key)
    ensures forall i, j :: 0 <= i < j < n ==> !Overlap(trace[i], trace[j])
  {
    if n > 0 {
      UsageCoversTrace(trace, n - 1);
    }
  }

  // Two seals under one key that are not in counter order: the second starts below the end of the first.
  predicate Overlap(a: Obs, b: Obs)
  {
    a.Sealed? && b.Sealed? && a.channel == b.channel && a.key == b.key && b.first < a.first + a.count
  }

  /** Nonce freshness: over any run, across sessions and pairing fallbacks, no channel key seals two plaintexts
      under one counter; later seals use later counters. */
  lemma NonceFreshness(cfg: Config, auth: Auth, run: seq<Timed>)
    requires Configured(Initial(cfg, auth)) && HostRun(Initial(cfg, auth), run)
    ensures var t := After(Initial(cfg, auth), run).trace;
      forall i, j :: 0 <= i < j < |t| ==> !Overlap(t[i], t[j])
  {
    InitialInv(cfg, auth);
    RunKeeps(Initial(cfg, auth), run);
    UsageCoversTrace(After(Initial(cfg, auth), run).trace, |After(Initial(cfg, auth), run).trace|);
  }

  // ---- Reply routing ----

  // A request and where its reply goes.
  datatype Routed = Routed(m: Method, http: bool)

  function SentSince(trace: seq<Obs>, n: nat): seq<Routed>
    requires n <= |trace|
  {
    if n == 0 || trace[n - 1].Started? then []
    else SentSince(trace, n - 1) + (if trace[n - 1].Sent? then [Routed(trace[n - 1].m, trace[n - 1].http)] else [])
  }

  function AnsweredSince(trace: seq<Obs>, n: nat): seq<Routed>
    requires n <= |trace|
  {
    if n == 0 || trace[n - 1].Started? then []
    else
      AnsweredSince(trace, n - 1) + (if trace[n - 1].Answered? then [Routed(trace[n - 1].m, trace[n - 1].http)] else [])
  }

  function Zip(methods: seq<Method>, routes: seq<bool>): seq<Routed>
    requires |methods| == |routes|
  {
    seq(|methods|, i requires 0 <= i < |methods| => Routed(methods[i], routes[i]))
  }

  lemma AnswerStep(p: Progress, o: Obs, sent: seq<Routed>, answered: seq<Routed>)
    requires |p.unanswered| == |p.routes| && sent == answered + Zip(p.unanswered, p.routes)
    requires !o.Sealed? && AdvanceProgress(p, o).phase != Broken && !o.Started?
    ensures var q := AdvanceProgress(p, o);
      && |q.unanswered| == |q.routes|
      && sent + (if o.Sent? then [Routed(o.m, o.http)] else [])
         == answered + (if o.Answered? then [Routed(o.m, o.http)] else []) + Zip(q.unanswered, q.routes)
  {
    hide Zip;
    if o.Answered? {
      ZipFirst(p.unanswered, p.routes);
    } else if o.Sent? {
      ZipLast(p.unanswered, p.routes, o.m, o.http);
    }
  }

  lemma ZipFirst(methods: seq<Method>, routes: seq<bool>)
    requires |methods| == |routes| && methods != []
    ensures Zip(methods, routes) == [Routed(methods[0], routes[0])] + Zip(methods[1..], routes[1..])
  {
  }

  lemma ZipLast(methods: seq<Method>, routes: seq<bool>, m: Method, http: bool)
    requires |methods| == |routes|
    ensures Zip(methods + [m], routes + [http]) == Zip(methods, routes) + [Routed(m, http)]
  {
  }

  lemma {:induction false} AnswersFollowRequests(trace: seq<Obs>, n: nat)
    requires n <= |trace| && WatchTo(trace, n).now.phase != Broken
    ensures var w := WatchTo(trace, n).now;
      |w.unanswered| == |w.routes| && SentSince(trace, n) == AnsweredSince(trace, n) + Zip(w.unanswered, w.routes)
  {
    if n > 0 {
      var o := trace[n - 1];
      WatchStep(trace, n);
      AnswersFollowRequests(trace, n - 1);
      if !o.Sealed? && !o.Started? {
        hide WatchTo, AdvanceProgress, Zip;
        AnswerStep(WatchTo(trace, n - 1).now, o, SentSince(trace, n - 1), AnsweredSince(trace, n - 1));
      } else if o.Started? {
        hide WatchTo;
      } else {
        hide WatchTo, AdvanceProgress;
      }
    }
  }

  /** The i-th consumed reply answers the i-th request of the session and goes where that request said. In Pairing and
      Handshake exactly one request is outstanding; none while the PIN is awaited, or once computing the proof for the
      receiver's B has thrown. */
  lemma ReplyRouting(cfg: Config, auth: Auth, run: seq<Timed>)
    requires Configured(Initial(cfg, auth)) && HostRun(Initial(cfg, auth), run)
    ensures var s := After(Initial(cfg, auth), run);
      && AnsweredSince(s.trace, |s.trace|) <= SentSince(s.trace, |s.trace|)
      && |s.fifo.methods| == |s.fifo.isHttp|
      && SentSince(s.trace, |s.trace|) == AnsweredSince(s.trace, |s.trace|) + Zip(s.fifo.methods, s.fifo.isHttp)
      && (s.state == Pairing || s.state == Handshake ==>
            |s.fifo.methods| == if s.waitingForPin || s.exchange.aborted then 0 else 1)
  {
    InitialInv(cfg, auth);
    RunKeeps(Initial(cfg, auth), run);
    var t := After(Initial(cfg, auth), run).trace;
    AnswersFollowRequests(t, |t|);
  }

  // ---- The exception ----

  /** A call is left by an exception exactly when it runs M3 on a B that is too long (`TooLong`); the
      session is then still pairing, with nothing outstanding, no PIN awaited and its watchdog armed. */
  lemma ThrowsExactly(cfg: Config, auth: Auth, run: seq<Timed>, i: Input, now: nat)
    requires Configured(Initial(cfg, auth)) && HostRun(Initial(cfg, auth), run)
    requires Allowed(After(Initial(cfg, auth), run), i)
    ensures var s := After(Initial(cfg, auth), run);
      && Enabled(s, i)
      && (Step(s, i, now).exchange.aborted && !s.exchange.aborted <==> Throws(s, i))
      && (Throws(s, i) ==>
            var r := Step(s, i, now);
            r.state == Pairing && r.fifo.methods == [] && !r.waitingForPin && r.timers.timeout.Due?)
  {
    hide Step, Sound, Watch;
    var s := After(Initial(cfg, auth), run);
    InitialInv(cfg, auth);
    RunKeeps(Initial(cfg, auth), run);
    InvIsSafe(s);
    StepKeeps(s, i, now);
    assert Step(s, i, now).exchange.aborted == (!i.StartCall? && (s.exchange.aborted || Throws(s, i)));
    if Throws(s, i) {
      ThrowsWhilePairing(s, i);
      ThrowStays(s, i, now);
    }
  }

  lemma ThrowsWhilePairing(s: Session, i: Input)
    requires Inv(s) && Allowed(s, i) && Throws(s, i)
    ensures s.state == Pairing && !s.exchange.aborted
  {
    hide Watch, CountersFresh;
  }

  lemma ThrowStays(s: Session, i: Input, now: nat)
    requires Enabled(s, i) && Throws(s, i) && s.state == Pairing
    ensures Step(s, i, now).state == Pairing
  {
    hide Watch, Log, Enqueue, Fail;
  }

  // ---- Receiver authentication ----

  // Where the last start() among the first n observations is; n when there is none.
  function LastStart(trace: seq<Obs>, n: nat): (i: nat)
    requires n <= |trace|
    ensures i <= n
  {
    if n == 0 then 0 else if trace[n - 1].Started? then n else LastStart(trace, n - 1)
  }

  // What a summary says about checks, read off the observations from `from` on.
  ghost predicate ChecksRead(p: Progress, trace: seq<Obs>, from: nat, n: nat)
    requires from <= n <= |trace|
  {
    && (p.failedCheck <==> exists i :: from <= i < n && trace[i].Checked? && !trace[i].passed)
    && (p.proofOk <==> exists i :: from <= i < n && trace[i] == Checked(SrpProof, true))
    && (p.signatureOk <==> exists i :: from <= i < n && trace[i] == Checked(VerifySignature, true))
    && (p.paired <==> exists i :: from <= i < n && trace[i].CredentialsObtained?)
  }

  lemma CheckStep(p: Progress, trace: seq<Obs>, from: nat, n: nat)
    requires from < n <= |trace| && ChecksRead(p, trace, from, n - 1)
    requires !trace[n - 1].Started?
    ensures ChecksRead(if trace[n - 1].Sealed? then p else AdvanceProgress(p, trace[n - 1]), trace, from, n)
  {
    var o := trace[n - 1];
    var q := if o.Sealed? then p else AdvanceProgress(p, o);
    assert q.failedCheck <==> p.failedCheck || (o.Checked? && !o.passed);
    assert q.proofOk <==> p.proofOk || o == Checked(SrpProof, true);
    assert q.signatureOk <==> p.signatureOk || o == Checked(VerifySignature, true);
    assert q.paired <==> p.paired || o.CredentialsObtained?;
  }

  lemma {:induction false} ChecksSeen(trace: seq<Obs>, n: nat)
    requires n <= |trace| && WatchTo(trace, n).now.phase != Broken
    ensures ChecksRead(WatchTo(trace, n).now, trace, LastStart(trace, n), n)
  {
    if n > 0 {
      var o := trace[n - 1];
      WatchStep(trace, n);
      if o.Started? {
        hide WatchTo;
      } else {
        hide WatchTo, AdvanceProgress, ChecksRead;
        ChecksSeen(trace, n - 1);
        CheckStep(WatchTo(trace, n - 1).now, trace, LastStart(trace, n - 1), n);
      }
    }
  }

  lemma StepConfig(s: Session, i: Input, now: nat)
    requires Enabled(s, i)
    ensures Step(s, i, now).cfg == s.cfg
  {
  }

  lemma {:induction false} ConfigFixed(s: Session, run: seq<Timed>)
    requires HostRun(s, run)
    ensures After(s, run).cfg == s.cfg
    decreases |run|
  {
    hide Step;
    if run != [] {
      StepConfig(s, run[0].input, run[0].at);
      ConfigFixed(Step(s, run[0].input, run[0].at), run[1..]);
    }
  }

  /** Strict mode fails closed: a HAP session that is streaming has since its start() seen no failed check, a
      verified signature or (transient pairing) a verified SRP proof, and a verified proof if it paired afresh. */
  lemma StrictMeansAuthenticated(cfg: Config, auth: Auth, run: seq<Timed>)
    requires Configured(Initial(cfg, auth)) && HostRun(Initial(cfg, auth), run) && cfg.strict
    requires After(Initial(cfg, auth), run).state == Streaming && IsHap(After(Initial(cfg, auth), run).auth)
    ensures var s := After(Initial(cfg, auth), run);
      var t, from := s.trace, LastStart(s.trace, |s.trace|);
      && (forall i :: from <= i < |t| && t[i].Checked? ==> t[i].passed)
      && ((exists i :: from <= i < |t| && t[i] == Checked(VerifySignature, true))
          || (s.auth == HapTransient && exists i :: from <= i < |t| && t[i] == Checked(SrpProof, true)))
      && ((exists i :: from <= i < |t| && t[i].CredentialsObtained?)
          ==> exists i :: from <= i < |t| && t[i] == Checked(SrpProof, true))
  {
    InitialInv(cfg, auth);
    RunKeeps(Initial(cfg, auth), run);
    ConfigFixed(Initial(cfg, auth), run);
    var t := After(Initial(cfg, auth), run).trace;
    ChecksSeen(t, |t|);
  }
}
