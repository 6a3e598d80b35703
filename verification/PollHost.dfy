/** What the poll host promises the sender about one TCP channel, as a property of everything that happened on it. */
module PollSpec {
  import opened Wire

  // Connection openings, the notifications delivered, our own close, and bytes on their way out.
  datatype Happening =
    | Opened
    | NoteFailed
    | NoteConnected
    | NoteData(bytes: Bytes)
    | NoteClosed
    | Dropped                 // our own tcpClose, or the tcpConnect that replaces the connection
    | Given(bytes: Bytes)     // tcpSend on an open slot
    | Taken(bytes: Bytes)     // accepted by the kernel

  predicate IsNote(h: Happening) { h.NoteFailed? || h.NoteConnected? || h.NoteData? || h.NoteClosed? }

  datatype Phase = Down | Starting | Up | Broken

  // The current connection: where its notifications are, and its bytes.
  datatype Progress = Progress(phase: Phase, given: Bytes, taken: Bytes, data: Bytes)

  function Advance(p: Progress, h: Happening): Progress
  {
    if p.phase == Broken then p
    else
      match h
      case Opened => if p.phase == Down then Progress(Starting, [], [], []) else p.(phase := Broken)
      case NoteFailed => p.(phase := if p.phase == Starting then Down else Broken)
      case NoteConnected => p.(phase := if p.phase == Starting then Up else Broken)
      case NoteData(b) => p.(data := p.data + b, phase := if p.phase == Up then Up else Broken)
      case NoteClosed => p.(phase := if p.phase == Up then Down else Broken)
      case Dropped => p.(phase := Down)
      case Given(b) => p.(given := p.given + b, phase := if p.phase == Down then Broken else p.phase)
      case Taken(b) =>
        p.(taken := p.taken + b, phase := if p.phase == Up && p.taken + b <= p.given then Up else Broken)
  }

  function WatchTo(log: seq<Happening>, n: nat): Progress
    requires n <= |log|
  {
    if n == 0 then Progress(Down, [], [], []) else Advance(WatchTo(log, n - 1), log[n - 1])
  }

  function Watch(log: seq<Happening>): Progress { WatchTo(log, |log|) }

  lemma {:induction false} WatchPrefix(log: seq<Happening>, more: seq<Happening>, n: nat)
    requires n <= |log|
    ensures WatchTo(log + more, n) == WatchTo(log, n)
  {
    if n > 0 {
      WatchPrefix(log, more, n - 1);
    }
  }

  lemma WatchMore(log: seq<Happening>, h: Happening)
    ensures Watch(log + [h]) == Advance(Watch(log), h)
  {
    WatchPrefix(log, [h], |log|);
  }

  // ---- The contract, spelled out ----

  // The notifications since the last opening among the first n happenings.
  function NotesSince(log: seq<Happening>, n: nat): seq<Happening>
    requires n <= |log|
  {
    if n == 0 || log[n - 1].Opened? then []
    else NotesSince(log, n - 1) + (if IsNote(log[n - 1]) then [log[n - 1]] else [])
  }

  // Whether the connection has been given up by our own side since.
  predicate DroppedSince(log: seq<Happening>, n: nat)
    requires n <= |log|
  {
    n > 0 && !log[n - 1].Opened? && (log[n - 1].Dropped? || DroppedSince(log, n - 1))
  }

  // The bytes given, taken or delivered since the last opening.
  datatype Flow = GivenBytes | TakenBytes | DeliveredBytes

  function FlowOf(h: Happening, f: Flow): Bytes
  {
    match h
    case Given(b) => if f == GivenBytes then b else []
    case Taken(b) => if f == TakenBytes then b else []
    case NoteData(b) => if f == DeliveredBytes then b else []
    case _ => []
  }

  function BytesSince(log: seq<Happening>, n: nat, f: Flow): Bytes
    requires n <= |log|
  {
    if n == 0 || log[n - 1].Opened? then [] else BytesSince(log, n - 1, f) + FlowOf(log[n - 1], f)
  }

  // A prefix of: failed; or connected, data any number of times, closed.
  predicate LawfulNotes(e: seq<Happening>)
  {
    || e == [] || e == [NoteFailed]
    || (e[0] == NoteConnected && forall i :: 0 < i < |e| ==> e[i].NoteData? || (e[i] == NoteClosed && i == |e| - 1))
  }

  ghost predicate PhaseReads(p: Phase, e: seq<Happening>, dropped: bool)
  {
    match p
    case Starting => e == [] && !dropped
    case Up => !dropped && e != [] && e[0] == NoteConnected && forall i :: 0 < i < |e| ==> e[i].NoteData?
    case Down => LawfulNotes(e)
    case Broken => true
  }

  lemma PhaseStep(p: Progress, h: Happening, e: seq<Happening>, dropped: bool)
    requires PhaseReads(p.phase, e, dropped) && Advance(p, h).phase != Broken
    ensures h.Opened? ==> PhaseReads(Advance(p, h).phase, [], false)
    ensures IsNote(h) ==> !dropped && PhaseReads(Advance(p, h).phase, e + [h], false)
    ensures !h.Opened? && !IsNote(h) ==> PhaseReads(Advance(p, h).phase, e, dropped || h.Dropped?)
  {
  }

  lemma ReadsLawfully(p: Phase, e: seq<Happening>, dropped: bool)
    requires PhaseReads(p, e, dropped) && p != Broken
    ensures LawfulNotes(e)
  {
  }

  lemma WatchStep(log: seq<Happening>, n: nat)
    requires 0 < n <= |log|
    ensures WatchTo(log, n) == Advance(WatchTo(log, n - 1), log[n - 1])
    ensures WatchTo(log, n).phase != Broken ==> WatchTo(log, n - 1).phase != Broken
  {
  }

  lemma {:induction false} NotesRead(log: seq<Happening>, n: nat)
    requires n <= |log| && WatchTo(log, n).phase != Broken
    ensures PhaseReads(WatchTo(log, n).phase, NotesSince(log, n), DroppedSince(log, n))
    ensures forall j :: 0 <= j <= n ==> LawfulNotes(NotesSince(log, j))
    ensures forall j :: 0 <= j < n && IsNote(log[j]) ==> !DroppedSince(log, j)
  {
    if n > 0 {
      hide WatchTo, Advance, PhaseReads, LawfulNotes;
      WatchStep(log, n);
      NotesRead(log, n - 1);
      PhaseStep(WatchTo(log, n - 1), log[n - 1], NotesSince(log, n - 1), DroppedSince(log, n - 1));
      assert NotesSince(log, n - 1) + [] == NotesSince(log, n - 1);
      ReadsLawfully(WatchTo(log, n).phase, NotesSince(log, n), DroppedSince(log, n));
    }
  }

  lemma BytesStep(p: Progress, h: Happening)
    requires p.taken <= p.given && Advance(p, h).phase != Broken
    ensures var q := Advance(p, h);
      && q.given == (if h.Opened? then [] else p.given + FlowOf(h, GivenBytes))
      && q.taken == (if h.Opened? then [] else p.taken + FlowOf(h, TakenBytes))
      && q.data == (if h.Opened? then [] else p.data + FlowOf(h, DeliveredBytes))
      && q.taken <= q.given
  {
    assert p.given + [] == p.given && p.taken + [] == p.taken && p.data + [] == p.data;
  }

  lemma {:induction false} BytesRead(log: seq<Happening>, n: nat)
    requires n <= |log| && WatchTo(log, n).phase != Broken
    ensures var w := WatchTo(log, n);
      && w.given == BytesSince(log, n, GivenBytes) && w.taken == BytesSince(log, n, TakenBytes)
      && w.data == BytesSince(log, n, DeliveredBytes) && w.taken <= w.given
  {
    if n > 0 {
      hide WatchTo, Advance, FlowOf, BytesSince;
      WatchStep(log, n);
      BytesRead(log, n - 1);
      BytesStep(WatchTo(log, n - 1), log[n - 1]);
      SinceStep(log, n, GivenBytes);
      SinceStep(log, n, TakenBytes);
      SinceStep(log, n, DeliveredBytes);
    }
  }

  lemma {:induction false} UnbrokenBefore(log: seq<Happening>, j: nat, n: nat)
    requires j <= n <= |log| && WatchTo(log, n).phase != Broken
    ensures WatchTo(log, j).phase != Broken
    decreases n - j
  {
    hide WatchTo;
    if j < n {
      WatchStep(log, n);
      UnbrokenBefore(log, j, n - 1);
    }
  }

  lemma SinceStep(log: seq<Happening>, n: nat, f: Flow)
    requires 0 < n <= |log|
    ensures BytesSince(log, n, f)
      == if log[n - 1].Opened? then [] else BytesSince(log, n - 1, f) + FlowOf(log[n - 1], f)
  {
  }

  /** An unbroken log keeps the contract at every point: for each opening the notifications are a prefix of failed or
      of connected data* closed, none comes after our own close, and the kernel has taken a prefix of the bytes
      given for this connection and nothing else. */
  lemma ContractKept(log: seq<Happening>)
    requires Watch(log).phase != Broken
    ensures forall j :: 0 <= j <= |log| ==> LawfulNotes(NotesSince(log, j))
    ensures forall j :: 0 <= j < |log| && IsNote(log[j]) ==> !DroppedSince(log, j)
    ensures forall j :: 0 <= j <= |log| ==> BytesSince(log, j, TakenBytes) <= BytesSince(log, j, GivenBytes)
  {
    hide WatchTo, BytesSince, NotesSince, DroppedSince, LawfulNotes;
    NotesRead(log, |log|);
    forall j | 0 <= j <= |log| ensures BytesSince(log, j, TakenBytes) <= BytesSince(log, j, GivenBytes) {
      UnbrokenBefore(log, j, |log|);
      BytesRead(log, j);
    }
  }

  // ---- History ----

  function NotesOf(hs: seq<Happening>): seq<Happening>
  {
    if hs == [] then [] else (if IsNote(hs[0]) then [hs[0]] else []) + NotesOf(hs[1..])
  }

  predicate OnlyTaken(hs: seq<Happening>) { forall k :: 0 <= k < |hs| ==> hs[k].Taken? }

  // `now` continues `before` by happenings of which exactly `notes` are notifications.
  ghost predicate Continues(before: seq<Happening>, now: seq<Happening>, notes: seq<Happening>)
  {
    before <= now && NotesOf(now[|before|..]) == notes
  }

  // The sender has given the connection up in between.
  ghost predicate Gone(before: seq<Happening>, now: seq<Happening>) { before <= now && Dropped in now[|before|..] }

  lemma {:induction false} NotesOfConcat(a: seq<Happening>, b: seq<Happening>)
    ensures NotesOf(a + b) == NotesOf(a) + NotesOf(b)
  {
    if a == [] {
      assert a + b == b;
    } else {
      assert (a + b)[0] == a[0] && (a + b)[1..] == a[1..] + b;
      NotesOfConcat(a[1..], b);
    }
  }

  lemma ContinueTwice(a: seq<Happening>, b: seq<Happening>, c: seq<Happening>, m: seq<Happening>, n: seq<Happening>)
    requires Continues(a, b, m) && Continues(b, c, n)
    ensures Continues(a, c, m + n)
    ensures Gone(a, b) || Gone(b, c) ==> Gone(a, c)
  {
    assert c[|a|..] == b[|a|..] + c[|b|..];
    NotesOfConcat(b[|a|..], c[|b|..]);
  }

  lemma NothingMore(a: seq<Happening>)
    ensures Continues(a, a, [])
  {
    assert a[|a|..] == [];
  }

  lemma OneMore(a: seq<Happening>, h: Happening)
    ensures Continues(a, a + [h], if IsNote(h) then [h] else [])
  {
    assert (a + [h])[|a|..] == [h] && [h][1..] == [];
  }

  lemma {:induction false} SilentIsNoNote(hs: seq<Happening>)
    requires forall k :: 0 <= k < |hs| ==> !IsNote(hs[k])
    ensures NotesOf(hs) == []
    decreases |hs|
  {
    if hs != [] {
      SilentIsNoNote(hs[1..]);
    }
  }

  // ---- Slots ----

  const NO_SOCKET: int := -1

  datatype TcpSlot = TcpSlot(fd: int, gen: nat, connecting: bool, connected: bool, out: Bytes, outOff: nat,
                             failedToStart: bool, sendFailed: bool)

  function Reset(s: TcpSlot): TcpSlot { TcpSlot(NO_SOCKET, s.gen, false, false, [], 0, false, false) }

  predicate Queued(s: TcpSlot) { s.outOff < |s.out| }

  datatype Received = Got(bytes: Bytes) | Fin | WouldBlock | Failed

  // What the kernel has done on a channel. On the current connection: the bytes it took and handed over, whether it
  // has refused bytes, and whether it has told us that the connection is over. Ever: how often it was asked to send,
  // refused, was asked to receive and for the connect error, and its last answers.
  datatype Memory = Memory(accepted: Bytes, received: Bytes, refused: bool, over: bool, sends: nat, blocked: bool,
                           refusals: nat, recvs: nat, last: Received, checks: nat, failing: bool)

  function Renewed(m: Memory): Memory { m.(accepted := [], received := [], refused := false, over := false) }

  // After send() of `bytes` returned n.
  function Sent(m: Memory, bytes: Bytes, n: int, wouldBlock: bool): Memory
    requires n <= |bytes|
  {
    var fatal := n <= 0 && !(n < 0 && wouldBlock);
    m.(accepted := m.accepted + if n > 0 then bytes[..n] else [], sends := m.sends + 1, blocked := n < 0 && wouldBlock,
       refused := m.refused || fatal, refusals := m.refusals + if fatal then 1 else 0)
  }

  // After recv().
  function Heard(m: Memory, r: Received): Memory
  {
    m.(received := m.received + if r.Got? then r.bytes else [], recvs := m.recvs + 1, last := r,
       over := m.over || r.Fin? || r.Failed?)
  }

  // After the connect error was asked for.
  function Checked(m: Memory, err: bool): Memory { m.(checks := m.checks + 1, failing := err, over := m.over || err) }

  // Of the kernel only sends have been asked meanwhile, and perhaps a new connection.
  predicate Unheard(m: Memory, m': Memory)
  {
    && m'.recvs == m.recvs && m'.last == m.last && m'.checks == m.checks && m'.failing == m.failing
    && m'.sends >= m.sends && m'.refusals >= m.refusals
  }

  // One channel at one moment: its slot, everything that has happened on it, its openings, and the kernel's part.
  datatype Line = Line(slot: TcpSlot, log: seq<Happening>, opens: nat, memo: Memory)

  // The slot fits what has happened; `opens` counts its openings.
  ghost predicate SlotFits(s: TcpSlot, log: seq<Happening>, opens: nat)
  {
    var w := Watch(log);
    && w.phase != Broken && s.gen == opens % TWO_32 && s.outOff <= |s.out|
    && if s.fd == NO_SOCKET then
         s == Reset(s).(failedToStart := s.failedToStart) && w.phase == if s.failedToStart then Starting else Down
       else
         && s.fd >= 0 && !s.failedToStart && s.connecting != s.connected && (s.sendFailed ==> s.connected)
         && w.phase == (if s.connecting then Starting else Up)
         && w.taken + s.out[s.outOff..] == w.given
  }

  // The slot also fits the kernel's part: the bytes it took and handed over are those that happened, and a connection
  // it has ended is not kept open.
  ghost predicate Bare(l: Line)
  {
    && SlotFits(l.slot, l.log, l.opens)
    && (l.slot.fd != NO_SOCKET ==>
          Watch(l.log).taken == l.memo.accepted && Watch(l.log).data == l.memo.received && !l.memo.over)
  }

  // And refused bytes are parked as a failure that will be told.
  ghost predicate Fits(l: Line) { Bare(l) && (l.slot.fd != NO_SOCKET && l.memo.refused ==> l.slot.sendFailed) }

  // What the sender can do to a channel: nothing that notifies or receives; and as long as the channel was not
  // reopened it is the same connection, or given up. Bytes that were queued still are, or some were sent.
  ghost predicate Later(a: Line, b: Line)
  {
    && Continues(a.log, b.log, []) && a.opens <= b.opens && Unheard(a.memo, b.memo)
    && if b.opens == a.opens && b.slot.fd != NO_SOCKET then
         && b.slot.fd == a.slot.fd && b.slot.connecting == a.slot.connecting && b.slot.connected == a.slot.connected
         && (Queued(a.slot) ==> Queued(b.slot) || b.memo.sends > a.memo.sends)
       else a.slot.fd != NO_SOCKET ==> Gone(a.log, b.log)
  }

  // With at most k openings.
  ghost predicate LaterBy(a: Line, b: Line, k: nat) { Later(a, b) && b.opens <= a.opens + k }

  lemma LaterTwice(a: Line, b: Line, c: Line)
    requires Later(a, b) && Later(b, c)
    ensures Later(a, c)
  {
    hide Continues, Gone, Queued;
    ContinueTwice(a.log, b.log, c.log, [], []);
    var none: seq<Happening> := [];
    assert none + none == none;
  }

  lemma LaterSame(a: Line)
    ensures Later(a, a)
  {
    NothingMore(a.log);
  }

  /** The generation check is sound: after a callback that reopened the slot fewer than 2^32 times, an unchanged
      socket number and generation mean an unchanged connection, even when the kernel has reused the number; and a
      changed one means that the sender gave it up. */
  lemma SameGenerationSameConnection(a: Line, b: Line)
    requires Fits(a) && Fits(b) && LaterBy(a, b, TWO_32 - 1) && a.slot.fd != NO_SOCKET
    ensures if b.slot.fd == a.slot.fd && b.slot.gen == a.slot.gen
      then b.opens == a.opens && b.slot.connecting == a.slot.connecting && b.slot.connected == a.slot.connected
      else Gone(a.log, b.log)
  {
    hide Watch, Continues, Gone;
  }

  // ---- What each happening does to a slot ----

  lemma FitsTaken(l: Line, bytes: Bytes, n: nat, wouldBlock: bool)
    requires Fits(l) && l.slot.connected && bytes == l.slot.out[l.slot.outOff..] && 0 < n <= |bytes|
    ensures Fits(Line(l.slot.(outOff := l.slot.outOff + n), l.log + [Taken(bytes[..n])], l.opens,
                      Sent(l.memo, bytes, n, wouldBlock)))
  {
    hide Watch;
    var s := l.slot;
    WatchMore(l.log, Taken(bytes[..n]));
    assert bytes == bytes[..n] + s.out[s.outOff + n..];
  }

  lemma FitsUntaken(l: Line, bytes: Bytes, n: int, wouldBlock: bool)
    requires Fits(l) && l.slot.connected && n <= 0
    ensures var m := Sent(l.memo, bytes, n, wouldBlock);
      Bare(l.(memo := m)) && Fits(l.(memo := m, slot := l.slot.(sendFailed := true)))
      && (n < 0 && wouldBlock ==> Fits(l.(memo := m)))
  {
    hide Watch;
    assert l.memo.accepted + [] == l.memo.accepted;
  }

  lemma FitsCleared(l: Line)
    requires Fits(l) && l.slot.connected && l.slot.outOff == |l.slot.out|
    ensures Fits(l.(slot := l.slot.(out := [], outOff := 0)))
  {
    hide Watch;
    assert l.slot.out[l.slot.outOff..] == [];
  }

  lemma FitsParked(l: Line)
    requires Bare(l) && l.slot.connected
    ensures Fits(l.(slot := l.slot.(sendFailed := true)))
  {
    hide Watch;
  }

  lemma FitsGiven(l: Line, b: Bytes)
    requires Fits(l) && l.slot.fd != NO_SOCKET
    ensures Fits(l.(slot := l.slot.(out := l.slot.out + b), log := l.log + [Given(b)]))
  {
    hide Watch;
    var s := l.slot;
    WatchMore(l.log, Given(b));
    assert (s.out + b)[s.outOff..] == s.out[s.outOff..] + b;
  }

  lemma FitsDropped(l: Line, m: Memory)
    requires Bare(l)
    ensures Fits(Line(Reset(l.slot), l.log + [Dropped], l.opens, m))
  {
    hide Watch;
    WatchMore(l.log, Dropped);
  }

  lemma FitsOpened(l: Line, fd: int)
    requires Fits(l) && l.slot == Reset(l.slot) && fd >= NO_SOCKET
    ensures var r := l.slot.(gen := (l.slot.gen + 1) % TWO_32);
      && Fits(Line(r.(failedToStart := true), l.log + [Opened], l.opens + 1, Renewed(l.memo)))
      && (fd >= 0 ==> Fits(Line(r.(fd := fd, connecting := true), l.log + [Opened], l.opens + 1, Renewed(l.memo))))
  {
    hide Watch;
    WatchMore(l.log, Opened);
  }

  lemma FitsFailed(l: Line, m: Memory)
    requires Bare(l) && (l.slot.failedToStart || l.slot.connecting)
    ensures Fits(Line(Reset(l.slot), l.log + [NoteFailed], l.opens, m))
  {
    hide Watch;
    WatchMore(l.log, NoteFailed);
  }

  lemma FitsConnected(l: Line)
    requires Fits(l) && l.slot.connecting
    ensures Fits(Line(l.slot.(connecting := false, connected := true), l.log + [NoteConnected], l.opens,
                      Checked(l.memo, false)))
  {
    hide Watch;
    WatchMore(l.log, NoteConnected);
  }

  lemma FitsData(l: Line, b: Bytes)
    requires Fits(l) && l.slot.connected
    ensures Fits(l.(log := l.log + [NoteData(b)], memo := Heard(l.memo, Got(b))))
  {
    hide Watch;
    WatchMore(l.log, NoteData(b));
  }

  lemma FitsWaiting(l: Line)
    requires Fits(l)
    ensures Fits(l.(memo := Heard(l.memo, WouldBlock)))
  {
    hide Watch;
    assert l.memo.received + [] == l.memo.received;
  }

  // Once the connection is closed, the kernel's part in it no longer matters.
  lemma FitsClosed(l: Line, m: Memory)
    requires Bare(l) && l.slot.connected
    ensures Fits(Line(Reset(l.slot), l.log + [NoteClosed], l.opens, m))
  {
    hide Watch;
    WatchMore(l.log, NoteClosed);
  }

  // ---- What one turn of the loop delivers ----

  // What poll() reported for one socket.
  datatype Ready = Ready(input: bool, output: bool, err: bool, hup: bool, nval: bool)

  predicate Nothing(re: Ready) { !re.input && !re.output && !re.err && !re.hup && !re.nval }

  // The notification put off to the next turn.
  function Parked(s: TcpSlot): seq<Happening>
  {
    if s.failedToStart then [NoteFailed] else if s.sendFailed then [NoteClosed] else []
  }

  // What was heard on a readable connection: the kernel was asked, each time it handed over data they were delivered,
  // and asked again until it would block, or ended the connection, which was told, or the sender gave it up.
  predicate Told(notes: seq<Happening>, gone: bool, m: Memory, m': Memory)
  {
    var ended := m'.last.Fin? || m'.last.Failed?;
    && m'.recvs > m.recvs && m'.recvs == m.recvs + |notes| + (if m'.last.WouldBlock? then 1 else 0)
    && (m'.last.Got? ==> gone)
    && forall k :: 0 <= k < |notes| ==> if ended && k == |notes| - 1 then notes[k] == NoteClosed else notes[k].NoteData?
  }

  /** What an open channel gets for what poll() reported of it: which notifications, and what is asked of the kernel.
      `gone`: the sender gave the connection up meanwhile. */
  predicate Served(s: TcpSlot, re: Ready, notes: seq<Happening>, gone: bool, m: Memory, m': Memory)
  {
    if s.fd == NO_SOCKET then notes == []
    else if s.connecting then
      if !(re.output || re.err || re.hup) then notes == []
      else
        && m'.checks == m.checks + 1
        && if m'.failing || re.err || re.hup then notes == [NoteFailed]
           else
             && (Queued(s) ==> gone || m'.sends > m.sends)
             && (notes == [NoteConnected] || (notes == [NoteConnected, NoteClosed] && m'.refusals > m.refusals))
    else if re.err || re.nval then notes == [NoteClosed]
    else
      && (re.output && Queued(s) ==> m'.sends > m.sends)
      && if re.output && notes == [NoteClosed] && m'.recvs == m.recvs then m'.refusals > m.refusals
         else if re.input || re.hup then Told(notes, gone, m, m')
         else notes == []
  }

  // Later sends change nothing about it.
  lemma StillServed(s: TcpSlot, re: Ready, notes: seq<Happening>, gone: bool, m: Memory, m': Memory, gone2: bool,
                    m2: Memory)
    requires Served(s, re, notes, gone, m, m') && Unheard(m', m2) && (gone ==> gone2)
    ensures Served(s, re, notes, gone2, m, m2)
  {
    hide Queued;
  }

  // Nor do earlier ones, as long as the connection is the same.
  lemma ServedSince(a: Line, b: Line, re: Ready, notes: seq<Happening>, gone: bool, m: Memory)
    requires Later(a, b) && b.opens == a.opens && b.slot.fd != NO_SOCKET && Served(b.slot, re, notes, gone, b.memo, m)
    requires m.sends >= b.memo.sends
    ensures Served(a.slot, re, notes, gone, a.memo, m)
  {
    hide Queued, Continues, Gone;
  }

  lemma NothingServed(s: TcpSlot, re: Ready, gone: bool, m: Memory)
    requires Nothing(re) || s.fd == NO_SOCKET
    ensures Served(s, re, [], gone, m, m)
  {
  }
}

/** The poll host itself. The kernel answers as it likes, and inside every notification the sender may connect,
    send and close any channel. */
module PollHost {
  import opened Wire
  import opened PollSpec

  datatype Entry = Entry(channel: nat, fd: int, gen: nat)

  function EntryOf(c: nat, s: TcpSlot): seq<Entry> { if s.fd == NO_SOCKET then [] else [Entry(c, s.fd, s.gen)] }

  const NEW: Memory := Memory([], [], false, false, 0, false, 0, 0, WouldBlock, 0, false)

  /** The kernel: each call has some outcome, and it remembers what it was asked and did on each channel. */
  class Kernel {
    ghost var memo: seq<Memory>

    ghost predicate Valid()
      reads this
    {
      |memo| == 2
    }

    constructor ()
      ensures Valid() && memo == [NEW, NEW]
    {
      memo := [NEW, NEW];
    }

    method Connect(c: nat) returns (fd: int)
      requires Valid() && c < 2
      modifies this
      ensures fd >= NO_SOCKET && memo == old(memo)[c := Renewed(old(memo[c]))]
    {
      fd := *;
      if fd < 0 { fd := NO_SOCKET; }
      memo := memo[c := Renewed(memo[c])];
    }

    method Send(c: nat, bytes: Bytes) returns (n: int, wouldBlock: bool)
      requires Valid() && c < 2 && bytes != []
      modifies this
      ensures n <= |bytes| && memo == old(memo)[c := Sent(old(memo[c]), bytes, n, wouldBlock)]
    {
      n, wouldBlock := *, *;
      if n > |bytes| { n := |bytes|; }
      memo := memo[c := Sent(memo[c], bytes, n, wouldBlock)];
    }

    // `left` bounds how often it still has data in this turn.
    method Recv(c: nat, left: nat) returns (r: Received)
      requires Valid() && c < 2
      modifies this
      ensures memo == old(memo)[c := Heard(old(memo[c]), r)]
      ensures r.Got? ==> left > 0
    {
      var kind: int, bytes: Bytes := *, *;
      r := if kind == 0 && left > 0 then Got(bytes)
           else if kind == 1 then Fin
           else if kind == 2 then WouldBlock
           else Failed;
      memo := memo[c := Heard(memo[c], r)];
    }

    // The pending error of a socket that was connecting.
    method SocketError(c: nat) returns (err: bool)
      requires Valid() && c < 2
      modifies this
      ensures memo == old(memo)[c := Checked(old(memo[c]), err)]
    {
      err := *;
      memo := memo[c := Checked(memo[c], err)];
    }
  }

  // The same connection with bytes taken off its queue, and nothing else.
  ghost predicate Drained(a: Line, b: Line)
  {
    && b.opens == a.opens && b.slot == a.slot.(out := b.slot.out, outOff := b.slot.outOff)
    && a.log <= b.log && OnlyTaken(b.log[|a.log|..]) && Unheard(a.memo, b.memo)
  }

  ghost predicate ServedOn(a: Line, b: Line, re: Ready, notes: seq<Happening>)
  {
    Served(a.slot, re, notes, Gone(a.log, b.log), a.memo, b.memo)
  }

  class RaopLoop {
    const tcp: array<TcpSlot>
    const kernel: Kernel
    ghost var logs: seq<seq<Happening>>
    ghost var opens: seq<nat>

    ghost predicate Shape()
      reads this, kernel
    {
      tcp.Length == 2 && |logs| == |opens| == 2 && kernel.Valid()
    }

    ghost function At(c: nat): Line
      requires Shape() && c < 2
      reads this, tcp, kernel
    {
      Line(tcp[c], logs[c], opens[c], kernel.memo[c])
    }

    ghost predicate Valid()
      reads this, tcp, kernel
    {
      Shape() && Fits(At(0)) && Fits(At(1))
    }

    // As Valid, but for channel c, which the kernel has just served.
    ghost predicate ValidBut(c: nat)
      reads this, tcp, kernel
    {
      c < 2 && Shape() && Fits(At(1 - c))
    }

    constructor ()
      ensures Valid() && fresh(tcp) && fresh(kernel) && logs == [[], []]
    {
      tcp := new TcpSlot[2](_ => Reset(TcpSlot(NO_SOCKET, 0, false, false, [], 0, false, false)));
      kernel := new Kernel();
      logs, opens := [[], []], [0, 0];
    }

    // Every slot change goes through here.
    method Put(c: nat, s: TcpSlot, ghost log: seq<Happening>, ghost o: nat)
      requires ValidBut(c) && Fits(Line(s, log, o, kernel.memo[c]))
      modifies this`logs, this`opens, tcp
      ensures Valid() && At(c) == Line(s, log, o, kernel.memo[c]) && At(1 - c) == old(At(1 - c))
    {
      hide Fits;
      tcp[c] := s;
      logs, opens := logs[c := log], opens[c := o];
      assert At(1 - c) == old(At(1 - c));
      assert c == 0 || c == 1;
    }

    // Pushes what the kernel takes right now, in order; false on a fatal error. Nothing is dropped: bytes leave the
    // queue only as the kernel takes them.
    method Drain(c: nat) returns (ok: bool)
      requires Valid() && c < 2 && tcp[c].connected
      modifies this`logs, this`opens, tcp, kernel
      ensures ValidBut(c) && Bare(At(c)) && (ok ==> Valid())
      ensures At(1 - c) == old(At(1 - c)) && Drained(old(At(c)), At(c))
      ensures Queued(old(tcp[c])) ==> At(c).memo.sends > old(At(c).memo.sends)
      ensures if ok then tcp[c].out == [] || At(c).memo.blocked
              else At(c).memo.refusals > old(At(c).memo.refusals) && !At(c).memo.blocked
    {
      hide Fits, Bare;
      DrainedNothing(At(c));
      while tcp[c].outOff < |tcp[c].out|
        invariant Valid() && At(1 - c) == old(At(1 - c)) && Drained(old(At(c)), At(c))
        invariant Queued(old(tcp[c])) ==> Queued(tcp[c]) || At(c).memo.sends > old(At(c).memo.sends)
        decreases |tcp[c].out| - tcp[c].outOff
      {
        ghost var was := At(c);
        var s := tcp[c];
        var bytes := s.out[s.outOff..];
        var n, wouldBlock := kernel.Send(c, bytes);
        assert At(1 - c) == old(At(1 - c));
        if n <= 0 {
          FitsUntaken(was, bytes, n, wouldBlock);
          return n < 0 && wouldBlock;
        }
        FitsTaken(was, bytes, n, wouldBlock);
        TakenMore(old(At(c)), was, bytes, n, wouldBlock);
        Put(c, s.(outOff := s.outOff + n), logs[c] + [Taken(bytes[..n])], opens[c]);
      }
      FitsLength(At(c));
      FitsCleared(At(c));
      Put(c, tcp[c].(out := [], outOff := 0), logs[c], opens[c]);
      FitsBare(At(c));
      return true;
    }

    // ---- Called by the sender ----

    // Replaces the connection without a word; a failure to start is parked.
    method TcpConnect(c: nat)
      requires Valid() && c < 2
      modifies this`logs, this`opens, tcp, kernel
      ensures Valid() && At(1 - c) == old(At(1 - c)) && LaterBy(old(At(c)), At(c), 1)
      ensures logs[c] == old(logs[c]) + [Dropped, Opened] && opens[c] == old(opens[c]) + 1
      ensures At(c).memo == Renewed(old(At(c).memo))
      ensures if tcp[c].fd == NO_SOCKET then tcp[c].failedToStart else tcp[c].connecting
    {
      hide Fits, Bare, Continues;
      assert Bare(At(c)) by { FitsBare(At(c)); }
      FitsDropped(At(c), kernel.memo[c]);
      Put(c, Reset(tcp[c]), logs[c] + [Dropped], opens[c]);
      ghost var dropped := At(c);
      var fd := kernel.Connect(c);
      FitsOpened(dropped, fd);
      assert old(logs[c]) + [Dropped] + [Opened] == old(logs[c]) + [Dropped, Opened];
      assert At(1 - c) == old(At(1 - c));
      var s := tcp[c].(gen := (tcp[c].gen + 1) % TWO_32);
      if fd == NO_SOCKET {
        Put(c, s.(failedToStart := true), logs[c] + [Opened], opens[c] + 1);
      } else {
        Put(c, s.(fd := fd, connecting := true), logs[c] + [Opened], opens[c] + 1);
      }
      DroppedAndOpened(old(logs[c]));
    }

    // Queues the bytes behind what is queued, if the slot is open, and pushes what the kernel takes; a failure is
    // parked.
    method TcpSend(c: nat, bytes: Bytes)
      requires Valid() && c < 2
      modifies this`logs, this`opens, tcp, kernel
      ensures Valid() && At(1 - c) == old(At(1 - c)) && LaterBy(old(At(c)), At(c), 0)
      ensures tcp[c] == old(tcp[c]).(out := tcp[c].out, outOff := tcp[c].outOff, sendFailed := tcp[c].sendFailed)
      ensures old(tcp[c].fd) == NO_SOCKET || bytes == [] ==> At(c) == old(At(c))
      ensures old(tcp[c].fd) != NO_SOCKET && bytes != [] ==>
        old(logs[c]) + [Given(bytes)] <= logs[c] && OnlyTaken(logs[c][|old(logs[c])| + 1..])
      ensures old(tcp[c].connected) && bytes != [] ==>
        At(c).memo.sends > old(At(c).memo.sends) && (tcp[c].out == [] || At(c).memo.blocked || tcp[c].sendFailed)
    {
      hide Fits, Bare, Continues;
      LaterSame(At(c));
      FitsLength(At(c));
      OpenHasSocket(At(c));
      if tcp[c].fd != NO_SOCKET && bytes != [] {
        FitsGiven(At(c), bytes);
        Put(c, tcp[c].(out := tcp[c].out + bytes), logs[c] + [Given(bytes)], opens[c]);
        assert logs[c][|old(logs[c])| + 1..] == [];
        if tcp[c].connected {
          var ok := Drain(c);
          if !ok {
            FitsParked(At(c));
            Put(c, tcp[c].(sendFailed := true), logs[c], opens[c]);
          }
        }
        SentSilently(old(logs[c]), logs[c], bytes);
      }
    }

    // With flush the queued bytes get a bounded chance to leave first; then nothing is delivered any more.
    method TcpClose(c: nat, flush: bool)
      requires Valid() && c < 2
      modifies this`logs, this`opens, tcp, kernel
      ensures Valid() && At(1 - c) == old(At(1 - c)) && LaterBy(old(At(c)), At(c), 0) && tcp[c] == Reset(old(tcp[c]))
      ensures old(logs[c]) < logs[c] && logs[c][|logs[c]| - 1] == Dropped
      ensures OnlyTaken(logs[c][|old(logs[c])|..|logs[c]| - 1])
      ensures flush && old(tcp[c].connected && !tcp[c].sendFailed && Queued(tcp[c])) ==>
        At(c).memo.sends > old(At(c).memo.sends)
      ensures !flush ==> logs[c] == old(logs[c]) + [Dropped]
    {
      hide Fits, Bare, Continues;
      assert Bare(At(c)) by { FitsBare(At(c)); }
      assert logs[c][|logs[c]|..] == [];
      if tcp[c].fd != NO_SOCKET && flush && tcp[c].connected && !tcp[c].sendFailed {
        Flush(c);
      }
      OpenHasSocket(old(At(c)));
      FitsDropped(At(c), kernel.memo[c]);
      ghost var log := logs[c];
      assert (log + [Dropped])[|old(logs[c])|..|log|] == log[|old(logs[c])|..];
      Put(c, Reset(tcp[c]), logs[c] + [Dropped], opens[c]);
      ClosedSilently(old(logs[c]), logs[c]);
    }

    // Until the deadline, which lies half a second ahead: at least one round.
    method Flush(c: nat)
      requires Valid() && c < 2 && tcp[c].connected
      modifies this`logs, this`opens, tcp, kernel
      ensures ValidBut(c) && Bare(At(c)) && At(1 - c) == old(At(1 - c)) && Drained(old(At(c)), At(c))
      ensures Queued(old(tcp[c])) ==> At(c).memo.sends > old(At(c).memo.sends)
    {
      hide Fits, Bare;
      FitsBare(At(c));
      DrainedNothing(At(c));
      var rounds: int := *;
      if rounds < 1 { rounds := 1; }
      while rounds > 0 && tcp[c].outOff < |tcp[c].out|
        invariant Valid() && Bare(At(c)) && At(1 - c) == old(At(1 - c)) && Drained(old(At(c)), At(c))
        invariant Queued(old(tcp[c])) ==> (rounds > 0 && Queued(tcp[c])) || At(c).memo.sends > old(At(c).memo.sends)
      {
        ghost var before := At(c);
        var ok := Drain(c);
        DrainedTwice(old(At(c)), before, At(c));
        if !ok { break; }
        rounds := rounds - 1;
      }
    }

    // ---- Calls into the sender ----

    // Whatever the sender does in a callback, short of 2^32 calls; none of it is a notification.
    method Callback()
      requires Valid()
      modifies this`logs, this`opens, tcp, kernel
      ensures Valid() && LaterBy(old(At(0)), At(0), TWO_32 - 1) && LaterBy(old(At(1)), At(1), TWO_32 - 1)
    {
      hide Fits, Later;
      var calls: int := *;
      if calls < 0 || calls >= TWO_32 { calls := 0; }
      var i := 0;
      LaterSame(At(0));
      LaterSame(At(1));
      while i < calls
        invariant i <= calls && Valid() && LaterBy(old(At(0)), At(0), i) && LaterBy(old(At(1)), At(1), i)
      {
        ghost var a0, a1 := At(0), At(1);
        OneCall();
        LaterTwice(old(At(0)), a0, At(0));
        LaterTwice(old(At(1)), a1, At(1));
        i := i + 1;
      }
    }

    method OneCall()
      requires Valid()
      modifies this`logs, this`opens, tcp, kernel
      ensures Valid() && LaterBy(old(At(0)), At(0), 1) && LaterBy(old(At(1)), At(1), 1)
    {
      hide Fits, Later;
      var c: nat, call: nat, flush: bool, bytes: Bytes := *, *, *, *;
      LaterSame(At(0));
      LaterSame(At(1));
      if c < 2 {
        if call == 0 {
          TcpConnect(c);
        } else if call == 1 {
          TcpClose(c, flush);
        } else {
          TcpSend(c, bytes);
        }
        assert c == 0 || c == 1;
      }
    }

    // A notification that leaves the slot as `s`, and what the sender does about it.
    method Notify(c: nat, s: TcpSlot, ghost note: Happening)
      requires ValidBut(c) && IsNote(note) && Fits(Line(s, logs[c] + [note], opens[c], kernel.memo[c]))
      modifies this`logs, this`opens, tcp, kernel
      ensures Valid() && Later(old(At(1 - c)), At(1 - c))
      ensures LaterBy(Line(s, old(logs[c]) + [note], old(opens[c]), old(kernel.memo[c])), At(c), TWO_32 - 1)
      ensures Continues(old(logs[c]), logs[c], [note]) && Unheard(old(At(c).memo), At(c).memo)
    {
      hide Fits, Continues;
      Put(c, s, logs[c] + [note], opens[c]);
      ghost var noted := logs[c];
      assert c == 0 || c == 1;
      Callback();
      OneMore(old(logs[c]), note);
      ContinueTwice(old(logs[c]), noted, logs[c], [note], []);
      assert [note] + [] == [note];
    }

    // ---- The loop ----

    // A notification on a live connection; whether the slot is still the one it was.
    method NotifyAndCheck(c: nat, s: TcpSlot, ghost note: Happening) returns (same: bool)
      requires ValidBut(c) && IsNote(note) && s.connected && s.fd >= 0
      requires Fits(Line(s, logs[c] + [note], opens[c], kernel.memo[c]))
      modifies this`logs, this`opens, tcp, kernel
      ensures Valid() && Later(old(At(1 - c)), At(1 - c))
      ensures Continues(old(logs[c]), logs[c], [note]) && Unheard(old(At(c).memo), At(c).memo)
      ensures same <==> tcp[c].fd == s.fd && tcp[c].gen == s.gen
      ensures !same ==> Gone(old(logs[c]), logs[c])
      ensures same ==> tcp[c].connected && opens[c] == old(opens[c])
      ensures same && Queued(s) ==> Queued(tcp[c]) || At(c).memo.sends > old(At(c).memo.sends)
    {
      hide Fits, Continues, Gone;
      ghost var a := Line(s, logs[c] + [note], opens[c], kernel.memo[c]);
      Notify(c, s, note);
      same := tcp[c].fd == s.fd && tcp[c].gen == s.gen;
      assert c == 0 || c == 1;
      SameGenerationSameConnection(a, At(c));
      OneMore(old(logs[c]), note);
      ContinueTwice(old(logs[c]), a.log, logs[c], [note], []);
    }

    // The notifications put off from inside the sender's calls.
    method DeliverParked() returns (ghost second: seq<Happening>)
      requires Valid()
      modifies this`logs, this`opens, tcp, kernel
      ensures Valid() && Continues(old(logs[0]), logs[0], Parked(old(tcp[0])))
        && Continues(old(logs[1]), logs[1], second)
      ensures |second| <= 1 && (Parked(old(tcp[0])) == [] ==> second == Parked(old(tcp[1])))
      ensures Parked(old(tcp[0])) == [] && Parked(old(tcp[1])) == [] ==> At(0) == old(At(0)) && At(1) == old(At(1))
    {
      hide Fits, Continues;
      DeliverOne(0);
      ghost var between0, between1 := logs[0], logs[1];
      second := Parked(tcp[1]);
      DeliverOne(1);
      ContinueTwice(old(logs[0]), between0, logs[0], Parked(old(tcp[0])), []);
      ContinueTwice(old(logs[1]), between1, logs[1], [], second);
      assert Parked(old(tcp[0])) + [] == Parked(old(tcp[0])) && [] + second == second;
    }

    method DeliverOne(c: nat)
      requires Valid() && c < 2
      modifies this`logs, this`opens, tcp, kernel
      ensures Valid() && Continues(old(logs[c]), logs[c], Parked(old(tcp[c])))
      ensures Later(old(At(1 - c)), At(1 - c))
      ensures Parked(old(tcp[c])) == [] ==> At(0) == old(At(0)) && At(1) == old(At(1))
    {
      hide Fits, Bare, Continues, Later;
      NothingMore(logs[c]);
      LaterSame(At(1 - c));
      FitsBare(At(c));
      OpenHasSocket(At(c));
      if tcp[c].failedToStart {
        FitsFailed(At(c), kernel.memo[c]);
        Notify(c, Reset(tcp[c]), NoteFailed);
      } else if tcp[c].sendFailed {
        FitsClosed(At(c), kernel.memo[c]);
        Notify(c, Reset(tcp[c]), NoteClosed);
      }
    }

    method Snapshot() returns (entries: seq<Entry>)
      requires Valid()
      ensures entries == EntryOf(0, tcp[0]) + EntryOf(1, tcp[1])
    {
      hide Watch;
      entries := [];
      var c := 0;
      while c < 2
        invariant c <= 2
        invariant entries == (if c > 0 then EntryOf(0, tcp[0]) else []) + (if c > 1 then EntryOf(1, tcp[1]) else [])
      {
        if tcp[c].fd != NO_SOCKET { entries := entries + [Entry(c, tcp[c].fd, tcp[c].gen)]; }
        c := c + 1;
      }
    }

    method DeliverConnecting(c: nat, re: Ready) returns (ghost notes: seq<Happening>)
      requires Valid() && c < 2 && tcp[c].fd >= 0 && tcp[c].connecting
      modifies this`logs, this`opens, tcp, kernel
      ensures Valid() && Continues(old(logs[c]), logs[c], notes) && Later(old(At(1 - c)), At(1 - c))
      ensures ServedOn(old(At(c)), At(c), re, notes) && At(c).memo.sends >= old(At(c).memo.sends)
    {
      hide Fits, Bare, Continues, Gone, Later;
      NothingMore(logs[c]);
      LaterSame(At(1 - c));
      if !(re.output || re.err || re.hup) { return []; }
      ghost var was := At(c);
      FitsBare(was);
      var err := kernel.SocketError(c);
      assert At(1 - c) == old(At(1 - c));
      if err || re.err || re.hup {
        FitsFailed(was, kernel.memo[c]);
        Notify(c, Reset(tcp[c]), NoteFailed);
        return [NoteFailed];
      }
      var up := tcp[c].(connecting := false, connected := true);
      FitsConnected(was);
      var same := NotifyAndCheck(c, up, NoteConnected);
      if !same { return [NoteConnected]; }
      ghost var other, told := At(1 - c), At(c);
      var ok := Drain(c);
      DrainedSilently(told, At(c));
      ContinueTwice(was.log, told.log, logs[c], [NoteConnected], []);
      assert [NoteConnected] + [] == [NoteConnected];
      if ok { return [NoteConnected]; }
      ghost var drained := logs[c];
      FitsClosed(At(c), kernel.memo[c]);
      Notify(c, Reset(tcp[c]), NoteClosed);
      LaterTwice(old(At(1 - c)), other, At(1 - c));
      ContinueTwice(was.log, drained, logs[c], [NoteConnected], [NoteClosed]);
      return [NoteConnected] + [NoteClosed];
    }

    method DeliverConnected(c: nat, re: Ready) returns (ghost notes: seq<Happening>)
      requires Valid() && c < 2 && tcp[c].fd >= 0 && tcp[c].connected
      modifies this`logs, this`opens, tcp, kernel
      ensures Valid() && Continues(old(logs[c]), logs[c], notes) && Later(old(At(1 - c)), At(1 - c))
      ensures ServedOn(old(At(c)), At(c), re, notes) && At(c).memo.sends >= old(At(c).memo.sends)
    {
      hide Fits, Bare, Continues, Gone, Later, Told;
      ghost var was := At(c);
      NothingMore(logs[c]);
      LaterSame(At(1 - c));
      FitsBare(was);
      OpenHasSocket(was);
      var ok := !(re.err || re.nval);
      if ok && re.output {
        ok := Drain(c);
        DrainedSilently(was, At(c));
      }
      ghost var drained := At(c);
      if !ok {
        FitsClosed(At(c), kernel.memo[c]);
        Notify(c, Reset(tcp[c]), NoteClosed);
        ContinueTwice(was.log, drained.log, logs[c], [], [NoteClosed]);
        return [] + [NoteClosed];
      }
      notes := [];
      if re.input || re.hup {
        notes := Receive(c);
        ContinueTwice(was.log, drained.log, logs[c], [], notes);
        ToldSince(notes, Gone(drained.log, logs[c]), Gone(was.log, logs[c]), was.memo, drained.memo, At(c).memo);
        assert [] + notes == notes;
      }
    }

    // Reads until the kernel has no more or the connection is not this one any more; every byte read is delivered.
    method Receive(c: nat) returns (ghost notes: seq<Happening>)
      requires Valid() && c < 2 && tcp[c].connected && tcp[c].fd >= 0
      modifies this`logs, this`opens, tcp, kernel
      ensures Valid() && Continues(old(logs[c]), logs[c], notes) && Later(old(At(1 - c)), At(1 - c))
      ensures Told(notes, Gone(old(logs[c]), logs[c]), old(At(c).memo), At(c).memo)
      ensures At(c).memo.sends >= old(At(c).memo.sends) && At(c).memo.refusals >= old(At(c).memo.refusals)
    {
      hide Fits, Bare, Continues, Gone, Later;
      notes := [];
      NothingMore(logs[c]);
      LaterSame(At(1 - c));
      var left: nat := *;
      while true
        invariant Valid() && tcp[c].connected && tcp[c].fd >= 0
        invariant Continues(old(logs[c]), logs[c], notes) && Later(old(At(1 - c)), At(1 - c))
        invariant forall k :: 0 <= k < |notes| ==> notes[k].NoteData?
        invariant At(c).memo.recvs == old(At(c).memo.recvs) + |notes|
        invariant At(c).memo.sends >= old(At(c).memo.sends) && At(c).memo.refusals >= old(At(c).memo.refusals)
        decreases left
      {
        ghost var was, other := At(c), At(1 - c);
        FitsBare(was);
        var r := kernel.Recv(c, left);
        assert At(1 - c) == other;
        if !r.Got? {
          if r.Fin? || r.Failed? {
            FitsClosed(was, kernel.memo[c]);
            Notify(c, Reset(tcp[c]), NoteClosed);
            LaterTwice(old(At(1 - c)), other, At(1 - c));
            ContinueTwice(old(logs[c]), was.log, logs[c], notes, [NoteClosed]);
            notes := notes + [NoteClosed];
          } else {
            FitsWaiting(was);
          }
          return;
        }
        FitsData(was, r.bytes);
        var same := NotifyAndCheck(c, tcp[c], NoteData(r.bytes));
        LaterTwice(old(At(1 - c)), other, At(1 - c));
        ContinueTwice(old(logs[c]), was.log, logs[c], notes, [NoteData(r.bytes)]);
        notes := notes + [NoteData(r.bytes)];
        if !same { return; }
        left := left - 1;
      }
    }

    // One entry of the snapshot: a stale one is skipped.
    method DeliverEntry(e: Entry, re: Ready) returns (ghost notes: seq<Happening>)
      requires Valid() && e.channel < 2 && e.fd != NO_SOCKET
      modifies this`logs, this`opens, tcp, kernel
      ensures Valid() && Continues(old(logs[e.channel]), logs[e.channel], notes)
      ensures Later(old(At(1 - e.channel)), At(1 - e.channel))
      ensures At(e.channel).memo.sends >= old(At(e.channel).memo.sends)
      ensures old(tcp[e.channel].fd) == e.fd && old(tcp[e.channel].gen) == e.gen ==>
        ServedOn(old(At(e.channel)), At(e.channel), re, notes)
      ensures Nothing(re) || !(old(tcp[e.channel].fd) == e.fd && old(tcp[e.channel].gen) == e.gen) ==>
        notes == [] && At(0) == old(At(0)) && At(1) == old(At(1))
    {
      hide Fits, Continues, Gone, Later, Served;
      var c := e.channel;
      NothingMore(logs[c]);
      LaterSame(At(1 - c));
      assert c == 0 || c == 1;
      OpenHasSocket(At(c));
      notes := [];
      if Nothing(re) {
        NothingServed(tcp[c], re, Gone(logs[c], logs[c]), kernel.memo[c]);
        return;
      }
      if tcp[c].fd != e.fd || tcp[c].gen != e.gen { return; }
      if tcp[c].connecting {
        notes := DeliverConnecting(c, re);
      } else {
        notes := DeliverConnected(c, re);
      }
    }

    // All entries of the snapshot, in order.
    method DeliverAll(entries: seq<Entry>, poll: seq<Ready>)
      returns (ghost n0: seq<Happening>, ghost n1: seq<Happening>)
      requires Valid() && |poll| == 2 && entries == EntryOf(0, tcp[0]) + EntryOf(1, tcp[1])
      modifies this`logs, this`opens, tcp, kernel
      ensures Valid() && Continues(old(logs[0]), logs[0], n0) && Continues(old(logs[1]), logs[1], n1)
      ensures ServedOn(old(At(0)), At(0), poll[0], n0)
      ensures Gone(old(logs[1]), logs[1]) || ServedOn(old(At(1)), At(1), poll[1], n1)
    {
      hide Fits, Continues, Gone, Later, ServedOn, Nothing;
      ghost var a0, a1, has0, has1 := At(0), At(1), tcp[0].fd != NO_SOCKET, tcp[1].fd != NO_SOCKET;
      n0, n1 := [], [];
      NothingMore(logs[0]);
      NothingMore(logs[1]);
      LaterSame(a1);
      assert has0 ==> entries[0] == Entry(0, a0.slot.fd, a0.slot.gen);
      assert has1 ==> entries[|entries| - 1] == Entry(1, a1.slot.fd, a1.slot.gen);
      var i := 0;
      while i < |entries|
        invariant i <= |entries| && Valid() && Continues(a0.log, logs[0], n0) && Continues(a1.log, logs[1], n1)
        invariant i == 0 ==> At(0) == a0
        invariant if has0 && i > 0 then ServedOn(a0, At(0), poll[0], n0) else n0 == []
        invariant has1 && i == |entries| ==> Gone(a1.log, logs[1]) || ServedOn(a1, At(1), poll[1], n1)
        invariant !(has1 && i == |entries|) ==> n1 == []
        invariant has1 && i < |entries| ==> Later(a1, At(1))
      {
        ghost var b0, b1 := At(0), At(1);
        ghost var n := DeliverEntry(entries[i], poll[entries[i].channel]);
        if entries[i].channel == 0 {
          ContinueTwice(a0.log, b0.log, logs[0], n0, n);
          ContinueTwice(a1.log, b1.log, logs[1], n1, []) by { LaterIsSilent(b1, At(1)); }
          if has1 { LaterTwice(a1, b1, At(1)); }
          assert n0 + n == n && n1 + [] == n1;
          n0 := n0 + n;
        } else {
          ContinueTwice(a1.log, b1.log, logs[1], n1, n);
          ContinueTwice(a0.log, b0.log, logs[0], n0, []) by { LaterIsSilent(b0, At(0)); }
          if has0 { ServedStill(a0, b0, At(0), poll[0], n0); }
          ServedLate(a1, b1, At(1), poll[1], n);
          assert n1 + n == n && n0 + [] == n0;
          n1 := n1 + n;
        }
        i := i + 1;
      }
      if !has0 { NoSocketServed(a0, At(0), poll[0]); }
      if !has1 { NoSocketServed(a1, At(1), poll[1]); }
    }

    /** One turn of the loop, for what poll() reported of the two sockets. The histories only grow. A notification that
        was put off is delivered first. Otherwise the first channel is served exactly as its slot and poll() call for:
        its notifications, and what is asked of the kernel; and so is the second, unless the sender gave it up while
        the first was served. */
    method Pump(poll: seq<Ready>) returns (ghost first: seq<Happening>, ghost second: seq<Happening>)
      requires Valid() && |poll| == 2
      modifies this`logs, this`opens, tcp, kernel
      ensures Valid() && Continues(old(logs[0]), logs[0], first) && Continues(old(logs[1]), logs[1], second)
      ensures Parked(old(tcp[0])) <= first
      ensures Parked(old(tcp[0])) == [] ==> Parked(old(tcp[1])) <= second
      ensures Parked(old(tcp[0])) == [] && Parked(old(tcp[1])) == [] ==>
        ServedOn(old(At(0)), At(0), poll[0], first)
        && (Gone(old(logs[1]), logs[1]) || ServedOn(old(At(1)), At(1), poll[1], second))
    {
      hide Fits, Continues, Gone, Later, ServedOn;
      ghost var parked := Parked(tcp[0]);
      ghost var m1 := DeliverParked();
      ghost var a0, a1 := At(0), At(1);
      var entries := Snapshot();
      ghost var n0, n1 := DeliverAll(entries, poll);
      ghost var b0, b1 := At(0), At(1);
      Callback();       // tick()
      first, second := parked + n0, m1 + n1;
      Turn(old(logs[0]), a0, b0, At(0), parked, n0, poll[0]);
      Turn(old(logs[1]), a1, b1, At(1), m1, n1, poll[1]);
    }

    /** The contract towards the sender, at any moment and on either channel: lawful notifications, none after our own
        close; on an open connection the kernel has taken exactly the bytes of tcpSend that are not queued any more,
        every byte the kernel handed over has been delivered, the kernel has not ended the connection, and if it has
        refused bytes the failure is parked. */
    ghost method Contract(c: nat)
      requires Valid() && c < 2
      ensures forall j :: 0 <= j <= |logs[c]| ==> LawfulNotes(NotesSince(logs[c], j))
      ensures forall j :: 0 <= j < |logs[c]| && IsNote(logs[c][j]) ==> !DroppedSince(logs[c], j)
      ensures tcp[c].fd != NO_SOCKET ==>
        tcp[c].outOff <= |tcp[c].out|
        && kernel.memo[c].accepted + tcp[c].out[tcp[c].outOff..] == BytesSince(logs[c], |logs[c]|, GivenBytes)
        && kernel.memo[c].received == BytesSince(logs[c], |logs[c]|, DeliveredBytes)
        && !kernel.memo[c].over && (kernel.memo[c].refused ==> tcp[c].sendFailed)
    {
      assert Fits(At(c)) by { assert c == 0 || c == 1; }
      ContractKept(logs[c]);
      BytesRead(logs[c], |logs[c]|);
    }
  }

  // ---- Lines ----

  lemma FitsBare(l: Line)
    requires Fits(l)
    ensures Bare(l)
  {
  }

  lemma FitsLength(l: Line)
    requires Fits(l)
    ensures l.slot.outOff <= |l.slot.out|
  {
  }

  lemma OpenHasSocket(l: Line)
    requires Fits(l)
    ensures l.slot.fd >= NO_SOCKET && (l.slot.fd != NO_SOCKET ==> l.slot.connecting != l.slot.connected)
    ensures l.slot.connected || l.slot.connecting || l.slot.sendFailed || Queued(l.slot) ==> l.slot.fd >= 0
    ensures l.slot.sendFailed ==> l.slot.connected
  {
  }

  lemma DrainedNothing(a: Line)
    ensures Drained(a, a)
  {
    assert a.log[|a.log|..] == [];
  }

  lemma DrainedTwice(a: Line, b: Line, c: Line)
    requires Drained(a, b) && Drained(b, c)
    ensures Drained(a, c)
  {
    assert c.log[|a.log|..] == b.log[|a.log|..] + c.log[|b.log|..];
  }

  lemma TakenMore(a: Line, b: Line, bytes: Bytes, n: nat, wouldBlock: bool)
    requires Drained(a, b) && 0 < n <= |bytes|
    ensures Drained(a, Line(b.slot.(outOff := b.slot.outOff + n), b.log + [Taken(bytes[..n])], b.opens,
                            Sent(b.memo, bytes, n, wouldBlock)))
  {
    assert (b.log + [Taken(bytes[..n])])[|a.log|..] == b.log[|a.log|..] + [Taken(bytes[..n])];
  }

  lemma DrainedSilently(a: Line, b: Line)
    requires Drained(a, b)
    ensures Continues(a.log, b.log, [])
  {
    SilentIsNoNote(b.log[|a.log|..]);
  }

  lemma LaterIsSilent(a: Line, b: Line)
    requires Later(a, b)
    ensures Continues(a.log, b.log, [])
  {
  }

  lemma DroppedAndOpened(a: seq<Happening>)
    ensures Continues(a, a + [Dropped, Opened], []) && Gone(a, a + [Dropped, Opened])
  {
    var hs := [Dropped, Opened];
    assert (a + hs)[|a|..] == hs && hs[0] == Dropped;
    SilentIsNoNote(hs);
  }

  lemma ClosedSilently(a: seq<Happening>, b: seq<Happening>)
    requires a < b && b[|b| - 1] == Dropped && OnlyTaken(b[|a|..|b| - 1])
    ensures Continues(a, b, []) && Gone(a, b)
  {
    var hs := b[|a|..];
    assert hs[|hs| - 1] == Dropped;
    forall k | 0 <= k < |hs| ensures !IsNote(hs[k]) {
      if k < |hs| - 1 {
        assert hs[k] == b[|a|..|b| - 1][k];
      }
    }
    SilentIsNoNote(hs);
  }

  lemma SentSilently(a: seq<Happening>, b: seq<Happening>, bytes: Bytes)
    requires a + [Given(bytes)] <= b && OnlyTaken(b[|a| + 1..])
    ensures Continues(a, b, [])
  {
    var hs := b[|a|..];
    assert a <= b && hs[0] == Given(bytes);
    forall k | 0 <= k < |hs| ensures !IsNote(hs[k]) {
      if k > 0 {
        assert hs[k] == b[|a| + 1..][k - 1];
      }
    }
    SilentIsNoNote(hs);
  }

  // ---- What a turn amounts to ----

  lemma ToldSince(notes: seq<Happening>, gone: bool, gone': bool, m0: Memory, m1: Memory, m2: Memory)
    requires Told(notes, gone, m1, m2) && m0.recvs == m1.recvs && (gone ==> gone')
    ensures Told(notes, gone', m0, m2) && m2.recvs > m0.recvs
  {
  }

  lemma ServedStill(a: Line, b: Line, c: Line, re: Ready, notes: seq<Happening>)
    requires ServedOn(a, b, re, notes) && Later(b, c) && Continues(a.log, b.log, notes)
    ensures ServedOn(a, c, re, notes)
  {
    hide Served, Continues, Gone;
    ContinueTwice(a.log, b.log, c.log, notes, []);
    StillServed(a.slot, re, notes, Gone(a.log, b.log), a.memo, b.memo, Gone(a.log, c.log), c.memo);
  }

  lemma NoSocketServed(a: Line, b: Line, re: Ready)
    requires a.slot.fd == NO_SOCKET
    ensures ServedOn(a, b, re, [])
  {
  }

  // An entry whose turn comes after callbacks.
  lemma ServedLate(a: Line, b: Line, c: Line, re: Ready, notes: seq<Happening>)
    requires Fits(a) && Fits(b) && Later(a, b) && a.slot.fd != NO_SOCKET && c.memo.sends >= b.memo.sends
    requires Continues(b.log, c.log, notes)
    requires b.slot.fd == a.slot.fd && b.slot.gen == a.slot.gen ==> ServedOn(b, c, re, notes)
    ensures Gone(a.log, c.log) || ServedOn(a, c, re, notes)
  {
    hide Watch, Continues, Gone, Served;
    ContinueTwice(a.log, b.log, c.log, [], notes);
    if !Gone(a.log, c.log) {
      ServedSince(a, b, re, notes, Gone(b.log, c.log), c.memo);
    }
  }

  // A channel over one turn: what was parked, the delivery, and the tick.
  lemma Turn(start: seq<Happening>, a: Line, b: Line, c: Line, parked: seq<Happening>, notes: seq<Happening>, re: Ready)
    requires Continues(start, a.log, parked) && Continues(a.log, b.log, notes) && Later(b, c)
    ensures Continues(start, c.log, parked + notes)
    ensures parked == [] ==> parked + notes == notes
    ensures ServedOn(a, b, re, notes) ==> ServedOn(a, c, re, notes)
    ensures Gone(a.log, b.log) ==> Gone(a.log, c.log)
  {
    hide Continues, Gone, ServedOn;
    LaterIsSilent(b, c);
    ContinueTwice(a.log, b.log, c.log, notes, []);
    ContinueTwice(start, a.log, c.log, parked, notes + []);
    assert notes + [] == notes;
    if ServedOn(a, b, re, notes) {
      ServedStill(a, b, c, re, notes);
    }
  }
}
