/** When the cutting of the stream into reads matters on the control channel: a read that meets a forged frame or
    overruns the cap is lost whole, so what was in it is delivered only if it was cut off before. */
module ControlCuts {
  import opened Wire
  import opened Framing
  import opened Rtsp

  // The authentic frames at the front of a buffer, as far as their text fits: the text, and the bytes they take.
  datatype Lead = Lead(text: Bytes, len: nat)

  function Leading(open: Open, ctr: Word64, buf: Bytes, room: nat): Lead
    decreases |buf|
  {
    if !Whole(buf) then Lead([], 0)
    else
      match OpenOne(open, ctr, buf)
      case None => Lead([], 0)
      case Some(p) =>
        if |p| > room then Lead([], 0)
        else Behind(p, Need(buf), Leading(open, U64(ctr + 1), buf[Need(buf)..], room - |p|))
  }

  function Behind(p: Bytes, n: nat, l: Lead): Lead { Lead(p + l.text, n + l.len) }

  // The most text that reads of d can bring in before one of them fails.
  function Readable(open: Open, encrypted: bool, s: Inbound, d: Bytes): Bytes
    requires |s.rx| <= RX_CAP
  {
    if encrypted then Leading(open, s.ctr, s.enc + d, RX_CAP - |s.rx|).text else d[..Min(|d|, RX_CAP - |s.rx|)]
  }

  // Every cutting delivers the messages of one read and ends like it; alive, also in the same state.
  ghost predicate CutsAgree(open: Open, encrypted: bool, s: Inbound, d: Bytes)
  {
    forall segments :: Concat(segments) == d
      ==> SameEnd(ReadAll(open, encrypted, s, segments), OnRead(open, encrypted, s, d))
  }

  predicate SameEnd(a: Read, b: Read)
  {
    a.msgs == b.msgs && a.next.failed == b.next.failed && (!b.next.failed ==> a.next == b.next)
  }

  /** Exactly when reads do not matter on the control channel: every way of cutting a stream delivers the messages of
      one read and fails like it if and only if the one read succeeds, or no message is complete in the text that the
      authentic frames before the failure bring within the cap. */
  lemma CutsAgreeExactly(open: Open, encrypted: bool, s: Inbound, d: Bytes)
    requires Settled(encrypted, s)
    ensures CutsAgree(open, encrypted, s, d)
      <==> !OnRead(open, encrypted, s, d).next.failed || ParseAll(s.rx + Readable(open, encrypted, s, d)).msgs == []
  {
    hide OnRead, ReadAll, ParseAll, Readable;
    assert |s.rx| <= RX_CAP;
    hide Settled;
    var one := OnRead(open, encrypted, s, d);
    if !one.next.failed || ParseAll(s.rx + Readable(open, encrypted, s, d)).msgs == [] {
      forall segments | Concat(segments) == d ensures SameEnd(ReadAll(open, encrypted, s, segments), one) {
        if one.next.failed {
          SilentCuts(open, encrypted, s, segments);
          FailedIsSilent(open, encrypted, s, d);
        } else {
          PiecesNeverWorse(open, encrypted, s, segments);
        }
      }
    } else {
      var x, y := TellingCut(open, encrypted, s, d);
      ReadTwoOfThem(open, encrypted, s, x, y);
      FailedIsSilent(open, encrypted, s, d);
      assert Concat([x, y]) == d;
    }
  }

  lemma FailedIsSilent(open: Open, encrypted: bool, s: Inbound, d: Bytes)
    requires OnRead(open, encrypted, s, d).next.failed
    ensures OnRead(open, encrypted, s, d).msgs == []
  {
    hide OpenAll, ParseAll;
  }

  lemma ReadTwoOfThem(open: Open, encrypted: bool, s: Inbound, x: Bytes, y: Bytes)
    ensures Concat([x, y]) == x + y
    ensures OnRead(open, encrypted, s, x).msgs <= ReadAll(open, encrypted, s, [x, y]).msgs
  {
    hide OnRead;
    assert [x, y][1..] == [y] && [y][1..] == [] && y + [] == y;
    assert Concat([y]) == y;
  }

  // ---- Cutting never delivers more than the leading frames hold ----

  lemma {:induction false} SilentCuts(open: Open, encrypted: bool, s: Inbound, segments: seq<Bytes>)
    requires Settled(encrypted, s) && |s.rx| <= RX_CAP && OnRead(open, encrypted, s, Concat(segments)).next.failed
    requires ParseAll(s.rx + Readable(open, encrypted, s, Concat(segments))).msgs == []
    ensures var r := ReadAll(open, encrypted, s, segments); r.next.failed && r.msgs == []
    decreases |segments|
  {
    hide OnRead, Settled, Readable, ParseAll;
    if segments == [] {
      SettledIsAlive(encrypted, s);
      ReadNothing(open, encrypted, s);
    } else {
      var r := OnRead(open, encrypted, s, segments[0]);
      if r.next.failed {
        FailedIsSilent(open, encrypted, s, segments[0]);
        DeadIsSilent(open, encrypted, r.next, segments[1..]);
      } else {
        SilentPiece(open, encrypted, s, segments[0], Concat(segments[1..]));
        SilentCuts(open, encrypted, r.next, segments[1..]);
      }
    }
  }

  lemma SettledIsAlive(encrypted: bool, s: Inbound)
    requires Settled(encrypted, s)
    ensures !s.failed
  {
  }

  lemma {:induction false} DeadIsSilent(open: Open, encrypted: bool, s: Inbound, segments: seq<Bytes>)
    requires s.failed
    ensures ReadAll(open, encrypted, s, segments) == Read(s, [])
    decreases |segments|
  {
    if segments != [] {
      DeadIsSilent(open, encrypted, s, segments[1..]);
    }
  }

  // A piece that does not fail is read silently and leaves a stream that is still silent.
  lemma SilentPiece(open: Open, encrypted: bool, s: Inbound, x: Bytes, y: Bytes)
    requires Settled(encrypted, s) && |s.rx| <= RX_CAP && OnRead(open, encrypted, s, x + y).next.failed
    requires ParseAll(s.rx + Readable(open, encrypted, s, x + y)).msgs == []
      && !OnRead(open, encrypted, s, x).next.failed
    ensures var r := OnRead(open, encrypted, s, x);
      && r.msgs == [] && Settled(encrypted, r.next) && |r.next.rx| <= RX_CAP
      && OnRead(open, encrypted, r.next, y).next.failed
      && ParseAll(r.next.rx + Readable(open, encrypted, r.next, y)).msgs == []
  {
    hide OpenAll, ParseAll, Leading, Settled;
    ReadSettles(open, encrypted, s, x);
    SettledIsAlive(encrypted, s);
    if encrypted {
      var o := OpenAll(open, s.ctr, s.enc + x);
      var o2 := OpenAll(open, o.ctr, o.rest + y);
      assert s.enc + (x + y) == s.enc + x + y;
      OpenSplits(open, s.ctr, s.enc + x, y);
      LeadingSplits(open, s.ctr, s.enc + x, y, RX_CAP - |s.rx|);
      var f := Leading(open, o.ctr, o.rest + y, RX_CAP - |s.rx| - |o.plain|).text;
      assert s.rx + (o.plain + f) == s.rx + o.plain + f;
      assert s.rx + (o.plain + o2.plain) == s.rx + o.plain + o2.plain;
      SilentPrefix(s.rx + o.plain, f);
    } else {
      var f := y[..Min(|y|, RX_CAP - |s.rx + x|)];
      assert (x + y)[..Min(|x + y|, RX_CAP - |s.rx|)] == x + f;
      assert s.rx + (x + f) == s.rx + x + f;
      assert s.rx + (x + y) == s.rx + x + y;
      SilentPrefix(s.rx + x, f);
    }
  }

  lemma SilentPrefix(x: Bytes, y: Bytes)
    requires ParseAll(x + y).msgs == []
    ensures ParseAll(x) == Parsed([], x)
  {
    hide ParseAll;
    ParseSplits(x, y);
    NoneParsed(x);
  }

  lemma NoneParsed(x: Bytes)
    ensures ParseAll(x).msgs == [] ==> ParseAll(x).rest == x
  {
  }

  lemma {:induction false} LeadingSplits(open: Open, ctr: Word64, x: Bytes, y: Bytes, room: nat)
    requires var o := OpenAll(open, ctr, x); o.ok && |o.plain| <= room
    ensures var o := OpenAll(open, ctr, x);
      && |o.rest| <= |x|
      && Leading(open, ctr, x + y, room)
        == Behind(o.plain, |x| - |o.rest|, Leading(open, o.ctr, o.rest + y, room - |o.plain|))
    decreases |x|
  {
    hide Need, OpenOne, OpenAll, Leading, Whole;
    if Whole(x) {
      NeedPositive(x);
      LeadingStep(open, ctr, x, y, room);
      var p := OpenOne(open, ctr, x).value;
      var t := x[Need(x)..];
      var a := OpenAll(open, U64(ctr + 1), t);
      LeadingSplits(open, U64(ctr + 1), t, y, room - |p|);
      BehindTwice(p, Need(x), a.plain, |t| - |a.rest|, Leading(open, a.ctr, a.rest + y, room - |p| - |a.plain|));
    } else {
      NotWholeOpens(open, ctr, x);
      BehindNothing(Leading(open, ctr, x + y, room));
    }
  }

  lemma LeadingStep(open: Open, ctr: Word64, x: Bytes, y: Bytes, room: nat)
    requires Whole(x) && OpenAll(open, ctr, x).ok && |OpenAll(open, ctr, x).plain| <= room
    ensures |x| >= 2 && Need(x) <= |x| && OpenOne(open, ctr, x).Some?
    ensures var p, t := OpenOne(open, ctr, x).value, x[Need(x)..];
      && OpenAll(open, ctr, x) == Before(p, OpenAll(open, U64(ctr + 1), t)) && |p| <= room
      && Leading(open, ctr, x + y, room) == Behind(p, Need(x), Leading(open, U64(ctr + 1), t + y, room - |p|))
  {
    hide Need;
    WholeGrows(x, y);
  }

  lemma NotWholeOpens(open: Open, ctr: Word64, x: Bytes)
    requires !Whole(x)
    ensures OpenAll(open, ctr, x) == Opened([], x, ctr, true)
  {
  }

  lemma BehindTwice(p: Bytes, n: nat, q: Bytes, m: nat, l: Lead)
    ensures Behind(p, n, Behind(q, m, l)) == Behind(p + q, n + m, l)
  {
    assert p + (q + l.text) == p + q + l.text;
  }

  lemma BehindNothing(l: Lead)
    ensures Behind([], 0, l) == l
  {
    assert [] + l.text == l.text;
  }

  // ---- Cutting behind the leading frames delivers all they hold ----

  lemma TellingCut(open: Open, encrypted: bool, s: Inbound, d: Bytes) returns (x: Bytes, y: Bytes)
    requires Settled(encrypted, s) && |s.rx| <= RX_CAP
    requires ParseAll(s.rx + Readable(open, encrypted, s, d)).msgs != []
    ensures d == x + y && OnRead(open, encrypted, s, x).msgs != []
  {
    hide OpenAll, ParseAll, Leading, Whole, Complete;
    if encrypted {
      var l := Leading(open, s.ctr, s.enc + d, RX_CAP - |s.rx|);
      LeadingBounds(open, s.ctr, s.enc + d, RX_CAP - |s.rx|);
      if l.len < |s.enc| {
        BeginsBehind(open, s.ctr, s.enc, d, RX_CAP - |s.rx|);
        assert s.rx + [] == s.rx;
        IncompleteIsSilent(s.rx);
      }
      var n := l.len - |s.enc|;
      x, y := d[..n], d[n..];
      assert s.enc + x == (s.enc + d)[..l.len];
      LeadingOpens(open, s.ctr, s.enc + d, RX_CAP - |s.rx|);
    } else {
      var n := Min(|d|, RX_CAP - |s.rx|);
      x, y := d[..n], d[n..];
    }
  }

  lemma IncompleteIsSilent(x: Bytes)
    requires Complete(x).None?
    ensures ParseAll(x).msgs == []
  {
  }

  // An incomplete frame that was waiting is either completed or still everything there is.
  lemma BeginsBehind(open: Open, ctr: Word64, enc: Bytes, d: Bytes, room: nat)
    requires !Whole(enc) && Leading(open, ctr, enc + d, room).len < |enc|
    ensures Leading(open, ctr, enc + d, room).text == []
  {
    hide Leading;
    LeadingBounds(open, ctr, enc + d, room);
    if Leading(open, ctr, enc + d, room).len > 0 {
      WholeWithin(enc, d);
    }
  }

  lemma WholeWithin(enc: Bytes, d: Bytes)
    requires Whole(enc + d) && Need(enc + d) < |enc|
    ensures Whole(enc)
  {
    if |enc| >= 2 {
      assert (enc + d)[0] == enc[0] && (enc + d)[1] == enc[1];
    }
  }

  lemma {:induction false} LeadingBounds(open: Open, ctr: Word64, buf: Bytes, room: nat)
    ensures var l := Leading(open, ctr, buf, room);
      && l.len <= |buf| && |l.text| <= room && (l.len == 0 ==> l.text == [])
      && (l.len > 0 ==> Whole(buf) && Need(buf) <= l.len)
    decreases |buf|
  {
    hide Need, OpenOne;
    if Whole(buf) && OpenOne(open, ctr, buf).Some? {
      NeedPositive(buf);
      var p := OpenOne(open, ctr, buf).value;
      if |p| <= room {
        LeadingBounds(open, U64(ctr + 1), buf[Need(buf)..], room - |p|);
      }
    }
  }

  lemma {:induction false} LeadingOpens(open: Open, ctr: Word64, buf: Bytes, room: nat)
    ensures var l := Leading(open, ctr, buf, room);
      l.len <= |buf| && var o := OpenAll(open, ctr, buf[..l.len]); o.ok && o.plain == l.text && o.rest == []
    decreases |buf|
  {
    hide Need, OpenOne, OpenAll;
    LeadingBounds(open, ctr, buf, room);
    var l := Leading(open, ctr, buf, room);
    if l.len == 0 {
      NothingOpens(open, ctr, buf[..0]);
    } else {
      NeedPositive(buf);
      var p := OpenOne(open, ctr, buf).value;
      var t := buf[Need(buf)..];
      LeadingOpens(open, U64(ctr + 1), t, room - |p|);
      var m := Leading(open, U64(ctr + 1), t, room - |p|).len;
      SliceBehind(buf, Need(buf), m);
      FirstOpens(open, ctr, buf, l.len);
    }
  }

  lemma NothingOpens(open: Open, ctr: Word64, b: Bytes)
    requires b == []
    ensures OpenAll(open, ctr, b) == Opened([], [], ctr, true)
  {
  }

  lemma SliceBehind(b: Bytes, n: nat, m: nat)
    requires n + m <= |b|
    ensures b[n..][..m] == b[..n + m][n..]
  {
  }

  // The first frame opens the same in a buffer cut behind it.
  lemma FirstOpens(open: Open, ctr: Word64, buf: Bytes, n: nat)
    requires Whole(buf) && OpenOne(open, ctr, buf).Some? && Need(buf) <= n <= |buf|
    ensures |buf[..n]| >= Need(buf)
    ensures OpenAll(open, ctr, buf[..n])
      == Before(OpenOne(open, ctr, buf).value, OpenAll(open, U64(ctr + 1), buf[..n][Need(buf)..]))
  {
    var b := buf[..n];
    assert b[0] == buf[0] && b[1] == buf[1] && b[2..Need(buf)] == buf[2..Need(buf)] && b[..2] == buf[..2];
  }
}
