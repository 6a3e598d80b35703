/** What the parsers read out of a message that is written the usual way: a first line, header lines and a body. */
module RtspText {
  import opened Wire
  import opened Text
  import opened Framing
  import opened Rtsp
  import Events

  datatype Field = Field(name: Bytes, value: Bytes)

  predicate OneLine(s: Bytes) { s != [] && s[0] != CR && forall k :: 0 <= k < |s| ==> s[k] != LF }
  predicate Tight(s: Bytes) { s != [] && !IsSpace(s[0]) && !IsSpace(s[|s| - 1]) }
  predicate FieldOk(f: Field)
  {
    OneLine(f.name) && Tight(f.name) && OneLine(f.value) && Tight(f.value)
    && forall k :: 0 <= k < |f.name| ==> f.name[k] != COLON
  }

  function LineOf(f: Field): Bytes { f.name + [COLON, SPACE] + f.value }

  function LinesOf(first: Bytes, fields: seq<Field>): (r: seq<Bytes>)
    ensures |r| == |fields| + 1
  {
    [first] + seq(|fields|, i requires 0 <= i < |fields| => LineOf(fields[i]))
  }

  function Join(lines: seq<Bytes>): Bytes
    requires lines != []
  {
    if |lines| == 1 then lines[0] else lines[0] + CRLF + Join(lines[1..])
  }

  function WriteMessage(first: Bytes, fields: seq<Field>, body: Bytes): Bytes
  {
    Join(LinesOf(first, fields)) + CRLF + CRLF + body
  }

  // The value a reader sees under each lower-cased name: the last one given.
  function MapOf(fields: seq<Field>, n: nat): HeaderMap
    requires n <= |fields|
  {
    if n == 0 then map[] else MapOf(fields, n - 1)[Lower(fields[n - 1].name) := fields[n - 1].value]
  }

  // ---- Finding the end of the head ----

  predicate AllLines(lines: seq<Bytes>) { forall k :: 0 <= k < |lines| ==> OneLine(lines[k]) }

  lemma JoinMore(lines: seq<Bytes>, tail: Bytes)
    requires |lines| > 1
    ensures Join(lines) + tail == lines[0] + CRLF + (Join(lines[1..]) + tail)
    ensures |Join(lines)| == |lines[0]| + 2 + |Join(lines[1..])|
  {
  }

  lemma {:induction false} NoBlankInside(lines: seq<Bytes>, tail: Bytes)
    requires lines != [] && AllLines(lines) && |tail| >= 2 && tail[..2] == CRLF
    ensures var x := Join(lines) + tail;
      x[0] != CR && forall i :: 0 <= i < |Join(lines)| ==> !BlankAt(x, i)
    decreases |lines|
  {
    var x, n := Join(lines) + tail, |lines[0]|;
    if |lines| > 1 {
      var y := Join(lines[1..]) + tail;
      NoBlankInside(lines[1..], tail);
      JoinMore(lines, tail);
      assert x[n..n + 2] == CRLF && x[n + 2..] == y;
      forall i | 0 <= i < |Join(lines)| ensures !BlankAt(x, i) {
        if n + 2 <= i {
          ShiftedBlank(x, y, n + 2, i);
        } else if i == n {
          assert x[n + 2] == y[0];
        }
      }
    } else {
      forall i | 0 <= i < |Join(lines)| ensures !BlankAt(x, i) {
        assert x[i] == lines[0][i];
      }
    }
  }

  lemma ShiftedBlank(x: Bytes, y: Bytes, n: nat, i: nat)
    requires n <= i && n <= |x| && x[n..] == y
    ensures BlankAt(x, i) <==> BlankAt(y, i - n)
  {
    if i + 4 <= |x| {
      assert y[i - n] == x[i] && y[i - n + 1] == x[i + 1] && y[i - n + 2] == x[i + 2] && y[i - n + 3] == x[i + 3];
    }
  }

  lemma HeadEnd(lines: seq<Bytes>, body: Bytes)
    requires lines != [] && AllLines(lines)
    ensures FindBlank(Join(lines) + CRLF + CRLF + body, 0) == Some(|Join(lines)|)
  {
    hide BlankAt;
    var tail := CRLF + CRLF + body;
    var x := Join(lines) + CRLF + CRLF + body;
    assert x == Join(lines) + tail;
    NoBlankInside(lines, tail);
    assert BlankAt(x, |Join(lines)|) by { BlankHere(x, |Join(lines)|, body); }
  }

  lemma BlankHere(x: Bytes, n: nat, body: Bytes)
    requires n + 4 <= |x| && x[n..] == CRLF + CRLF + body
    ensures BlankAt(x, n)
  {
    var t := CRLF + CRLF + body;
    assert x[n] == t[0] && x[n + 1] == t[1] && x[n + 2] == t[2] && x[n + 3] == t[3];
  }

  // ---- Splitting ----

  lemma {:induction false} IndexShift(s: Bytes, c: Byte, at: nat, from: nat)
    requires at + from <= |s|
    ensures IndexOf(s, c, at + from) == at + IndexOf(s[at..], c, from)
    decreases |s| - from
  {
    if at + from < |s| && s[at + from] != c {
      IndexShift(s, c, at, from + 1);
    }
  }

  lemma {:induction false} SplitShift(s: Bytes, c: Byte, at: nat, from: nat)
    requires at + from <= |s|
    ensures SplitFrom(s, c, at + from) == SplitFrom(s[at..], c, from)
    decreases |s| - from
  {
    hide IndexOf, SplitFrom;
    IndexShift(s, c, at, from);
    var p := IndexOf(s[at..], c, from);
    SplitHere(s, c, at + from);
    SplitHere(s[at..], c, from);
    if p < |s| - at {
      SplitShift(s, c, at, p + 1);
      InnerSlice(s, at, from, p);
    } else {
      InnerSlice(s, at, from, |s| - at);
    }
  }

  lemma SplitHere(s: Bytes, c: Byte, from: nat)
    requires from <= |s|
    ensures SplitFrom(s, c, from) ==
      var p := IndexOf(s, c, from); if p == |s| then [s[from..p]] else [s[from..p]] + SplitFrom(s, c, p + 1)
  {
    assert s[from..] == s[from..|s|];
  }

  lemma InnerSlice(s: Bytes, at: nat, from: nat, to: nat)
    requires from <= to && at + to <= |s|
    ensures s[at + from..at + to] == s[at..][from..to]
  {
  }

  lemma {:induction false} IndexIs(s: Bytes, c: Byte, from: nat, p: nat)
    requires from <= p <= |s| && (p < |s| ==> s[p] == c) && forall k :: from <= k < p ==> s[k] != c
    ensures IndexOf(s, c, from) == p
    decreases p - from
  {
    if from < p {
      IndexIs(s, c, from + 1, p);
    }
  }

  lemma SplitFirst(a: Bytes, c: Byte, rest: Bytes)
    requires forall k :: 0 <= k < |a| ==> a[k] != c
    ensures Split(a + [c] + rest, c) == [a] + Split(rest, c)
    ensures Split(a, c) == [a]
  {
    var s := a + [c] + rest;
    IndexIs(s, c, 0, |a|);
    IndexIs(a, c, 0, |a|);
    SplitShift(s, c, |a| + 1, 0);
    assert s[|a| + 1..] == rest && s[0..|a|] == a && a[0..] == a;
  }

  // The parser's lines: all but the last still end in CR.
  function Parted(lines: seq<Bytes>): (r: seq<Bytes>)
    requires lines != []
    ensures |r| == |lines|
  {
    seq(|lines|, i requires 0 <= i < |lines| => if i < |lines| - 1 then lines[i] + [CR] else lines[i])
  }

  lemma {:induction false} SplitJoin(lines: seq<Bytes>)
    requires lines != [] && AllLines(lines)
    ensures Split(Join(lines), LF) == Parted(lines)
    decreases |lines|
  {
    hide SplitFrom, Parted;
    PartedMore(lines);
    if |lines| == 1 {
      SplitFirst(lines[0], LF, []);
    } else {
      assert OneLine(lines[0]);
      assert Join(lines) == lines[0] + [CR] + [LF] + Join(lines[1..]);
      SplitFirst(lines[0] + [CR], LF, Join(lines[1..]));
      SplitJoin(lines[1..]);
    }
  }

  lemma PartedMore(lines: seq<Bytes>)
    requires lines != []
    ensures Parted(lines) == if |lines| == 1 then [lines[0]] else [lines[0] + [CR]] + Parted(lines[1..])
  {
  }

  // ---- Header lines ----

  lemma TightTrim(s: Bytes)
    requires Tight(s)
    ensures Trim(s) == s && Trim(s + [CR]) == s && Trim([SPACE] + s) == s
  {
    assert (s + [CR])[..|s|] == s;
    assert ([SPACE] + s)[1..] == s;
    assert TrimLeft(s) == s && TrimLeft(s + [CR]) == s + [CR] && TrimLeft([SPACE] + s) == TrimLeft(s);
    assert TrimRight(s) == s && TrimRight(s + [CR]) == TrimRight(s);
  }

  lemma TightLower(s: Bytes)
    requires Tight(s)
    ensures Tight(Lower(s))
  {
  }

  lemma LineTight(f: Field)
    requires FieldOk(f)
    ensures Tight(LineOf(f)) && OneLine(LineOf(f))
  {
  }

  lemma FieldReads(f: Field, cr: Bytes)
    requires FieldOk(f) && (cr == [] || cr == [CR])
    ensures HeaderOf(LineOf(f) + cr) == Some((Lower(f.name), f.value))
  {
    hide Trim, Lower, Tight;
    var t := LineOf(f);
    LineTight(f);
    TightTrim(t);
    assert t + [] == t;
    IndexIs(t, COLON, 0, |f.name|);
    assert t[..|f.name|] == f.name && t[|f.name| + 1..] == [SPACE] + f.value;
    TightLower(f.name);
    TightTrim(Lower(f.name));
    TightTrim(f.value);
    assert f.name != [] by { NameNonempty(f); }
  }

  lemma NameNonempty(f: Field)
    requires FieldOk(f)
    ensures f.name != []
  {
  }

  lemma PartedLine(first: Bytes, fields: seq<Field>, n: nat)
    requires n < |fields| && FieldOk(fields[n])
    ensures HeaderOf(Parted(LinesOf(first, fields))[n + 1]) == Some((Lower(fields[n].name), fields[n].value))
  {
    hide HeaderOf, LineOf, FieldOk;
    FieldReads(fields[n], []);
    FieldReads(fields[n], [CR]);
    assert LineOf(fields[n]) + [] == LineOf(fields[n]);
  }

  lemma {:induction false} HeadersRead(first: Bytes, fields: seq<Field>, n: nat)
    requires n <= |fields| && forall f :: f in fields ==> FieldOk(f)
    ensures HeadersTo(Parted(LinesOf(first, fields)), n + 1) == MapOf(fields, n)
    decreases n
  {
    hide HeaderOf, Parted, LinesOf, FieldOk;
    if n > 0 {
      HeadersRead(first, fields, n - 1);
      PartedLine(first, fields, n - 1);
    }
  }

  lemma LinesAreLines(first: Bytes, fields: seq<Field>)
    requires OneLine(first) && forall f :: f in fields ==> FieldOk(f)
    ensures AllLines(LinesOf(first, fields))
  {
    hide OneLine, FieldOk, LineOf;
    forall k | 0 <= k < |fields| + 1 ensures OneLine(LinesOf(first, fields)[k]) {
      if k > 0 {
        LineTight(fields[k - 1]);
      }
    }
  }

  // ---- Whole messages ----

  // A message whose Content-Length, if it has a body, says how long the body is.
  predicate Announced(fields: seq<Field>, body: Bytes)
  {
    var h := MapOf(fields, |fields|);
    if CONTENT_LENGTH in h then h[CONTENT_LENGTH] == Decimal(|body|) else body == []
  }

  lemma AnnouncedLength(fields: seq<Field>, body: Bytes)
    requires Announced(fields, body) && |body| < 0x8000_0000
    ensures ContentLength(MapOf(fields, |fields|)) == |body|
  {
    hide ParseInt, MapOf;
    DecimalParses(|body|);
    DecimalParses(0);
    assert Decimal(0) == [48];
  }

  lemma StatusTrims(first: Bytes, fields: seq<Field>)
    requires Tight(first)
    ensures Trim(Parted(LinesOf(first, fields))[0]) == first
  {
    hide Trim, Tight;
    TightTrim(first);
  }

  lemma WrittenHead(first: Bytes, fields: seq<Field>, body: Bytes)
    requires OneLine(first) && forall f :: f in fields ==> FieldOk(f)
    ensures var t := WriteMessage(first, fields, body); var e := |Join(LinesOf(first, fields))|;
      && FindBlank(t, 0) == Some(e) && |t| == e + 4 + |body| && t[e + 4..] == body
      && Split(t[..e], LF) == Parted(LinesOf(first, fields))
      && HeaderLines(t, e) == MapOf(fields, |fields|)
  {
    hide OneLine, FieldOk, Join, LinesOf, Parted, SplitFrom, HeadersTo, FindBlank;
    var lines := LinesOf(first, fields);
    LinesAreLines(first, fields);
    HeadEnd(lines, body);
    SplitJoin(lines);
    HeadersRead(first, fields, |fields|);
    var t := WriteMessage(first, fields, body);
    assert t[..|Join(lines)|] == Join(lines);
  }

  /** A reply reads back as it was written: its first line, under each lower-cased name the last value given, and a
      body of exactly the announced length. */
  lemma MessageReadsBack(first: Bytes, fields: seq<Field>, body: Bytes)
    requires OneLine(first) && Tight(first) && (forall f :: f in fields ==> FieldOk(f))
    requires Announced(fields, body) && |body| < 0x8000_0000
    ensures OneMessage(WriteMessage(first, fields, body))
    ensures MessageOf(WriteMessage(first, fields, body)) == Message(first, MapOf(fields, |fields|), body)
  {
    hide OneLine, FieldOk, Join, LinesOf, Parted, SplitFrom, HeadersTo, FindBlank, MapOf, Tight, ContentLength,
      Announced, WriteMessage, Trim, BlankAt, HeaderLines;
    WrittenHead(first, fields, body);
    AnnouncedLength(fields, body);
    StatusTrims(first, fields);
    HeadReads(WriteMessage(first, fields, body), |Join(LinesOf(first, fields))|);
  }

  // What the parser makes of a text whose head ends at e.
  lemma HeadReads(t: Bytes, e: nat)
    requires FindBlank(t, 0) == Some(e) && e + 4 <= |t| && ContentLength(HeaderLines(t, e)) == |t| - e - 4
    ensures OneMessage(t) && MessageOf(t) == Message(Trim(Split(t[..e], LF)[0]), HeaderLines(t, e), t[e + 4..])
  {
    hide SplitFrom, FindBlank, HeaderLines, ContentLength, Trim, BlankAt;
    assert Complete(t) == Some(e);
    assert t[e + 4..Total(t, e)] == t[e + 4..];
  }

  // The status line of a reply: protocol, code, reason.
  function StatusLine(protocol: Bytes, code: nat, reason: Bytes): Bytes
  {
    protocol + [SPACE] + (Decimal(code) + [SPACE] + reason)
  }

  lemma {:induction false} DecimalNoSpace(n: nat)
    ensures forall k :: 0 <= k < |Decimal(n)| ==> Decimal(n)[k] != SPACE
    decreases n
  {
    if n >= 10 {
      DecimalNoSpace(n / 10);
    }
  }

  /** The code of a reply is the number in its status line. */
  lemma CodeReadsBack(m: Message, version: Bytes, code: nat, reason: Bytes)
    requires code < 1000 && forall k :: 0 <= k < |version| ==> version[k] != SPACE
    requires m.status == StatusLine(RTSP_SLASH + version, code, reason)
      || m.status == StatusLine(HTTP_SLASH + version, code, reason)
    ensures ReplyCode(m) == Some(code)
  {
    hide SplitFrom, Digits, Decimal;
    var p := if StartsWith(m.status, RTSP_SLASH) then RTSP_SLASH else HTTP_SLASH;
    SlashesDiffer(m.status, version, code, reason);
    SplitFirst(p + version, SPACE, Decimal(code) + [SPACE] + reason);
    DecimalNoSpace(code);
    SplitFirst(Decimal(code), SPACE, reason);
    DecimalParses(code);
  }

  lemma SlashesDiffer(status: Bytes, version: Bytes, code: nat, reason: Bytes)
    requires status == StatusLine(RTSP_SLASH + version, code, reason)
      || status == StatusLine(HTTP_SLASH + version, code, reason)
    ensures StartsWith(status, RTSP_SLASH) <==> status == StatusLine(RTSP_SLASH + version, code, reason)
    ensures StartsWith(status, RTSP_SLASH) || StartsWith(status, HTTP_SLASH)
    ensures forall k :: 0 <= k < 5 ==> RTSP_SLASH[k] != SPACE && HTTP_SLASH[k] != SPACE
  {
    hide Decimal;
    assert StatusLine(RTSP_SLASH + version, code, reason)[..5] == RTSP_SLASH;
    assert StatusLine(HTTP_SLASH + version, code, reason)[..5] == HTTP_SLASH;
    assert RTSP_SLASH[0] == 82 && HTTP_SLASH[0] == 72;
  }

  // ---- Requests on the event channel ----

  lemma {:induction false} FieldsRead(first: Bytes, fields: seq<Field>, n: nat)
    requires n <= |fields| && forall f :: f in fields ==> FieldOk(f)
    requires NamesNoField(Parted(LinesOf(first, fields))[0])
    ensures var r := Events.FieldsTo(Parted(LinesOf(first, fields)), n + 1); var h := MapOf(fields, n);
      && r.cseq == (if CSEQ in h then h[CSEQ] else [])
      && r.contentLen == (if CONTENT_LENGTH in h then ToInt(h[CONTENT_LENGTH]) else 0)
    decreases n
  {
    hide HeaderOf, Parted, LinesOf, FieldOk, ToInt, Lower;
    if n > 0 {
      FieldsRead(first, fields, n - 1);
      PartedLine(first, fields, n - 1);
      KeysDiffer();
    }
  }

  lemma KeysDiffer()
    ensures CSEQ != CONTENT_LENGTH
  {
    assert |CSEQ| == 4 && |CONTENT_LENGTH| == 14;
  }

  lemma AnnouncedInt(fields: seq<Field>, body: Bytes)
    requires Announced(fields, body) && |body| < 0x8000_0000
    ensures var h := MapOf(fields, |fields|); (if CONTENT_LENGTH in h then ToInt(h[CONTENT_LENGTH]) else 0) == |body|
  {
    hide ParseInt, Decimal, MapOf;
    DecimalParses(|body|);
  }

  // Read as a header line, the line sets neither of the fields that matter to an answer. A request line with an
  // absolute URI reads as a header named by everything before its first colon.
  predicate NamesNoField(line: Bytes)
  {
    match HeaderOf(line)
    case None => true
    case Some(h) => h.0 != CSEQ && h.0 != CONTENT_LENGTH
  }

  /** A pushed request is taken whole, and the sequence number that will be echoed is its CSeq. */
  lemma RequestReadsBack(first: Bytes, fields: seq<Field>, body: Bytes)
    requires OneLine(first) && Tight(first) && (forall f :: f in fields ==> FieldOk(f))
    requires NamesNoField(first)
    requires Announced(fields, body) && |body| < 0x8000_0000
    ensures var h := MapOf(fields, |fields|); var t := WriteMessage(first, fields, body);
      Events.OneRequest(t) && Events.CSeqOf(t) == if CSEQ in h then h[CSEQ] else []
  {
    hide OneLine, FieldOk, Join, LinesOf, Parted, SplitFrom, HeadersTo, Events.FieldsTo, FindBlank, MapOf, Tight, ToInt,
      Announced, WriteMessage, Trim;
    WrittenHead(first, fields, body);
    AnnouncedInt(fields, body);
    FirstLineAlike(first, fields);
    FieldsRead(first, fields, |fields|);
  }

  lemma FirstLineAlike(first: Bytes, fields: seq<Field>)
    requires Tight(first)
    ensures NamesNoField(Parted(LinesOf(first, fields))[0]) <==> NamesNoField(first)
  {
    hide Trim, Tight, Lower, IndexOf, Parted, LinesOf;
    StatusTrims(first, fields);
    TightTrim(first);
  }

  // ---- Answers on the event channel ----

  const OK_LINE: Bytes := StatusLine(RTSP_SLASH + Ascii("1.0"), 200, Ascii("OK"))
  const SERVER_FIELD: Field := Field(Ascii("Server"), Ascii("AirTunes/550.10"))

  function AnswerFields(cseq: Bytes): seq<Field>
  {
    [SERVER_FIELD] + if cseq == [] then [] else [Field(Ascii("CSeq"), cseq)]
  }

  // What a reader makes of an answer.
  function AnswerMessage(cseq: Bytes): Message
  {
    var server := map[Ascii("server") := Ascii("AirTunes/550.10")];
    Message(OK_LINE, if cseq == [] then server else server[CSEQ := cseq], [])
  }

  // Nothing, or a text without space around it or line breaks in it.
  predicate Clean(s: Bytes) { s == [] || (Tight(s) && LF !in s) }

  lemma AnswerIsWritten(cseq: Bytes)
    ensures Events.Response(cseq) == WriteMessage(OK_LINE, AnswerFields(cseq), [])
  {
    hide LineOf, StatusLine, Ascii, Join;
    StatusSpelled();
    ServerSpelled();
    CSeqSpelled(cseq);
    var server := LineOf(SERVER_FIELD);
    if cseq == [] {
      assert LinesOf(OK_LINE, AnswerFields(cseq)) == [OK_LINE, server];
      JoinTwo(OK_LINE, server);
      assert Events.Response(cseq) == OK_LINE + CRLF + server + CRLF + [] + CRLF;
    } else {
      var last := LineOf(Field(Ascii("CSeq"), cseq));
      assert LinesOf(OK_LINE, AnswerFields(cseq)) == [OK_LINE, server, last];
      JoinThree(OK_LINE, server, last);
      assert Events.Response(cseq) == OK_LINE + CRLF + server + CRLF + (last + CRLF) + CRLF;
    }
  }

  lemma JoinTwo(a: Bytes, b: Bytes)
    ensures Join([a, b]) + CRLF + CRLF + [] == a + CRLF + b + CRLF + [] + CRLF
  {
    assert [a, b][1..] == [b] && Join([b]) == b;
  }

  lemma JoinThree(a: Bytes, b: Bytes, c: Bytes)
    ensures Join([a, b, c]) + CRLF + CRLF + [] == a + CRLF + b + CRLF + (c + CRLF) + CRLF
  {
    assert [a, b, c][1..] == [b, c] && [b, c][1..] == [c] && Join([c]) == c;
    assert Join([a, b, c]) == a + CRLF + (b + CRLF + c);
  }

  lemma ServerSpelled()
    ensures LineOf(SERVER_FIELD) == Ascii("Server: AirTunes/550.10")
  {
  }

  lemma CSeqSpelled(cseq: Bytes)
    ensures LineOf(Field(Ascii("CSeq"), cseq)) == Events.CSEQ_FIELD + cseq
  {
    assert Ascii("CSeq") + [COLON, SPACE] == Events.CSEQ_FIELD;
  }

  lemma StatusSpelled()
    ensures OK_LINE == Ascii("RTSP/1.0 200 OK")
  {
    assert Decimal(2) == [50] && Decimal(20) == [50, 48] && Decimal(200) == [50, 48, 48];
  }

  lemma StatusTight()
    ensures Tight(OK_LINE) && OneLine(OK_LINE)
  {
    hide StatusLine;
    StatusSpelled();
  }

  lemma AnswerFieldsRead(cseq: Bytes)
    requires Clean(cseq)
    ensures forall f :: f in AnswerFields(cseq) ==> FieldOk(f)
    ensures MapOf(AnswerFields(cseq), |AnswerFields(cseq)|) == AnswerMessage(cseq).headers
    ensures CONTENT_LENGTH !in AnswerMessage(cseq).headers
  {
    NamesLowered();
    var fs := AnswerFields(cseq);
    hide Ascii, StatusLine;
    assert FieldOk(SERVER_FIELD) by { ServerFieldOk(); }
    assert cseq != [] ==> FieldOk(Field(Ascii("CSeq"), cseq)) by { CSeqFieldOk(cseq); }
    assert MapOf(fs, 0) == map[] && MapOf(fs, 1) == map[Ascii("server") := Ascii("AirTunes/550.10")];
  }

  lemma CSeqFieldOk(cseq: Bytes)
    requires Clean(cseq)
    ensures cseq != [] ==> FieldOk(Field(Ascii("CSeq"), cseq))
  {
    NamesLowered();
  }

  lemma ServerFieldOk()
    ensures FieldOk(SERVER_FIELD)
  {
  }

  lemma NamesLowered()
    ensures Lower(Ascii("Server")) == Ascii("server") && Lower(Ascii("CSeq")) == CSEQ
    ensures Ascii("server") != CSEQ && Ascii("server") != CONTENT_LENGTH && CSEQ != CONTENT_LENGTH
    ensures forall k :: 0 <= k < 4 ==> Ascii("CSeq")[k] != COLON && Ascii("CSeq")[k] != LF && !IsSpace(Ascii("CSeq")[k])
  {
    assert |CSEQ| == 4 && |CONTENT_LENGTH| == 14 && |Ascii("server")| == 6;
  }

  /** An answer reads back as one message: 200, no body, and the sequence number it was given, if any. */
  lemma AnswerReadsBack(cseq: Bytes)
    requires Clean(cseq)
    ensures OneMessage(Events.Response(cseq)) && MessageOf(Events.Response(cseq)) == AnswerMessage(cseq)
    ensures ReplyCode(AnswerMessage(cseq)) == Some(200)
  {
    hide OneLine, FieldOk, Tight, MapOf, WriteMessage, Events.Response, OneMessage, MessageOf, AnswerFields, ReplyCode,
      StatusLine;
    AnswerIsWritten(cseq);
    StatusTight();
    AnswerFieldsRead(cseq);
    MessageReadsBack(OK_LINE, AnswerFields(cseq), []);
    CodeReadsBack(AnswerMessage(cseq), Ascii("1.0"), 200, Ascii("OK"));
  }

  // ---- The sequence number of a request is clean ----

  lemma {:induction false} TrimLeftClean(s: Bytes)
    ensures var r := TrimLeft(s); (r == [] || !IsSpace(r[0])) && forall x :: x in r ==> x in s
  {
    if s != [] && IsSpace(s[0]) {
      TrimLeftClean(s[1..]);
    }
  }

  lemma {:induction false} TrimRightClean(s: Bytes)
    ensures TrimRight(s) <= s && (TrimRight(s) == [] || !IsSpace(TrimRight(s)[|TrimRight(s)| - 1]))
    decreases |s|
  {
    if s != [] && IsSpace(s[|s| - 1]) {
      TrimRightClean(s[..|s| - 1]);
    }
  }

  lemma TrimClean(s: Bytes)
    requires LF !in s
    ensures Clean(Trim(s))
  {
    hide TrimLeft, TrimRight;
    TrimLeftClean(s);
    TrimRightClean(TrimLeft(s));
  }

  lemma HeaderClean(line: Bytes)
    requires LF !in line
    ensures HeaderOf(line).Some? ==> Clean(HeaderOf(line).value.1)
  {
    hide TrimLeft, TrimRight, Clean, IndexOf;
    TrimClean(line);
    var t := Trim(line);
    assert LF !in t by { CleanHasNoBreak(t); }
    TrimClean(t[if IndexOf(t, COLON, 0) == |t| then 0 else IndexOf(t, COLON, 0) + 1..]);
  }

  lemma CleanHasNoBreak(s: Bytes)
    requires Clean(s)
    ensures LF !in s
  {
  }

  lemma {:induction false} PartsClean(s: Bytes, c: Byte, start: nat)
    requires start <= |s|
    ensures forall part :: part in SplitFrom(s, c, start) ==> c !in part
    decreases |s| - start
  {
    NotBefore(s, c, start);
    var p := IndexOf(s, c, start);
    if p < |s| {
      PartsClean(s, c, p + 1);
    }
  }

  lemma {:induction false} NotBefore(s: Bytes, c: Byte, start: nat)
    requires start <= |s|
    ensures c !in s[start..IndexOf(s, c, start)]
    decreases |s| - start
  {
    if start < |s| && s[start] != c {
      NotBefore(s, c, start + 1);
      var p := IndexOf(s, c, start + 1);
      assert s[start..p] == [s[start]] + s[start + 1..p];
    }
  }

  lemma {:induction false} FieldsClean(lines: seq<Bytes>, n: nat)
    requires n <= |lines| && forall line :: line in lines ==> LF !in line
    ensures Clean(Events.FieldsTo(lines, n).cseq)
    decreases n
  {
    hide HeaderOf, Clean, ToInt;
    if n > 0 {
      FieldsClean(lines, n - 1);
      HeaderClean(lines[n - 1]);
    } else {
      assert Clean([]) by { NothingIsClean(); }
    }
  }

  lemma NothingIsClean()
    ensures Clean([])
  {
  }

  /** Whatever a request looks like, the sequence number read from it can be echoed. */
  lemma SequenceNumberIsClean(t: Bytes)
    requires Events.OneRequest(t)
    ensures Clean(Events.CSeqOf(t))
  {
    hide Clean, Events.FieldsTo, SplitFrom;
    var e := Events.Request(t).value;
    PartsClean(t[..e], LF, 0);
    FieldsClean(Split(t[..e], LF), |Split(t[..e], LF)|);
  }

  lemma SequenceNumbersAreClean(texts: seq<Bytes>)
    requires forall t :: t in texts ==> Events.OneRequest(t)
    ensures forall c :: c in Events.CSeqs(texts) ==> Clean(c)
  {
    hide Clean, Events.OneRequest, Events.CSeqOf;
    forall c | c in Events.CSeqs(texts) ensures Clean(c) {
      var i :| 0 <= i < |texts| && Events.CSeqs(texts)[i] == c;
      assert texts[i] in texts;
      SequenceNumberIsClean(texts[i]);
    }
  }

  // ---- Keep-alive, end to end ----

  function AnswerMessages(cseqs: seq<Bytes>): (r: seq<Message>)
    ensures |r| == |cseqs|
  {
    seq(|cseqs|, i requires 0 <= i < |cseqs| => AnswerMessage(cseqs[i]))
  }

  lemma NothingReads()
    ensures ParseAll([]) == Parsed([], [])
  {
  }

  lemma {:induction false} AnswersRead(cseqs: seq<Bytes>)
    requires forall c :: c in cseqs ==> Clean(c)
    ensures ParseAll(Events.Responses(cseqs)) == Parsed(AnswerMessages(cseqs), [])
    decreases |cseqs|
  {
    hide Clean, OneMessage, MessageOf, Events.Response, AnswerMessage, ParseAll;
    if cseqs == [] {
      NothingReads();
    } else {
      AnswerReadsBack(cseqs[0]);
      OneParses(Events.Response(cseqs[0]), Events.Responses(cseqs[1..]));
      AnswersRead(cseqs[1..]);
      assert AnswerMessages(cseqs) == [AnswerMessage(cseqs[0])] + AnswerMessages(cseqs[1..]);
    }
  }

  /** Keep-alive, end to end: whatever complete requests the receiver pushes in authentic frames, however framed and
      cut, it reads back one 200 without a body per request, in order, with that request's sequence number. */
  lemma {:induction false} ReceiverSeesAnswers(seal: Seal, open: Open, theirOpen: Open, recvCtr: Word64,
                                               sendCtr: Word64, texts: seq<Bytes>, tail: Bytes, segments: seq<Bytes>)
    requires (forall t :: t in texts ==> Events.OneRequest(t)) && Events.Request(tail).None?
    requires OpenAll(open, recvCtr, Concat(segments)).ok
    requires OpenAll(open, recvCtr, Concat(segments)).plain == Concat(texts) + tail
    requires Matching(seal, theirOpen) && forall c :: c in Events.CSeqs(texts) ==> |Events.Response(c)| < TWO_16
    ensures var answers := Events.ReadAll(seal, open, Events.State([], recvCtr, [], sendCtr), segments).out;
      var heard := OpenAll(theirOpen, sendCtr, Concat(answers));
      && heard.ok && heard.rest == [] && heard.ctr == U64(sendCtr + |texts|)
      && ParseAll(heard.plain) == Parsed(AnswerMessages(Events.CSeqs(texts)), [])
  {
    hide OpenAll, ParseAll, Events.OneRequest, Events.ReadAll, Events.Replies, Events.Request, Events.Response,
      Matching, Clean, AnswerMessages, Events.CSeqs, Events.Responses, U64;
    Events.EveryRequestAnswered(seal, open, recvCtr, sendCtr, texts, tail, segments);
    Events.ReceiverReadsAnswers(seal, theirOpen, sendCtr, Events.CSeqs(texts));
    SequenceNumbersAreClean(texts);
    AnswersRead(Events.CSeqs(texts));
  }
}
