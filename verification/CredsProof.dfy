/** Reading credentials back: every way of writing the object gives the same result. */
module CredsProof {
  import opened Wire
  import opened Slices
  import opened CredsSpec

  // ---- Whitespace and single characters ----

  predicate AllWs(w: Bytes) { forall k :: 0 <= k < |w| ==> IsWs(w[k]) }

  lemma {:induction false} SkipWsPast(s: Bytes, i: nat, w: Bytes)
    requires Has(s, i, w) && AllWs(w)
    ensures SkipWs(s, i) == SkipWs(s, i + |w|)
    decreases |w|
  {
    if w != [] {
      HasAt(s, i, w, 0);
      HasPart(s, i, w, 1, |w|);
      SkipWsPast(s, i + 1, w[1..]);
    }
  }

  lemma SkipWsTo(s: Bytes, i: nat, w: Bytes, c: Byte)
    requires Has(s, i, w + [c]) && AllWs(w) && !IsWs(c)
    ensures SkipWs(s, i) == i + |w| < |s| && s[i + |w|] == c
  {
    HasSplit(s, i, w, [c]);
    HasAt(s, i + |w|, [c], 0);
    SkipWsPast(s, i, w);
  }

  lemma EatAfter(s: Bytes, i: nat, w: Bytes, c: Byte, want: Byte)
    requires Has(s, i, w + [c]) && AllWs(w) && !IsWs(c)
    ensures Eat(s, i, want) == if c == want then Some(i + |w| + 1) else None
  {
    SkipWsTo(s, i, w, c);
  }

  // ---- Strings ----

  // One way of spelling a piece of a string: a byte as it is, a one-letter escape, or four hex digits.
  datatype Spelling = Raw(c: Byte) | Letter(e: Byte) | Unicode(a: Byte, b: Byte, c: Byte, d: Byte)

  type Text = seq<Spelling>

  predicate SpellingOk(p: Spelling)
  {
    match p
    case Raw(c) => c != QUOTE && c != BACKSLASH
    case Letter(e) => e != 117 && Unescape(e).Some?
    case Unicode(a, b, c, d) => HexPair(a, b).Some? && HexPair(c, d).Some?
  }

  predicate TextOk(t: Text) { forall k :: 0 <= k < |t| ==> SpellingOk(t[k]) }

  function SpellingBytes(p: Spelling): Bytes
  {
    match p
    case Raw(c) => [c]
    case Letter(e) => [BACKSLASH, e]
    case Unicode(a, b, c, d) => [BACKSLASH, 117, a, b, c, d]
  }

  // The bytes a spelling stands for; a bad one stands for none.
  function Means(p: Spelling): Bytes
  {
    match p
    case Raw(c) => [c]
    case Letter(e) => (match Unescape(e) case None => [] case Some(b) => [b])
    case Unicode(a, b, c, d) =>
      match (HexPair(a, b), HexPair(c, d))
      case (Some(x), Some(y)) => Utf8(TwoBytes(x, y))
      case _ => []
  }

  function Spelled(t: Text): Bytes { if t == [] then [] else SpellingBytes(t[0]) + Spelled(t[1..]) }

  function Meaning(t: Text): Bytes { if t == [] then [] else Means(t[0]) + Meaning(t[1..]) }

  // The string as it stands in the text.
  function Written(t: Text): Bytes { [QUOTE] + Spelled(t) + [QUOTE] }

  lemma PieceReads(s: Bytes, i: nat, p: Spelling)
    requires Has(s, i, SpellingBytes(p)) && SpellingOk(p)
    ensures i < |s| && s[i] != QUOTE && Piece(s, i) == Some((Means(p), i + |SpellingBytes(p)|))
  {
    hide HexPair;
    var e := SpellingBytes(p);
    HasAt(s, i, e, 0);
    if p.Letter? {
      HasAt(s, i, e, 1);
    } else if p.Unicode? {
      HasAt(s, i, e, 1);
      HasAt(s, i, e, 2);
      HasAt(s, i, e, 3);
      HasAt(s, i, e, 4);
      HasAt(s, i, e, 5);
    }
  }

  lemma {:induction false} StrBodyReads(s: Bytes, i: nat, t: Text)
    requires Has(s, i, Spelled(t)) && Has(s, i + |Spelled(t)|, [QUOTE]) && TextOk(t)
    ensures StrBody(s, i) == Some((Meaning(t), i + |Spelled(t)| + 1))
    decreases |t|
  {
    hide SpellingBytes, Piece, Has, SpellingOk, Means;
    if t == [] {
      QuoteAt(s, i);
    } else {
      var e := SpellingBytes(t[0]);
      HasSplit(s, i, e, Spelled(t[1..]));
      PieceReads(s, i, t[0]);
      StrBodyReads(s, i + |e|, t[1..]);
    }
  }

  lemma QuoteAt(s: Bytes, i: nat)
    requires Has(s, i, [QUOTE])
    ensures i < |s| && s[i] == QUOTE
  {
    HasAt(s, i, [QUOTE], 0);
  }

  /** A string reads back as what it means, however it is spelled and whatever whitespace precedes it. */
  lemma StrReads(s: Bytes, i: nat, w: Bytes, t: Text)
    requires Has(s, i, w + Written(t)) && AllWs(w) && TextOk(t)
    ensures Str(s, i) == Some((Meaning(t), i + |w| + |Written(t)|))
  {
    hide Spelled, StrBody, Has, TextOk, Meaning;
    WrittenParts(s, i, w, t);
    EatAfter(s, i, w, QUOTE, QUOTE);
    StrBodyReads(s, i + |w| + 1, t);
  }

  lemma WrittenParts(s: Bytes, i: nat, w: Bytes, t: Text)
    requires Has(s, i, w + Written(t))
    ensures Has(s, i, w + [QUOTE]) && Has(s, i + |w| + 1, Spelled(t)) && Has(s, i + |w| + 1 + |Spelled(t)|, [QUOTE])
  {
    hide Spelled;
    assert w + Written(t) == w + [QUOTE] + Spelled(t) + [QUOTE];
    HasSplit(s, i, w + [QUOTE] + Spelled(t), [QUOTE]);
    HasSplit(s, i, w + [QUOTE], Spelled(t));
  }

  // The writer's own spelling of a byte.
  function Canon1(c: Byte): Spelling
  {
    if c == QUOTE || c == BACKSLASH then Letter(c)
    else if c == 10 then Letter(110)
    else if c == 13 then Letter(114)
    else if c == 9 then Letter(116)
    else if c < 32 then Unicode(48, 48, HexOf(c)[0], HexOf(c)[1])
    else Raw(c)
  }

  function Canon(s: Bytes): Text { seq(|s|, k requires 0 <= k < |s| => Canon1(s[k])) }

  lemma Canon1Right(c: Byte)
    ensures SpellingOk(Canon1(c)) && SpellingBytes(Canon1(c)) == EscapeByte(c) && Means(Canon1(c)) == [c]
  {
    HexPairInverts(c);
    assert HexPair(48, 48) == Some(0);
  }

  /** The writer's spelling is one of the many: it escapes as the writer does and means what was written. */
  lemma {:induction false} CanonRight(s: Bytes)
    ensures TextOk(Canon(s)) && Spelled(Canon(s)) == Escape(s) && Meaning(Canon(s)) == s
    decreases |s|
  {
    hide Canon1, SpellingOk, SpellingBytes, Means, EscapeByte;
    forall k | 0 <= k < |s| ensures SpellingOk(Canon(s)[k]) {
      Canon1Right(s[k]);
    }
    if s != [] {
      Canon1Right(s[0]);
      CanonRight(s[1..]);
      assert Canon(s)[1..] == Canon(s[1..]);
      assert [s[0]] + s[1..] == s;
    }
  }

  // ---- Values of any kind ----

  // Whitespace before the key, the colon and the value, and after it.
  datatype Gaps = Gaps(a: Bytes, b: Bytes, c: Bytes, d: Bytes)

  // `pad` is the whitespace behind an opening bracket.
  datatype Json =
    | JStr(text: Text)
    | JLit(literal: Bytes)
    | JArr(pad: Bytes, items: seq<Item>)
    | JObj(pad: Bytes, pairs: seq<Pair>)
  datatype Item = Item(value: Json, after: Bytes, next: Bytes)      // whitespace before and behind its comma
  datatype Pair = Pair(key: Text, value: Json, gaps: Gaps)

  predicate GapsOk(g: Gaps) { AllWs(g.a) && AllWs(g.b) && AllWs(g.c) && AllWs(g.d) }

  // Bytes of numbers and of true, false and null.
  predicate LitByte(c: Byte)
  {
    !IsWs(c) && c != QUOTE && c != COMMA && c != LBRACE && c != RBRACE && c != LBRACKET && c != RBRACKET
  }

  predicate WellFormed(v: Json)
    decreases v
  {
    match v
    case JStr(text) => TextOk(text)
    case JLit(text) => text != [] && forall k :: 0 <= k < |text| ==> LitByte(text[k])
    case JArr(pad, items) =>
      && AllWs(pad)
      && forall k :: 0 <= k < |items| ==> WellFormed(items[k].value) && AllWs(items[k].after) && AllWs(items[k].next)
    case JObj(pad, pairs) =>
      && AllWs(pad)
      && forall k :: 0 <= k < |pairs| ==> WellFormed(pairs[k].value) && GapsOk(pairs[k].gaps) && TextOk(pairs[k].key)
  }

  function JsonText(v: Json): Bytes
    decreases v
  {
    match v
    case JStr(text) => Written(text)
    case JLit(text) => text
    case JArr(pad, items) => [LBRACKET] + (pad + ItemsText(items)) + [RBRACKET]
    case JObj(pad, pairs) => [LBRACE] + (pad + PairsText(pairs)) + [RBRACE]
  }

  function ItemsText(items: seq<Item>): Bytes
    decreases items
  {
    if items == [] then []
    else JsonText(items[0].value) + Comma(items[0].after, items[0].next, |items|) + ItemsText(items[1..])
  }

  // What follows one of n values: whitespace, and a comma unless it is the last.
  function Comma(after: Bytes, next: Bytes, n: nat): Bytes { after + if n > 1 then [COMMA] + next else [] }

  function PairsText(pairs: seq<Pair>): Bytes
    decreases pairs
  {
    if pairs == [] then []
    else
      var p := pairs[0];
      p.gaps.a + Written(p.key) + Colon(p.gaps) + JsonText(p.value) + Comma(p.gaps.d, [], |pairs|)
        + PairsText(pairs[1..])
  }

  function Colon(g: Gaps): Bytes { g.b + [COLON] + g.c }

  // ---- Skipping over nested text ----

  lemma PassSpelling(s: Bytes, i: nat, p: Spelling, depth: nat)
    requires Has(s, i, SpellingBytes(p)) && SpellingOk(p)
    ensures SkipNested(s, i, depth, true) == SkipNested(s, i + |SpellingBytes(p)|, depth, true)
  {
    var e := SpellingBytes(p);
    HasAt(s, i, e, 0);
    if p.Letter? {
      HasAt(s, i, e, 1);
    } else if p.Unicode? {
      HasAt(s, i, e, 1);
      HasAt(s, i, e, 2);
      HasAt(s, i, e, 3);
      HasAt(s, i, e, 4);
      HasAt(s, i, e, 5);
      assert SkipNested(s, i, depth, true) == SkipNested(s, i + 2, depth, true);
      assert SkipNested(s, i + 2, depth, true) == SkipNested(s, i + 3, depth, true);
      assert SkipNested(s, i + 3, depth, true) == SkipNested(s, i + 4, depth, true);
      assert SkipNested(s, i + 4, depth, true) == SkipNested(s, i + 5, depth, true);
    }
  }

  lemma {:induction false} PassSpelled(s: Bytes, i: nat, t: Text, depth: nat)
    requires Has(s, i, Spelled(t)) && TextOk(t)
    ensures SkipNested(s, i, depth, true) == SkipNested(s, i + |Spelled(t)|, depth, true)
    decreases |t|
  {
    hide SpellingBytes, Has, SkipNested, SpellingOk;
    if t != [] {
      HasSplit(s, i, SpellingBytes(t[0]), Spelled(t[1..]));
      PassSpelling(s, i, t[0], depth);
      PassSpelled(s, i + |SpellingBytes(t[0])|, t[1..], depth);
    }
  }

  lemma PassWritten(s: Bytes, i: nat, t: Text, depth: nat)
    requires Has(s, i, Written(t)) && TextOk(t)
    ensures SkipNested(s, i, depth, false) == SkipNested(s, i + |Written(t)|, depth, false)
  {
    HasSplit(s, i, [QUOTE] + Spelled(t), [QUOTE]);
    HasSplit(s, i, [QUOTE], Spelled(t));
    HasAt(s, i, [QUOTE], 0);
    HasAt(s, i + 1 + |Spelled(t)|, [QUOTE], 0);
    PassSpelled(s, i + 1, t, depth);
  }

  // Bytes that mean nothing between brackets.
  predicate Plain(c: Byte) { c != QUOTE && c != LBRACE && c != RBRACE && c != LBRACKET && c != RBRACKET }

  lemma {:induction false} PassPlain(s: Bytes, i: nat, text: Bytes, depth: nat)
    requires Has(s, i, text) && forall k :: 0 <= k < |text| ==> Plain(text[k])
    ensures SkipNested(s, i, depth, false) == SkipNested(s, i + |text|, depth, false)
    decreases |text|
  {
    if text != [] {
      HasAt(s, i, text, 0);
      HasPart(s, i, text, 1, |text|);
      PassPlain(s, i + 1, text[1..], depth);
    }
  }

  // From an opening bracket to its partner, given that what is between them passes.
  lemma PassBrackets(s: Bytes, i: nat, open: Byte, inner: Bytes, close: Byte, depth: nat)
    requires (open == LBRACE || open == LBRACKET) && (close == RBRACE || close == RBRACKET)
    requires Has(s, i, [open] + inner + [close])
    requires SkipNested(s, i + 1, depth + 1, false) == SkipNested(s, i + 1 + |inner|, depth + 1, false)
    ensures SkipNested(s, i, depth, false)
         == if depth == 0 then Some(i + |inner| + 2) else SkipNested(s, i + |inner| + 2, depth, false)
  {
    HasSplit(s, i, [open] + inner, [close]);
    HasSplit(s, i, [open], inner);
    HasAt(s, i, [open], 0);
    HasAt(s, i + 1 + |inner|, [close], 0);
  }

  lemma InnerHas(s: Bytes, i: nat, open: Byte, inner: Bytes, close: Byte)
    requires Has(s, i, [open] + inner + [close])
    ensures Has(s, i + 1, inner)
  {
    HasSplit(s, i, [open] + inner, [close]);
    HasSplit(s, i, [open], inner);
  }

  lemma {:induction false} PassValue(s: Bytes, i: nat, v: Json, depth: nat)
    requires Has(s, i, JsonText(v)) && WellFormed(v) && depth > 0
    ensures SkipNested(s, i, depth, false) == SkipNested(s, i + |JsonText(v)|, depth, false)
    decreases v
  {
    hide SkipNested, Written;
    match v
    case JStr(text) => PassWritten(s, i, text, depth);
    case JLit(text) => PassPlain(s, i, text, depth);
    case JArr(pad, items) =>
      InnerHas(s, i, LBRACKET, pad + ItemsText(items), RBRACKET);
      PassItems(s, i + 1, pad, items, depth + 1);
      PassBrackets(s, i, LBRACKET, pad + ItemsText(items), RBRACKET, depth);
    case JObj(pad, pairs) =>
      InnerHas(s, i, LBRACE, pad + PairsText(pairs), RBRACE);
      PassPairs(s, i + 1, pad, pairs, depth + 1);
      PassBrackets(s, i, LBRACE, pad + PairsText(pairs), RBRACE, depth);
  }

  lemma WsPlain(w: Bytes, v: Bytes, n: nat)
    requires AllWs(w) && AllWs(v)
    ensures forall k :: 0 <= k < |w| ==> Plain(w[k])
    ensures forall k :: 0 <= k < |Comma(w, v, n)| ==> Plain(Comma(w, v, n)[k])
  {
  }

  // `w` is whitespace before the items.
  lemma {:induction false} PassItems(s: Bytes, i: nat, w: Bytes, items: seq<Item>, depth: nat)
    requires Has(s, i, w + ItemsText(items)) && depth > 0 && AllWs(w)
    requires forall k :: 0 <= k < |items| ==>
               WellFormed(items[k].value) && AllWs(items[k].after) && AllWs(items[k].next)
    ensures SkipNested(s, i, depth, false) == SkipNested(s, i + |w + ItemsText(items)|, depth, false)
    decreases items
  {
    hide SkipNested, WellFormed, AllWs, Plain, Has, Comma;
    HasSplit(s, i, w, ItemsText(items));
    WsPlain(w, w, 0);
    PassPlain(s, i, w, depth);
    if items != [] {
      var at := i + |w|;
      var t, c, tail := JsonText(items[0].value), Comma(items[0].after, items[0].next, |items|), ItemsText(items[1..]);
      HasSplit(s, at, t + c, tail);
      HasSplit(s, at, t, c);
      PassValue(s, at, items[0].value, depth);
      WsPlain(items[0].after, items[0].next, |items|);
      PassPlain(s, at + |t|, c, depth);
      assert [] + tail == tail;
      assert AllWs([]) by { NoWs(); }
      PassItems(s, at + |t| + |c|, [], items[1..], depth);
    }
  }

  lemma NoWs()
    ensures AllWs([])
  {
  }

  lemma ColonPlain(g: Gaps)
    requires GapsOk(g)
    ensures AllWs(g.a) && AllWs(g.d) && forall k :: 0 <= k < |Colon(g)| ==> Plain(Colon(g)[k])
  {
  }

  lemma {:induction false} PassPairs(s: Bytes, i: nat, w: Bytes, pairs: seq<Pair>, depth: nat)
    requires Has(s, i, w + PairsText(pairs)) && depth > 0 && AllWs(w)
    requires forall k :: 0 <= k < |pairs| ==>
               WellFormed(pairs[k].value) && GapsOk(pairs[k].gaps) && TextOk(pairs[k].key)
    ensures SkipNested(s, i, depth, false) == SkipNested(s, i + |w + PairsText(pairs)|, depth, false)
    decreases pairs
  {
    hide SkipNested, WellFormed, Written, TextOk, AllWs, GapsOk, Plain, Has, Comma, Colon;
    HasSplit(s, i, w, PairsText(pairs));
    WsPlain(w, w, 0);
    PassPlain(s, i, w, depth);
    if pairs != [] {
      var p, at := pairs[0], i + |w|;
      ColonPlain(p.gaps);
      NoWs();
      WsPlain(p.gaps.a, w, 0);
      WsPlain(p.gaps.d, [], |pairs|);
      PassPair(s, at, p, Comma(p.gaps.d, [], |pairs|), PairsText(pairs[1..]), depth);
      var tail := PairsText(pairs[1..]);
      assert [] + tail == tail;
      assert AllWs([]) by { NoWs(); }
      PassPairs(s, i + |w + PairsText(pairs)| - |tail|, [], pairs[1..], depth);
    }
  }

  lemma {:induction false} PassPair(s: Bytes, i: nat, p: Pair, c: Bytes, tail: Bytes, depth: nat)
    requires Has(s, i, p.gaps.a + Written(p.key) + Colon(p.gaps) + JsonText(p.value) + c + tail) && depth > 0
      && WellFormed(p.value) && TextOk(p.key)
    requires forall k :: 0 <= k < |p.gaps.a| ==> Plain(p.gaps.a[k])
    requires forall k :: 0 <= k < |c| ==> Plain(c[k])
    requires forall k :: 0 <= k < |Colon(p.gaps)| ==> Plain(Colon(p.gaps)[k])
    ensures var n := |p.gaps.a| + |Written(p.key)| + |Colon(p.gaps)| + |JsonText(p.value)| + |c|;
      Has(s, i + n, tail) && SkipNested(s, i, depth, false) == SkipNested(s, i + n, depth, false)
    decreases p, 1
  {
    hide SkipNested, WellFormed, Written, TextOk, Plain, Has, Colon;
    var a, q, o, t := p.gaps.a, Written(p.key), Colon(p.gaps), JsonText(p.value);
    HasSplit(s, i, a + q + o + t + c, tail);
    HasSplit(s, i, a + q + o + t, c);
    HasSplit(s, i, a + q + o, t);
    HasSplit(s, i, a + q, o);
    HasSplit(s, i, a, q);
    PassPlain(s, i, a, depth);
    PassWritten(s, i + |a|, p.key, depth);
    PassPlain(s, i + |a| + |q|, o, depth);
    PassValue(s, i + |a| + |q| + |o|, p.value, depth);
    PassPlain(s, i + |a| + |q| + |o| + |t|, c, depth);
  }

  lemma {:induction false} LiteralSkipped(s: Bytes, i: nat, text: Bytes, x: Byte)
    requires Has(s, i, text + [x]) && (x == COMMA || x == RBRACE)
    requires forall k :: 0 <= k < |text| ==> text[k] != COMMA && text[k] != RBRACE && text[k] != RBRACKET
    ensures SkipLiteral(s, i) == i + |text|
    decreases |text|
  {
    HasSplit(s, i, text, [x]);
    if text == [] {
      HasAt(s, i, [x], 0);
    } else {
      HasAt(s, i, text, 0);
      HasPart(s, i, text + [x], 1, |text| + 1);
      assert (text + [x])[1..|text| + 1] == text[1..] + [x];
      LiteralSkipped(s, i + 1, text[1..], x);
    }
  }

  lemma FirstByte(v: Json)
    requires WellFormed(v)
    ensures JsonText(v) != [] && !IsWs(JsonText(v)[0])
    ensures v.JStr? <==> JsonText(v)[0] == QUOTE
    ensures v.JArr? || v.JObj? <==> JsonText(v)[0] == LBRACKET || JsonText(v)[0] == LBRACE
  {
  }

  lemma ValueStart(s: Bytes, i: nat, w: Bytes, v: Json)
    requires Has(s, i, w + JsonText(v)) && AllWs(w) && WellFormed(v)
    ensures SkipWs(s, i) == i + |w| < |s| && s[i + |w|] == JsonText(v)[0] && Has(s, i + |w|, JsonText(v))
  {
    hide JsonText;
    FirstByte(v);
    var t := JsonText(v);
    HasSplit(s, i, w, t);
    assert t == [t[0]] + t[1..];
    assert w + t == w + [t[0]] + t[1..];
    HasSplit(s, i, w + [t[0]], t[1..]);
    SkipWsTo(s, i, w, t[0]);
  }

  // Skipping from the first byte of a bracketed or quoted value ends right behind it.
  lemma ClosedSkipped(s: Bytes, j: nat, v: Json)
    requires Has(s, j, JsonText(v)) && WellFormed(v) && !v.JLit? && SkipWs(s, j) == j < |s| && s[j] == JsonText(v)[0]
    ensures SkipValue(s, j) == Some(j + |JsonText(v)|)
  {
    hide SkipNested, SkipWs, SkipLiteral, Str, Has, JsonText, WellFormed;
    FirstByte(v);
    if v.JStr? {
      StringText(v);
      assert [] + Written(v.text) == Written(v.text);
      StringOk(v);
      StrReads(s, j, [], v.text);
    } else {
      NestedSkipped(s, j, v);
    }
  }

  lemma StringOk(v: Json)
    requires v.JStr? && WellFormed(v)
    ensures TextOk(v.text)
  {
  }

  lemma StringText(v: Json)
    requires v.JStr?
    ensures JsonText(v) == Written(v.text)
  {
  }

  lemma NestedSkipped(s: Bytes, j: nat, v: Json)
    requires Has(s, j, JsonText(v)) && WellFormed(v) && (v.JArr? || v.JObj?)
    ensures SkipNested(s, j, 0, false) == Some(j + |JsonText(v)|)
  {
    hide SkipNested, Has;
    match v
    case JArr(pad, items) =>
      InnerHas(s, j, LBRACKET, pad + ItemsText(items), RBRACKET);
      PassItems(s, j + 1, pad, items, 1);
      PassBrackets(s, j, LBRACKET, pad + ItemsText(items), RBRACKET, 0);
    case JObj(pad, pairs) =>
      InnerHas(s, j, LBRACE, pad + PairsText(pairs), RBRACE);
      PassPairs(s, j + 1, pad, pairs, 1);
      PassBrackets(s, j, LBRACE, pad + PairsText(pairs), RBRACE, 0);
  }

  // A literal is skipped together with the whitespace behind it.
  lemma LooseSkipped(s: Bytes, j: nat, v: Json, d: Bytes, x: Byte)
    requires Has(s, j, JsonText(v) + d + [x]) && AllWs(d) && WellFormed(v) && v.JLit? && (x == COMMA || x == RBRACE)
    requires SkipWs(s, j) == j < |s| && s[j] == JsonText(v)[0]
    ensures SkipValue(s, j) == Some(j + |JsonText(v)| + |d|)
  {
    hide SkipNested, SkipWs, Str, SkipLiteral, Has;
    FirstByte(v);
    LiteralSkipped(s, j, JsonText(v) + d, x);
  }

  lemma SkipFromWs(s: Bytes, i: nat, j: nat)
    requires SkipWs(s, i) == j && SkipWs(s, j) == j
    ensures SkipValue(s, i) == SkipValue(s, j)
  {
    hide SkipNested, SkipWs, StrBody, SkipLiteral;
  }

  lemma {:induction false} SkipWsTwice(s: Bytes, i: nat)
    ensures SkipWs(s, SkipWs(s, i)) == SkipWs(s, i)
    decreases |s| - i
  {
    if i < |s| && IsWs(s[i]) {
      SkipWsTwice(s, i + 1);
    }
  }

  lemma ValueParts(s: Bytes, i: nat, w: Bytes, t: Bytes, d: Bytes, x: Byte)
    requires Has(s, i, w + t + (d + [x]))
    ensures Has(s, i, w + t) && Has(s, i + |w|, t) && Has(s, i + |w|, t + d + [x]) && Has(s, i + |w| + |t|, d + [x])
  {
    HasSplit(s, i, w + t, d + [x]);
    HasSplit(s, i, w, t);
    assert w + t + (d + [x]) == w + (t + d + [x]);
    HasSplit(s, i, w, t + d + [x]);
  }

  /** Any well-formed value is skipped whole: after it only whitespace is left before what follows. */
  lemma ValueSkipped(s: Bytes, i: nat, w: Bytes, v: Json, d: Bytes, x: Byte)
    requires Has(s, i, w + JsonText(v) + (d + [x])) && AllWs(w) && AllWs(d) && WellFormed(v)
      && (x == COMMA || x == RBRACE)
    ensures SkipValue(s, i).Some? && SkipWs(s, SkipValue(s, i).value) == i + |w| + |JsonText(v)| + |d| < |s|
    ensures s[i + |w| + |JsonText(v)| + |d|] == x
  {
    hide SkipWs, SkipValue, JsonText, WellFormed, Has;
    var t, j := JsonText(v), i + |w|;
    ValueParts(s, i, w, t, d, x);
    ValueStart(s, i, w, v);
    SkipWsTwice(s, i);
    SkipWsTo(s, j + |t|, d, x);
    SkipWsTwice(s, j + |t|);
    SkipFromWs(s, i, j);
    if v.JLit? {
      LooseSkipped(s, j, v, d, x);
    } else {
      ClosedSkipped(s, j, v);
    }
  }

  // ---- Whole objects ----

  datatype Member = Member(key: Text, value: Json, gaps: Gaps)

  predicate MemberOk(m: Member)
  {
    WellFormed(m.value) && GapsOk(m.gaps) && TextOk(m.key)
  }

  function KeyText(m: Member): Bytes { m.gaps.a + Written(m.key) + (m.gaps.b + [COLON]) }

  function ValueText(m: Member, x: Byte): Bytes { m.gaps.c + JsonText(m.value) + (m.gaps.d + [x]) }

  function MembersText(ms: seq<Member>): Bytes
    requires ms != []
  {
    if |ms| == 1 then KeyText(ms[0]) + ValueText(ms[0], RBRACE)
    else KeyText(ms[0]) + ValueText(ms[0], COMMA) + MembersText(ms[1..])
  }

  // The text of an object; `inner` is the whitespace of an empty one, `trail` whatever follows.
  function Render(lead: Bytes, ms: seq<Member>, inner: Bytes, trail: Bytes): Bytes
  {
    lead + [LBRACE] + (if ms == [] then inner + [RBRACE] else MembersText(ms)) + trail
  }

  // What the members say: the last value of every known key; nothing if one of them is not a string.
  function Collect(ms: seq<Member>, f: Fields): Option<Fields>
  {
    if ms == [] then Some(f)
    else if !Known(Meaning(ms[0].key)) then Collect(ms[1..], f)
    else if !ms[0].value.JStr? then None
    else Collect(ms[1..], f[Meaning(ms[0].key) := Meaning(ms[0].value.text)])
  }

  lemma KeyReads(s: Bytes, i: nat, m: Member)
    requires Has(s, i, KeyText(m)) && MemberOk(m)
    ensures var p := i + |m.gaps.a| + |Written(m.key)|;
      Str(s, i) == Some((Meaning(m.key), p)) && Eat(s, p, COLON) == Some(i + |KeyText(m)|)
  {
    hide Has, Str, Eat, Written;
    HasSplit(s, i, m.gaps.a + Written(m.key), m.gaps.b + [COLON]);
    StrReads(s, i, m.gaps.a, m.key);
    EatAfter(s, i + |m.gaps.a| + |Written(m.key)|, m.gaps.b, COLON, COLON);
  }

  // A string value reads; after it only whitespace is left before what follows.
  lemma StringValueReads(s: Bytes, i: nat, m: Member, x: Byte)
    requires Has(s, i, ValueText(m, x)) && MemberOk(m) && m.value.JStr? && !IsWs(x)
    ensures Str(s, i) == Some((Meaning(m.value.text), i + |m.gaps.c| + |JsonText(m.value)|))
    ensures var e := i + |ValueText(m, x)| - 1;
      SkipWs(s, i + |m.gaps.c| + |JsonText(m.value)|) == e < |s| && s[e] == x
  {
    hide Has, Str, Written, SkipWs;
    HasSplit(s, i, m.gaps.c + JsonText(m.value), m.gaps.d + [x]);
    StrReads(s, i, m.gaps.c, m.value.text);
    SkipWsTo(s, i + |m.gaps.c| + |JsonText(m.value)|, m.gaps.d, x);
  }

  // Anything but a string is no string.
  lemma OtherValueFails(s: Bytes, i: nat, m: Member, x: Byte)
    requires Has(s, i, ValueText(m, x)) && MemberOk(m) && !m.value.JStr?
    ensures Str(s, i) == None
  {
    hide Has, JsonText, SkipWs, StrBody;
    HasSplit(s, i, m.gaps.c + JsonText(m.value), m.gaps.d + [x]);
    ValueStart(s, i, m.gaps.c, m.value);
    FirstByte(m.value);
  }

  lemma MoreAt(s: Bytes, k: nat, e: nat, f: Fields)
    requires SkipWs(s, k) == e < |s| && (s[e] == COMMA || s[e] == RBRACE)
    ensures MoreMembers(s, k, f) == if s[e] == COMMA then Members(s, e + 1, f) else Some(f)
  {
    hide SkipWs, Members;
  }

  // One member of the text: what the parser does with it and where it goes on.
  lemma MemberReads(s: Bytes, i: nat, m: Member, x: Byte, f: Fields)
    requires Has(s, i, KeyText(m) + ValueText(m, x)) && MemberOk(m) && (x == COMMA || x == RBRACE)
    ensures Members(s, i, f)
         == if Known(Meaning(m.key)) && !m.value.JStr? then None
            else
              var g := if Known(Meaning(m.key)) then f[Meaning(m.key) := Meaning(m.value.text)] else f;
              if x == COMMA then Members(s, i + |KeyText(m)| + |ValueText(m, x)|, g) else Some(g)
  {
    hide Has, KeyText, Str, Eat, SkipWs, SkipValue, MoreMembers, Known, MemberOk, JsonText, Meaning;
    var j := i + |KeyText(m)|;
    var e := j + |ValueText(m, x)| - 1;
    HasSplit(s, i, KeyText(m), ValueText(m, x));
    KeyReads(s, i, m);
    if Known(Meaning(m.key)) {
      if m.value.JStr? {
        StringValueReads(s, j, m, x);
        MoreAt(s, j + |m.gaps.c| + |JsonText(m.value)|, e, f[Meaning(m.key) := Meaning(m.value.text)]);
      } else {
        OtherValueFails(s, j, m, x);
      }
    } else {
      assert WellFormed(m.value) && AllWs(m.gaps.c) && AllWs(m.gaps.d) by { OkParts(m); }
      ValueSkipped(s, j, m.gaps.c, m.value, m.gaps.d, x);
      MoreAt(s, SkipValue(s, j).value, e, f);
    }
  }

  lemma OkParts(m: Member)
    requires MemberOk(m)
    ensures WellFormed(m.value) && AllWs(m.gaps.c) && AllWs(m.gaps.d)
  {
  }

  lemma {:induction false} MembersRead(s: Bytes, i: nat, ms: seq<Member>, f: Fields)
    requires ms != [] && Has(s, i, MembersText(ms)) && forall m :: m in ms ==> MemberOk(m)
    ensures Members(s, i, f) == Collect(ms, f)
    decreases |ms|
  {
    hide Has, Members, KeyText, ValueText, MemberOk, Known;
    if |ms| == 1 {
      MemberReads(s, i, ms[0], RBRACE, f);
    } else {
      var one := KeyText(ms[0]) + ValueText(ms[0], COMMA);
      HasSplit(s, i, one, MembersText(ms[1..]));
      MemberReads(s, i, ms[0], COMMA, f);
      if !(Known(Meaning(ms[0].key)) && !ms[0].value.JStr?) {
        MembersRead(s, i + |one|, ms[1..],
                    if Known(Meaning(ms[0].key)) then f[Meaning(ms[0].key) := Meaning(ms[0].value.text)] else f);
      }
    }
  }

  /** Reading an object gives exactly what its members say, wherever whitespace stands between tokens, whatever
      well-formed values unknown members have, and whatever follows the object. */
  lemma ObjectReads(lead: Bytes, ms: seq<Member>, inner: Bytes, trail: Bytes)
    requires AllWs(lead) && AllWs(inner) && forall m :: m in ms ==> MemberOk(m)
    ensures FieldsOf(Render(lead, ms, inner, trail)) == Collect(ms, map[])
  {
    hide Eat, Members, MembersText, Has;
    var s := Render(lead, ms, inner, trail);
    var body := if ms == [] then inner + [RBRACE] else MembersText(ms);
    HasWhole(s);
    HasSplit(s, 0, lead + [LBRACE] + body, trail);
    HasSplit(s, 0, lead + [LBRACE], body);
    EatAfter(s, 0, lead, LBRACE, LBRACE);
    if ms == [] {
      EatAfter(s, |lead| + 1, inner, RBRACE, RBRACE);
    } else {
      NoEmptyObject(s, |lead| + 1, ms);
      MembersRead(s, |lead| + 1, ms, map[]);
    }
  }

  // An object with members does not look like an empty one.
  lemma NoEmptyObject(s: Bytes, i: nat, ms: seq<Member>)
    requires ms != [] && Has(s, i, MembersText(ms)) && MemberOk(ms[0])
    ensures Eat(s, i, RBRACE) == None
  {
    hide Has, ValueText, Eat, MemberOk, Spelled;
    var m := ms[0];
    var rest := if |ms| == 1 then ValueText(m, RBRACE) else ValueText(m, COMMA) + MembersText(ms[1..]);
    var tail := Spelled(m.key) + [QUOTE] + (m.gaps.b + [COLON]) + rest;
    assert MembersText(ms) == m.gaps.a + [QUOTE] + tail;
    HasSplit(s, i, m.gaps.a + [QUOTE], tail);
    assert AllWs(m.gaps.a) by { OkStart(m); }
    EatAfter(s, i, m.gaps.a, QUOTE, RBRACE);
  }

  lemma OkStart(m: Member)
    requires MemberOk(m)
    ensures AllWs(m.gaps.a)
  {
  }

  // ---- Round trip ----

  const NO_GAPS: Gaps := Gaps([], [], [], [])

  // A member as the writer spells it.
  function Plainly(key: Bytes, text: Bytes): Member { Member(Canon(key), JStr(Canon(text)), NO_GAPS) }

  function CredMembers(c: Creds): seq<Member>
  {
    [Plainly(ATV_ID, HexEncode(c.atvId)), Plainly(CLIENT_ID, c.clientId), Plainly(LTPK, HexEncode(c.ltpk)),
     Plainly(LTSK, HexEncode(c.ltsk))]
  }

  // Letters, digits and the like are written as they are.
  lemma {:induction false} PlainEscape(t: Bytes)
    requires forall k :: 0 <= k < |t| ==> t[k] >= 32 && t[k] != QUOTE && t[k] != BACKSLASH
    ensures Escape(t) == t
  {
    if t != [] {
      PlainEscape(t[1..]);
      assert [t[0]] + t[1..] == t;
    }
  }

  lemma HexEscape(b: Bytes)
    ensures Escape(HexEncode(b)) == HexEncode(b)
  {
    var t := HexEncode(b);
    forall k | 0 <= k < |t| ensures t[k] >= 32 && t[k] != QUOTE && t[k] != BACKSLASH {
      var h := HexOf(b[k / 2]);
      assert t[k] == h[k % 2];
    }
    PlainEscape(t);
  }

  // One member without whitespace.
  lemma TightText(key: Bytes, text: Bytes, x: Byte)
    requires Escape(key) == key
    ensures KeyText(Plainly(key, text)) + ValueText(Plainly(key, text), x) == Field(key, Escape(text)) + [x]
    ensures MemberOk(Plainly(key, text)) && Meaning(Plainly(key, text).key) == key
    ensures Plainly(key, text).value.JStr? && Meaning(Plainly(key, text).value.text) == text
  {
    var m := Plainly(key, text);
    hide Escape, Spelled, Meaning, TextOk, Canon;
    CanonRight(key);
    CanonRight(text);
    assert KeyText(m) == [QUOTE] + key + [QUOTE, COLON];
    assert ValueText(m, x) == [QUOTE] + Escape(text) + [QUOTE] + [x];
  }

  lemma LastMember(m: Member)
    ensures MembersText([m]) == KeyText(m) + ValueText(m, RBRACE)
  {
  }

  lemma FirstMember(m: Member, ms: seq<Member>)
    requires ms != []
    ensures MembersText([m] + ms) == KeyText(m) + ValueText(m, COMMA) + MembersText(ms)
  {
    assert ([m] + ms)[1..] == ms;
  }

  lemma CredMembersText(c: Creds)
    ensures [LBRACE] + MembersText(CredMembers(c)) == ToJson(c)
  {
    hide Escape, KeyText, ValueText, MembersText, HexEncode, Field, ToJson, Plainly, MemberOk, Meaning;
    var ms := CredMembers(c);
    KeysPlain();
    HexEscape(c.atvId);
    HexEscape(c.ltpk);
    HexEscape(c.ltsk);
    TightText(ATV_ID, HexEncode(c.atvId), COMMA);
    TightText(CLIENT_ID, c.clientId, COMMA);
    TightText(LTPK, HexEncode(c.ltpk), COMMA);
    TightText(LTSK, HexEncode(c.ltsk), RBRACE);
    FirstMember(ms[0], ms[1..]);
    FirstMember(ms[1], ms[2..]);
    FirstMember(ms[2], ms[3..]);
    LastMember(ms[3]);
    assert ms == [ms[0]] + ms[1..] && ms[1..] == [ms[1]] + ms[2..] && ms[2..] == [ms[2]] + ms[3..]
      && ms[3..] == [ms[3]];
    WholeText(c);
  }

  lemma KeysPlain()
    ensures Escape(ATV_ID) == ATV_ID && Escape(CLIENT_ID) == CLIENT_ID && Escape(LTPK) == LTPK && Escape(LTSK) == LTSK
  {
    hide Escape;
    PlainEscape(ATV_ID);
    PlainEscape(CLIENT_ID);
    PlainEscape(LTPK);
    PlainEscape(LTSK);
  }

  // The text cut where members meet.
  lemma WholeText(c: Creds)
    ensures ToJson(c)
         == [LBRACE] + (Field(ATV_ID, HexEncode(c.atvId)) + [COMMA]
            + (Field(CLIENT_ID, Escape(c.clientId)) + [COMMA]
               + (Field(LTPK, HexEncode(c.ltpk)) + [COMMA] + (Field(LTSK, HexEncode(c.ltsk)) + [RBRACE]))))
  {
    hide Escape, HexEncode, Field;
  }

  lemma CredsCollect(c: Creds)
    ensures Collect(CredMembers(c), map[])
         == Some(map[ATV_ID := HexEncode(c.atvId), CLIENT_ID := c.clientId, LTPK := HexEncode(c.ltpk),
           LTSK := HexEncode(c.ltsk)])
    ensures forall m :: m in CredMembers(c) ==> MemberOk(m)
  {
    hide Escape, KeyText, ValueText, HexEncode, Field, Plainly, MemberOk, Meaning;
    KeysPlain();
    TightText(ATV_ID, HexEncode(c.atvId), COMMA);
    TightText(CLIENT_ID, c.clientId, COMMA);
    TightText(LTPK, HexEncode(c.ltpk), COMMA);
    TightText(LTSK, HexEncode(c.ltsk), RBRACE);
    var ms := CredMembers(c);
    var f1 := map[ATV_ID := HexEncode(c.atvId)];
    var f2 := f1[CLIENT_ID := c.clientId];
    var f3 := f2[LTPK := HexEncode(c.ltpk)];
    assert Collect(ms[3..], f3) == Some(f3[LTSK := HexEncode(c.ltsk)]);
    assert Collect(ms[2..], f2) == Collect(ms[3..], f3) by { assert ms[2..][1..] == ms[3..]; }
    assert Collect(ms[1..], f1) == Collect(ms[2..], f2) by { assert ms[1..][1..] == ms[2..]; }
  }

  /** Print and parse: every set of credentials, with any key bytes and any client id, reads back. */
  lemma RoundTrip(c: Creds)
    ensures FromJson(ToJson(c)) == Some(c)
  {
    hide FieldsOf, Collect, HexEncode, HexDecode, MembersText, ToJson, MemberOk;
    var ms := CredMembers(c);
    CredMembersText(c);
    CredsCollect(c);
    ObjectReads([], ms, [], []);
    assert Render([], ms, [], []) == ToJson(c);
    HexRoundTrip(c.ltsk);
    HexRoundTrip(c.ltpk);
    HexRoundTrip(c.atvId);
  }

  // ---- What the result does not depend on ----

  // The same key, and the same string or no string at all, however they are spelled.
  predicate SameWords(a: Member, b: Member)
  {
    && Meaning(a.key) == Meaning(b.key) && (a.value.JStr? <==> b.value.JStr?)
    && (a.value.JStr? ==> Meaning(a.value.text) == Meaning(b.value.text))
  }

  lemma {:induction false} GapsIgnored(ms: seq<Member>, ns: seq<Member>, f: Fields)
    requires |ms| == |ns| && forall k :: 0 <= k < |ms| ==> SameWords(ms[k], ns[k])
    ensures Collect(ms, f) == Collect(ns, f)
    decreases |ms|
  {
    if ms != [] {
      assert SameWords(ms[0], ns[0]);
      forall k | 0 <= k < |ms| - 1 ensures SameWords(ms[1..][k], ns[1..][k]) {
        assert SameWords(ms[k + 1], ns[k + 1]);
      }
      GapsIgnored(ms[1..], ns[1..],
                  if ms[0].value.JStr? then f[Meaning(ms[0].key) := Meaning(ms[0].value.text)] else f);
      GapsIgnored(ms[1..], ns[1..], f);
    }
  }

  function KnownOnly(ms: seq<Member>): (r: seq<Member>)
    ensures forall m :: m in r <==> m in ms && Known(Meaning(m.key))
  {
    if ms == [] then [] else (if Known(Meaning(ms[0].key)) then [ms[0]] else []) + KnownOnly(ms[1..])
  }

  lemma {:induction false} UnknownIgnored(ms: seq<Member>, f: Fields)
    ensures Collect(KnownOnly(ms), f) == Collect(ms, f)
    decreases |ms|
  {
    hide Known;
    if ms != [] {
      if Known(Meaning(ms[0].key)) {
        assert KnownOnly(ms)[1..] == KnownOnly(ms[1..]);
        if ms[0].value.JStr? {
          UnknownIgnored(ms[1..], f[Meaning(ms[0].key) := Meaning(ms[0].value.text)]);
        }
      } else {
        assert [] + KnownOnly(ms[1..]) == KnownOnly(ms[1..]);
        UnknownIgnored(ms[1..], f);
      }
    }
  }

  /** Whitespace between tokens, well-formed unknown members and whatever follows the object make no difference. */
  lemma OnlyKnownWordsCount(lead: Bytes, ms: seq<Member>, inner: Bytes, trail: Bytes,
                            lead': Bytes, ns: seq<Member>, inner': Bytes, trail': Bytes)
    requires AllWs(lead) && AllWs(inner) && forall m :: m in ms ==> MemberOk(m)
    requires AllWs(lead') && AllWs(inner') && forall m :: m in ns ==> MemberOk(m)
    requires var a, b := KnownOnly(ms), KnownOnly(ns);
      |a| == |b| && forall k :: 0 <= k < |a| ==> SameWords(a[k], b[k])
    ensures FromJson(Render(lead, ms, inner, trail)) == FromJson(Render(lead', ns, inner', trail'))
  {
    hide Collect, MemberOk, Build, Render, FieldsOf;
    ObjectReads(lead, ms, inner, trail);
    ObjectReads(lead', ns, inner', trail');
    UnknownIgnored(ms, map[]);
    UnknownIgnored(ns, map[]);
    GapsIgnored(KnownOnly(ms), KnownOnly(ns), map[]);
  }

  // No known key occurs twice.
  ghost predicate NoDuplicates(ms: seq<Member>)
  {
    forall i, j :: 0 <= i < j < |ms| && Known(Meaning(ms[i].key)) ==> Meaning(ms[i].key) != Meaning(ms[j].key)
  }

  // Some known member says that key means text.
  ghost predicate Says(ms: seq<Member>, key: Bytes, text: Bytes)
  {
    exists m :: m in ms && Known(Meaning(m.key)) && Meaning(m.key) == key && m.value.JStr?
      && Meaning(m.value.text) == text
  }

  ghost predicate Spoiled(ms: seq<Member>) { exists m :: m in ms && Known(Meaning(m.key)) && !m.value.JStr? }

  lemma SaysStep(ms: seq<Member>, key: Bytes, text: Bytes)
    requires ms != []
    ensures Says(ms, key, text)
      <==> (Known(Meaning(ms[0].key)) && Meaning(ms[0].key) == key && ms[0].value.JStr?
            && Meaning(ms[0].value.text) == text) || Says(ms[1..], key, text)
    ensures Spoiled(ms) <==> (Known(Meaning(ms[0].key)) && !ms[0].value.JStr?) || Spoiled(ms[1..])
  {
    hide Known;
    assert ms == [ms[0]] + ms[1..];
  }

  predicate Maps(f: Fields, k: Bytes, t: Bytes) { k in f && f[k] == t }

  // f holds what g holds and what ms says.
  ghost predicate Gathers(f: Fields, g: Fields, ms: seq<Member>)
  {
    forall k, t {:trigger Maps(f, k, t)} :: Maps(f, k, t) <==> Maps(g, k, t) || Says(ms, k, t)
  }

  lemma GatherOne(f: Fields, g: Fields, ms: seq<Member>)
    requires ms != [] && (Known(Meaning(ms[0].key)) ==> ms[0].value.JStr? && Meaning(ms[0].key) !in g)
    requires Gathers(f, if Known(Meaning(ms[0].key)) then g[Meaning(ms[0].key) := Meaning(ms[0].value.text)] else g,
                     ms[1..])
    ensures Gathers(f, g, ms)
  {
    hide Known, Says;
    var h := if Known(Meaning(ms[0].key)) then g[Meaning(ms[0].key) := Meaning(ms[0].value.text)] else g;
    forall k, t ensures Maps(f, k, t) <==> Maps(g, k, t) || Says(ms, k, t) {
      SaysStep(ms, k, t);
      assert Maps(f, k, t) <==> Maps(h, k, t) || Says(ms[1..], k, t);
    }
  }

  lemma {:induction false} CollectSays(ms: seq<Member>, f: Fields)
    requires NoDuplicates(ms) && forall m :: m in ms && Known(Meaning(m.key)) ==> Meaning(m.key) !in f
    ensures Collect(ms, f).None? <==> Spoiled(ms)
    ensures Collect(ms, f).Some? ==> Gathers(Collect(ms, f).value, f, ms)
    decreases |ms|
  {
    hide Known, Says, Spoiled, Gathers;
    if ms == [] {
      SaysNothing(f);
    } else {
      SaysStep(ms, [], []);
      TailFresh(ms, f);
      if !Known(Meaning(ms[0].key)) {
        CollectSays(ms[1..], f);
      } else if ms[0].value.JStr? {
        CollectSays(ms[1..], f[Meaning(ms[0].key) := Meaning(ms[0].value.text)]);
        assert ms[0] in ms;
      }
      if Collect(ms, f).Some? {
        GatherOne(Collect(ms, f).value, f, ms);
      }
    }
  }

  lemma SaysNothing(f: Fields)
    ensures !Spoiled([]) && Gathers(f, f, [])
  {
  }

  lemma TailFresh(ms: seq<Member>, f: Fields)
    requires ms != [] && NoDuplicates(ms) && forall m :: m in ms && Known(Meaning(m.key)) ==> Meaning(m.key) !in f
    ensures NoDuplicates(ms[1..])
    ensures forall m :: m in ms[1..] && Known(Meaning(m.key)) ==>
              Meaning(m.key) !in f && Meaning(m.key) != Meaning(ms[0].key)
  {
    hide Known;
    forall m | m in ms[1..] && Known(Meaning(m.key))
      ensures Meaning(m.key) !in f && Meaning(m.key) != Meaning(ms[0].key) {
      var j :| 0 <= j < |ms| - 1 && ms[1..][j] == m;
      assert ms[j + 1] == m && m in ms;
    }
    forall i, j | 0 <= i < j < |ms| - 1 && Known(Meaning(ms[1..][i].key))
      ensures Meaning(ms[1..][i].key) != Meaning(ms[1..][j].key) {
      assert ms[1..][i] == ms[i + 1] && ms[1..][j] == ms[j + 1];
    }
  }

  lemma SameFacts(f: Fields, g: Fields, ms: seq<Member>, ns: seq<Member>)
    requires Gathers(f, map[], ms) && Gathers(g, map[], ns) && forall k, t :: Says(ms, k, t) <==> Says(ns, k, t)
    ensures f == g
  {
    hide Says;
    forall k ensures k in f <==> k in g {
      if k in f { assert Maps(f, k, f[k]); assert Maps(g, k, f[k]); }
      if k in g { assert Maps(g, k, g[k]); assert Maps(f, k, g[k]); }
    }
    forall k | k in f ensures f[k] == g[k] {
      assert Maps(f, k, f[k]);
      assert Maps(g, k, f[k]);
    }
  }

  /** The order of members makes no difference as long as no known key is given twice. */
  lemma OrderDoesNotMatter(ms: seq<Member>, ns: seq<Member>, lead: Bytes, inner: Bytes, trail: Bytes)
    requires AllWs(lead) && AllWs(inner) && forall m :: m in ms ==> MemberOk(m)
    requires multiset(ms) == multiset(ns) && NoDuplicates(ms) && NoDuplicates(ns)
    ensures FromJson(Render(lead, ms, inner, trail)) == FromJson(Render(lead, ns, inner, trail))
  {
    hide Collect, MemberOk, Build, Render, FieldsOf, NoDuplicates, Known, Says, Spoiled, Gathers;
    SameMembers(ms, ns);
    ObjectReads(lead, ms, inner, trail);
    ObjectReads(lead, ns, inner, trail);
    CollectSays(ms, map[]);
    CollectSays(ns, map[]);
    SameSayings(ms, ns);
    if !Spoiled(ms) {
      SameFacts(Collect(ms, map[]).value, Collect(ns, map[]).value, ms, ns);
    }
  }

  lemma SameMembers(ms: seq<Member>, ns: seq<Member>)
    requires multiset(ms) == multiset(ns)
    ensures forall m :: m in ms <==> m in ns
  {
    forall m ensures m in ms <==> m in ns {
      assert m in ms <==> m in multiset(ms);
      assert m in ns <==> m in multiset(ns);
    }
  }

  lemma SameSayings(ms: seq<Member>, ns: seq<Member>)
    requires forall m :: m in ms <==> m in ns
    ensures (Spoiled(ms) <==> Spoiled(ns)) && forall k, t :: Says(ms, k, t) <==> Says(ns, k, t)
  {
    hide Known;
  }
}
