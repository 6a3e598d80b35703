/** The stored credentials: hex fields in a small JSON object, and the parser that reads it back. */
module CredsSpec {
  import opened Wire

  datatype Creds = Creds(ltsk: Bytes, ltpk: Bytes, atvId: Bytes, clientId: Bytes)

  const QUOTE: Byte := 34
  const BACKSLASH: Byte := 92
  const SLASH: Byte := 47
  const COMMA: Byte := 44
  const COLON: Byte := 58
  const LBRACE: Byte := 123
  const RBRACE: Byte := 125
  const LBRACKET: Byte := 91
  const RBRACKET: Byte := 93

  // ---- Hex ----

  function HexDigit(n: nat): Byte
    requires n < 16
  {
    if n < 10 then 48 + n else 87 + n
  }

  function HexOf(b: Byte): Bytes { [HexDigit(b / 16), HexDigit(b % 16)] }

  function HexEncode(b: Bytes): (r: Bytes)
    ensures |r| == 2 * |b|
  {
    seq(2 * |b|, k requires 0 <= k < 2 * |b| => HexOf(b[k / 2])[k % 2])
  }

  function Nibble(c: Byte): (r: Option<nat>)
    ensures r.Some? ==> r.value < 16
  {
    if 48 <= c <= 57 then Some(c - 48)
    else if 97 <= c <= 102 then Some(c - 87)
    else if 65 <= c <= 70 then Some(c - 55)
    else None
  }

  // The byte that two hex digits spell.
  function HexPair(hi: Byte, lo: Byte): Option<Byte>
  {
    match (Nibble(hi), Nibble(lo))
    case (Some(h), Some(l)) => Some(16 * h + l)
    case _ => None
  }

  // The first n bytes spelled by hex.
  function HexDecodeTo(hex: Bytes, n: nat): Option<Bytes>
    requires 2 * n <= |hex|
  {
    if n == 0 then Some([])
    else
      match (HexDecodeTo(hex, n - 1), HexPair(hex[2 * n - 2], hex[2 * n - 1]))
      case (Some(b), Some(x)) => Some(b + [x])
      case _ => None
  }

  function HexDecode(hex: Bytes): Option<Bytes>
  {
    if |hex| % 2 != 0 then None else HexDecodeTo(hex, |hex| / 2)
  }

  lemma HexPairInverts(b: Byte)
    ensures HexPair(HexOf(b)[0], HexOf(b)[1]) == Some(b)
  {
  }

  lemma HexAt(b: Bytes, n: nat)
    requires n < |b|
    ensures HexEncode(b)[2 * n] == HexOf(b[n])[0] && HexEncode(b)[2 * n + 1] == HexOf(b[n])[1]
  {
    hide HexOf;
  }

  lemma {:induction false} HexPrefix(b: Bytes, n: nat)
    requires n <= |b|
    ensures HexDecodeTo(HexEncode(b), n) == Some(b[..n])
  {
    hide HexEncode, HexPair, HexOf;
    if n > 0 {
      HexPrefix(b, n - 1);
      HexPairInverts(b[n - 1]);
      HexAt(b, n - 1);
      assert b[..n] == b[..n - 1] + [b[n - 1]];
    }
  }

  /** Hex text decodes to the bytes it was made from. */
  lemma HexRoundTrip(b: Bytes)
    ensures HexDecode(HexEncode(b)) == Some(b)
  {
    HexPrefix(b, |b|);
    assert b[..|b|] == b;
  }

  // ---- Strings ----

  function EscapeByte(c: Byte): Bytes
  {
    if c == QUOTE then [BACKSLASH, QUOTE]
    else if c == BACKSLASH then [BACKSLASH, BACKSLASH]
    else if c == 10 then [BACKSLASH, 110]
    else if c == 13 then [BACKSLASH, 114]
    else if c == 9 then [BACKSLASH, 116]
    else if c < 32 then [BACKSLASH, 117, 48, 48] + HexOf(c)
    else [c]
  }

  function Escape(s: Bytes): Bytes { if s == [] then [] else EscapeByte(s[0]) + Escape(s[1..]) }

  // Up to three bytes of UTF-8 for a \u escape; surrogates are not paired.
  function Utf8(cp: nat): Bytes
    requires cp < TWO_16
  {
    if cp < 0x80 then [cp]
    else if cp < 0x800 then [0xC0 + cp / 64, 0x80 + cp % 64]
    else [0xE0 + cp / 4096, 0x80 + cp / 64 % 64, 0x80 + cp % 64]
  }

  function TwoBytes(a: nat, b: nat): nat { 256 * a + b }

  // The value of four hex digits at i.
  function CodePoint(s: Bytes, i: nat): (r: Option<nat>)
    ensures r.Some? ==> r.value < TWO_16
  {
    if i + 4 > |s| then None
    else
      match (HexPair(s[i], s[i + 1]), HexPair(s[i + 2], s[i + 3]))
      case (Some(a), Some(b)) => Some(TwoBytes(a, b))
      case _ => None
  }

  // The byte a one-letter escape stands for.
  function Unescape(e: Byte): Option<Byte>
  {
    if e == QUOTE || e == BACKSLASH || e == SLASH then Some(e)
    else if e == 98 then Some(8)
    else if e == 102 then Some(12)
    else if e == 110 then Some(10)
    else if e == 114 then Some(13)
    else if e == 116 then Some(9)
    else None
  }

  // One step inside a string: the bytes it adds and where it ends; None on a bad escape or the end of the text.
  function Piece(s: Bytes, i: nat): (r: Option<(Bytes, nat)>)
    ensures r.Some? ==> i < r.value.1 <= |s|
  {
    if i >= |s| then None
    else if s[i] != BACKSLASH then Some(([s[i]], i + 1))
    else if i + 1 >= |s| then None
    else if s[i + 1] == 117 then
      match CodePoint(s, i + 2)
      case None => None
      case Some(cp) => Some((Utf8(cp), i + 6))
    else
      match Unescape(s[i + 1])
      case None => None
      case Some(b) => Some(([b], i + 2))
  }

  // The rest of a string from i on, up to its closing quote.
  function StrBody(s: Bytes, i: nat): (r: Option<(Bytes, nat)>)
    ensures r.Some? ==> i < r.value.1 <= |s|
    decreases |s| - i
  {
    if i < |s| && s[i] == QUOTE then Some(([], i + 1))
    else
      match Piece(s, i)
      case None => None
      case Some(p) =>
        match StrBody(s, p.1)
        case None => None
        case Some(t) => Some((p.0 + t.0, t.1))
  }

  // ---- The cursor ----

  predicate IsWs(c: Byte) { c == 32 || c == 9 || c == 10 || c == 13 }

  function SkipWs(s: Bytes, i: nat): (r: nat)
    ensures r >= i
    decreases |s| - i
  {
    if i < |s| && IsWs(s[i]) then SkipWs(s, i + 1) else i
  }

  // Where the text goes on after c, if c comes next.
  function Eat(s: Bytes, i: nat, c: Byte): (r: Option<nat>)
    ensures r.Some? ==> i < r.value <= |s|
  {
    var j := SkipWs(s, i);
    if j < |s| && s[j] == c then Some(j + 1) else None
  }

  function Str(s: Bytes, i: nat): (r: Option<(Bytes, nat)>)
    ensures r.Some? ==> i < r.value.1 <= |s|
  {
    match Eat(s, i, QUOTE)
    case None => None
    case Some(j) => StrBody(s, j)
  }

  // The end of the bracketed text at i, `depth` brackets deep.
  function SkipNested(s: Bytes, i: nat, depth: nat, inStr: bool): (r: Option<nat>)
    ensures r.Some? ==> i < r.value <= |s|
    decreases |s| - i
  {
    if i >= |s| then None
    else
      var c := s[i];
      if inStr then
        (if c == BACKSLASH then SkipNested(s, i + 2, depth, true) else SkipNested(s, i + 1, depth, c != QUOTE))
      else if c == QUOTE then SkipNested(s, i + 1, depth, true)
      else if c == LBRACE || c == LBRACKET then SkipNested(s, i + 1, depth + 1, false)
      else if c == RBRACE || c == RBRACKET then
        (if depth <= 1 then Some(i + 1) else SkipNested(s, i + 1, depth - 1, false))
      else SkipNested(s, i + 1, depth, false)
  }

  function SkipLiteral(s: Bytes, i: nat): (r: nat)
    ensures r >= i && (i <= |s| ==> r <= |s|)
    decreases |s| - i
  {
    if i < |s| && s[i] != COMMA && s[i] != RBRACE && s[i] != RBRACKET then SkipLiteral(s, i + 1) else i
  }

  function SkipValue(s: Bytes, i: nat): (r: Option<nat>)
    ensures r.Some? ==> i <= r.value <= |s|
  {
    var j := SkipWs(s, i);
    if j >= |s| then None
    else if s[j] == QUOTE then (match Str(s, j) case None => None case Some(t) => Some(t.1))
    else if s[j] == LBRACE || s[j] == LBRACKET then SkipNested(s, j, 0, false)
    else Some(SkipLiteral(s, j))
  }

  // ---- The object ----

  const LTSK: Bytes := [108, 116, 115, 107]
  const LTPK: Bytes := [108, 116, 112, 107]
  const ATV_ID: Bytes := [97, 116, 118, 73, 100]
  const CLIENT_ID: Bytes := [99, 108, 105, 101, 110, 116, 73, 100]

  predicate Known(key: Bytes) { key == LTSK || key == LTPK || key == ATV_ID || key == CLIENT_ID }

  type Fields = map<Bytes, Bytes>

  // The members from i on, up to the closing brace; later ones overwrite earlier ones.
  function Members(s: Bytes, i: nat, f: Fields): Option<Fields>
    decreases |s| - i
  {
    match Str(s, i)
    case None => None
    case Some(key) =>
      match Eat(s, key.1, COLON)
      case None => None
      case Some(j) =>
        if Known(key.0) then
          match Str(s, j)
          case None => None
          case Some(val) => MoreMembers(s, val.1, f[key.0 := val.0])
        else
          match SkipValue(s, j)
          case None => None
          case Some(k) => MoreMembers(s, k, f)
  }

  // After a member: another one, or the end of the object.
  function MoreMembers(s: Bytes, i: nat, f: Fields): Option<Fields>
    decreases |s| - i
  {
    match Eat(s, i, COMMA)
    case Some(j) => Members(s, j, f)
    case None => if Eat(s, i, RBRACE).Some? then Some(f) else None
  }

  function Build(f: Fields): Option<Creds>
  {
    if !(LTSK in f && LTPK in f && ATV_ID in f && CLIENT_ID in f) then None
    else
      match (HexDecode(f[LTSK]), HexDecode(f[LTPK]), HexDecode(f[ATV_ID]))
      case (Some(sk), Some(pk), Some(id)) => Some(Creds(sk, pk, id, f[CLIENT_ID]))
      case _ => None
  }

  function FieldsOf(s: Bytes): Option<Fields>
  {
    match Eat(s, 0, LBRACE)
    case None => None
    case Some(i) => if Eat(s, i, RBRACE).Some? then Some(map[]) else Members(s, i, map[])
  }

  function FromJson(s: Bytes): Option<Creds>
  {
    match FieldsOf(s)
    case None => None
    case Some(f) => Build(f)
  }

  // A string field whose text needs no further escaping.
  function Field(key: Bytes, text: Bytes): Bytes { [QUOTE] + key + [QUOTE, COLON, QUOTE] + text + [QUOTE] }

  function ToJson(c: Creds): Bytes
  {
    [LBRACE] + Field(ATV_ID, HexEncode(c.atvId)) + [COMMA] + Field(CLIENT_ID, Escape(c.clientId))
    + [COMMA] + Field(LTPK, HexEncode(c.ltpk)) + [COMMA] + Field(LTSK, HexEncode(c.ltsk)) + [RBRACE]
  }
}
