/** The byte-string helpers the header parsing is made of. */
module Text {
  import opened Wire

  const MAX_INT64: nat := 0x7FFF_FFFF_FFFF_FFFF

  function Ascii(s: string): Bytes { seq(|s|, i requires 0 <= i < |s| => (s[i] as int) % 256) }

  const LF: Byte := 10
  const CR: Byte := 13
  const COLON: Byte := 58
  const SPACE: Byte := 32
  const CRLF: Bytes := [CR, LF]

  predicate IsSpace(c: Byte) { c == 32 || 9 <= c <= 13 }
  predicate IsDigit(c: Byte) { 48 <= c <= 57 }

  // ---- Trimming ----

  function TrimLeft(s: Bytes): Bytes { if s != [] && IsSpace(s[0]) then TrimLeft(s[1..]) else s }

  function TrimRight(s: Bytes): Bytes { if s != [] && IsSpace(s[|s| - 1]) then TrimRight(s[..|s| - 1]) else s }

  function Trim(s: Bytes): Bytes { TrimRight(TrimLeft(s)) }

  lemma TrimLeftAt(s: Bytes, b: nat)
    requires b <= |s|
    ensures TrimLeft(s[b..]) == if b < |s| && IsSpace(s[b]) then TrimLeft(s[b + 1..]) else s[b..]
  {
    assert b < |s| ==> s[b..][1..] == s[b + 1..];
  }

  lemma TrimRightAt(s: Bytes, b: nat, e: nat)
    requires b <= e <= |s|
    ensures TrimRight(s[b..e]) == if b < e && IsSpace(s[e - 1]) then TrimRight(s[b..e - 1]) else s[b..e]
  {
    assert b < e ==> s[b..e][..e - b - 1] == s[b..e - 1];
  }

  method TrimAscii(s: Bytes) returns (r: Bytes)
    ensures r == Trim(s)
  {
    hide TrimLeft, TrimRight;
    var b, e := 0, |s|;
    while b < e && IsSpace(s[b])
      invariant b <= e && TrimLeft(s[b..]) == TrimLeft(s)
    {
      TrimLeftAt(s, b);
      b := b + 1;
    }
    TrimLeftAt(s, b);
    assert s[b..e] == s[b..];
    while e > b && IsSpace(s[e - 1])
      invariant b <= e <= |s| && TrimRight(s[b..e]) == Trim(s)
    {
      TrimRightAt(s, b, e);
      e := e - 1;
    }
    TrimRightAt(s, b, e);
    return s[b..e];
  }

  // ---- Searching and splitting ----

  // The first place from `from` on where c stands, or the end of s.
  function IndexOf(s: Bytes, c: Byte, from: nat): (i: nat)
    requires from <= |s|
    ensures from <= i <= |s| && (i < |s| ==> s[i] == c)
    decreases |s| - from
  {
    if from == |s| || s[from] == c then from else IndexOf(s, c, from + 1)
  }

  function SplitFrom(s: Bytes, sep: Byte, start: nat): (r: seq<Bytes>)
    requires start <= |s|
    ensures |r| > 0
    decreases |s| - start
  {
    var p := IndexOf(s, sep, start);
    if p == |s| then [s[start..]] else [s[start..p]] + SplitFrom(s, sep, p + 1)
  }

  function Split(s: Bytes, sep: Byte): seq<Bytes> { SplitFrom(s, sep, 0) }

  method SplitOn(s: Bytes, sep: Byte) returns (out: seq<Bytes>)
    ensures out == Split(s, sep) && |out| > 0
  {
    out := [];
    var start := 0;
    while true
      invariant start <= |s| && out + SplitFrom(s, sep, start) == Split(s, sep)
      decreases |s| - start
    {
      var p := IndexOf(s, sep, start);
      if p == |s| { return out + [s[start..]]; }
      assert out + SplitFrom(s, sep, start) == out + [s[start..p]] + SplitFrom(s, sep, p + 1);
      out := out + [s[start..p]];
      start := p + 1;
    }
  }

  function LowerOf(c: Byte): Byte { if 65 <= c <= 90 then c + 32 else c }

  function Lower(s: Bytes): Bytes { seq(|s|, i requires 0 <= i < |s| => LowerOf(s[i])) }

  predicate StartsWith(s: Bytes, p: Bytes) { |p| <= |s| && s[..|p|] == p }

  // ---- Numbers ----

  // The digits of s from i on, appended to the value v; None on a non-digit or past 2^63 - 1.
  function Digits(s: Bytes, i: nat, v: nat): Option<nat>
    requires i <= |s|
    decreases |s| - i
  {
    if i == |s| then Some(v)
    else if !IsDigit(s[i]) || v > (MAX_INT64 - (s[i] - 48)) / 10 then None
    else Digits(s, i + 1, 10 * v + (s[i] - 48))
  }

  function Signed(negative: bool, v: int): int { if negative then -v else v }

  // An optional sign and decimal digits, nothing else.
  function ParseInt(s: Bytes): Option<int>
  {
    var signed := s != [] && (s[0] == 43 || s[0] == 45);
    var i := if signed then 1 else 0;
    if i >= |s| then None
    else
      match Digits(s, i, 0)
      case None => None
      case Some(v) => Some(Signed(signed && s[0] == 45, v))
  }

  method ParseInteger(s: Bytes) returns (r: Option<int>)
    ensures r == ParseInt(s)
  {
    var i, neg := 0, false;
    if i < |s| && (s[i] == 43 || s[i] == 45) {
      neg := s[i] == 45;
      i := i + 1;
    }
    if i >= |s| { return None; }
    var v: nat := 0;
    ghost var from := i;
    while i < |s|
      invariant from <= i <= |s| && Digits(s, i, v) == Digits(s, from, 0)
    {
      var c := s[i];
      if !IsDigit(c) { return None; }
      if v > (MAX_INT64 - (c - 48)) / 10 { return None; }
      v := v * 10 + (c - 48);
      i := i + 1;
    }
    return Some(Signed(neg, v));
  }

  // int(v) of a 64-bit v: the low 32 bits, read as a signed number.
  function Low32(v: int): int
  {
    var w := v % TWO_32;
    if w < 0x8000_0000 then w else w - TWO_32
  }

  function ToInt(s: Bytes): int { match ParseInt(s) case None => 0 case Some(v) => Low32(v) }

  // As ToInt, but a value outside 32 bits is no number at all.
  function ToInt32(s: Bytes): Option<int>
  {
    match ParseInt(s)
    case None => None
    case Some(v) => if -0x8000_0000 <= v <= 0x7FFF_FFFF then Some(v) else None
  }

  // std::to_string
  function Decimal(n: nat): (r: Bytes)
    ensures |r| > 0
  {
    if n < 10 then [48 + n] else Decimal(n / 10) + [48 + n % 10]
  }

  lemma {:induction false} DigitsAppend(s: Bytes, i: nat, v: nat, c: Byte)
    requires i <= |s|
    ensures Digits(s + [c], i, v)
         == match Digits(s, i, v)
            case None => None
            case Some(w) => if !IsDigit(c) || w > (MAX_INT64 - (c - 48)) / 10 then None else Some(10 * w + (c - 48))
    decreases |s| - i
  {
    if i < |s| && IsDigit(s[i]) && v <= (MAX_INT64 - (s[i] - 48)) / 10 {
      DigitsAppend(s, i + 1, 10 * v + (s[i] - 48), c);
    } else if i == |s| {
      assert (s + [c])[i] == c;
    }
  }

  lemma {:induction false} DecimalDigits(n: nat)
    requires n <= MAX_INT64
    ensures Digits(Decimal(n), 0, 0) == Some(n) && IsDigit(Decimal(n)[0])
  {
    if n >= 10 {
      DecimalDigits(n / 10);
      DigitsAppend(Decimal(n / 10), 0, 0, 48 + n % 10);
    }
  }

  /** What to_string prints, the parser reads back. */
  lemma DecimalParses(n: nat)
    requires n <= MAX_INT64
    ensures ParseInt(Decimal(n)) == Some(n)
  {
    DecimalDigits(n);
  }

  /** A sign in front counts, one sign and no space; nothing but a sign is no number. */
  lemma SignedParses(n: int)
    requires 0 <= n <= MAX_INT64
    ensures ParseInt([45] + Decimal(n)) == Some(-n) && ParseInt([43] + Decimal(n)) == Some(n)
    ensures ParseInt([45]) == None && ParseInt([43]) == None && ParseInt([]) == None
  {
    hide Digits;
    DecimalParses(n);
    DecimalStarts(n);
    DigitsBehind([45], Decimal(n), 0, 0);
    DigitsBehind([43], Decimal(n), 0, 0);
  }

  lemma {:induction false} DecimalStarts(n: nat)
    ensures IsDigit(Decimal(n)[0])
  {
    if n >= 10 {
      DecimalStarts(n / 10);
    }
  }

  lemma {:induction false} DigitsBehind(front: Bytes, s: Bytes, i: nat, v: nat)
    requires i <= |s|
    ensures Digits(front + s, |front| + i, v) == Digits(s, i, v)
    decreases |s| - i
  {
    if i < |s| && IsDigit(s[i]) {
      DigitsBehind(front, s, i + 1, 10 * v + (s[i] - 48));
    }
  }
}
