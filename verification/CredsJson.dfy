/** The credentials reader and writer as they work through the text: appending loops and a moving cursor. */
module CredsJson {
  import opened Wire
  import opened CredsSpec
  import opened CredsProof

  method RaopHexEncode(b: Bytes) returns (out: Bytes)
    ensures out == HexEncode(b)
  {
    out := [];
    var k := 0;
    while k < |b|
      invariant k <= |b| && out == HexEncode(b)[..2 * k]
    {
      assert HexEncode(b)[2 * k] == HexOf(b[k])[0] && HexEncode(b)[2 * k + 1] == HexOf(b[k])[1];
      out := out + [HexDigit(b[k] / 16)];
      out := out + [HexDigit(b[k] % 16)];
      k := k + 1;
    }
  }

  method RaopHexDecode(hex: Bytes) returns (r: Option<Bytes>)
    ensures r == HexDecode(hex)
  {
    if |hex| % 2 != 0 { return None; }
    var out: Bytes := [];
    var k := 0;
    while k < |hex| / 2
      invariant k <= |hex| / 2 && HexDecodeTo(hex, k) == Some(out)
    {
      var hi, lo := Nibble(hex[2 * k]), Nibble(hex[2 * k + 1]);
      if hi.None? || lo.None? {
        DecodeStops(hex, k + 1, |hex| / 2);
        return None;
      }
      out := out + [16 * hi.value + lo.value];
      k := k + 1;
    }
    return Some(out);
  }

  lemma {:induction false} DecodeStops(hex: Bytes, k: nat, n: nat)
    requires k <= n && 2 * n <= |hex| && HexDecodeTo(hex, k).None?
    ensures HexDecodeTo(hex, n).None?
    decreases n - k
  {
    if k < n {
      DecodeStops(hex, k + 1, n);
    }
  }

  lemma {:induction false} EscapeMore(s: Bytes, k: nat)
    requires k < |s|
    ensures Escape(s[..k + 1]) == Escape(s[..k]) + EscapeByte(s[k])
    decreases k
  {
    if k == 0 {
      assert s[..1] == [s[0]] && s[..0] == [] && [s[0]][1..] == [];
      assert Escape([]) == [];
    } else {
      assert s[..k + 1][1..] == s[1..][..k] && s[..k][1..] == s[1..][..k - 1];
      EscapeMore(s[1..], k - 1);
    }
  }

  method JsonEscapeInto(prefix: Bytes, s: Bytes) returns (out: Bytes)
    ensures out == prefix + Escape(s)
  {
    hide Escape;
    out := prefix;
    var k := 0;
    EscapeNothing();
    assert s[..0] == [];
    while k < |s|
      invariant k <= |s| && out == prefix + Escape(s[..k])
    {
      EscapeMore(s, k);
      out := out + EscapeByte(s[k]);
      k := k + 1;
    }
    assert s[..k] == s;
  }

  lemma EscapeNothing()
    ensures Escape([]) == []
  {
  }

  // What a string becomes when `out` has been read before it.
  function Prepend(out: Bytes, rest: Option<(Bytes, nat)>): Option<(Bytes, nat)>
  {
    match rest case None => None case Some(t) => Some((out + t.0, t.1))
  }

  class JsonCursor {
    const s: Bytes
    var i: nat

    constructor (text: Bytes)
      ensures s == text && i == 0
    {
      s, i := text, 0;
    }

    method Ws()
      modifies this
      ensures i == SkipWs(s, old(i))
    {
      while i < |s| && IsWs(s[i])
        invariant SkipWs(s, i) == SkipWs(s, old(i))
        decreases |s| - i
      {
        i := i + 1;
      }
    }

    method EatChar(c: Byte) returns (ok: bool)
      modifies this
      ensures ok <==> Eat(s, old(i), c).Some?
      ensures i == if ok then Eat(s, old(i), c).value else SkipWs(s, old(i))
    {
      Ws();
      if i < |s| && s[i] == c {
        i := i + 1;
        return true;
      }
      return false;
    }

    // One escape or plain byte of a string.
    method ParsePiece() returns (p: Option<Bytes>)
      modifies this
      requires i < |s| && s[i] != QUOTE
      ensures p.Some? <==> Piece(s, old(i)).Some?
      ensures p.Some? ==> Piece(s, old(i)) == Some((p.value, i))
    {
      var c := s[i];
      i := i + 1;
      if c != BACKSLASH { return Some([c]); }
      if i >= |s| { return None; }
      var e := s[i];
      i := i + 1;
      if e == 117 {
        var cp := CodePoint(s, i);
        if cp.None? { return None; }
        i := i + 4;
        return Some(Utf8(cp.value));
      }
      var b := Unescape(e);
      if b.None? { return None; }
      return Some([b.value]);
    }

    method ParseStr() returns (r: Option<Bytes>)
      modifies this
      ensures r.Some? <==> Str(s, old(i)).Some?
      ensures r.Some? ==> Str(s, old(i)) == Some((r.value, i))
    {
      hide Piece;
      Ws();
      if i >= |s| || s[i] != QUOTE { return None; }
      i := i + 1;
      ghost var start := i;
      var out: Bytes := [];
      BodyStart(s, i);
      while i < |s|
        invariant start <= i && Prepend(out, StrBody(s, i)) == StrBody(s, start)
        decreases |s| - i
      {
        if s[i] == QUOTE {
          i := i + 1;
          assert out + [] == out;
          return Some(out);
        }
        BodyStep(s, i, out);
        var p := ParsePiece();
        if p.None? { return None; }
        out := out + p.value;
      }
      BodyEnd(s, i);
      return None;
    }

    method SkipContainer() returns (ok: bool)
      requires i < |s| && (s[i] == LBRACE || s[i] == LBRACKET)
      modifies this
      ensures ok <==> SkipNested(s, old(i), 0, false).Some?
      ensures ok ==> SkipNested(s, old(i), 0, false) == Some(i)
    {
      var depth := 0;
      var inStr := false;
      while i < |s|
        invariant depth >= 0 && ((i == old(i) && !inStr) || depth >= 1)
        invariant SkipNested(s, i, depth, inStr) == SkipNested(s, old(i), 0, false)
        decreases |s| - i
      {
        var c := s[i];
        i := i + 1;
        if inStr {
          if c == BACKSLASH { i := i + 1; } else if c == QUOTE { inStr := false; }
        } else if c == QUOTE {
          inStr := true;
        } else if c == LBRACE || c == LBRACKET {
          depth := depth + 1;
        } else if c == RBRACE || c == RBRACKET {
          depth := depth - 1;
          if depth == 0 { return true; }
        }
      }
      return false;
    }

    method SkipAny() returns (ok: bool)
      modifies this
      ensures ok <==> SkipValue(s, old(i)).Some?
      ensures ok ==> SkipValue(s, old(i)) == Some(i)
    {
      hide SkipNested, StrBody;
      Ws();
      SkipWsTwice(s, old(i));
      if i >= |s| { return false; }
      if s[i] == QUOTE {
        var sink := ParseStr();
        return sink.Some?;
      }
      if s[i] == LBRACE || s[i] == LBRACKET {
        ok := SkipContainer();
        return;
      }
      ghost var j := i;
      while i < |s| && s[i] != COMMA && s[i] != RBRACE && s[i] != RBRACKET
        invariant SkipLiteral(s, i) == SkipLiteral(s, j)
        decreases |s| - i
      {
        i := i + 1;
      }
      return true;
    }
  }

  lemma BodyStart(s: Bytes, i: nat)
    ensures Prepend([], StrBody(s, i)) == StrBody(s, i)
  {
    if StrBody(s, i).Some? {
      assert [] + StrBody(s, i).value.0 == StrBody(s, i).value.0;
    }
  }

  lemma BodyStep(s: Bytes, i: nat, out: Bytes)
    requires i < |s| && s[i] != QUOTE
    ensures match Piece(s, i)
      case None => Prepend(out, StrBody(s, i)) == None
      case Some(p) => Prepend(out, StrBody(s, i)) == Prepend(out + p.0, StrBody(s, p.1))
  {
    hide Piece;
    match Piece(s, i)
    case None =>
    case Some(p) =>
      if StrBody(s, p.1).Some? {
        assert out + (p.0 + StrBody(s, p.1).value.0) == out + p.0 + StrBody(s, p.1).value.0;
      }
  }

  lemma BodyEnd(s: Bytes, i: nat)
    requires i >= |s|
    ensures StrBody(s, i) == None
  {
  }

  lemma EatAfterWs(s: Bytes, i: nat, c: Byte)
    ensures Eat(s, SkipWs(s, i), c) == Eat(s, i, c)
  {
    SkipWsTwice(s, i);
  }

  method RaopCredsToJson(c: Creds) returns (out: Bytes)
    ensures out == ToJson(c)
  {
    hide Escape, HexEncode;
    var id := RaopHexEncode(c.atvId);
    out := [LBRACE] + Field(ATV_ID, id) + [COMMA, QUOTE] + CLIENT_ID + [QUOTE, COLON, QUOTE];
    out := JsonEscapeInto(out, c.clientId);
    var pk := RaopHexEncode(c.ltpk);
    var sk := RaopHexEncode(c.ltsk);
    out := out + [QUOTE, COMMA] + Field(LTPK, pk) + [COMMA] + Field(LTSK, sk) + [RBRACE];
    JsonJoins(id, Escape(c.clientId), pk, sk);
  }

  lemma JsonJoins(id: Bytes, client: Bytes, pk: Bytes, sk: Bytes)
    ensures [LBRACE] + Field(ATV_ID, id) + [COMMA, QUOTE] + CLIENT_ID + [QUOTE, COLON, QUOTE] + client
      + [QUOTE, COMMA] + Field(LTPK, pk) + [COMMA] + Field(LTSK, sk) + [RBRACE]
      == [LBRACE] + Field(ATV_ID, id) + [COMMA] + Field(CLIENT_ID, client)
      + [COMMA] + Field(LTPK, pk) + [COMMA] + Field(LTSK, sk) + [RBRACE]
  {
    var head := [LBRACE] + Field(ATV_ID, id);
    var tail := Field(LTPK, pk) + [COMMA] + Field(LTSK, sk) + [RBRACE];
    assert head + [COMMA, QUOTE] + CLIENT_ID + [QUOTE, COLON, QUOTE] + client + [QUOTE, COMMA]
        == head + [COMMA] + Field(CLIENT_ID, client) + [COMMA];
  }

  // The four values found so far, as the map the specification keeps.
  datatype Found = Found(ltsk: Option<Bytes>, ltpk: Option<Bytes>, atvId: Option<Bytes>, clientId: Option<Bytes>)

  ghost predicate Records(v: Found, f: Fields)
  {
    && (v.ltsk == if LTSK in f then Some(f[LTSK]) else None)
    && (v.ltpk == if LTPK in f then Some(f[LTPK]) else None)
    && (v.atvId == if ATV_ID in f then Some(f[ATV_ID]) else None)
    && (v.clientId == if CLIENT_ID in f then Some(f[CLIENT_ID]) else None)
  }

  function Store(v: Found, key: Bytes, val: Bytes): Found
  {
    if key == LTSK then v.(ltsk := Some(val))
    else if key == LTPK then v.(ltpk := Some(val))
    else if key == ATV_ID then v.(atvId := Some(val))
    else v.(clientId := Some(val))
  }

  lemma Recorded(v: Found, f: Fields, key: Bytes, val: Bytes)
    requires Records(v, f) && Known(key)
    ensures Records(Store(v, key, val), f[key := val])
  {
  }

  method ReadMembers(cur: JsonCursor) returns (v: Option<Found>, ghost f: Fields)
    modifies cur
    ensures v.Some? <==> Members(cur.s, old(cur.i), map[]).Some?
    ensures v.Some? ==> Members(cur.s, old(cur.i), map[]) == Some(f) && Records(v.value, f)
  {
    hide Str, Eat, SkipValue, Known, Records;
    var found := Found(None, None, None, None);
    f := map[];
    assert Records(found, f) by { NothingRecorded(); }
    while true
      invariant Records(found, f) && Members(cur.s, cur.i, f) == Members(cur.s, old(cur.i), map[])
      decreases |cur.s| - cur.i
    {
      ghost var at := cur.i;
      var key := cur.ParseStr();
      if key.None? { return None, f; }
      var colon := cur.EatChar(COLON);
      if !colon { return None, f; }
      if Known(key.value) {
        var val := cur.ParseStr();
        if val.None? { return None, f; }
        Recorded(found, f, key.value, val.value);
        found := Store(found, key.value, val.value);
        f := f[key.value := val.value];
      } else {
        var skipped := cur.SkipAny();
        if !skipped { return None, f; }
      }
      assert MoreMembers(cur.s, cur.i, f) == Members(cur.s, old(cur.i), map[]);
      EatAfterWs(cur.s, cur.i, RBRACE);
      Progress(cur.s, at, cur.i);
      var comma := cur.EatChar(COMMA);
      if !comma {
        var brace := cur.EatChar(RBRACE);
        if brace { return Some(found), f; }
        return None, f;
      }
    }
  }

  lemma NothingRecorded()
    ensures Records(Found(None, None, None, None), map[])
  {
  }

  lemma Progress(s: Bytes, at: nat, i: nat)
    ensures Eat(s, i, COMMA).Some? ==> i < Eat(s, i, COMMA).value <= |s|
  {
  }

  method RaopCredsFromJson(json: Bytes) returns (r: Option<Creds>)
    ensures r == FromJson(json)
  {
    hide Str, Eat, SkipValue, Members, HexDecode;
    var cur := new JsonCursor(json);
    var ok := cur.EatChar(LBRACE);
    if !ok { return None; }
    EatAfterWs(json, cur.i, QUOTE);
    MembersAfterWs(json, cur.i);
    var empty := cur.EatChar(RBRACE);
    if empty { return None; }
    ghost var f;
    var v: Option<Found>;
    v, f := ReadMembers(cur);
    if v.None? { return None; }
    var found := v.value;
    if found.ltsk.None? || found.ltpk.None? || found.atvId.None? || found.clientId.None? { return None; }
    var sk := RaopHexDecode(found.ltsk.value);
    var pk := RaopHexDecode(found.ltpk.value);
    var id := RaopHexDecode(found.atvId.value);
    if sk.None? || pk.None? || id.None? { return None; }
    return Some(Creds(sk.value, pk.value, id.value, found.clientId.value));
  }

  lemma MembersAfterWs(s: Bytes, i: nat)
    ensures Members(s, SkipWs(s, i), map[]) == Members(s, i, map[])
  {
    EatAfterWs(s, i, QUOTE);
  }
}
