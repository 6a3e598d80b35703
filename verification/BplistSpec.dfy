/** The bplist00 printer and parser as functions: what the Encoder and Decoder classes are proved against. */
module BplistSpec {
  import opened Wire

  datatype Value =
    | Bool(b: bool)
    | Int(i: Int64)
    | Real(bits: Word64)          // the double's bit pattern
    | Str(s: Bytes)
    | Data(data: Bytes)
    | Arr(arr: seq<Value>)
    | Dict(dict: seq<Entry>)

  datatype Entry = Entry(key: Bytes, value: Value)

  const MAX_DEPTH: nat := 32
  const MAX_FILE: nat := 0x0800_0000_0000_0000   // far above any vector that fits in memory

  // ---- Value trees ----

  // Objects the encoder emits for v: one for v itself and one for each key and value below it.
  function Count(v: Value): (n: nat)
    ensures n >= 1
  {
    match v
    case Arr(a) => 1 + CountValues(a)
    case Dict(d) => 1 + CountEntries(d)
    case _ => 1
  }

  function CountValues(vs: seq<Value>): nat
  {
    if vs == [] then 0 else CountValues(vs[..|vs| - 1]) + Count(vs[|vs| - 1])
  }

  function CountEntries(es: seq<Entry>): nat
  {
    if es == [] then 0 else CountEntries(es[..|es| - 1]) + 1 + Count(es[|es| - 1].value)
  }

  // The children in the order the encoder visits them; a dictionary alternates key and value.
  function Kids(v: Value): (ks: seq<Value>)
  {
    match v
    case Arr(a) => a
    case Dict(d) => KidsOfEntries(d)
    case _ => []
  }

  function KidsOfEntries(es: seq<Entry>): (ks: seq<Value>)
    ensures |ks| == 2 * |es|
    ensures forall i :: 0 <= i < |es| ==> ks[2 * i] == Str(es[i].key) && ks[2 * i + 1] == es[i].value
  {
    if es == [] then []
    else KidsOfEntries(es[..|es| - 1]) + [Str(es[|es| - 1].key), es[|es| - 1].value]
  }

  // Objects taken by the first n children.
  function SumCount(kids: seq<Value>, n: nat): nat
    requires n <= |kids|
  {
    if n == 0 then 0 else SumCount(kids, n - 1) + Count(kids[n - 1])
  }

  lemma {:induction false} SumCountPrefix(a: seq<Value>, b: seq<Value>, n: nat)
    requires n <= |a| && n <= |b| && a[..n] == b[..n]
    ensures SumCount(a, n) == SumCount(b, n)
  {
    if n > 0 {
      assert a[..n - 1] == a[..n][..n - 1] == b[..n][..n - 1] == b[..n - 1];
      assert a[n - 1] == a[..n][n - 1] == b[..n][n - 1] == b[n - 1];
      SumCountPrefix(a, b, n - 1);
    }
  }

  lemma {:induction false} SumCountMonotone(kids: seq<Value>, i: nat, n: nat)
    requires i <= n <= |kids|
    ensures SumCount(kids, i) + (n - i) <= SumCount(kids, n)
  {
    if i < n {
      SumCountMonotone(kids, i, n - 1);
    }
  }

  lemma {:induction false} CountValuesIsSum(vs: seq<Value>)
    ensures CountValues(vs) == SumCount(vs, |vs|)
  {
    if vs != [] {
      CountValuesIsSum(vs[..|vs| - 1]);
      SumCountPrefix(vs[..|vs| - 1], vs, |vs| - 1);
    }
  }

  lemma {:induction false} CountEntriesIsSum(es: seq<Entry>)
    ensures CountEntries(es) == SumCount(KidsOfEntries(es), 2 * |es|)
  {
    if es != [] {
      var front, ks := KidsOfEntries(es[..|es| - 1]), KidsOfEntries(es);
      CountEntriesIsSum(es[..|es| - 1]);
      SumCountPrefix(front, ks, |front|);
      assert SumCount(ks, 2 * |es|) == SumCount(ks, 2 * |es| - 1) + Count(ks[2 * |es| - 1]);
      assert SumCount(ks, 2 * |es| - 1) == SumCount(ks, 2 * |es| - 2) + Count(ks[2 * |es| - 2]);
    }
  }

  lemma CountIsSum(v: Value)
    ensures Count(v) == 1 + SumCount(Kids(v), |Kids(v)|)
  {
    match v
    case Arr(a) => CountValuesIsSum(a);
    case Dict(d) => CountEntriesIsSum(d);
    case _ =>
  }

  lemma KidCount(v: Value, j: nat)
    requires j < |Kids(v)|
    ensures Count(Kids(v)[j]) < Count(v)
    ensures SumCount(Kids(v), j) + Count(Kids(v)[j]) == SumCount(Kids(v), j + 1) < Count(v)
  {
    CountIsSum(v);
    SumCountMonotone(Kids(v), j + 1, |Kids(v)|);
  }

  // Nesting: 0 for leaves and for empty containers.
  function Height(v: Value): nat
    decreases Count(v), 0
  {
    CountIsSum(v);
    if Kids(v) == [] then 0 else 1 + MaxHeight(Kids(v), |Kids(v)|)
  }

  function MaxHeight(kids: seq<Value>, n: nat): nat
    requires n <= |kids|
    decreases SumCount(kids, n), n
  {
    if n == 0 then 0
    else
      var h, m := Height(kids[n - 1]), MaxHeight(kids, n - 1);
      if h > m then h else m
  }

  lemma {:induction false} MaxHeightAtMost(kids: seq<Value>, n: nat, h: nat)
    requires n <= |kids|
    ensures MaxHeight(kids, n) <= h <==> forall j :: 0 <= j < n ==> Height(kids[j]) <= h
  {
    hide Height, Count;
    if n > 0 {
      MaxHeightAtMost(kids, n - 1, h);
    }
  }

  // ---- Encoding ----

  // 1 << k
  function Shl1(k: nat): (p: nat)
    ensures p >= 1
  {
    if k == 0 then 1 else 2 * Shl1(k - 1)
  }

  // log2 of the byte width chosen for an integer: the smallest of 1, 2, 4, 8 bytes that holds it.
  function IntWidth(i: Int64): (e: nat)
    ensures e <= 3
  {
    if 0 <= i <= 0xFF then 0
    else if 0 <= i <= 0xFFFF then 1
    else if 0 <= i <= 0xFFFF_FFFF then 2
    else 3
  }

  function IntBytes(i: Int64): Bytes
  {
    [0x10 + IntWidth(i)] + BE(U64(i), Shl1(IntWidth(i)))
  }

  // A type marker with the count in its low nibble, or 15 there and the count as an inline integer.
  function MarkerLen(marker: Byte, len: nat): Bytes
    requires marker <= 0xF0 && marker % 16 == 0
  {
    if len < 15 then [marker + len] else [marker + 15] + IntBytes(S64(U64(len)))
  }

  // Numbers of `width` bytes, one after another.
  function Fields(ns: seq<nat>, width: nat): (r: Bytes)
    ensures |r| == width * |ns|
  {
    if ns == [] then []
    else
      assert width * |ns| == width * (|ns| - 1) + width;
      Fields(ns[..|ns| - 1], width) + BE(ns[|ns| - 1], width)
  }

  // Our own references and offsets take four bytes.
  function RefBytes(refs: seq<nat>): (r: Bytes)
    ensures |r| == 4 * |refs|
  {
    Fields(refs, 4)
  }

  // Table index of child j of the object at table index `base`.
  function KidRef(kids: seq<Value>, base: nat, j: nat): nat
    requires j <= |kids|
  {
    base + 1 + SumCount(kids, j)
  }

  function ArrRefs(kids: seq<Value>, base: nat): (refs: seq<nat>)
    ensures |refs| == |kids|
  {
    seq(|kids|, j requires 0 <= j < |kids| => KidRef(kids, base, j))
  }

  function KeyRefs(kids: seq<Value>, base: nat): (refs: seq<nat>)
    ensures |refs| == |kids| / 2
  {
    seq(|kids| / 2, j requires 0 <= j < |kids| / 2 => KidRef(kids, base, 2 * j))
  }

  function ValueRefs(kids: seq<Value>, base: nat): (refs: seq<nat>)
    ensures |refs| == |kids| / 2
  {
    seq(|kids| / 2, j requires 0 <= j < |kids| / 2 => KidRef(kids, base, 2 * j + 1))
  }

  // The bytes of v's own object when it sits at table index `base`.
  function Own(v: Value, base: nat): (o: Bytes)
    ensures o != []
  {
    match v
    case Bool(b) => [if b then 0x09 else 0x08]
    case Int(i) => IntBytes(i)
    case Real(bits) => [0x23] + BE(bits, 8)
    case Str(s) => MarkerLen(0x50, |s|) + s
    case Data(b) => MarkerLen(0x40, |b|) + b
    case Arr(a) => MarkerLen(0xA0, |a|) + RefBytes(ArrRefs(Kids(v), base))
    case Dict(d) => MarkerLen(0xD0, |d|) + RefBytes(KeyRefs(Kids(v), base)) + RefBytes(ValueRefs(Kids(v), base))
  }

  // The part of the object table v produces when its root lands at table index `base`: root first, then the
  // children left to right.
  function Table(v: Value, base: nat): (t: seq<Bytes>)
    ensures |t| == Count(v)
    decreases Count(v), 0
  {
    CountIsSum(v);
    [Own(v, base)] + TableTo(Kids(v), base + 1, |Kids(v)|)
  }

  function TableTo(kids: seq<Value>, start: nat, n: nat): (t: seq<Bytes>)
    requires n <= |kids|
    ensures |t| == SumCount(kids, n)
    decreases SumCount(kids, n), n
  {
    if n == 0 then []
    else TableTo(kids, start, n - 1) + Table(kids[n - 1], start + SumCount(kids, n - 1))
  }

  const HEADER: Bytes := [0x62, 0x70, 0x6C, 0x69, 0x73, 0x74, 0x30, 0x30]   // "bplist00"

  // The first n objects back to back.
  function Flat(t: seq<Bytes>, n: nat): Bytes
    requires n <= |t|
  {
    if n == 0 then [] else Flat(t, n - 1) + t[n - 1]
  }

  function Offset(t: seq<Bytes>, i: nat): nat
    requires i <= |t|
  {
    8 + |Flat(t, i)|
  }

  function Offsets(t: seq<Bytes>, n: nat): (os: seq<nat>)
    requires n <= |t|
    ensures |os| == n
  {
    seq(n, i requires 0 <= i < n => Offset(t, i))
  }

  function Trailer(numObjects: nat, offsetTable: nat): (r: Bytes)
    ensures |r| == 32
  {
    [0, 0, 0, 0, 0, 0, 4, 4] + BE(numObjects, 8) + BE(0, 8) + BE(offsetTable, 8)
  }

  function File(t: seq<Bytes>): Bytes
  {
    HEADER + Flat(t, |t|) + RefBytes(Offsets(t, |t|)) + Trailer(|t|, Offset(t, |t|))
  }

  function Encode(v: Value): Bytes
  {
    File(Table(v, 0))
  }

  // ---- Decoding ----

  // Big-endian read of n >= 1 bytes; the flag is false, and the value 0, when the read leaves the file.
  function ReadBE(d: Bytes, at: nat, n: nat): (Word64, bool)
  {
    if at + n <= |d| then (U64(ReadWord(d, at, n)), true) else (0, false)
  }

  // What parseTrailer leaves in the Decoder.
  datatype Image = Image(d: Bytes, refSize: nat, offsets: seq<Word64>)

  predicate ValidSize(s: nat) { s == 1 || s == 2 || s == 4 || s == 8 }

  predicate ValidImage(m: Image)
  {
    |m.d| <= MAX_FILE && ValidSize(m.refSize) && |m.offsets| <= |m.d|
  }

  function ParseTrailer(d: Bytes): (r: Option<Image>)
    requires |d| <= MAX_FILE
    ensures r.Some? ==> ValidImage(r.value) && r.value.d == d
  {
    if |d| < 8 + 32 || d[..8] != HEADER then None
    else
      var tr := |d| - 32;
      var offsetSize: nat, refSize: nat := d[tr + 6], d[tr + 7];
      var numObjects: nat, table: nat := ReadBE(d, tr + 8, 8).0, ReadBE(d, tr + 24, 8).0;
      if !ValidSize(offsetSize) || !ValidSize(refSize) then None
      else if table > |d| || numObjects > |d| || numObjects > (|d| - table) / offsetSize then None
      else Some(Image(d, refSize, OffsetsOf(d, table, offsetSize, numObjects)))
  }

  function OffsetsOf(d: Bytes, table: nat, offsetSize: nat, n: nat): (os: seq<Word64>)
    ensures |os| == n
  {
    seq(n, i requires 0 <= i < n => ReadBE(d, table + i * offsetSize, offsetSize).0)
  }

  // The element count: the marker's low nibble, or an inline integer object when that nibble is 15.
  datatype Counted = Counted(cnt: Word64, pos: nat, ok: bool)

  function ReadCount(d: Bytes, lo: nat, pos: nat, ok: bool): (r: Counted)
    requires lo < 16 && pos <= |d|
    ensures pos <= r.pos <= pos + 1 + Shl1(15)
  {
    if lo != 15 then Counted(lo, pos, ok)
    else if pos >= |d| then Counted(0, pos, false)
    else
      var n := Shl1(d[pos] % 16);
      Shl1Monotone(d[pos] % 16, 15);
      var c := ReadBE(d, pos + 1, n);
      Counted(c.0, pos + 1 + n, ok && c.1)
  }

  lemma {:induction false} Shl1Monotone(a: nat, b: nat)
    requires a <= b
    ensures Shl1(a) <= Shl1(b)
  {
    if a < b {
      Shl1Monotone(a, b - 1);
    }
  }

  // IEEE single to double, on bit patterns.
  function Widen(b32: nat): Word64
    requires b32 < TWO_32
  {
    var sign, exp, man := b32 / 0x8000_0000, b32 / 0x80_0000 % 256, b32 % 0x80_0000;
    var high := sign * TWO_63;
    if exp == 255 then high + 0x7FF0_0000_0000_0000 + man * 0x2000_0000
    else if exp > 0 then high + (exp + 896) * 0x10_0000_0000_0000 + man * 0x2000_0000
    else if man == 0 then high
    else Shl23(); high + WidenSubnormal(man, 896)
  }

  lemma Shl23()
    ensures Shl1(23) == 0x80_0000
  {
    assert Shl1(8) == 256;
    assert Shl1(16) == 256 * Shl1(8);
  }

  // A subnormal's mantissa shifted up until its leading bit reaches the implicit position.
  function WidenSubnormal(man: nat, exp: nat): (r: nat)
    requires 0 < man < 0x80_0000 && 874 <= exp <= 896
    requires man * Shl1(exp - 873) >= 0x80_0000
    ensures r < TWO_63
    decreases exp
  {
    if 2 * man >= 0x80_0000 then exp * 0x10_0000_0000_0000 + (2 * man - 0x80_0000) * 0x2000_0000
    else
      assert Shl1(exp - 873) == 2 * Shl1(exp - 874);
      WidenSubnormal(2 * man, exp - 1)
  }

  function Utf16Low(d: Bytes, pos: nat, cnt: nat): Bytes
  {
    var have := if pos + 1 < |d| then (|d| - pos) / 2 else 0;
    var n := Min(cnt, have);
    seq(n, i requires 0 <= i < n => d[pos + 2 * i + 1])
  }

  type Decoded = (Option<Value>, bool)

  // The object kinds without children. `pos` is just past the marker.
  function Scalar(d: Bytes, marker: Byte, pos: nat, ok: bool): Decoded
    requires pos <= |d| <= MAX_FILE
  {
    var hi, lo := marker / 16, marker % 16;
    if hi == 0 then (Some(Bool(marker == 0x09)), ok)
    else if hi == 1 then
      var r := ReadBE(d, pos, Shl1(lo));
      (Some(Int(S64(r.0))), ok && r.1)
    else if hi == 2 then
      var r := ReadBE(d, pos, Shl1(lo));
      (Some(Real(if lo == 3 then r.0 else if lo == 2 then Widen(r.0 % TWO_32) else 0)), ok && r.1)
    else if hi == 4 || hi == 5 then
      var c := ReadCount(d, lo, pos, ok);
      if c.cnt > |d| || U64(c.pos + c.cnt) > |d| then (None, c.ok)
      else
        CountInFile(d, c, pos);
        var bytes := d[c.pos..c.pos + c.cnt];
        (Some(if hi == 4 then Data(bytes) else Str(bytes)), c.ok)
    else if hi == 6 then
      var c := ReadCount(d, lo, pos, ok);
      if c.cnt > |d| then (None, c.ok) else (Some(Str(Utf16Low(d, c.pos, c.cnt))), c.ok)
    else (None, ok)
  }

  // With the count bounded first, the 64-bit sum of the second guard cannot wrap.
  lemma CountInFile(d: Bytes, c: Counted, pos: nat)
    requires |d| <= MAX_FILE && pos <= |d| && c.pos <= pos + 1 + Shl1(15)
    requires c.cnt <= |d| && U64(c.pos + c.cnt) <= |d|
    ensures c.pos + c.cnt <= |d|
  {
    assert Shl1(15) == 0x8000 by {
      assert Shl1(4) == 16;
      assert Shl1(8) == 16 * Shl1(4);
      assert Shl1(12) == 16 * Shl1(8);
    }
  }

  function Object(m: Image, ref: nat, depth: nat, ok: bool): (r: Decoded)
    requires ValidImage(m) && depth <= MAX_DEPTH + 1
    decreases MAX_DEPTH + 1 - depth, 2, 0
  {
    if depth > MAX_DEPTH || ref >= |m.offsets| then (None, ok)
    else if m.offsets[ref] >= |m.d| then (None, ok)
    else
      var pos: nat := m.offsets[ref];
      var marker := m.d[pos];
      if marker / 16 == 0xA then ArrayAt(m, marker % 16, pos + 1, depth, ok)
      else if marker / 16 == 0xD then DictAt(m, marker % 16, pos + 1, depth, ok)
      else Scalar(m.d, marker, pos + 1, ok)
  }

  // An array cannot refer to more objects than there are, and its references must lie inside the file.
  function ArrayAt(m: Image, lo: nat, pos: nat, depth: nat, ok: bool): (r: Decoded)
    requires ValidImage(m) && depth <= MAX_DEPTH && lo < 16 && pos <= |m.d|
    decreases MAX_DEPTH + 1 - depth, 1, 0
  {
    var c := ReadCount(m.d, lo, pos, ok);
    if !c.ok || c.cnt > |m.offsets| || U64(c.pos + c.cnt * m.refSize) > |m.d| then (None, c.ok)
    else
      var r := Elements(m, c.pos, c.cnt, 0, [], depth, c.ok);
      (if r.0.Some? then Some(Arr(r.0.value)) else None, r.1)
  }

  function DictAt(m: Image, lo: nat, pos: nat, depth: nat, ok: bool): (r: Decoded)
    requires ValidImage(m) && depth <= MAX_DEPTH && lo < 16 && pos <= |m.d|
    decreases MAX_DEPTH + 1 - depth, 1, 0
  {
    var c := ReadCount(m.d, lo, pos, ok);
    if !c.ok || c.cnt > |m.offsets| || U64(c.pos + 2 * c.cnt * m.refSize) > |m.d| then (None, c.ok)
    else
      var r := Entries(m, c.pos, c.cnt, 0, [], depth, c.ok);
      (if r.0.Some? then Some(Dict(r.0.value)) else None, r.1)
  }

  // The array loop from its i-th turn on.
  function Elements(m: Image, pos: nat, cnt: nat, i: nat, acc: seq<Value>, depth: nat, ok: bool)
    : (r: (Option<seq<Value>>, bool))
    requires ValidImage(m) && depth <= MAX_DEPTH && i <= cnt
    decreases MAX_DEPTH + 1 - depth, 0, cnt - i
  {
    if i == cnt then (Some(acc), ok)
    else
      var ref := ReadBE(m.d, pos + i * m.refSize, m.refSize);
      var child := Object(m, ref.0, depth + 1, ok && ref.1);
      if child.0.None? then (None, child.1)
      else Elements(m, pos, cnt, i + 1, acc + [child.0.value], depth, child.1)
  }

  function AsStr(v: Value): Bytes { if v.Str? then v.s else [] }

  // The dictionary loop from its i-th turn on; both halves are decoded before either is checked.
  function Entries(m: Image, pos: nat, cnt: nat, i: nat, acc: seq<Entry>, depth: nat, ok: bool)
    : (r: (Option<seq<Entry>>, bool))
    requires ValidImage(m) && depth <= MAX_DEPTH && i <= cnt
    decreases MAX_DEPTH + 1 - depth, 0, cnt - i
  {
    if i == cnt then (Some(acc), ok)
    else
      var kr := ReadBE(m.d, pos + i * m.refSize, m.refSize);
      var vr := ReadBE(m.d, pos + (cnt + i) * m.refSize, m.refSize);
      var k := Object(m, kr.0, depth + 1, ok && kr.1 && vr.1);
      var v := Object(m, vr.0, depth + 1, k.1);
      if k.0.None? || v.0.None? then (None, v.1)
      else Entries(m, pos, cnt, i + 1, acc + [Entry(AsStr(k.0.value), v.0.value)], depth, v.1)
  }

  function Decode(d: Bytes): Option<Value>
    requires |d| <= MAX_FILE
  {
    var m := ParseTrailer(d);
    if m.None? then None else Object(m.value, 0, 0, true).0
  }
}
