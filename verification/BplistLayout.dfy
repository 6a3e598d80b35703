/** Property lists as other writers lay them out: any table of objects, referring to each other in any way, under any
    widths of references, offsets, integers and counts. What the decoder makes of a file is what its table means. */
module BplistLayout {
  import opened Wire
  import opened Slices
  import opened BplistSpec

  // How the number of elements is written: in the marker, or behind it in 2^e bytes.
  datatype Head = Nibble | Inline(e: nat)

  // An object as it stands in the table. A foreign one is of a kind the decoder does not know, a date for instance.
  datatype Obj =
    | Simple(marker: Byte)                      // null, a truth value or filler
    | IntObj(e: nat, word: nat)                 // in 2^e bytes
    | Real64(bits: Word64)
    | Real32(single: nat)
    | DataObj(head: Head, data: Bytes)
    | Ascii(head: Head, s: Bytes)
    | Utf16(head: Head, units: seq<nat>)
    | ArrObj(head: Head, refs: seq<nat>)
    | DictObj(head: Head, keys: seq<nat>, values: seq<nat>)
    | Foreign(bytes: Bytes)

  predicate HeadOk(h: Head, n: nat)
  {
    match h
    case Nibble => n < 15
    case Inline(e) => e < 16 && n < Pow256(Shl1(e))
  }

  predicate RefsOk(refs: seq<nat>, width: nat) { forall r :: r in refs ==> r < Pow256(width) }

  predicate ObjOk(o: Obj, width: nat)
  {
    match o
    case Simple(marker) => marker < 16
    case IntObj(e, word) => e < 16 && word < Pow256(Shl1(e))
    case Real64(_) => true
    case Real32(bits) => bits < TWO_32
    case DataObj(h, b) => HeadOk(h, |b|)
    case Ascii(h, s) => HeadOk(h, |s|)
    case Utf16(h, us) => HeadOk(h, |us|) && RefsOk(us, 2)
    case ArrObj(h, refs) => HeadOk(h, |refs|) && RefsOk(refs, width)
    case DictObj(h, ks, vs) => HeadOk(h, |ks|) && |ks| == |vs| && RefsOk(ks, width) && RefsOk(vs, width)
    case Foreign(b) => b != [] && b[0] / 16 in {3, 7, 8, 9, 11, 12, 14, 15}
  }

  function HeadBytes(marker: Byte, h: Head, n: nat): (r: Bytes)
    requires marker <= 0xF0 && marker % 16 == 0 && HeadOk(h, n)
    ensures r != []
  {
    match h
    case Nibble => [marker + n]
    case Inline(e) => [marker + 15, 0x10 + e] + BE(n, Shl1(e))
  }

  function Print(o: Obj, width: nat): (r: Bytes)
    requires ObjOk(o, width)
    ensures r != []
  {
    match o
    case Simple(marker) => [marker]
    case IntObj(e, word) => [0x10 + e] + BE(word, Shl1(e))
    case Real64(bits) => [0x23] + BE(bits, 8)
    case Real32(bits) => [0x22] + BE(bits, 4)
    case DataObj(h, b) => HeadBytes(0x40, h, |b|) + b
    case Ascii(h, s) => HeadBytes(0x50, h, |s|) + s
    case Utf16(h, us) => HeadBytes(0x60, h, |us|) + Fields(us, 2)
    case ArrObj(h, refs) => HeadBytes(0xA0, h, |refs|) + Fields(refs, width)
    case DictObj(h, ks, vs) => HeadBytes(0xD0, h, |ks|) + Fields(ks, width) + Fields(vs, width)
    case Foreign(b) => b
  }

  predicate TableOk(objs: seq<Obj>, width: nat) { forall i :: 0 <= i < |objs| ==> ObjOk(objs[i], width) }

  function Objects(objs: seq<Obj>, width: nat): (t: seq<Bytes>)
    requires TableOk(objs, width)
    ensures |t| == |objs|
  {
    seq(|objs|, i requires 0 <= i < |objs| => Print(objs[i], width))
  }

  // The widths, and what the decoder does not look at: six bytes of the trailer and the number of the top object.
  datatype Layout = Layout(offsetWidth: nat, refWidth: nat, spare: Bytes, top: nat)

  predicate LayoutOk(l: Layout) { ValidSize(l.offsetWidth) && ValidSize(l.refWidth) && |l.spare| == 6 }

  function TrailerWith(l: Layout, n: nat, table: nat): Bytes
    requires LayoutOk(l)
  {
    l.spare + [l.offsetWidth, l.refWidth] + BE(n, 8) + BE(l.top, 8) + BE(table, 8)
  }

  function FileOf(t: seq<Bytes>, l: Layout): Bytes
    requires LayoutOk(l)
  {
    HEADER + Flat(t, |t|) + Fields(Offsets(t, |t|), l.offsetWidth) + TrailerWith(l, |t|, Offset(t, |t|))
  }

  function FileWith(objs: seq<Obj>, l: Layout): Bytes
    requires LayoutOk(l) && TableOk(objs, l.refWidth)
  {
    FileOf(Objects(objs, l.refWidth), l)
  }

  // The offsets are small enough for their width.
  predicate Fitting(t: seq<Bytes>, l: Layout)
  {
    forall i :: 0 <= i < |t| ==> Offset(t, i) < Pow256(l.offsetWidth)
  }

  // ---- What a table means ----

  function LeafValue(o: Obj): Option<Value>
    requires !o.ArrObj? && !o.DictObj? && (o.Real32? ==> o.single < TWO_32)
  {
    match o
    case Simple(marker) => Some(Bool(marker == 9))
    case IntObj(_, word) => Some(Int(S64(U64(word))))
    case Real64(bits) => Some(Real(bits))
    case Real32(bits) => Some(Real(Widen(bits)))
    case DataObj(_, b) => Some(Data(b))
    case Ascii(_, s) => Some(Str(s))
    case Utf16(_, us) => Some(Str(seq(|us|, i requires 0 <= i < |us| => us[i] % 256)))
    case Foreign(_) => None
  }

  // The value of an object, nothing where it is unknown, missing or nested too deep, or where a container has more
  // elements than the whole table has objects.
  function Meaning(objs: seq<Obj>, width: nat, ref: nat, depth: nat): Option<Value>
    requires TableOk(objs, width) && depth <= MAX_DEPTH + 1
    decreases MAX_DEPTH + 1 - depth, 0
  {
    if depth > MAX_DEPTH || ref >= |objs| then None
    else
      match objs[ref]
      case ArrObj(_, refs) =>
        if |refs| > |objs| then None
        else
          (match Values(objs, width, refs, |refs|, depth + 1)
           case None => None
           case Some(vs) => Some(Arr(vs)))
      case DictObj(_, ks, vs) =>
        if |ks| > |objs| then None
        else
          (match Pairs(objs, width, ks, vs, |ks|, depth + 1)
           case None => None
           case Some(es) => Some(Dict(es)))
      case o => LeafValue(o)
  }

  // The values of the first n references, if they all have one.
  function Values(objs: seq<Obj>, width: nat, refs: seq<nat>, n: nat, depth: nat): Option<seq<Value>>
    requires TableOk(objs, width) && depth <= MAX_DEPTH + 1 && n <= |refs|
    decreases MAX_DEPTH + 1 - depth, n + 1
  {
    if n == 0 then Some([])
    else
      var before, v := Values(objs, width, refs, n - 1, depth), Meaning(objs, width, refs[n - 1], depth);
      if before.None? || v.None? then None else Some(before.value + [v.value])
  }

  function Pairs(objs: seq<Obj>, width: nat, keys: seq<nat>, values: seq<nat>, n: nat, depth: nat): Option<seq<Entry>>
    requires TableOk(objs, width) && depth <= MAX_DEPTH + 1 && n <= |keys| == |values|
    decreases MAX_DEPTH + 1 - depth, n + 1
  {
    if n == 0 then Some([])
    else
      var before := Pairs(objs, width, keys, values, n - 1, depth);
      var k, v := Meaning(objs, width, keys[n - 1], depth), Meaning(objs, width, values[n - 1], depth);
      if before.None? || k.None? || v.None? then None else Some(before.value + [Entry(AsStr(k.value), v.value)])
  }

  lemma {:induction false} ValuesStay(objs: seq<Obj>, width: nat, refs: seq<nat>, i: nat, n: nat, depth: nat)
    requires TableOk(objs, width) && depth <= MAX_DEPTH + 1 && i <= n <= |refs|
    ensures Values(objs, width, refs, i, depth).None? ==> Values(objs, width, refs, n, depth).None?
  {
    hide Meaning;
    if i < n {
      ValuesStay(objs, width, refs, i, n - 1, depth);
    }
  }

  lemma {:induction false} PairsStay(objs: seq<Obj>, width: nat, keys: seq<nat>, values: seq<nat>, i: nat, n: nat,
                                     depth: nat)
    requires TableOk(objs, width) && depth <= MAX_DEPTH + 1 && i <= n <= |keys| == |values|
    ensures Pairs(objs, width, keys, values, i, depth).None? ==> Pairs(objs, width, keys, values, n, depth).None?
  {
    hide Meaning;
    if i < n {
      PairsStay(objs, width, keys, values, i, n - 1, depth);
    }
  }

  // ---- Reading fields ----

  lemma Powers()
    ensures Pow256(1) == TWO_8 && Pow256(2) == TWO_16 && Pow256(4) == TWO_32 && Pow256(8) == TWO_64
  {
    assert Pow256(2) == 256 * Pow256(1);
    assert Pow256(4) == 256 * (256 * Pow256(2));
    assert Pow256(6) == 256 * (256 * Pow256(4));
    assert Pow256(8) == 256 * (256 * Pow256(6));
  }

  // Of a field wider than eight bytes its low 64 bits are read.
  lemma FieldReads(d: Bytes, p: nat, v: nat, n: nat)
    requires Has(d, p, BE(v, n)) && v < Pow256(n)
    ensures ReadBE(d, p, n) == (U64(v), true)
  {
    ReadWordInvertsBE(d, p, v, n);
  }

  lemma SmallWord(v: nat)
    requires v < TWO_64
    ensures U64(v) == v
  {
  }

  lemma {:induction false} FieldAt(ns: seq<nat>, width: nat, i: nat)
    requires i < |ns|
    ensures Has(Fields(ns, width), i * width, BE(ns[i], width))
  {
    hide BE, Has;
    var front, last := Fields(ns[..|ns| - 1], width), BE(ns[|ns| - 1], width);
    assert Fields(ns, width) == front + last;
    if i < |ns| - 1 {
      FieldAt(ns[..|ns| - 1], width, i);
      HasLeft(front, last, i * width, BE(ns[i], width));
    } else {
      Commutes(width, |ns| - 1);
      HasRight(front, last);
    }
  }

  lemma Commutes(a: nat, b: nat)
    ensures a * b == b * a
  {
  }

  lemma WidthFits(v: nat, width: nat)
    requires ValidSize(width) && v < Pow256(width)
    ensures v < TWO_64
  {
    Powers();
  }

  lemma RefReads(d: Bytes, p: nat, refs: seq<nat>, width: nat, i: nat)
    requires Has(d, p, Fields(refs, width)) && i < |refs| && refs[i] < Pow256(width) && ValidSize(width)
    ensures ReadBE(d, p + i * width, width) == (refs[i], true)
  {
    hide Fields, BE, Has, Pow256, ReadBE, ValidSize;
    FieldAt(refs, width, i);
    HasTrans(d, p, Fields(refs, width), i * width, BE(refs[i], width));
    FieldReads(d, p + i * width, refs[i], width);
    WidthFits(refs[i], width);
    SmallWord(refs[i]);
  }

  lemma HeadReads(d: Bytes, p: nat, marker: Byte, h: Head, n: nat)
    requires marker <= 0xF0 && marker % 16 == 0 && HeadOk(h, n) && n < TWO_64
    requires Has(d, p, HeadBytes(marker, h, n))
    ensures p < |d| && d[p] / 16 == marker / 16
    ensures ReadCount(d, d[p] % 16, p + 1, true) == Counted(n, p + |HeadBytes(marker, h, n)|, true)
  {
    hide BE, Shl1;
    match h
    case Nibble => HasAt(d, p, HeadBytes(marker, h, n), 0);
    case Inline(e) =>
      var marks: Bytes := [marker + 15, 0x10 + e];
      HasSplit(d, p, marks, BE(n, Shl1(e)));
      HasAt(d, p, marks, 0);
      HasAt(d, p, marks, 1);
      FieldReads(d, p + 2, n, Shl1(e));
      SmallWord(n);
  }

  // ---- Leaves ----

  lemma LeafReads(d: Bytes, p: nat, o: Obj, width: nat)
    requires |d| <= MAX_FILE && ObjOk(o, width) && !o.ArrObj? && !o.DictObj? && Has(d, p, Print(o, width))
    ensures p < |d| && d[p] / 16 != 0xA && d[p] / 16 != 0xD
    ensures Scalar(d, d[p], p + 1, true) == (LeafValue(o), true)
  {
    hide BE, Fields, HeadBytes;
    HasAt(d, p, Print(o, width), 0);
    match o
    case Simple(_) =>
    case IntObj(e, word) =>
      HasSplit(d, p, [0x10 + e], BE(word, Shl1(e)));
      FieldReads(d, p + 1, word, Shl1(e));
    case Real64(bits) => RealReads(d, p, 0x23, bits, 8);
    case Real32(bits) => RealReads(d, p, 0x22, bits, 4);
    case DataObj(h, b) => TextReads(d, p, 0x40, h, b);
    case Ascii(h, s) => TextReads(d, p, 0x50, h, s);
    case Utf16(h, us) => UnitsRead(d, p, h, us);
    case Foreign(_) =>
  }

  lemma RealReads(d: Bytes, p: nat, marker: Byte, bits: nat, n: nat)
    requires |d| <= MAX_FILE && Has(d, p, [marker] + BE(bits, n)) && bits < TWO_64
    requires (marker == 0x23 && n == 8) || (marker == 0x22 && n == 4 && bits < TWO_32)
    ensures p < |d| && d[p] == marker
    ensures Scalar(d, d[p], p + 1, true) == (Some(Real(if n == 8 then bits else Widen(bits))), true)
  {
    hide BE, Widen;
    HasSplit(d, p, [marker], BE(bits, n));
    HasAt(d, p, [marker], 0);
    assert Shl1(3) == 2 * Shl1(2) && Shl1(2) == 2 * Shl1(1);
    Powers();
    FieldReads(d, p + 1, bits, n);
    SmallWord(bits);
  }

  lemma TextReads(d: Bytes, p: nat, marker: Byte, h: Head, s: Bytes)
    requires |d| <= MAX_FILE && (marker == 0x40 || marker == 0x50) && HeadOk(h, |s|)
    requires Has(d, p, HeadBytes(marker, h, |s|) + s)
    ensures p < |d| && d[p] / 16 == marker / 16
    ensures Scalar(d, d[p], p + 1, true) == (Some(if marker == 0x40 then Data(s) else Str(s)), true)
  {
    hide HeadBytes, ReadCount, HeadOk;
    HasSplit(d, p, HeadBytes(marker, h, |s|), s);
    HasSlice(d, p + |HeadBytes(marker, h, |s|)|, s);
    HeadReads(d, p, marker, h, |s|);
  }

  lemma UnitsRead(d: Bytes, p: nat, h: Head, us: seq<nat>)
    requires |d| <= MAX_FILE && HeadOk(h, |us|) && RefsOk(us, 2) && Has(d, p, HeadBytes(0x60, h, |us|) + Fields(us, 2))
    ensures p < |d| && d[p] / 16 == 6
    ensures Scalar(d, d[p], p + 1, true) == (LeafValue(Utf16(h, us)), true)
  {
    hide HeadBytes, ReadCount, HeadOk, Fields, BE, Utf16Low;
    var head, units := HeadBytes(0x60, h, |us|), Fields(us, 2);
    HasSplit(d, p, head, units);
    HasFits(d, p + |head|, units);
    HeadReads(d, p, 0x60, h, |us|);
    LowBytesRead(d, p + |head|, us);
  }

  lemma LowBytesRead(d: Bytes, pos: nat, us: seq<nat>)
    requires Has(d, pos, Fields(us, 2))
    ensures Utf16Low(d, pos, |us|) == seq(|us|, i requires 0 <= i < |us| => us[i] % 256)
  {
    hide Fields, Has, Utf16Low;
    HasFits(d, pos, Fields(us, 2));
    UnitsThere(d, pos, |us|);
    var low := Utf16Low(d, pos, |us|);
    forall i | 0 <= i < |us| ensures low[i] == us[i] % 256 {
      UnitAt(d, pos, us, i);
      UnitTaken(d, pos, |us|, i);
    }
  }

  lemma UnitsThere(d: Bytes, pos: nat, n: nat)
    requires pos + 2 * n <= |d|
    ensures |Utf16Low(d, pos, n)| == n
  {
  }

  lemma UnitTaken(d: Bytes, pos: nat, n: nat, i: nat)
    requires pos + 2 * n <= |d| && i < n
    ensures |Utf16Low(d, pos, n)| == n && Utf16Low(d, pos, n)[i] == d[pos + 2 * i + 1]
  {
  }

  lemma UnitAt(d: Bytes, pos: nat, us: seq<nat>, i: nat)
    requires Has(d, pos, Fields(us, 2)) && i < |us|
    ensures pos + 2 * i + 1 < |d| && d[pos + 2 * i + 1] == us[i] % 256
  {
    hide Fields, BE, Has;
    FieldAt(us, 2, i);
    HasTrans(d, pos, Fields(us, 2), i * 2, BE(us[i], 2));
    LowByte(d, pos + i * 2, us[i]);
  }

  lemma LowByte(d: Bytes, p: nat, u: nat)
    requires Has(d, p, BE(u, 2))
    ensures p + 1 < |d| && d[p + 1] == u % 256
  {
    HasAt(d, p, BE(u, 2), 1);
  }

  // ---- Containers ----

  // The image m describes a file whose object table is objs.
  ghost predicate Holds(m: Image, objs: seq<Obj>)
  {
    && ValidImage(m) && |m.offsets| == |objs| && TableOk(objs, m.refSize)
    && forall i :: 0 <= i < |objs| ==> Has(m.d, m.offsets[i], Print(objs[i], m.refSize))
  }

  lemma ObjectAt(m: Image, objs: seq<Obj>, ref: nat)
    requires Holds(m, objs) && ref < |objs|
    ensures ValidImage(m) && |m.offsets| == |objs| && TableOk(objs, m.refSize) && ObjOk(objs[ref], m.refSize)
    ensures m.offsets[ref] < |m.d| && Has(m.d, m.offsets[ref], Print(objs[ref], m.refSize))
  {
    HasFits(m.d, m.offsets[ref], Print(objs[ref], m.refSize));
  }

  // Decoding a table entry gives what it means, and never leaves the file.
  lemma {:induction false} ObjectMeans(m: Image, objs: seq<Obj>, ref: nat, depth: nat)
    requires Holds(m, objs) && depth <= MAX_DEPTH + 1
    ensures ValidImage(m) && TableOk(objs, m.refSize)
    ensures Object(m, ref, depth, true) == (Meaning(objs, m.refSize, ref, depth), true)
    decreases MAX_DEPTH + 1 - depth, 2, 0
  {
    hide Print, Scalar, LeafValue, ObjOk, ArrayAt, DictAt, Values, Pairs, Has;
    if depth <= MAX_DEPTH && ref < |objs| {
      ObjectAt(m, objs, ref);
      var o := objs[ref];
      if o.ArrObj? {
        ArrayMeans(m, objs, ref, depth);
      } else if o.DictObj? {
        DictMeans(m, objs, ref, depth);
      } else {
        LeafReads(m.d, m.offsets[ref], o, m.refSize);
      }
    }
  }

  lemma {:induction false} ArrayMeans(m: Image, objs: seq<Obj>, ref: nat, depth: nat)
    requires Holds(m, objs) && depth <= MAX_DEPTH && ref < |objs| && objs[ref].ArrObj?
    ensures ValidImage(m) && TableOk(objs, m.refSize) && m.offsets[ref] < |m.d|
    ensures m.d[m.offsets[ref]] / 16 == 0xA
    ensures ArrayAt(m, m.d[m.offsets[ref]] % 16, m.offsets[ref] + 1, depth, true)
      == (Meaning(objs, m.refSize, ref, depth), true)
    decreases MAX_DEPTH + 1 - depth, 1, 0
  {
    hide HeadBytes, ReadCount, HeadOk, Fields, Elements, Values, Holds;
    ObjectAt(m, objs, ref);
    var refs, h, p: nat := objs[ref].refs, objs[ref].head, m.offsets[ref];
    var head, body := HeadBytes(0xA0, h, |refs|), Fields(refs, m.refSize);
    HasSplit(m.d, p, head, body);
    HasFits(m.d, p + |head|, body);
    Commutes(m.refSize, |refs|);
    CountFits(m.d, p + |head|, |refs|, m.refSize);
    HeadReads(m.d, p, 0xA0, h, |refs|);
    if |refs| <= |objs| {
      NothingYet(objs, m.refSize, refs, refs, depth + 1);
      ElementsMean(m, objs, refs, p + |head|, depth, 0, []);
    }
  }

  lemma NothingYet(objs: seq<Obj>, width: nat, refs: seq<nat>, values: seq<nat>, depth: nat)
    requires TableOk(objs, width) && depth <= MAX_DEPTH + 1 && |refs| == |values|
    ensures Values(objs, width, refs, 0, depth) == Some([]) && Pairs(objs, width, refs, values, 0, depth) == Some([])
  {
  }

  // The 64-bit position of the last field does not wrap.
  lemma CountFits(d: Bytes, p: nat, n: nat, width: nat)
    requires p + n * width <= |d| <= MAX_FILE && ValidSize(width)
    ensures n <= |d| && n < TWO_64 && U64(p + n * width) == p + n * width
  {
    assert n * width >= n;
  }

  lemma {:induction false} ElementsMean(m: Image, objs: seq<Obj>, refs: seq<nat>, pos: nat, depth: nat, i: nat,
                                        acc: seq<Value>)
    requires Holds(m, objs) && depth <= MAX_DEPTH && i <= |refs| && RefsOk(refs, m.refSize)
    requires Has(m.d, pos, Fields(refs, m.refSize))
    requires Values(objs, m.refSize, refs, i, depth + 1) == Some(acc)
    ensures Elements(m, pos, |refs|, i, acc, depth, true) == (Values(objs, m.refSize, refs, |refs|, depth + 1), true)
    decreases MAX_DEPTH + 1 - depth, 0, |refs| - i
  {
    hide Object, Meaning, Fields, ReadBE, Has, Holds;
    if i < |refs| {
      HoldsImage(m, objs);
      assert refs[i] in refs;
      RefReads(m.d, pos, refs, m.refSize, i);
      ObjectMeans(m, objs, refs[i], depth + 1);
      var child := Meaning(objs, m.refSize, refs[i], depth + 1);
      if child.Some? {
        ElementsMean(m, objs, refs, pos, depth, i + 1, acc + [child.value]);
      } else {
        ValuesStay(objs, m.refSize, refs, i + 1, |refs|, depth + 1);
      }
    }
  }

  lemma HoldsImage(m: Image, objs: seq<Obj>)
    requires Holds(m, objs)
    ensures ValidImage(m) && ValidSize(m.refSize) && |m.offsets| == |objs| && TableOk(objs, m.refSize)
  {
  }

  lemma {:induction false} DictMeans(m: Image, objs: seq<Obj>, ref: nat, depth: nat)
    requires Holds(m, objs) && depth <= MAX_DEPTH && ref < |objs| && objs[ref].DictObj?
    ensures ValidImage(m) && TableOk(objs, m.refSize) && m.offsets[ref] < |m.d|
    ensures m.d[m.offsets[ref]] / 16 == 0xD
    ensures DictAt(m, m.d[m.offsets[ref]] % 16, m.offsets[ref] + 1, depth, true)
      == (Meaning(objs, m.refSize, ref, depth), true)
    decreases MAX_DEPTH + 1 - depth, 1, 0
  {
    hide HeadBytes, ReadCount, HeadOk, Fields, Entries, Pairs, Holds;
    ObjectAt(m, objs, ref);
    var o, p: nat := objs[ref], m.offsets[ref];
    var n, w := |o.keys|, m.refSize;
    var head, ks, vs := HeadBytes(0xD0, o.head, n), Fields(o.keys, w), Fields(o.values, w);
    HasSplit(m.d, p, head + ks, vs);
    HasSplit(m.d, p, head, ks);
    HasFits(m.d, p + |head + ks|, vs);
    Commutes(w, n);
    TwiceAsMany(n, w);
    CountFits(m.d, p + |head|, 2 * n, w);
    HeadReads(m.d, p, 0xD0, o.head, n);
    if n <= |objs| {
      NothingYet(objs, w, o.keys, o.values, depth + 1);
      EntriesMean(m, objs, o.keys, o.values, p + |head|, depth, 0, []);
    }
  }

  lemma TwiceAsMany(n: nat, w: nat)
    ensures 2 * n * w == n * w + n * w
  {
  }

  lemma {:induction false} EntriesMean(m: Image, objs: seq<Obj>, keys: seq<nat>, values: seq<nat>, pos: nat, depth: nat,
                                       i: nat, acc: seq<Entry>)
    requires Holds(m, objs) && depth <= MAX_DEPTH && i <= |keys| == |values|
    requires RefsOk(keys, m.refSize) && RefsOk(values, m.refSize)
    requires Has(m.d, pos, Fields(keys, m.refSize)) && Has(m.d, pos + |keys| * m.refSize, Fields(values, m.refSize))
    requires Pairs(objs, m.refSize, keys, values, i, depth + 1) == Some(acc)
    ensures Entries(m, pos, |keys|, i, acc, depth, true)
      == (Pairs(objs, m.refSize, keys, values, |keys|, depth + 1), true)
    decreases MAX_DEPTH + 1 - depth, 0, |keys| - i
  {
    hide Object, Meaning, Fields, ReadBE, Has, Holds;
    if i < |keys| {
      HoldsImage(m, objs);
      assert keys[i] in keys && values[i] in values;
      RefReads(m.d, pos, keys, m.refSize, i);
      RefReads(m.d, pos + |keys| * m.refSize, values, m.refSize, i);
      Distributes(|keys|, i, m.refSize);
      ObjectMeans(m, objs, keys[i], depth + 1);
      ObjectMeans(m, objs, values[i], depth + 1);
      var k, v := Meaning(objs, m.refSize, keys[i], depth + 1), Meaning(objs, m.refSize, values[i], depth + 1);
      if k.Some? && v.Some? {
        EntriesMean(m, objs, keys, values, pos, depth, i + 1, acc + [Entry(AsStr(k.value), v.value)]);
      } else {
        PairsStay(objs, m.refSize, keys, values, i + 1, |keys|, depth + 1);
      }
    }
  }

  lemma Distributes(n: nat, i: nat, w: nat)
    ensures (n + i) * w == n * w + i * w
  {
  }

  // ---- The file ----

  lemma {:induction false} FlatPart(t: seq<Bytes>, i: nat, n: nat)
    requires i < n <= |t|
    ensures Offset(t, i) + |t[i]| <= Offset(t, n)
    ensures Has(Flat(t, n), |Flat(t, i)|, t[i])
  {
    if i < n - 1 {
      FlatPart(t, i, n - 1);
      HasLeft(Flat(t, n - 1), t[n - 1], |Flat(t, i)|, t[i]);
    } else {
      HasRight(Flat(t, i), t[i]);
    }
  }

  lemma {:induction false} FlatGrows(t: seq<Bytes>, n: nat)
    requires n <= |t| && forall i :: 0 <= i < |t| ==> t[i] != []
    ensures |Flat(t, n)| >= n
  {
    if n > 0 {
      FlatGrows(t, n - 1);
    }
  }

  // Where the parts of a file lie.
  lemma FileParts(t: seq<Bytes>, l: Layout)
    requires LayoutOk(l)
    ensures var d, table := FileOf(t, l), Offset(t, |t|);
      && |d| == table + l.offsetWidth * |t| + 32
      && d[..8] == HEADER && Has(d, 8, Flat(t, |t|))
      && Has(d, table, Fields(Offsets(t, |t|), l.offsetWidth)) && Has(d, |d| - 32, TrailerWith(l, |t|, table))
  {
    hide Flat, Fields, Offsets, TrailerWith, Has, ValidSize;
    var d, offs, body := FileOf(t, l), Fields(Offsets(t, |t|), l.offsetWidth), HEADER + Flat(t, |t|);
    var trailer := TrailerWith(l, |t|, Offset(t, |t|));
    TrailerSize(l, |t|, Offset(t, |t|));
    HasWhole(d);
    HasSplit(d, 0, body + offs, trailer);
    HasSplit(d, 0, body, offs);
    HasSplit(d, 0, HEADER, Flat(t, |t|));
    HasSlice(d, 0, HEADER);
  }

  lemma TrailerSize(l: Layout, n: nat, table: nat)
    requires LayoutOk(l)
    ensures |TrailerWith(l, n, table)| == 32
  {
  }

  lemma TrailerReads(d: Bytes, tr: nat, l: Layout, n: nat, table: nat)
    requires LayoutOk(l) && Has(d, tr, TrailerWith(l, n, table)) && n < TWO_64 && table < TWO_64
    ensures tr + 32 <= |d| && d[tr + 6] == l.offsetWidth && d[tr + 7] == l.refWidth
    ensures ReadBE(d, tr + 8, 8) == (n, true) && ReadBE(d, tr + 24, 8) == (table, true)
  {
    hide BE, ReadBE;
    var front := l.spare + [l.offsetWidth, l.refWidth];
    HasSplit(d, tr, front + BE(n, 8) + BE(l.top, 8), BE(table, 8));
    HasFits(d, tr + 24, BE(table, 8));
    HasSplit(d, tr, front + BE(n, 8), BE(l.top, 8));
    HasSplit(d, tr, front, BE(n, 8));
    HasAt(d, tr, front, 6);
    HasAt(d, tr, front, 7);
    Powers();
    FieldReads(d, tr + 8, n, 8);
    FieldReads(d, tr + 24, table, 8);
    SmallWord(n);
    SmallWord(table);
  }

  lemma OffsetsRead(d: Bytes, t: seq<Bytes>, l: Layout)
    requires LayoutOk(l) && Fitting(t, l) && Has(d, 8, Flat(t, |t|))
    requires Has(d, Offset(t, |t|), Fields(Offsets(t, |t|), l.offsetWidth))
    ensures var os := OffsetsOf(d, Offset(t, |t|), l.offsetWidth, |t|);
      forall i :: 0 <= i < |t| ==> Has(d, os[i], t[i])
  {
    hide Fields, Flat, ReadBE, Has, OffsetsOf, LayoutOk, Fitting, Offset, Offsets;
    var os := OffsetsOf(d, Offset(t, |t|), l.offsetWidth, |t|);
    forall i | 0 <= i < |t| ensures Has(d, os[i], t[i]) {
      OffsetReads(d, t, l, i);
    }
  }

  lemma OffsetReads(d: Bytes, t: seq<Bytes>, l: Layout, i: nat)
    requires LayoutOk(l) && Fitting(t, l) && Has(d, 8, Flat(t, |t|)) && i < |t|
    requires Has(d, Offset(t, |t|), Fields(Offsets(t, |t|), l.offsetWidth))
    ensures Has(d, OffsetsOf(d, Offset(t, |t|), l.offsetWidth, |t|)[i], t[i])
  {
    hide Fields, Flat, Has, OffsetsOf, Offset, Offsets, ReadBE, Pow256, ValidSize;
    OffsetSits(d, t, i);
    OffsetListed(t, i);
    RefReads(d, Offset(t, |t|), Offsets(t, |t|), l.offsetWidth, i);
    OffsetTaken(d, Offset(t, |t|), l.offsetWidth, |t|, i);
  }

  lemma OffsetSits(d: Bytes, t: seq<Bytes>, i: nat)
    requires Has(d, 8, Flat(t, |t|)) && i < |t|
    ensures Has(d, Offset(t, i), t[i])
  {
    hide Flat, Has;
    FlatPart(t, i, |t|);
    HasTrans(d, 8, Flat(t, |t|), |Flat(t, i)|, t[i]);
  }

  lemma OffsetListed(t: seq<Bytes>, i: nat)
    requires i < |t|
    ensures Offsets(t, |t|)[i] == Offset(t, i)
  {
    hide Flat;
  }

  lemma OffsetTaken(d: Bytes, table: nat, width: nat, n: nat, i: nat)
    requires i < n
    ensures OffsetsOf(d, table, width, n)[i] == ReadBE(d, table + i * width, width).0
  {
    hide ReadBE;
  }

  // The trailer's widths and the offset table lead to every object.
  lemma FileParses(t: seq<Bytes>, l: Layout)
    requires LayoutOk(l) && t != [] && Fitting(t, l) && |FileOf(t, l)| <= MAX_FILE
    requires forall i :: 0 <= i < |t| ==> t[i] != []
    ensures var m := ParseTrailer(FileOf(t, l));
      && m.Some? && ValidImage(m.value) && m.value.d == FileOf(t, l) && m.value.refSize == l.refWidth
      && |m.value.offsets| == |t| && forall i :: 0 <= i < |t| ==> Has(FileOf(t, l), m.value.offsets[i], t[i])
  {
    hide FileOf, Flat, Fields, Offsets, TrailerWith, ReadBE, OffsetsOf, Has, Fitting;
    var d, table := FileOf(t, l), Offset(t, |t|);
    FileParts(t, l);
    FlatGrows(t, |t|);
    TrailerReads(d, |d| - 32, l, |t|, table);
    TableRoom(|d|, table, l.offsetWidth, |t|);
    OffsetsRead(d, t, l);
  }

  lemma TableRoom(size: nat, table: nat, width: nat, n: nat)
    requires size == table + width * n + 32 && ValidSize(width)
    ensures table <= size && n <= size && n <= (size - table) / width
  {
    assert width * n >= n;
  }

  /** Decoding a file of any layout gives what its object table means: its first object, whatever object the trailer
      calls the top one. */
  lemma LayoutDecodes(objs: seq<Obj>, l: Layout)
    requires LayoutOk(l) && objs != [] && TableOk(objs, l.refWidth)
    requires Fitting(Objects(objs, l.refWidth), l) && |FileWith(objs, l)| <= MAX_FILE
    ensures Decode(FileWith(objs, l)) == Meaning(objs, l.refWidth, 0, 0)
  {
    hide Print, ParseTrailer, Object, Meaning, FileOf, Fitting, LayoutOk;
    var t := Objects(objs, l.refWidth);
    FileParses(t, l);
    ObjectMeans(ParseTrailer(FileOf(t, l)).value, objs, 0, 0);
  }

  // ---- What any file can yield ----

  lemma {:induction false} AsManyElements(m: Image, pos: nat, cnt: nat, i: nat, acc: seq<Value>, depth: nat, ok: bool)
    requires ValidImage(m) && depth <= MAX_DEPTH && i <= cnt && |acc| == i
    ensures var r := Elements(m, pos, cnt, i, acc, depth, ok).0; r.Some? ==> |r.value| == cnt
    decreases cnt - i
  {
    hide Object;
    if i < cnt {
      var ref := ReadBE(m.d, pos + i * m.refSize, m.refSize);
      var child := Object(m, ref.0, depth + 1, ok && ref.1);
      if child.0.Some? {
        AsManyElements(m, pos, cnt, i + 1, acc + [child.0.value], depth, child.1);
      }
    }
  }

  lemma {:induction false} AsManyEntries(m: Image, pos: nat, cnt: nat, i: nat, acc: seq<Entry>, depth: nat, ok: bool)
    requires ValidImage(m) && depth <= MAX_DEPTH && i <= cnt && |acc| == i
    ensures var r := Entries(m, pos, cnt, i, acc, depth, ok).0; r.Some? ==> |r.value| == cnt
    decreases cnt - i
  {
    hide Object;
    if i < cnt {
      var kr := ReadBE(m.d, pos + i * m.refSize, m.refSize);
      var vr := ReadBE(m.d, pos + (cnt + i) * m.refSize, m.refSize);
      var k := Object(m, kr.0, depth + 1, ok && kr.1 && vr.1);
      var v := Object(m, vr.0, depth + 1, k.1);
      if k.0.Some? && v.0.Some? {
        AsManyEntries(m, pos, cnt, i + 1, acc + [Entry(AsStr(k.0.value), v.0.value)], depth, v.1);
      }
    }
  }

  // A value is no bigger than the file: a text no longer, a container with no more elements than there are objects.
  predicate FitsFile(m: Image, v: Value)
  {
    match v
    case Str(s) => |s| <= |m.d|
    case Data(b) => |b| <= |m.d|
    case Arr(a) => |a| <= |m.offsets|
    case Dict(d) => |d| <= |m.offsets|
    case _ => true
  }

  /** Whatever a receiver sends, no object decodes to more than its file can hold. */
  lemma ObjectFitsFile(m: Image, ref: nat, depth: nat, ok: bool)
    requires ValidImage(m) && depth <= MAX_DEPTH
    ensures var v := Object(m, ref, depth, ok).0; v.Some? ==> FitsFile(m, v.value)
  {
    hide Elements, Entries, ReadCount, Scalar, ArrayAt, DictAt;
    if ref < |m.offsets| && m.offsets[ref] < |m.d| {
      var pos: nat := m.offsets[ref];
      var lo := m.d[pos] % 16;
      ArrayFitsFile(m, lo, pos + 1, depth, ok);
      DictFitsFile(m, lo, pos + 1, depth, ok);
      ScalarFitsFile(m, m.d[pos], pos + 1, ok);
    }
  }

  lemma ArrayFitsFile(m: Image, lo: nat, pos: nat, depth: nat, ok: bool)
    requires ValidImage(m) && depth <= MAX_DEPTH && lo < 16 && pos <= |m.d|
    ensures var v := ArrayAt(m, lo, pos, depth, ok).0; v.Some? ==> FitsFile(m, v.value)
  {
    hide Elements, ReadCount;
    var c := ReadCount(m.d, lo, pos, ok);
    AsManyElements(m, c.pos, c.cnt, 0, [], depth, c.ok);
  }

  lemma DictFitsFile(m: Image, lo: nat, pos: nat, depth: nat, ok: bool)
    requires ValidImage(m) && depth <= MAX_DEPTH && lo < 16 && pos <= |m.d|
    ensures var v := DictAt(m, lo, pos, depth, ok).0; v.Some? ==> FitsFile(m, v.value)
  {
    hide Entries, ReadCount;
    var c := ReadCount(m.d, lo, pos, ok);
    AsManyEntries(m, c.pos, c.cnt, 0, [], depth, c.ok);
  }

  lemma ScalarFitsFile(m: Image, marker: Byte, pos: nat, ok: bool)
    requires |m.d| <= MAX_FILE && pos <= |m.d|
    ensures var v := Scalar(m.d, marker, pos, ok).0; v.Some? ==> FitsFile(m, v.value)
  {
    hide ReadCount, ReadBE, Widen, Utf16Low;
    var c := ReadCount(m.d, marker % 16, pos, ok);
    UnitsFit(m.d, c.pos, c.cnt);
    if marker / 16 == 6 {
      assert c.cnt <= |m.d| ==> |Utf16Low(m.d, c.pos, c.cnt)| <= |m.d|;
    } else if (marker / 16 == 4 || marker / 16 == 5) && c.cnt <= |m.d| && U64(c.pos + c.cnt) <= |m.d| {
      CountInFile(m.d, c, pos);
      assert |m.d[c.pos..c.pos + c.cnt]| == c.cnt;
    }
  }

  lemma UnitsFit(d: Bytes, pos: nat, n: nat)
    ensures |Utf16Low(d, pos, n)| <= n
  {
  }

  /** But a value may be made up: an integer that runs past the end of the file decodes to 0. */
  lemma TruncatedInteger(l: Layout)
    requires LayoutOk(l)
    ensures |FileOf([[0x1F]], l)| <= MAX_FILE && Decode(FileOf([[0x1F]], l)) == Some(Int(0))
  {
    hide FileOf, ParseTrailer, Fields, BE, Has;
    var t: seq<Bytes> := [[0x1F]];
    OneByteObject(t, l);
    FileParses(t, l);
    var m := ParseTrailer(FileOf(t, l)).value;
    ObjectByte(m, 0x1F);
    LongInteger(m.d, m.offsets[0]);
  }

  lemma OneByteObject(t: seq<Bytes>, l: Layout)
    requires LayoutOk(l) && t == [[0x1F]]
    ensures |FileOf(t, l)| <= 100 && Fitting(t, l)
  {
    hide FileOf, Fields, BE, Has;
    Powers();
    assert Flat(t, 0) == [] && Flat(t, 1) == [0x1F];
    FileParts(t, l);
  }

  lemma ObjectByte(m: Image, marker: Byte)
    requires ValidImage(m) && |m.offsets| == 1 && Has(m.d, m.offsets[0], [marker])
    ensures m.offsets[0] < |m.d| && m.d[m.offsets[0]] == marker
  {
    HasAt(m.d, m.offsets[0], [marker], 0);
  }

  lemma LongInteger(d: Bytes, p: nat)
    requires |d| <= 100 && p < |d| && d[p] == 0x1F
    ensures Scalar(d, d[p], p + 1, true) == (Some(Int(0)), false)
  {
    assert Shl1(4) == 16;
    assert Shl1(8) == 16 * Shl1(4);
    Shl1Monotone(8, 15);
  }
}
