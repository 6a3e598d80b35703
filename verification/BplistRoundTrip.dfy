/** Trees as tables of objects: a tree reads back exactly when it is at most 32 levels deep, from our own encoder's file
    and from any other layout of it. */
module BplistRoundTrip {
  import opened Wire
  import opened Slices
  import opened BplistSpec
  import opened BplistLayout

  // ---- A tree as a table ----

  function HeadFor(n: nat): Head { if n < 15 then Nibble else Inline(IntWidth(S64(U64(n)))) }

  // The object of v itself when it sits at table index `base`.
  function OwnObj(v: Value, base: nat): Obj
  {
    match v
    case Bool(b) => Simple(if b then 9 else 8)
    case Int(i) => IntObj(IntWidth(i), U64(i))
    case Real(bits) => Real64(bits)
    case Str(s) => Ascii(HeadFor(|s|), s)
    case Data(b) => DataObj(HeadFor(|b|), b)
    case Arr(a) => ArrObj(HeadFor(|a|), ArrRefs(Kids(v), base))
    case Dict(d) => DictObj(HeadFor(|d|), KeyRefs(Kids(v), base), ValueRefs(Kids(v), base))
  }

  // The table of v when its root lands at table index `base`: root first, then the children left to right.
  function Tree(v: Value, base: nat): (t: seq<Obj>)
    ensures |t| == Count(v)
    decreases Count(v), 0
  {
    CountIsSum(v);
    [OwnObj(v, base)] + TreeTo(Kids(v), base + 1, |Kids(v)|)
  }

  function TreeTo(kids: seq<Value>, start: nat, n: nat): (t: seq<Obj>)
    requires n <= |kids|
    ensures |t| == SumCount(kids, n)
    decreases SumCount(kids, n), n
  {
    if n == 0 then []
    else TreeTo(kids, start, n - 1) + Tree(kids[n - 1], start + SumCount(kids, n - 1))
  }

  // v's subtree occupies the table from index `base` on.
  ghost predicate At(objs: seq<Obj>, base: nat, v: Value) { Has(objs, base, Tree(v, base)) }

  lemma {:induction false} TreeToSlice(kids: seq<Value>, start: nat, n: nat, j: nat)
    requires j < n <= |kids|
    ensures Has(TreeTo(kids, start, n), SumCount(kids, j), Tree(kids[j], start + SumCount(kids, j)))
  {
    hide Tree, Count, Has;
    var front, last := TreeTo(kids, start, n - 1), Tree(kids[n - 1], start + SumCount(kids, n - 1));
    assert TreeTo(kids, start, n) == front + last;
    if j < n - 1 {
      TreeToSlice(kids, start, n - 1, j);
      HasLeft(front, last, SumCount(kids, j), Tree(kids[j], start + SumCount(kids, j)));
    } else {
      HasRight(front, last);
    }
  }

  lemma KidAt(objs: seq<Obj>, base: nat, v: Value, j: nat)
    requires At(objs, base, v) && j < |Kids(v)|
    ensures At(objs, KidRef(Kids(v), base, j), Kids(v)[j])
  {
    hide TreeTo, Has, OwnObj;
    var kids := Kids(v);
    CountIsSum(v);
    var below := TreeTo(kids, base + 1, |kids|);
    assert Tree(v, base) == [OwnObj(v, base)] + below;
    HasSplit(objs, base, [OwnObj(v, base)], below);
    TreeToSlice(kids, base + 1, |kids|, j);
    HasTrans(objs, base + 1, below, SumCount(kids, j), Tree(kids[j], base + 1 + SumCount(kids, j)));
  }

  lemma OwnAt(objs: seq<Obj>, base: nat, v: Value)
    requires At(objs, base, v)
    ensures base < |objs| && objs[base] == OwnObj(v, base) && |Kids(v)| < |objs|
  {
    hide OwnObj;
    HasAt(objs, base, Tree(v, base), 0);
    HasFits(objs, base, Tree(v, base));
    CountIsSum(v);
    SumCountMonotone(Kids(v), 0, |Kids(v)|);
  }

  // ---- What the table of a tree means ----

  // The first n children still fit when decoded one level below `depth`.
  ghost predicate FirstFit(kids: seq<Value>, n: nat, depth: nat)
    requires n <= |kids|
  {
    forall j :: 0 <= j < n ==> depth + 1 + Height(kids[j]) <= MAX_DEPTH
  }

  lemma HeightFits(v: Value, depth: nat)
    requires depth <= MAX_DEPTH
    ensures depth + Height(v) <= MAX_DEPTH <==> FirstFit(Kids(v), |Kids(v)|, depth)
  {
    if depth < MAX_DEPTH {
      MaxHeightAtMost(Kids(v), |Kids(v)|, MAX_DEPTH - depth - 1);
    } else if Kids(v) != [] {
      assert depth + 1 + Height(Kids(v)[0]) > MAX_DEPTH;
    }
  }

  /** A subtree means its value, or nothing when it reaches below level 32. */
  lemma {:induction false} TreeMeans(objs: seq<Obj>, width: nat, base: nat, v: Value, depth: nat)
    requires TableOk(objs, width) && At(objs, base, v) && depth <= MAX_DEPTH + 1
    ensures Meaning(objs, width, base, depth) == if depth + Height(v) <= MAX_DEPTH then Some(v) else None
    decreases Count(v), 1, 0
  {
    hide At, TableOk, Height, Values, Pairs;
    if depth <= MAX_DEPTH {
      HeightFits(v, depth);
      OwnAt(objs, base, v);
      match v
      case Arr(a) =>
        TreeValues(objs, width, base, v, |a|, depth);
        assert a[..|a|] == a;
      case Dict(d) =>
        TreePairs(objs, width, base, v, |d|, depth);
        assert d[..|d|] == d;
      case Int(i) => SignedBack(i);
      case _ =>
    }
  }

  lemma SignedBack(i: Int64)
    ensures S64(U64(U64(i))) == i
  {
  }

  lemma {:induction false} TreeValues(objs: seq<Obj>, width: nat, base: nat, v: Value, n: nat, depth: nat)
    requires TableOk(objs, width) && At(objs, base, v) && depth <= MAX_DEPTH && v.Arr? && n <= |v.arr|
    ensures Values(objs, width, ArrRefs(Kids(v), base), n, depth + 1)
      == if FirstFit(Kids(v), n, depth) then Some(v.arr[..n]) else None
    decreases Count(v), 0, n
  {
    hide At, TableOk, Height, Meaning, Count;
    if n > 0 {
      TreeValues(objs, width, base, v, n - 1, depth);
      KidAt(objs, base, v, n - 1);
      KidCount(v, n - 1);
      TreeMeans(objs, width, KidRef(Kids(v), base, n - 1), Kids(v)[n - 1], depth + 1);
      assert v.arr[..n] == v.arr[..n - 1] + [v.arr[n - 1]];
    }
  }

  lemma {:induction false} TreePairs(objs: seq<Obj>, width: nat, base: nat, v: Value, n: nat, depth: nat)
    requires TableOk(objs, width) && At(objs, base, v) && depth <= MAX_DEPTH && v.Dict? && n <= |v.dict|
    ensures Pairs(objs, width, KeyRefs(Kids(v), base), ValueRefs(Kids(v), base), n, depth + 1)
      == if FirstFit(Kids(v), 2 * n, depth) then Some(v.dict[..n]) else None
    decreases Count(v), 0, n
  {
    hide At, TableOk, Height, Meaning, Count, KidsOfEntries;
    if n > 0 {
      var k, x := 2 * n - 2, 2 * n - 1;
      TreePairs(objs, width, base, v, n - 1, depth);
      KidAt(objs, base, v, k);
      KidAt(objs, base, v, x);
      KidCount(v, k);
      KidCount(v, x);
      TreeMeans(objs, width, KidRef(Kids(v), base, k), Kids(v)[k], depth + 1);
      TreeMeans(objs, width, KidRef(Kids(v), base, x), Kids(v)[x], depth + 1);
      KidPair(v, n - 1);
      TwoMoreFit(Kids(v), n - 1, depth);
      assert v.dict[..n] == v.dict[..n - 1] + [v.dict[n - 1]];
    }
  }

  lemma KidPair(v: Value, i: nat)
    requires v.Dict? && i < |v.dict|
    ensures |Kids(v)| == 2 * |v.dict| && Kids(v)[2 * i] == Str(v.dict[i].key) && Kids(v)[2 * i + 1] == v.dict[i].value
  {
    hide Count;
  }

  lemma TwoMoreFit(kids: seq<Value>, n: nat, depth: nat)
    requires 2 * n + 2 <= |kids|
    ensures FirstFit(kids, 2 * n + 2, depth)
      <==> FirstFit(kids, 2 * n, depth) && depth + 1 + Height(kids[2 * n]) <= MAX_DEPTH
           && depth + 1 + Height(kids[2 * n + 1]) <= MAX_DEPTH
  {
    hide Height;
  }

  /** Whatever widths a writer chooses for a tree's references and offsets: it reads back as itself exactly when it is
      at most 32 levels deep; a deeper one is refused. */
  lemma AnyLayout(v: Value, l: Layout)
    requires LayoutOk(l) && TableOk(Tree(v, 0), l.refWidth)
    requires Fitting(Objects(Tree(v, 0), l.refWidth), l) && |FileWith(Tree(v, 0), l)| <= MAX_FILE
    ensures Decode(FileWith(Tree(v, 0), l)) == if Height(v) <= MAX_DEPTH then Some(v) else None
  {
    hide TableOk, LayoutOk, Fitting, FileWith, Tree, Height, Meaning;
    HasWhole(Tree(v, 0));
    LayoutDecodes(Tree(v, 0), l);
    TreeMeans(Tree(v, 0), l.refWidth, 0, v, 0);
  }

  /** Elements shared between places are read in each of them, but not more often than the table has objects: three
      references to one object are refused. */
  lemma SharedElements(l: Layout)
    requires LayoutOk(l) && l.offsetWidth == 1 && l.refWidth == 1
    ensures var twice, thrice := [ArrObj(Nibble, [1, 1]), Simple(9)], [ArrObj(Nibble, [1, 1, 1]), Simple(9)];
      && TableOk(twice, 1) && TableOk(thrice, 1)
      && |FileWith(twice, l)| <= MAX_FILE && |FileWith(thrice, l)| <= MAX_FILE
      && Decode(FileWith(twice, l)) == Some(Arr([Bool(true), Bool(true)]))
      && Decode(FileWith(thrice, l)) == None
  {
    hide BE, LayoutOk, ParseTrailer, Object;
    var twice, thrice := [ArrObj(Nibble, [1, 1]), Simple(9)], [ArrObj(Nibble, [1, 1, 1]), Simple(9)];
    SmallFile(twice, l, [1, 1]);
    SmallFile(thrice, l, [1, 1, 1]);
    LayoutDecodes(twice, l);
    LayoutDecodes(thrice, l);
    SharedMeaning(twice);
  }

  lemma SmallFile(objs: seq<Obj>, l: Layout, refs: seq<nat>)
    requires LayoutOk(l) && l.offsetWidth == 1 && l.refWidth == 1 && |refs| < 10 && RefsOk(refs, 1)
    requires objs == [ArrObj(Nibble, refs), Simple(9)]
    ensures TableOk(objs, 1) && Fitting(Objects(objs, 1), l) && |FileWith(objs, l)| <= MAX_FILE
  {
    hide BE, Fields;
    var t := Objects(objs, 1);
    Powers();
    assert Flat(t, 0) == [] && Flat(t, 1) == t[0] && Flat(t, 2) == t[0] + t[1];
    FileParts(t, l);
  }

  lemma SharedMeaning(objs: seq<Obj>)
    requires objs == [ArrObj(Nibble, [1, 1]), Simple(9)] && TableOk(objs, 1)
    ensures Meaning(objs, 1, 0, 0) == Some(Arr([Bool(true), Bool(true)]))
  {
    var refs := [1, 1];
    assert Meaning(objs, 1, 1, 1) == Some(Bool(true));
    var none: seq<Value> := [];
    assert Values(objs, 1, refs, 0, 1) == Some(none);
    assert Values(objs, 1, refs, 1, 1) == Some(none + [Bool(true)]);
    assert Values(objs, 1, refs, 2, 1) == Some(none + [Bool(true)] + [Bool(true)]);
    assert none + [Bool(true)] + [Bool(true)] == [Bool(true), Bool(true)];
  }

  // ---- Our own files ----

  const OURS: Layout := Layout(4, 4, [0, 0, 0, 0, 0, 0], 0)

  lemma HeadPrints(marker: Byte, n: nat)
    requires marker <= 0xF0 && marker % 16 == 0 && n < TWO_32
    ensures HeadOk(HeadFor(n), n) && HeadBytes(marker, HeadFor(n), n) == MarkerLen(marker, n)
  {
    hide BE;
    Powers();
    assert Shl1(0) == 1 && Shl1(1) == 2 && Shl1(2) == 2 * Shl1(1) && Shl1(3) == 2 * Shl1(2);
  }

  /** An integer is written in the fewest bytes of 1, 2, 4 and 8 that hold it, a negative one in 8. */
  lemma FewestBytes(i: Int64)
    ensures var e := IntWidth(i);
      |IntBytes(i)| == 1 + Shl1(e)
      && (if i < 0 then e == 3 else i < Pow256(Shl1(e)) && (e > 0 ==> i >= Pow256(Shl1(e - 1))))
  {
    hide BE;
    Powers();
    assert Shl1(0) == 1 && Shl1(1) == 2 && Shl1(2) == 2 * Shl1(1) && Shl1(3) == 2 * Shl1(2);
  }

  lemma IntPrints(i: Int64)
    ensures ObjOk(IntObj(IntWidth(i), U64(i)), 4) && Print(IntObj(IntWidth(i), U64(i)), 4) == IntBytes(i)
  {
    hide BE;
    Powers();
    assert Shl1(0) == 1 && Shl1(1) == 2 && Shl1(2) == 2 * Shl1(1) && Shl1(3) == 2 * Shl1(2);
  }

  lemma RefsSmall(v: Value, base: nat)
    requires base + Count(v) <= TWO_32
    ensures RefsOk(ArrRefs(Kids(v), base), 4) && |Kids(v)| < TWO_32
    ensures RefsOk(KeyRefs(Kids(v), base), 4) && RefsOk(ValueRefs(Kids(v), base), 4)
  {
    hide Count;
    Powers();
    CountIsSum(v);
    SumCountMonotone(Kids(v), 0, |Kids(v)|);
    forall j | 0 <= j < |Kids(v)| ensures KidRef(Kids(v), base, j) < Pow256(4) {
      KidCount(v, j);
    }
  }

  // Where they are in the bounds of a file below 4 GiB, our objects are those of the layout.
  lemma OwnPrints(v: Value, base: nat)
    requires base + Count(v) <= TWO_32 && |Own(v, base)| < TWO_32
    ensures ObjOk(OwnObj(v, base), 4) && Print(OwnObj(v, base), 4) == Own(v, base)
  {
    hide RefsOk, HeadOk, HeadBytes, MarkerLen, ArrRefs, KeyRefs, ValueRefs, BE, Fields, HeadFor, Count;
    RefsSmall(v, base);
    match v
    case Int(i) => IntPrints(i);
    case Str(s) => HeadPrints(0x50, |s|);
    case Data(b) => HeadPrints(0x40, |b|);
    case Arr(a) => HeadPrints(0xA0, |a|);
    case Dict(d) => HeadPrints(0xD0, |d|);
    case _ =>
  }

  // Object by object the byte table is the printed table.
  ghost predicate Printed(t: seq<Bytes>, objs: seq<Obj>)
  {
    |t| == |objs| && forall i :: 0 <= i < |t| ==> ObjOk(objs[i], 4) && Print(objs[i], 4) == t[i]
  }

  predicate AllShort(t: seq<Bytes>) { forall i :: 0 <= i < |t| ==> |t[i]| < TWO_32 }

  lemma PrintedBoth(t: seq<Bytes>, objs: seq<Obj>, u: seq<Bytes>, more: seq<Obj>)
    requires Printed(t, objs) && Printed(u, more)
    ensures Printed(t + u, objs + more)
  {
    hide Print, ObjOk;
  }

  lemma {:induction false} TreePrints(v: Value, base: nat)
    requires base + Count(v) <= TWO_32 && AllShort(Table(v, base))
    ensures Printed(Table(v, base), Tree(v, base))
    decreases Count(v), 0
  {
    hide Own, OwnObj, Print, ObjOk, TableTo, TreeTo;
    CountIsSum(v);
    var own, kids := [Own(v, base)], TableTo(Kids(v), base + 1, |Kids(v)|);
    assert Table(v, base) == own + kids;
    ShortParts(own, kids);
    assert own[0] == Own(v, base);
    OwnPrints(v, base);
    TreeToPrints(Kids(v), base + 1, |Kids(v)|);
    PrintedBoth(own, [OwnObj(v, base)], kids, TreeTo(Kids(v), base + 1, |Kids(v)|));
  }

  lemma ShortParts(a: seq<Bytes>, b: seq<Bytes>)
    requires AllShort(a + b)
    ensures AllShort(a) && AllShort(b)
  {
    forall i | 0 <= i < |a| ensures |a[i]| < TWO_32 { assert (a + b)[i] == a[i]; }
    forall i | 0 <= i < |b| ensures |b[i]| < TWO_32 { assert (a + b)[|a| + i] == b[i]; }
  }

  lemma {:induction false} TreeToPrints(kids: seq<Value>, start: nat, n: nat)
    requires n <= |kids| && start + SumCount(kids, n) <= TWO_32 && AllShort(TableTo(kids, start, n))
    ensures Printed(TableTo(kids, start, n), TreeTo(kids, start, n))
    decreases SumCount(kids, n), n
  {
    hide Table, Tree, Print, ObjOk, Count;
    if n > 0 {
      var front, last := TableTo(kids, start, n - 1), Table(kids[n - 1], start + SumCount(kids, n - 1));
      assert TableTo(kids, start, n) == front + last;
      ShortParts(front, last);
      TreeToPrints(kids, start, n - 1);
      TreePrints(kids[n - 1], start + SumCount(kids, n - 1));
      PrintedBoth(front, TreeTo(kids, start, n - 1), last, Tree(kids[n - 1], start + SumCount(kids, n - 1)));
    }
  }

  lemma OursIsLaid(t: seq<Bytes>)
    ensures LayoutOk(OURS) && File(t) == FileOf(t, OURS)
  {
    hide Flat, Fields, Offsets, BE;
  }

  // Every object and every offset of a file below 4 GiB is below 4 GiB.
  lemma SmallParts(t: seq<Bytes>)
    requires |FileOf(t, OURS)| < TWO_32 && LayoutOk(OURS)
    ensures AllShort(t) && |t| < TWO_32 && Fitting(t, OURS)
  {
    hide FileOf, Flat, Fields, Offsets, TrailerWith, Has;
    FileParts(t, OURS);
    Powers();
    forall i | 0 <= i < |t| ensures |t[i]| < TWO_32 && Offset(t, i) < TWO_32 {
      FlatPart(t, i, |t|);
    }
  }

  /** The round trip law, both ways: an encoded tree reads back as itself exactly when it is at most 32 levels deep; a
      deeper one is refused. */
  lemma RoundTrip(v: Value)
    requires |Encode(v)| < TWO_32
    ensures Decode(Encode(v)) == if Height(v) <= MAX_DEPTH then Some(v) else None
  {
    hide Table, Tree, FileOf, File, Decode, Height, Print, ObjOk, AllShort, Fitting, LayoutOk;
    var t, objs := Table(v, 0), Tree(v, 0);
    OursIsLaid(t);
    SmallParts(t);
    TreePrints(v, 0);
    assert TableOk(objs, 4);
    assert Objects(objs, 4) == t;
    AnyLayout(v, OURS);
  }
}
