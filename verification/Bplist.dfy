/** The bplist00 Encoder and Decoder as the source writes them: a growing object table, and a cursor with a
    sticky error flag. */
module Bplist {
  import opened Wire
  import opened Arith
  import opened BplistSpec

  lemma RefBytesSnoc(refs: seq<nat>, r: nat)
    ensures RefBytes(refs + [r]) == RefBytes(refs) + BE(r, 4)
  {
    hide BE;
    assert (refs + [r])[..|refs|] == refs;
  }

  // Append one 4-byte reference after another.
  method AppendRefs(obj: Bytes, refs: seq<nat>) returns (r: Bytes)
    ensures r == obj + RefBytes(refs)
  {
    hide RefBytes, BE;
    r := obj;
    assert RefBytes(refs[..0]) == [];
    for i := 0 to |refs|
      invariant r == obj + RefBytes(refs[..i])
    {
      assert refs[..i] + [refs[i]] == refs[..i + 1];
      RefBytesSnoc(refs[..i], refs[i]);
      r := AppendBE(r, refs[i], 4);
    }
    assert refs[..|refs|] == refs;
  }

  method EncodeInt(obj: Bytes, value: Int64) returns (r: Bytes)
    ensures r == obj + IntBytes(value)
  {
    hide BE;
    assert Shl1(0) == 1 && Shl1(1) == 2 && Shl1(2) == 2 * Shl1(1) && Shl1(3) == 2 * Shl1(2);
    if 0 <= value <= 0xFF {
      r := AppendBE(obj + [0x10], value, 1);
    } else if 0 <= value <= 0xFFFF {
      r := AppendBE(obj + [0x11], value, 2);
    } else if 0 <= value <= 0xFFFF_FFFF {
      r := AppendBE(obj + [0x12], value, 4);
    } else {
      r := AppendBE(obj + [0x13], U64(value), 8);
    }
  }

  method EncodeMarkerLen(obj: Bytes, marker: Byte, len: nat) returns (r: Bytes)
    requires marker <= 0xF0 && marker % 16 == 0
    ensures r == obj + MarkerLen(marker, len)
  {
    if len < 15 {
      r := obj + [marker + len];
    } else {
      r := EncodeInt(obj + [marker + 15], S64(U64(len)));
    }
  }

  // Every object kind without children; the index it will take does not matter.
  method EncodeLeaf(v: Value, ghost base: nat) returns (obj: Bytes)
    requires !v.Arr? && !v.Dict?
    ensures obj == Own(v, base)
  {
    hide MarkerLen, BE, IntBytes;
    match v
    case Bool(b) => obj := [if b then 0x09 else 0x08];
    case Int(i) => obj := EncodeInt([], i);
    case Real(bits) => obj := AppendBE([0x23], bits, 8);
    case Str(s) =>
      obj := EncodeMarkerLen([], 0x50, |s|);
      obj := obj + s;
    case Data(s) =>
      obj := EncodeMarkerLen([], 0x40, |s|);
      obj := obj + s;
  }

  lemma NoKids(v: Value, start: nat)
    requires !v.Arr? && !v.Dict?
    ensures TableTo(Kids(v), start, |Kids(v)|) == []
  {
  }

  lemma ReplaceSlot<T>(front: seq<T>, blank: T, x: T, rest: seq<T>)
    ensures (front + [blank] + rest)[|front| := x] == front + ([x] + rest)
  {
  }

  class Encoder {
    var objects: seq<Bytes>

    constructor ()
      ensures objects == []
    {
      objects := [];
    }

    // Flatten v into the object table; its root takes the next free index.
    method Add(v: Value) returns (idx: nat)
      modifies this
      ensures idx == |old(objects)|
      ensures objects == old(objects) + Table(v, idx)
      decreases Count(v), 1
    {
      hide Own, TableTo, Kids;
      idx := |objects|;
      objects := objects + [[]];   // the slot is reserved before the children take theirs
      var obj: Bytes;
      CountIsSum(v);
      if v.Arr? {
        obj := AddArray(v);
      } else if v.Dict? {
        obj := AddDict(v);
      } else {
        obj := EncodeLeaf(v, idx);
        assert TableTo(Kids(v), idx + 1, |Kids(v)|) == [] by { NoKids(v, idx + 1); }
      }
      ReplaceSlot(old(objects), [], obj, TableTo(Kids(v), idx + 1, |Kids(v)|));
      objects := objects[idx := obj];
    }

    method AddArray(v: Value) returns (obj: Bytes)
      requires v.Arr? && objects != []
      modifies this
      ensures obj == Own(v, |old(objects)| - 1)
      ensures objects == old(objects) + TableTo(Kids(v), |old(objects)|, |Kids(v)|)
      decreases Count(v), 0, 1
    {
      hide Table, TableTo, MarkerLen, RefBytes, ArrRefs;
      var refs := AddElements(v);
      obj := EncodeMarkerLen([], 0xA0, |refs|);
      obj := AppendRefs(obj, refs);
    }

    method AddDict(v: Value) returns (obj: Bytes)
      requires v.Dict? && objects != []
      modifies this
      ensures obj == Own(v, |old(objects)| - 1)
      ensures objects == old(objects) + TableTo(Kids(v), |old(objects)|, |Kids(v)|)
      decreases Count(v), 0, 1
    {
      hide Table, TableTo, MarkerLen, RefBytes, KeyRefs, ValueRefs, KidsOfEntries;
      var krefs, vrefs := AddEntries(v);
      obj := EncodeMarkerLen([], 0xD0, |v.dict|);
      obj := AppendRefs(obj, krefs);
      obj := AppendRefs(obj, vrefs);
    }

    // The children of an array, after the reserved slot of the array itself.
    method AddElements(v: Value) returns (refs: seq<nat>)
      requires v.Arr? && objects != []
      modifies this
      ensures refs == ArrRefs(Kids(v), |old(objects)| - 1)
      ensures objects == old(objects) + TableTo(Kids(v), |old(objects)|, |Kids(v)|)
      decreases Count(v), 0, 0
    {
      hide Table, Own;
      ghost var base := |objects| - 1;
      refs := [];
      for i := 0 to |v.arr|
        invariant refs == ArrRefs(Kids(v), base)[..i]
        invariant objects == old(objects) + TableTo(Kids(v), base + 1, i)
      {
        KidCount(v, i);
        var r := Add(v.arr[i]);
        refs := refs + [r];
      }
    }

    // The keys and values of a dictionary, key before value.
    method AddEntries(v: Value) returns (krefs: seq<nat>, vrefs: seq<nat>)
      requires v.Dict? && objects != []
      modifies this
      ensures krefs == KeyRefs(Kids(v), |old(objects)| - 1)
      ensures vrefs == ValueRefs(Kids(v), |old(objects)| - 1)
      ensures objects == old(objects) + TableTo(Kids(v), |old(objects)|, |Kids(v)|)
      decreases Count(v), 0, 0
    {
      hide Table, Own, TableTo, Count, KidsOfEntries, BE, KeyRefs, ValueRefs, SumCount;
      ghost var base, kids := |objects| - 1, Kids(v);
      krefs, vrefs := [], [];
      NoneYet(kids, base + 1);
      for i := 0 to |v.dict|
        invariant krefs == KeyRefs(kids, base)[..i] && vrefs == ValueRefs(kids, base)[..i]
        invariant objects == old(objects) + TableTo(kids, base + 1, 2 * i)
      {
        KidCount(v, 2 * i);
        KidCount(v, 2 * i + 1);
        ghost var before := objects;
        var kr := Add(Str(v.dict[i].key));
        krefs := krefs + [kr];
        var vr := Add(v.dict[i].value);
        vrefs := vrefs + [vr];
        EntryRefsAt(kids, base, i);
        TwoMore(kids, base + 1, 2 * i);
        assert objects == before + Table(kids[2 * i], kr) + Table(kids[2 * i + 1], vr);
      }
    }
  }

  lemma NoneYet(kids: seq<Value>, start: nat)
    ensures TableTo(kids, start, 0) == []
  {
  }

  lemma TwoMore(kids: seq<Value>, start: nat, n: nat)
    requires n + 1 < |kids|
    ensures TableTo(kids, start, n + 2) == TableTo(kids, start, n)
      + Table(kids[n], start + SumCount(kids, n)) + Table(kids[n + 1], start + SumCount(kids, n + 1))
  {
    hide Table;
    OneMore(kids, start, n);
    OneMore(kids, start, n + 1);
  }

  lemma EntryRefsAt(kids: seq<Value>, base: nat, i: nat)
    requires 2 * i + 1 < |kids|
    ensures KeyRefs(kids, base)[i] == base + 1 + SumCount(kids, 2 * i)
    ensures ValueRefs(kids, base)[i] == base + 1 + SumCount(kids, 2 * i + 1)
  {
  }

  lemma OneMore(kids: seq<Value>, start: nat, n: nat)
    requires n < |kids|
    ensures TableTo(kids, start, n + 1) == TableTo(kids, start, n) + Table(kids[n], start + SumCount(kids, n))
  {
  }

  method EncodeValue(root: Value) returns (out: Bytes)
    ensures out == Encode(root)
  {
    hide Table, Own, BE, RefBytes;
    var enc := new Encoder();
    var top := enc.Add(root);
    var t := enc.objects;
    assert t == Table(root, 0);
    out := HEADER;
    var offsets: seq<nat> := [];
    for i := 0 to |t|
      invariant out == HEADER + Flat(t, i)
      invariant offsets == Offsets(t, i)
    {
      offsets := offsets + [|out|];
      out := out + t[i];
    }
    var offsetTableStart := |out|;
    out := AppendRefs(out, offsets);
    var trailer: Bytes := [0, 0, 0, 0, 0, 0, 4, 4];
    trailer := AppendBE(trailer, |t|, 8);
    trailer := AppendBE(trailer, top, 8);
    trailer := AppendBE(trailer, offsetTableStart, 8);
    out := out + trailer;
  }

  // Shifting a 64-bit accumulator loses nothing the 64-bit result needs.
  lemma ShiftIn(x: nat, b: Byte)
    ensures U64(256 * U64(x) + b) == U64(256 * x + b)
  {
    var q := x / TWO_64;
    assert x == q * TWO_64 + U64(x);
    assert 256 * x + b == 256 * U64(x) + b + (256 * q) * TWO_64;
    ModShift(256 * U64(x) + b, 256 * q);
  }

  lemma ModShift(a: int, k: int)
    ensures U64(a + k * TWO_64) == U64(a)
  {
  }

  class Decoder {
    const d: Bytes
    var refSize: nat
    var offsets: seq<Word64>
    var ok: bool

    constructor (data: Bytes)
      ensures d == data && ok && offsets == [] && refSize == 0
    {
      d, ok, offsets, refSize := data, true, [], 0;
    }

    function Model(): Image
      reads this
    {
      Image(d, refSize, offsets)
    }

    method ReadBE(at: nat, n: nat) returns (v: Word64)
      modifies this`ok
      ensures (v, ok) == (BplistSpec.ReadBE(d, at, n).0, old(ok) && BplistSpec.ReadBE(d, at, n).1) || n == 0
    {
      v := 0;
      for i := 0 to n
        invariant at + i <= |d| || i == 0
        invariant i > 0 ==> v == U64(ReadWord(d, at, i))
        invariant i == 0 ==> v == 0
        invariant ok == old(ok)
      {
        if at + i >= |d| {
          ok := false;
          return 0;
        }
        if i > 0 {
          ShiftIn(ReadWord(d, at, i), d[at + i]);
        }
        v := U64(256 * v + d[at + i]);
      }
    }

    method ParseTrailer() returns (good: bool)
      requires |d| <= MAX_FILE && ok
      modifies this
      ensures good == BplistSpec.ParseTrailer(d).Some?
      ensures good ==> ok && Model() == BplistSpec.ParseTrailer(d).value
    {
      hide BplistSpec.ReadBE;
      if |d| < 8 + 32 || d[..8] != HEADER {
        return false;
      }
      var tr := |d| - 32;
      var offsetSize: nat := d[tr + 6];
      refSize := d[tr + 7];
      ReadInside(d, tr + 8, 8);
      ReadInside(d, tr + 24, 8);
      var numObjects := ReadBE(tr + 8, 8);
      var offsetTableStart := ReadBE(tr + 24, 8);
      if !ok {
        return false;
      }
      if !ValidSize(offsetSize) || !ValidSize(refSize) {
        return false;
      }
      if offsetTableStart > |d| || numObjects > |d| || numObjects > (|d| - offsetTableStart) / offsetSize {
        return false;
      }
      offsets := [];
      for i := 0 to numObjects
        invariant ok && refSize == d[tr + 7]
        invariant offsets == OffsetsOf(d, offsetTableStart, offsetSize, i)
      {
        TableFits(|d| - offsetTableStart, numObjects, offsetSize, i);
        ReadInside(d, offsetTableStart + i * offsetSize, offsetSize);
        var o := ReadBE(offsetTableStart + i * offsetSize, offsetSize);
        offsets := offsets + [o];
      }
      return ok;
    }

    // Decode table entry `ref`; `ok` threads through every read.
    method Object(ref: nat, depth: nat) returns (r: Option<Value>)
      requires ValidImage(Model()) && depth <= MAX_DEPTH + 1
      modifies this`ok
      ensures (r, ok) == BplistSpec.Object(Model(), ref, depth, old(ok))
      decreases MAX_DEPTH + 1 - depth, 2
    {
      hide BplistSpec.ArrayAt, BplistSpec.DictAt, BplistSpec.Scalar;
      if depth > MAX_DEPTH || ref >= |offsets| {
        return None;
      }
      var pos: nat := offsets[ref];
      if pos >= |d| {
        return None;
      }
      var marker := d[pos];
      if marker / 16 == 0xA {
        r := ArrayAt(marker % 16, pos + 1, depth);
      } else if marker / 16 == 0xD {
        r := DictAt(marker % 16, pos + 1, depth);
      } else {
        r := Scalar(marker, pos + 1);
      }
    }

    method ArrayAt(lo: nat, pos: nat, depth: nat) returns (r: Option<Value>)
      requires ValidImage(Model()) && depth <= MAX_DEPTH && lo < 16 && pos <= |d|
      modifies this`ok
      ensures (r, ok) == BplistSpec.ArrayAt(Model(), lo, pos, depth, old(ok))
      decreases MAX_DEPTH + 1 - depth, 1
    {
      hide BplistSpec.Elements, BplistSpec.ReadCount;
      var cnt, at := ReadCount(lo, pos);
      if !ok || cnt > |offsets| || U64(at + cnt * refSize) > |d| {
        return None;
      }
      var arr := Elements(at, cnt, depth);
      return if arr.Some? then Some(Arr(arr.value)) else None;
    }

    method DictAt(lo: nat, pos: nat, depth: nat) returns (r: Option<Value>)
      requires ValidImage(Model()) && depth <= MAX_DEPTH && lo < 16 && pos <= |d|
      modifies this`ok
      ensures (r, ok) == BplistSpec.DictAt(Model(), lo, pos, depth, old(ok))
      decreases MAX_DEPTH + 1 - depth, 1
    {
      hide BplistSpec.Entries, BplistSpec.ReadCount;
      var cnt, at := ReadCount(lo, pos);
      if !ok || cnt > |offsets| || U64(at + 2 * cnt * refSize) > |d| {
        return None;
      }
      var dict := Entries(at, cnt, depth);
      return if dict.Some? then Some(Dict(dict.value)) else None;
    }

    method ReadCount(lo: nat, pos: nat) returns (cnt: Word64, after: nat)
      requires lo < 16 && pos <= |d|
      modifies this`ok
      ensures Counted(cnt, after, ok) == BplistSpec.ReadCount(d, lo, pos, old(ok))
    {
      hide BplistSpec.ReadBE;
      if lo != 15 {
        return lo, pos;
      }
      if pos >= |d| {
        ok := false;
        return 0, pos;
      }
      var n := Shl1(d[pos] % 16);
      cnt := ReadBE(pos + 1, n);
      after := pos + 1 + n;
    }

    method Scalar(marker: Byte, pos: nat) returns (r: Option<Value>)
      requires pos <= |d| <= MAX_FILE
      modifies this`ok
      ensures (r, ok) == BplistSpec.Scalar(d, marker, pos, old(ok))
    {
      hide BplistSpec.ReadBE, BplistSpec.ReadCount, Utf16Low, Widen, Shl1;
      var hi, lo := marker / 16, marker % 16;
      if hi == 0 {
        return Some(Bool(marker == 0x09));
      } else if hi == 1 {
        var v := ReadBE(pos, Shl1(lo));
        return Some(Int(S64(v)));
      } else if hi == 2 {
        var v := ReadBE(pos, Shl1(lo));
        return Some(Real(if lo == 3 then v else if lo == 2 then Widen(v % TWO_32) else 0));
      } else if hi == 4 || hi == 5 {
        var cnt, at := ReadCount(lo, pos);
        if cnt > |d| || U64(at + cnt) > |d| {
          return None;
        }
        CountInFile(d, Counted(cnt, at, ok), pos);
        var bytes := d[at..at + cnt];
        return Some(if hi == 4 then Data(bytes) else Str(bytes));
      } else if hi == 6 {
        var cnt, at := ReadCount(lo, pos);
        if cnt > |d| {
          return None;
        }
        var s := Utf16(at, cnt);
        return Some(Str(s));
      }
      return None;
    }

    // The low byte of each 16-bit unit, for as many units as the file still holds.
    method Utf16(pos: nat, cnt: nat) returns (s: Bytes)
      ensures s == Utf16Low(d, pos, cnt)
    {
      s := [];
      var i := 0;
      while i < cnt
        invariant 0 <= i <= cnt && s == Utf16Low(d, pos, i) && |s| == i
      {
        if pos + i * 2 + 1 >= |d| {
          assert Utf16Low(d, pos, cnt) == s;
          break;
        }
        s := s + [d[pos + i * 2 + 1]];
        i := i + 1;
      }
    }

    method Elements(pos: nat, cnt: nat, depth: nat) returns (r: Option<seq<Value>>)
      requires ValidImage(Model()) && depth <= MAX_DEPTH
      modifies this`ok
      ensures (r, ok) == BplistSpec.Elements(Model(), pos, cnt, 0, [], depth, old(ok))
      decreases MAX_DEPTH + 1 - depth, 0
    {
      hide BplistSpec.Object, BplistSpec.ReadBE;
      var arr: seq<Value> := [];
      for i := 0 to cnt
        invariant Model() == old(Model())
        invariant BplistSpec.Elements(Model(), pos, cnt, 0, [], depth, old(ok))
               == BplistSpec.Elements(Model(), pos, cnt, i, arr, depth, ok)
      {
        var ref := ReadBE(pos + i * refSize, refSize);
        var child := Object(ref, depth + 1);
        if child.None? {
          return None;
        }
        arr := arr + [child.value];
      }
      return Some(arr);
    }

    method Entries(pos: nat, cnt: nat, depth: nat) returns (r: Option<seq<Entry>>)
      requires ValidImage(Model()) && depth <= MAX_DEPTH
      modifies this`ok
      ensures (r, ok) == BplistSpec.Entries(Model(), pos, cnt, 0, [], depth, old(ok))
      decreases MAX_DEPTH + 1 - depth, 0
    {
      hide BplistSpec.Object, BplistSpec.ReadBE;
      var dict: seq<Entry> := [];
      for i := 0 to cnt
        invariant Model() == old(Model())
        invariant BplistSpec.Entries(Model(), pos, cnt, 0, [], depth, old(ok))
               == BplistSpec.Entries(Model(), pos, cnt, i, dict, depth, ok)
      {
        var kr := ReadBE(pos + i * refSize, refSize);
        var vr := ReadBE(pos + (cnt + i) * refSize, refSize);
        var k := Object(kr, depth + 1);
        var v := Object(vr, depth + 1);
        if k.None? || v.None? {
          return None;
        }
        dict := dict + [Entry(AsStr(k.value), v.value)];
      }
      return Some(dict);
    }
  }

  lemma ReadInside(d: Bytes, at: nat, n: nat)
    requires at + n <= |d|
    ensures BplistSpec.ReadBE(d, at, n).1
  {
  }

  // Entry i of an n-entry table of s-byte entries lies inside the `room` bytes after the table's start.
  lemma TableFits(room: nat, n: nat, s: nat, i: nat)
    requires s > 0 && i < n <= room / s
    ensures i * s + s <= room
  {
    var q, r := Divide(room, s);
    ModIs(room, s, q, r);
    ProductGrows(s, i, q);
  }

  method DecodeValue(data: Bytes) returns (r: Option<Value>)
    requires |data| <= MAX_FILE
    ensures r == Decode(data)
  {
    var dec := new Decoder(data);
    var good := dec.ParseTrailer();
    if !good {
      return None;
    }
    r := dec.Object(0, 0);
  }
}
