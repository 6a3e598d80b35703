/** HomeKit's TLV8: tagged values, cut into records of at most 255 bytes and joined again. */
module Tlv {
  import opened Wire
  import opened Slices

  datatype Item = Item(tag: Byte, value: Bytes)

  // ---- Encoding ----

  function Record(tag: Byte, chunk: Bytes): (r: Bytes)
    requires |chunk| <= 255
    ensures |r| == 2 + |chunk|
  {
    [tag, |chunk|] + chunk
  }

  // The records of one value; an empty value still gets one.
  function Records(tag: Byte, v: Bytes): (r: Bytes)
    ensures |r| > 0
  {
    if |v| <= 255 then Record(tag, v) else Record(tag, v[..255]) + Records(tag, v[255..])
  }

  function Encode(m: seq<Item>): Bytes
  {
    if m == [] then [] else Records(m[0].tag, m[0].value) + Encode(m[1..])
  }

  // ---- Decoding ----

  // A record joins the value before it if the tags are equal.
  function Join(out: seq<Item>, tag: Byte, chunk: Bytes): seq<Item>
  {
    if out != [] && out[|out| - 1].tag == tag then out[..|out| - 1] + [Item(tag, out[|out| - 1].value + chunk)]
    else out + [Item(tag, chunk)]
  }

  // A whole record stands at i.
  predicate RecordAt(d: Bytes, i: nat) { i + 2 <= |d| && i + 2 + d[i + 1] <= |d| }

  function DecodeFrom(d: Bytes, i: nat, out: seq<Item>): seq<Item>
    decreases |d| - i
  {
    if !RecordAt(d, i) then out
    else DecodeFrom(d, i + 2 + d[i + 1], Join(out, d[i], d[i + 2..i + 2 + d[i + 1]]))
  }

  function Decode(d: Bytes): seq<Item> { DecodeFrom(d, 0, []) }

  // ---- What decoding an encoding gives ----

  function MergeInto(out: seq<Item>, m: seq<Item>): seq<Item>
    decreases |m|
  {
    if m == [] then out else MergeInto(Join(out, m[0].tag, m[0].value), m[1..])
  }

  // m with neighbours of equal tags concatenated.
  function Merge(m: seq<Item>): seq<Item> { MergeInto([], m) }

  predicate NeighboursDiffer(m: seq<Item>) { forall k :: 0 < k < |m| ==> m[k - 1].tag != m[k].tag }

  lemma JoinTwice(out: seq<Item>, tag: Byte, a: Bytes, b: Bytes)
    ensures Join(Join(out, tag, a), tag, b) == Join(out, tag, a + b)
  {
    var one := Join(out, tag, a);
    if out != [] && out[|out| - 1].tag == tag {
      assert one[..|one| - 1] == out[..|out| - 1];
      assert out[|out| - 1].value + a + b == out[|out| - 1].value + (a + b);
    } else {
      assert one[..|one| - 1] == out;
    }
  }

  lemma RecordStands(d: Bytes, i: nat, tag: Byte, chunk: Bytes)
    requires |chunk| <= 255 && Has(d, i, Record(tag, chunk))
    ensures RecordAt(d, i) && d[i] == tag && d[i + 1] == |chunk| && d[i + 2..i + 2 + d[i + 1]] == chunk
  {
    HasAt(d, i, Record(tag, chunk), 0);
    HasAt(d, i, Record(tag, chunk), 1);
    HasPart(d, i, Record(tag, chunk), 2, 2 + |chunk|);
    assert Record(tag, chunk)[2..2 + |chunk|] == chunk;
    HasSlice(d, i + 2, chunk);
  }

  lemma OneRecord(d: Bytes, i: nat, out: seq<Item>, tag: Byte, chunk: Bytes)
    requires |chunk| <= 255 && Has(d, i, Record(tag, chunk))
    ensures DecodeFrom(d, i, out) == DecodeFrom(d, i + 2 + |chunk|, Join(out, tag, chunk))
  {
    hide Join, Has;
    RecordStands(d, i, tag, chunk);
  }

  lemma {:induction false} RecordsRead(d: Bytes, i: nat, out: seq<Item>, tag: Byte, v: Bytes)
    requires Has(d, i, Records(tag, v))
    ensures DecodeFrom(d, i, out) == DecodeFrom(d, i + |Records(tag, v)|, Join(out, tag, v))
    decreases |v|
  {
    hide DecodeFrom, Join, Has, Record;
    if |v| <= 255 {
      OneRecord(d, i, out, tag, v);
    } else {
      var rest := Records(tag, v[255..]);
      HasSplit(d, i, Record(tag, v[..255]), rest);
      OneRecord(d, i, out, tag, v[..255]);
      RecordsRead(d, i + 257, Join(out, tag, v[..255]), tag, v[255..]);
      JoinTwice(out, tag, v[..255], v[255..]);
      assert v[..255] + v[255..] == v;
    }
  }

  lemma {:induction false} EncodeReads(d: Bytes, i: nat, out: seq<Item>, m: seq<Item>)
    requires Has(d, i, Encode(m)) && i + |Encode(m)| == |d|
    ensures DecodeFrom(d, i, out) == MergeInto(out, m)
    decreases |m|
  {
    hide Join, Has, Records;
    if m != [] {
      HasSplit(d, i, Records(m[0].tag, m[0].value), Encode(m[1..]));
      RecordsRead(d, i, out, m[0].tag, m[0].value);
      EncodeReads(d, i + |Records(m[0].tag, m[0].value)|, Join(out, m[0].tag, m[0].value), m[1..]);
    }
  }

  /** Decoding what was encoded gives the list with neighbours of equal tags joined, across fragments and empty
      values. */
  lemma DecodeEncode(m: seq<Item>)
    ensures Decode(Encode(m)) == Merge(m)
  {
    HasWhole(Encode(m));
    EncodeReads(Encode(m), 0, [], m);
  }

  // Records as any writer may cut them.
  function Written(chunks: seq<Item>): Bytes
    requires forall c :: c in chunks ==> |c.value| <= 255
  {
    if chunks == [] then [] else Record(chunks[0].tag, chunks[0].value) + Written(chunks[1..])
  }

  lemma {:induction false} WrittenReads(d: Bytes, i: nat, out: seq<Item>, chunks: seq<Item>)
    requires (forall c :: c in chunks ==> |c.value| <= 255) && Has(d, i, Written(chunks))
    requires !RecordAt(d, i + |Written(chunks)|)
    ensures DecodeFrom(d, i, out) == MergeInto(out, chunks)
    decreases |chunks|
  {
    hide Join, Has, Record;
    if chunks != [] {
      HasSplit(d, i, Record(chunks[0].tag, chunks[0].value), Written(chunks[1..]));
      OneRecord(d, i, out, chunks[0].tag, chunks[0].value);
      WrittenReads(d, i + 2 + |chunks[0].value|, Join(out, chunks[0].tag, chunks[0].value), chunks[1..]);
    }
  }

  /** However a writer has cut its values into records, neighbours of equal tags are joined; what follows the last whole
      record is ignored. */
  lemma AnyRecordsJoin(chunks: seq<Item>, tail: Bytes)
    requires (forall c :: c in chunks ==> |c.value| <= 255) && !RecordAt(tail, 0)
    ensures Decode(Written(chunks) + tail) == Merge(chunks)
  {
    hide Written, MergeInto, DecodeFrom;
    var d, n := Written(chunks) + tail, |Written(chunks)|;
    HasWhole(d);
    HasSplit(d, 0, Written(chunks), tail);
    assert tail == d[n..];
    assert |tail| >= 2 ==> d[n + 1] == tail[1];
    WrittenReads(d, 0, [], chunks);
  }

  /** A value takes as few records as it can: one, or one for every 255 bytes begun. */
  lemma {:induction false} FewestRecords(tag: Byte, v: Bytes)
    ensures |Records(tag, v)| == |v| + 2 * (if v == [] then 1 else (|v| + 254) / 255)
    decreases |v|
  {
    hide Record;
    if |v| > 255 {
      FewestRecords(tag, v[255..]);
      assert (|v| - 255 + 254) / 255 + 1 == (|v| + 254) / 255;
    }
  }

  lemma {:induction false} MergeAppends(out: seq<Item>, m: seq<Item>)
    requires NeighboursDiffer(out + m)
    ensures MergeInto(out, m) == out + m
    decreases |m|
  {
    if m == [] {
      assert out + m == out;
    } else {
      assert (out + m)[|out|] == m[0];
      if out != [] {
        assert (out + m)[|out| - 1] == out[|out| - 1];
      }
      assert out + [m[0]] + m[1..] == out + m;
      MergeAppends(out + [m[0]], m[1..]);
    }
  }

  lemma JoinDiffers(out: seq<Item>, tag: Byte, chunk: Bytes)
    requires NeighboursDiffer(out)
    ensures NeighboursDiffer(Join(out, tag, chunk))
  {
  }

  lemma {:induction false} MergeDiffers(out: seq<Item>, m: seq<Item>)
    requires NeighboursDiffer(out)
    ensures NeighboursDiffer(MergeInto(out, m))
    decreases |m|
  {
    hide Join, NeighboursDiffer;
    if m != [] {
      JoinDiffers(out, m[0].tag, m[0].value);
      MergeDiffers(Join(out, m[0].tag, m[0].value), m[1..]);
    }
  }

  /** The round trip is exact precisely for lists whose neighbours have different tags. */
  lemma RoundTripExactly(m: seq<Item>)
    ensures Decode(Encode(m)) == m <==> NeighboursDiffer(m)
  {
    hide Decode, Encode, MergeInto, NeighboursDiffer;
    DecodeEncode(m);
    if NeighboursDiffer(m) {
      assert [] + m == m;
      MergeAppends([], m);
    }
    assert NeighboursDiffer([]) by { NothingDiffers(); }
    MergeDiffers([], m);
  }

  lemma NothingDiffers()
    ensures NeighboursDiffer([])
  {
  }

  lemma {:induction false} DecodeDiffers(d: Bytes, i: nat, out: seq<Item>)
    requires NeighboursDiffer(out)
    ensures NeighboursDiffer(DecodeFrom(d, i, out))
    decreases |d| - i
  {
    hide Join, NeighboursDiffer;
    if RecordAt(d, i) {
      JoinDiffers(out, d[i], d[i + 2..i + 2 + d[i + 1]]);
      DecodeDiffers(d, i + 2 + d[i + 1], Join(out, d[i], d[i + 2..i + 2 + d[i + 1]]));
    }
  }

  /** Whatever a receiver sends, re-encoding what was understood of it and decoding again changes nothing. */
  lemma DecodeIsStable(d: Bytes)
    ensures Decode(Encode(Decode(d))) == Decode(d)
  {
    hide Encode, NeighboursDiffer;
    NothingDiffers();
    DecodeDiffers(d, 0, []);
    RoundTripExactly(Decode(d));
  }

  // ---- The loops ----

  method TlvEncode(items: seq<Item>) returns (out: Bytes)
    ensures out == Encode(items)
  {
    hide Records;
    out := [];
    var k := 0;
    while k < |items|
      invariant k <= |items| && out + Encode(items[k..]) == Encode(items)
    {
      assert items[k..][0] == items[k] && items[k..][1..] == items[k + 1..];
      ghost var before := out;
      out := EncodeItem(out, items[k].tag, items[k].value);
      assert before + (Records(items[k].tag, items[k].value) + Encode(items[k + 1..])) == out + Encode(items[k + 1..]);
      k := k + 1;
    }
    assert items[k..] == [];
  }

  method EncodeItem(prefix: Bytes, tag: Byte, value: Bytes) returns (out: Bytes)
    ensures out == prefix + Records(tag, value)
  {
    hide Records;
    out := prefix;
    var pos := 0;
    var more := true;
    assert value[0..] == value;
    while more
      invariant pos <= |value| && (!more ==> out == prefix + Records(tag, value))
      invariant more ==> out + Records(tag, value[pos..]) == prefix + Records(tag, value)
      invariant more ==> pos < |value| || pos == 0
      decreases more, |value| - pos
    {
      var chunk := Min(255, |value| - pos);
      RecordStep(tag, value, pos);
      out := out + [tag] + [chunk] + value[pos..pos + chunk];
      pos := pos + chunk;
      more := pos < |value|;
    }
  }

  lemma RecordStep(tag: Byte, value: Bytes, pos: nat)
    requires pos <= |value|
    ensures var chunk := Min(255, |value| - pos);
      Records(tag, value[pos..])
      == [tag] + [chunk] + value[pos..pos + chunk]
        + (if pos + chunk < |value| then Records(tag, value[pos + chunk..]) else [])
  {
    var chunk: nat := Min(255, |value| - pos);
    assert value[pos..][..chunk] == value[pos..pos + chunk] && value[pos..][chunk..] == value[pos + chunk..];
    assert [tag] + [chunk] == [tag, chunk];
  }

  method TlvDecode(data: Bytes) returns (out: seq<Item>)
    ensures out == Decode(data)
  {
    hide DecodeFrom;
    out := [];
    var i := 0;
    while i + 2 <= |data|
      invariant i <= |data| && DecodeFrom(data, i, out) == Decode(data)
      decreases |data| - i
    {
      DecodeStep(data, i, out);
      var tag, len := data[i], data[i + 1];
      if i + 2 + len > |data| { break; }
      var chunk := data[i + 2..i + 2 + len];
      if out != [] && out[|out| - 1].tag == tag {
        out := out[..|out| - 1] + [Item(tag, out[|out| - 1].value + chunk)];
      } else {
        out := out + [Item(tag, chunk)];
      }
      i := i + 2 + len;
    }
    DecodeStep(data, i, out);
  }

  lemma DecodeStep(d: Bytes, i: nat, out: seq<Item>)
    ensures !RecordAt(d, i) ==> DecodeFrom(d, i, out) == out
    ensures RecordAt(d, i) ==>
      DecodeFrom(d, i, out) == DecodeFrom(d, i + 2 + d[i + 1], Join(out, d[i], d[i + 2..i + 2 + d[i + 1]]))
  {
  }
}
