/** The ring as an object used by one thread at a time: its two-part copies over one array. */
module Ring {
  import opened Wire
  import opened Bits
  import opened RingSpec
  import opened RingProof

  // From stream position `head` on, the buffer holds c.
  ghost predicate Holds<T>(buf: seq<T>, bits: nat, head: nat, c: seq<T>)
  {
    |buf| == Capacity(bits) && |c| <= |buf| && forall k :: 0 <= k < |c| ==> buf[Place(bits, head, k)] == c[k]
  }

  function Place(bits: nat, head: nat, k: nat): (p: nat)
    ensures p < Capacity(bits)
  {
    Home(bits, head + k)
  }

  /** Writing the slot after the last element appends to the contents and disturbs none of them. */
  lemma PutKeeps<T>(buf: seq<T>, bits: nat, head: nat, c: seq<T>, x: T)
    requires Holds(buf, bits, head, c) && |c| < Capacity(bits)
    ensures Holds(buf[Place(bits, head, |c|) := x], bits, head, c + [x])
  {
    hide Capacity, Home;
    forall k | 0 <= k < |c| ensures Place(bits, head, k) != Place(bits, head, |c|) {
      HomesDiffer(bits, head + k, head + |c|);
    }
  }

  lemma DropKeeps<T>(buf: seq<T>, bits: nat, head: nat, c: seq<T>, n: nat)
    requires Holds(buf, bits, head, c) && n <= |c|
    ensures Holds(buf, bits, head + n, c[n..])
  {
    hide Capacity, Home;
    forall k | 0 <= k < |c| - n ensures buf[Place(bits, head + n, k)] == c[n..][k] {
      assert buf[Place(bits, head, n + k)] == c[n + k];
    }
  }

  // The slot of element i of a copy that starts at a counter value.
  lemma SlotOfCounter(bits: nat, at: Word64, base: nat, n: nat, i: nat)
    requires bits <= 63 && at == U64(base) && i < n <= Capacity(bits)
    ensures Slot(bits, at, n, i) == Place(bits, base, i)
  {
    hide Slot, Home;
    CounterSlot(bits, at, base, n, i);
  }

  lemma PutNext<T>(buf: seq<T>, bits: nat, head: nat, c: seq<T>, wr: Word64, data: seq<T>, i: nat)
    requires i < |data| && |c| + |data| <= Capacity(bits)
    requires bits <= 63 && Holds(buf, bits, head, c + data[..i]) && wr == U64(head + |c|)
    ensures var s := Slot(bits, wr, |data|, i);
      0 <= s < |buf| && Holds(buf[s := data[i]], bits, head, c + data[..i + 1])
  {
    hide Slot, Home, Capacity;
    SlotOfCounter(bits, wr, head + |c|, |data|, i);
    PutKeeps(buf, bits, head, c + data[..i], data[i]);
    assert c + data[..i + 1] == c + data[..i] + [data[i]];
  }

  lemma TakeNext<T>(buf: seq<T>, bits: nat, head: nat, c: seq<T>, rd: Word64, n: nat, i: nat)
    requires bits <= 63 && Holds(buf, bits, head, c) && rd == U64(head) && i < n <= |c|
    ensures var s := Slot(bits, rd, n, i); 0 <= s < |buf| && buf[s] == c[i]
  {
    hide Slot, Home, Capacity;
    SlotOfCounter(bits, rd, head, n, i);
  }

  lemma Level<T>(buf: seq<T>, bits: nat, head: nat, c: seq<T>)
    requires bits <= 63 && Holds(buf, bits, head, c)
    ensures U64(U64(head + |c|) - U64(head)) == |c| <= Capacity(bits) <= TWO_63
  {
    hide Capacity;
    CapacityBound(bits);
  }

  class RingBuffer<T> {
    const mask: nat
    const buffer: array<T>
    var read: Word64
    var write: Word64
    ghost const bits: nat
    ghost var head: nat             // elements ever popped
    ghost var contents: seq<T>      // the queue

    ghost predicate Valid()
      reads this, buffer
    {
      && bits <= 63 && mask == Capacity(bits) - 1
      && Holds(buffer[..], bits, head, contents)
      && read == U64(head) && write == U64(head + |contents|)
    }

    constructor (requested: Word64, zero: T)
      requires 1 <= requested <= TWO_63
      ensures Valid() && contents == [] && fresh(buffer) && LeastPow2(buffer.Length, requested)
    {
      var cap := NextPow2(requested);
      ghost var k: nat :| cap == Pow2(k);
      Pow2Of64();
      CapacityFits(cap, k, requested);
      mask := cap - 1;
      bits := k;
      buffer := new T[cap](_ => zero);
      read, write := 0, 0;
      head, contents := 0, [];
    }

    // memcpy in two parts: up to the end of the buffer, then from its beginning.
    method CopyIn(wr: Word64, data: seq<T>)
      requires Valid() && wr == write && |contents| + |data| <= Capacity(bits)
      modifies buffer
      ensures Holds(buffer[..], bits, head, contents + data)
    {
      hide Home, Holds, Pow2, And;
      MaskIsMod(wr, bits);
      HoldsAll(buffer[..], bits, head, contents);
      var pos := And(wr, mask);
      var first := Min(|data|, mask + 1 - pos);
      var i := 0;
      assert contents + data[..0] == contents;
      while i < first
        invariant i <= first && Holds(buffer[..], bits, head, contents + data[..i])
      {
        PutNext(buffer[..], bits, head, contents, wr, data, i);
        buffer[pos + i] := data[i];
        i := i + 1;
      }
      while i < |data|
        invariant first <= i <= |data| && Holds(buffer[..], bits, head, contents + data[..i])
      {
        PutNext(buffer[..], bits, head, contents, wr, data, i);
        buffer[i - first] := data[i];
        i := i + 1;
      }
      assert data[..i] == data;
    }

    method TryPush(data: seq<T>) returns (ok: bool)
      requires Valid()
      modifies this, buffer
      ensures Valid() && head == old(head)
      ensures ok <==> |old(contents)| + |data| <= buffer.Length
      ensures contents == if ok then old(contents) + data else old(contents)
    {
      hide Home, Holds, Capacity, And, U64;
      var wr, rd := write, read;
      Level(buffer[..], bits, head, contents);
      CounterAdds(head + |contents|, |data|);
      HoldsAll(buffer[..], bits, head, contents);
      if |data| > Available(wr, rd) { return false; }
      CopyIn(wr, data);
      write, contents := U64(wr + |data|), contents + data;
      return true;
    }

    method CopyOut(rd: Word64, out: array<T>)
      requires Valid() && out != buffer && rd == read && out.Length <= |contents|
      modifies out
      ensures out[..] == contents[..out.Length]
    {
      hide Home, Holds, Pow2, And;
      MaskIsMod(rd, bits);
      HoldsAll(buffer[..], bits, head, contents);
      var n := out.Length;
      var pos := And(rd, mask);
      var first := Min(n, mask + 1 - pos);
      var i := 0;
      while i < first
        invariant i <= first && buffer[..] == old(buffer[..])
        invariant forall k :: 0 <= k < i ==> out[k] == contents[k]
      {
        TakeNext(buffer[..], bits, head, contents, rd, n, i);
        out[i] := buffer[pos + i];
        i := i + 1;
      }
      while i < n
        invariant first <= i <= n && buffer[..] == old(buffer[..])
        invariant forall k :: 0 <= k < i ==> out[k] == contents[k]
      {
        TakeNext(buffer[..], bits, head, contents, rd, n, i);
        out[i] := buffer[i - first];
        i := i + 1;
      }
    }

    method TryPop(out: array<T>) returns (ok: bool)
      requires Valid() && out != buffer
      modifies this, out
      ensures Valid()
      ensures ok <==> out.Length <= |old(contents)|
      ensures ok ==> out[..] + contents == old(contents) && head == old(head) + out.Length
      ensures !ok ==> out[..] == old(out[..]) && contents == old(contents) && head == old(head)
    {
      hide Home, Holds, Capacity, And, U64;
      var rd, wr, n := read, write, out.Length;
      Level(buffer[..], bits, head, contents);
      CounterAdds(head, n);
      if n > U64(wr - rd) { return false; }
      CopyOut(rd, out);
      DropKeeps(buffer[..], bits, head, contents, n);
      read, head, contents := U64(rd + n), head + n, contents[n..];
      return true;
    }

    function Available(wr: Word64, rd: Word64): int
      reads this
    {
      mask + 1 - U64(wr - rd)
    }

    method AvailableRead() returns (r: nat)
      requires Valid()
      ensures r == |contents|
    {
      hide Home, Holds, Pow2;
      Level(buffer[..], bits, head, contents);
      r := U64(write - read);
    }

    method AvailableWrite() returns (r: nat)
      requires Valid()
      ensures |contents| + r == buffer.Length
    {
      hide Home, Holds, Pow2;
      Level(buffer[..], bits, head, contents);
      HoldsAll(buffer[..], bits, head, contents);
      r := Available(write, read);
    }
  }

  lemma HoldsAll<T>(buf: seq<T>, bits: nat, head: nat, c: seq<T>)
    requires Holds(buf, bits, head, c)
    ensures |buf| == Capacity(bits)
  {
  }

  lemma CapacityFits(cap: nat, k: nat, v: nat)
    requires cap == Pow2(k) && LeastPow2(cap, v) && 1 <= v <= TWO_63
    ensures k <= 63 && cap == Capacity(k) && cap <= TWO_63
  {
    hide Pow2;
    Pow2Of64();
    assert cap <= Pow2(63);
    Pow2Orders(64, k);
    Pow2Orders(k, 63);
  }
}
