/** Bytes, fixed-width words and big-endian fields: the vocabulary shared by every wire format below. */
module Wire {
  import opened Slices

  datatype Option<+T> = None | Some(value: T)

  const TWO_8: nat := 0x100
  const TWO_16: nat := 0x1_0000
  const TWO_32: nat := 0x1_0000_0000
  const TWO_63: nat := 0x8000_0000_0000_0000
  const TWO_64: nat := 0x1_0000_0000_0000_0000

  type Byte = b: int | 0 <= b < 256
  type Bytes = seq<Byte>
  type Word64 = w: int | 0 <= w < 0x1_0000_0000_0000_0000
  type Int64 = i: int | -0x8000_0000_0000_0000 <= i < 0x8000_0000_0000_0000

  // What a 64-bit register keeps of x (two's complement for a negative x).
  function U64(x: int): Word64 { x % 0x1_0000_0000_0000_0000 }

  // The signed reading of a 64-bit pattern.
  function S64(w: Word64): Int64 { if w < TWO_63 then w else w - TWO_64 }

  // A counter kept modulo 2^64 counts the same.
  lemma CounterAdds(a: int, n: int)
    ensures U64(U64(a) + n) == U64(a + n)
  {
  }

  // Audio frames a second on the wire.
  const RATE: nat := 44100

  // One 16-bit audio sample.
  type Sample = s: int | -0x8000 <= s < 0x8000

  function Min(a: nat, b: nat): nat { if a <= b then a else b }

  function Pow256(n: nat): (p: nat)
    ensures p > 0
  {
    if n == 0 then 1 else 256 * Pow256(n - 1)
  }

  // v >> (8 * s)
  function Shr8(v: nat, s: nat): nat
  {
    if s == 0 then v else Shr8(v, s - 1) / 256
  }

  // The low `width` bytes of v, most significant first.
  function BE(v: nat, width: nat): (r: Bytes)
    ensures |r| == width
  {
    seq(width, k requires 0 <= k < width => Shr8(v, width - 1 - k) % 256)
  }

  // The n bytes of d from position `at` read as one big-endian number.
  function ReadWord(d: Bytes, at: nat, n: nat): nat
    requires at + n <= |d|
  {
    if n == 0 then 0 else 256 * ReadWord(d, at, n - 1) + d[at + n - 1]
  }

  lemma {:induction false} Shr8Bound(v: nat, s: nat, n: nat)
    requires v < Pow256(n) && s <= n
    ensures Shr8(v, s) < Pow256(n - s)
  {
    if s > 0 {
      Shr8Bound(v, s - 1, n);
      assert Pow256(n - s + 1) == 256 * Pow256(n - s);
    }
  }

  lemma {:induction false} ReadWordPrefix(d: Bytes, at: nat, v: nat, n: nat, m: nat)
    requires Has(d, at, BE(v, n)) && v < Pow256(n) && m <= n
    ensures ReadWord(d, at, m) == Shr8(v, n - m)
  {
    if m == 0 {
      Shr8Bound(v, n, n);
    } else {
      ReadWordPrefix(d, at, v, n, m - 1);
      HasAt(d, at, BE(v, n), m - 1);
    }
  }

  // A big-endian field reads back.
  lemma ReadWordInvertsBE(d: Bytes, at: nat, v: nat, n: nat)
    requires Has(d, at, BE(v, n)) && v < Pow256(n)
    ensures ReadWord(d, at, n) == v
  {
    ReadWordPrefix(d, at, v, n, n);
  }

  // The loop every field writer uses: shift the value right by 8*s and keep the low byte, s counting down.
  method AppendBE(out: Bytes, v: nat, width: nat) returns (r: Bytes)
    ensures r == out + BE(v, width)
  {
    r := out;
    var s: nat := width;
    while s > 0
      invariant s <= width
      invariant r == out + BE(v, width)[..width - s]
    {
      s := s - 1;
      r := r + [Shr8(v, s) % 256];
    }
  }
}
