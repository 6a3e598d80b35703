/** Bitwise operations on naturals, bit by bit, and the two uses the ring makes of them: masking a counter and
    rounding a size up to a power of two. */
module Bits {
  import opened Wire
  import opened Arith

  function Pow2(k: nat): (p: nat)
    ensures p > 0
  {
    if k == 0 then 1 else 2 * Pow2(k - 1)
  }

  function Or(a: nat, b: nat): nat
  {
    if a == 0 then b else Max(a % 2, b % 2) + 2 * Or(a / 2, b / 2)
  }

  function And(a: nat, b: nat): nat
  {
    if a == 0 then 0 else Min(a % 2, b % 2) + 2 * And(a / 2, b / 2)
  }

  function Xor(a: nat, b: nat): nat
  {
    if a == 0 then b else (if a % 2 == b % 2 then 0 else 1) + 2 * Xor(a / 2, b / 2)
  }

  lemma {:induction false} XorZero(a: nat, b: nat)
    ensures Xor(a, b) == 0 <==> a == b
  {
    if a > 0 {
      XorZero(a / 2, b / 2);
    }
  }

  lemma {:induction false} XorBack(a: nat, b: nat)
    ensures Xor(Xor(a, b), b) == a
  {
    if a > 0 {
      XorBack(a / 2, b / 2);
    } else {
      XorZero(b, b);
    }
  }

  lemma {:induction false} OrZero(a: nat, b: nat)
    ensures Or(a, b) == 0 <==> a == 0 && b == 0
  {
    if a > 0 {
      OrZero(a / 2, b / 2);
    }
  }

  // Bytes stay bytes.
  lemma {:induction false} BitsFit(a: nat, b: nat, k: nat)
    requires a < Pow2(k) && b < Pow2(k)
    ensures Xor(a, b) < Pow2(k) && Or(a, b) < Pow2(k)
  {
    if a > 0 && k > 0 {
      BitsFit(a / 2, b / 2, k - 1);
    }
  }

  function Max(a: nat, b: nat): nat { if a >= b then a else b }

  // a >> k
  function Shift(a: nat, k: nat): nat { if k == 0 then a else Shift(a / 2, k - 1) }

  lemma Pow2Of64()
    ensures Pow2(64) == TWO_64 && Pow2(63) == TWO_63
  {
    assert Pow2(10) == 0x400;
    assert Pow2(20) == 0x10_0000;
    assert Pow2(30) == 0x4000_0000;
    assert Pow2(40) == 0x100_0000_0000;
    assert Pow2(50) == 0x4_0000_0000_0000;
    assert Pow2(60) == 0x1000_0000_0000_0000;
  }

  lemma {:induction false} Pow2Adds(j: nat, k: nat)
    ensures Pow2(j + k) == Pow2(j) * Pow2(k)
  {
    if j > 0 {
      Pow2Adds(j - 1, k);
    }
  }

  // ---- Masking ----

  function LowBits(a: nat, k: nat): nat { if k == 0 then 0 else a % 2 + 2 * LowBits(a / 2, k - 1) }

  lemma {:induction false} AndMask(a: nat, k: nat)
    ensures And(a, Pow2(k) - 1) == LowBits(a, k)
  {
    if k == 0 {
      AndZero(a);
    } else if a == 0 {
      LowBitsOfZero(k);
    } else {
      AndMask(a / 2, k - 1);
    }
  }

  lemma {:induction false} AndZero(a: nat)
    ensures And(a, 0) == 0
  {
    if a > 0 {
      AndZero(a / 2);
    }
  }

  lemma {:induction false} LowBitsOfZero(k: nat)
    ensures LowBits(0, k) == 0
  {
    if k > 0 {
      LowBitsOfZero(k - 1);
    }
  }

  lemma Doubled(p: nat, s: nat)
    ensures 2 * (p * s) == 2 * p * s
  {
  }

  lemma {:induction false} LowBitsSplit(a: nat, k: nat)
    ensures a == Pow2(k) * Shift(a, k) + LowBits(a, k) && LowBits(a, k) < Pow2(k)
  {
    if k > 0 {
      LowBitsSplit(a / 2, k - 1);
      Doubled(Pow2(k - 1), Shift(a / 2, k - 1));
    }
  }

  /** Masking with 2^k - 1 is reduction modulo 2^k. */
  lemma MaskIsMod(a: nat, k: nat)
    ensures And(a, Pow2(k) - 1) == a % Pow2(k)
  {
    AndMask(a, k);
    LowBitsSplit(a, k);
    ModIs(a, Pow2(k), Shift(a, k), LowBits(a, k));
  }

  // ---- Rounding up ----

  function Smear(v: nat, k: nat): nat { Or(v, Shift(v, k)) }

  predicate Bit(a: nat, i: nat) { Shift(a, i) % 2 == 1 }

  // One of the n bits of v from bit i on is set.
  ghost predicate Any(v: nat, i: nat, n: nat) { exists j :: i <= j < i + n && Bit(v, j) }

  lemma {:induction false} ShiftOr(a: nat, b: nat, i: nat)
    ensures Shift(Or(a, b), i) == Or(Shift(a, i), Shift(b, i))
  {
    if i > 0 {
      ShiftOr(a / 2, b / 2, i - 1);
      assert a == 0 ==> Or(a / 2, b / 2) == b / 2;
    }
  }

  lemma {:induction false} ShiftShift(a: nat, j: nat, k: nat)
    ensures Shift(Shift(a, j), k) == Shift(a, j + k)
  {
    if j > 0 {
      ShiftShift(a / 2, j - 1, k);
    }
  }

  lemma {:induction false} SmearBit(v: nat, k: nat, i: nat)
    ensures Bit(Smear(v, k), i) <==> Bit(v, i) || Bit(v, i + k)
  {
    hide Shift, Or;
    ShiftOr(v, Shift(v, k), i);
    ShiftShift(v, k, i);
    LowBitOfOr(Shift(v, i), Shift(v, i + k));
  }

  lemma {:induction false} LowBitOfOr(a: nat, b: nat)
    ensures Or(a, b) % 2 == Max(a % 2, b % 2)
  {
    if a != 0 {
      Parity(Max(a % 2, b % 2), Or(a / 2, b / 2));
    }
  }

  lemma Parity(m: nat, x: nat)
    requires m < 2
    ensures (m + 2 * x) % 2 == m
  {
  }

  lemma ShowsItself(v: nat)
    ensures forall i: nat :: Bit(v, i) <==> Any(v, i, 1)
  {
    hide Bit;
    forall i: nat ensures Bit(v, i) <==> Any(v, i, 1) {
      if Any(v, i, 1) {}
    }
  }

  // Smearing by n a value that already shows n bits at a time makes it show 2 * n.
  lemma SmearDoubles(v0: nat, v: nat, n: nat)
    requires forall i: nat :: Bit(v, i) <==> Any(v0, i, n)
    ensures forall i: nat :: Bit(Smear(v, n), i) <==> Any(v0, i, 2 * n)
  {
    hide Bit, Smear;
    forall i: nat ensures Bit(Smear(v, n), i) <==> Any(v0, i, 2 * n) {
      SmearBit(v, n, i);
      assert Bit(v, i) <==> Any(v0, i, n);
      assert Bit(v, i + n) <==> Any(v0, i + n, n);
    }
  }

  // A value of at most `width` bits shows, from bit i on, exactly whether it reaches 2^i.
  lemma {:induction false} AnyIsNonzero(v: nat, i: nat, width: nat)
    requires v < Pow2(width)
    ensures Any(v, i, width) <==> Shift(v, i) != 0
    decreases width
  {
    ShiftVanishes(v, i, width);
    if Shift(v, i) != 0 {
      var j := SetBit(Shift(v, i));
      ShiftShift(v, i, j);
      ShiftVanishes(v, i + j, width);
      assert Bit(v, i + j);
    }
    if j: nat :| i <= j < i + width && Bit(v, j) {
      ShiftShift(v, i, j - i);
      ShiftOfZero(j - i);
    }
  }

  lemma {:induction false} ShiftOfZero(i: nat)
    ensures Shift(0, i) == 0
  {
    if i > 0 {
      ShiftOfZero(i - 1);
    }
  }

  lemma {:induction false} ShiftVanishes(v: nat, i: nat, width: nat)
    requires v < Pow2(width)
    ensures i >= width ==> Shift(v, i) == 0
  {
    if width == 0 {
      ShiftOfZero(i);
    } else if i > 0 {
      ShiftVanishes(v / 2, i - 1, width - 1);
    }
  }

  lemma {:induction false} SetBit(v: nat) returns (j: nat)
    requires v > 0
    ensures Bit(v, j)
  {
    if v % 2 == 1 {
      j := 0;
    } else {
      j := SetBit(v / 2);
      j := j + 1;
    }
  }

  // As many ones as v has bits.
  function Ones(v: nat): (r: nat)
    ensures r >= v && r <= 2 * v
  {
    if v == 0 then 0 else 1 + 2 * Ones(v / 2)
  }

  lemma {:induction false} OnesBits(v: nat, i: nat)
    ensures Bit(Ones(v), i) <==> Shift(v, i) != 0
  {
    if v == 0 {
      ShiftOfZero(i);
    } else if i > 0 {
      OnesBits(v / 2, i - 1);
    }
  }

  lemma {:induction false} SameBits(a: nat, b: nat)
    requires forall i: nat :: Bit(a, i) <==> Bit(b, i)
    ensures a == b
  {
    assert Bit(a, 0) <==> Bit(b, 0);
    if a != 0 || b != 0 {
      forall i: nat ensures Bit(a / 2, i) <==> Bit(b / 2, i) {
        assert Bit(a, i + 1) <==> Bit(b, i + 1);
      }
      SameBits(a / 2, b / 2);
    }
  }

  // 2^n - 1 for the n bits of v, and no smaller power of two exceeds v.
  lemma {:induction false} OnesIsPow2(v: nat) returns (n: nat)
    ensures Ones(v) + 1 == Pow2(n)
    ensures forall k: nat :: Pow2(k) > v ==> Ones(v) + 1 <= Pow2(k)
  {
    n := 0;
    if v != 0 {
      n := OnesIsPow2(v / 2);
      forall k: nat | Pow2(k) > v ensures Ones(v) + 1 <= Pow2(k) {
        assert k > 0 && Pow2(k - 1) > v / 2;
      }
      n := n + 1;
    }
  }

  lemma {:induction false} OnesBound(v: nat, width: nat)
    requires v < Pow2(width)
    ensures Ones(v) < Pow2(width)
  {
    if v != 0 {
      OnesBound(v / 2, width - 1);
    }
  }

  // p is the least power of two that is at least v.
  ghost predicate LeastPow2(p: nat, v: nat)
  {
    p >= v && (exists k: nat :: p == Pow2(k)) && forall k: nat :: Pow2(k) >= v ==> p <= Pow2(k)
  }

  lemma SmearedIsOnes(v: nat, r: nat)
    requires v < TWO_64 && forall i: nat :: Bit(r, i) <==> Any(v, i, 64)
    ensures r == Ones(v)
  {
    hide Bit, Any;
    Pow2Of64();
    forall i: nat ensures Bit(r, i) <==> Bit(Ones(v), i) {
      AnyIsNonzero(v, i, 64);
      OnesBits(v, i);
    }
    SameBits(r, Ones(v));
  }

  /** The capacity for a requested size: the least power of two that holds it, 0 where none fits 64 bits. */
  method NextPow2(requested: Word64) returns (r: Word64)
    ensures 1 <= requested <= TWO_63 ==> LeastPow2(r, requested)
    ensures requested == 0 || requested > TWO_63 ==> r == 0
  {
    hide Bit, Smear, Any, LeastPow2, Ones;
    var v: nat := U64(requested - 1);
    ghost var v0 := v;
    ShowsItself(v);
    SmearDoubles(v0, v, 1);
    v := Smear(v, 1);
    SmearDoubles(v0, v, 2);
    v := Smear(v, 2);
    SmearDoubles(v0, v, 4);
    v := Smear(v, 4);
    SmearDoubles(v0, v, 8);
    v := Smear(v, 8);
    SmearDoubles(v0, v, 16);
    v := Smear(v, 16);
    SmearDoubles(v0, v, 32);
    v := Smear(v, 32);
    SmearedIsOnes(v0, v);
    r := U64(v + 1);
    RoundsUp(requested, v0);
  }

  lemma RoundsUp(requested: Word64, v: nat)
    requires v == U64(requested - 1)
    ensures 1 <= requested <= TWO_63 ==> LeastPow2(Ones(v) + 1, requested) && Ones(v) + 1 <= TWO_63
    ensures requested == 0 || requested > TWO_63 ==> Ones(v) + 1 == TWO_64
  {
    hide Ones, LeastPow2;
    if 1 <= requested <= TWO_63 {
      RoundsUpInRange(requested);
    } else {
      RoundsUpPastEnd(v);
    }
  }

  lemma RoundsUpInRange(v: nat)
    requires 1 <= v <= TWO_63
    ensures LeastPow2(Ones(v - 1) + 1, v) && Ones(v - 1) + 1 <= TWO_63
  {
    hide Ones, Pow2;
    Pow2Of64();
    var n := OnesIsPow2(v - 1);
    assert Pow2(63) > v - 1;
    OnesIsLarge(v - 1);
  }

  lemma OnesIsLarge(v: nat)
    ensures Ones(v) >= v
  {
  }

  lemma RoundsUpPastEnd(v: nat)
    requires TWO_63 <= v < TWO_64
    ensures Ones(v) + 1 == TWO_64
  {
    hide Ones, Pow2;
    Pow2Of64();
    var n := OnesIsPow2(v);
    OnesBound(v, 64);
    OnesIsLarge(v);
    if Pow2(n) < Pow2(64) {
      Pow2Orders(n, 63);
    }
  }

  lemma {:induction false} Pow2Orders(j: nat, k: nat)
    ensures j <= k ==> Pow2(j) <= Pow2(k)
    ensures Pow2(j) < Pow2(k + 1) ==> j <= k
    decreases j + k
  {
    if j > 0 && k > 0 {
      Pow2Orders(j - 1, k - 1);
    }
  }
}
