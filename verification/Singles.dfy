/** A 4-byte real in a property list is read as a double of exactly its value. */
module Singles {
  import opened Wire
  import opened Bits
  import opened BplistSpec

  const TWO_23: nat := 0x80_0000
  const TWO_52: nat := 0x10_0000_0000_0000

  // What the bits of a floating-point number say: its sign, its exponent field and its fraction.
  datatype Float = Float(negative: bool, exponent: nat, fraction: nat)

  function Single(bits: nat): Float
    requires bits < TWO_32
  {
    Float(bits / 0x8000_0000 == 1, bits / TWO_23 % 256, bits % TWO_23)
  }

  function Double(bits: Word64): Float { Float(bits / TWO_63 == 1, bits / TWO_52 % 2048, bits % TWO_52) }

  // The magnitude of a finite number in units of its smallest one: 2^-149 for a single, 2^-1074 for a double. `one` is
  // the leading bit that is not stored.
  function Magnitude(f: Float, one: nat): nat
  {
    if f.exponent == 0 then f.fraction else (one + f.fraction) * Pow2(f.exponent - 1)
  }

  lemma Unpacks(sign: nat, exponent: nat, fraction: nat)
    requires sign < 2 && exponent < 2048 && fraction < TWO_52
    ensures sign * TWO_63 + exponent * TWO_52 + fraction < TWO_64
    ensures Double(sign * TWO_63 + exponent * TWO_52 + fraction) == Float(sign == 1, exponent, fraction)
  {
  }

  lemma Powers30()
    ensures Pow2(1) == 2 && Pow2(29) == 0x2000_0000 && Pow2(30) == 0x4000_0000
  {
    assert Pow2(4) == 16 && Pow2(8) == 16 * Pow2(4);
    assert Pow2(12) == 16 * Pow2(8) && Pow2(16) == 16 * Pow2(12);
    assert Pow2(20) == 16 * Pow2(16) && Pow2(24) == 16 * Pow2(20);
    assert Pow2(28) == 16 * Pow2(24);
  }

  lemma Shifted(a: nat, i: nat, j: nat)
    ensures a * Pow2(i) * Pow2(j) == a * Pow2(i + j)
  {
    Pow2Adds(i, j);
    Associates(a, Pow2(i), Pow2(j));
  }

  lemma Associates(a: nat, b: nat, c: nat)
    ensures a * b * c == a * (b * c)
  {
  }

  // A normal single: the exponent is rebased and the fraction widened.
  lemma NormalValue(exponent: nat, fraction: nat)
    requires 0 < exponent < 255 && fraction < TWO_23
    ensures (TWO_52 + fraction * 0x2000_0000) * Pow2(exponent + 895)
      == (TWO_23 + fraction) * Pow2(exponent - 1) * Pow2(925)
  {
    var m := TWO_23 + fraction;
    Powers30();
    assert TWO_52 + fraction * 0x2000_0000 == m * Pow2(29);
    Shifted(m, 29, exponent + 895);
    Shifted(m, exponent - 1, 925);
  }

  // The leading bit has reached its place.
  lemma LastShift(man: nat, exp: nat)
    requires 0 < exp
    ensures man * 0x4000_0000 * Pow2(exp - 1) == man * Pow2(exp + 29)
  {
    Powers30();
    Shifted(man, 30, exp - 1);
  }

  lemma OneShift(man: nat, exp: nat)
    ensures 2 * man * Pow2(exp) == man * Pow2(exp + 1)
  {
    Shifted(man, 1, exp);
  }

  lemma LessLeft(man: nat, exp: nat)
    requires exp >= 874
    ensures man * Shl1(exp - 873) == 2 * man * Shl1(exp - 874)
  {
    Associates(man, 2, Shl1(exp - 874));
  }

  // A subnormal single: the fraction moves up until its leading bit goes unstored, and the exponent down with it.
  lemma {:induction false} SubnormalValue(man: nat, exp: nat) returns (e: nat, f: nat)
    requires 0 < man < TWO_23 && 874 <= exp <= 896 && man * Shl1(exp - 873) >= TWO_23
    ensures 0 < e < 2047 && f < TWO_52 && WidenSubnormal(man, exp) == e * TWO_52 + f
    ensures (TWO_52 + f) * Pow2(e - 1) == man * Pow2(exp + 29)
    decreases exp
  {
    hide Pow2, Shl1;
    if 2 * man >= TWO_23 {
      e, f := exp, (2 * man - TWO_23) * 0x2000_0000;
      assert TWO_52 + f == man * 0x4000_0000;
      LastShift(man, exp);
    } else {
      LessLeft(man, exp);
      assert exp > 874 by { assert Shl1(1) == 2 && Shl1(0) == 1 by { SmallShl(); } }
      e, f := SubnormalValue(2 * man, exp - 1);
      OneShift(man, exp + 28);
    }
  }

  lemma SmallShl()
    ensures Shl1(0) == 1 && Shl1(1) == 2
  {
  }

  // The double a finite single becomes has its value.
  predicate SameValue(d: Float, s: Float)
  {
    d.exponent < 2047 && Magnitude(d, TWO_52) == Magnitude(s, TWO_23) * Pow2(925)
  }

  lemma WidenNormal(sign: nat, exponent: nat, fraction: nat)
    requires sign < 2 && 0 < exponent < 255 && fraction < TWO_23
    ensures sign * TWO_63 + (exponent + 896) * TWO_52 + fraction * 0x2000_0000 < TWO_64
    ensures var d := Double(sign * TWO_63 + (exponent + 896) * TWO_52 + fraction * 0x2000_0000);
      d.negative == (sign == 1) && SameValue(d, Float(sign == 1, exponent, fraction))
  {
    hide Pow2, Double;
    Unpacks(sign, exponent + 896, fraction * 0x2000_0000);
    NormalValue(exponent, fraction);
  }

  lemma WidenTiny(sign: nat, fraction: nat)
    requires sign < 2 && 0 < fraction < TWO_23 && fraction * Shl1(23) >= TWO_23
    ensures var d := Double(sign * TWO_63 + WidenSubnormal(fraction, 896));
      d.negative == (sign == 1) && SameValue(d, Float(sign == 1, 0, fraction))
  {
    hide Pow2, Double, Shl1, WidenSubnormal;
    var e, f := SubnormalValue(fraction, 896);
    Unpacks(sign, e, f);
  }

  /** Every finite single, subnormal ones and both zeros included, becomes the double of the same sign and value; what
      is infinite or not a number stays so. */
  lemma WidenKeepsValue(bits: nat)
    requires bits < TWO_32
    ensures var s, d := Single(bits), Double(Widen(bits));
      && d.negative == s.negative
      && if s.exponent == 255 then d.exponent == 2047 && (d.fraction == 0 <==> s.fraction == 0) else SameValue(d, s)
  {
    hide Pow2, Double, WidenSubnormal, Shl1;
    var sign, exp, man := bits / 0x8000_0000, bits / TWO_23 % 256, bits % TWO_23;
    if exp == 255 {
      Unpacks(sign, 2047, man * 0x2000_0000);
    } else if exp > 0 {
      WidenNormal(sign, exp, man);
    } else if man == 0 {
      Unpacks(sign, 0, 0);
    } else {
      Shl23();
      WidenTiny(sign, man);
    }
  }
}
