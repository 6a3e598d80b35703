/** Quotients, remainders and powers: the few facts the models need beyond linear arithmetic. */
module Arith {

  lemma {:induction false} ProductGrows(c: nat, x: int, y: int)
    requires x < y
    ensures c * x + c <= c * y
    decreases y - x
  {
    assert c * y == c * (y - 1) + c;
    if x < y - 1 {
      ProductGrows(c, x, y - 1);
    }
  }

  // Quotient and remainder are unique.
  lemma ModIs(a: int, c: nat, q: int, r: nat)
    requires c > 0 && a == c * q + r && r < c
    ensures a % c == r && a / c == q
  {
    assert a == c * (a / c) + a % c;
    if a / c > q {
      ProductGrows(c, q, a / c);
    } else if a / c < q {
      ProductGrows(c, a / c, q);
    }
  }

  lemma Divide(a: int, c: nat) returns (q: int, r: nat)
    requires c > 0
    ensures a == c * q + r && r < c && r == a % c && (a >= 0 ==> q >= 0)
  {
    q, r := a / c, a % c;
  }

  // Numbers less than c apart differ modulo c.
  lemma ModsDiffer(a: nat, b: nat, c: nat)
    requires a < b < a + c
    ensures a % c != b % c
  {
    var q, r := Divide(a, c);
    var t, u := Divide(b, c);
    if q < t {
      ProductGrows(c, q, t);
    } else if t < q {
      ProductGrows(c, t, q);
    }
  }

  // Reducing modulo a multiple first makes no difference.
  lemma ModOfMod(a: nat, c: nat, k: nat)
    requires c > 0 && k > 0
    ensures c * k > 0 && a % (c * k) % c == a % c
  {
    ProductGrows(c, 0, k);
    var q, w := Divide(a, c * k);
    var t, r := Divide(w, c);
    MulGroups(c, k, q);
    assert a == c * (k * q + t) + r by {
      assert c * (k * q + t) == c * (k * q) + c * t;
    }
    ModIs(a, c, k * q + t, r);
  }

  lemma MulGroups(c: nat, k: nat, q: nat)
    ensures c * k * q == c * (k * q)
  {
  }

  // Stepping i < c past a number wraps at most once.
  lemma ModStep(a: nat, c: nat, i: nat)
    requires i < c
    ensures (a + i) % c == if a % c + i < c then a % c + i else a % c + i - c
  {
    var q, r := Divide(a, c);
    if r + i < c {
      ModIs(a + i, c, q, r + i);
    } else {
      assert c * (q + 1) == c * q + c;
      ModIs(a + i, c, q + 1, r + i - c);
    }
  }

  // ---- Congruence ----

  // a and b leave the same remainder modulo n.
  predicate Cong(a: int, b: int, n: nat)
    requires n > 0
  {
    a % n == b % n
  }

  lemma CongIf(a: int, b: int, n: nat, k: int)
    requires n > 0 && a == b + n * k
    ensures Cong(a, b, n)
  {
    var q, r := Divide(b, n);
    assert n * q + n * k == n * (q + k);
    ModIs(a, n, q + k, r);
  }

  lemma CongFactor(a: int, b: int, n: nat) returns (k: int)
    requires n > 0 && Cong(a, b, n)
    ensures a == b + n * k
  {
    var q, r := Divide(a, n);
    var t, u := Divide(b, n);
    k := q - t;
    assert n * q - n * t == n * (q - t);
  }

  lemma CongMod(a: int, n: nat)
    requires n > 0
    ensures 0 <= a % n < n && Cong(a % n, a, n)
  {
    var q, r := Divide(a, n);
    ModIs(r, n, 0, r);
  }

  lemma CongMul(a: int, b: int, c: int, d: int, n: nat)
    requires n > 0 && Cong(a, b, n) && Cong(c, d, n)
    ensures Cong(a * c, b * d, n)
  {
    hide Cong;
    var j := CongFactor(a, b, n);
    var k := CongFactor(c, d, n);
    Expand(b, n, j, d, k);
    CongIf(a * c, b * d, n, b * k + j * d + n * j * k);
  }

  lemma Expand(b: int, n: int, j: int, d: int, k: int)
    ensures (b + n * j) * (d + n * k) == b * d + n * (b * k + j * d + n * j * k)
  {
    assert (b + n * j) * (d + n * k) == b * d + b * (n * k) + (n * j) * d + (n * j) * (n * k);
    assert n * (b * k + j * d + n * j * k) == n * (b * k) + n * (j * d) + n * (n * j * k);
    assert b * (n * k) == n * (b * k) && (n * j) * d == n * (j * d) && (n * j) * (n * k) == n * (n * j * k);
  }

  lemma CongSum(a: int, b: int, c: int, d: int, n: nat)
    requires n > 0 && Cong(a, b, n) && Cong(c, d, n)
    ensures Cong(a + c, b + d, n) && Cong(a - c, b - d, n)
  {
    hide Cong;
    var j := CongFactor(a, b, n);
    var k := CongFactor(c, d, n);
    assert n * j + n * k == n * (j + k) && n * j - n * k == n * (j - k);
    CongIf(a + c, b + d, n, j + k);
    CongIf(a - c, b - d, n, j - k);
  }

  // ---- Powers ----

  function Pow(b: nat, e: nat): nat { if e == 0 then 1 else b * Pow(b, e - 1) }

  lemma {:induction false} PowAdd(b: nat, d: nat, e: nat)
    ensures Pow(b, d + e) == Pow(b, d) * Pow(b, e)
  {
    if d > 0 {
      PowAdd(b, d - 1, e);
      assert b * (Pow(b, d - 1) * Pow(b, e)) == b * Pow(b, d - 1) * Pow(b, e);
    }
  }

  lemma {:induction false} PowMul(b: nat, d: nat, e: nat)
    ensures Pow(Pow(b, d), e) == Pow(b, d * e)
  {
    if e == 0 {
      assert d * e == 0;
    } else {
      PowMul(b, d, e - 1);
      PowAdd(b, d, d * (e - 1));
      assert d + d * (e - 1) == d * e;
    }
  }

  lemma {:induction false} CongPow(a: nat, b: nat, e: nat, n: nat)
    requires n > 0 && Cong(a, b, n)
    ensures Cong(Pow(a, e), Pow(b, e), n)
  {
    hide Cong;
    if e == 0 {
      CongIf(1, 1, n, 0);
    } else {
      CongPow(a, b, e - 1, n);
      CongMul(a, b, Pow(a, e - 1), Pow(b, e - 1), n);
    }
  }
}
