/** `pow2gt` (lib/cJSON.c:117): smearing the top bit down gives the least power of two not below `x`. */
module PowerOfTwo {

  function Pow2(n: nat): (p: nat)
    ensures p > 0
  {
    if n == 0 then 1 else 2 * Pow2(n - 1)
  }

  /** Bitwise or of two non-negative `int`s. */
  function Or(a: nat, b: nat): nat {
    if a == 0 && b == 0 then 0
    else 2 * Or(a / 2, b / 2) + (if a % 2 == 1 || b % 2 == 1 then 1 else 0)
  }

  lemma {:induction false} Pow2Add(a: nat, b: nat)
    ensures Pow2(a + b) == Pow2(a) * Pow2(b)
  {
    if a > 0 { Pow2Add(a - 1, b); }
  }

  lemma {:induction false} OrBounds(a: nat, b: nat, n: nat)
    requires a < Pow2(n) && b < Pow2(n)
    ensures a <= Or(a, b) < Pow2(n) && b <= Or(a, b)
    decreases n
  {
    if n > 0 { OrBounds(a / 2, b / 2, n - 1); }
  }

  /** The bits of `t` above bit `m` pass through when the rest and the other operand lie below it. */
  lemma {:induction false} OrSplit(t: nat, h: nat, l: nat, b: nat, m: nat)
    requires t == h * Pow2(m) && l < Pow2(m) && b < Pow2(m)
    ensures Or(t + l, b) == t + Or(l, b)
    decreases m
  {
    if m == 0 {
      OrZero(t);
    } else {
      var p := h * Pow2(m - 1);
      assert t == 2 * p;
      OrSplit(p, h, l / 2, b / 2, m - 1);
      OrHalves(p, l, b);
    }
  }

  lemma OrHalves(p: nat, l: nat, b: nat)
    requires Or(p + l / 2, b / 2) == p + Or(l / 2, b / 2)
    ensures Or(2 * p + l, b) == 2 * p + Or(l, b)
  {
    assert (2 * p + l) / 2 == p + l / 2 && (2 * p + l) % 2 == l % 2;
  }

  lemma {:induction false} OrZero(a: nat)
    ensures Or(a, 0) == a
  {
    if a > 0 { OrZero(a / 2); }
  }

  /** `x` has `n` bits and its top `k` are ones. */
  ghost predicate TopOnes(x: nat, n: nat, k: nat) {
    k <= n && Pow2(n) - Pow2(n - k) <= x < Pow2(n)
  }

  /** One `x|=x>>k`, whose shift leaves the quotient `b`, doubles the run of ones at the top. */
  lemma SmearStep(x: nat, n: nat, k: nat, b: nat)
    requires k >= 1 && IsQuotient(x, Pow2(k), b) && TopOnes(x, n, if k <= n then k else n)
    ensures TopOnes(Or(x, b), n, if 2 * k <= n then 2 * k else n)
  {
    if k >= n {
      QuotientSmall(x, Pow2(k), b);
      OrBounds(x, b, n);
    } else {
      var m := n - k;
      Pow2Add(k, m);
      ShiftBounds(x, k, m, b);
      SmearLow(x, Pow2(k), m, b);
    }
  }

  lemma QuotientSmall(x: nat, p: nat, b: nat)
    requires p > 0 && IsQuotient(x, p, b)
    ensures b <= x
  {
    MulMonotone(b, 1, p);
  }

  /** With ones above bit `m` in `x`, the low bits of the result are at least `b`. */
  lemma SmearLow(x: nat, p: nat, m: nat, b: nat)
    requires p > 0 && p * Pow2(m) - Pow2(m) <= x < p * Pow2(m) && b < Pow2(m)
    ensures p * Pow2(m) - Pow2(m) + b <= Or(x, b) < p * Pow2(m)
  {
    hide *;
    Factor(p, Pow2(m));
    SplitOff(x, p * Pow2(m) - Pow2(m), p - 1, m, b);
  }

  lemma SplitOff(x: nat, t: nat, h: nat, m: nat, b: nat)
    requires t == h * Pow2(m) && t <= x < t + Pow2(m) && b < Pow2(m)
    ensures t + b <= Or(x, b) < t + Pow2(m)
  {
    OrSplit(t, h, x - t, b, m);
    OrBounds(x - t, b, m);
  }

  ghost predicate IsQuotient(x: nat, p: nat, b: nat) {
    p * b <= x < p * b + p
  }

  lemma ShiftIsQuotient(x: nat, p: nat)
    requires p > 0
    ensures IsQuotient(x, p, x / p)
  {
    assert x == p * (x / p) + x % p;
  }

  /** The shifted value has ones in its top `k` of `m` bits, or in all of them. */
  lemma ShiftBounds(x: nat, k: nat, m: nat, b: nat)
    requires TopOnes(x, k + m, k) && IsQuotient(x, Pow2(k), b)
    ensures b < Pow2(m) && b >= Pow2(m) - (if k <= m then Pow2(m - k) else 1)
  {
    var p, q := Pow2(k), Pow2(m);
    Pow2Add(k, m);
    QuotientBelow(x, p, b, q);
    if k <= m {
      Pow2Add(k, m - k);
      Distribute(p, q, Pow2(m - k));
      QuotientAbove(x, p, b, q - Pow2(m - k));
    } else {
      Pow2Monotone(m, k);
      Distribute(p, q, 1);
      QuotientAbove(x, p, b, q - 1);
    }
  }

  lemma Distribute(p: nat, q: nat, r: nat)
    ensures p * q - p * r == p * (q - r)
  {
  }

  lemma Factor(p: nat, q: nat)
    requires p > 0
    ensures p * q - q == (p - 1) * q >= 0
  {
  }

  lemma MulMonotone(p: nat, a: nat, b: nat)
    requires a <= b
    ensures p * a <= p * b
  {
  }

  lemma QuotientBelow(x: nat, p: nat, b: nat, q: nat)
    requires p > 0 && IsQuotient(x, p, b) && x < p * q
    ensures b < q
  {
    if q <= b { MulMonotone(p, q, b); }
  }

  lemma QuotientAbove(x: nat, p: nat, b: nat, q: int)
    requires p > 0 && IsQuotient(x, p, b) && x >= p * q
    ensures b >= q
  {
    if b + 1 <= q { MulMonotone(p, b + 1, q); }
  }

  lemma {:induction false} Pow2Monotone(a: nat, b: nat)
    requires a < b
    ensures 2 * Pow2(a) <= Pow2(b)
    decreases b
  {
    if a + 1 < b { Pow2Monotone(a, b - 1); }
  }

  /** Every positive number has a bit length. */
  lemma {:induction false} BitLength(x: nat) returns (n: nat)
    requires x >= 1
    ensures n >= 1 && Pow2(n - 1) <= x < Pow2(n)
  {
    if x == 1 {
      assert Pow2(1) == 2;
      n := 1;
    } else {
      n := BitLength(x / 2);
      n := n + 1;
    }
  }

  /** `r` is the least power of two that is not below `x`. */
  ghost predicate LeastPowerFrom(r: nat, x: nat) {
    x <= r && (exists k: nat :: r == Pow2(k)) && (forall k: nat :: x <= Pow2(k) ==> r <= Pow2(k))
  }

  lemma LeastPower(n: nat, x: nat)
    requires Pow2(n) >= x && (n > 0 ==> Pow2(n - 1) < x)
    ensures LeastPowerFrom(Pow2(n), x)
  {
    forall k: nat | x <= Pow2(k)
      ensures Pow2(n) <= Pow2(k)
    {
      if k < n - 1 { Pow2Monotone(k, n - 1); } else if k > n { Pow2Monotone(n, k); }
    }
  }

  /** `pow2gt`, on the range in which C's `int` does not overflow. */
  method Pow2Gt(x0: nat) returns (r: nat)
    requires 1 <= x0 <= 0x4000_0000
    ensures LeastPowerFrom(r, x0) && r <= 0x4000_0000
  {
    var x := x0 - 1;
    ghost var n := 0;
    if x >= 1 {
      n := BitLength(x);
      if n > 30 { Pow2Thirty(); if n > 31 { Pow2Monotone(30, n - 1); } }
    }
    Constants();
    ghost var x1 := x;
    x := Or(x, x / 2);
    x := Or(x, x / 4);
    x := Or(x, x / 16);
    x := Or(x, x / 256);
    x := Or(x, x / 0x1_0000);
    r := x + 1;
    Smeared(x1, n);
    LeastPower(n, x0);
    if n < 30 { Pow2Monotone(n, 30); }
  }

  lemma Constants()
    ensures Pow2(0) == 1 && Pow2(1) == 2 && Pow2(2) == 4 && Pow2(4) == 16 && Pow2(8) == 256
    ensures Pow2(16) == 0x1_0000 && Pow2(30) == 0x4000_0000
  {
    Pow2Add(4, 4);
    Pow2Add(8, 8);
    Pow2Thirty();
  }

  lemma Pow2Thirty()
    ensures Pow2(30) == 0x4000_0000
  {
    assert Pow2(5) == 32;
    Pow2Add(5, 5);
    Pow2Add(10, 10);
    Pow2Add(20, 10);
  }

  lemma Smeared(x: nat, n: nat)
    requires n <= 30 && (if n == 0 then x == 0 else Pow2(n - 1) <= x < Pow2(n))
    ensures var x1 := Or(x, x / 2);
      var x2 := Or(x1, x1 / 4);
      var x3 := Or(x2, x2 / 16);
      var x4 := Or(x3, x3 / 256);
      Or(x4, x4 / 0x1_0000) == Pow2(n) - 1
  {
    if n == 0 {
      assert Or(0, 0) == 0 && Pow2(0) == 1;
    } else {
      var x1 := Or(x, x / 2);
      var x2 := Or(x1, x1 / 4);
      var x3 := Or(x2, x2 / 16);
      var x4 := Or(x3, x3 / 256);
      hide Or, TopOnes, IsQuotient, Pow2;
      Constants();
      OneOnTop(x, n);
      ShiftIsQuotient(x, 2);
      SmearStep(x, n, 1, x / 2);
      ShiftIsQuotient(x1, 4);
      SmearStep(x1, n, 2, x1 / 4);
      ShiftIsQuotient(x2, 16);
      SmearStep(x2, n, 4, x2 / 16);
      ShiftIsQuotient(x3, 256);
      SmearStep(x3, n, 8, x3 / 256);
      ShiftIsQuotient(x4, 0x1_0000);
      SmearStep(x4, n, 16, x4 / 0x1_0000);
      AllOnes(Or(x4, x4 / 0x1_0000), n);
    }
  }

  lemma OneOnTop(x: nat, n: nat)
    requires n > 0 && Pow2(n - 1) <= x < Pow2(n)
    ensures TopOnes(x, n, 1)
  {
  }

  lemma AllOnes(x: nat, n: nat)
    requires TopOnes(x, n, n)
    ensures x == Pow2(n) - 1
  {
  }
}
