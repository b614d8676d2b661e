/** Bitwise operators of C on unsigned values, defined digit by digit, and the
    arithmetic they stand for when one operand is a run of ones or a shifted value. */
module Bits {

  function And(x: nat, y: nat): nat {
    if x == 0 || y == 0 then 0
    else 2 * And(x / 2, y / 2) + (if x % 2 == 1 && y % 2 == 1 then 1 else 0)
  }

  function Or(x: nat, y: nat): nat
    decreases x + y
  {
    if x == 0 && y == 0 then 0
    else 2 * Or(x / 2, y / 2) + (if x % 2 == 1 || y % 2 == 1 then 1 else 0)
  }

  /** `x & ~y` */
  function AndNot(x: nat, y: nat): nat {
    if x == 0 then 0
    else 2 * AndNot(x / 2, y / 2) + (if x % 2 == 1 && y % 2 == 0 then 1 else 0)
  }

  function Pow2(k: nat): (p: nat)
    ensures p >= 1
  {
    if k == 0 then 1 else 2 * Pow2(k - 1)
  }

  lemma Pow2Values()
    ensures Pow2(0) == 1 && Pow2(1) == 2 && Pow2(2) == 4 && Pow2(3) == 8 && Pow2(4) == 16
    ensures Pow2(5) == 32 && Pow2(6) == 64 && Pow2(7) == 128 && Pow2(8) == 256 && Pow2(9) == 512
  {
    assert Pow2(2) == 2 * Pow2(1);
    assert Pow2(4) == 2 * Pow2(3);
    assert Pow2(6) == 2 * Pow2(5);
    assert Pow2(8) == 2 * Pow2(7);
  }

  lemma MulAtLeast(a: nat, p: nat)
    requires a >= 1
    ensures a * p >= p
  {
  }

  lemma MulDouble(a: nat, p: nat)
    ensures a * (2 * p) == 2 * (a * p)
  {
  }

  lemma MulAdd(a: nat, b: nat, p: nat)
    ensures (a + b) * p == a * p + b * p
  {
  }

  lemma DivModId(x: nat, p: nat)
    requires p >= 1
    ensures x == x / p * p + x % p && x % p < p
  {
  }

  lemma ModUnique(q: nat, r: nat, p: nat)
    requires r < p
    ensures (q * p + r) % p == r && (q * p + r) / p == q
  {
    var x := q * p + r;
    DivModId(x, p);
    var q' := x / p;
    if q < q' {
      MulAtLeast(q' - q, p);
      MulAdd(q, q' - q, p);
    } else if q > q' {
      MulAtLeast(q - q', p);
      MulAdd(q', q - q', p);
    }
  }

  /** The remainder modulo twice a number, bit by bit. */
  lemma HalfMod(x: nat, p: nat)
    requires p >= 1
    ensures x % (2 * p) == 2 * (x / 2 % p) + x % 2
  {
    var q, r := x / 2 / p, x / 2 % p;
    DivModId(x / 2, p);
    MulDouble(q, p);
    ModUnique(q, 2 * r + x % 2, 2 * p);
  }

  lemma AndOdd(x: nat, p: nat)
    requires p >= 1
    ensures And(x, 2 * p - 1) == 2 * And(x / 2, p - 1) + x % 2
  {
    assert (2 * p - 1) / 2 == p - 1;
    AndZero(x / 2);
  }

  lemma AndZero(x: nat)
    ensures And(x, 0) == 0 && And(0, x) == 0
  {
  }

  lemma AndNotOdd(x: nat, p: nat)
    requires p >= 1
    ensures AndNot(x, 2 * p - 1) == 2 * AndNot(x / 2, p - 1)
  {
    assert (2 * p - 1) / 2 == p - 1;
  }

  /** A mask of k ones takes the remainder modulo 2^k. */
  lemma {:induction false} AndMask(x: nat, k: nat)
    ensures And(x, Pow2(k) - 1) == x % Pow2(k)
    decreases k
  {
    if k == 0 {
      AndZero(x);
    } else {
      AndMask(x / 2, k - 1);
      HalfMod(x, Pow2(k - 1));
      AndOdd(x, Pow2(k - 1));
    }
  }

  lemma {:induction false} AndNotZero(x: nat)
    ensures AndNot(x, 0) == x
  {
    if x != 0 { AndNotZero(x / 2); }
  }

  /** Clearing the low k bits rounds down to a multiple of 2^k. */
  lemma {:induction false} AndNotMask(x: nat, k: nat)
    ensures AndNot(x, Pow2(k) - 1) == x - x % Pow2(k)
    decreases k
  {
    if k == 0 {
      AndNotZero(x);
    } else {
      AndNotMask(x / 2, k - 1);
      HalfMod(x, Pow2(k - 1));
      AndNotOdd(x, Pow2(k - 1));
    }
  }

  lemma {:induction false} OrZero(x: nat)
    ensures Or(x, 0) == x && Or(0, x) == x
  {
    if x != 0 { OrZero(x / 2); }
  }

  /** Disjoint fields are put side by side. */
  lemma {:induction false} OrFields(a: nat, b: nat, k: nat)
    requires b < Pow2(k)
    ensures Or(a * Pow2(k), b) == a * Pow2(k) + b
    ensures Or(b, a * Pow2(k)) == a * Pow2(k) + b
    decreases k
  {
    if k == 0 {
      OrZero(a);
    } else {
      var p := Pow2(k - 1);
      assert a * Pow2(k) == 2 * (a * p);
      OrFields(a, b / 2, k - 1);
    }
  }

  /** Or with a value that has k trailing zeros leaves the low k bits alone. */
  lemma {:induction false} OrUpper(h: nat, l: nat, t: nat, k: nat)
    requires l < Pow2(k)
    ensures Or(h * Pow2(k) + l, t * Pow2(k)) == Or(h, t) * Pow2(k) + l
    decreases k
  {
    if k != 0 {
      var p := Pow2(k - 1);
      MulDouble(h, p);
      MulDouble(t, p);
      OrUpper(h, l / 2, t, k - 1);
      MulDouble(Or(h, t), p);
      OrStep(h * p + l / 2, l % 2, t * p);
    }
  }

  lemma OrStep(x: nat, b: nat, y: nat)
    requires b < 2
    ensures Or(2 * x + b, 2 * y) == 2 * Or(x, y) + b
  {
  }

  lemma {:induction false} OrBound(x: nat, y: nat, k: nat)
    requires x < Pow2(k) && y < Pow2(k)
    ensures Or(x, y) < Pow2(k)
    decreases k
  {
    if k != 0 { OrBound(x / 2, y / 2, k - 1); }
  }

  ghost predicate IsPow2(b: nat) {
    exists k: nat :: b == Pow2(k)
  }

  lemma HalfIsPow2(b: nat)
    requires b >= 2 && b % 2 == 0
    ensures IsPow2(b) <==> IsPow2(b / 2)
  {
    if IsPow2(b) {
      var k: nat :| b == Pow2(k);
      assert b / 2 == Pow2(k - 1);
    }
    if IsPow2(b / 2) {
      var k: nat :| b / 2 == Pow2(k);
      assert b == Pow2(k + 1);
    }
  }

  /** `b & (b - 1)` is the test for a power of two. */
  lemma {:induction false} PowerOfTwoTest(b: nat)
    requires b >= 1
    ensures And(b, b - 1) == 0 <==> IsPow2(b)
  {
    if b == 1 {
      assert b == Pow2(0);
      AndZero(b);
    } else if b % 2 == 0 {
      PowerOfTwoTest(b / 2);
      HalfIsPow2(b);
      assert (b - 1) / 2 == b / 2 - 1;
    } else {
      assert (b - 1) / 2 == b / 2 >= 1;
      AndSelf(b / 2);
    }
  }

  lemma {:induction false} AndSelf(x: nat)
    ensures And(x, x) == x
  {
    if x != 0 { AndSelf(x / 2); }
  }

  lemma {:induction false} Pow2Mono(i: nat, j: nat)
    requires i <= j
    ensures Pow2(i) <= Pow2(j)
    decreases j
  {
    if i < j { Pow2Mono(i, j - 1); }
  }
}
