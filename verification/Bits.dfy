/** Bitwise operations of the sources on natural numbers, with no width limit of their own. */
module Bits {

  function Pow2(k: nat): (r: nat)
    ensures r > 0
  {
    if k == 0 then 1 else 2 * Pow2(k - 1)
  }

  predicate Bit(x: nat, k: nat) {
    if k == 0 then x % 2 == 1 else Bit(x / 2, k - 1)
  }

  /** Bits of two numbers side by side. */
  lemma {:induction false} BitBeside(hi: nat, lo: nat, n: nat, k: nat)
    requires lo < Pow2(n)
    ensures Bit(hi * Pow2(n) + lo, k) == if k < n then Bit(lo, k) else Bit(hi, k - n)
    decreases n
  {
    if n > 0 {
      var p := Pow2(n - 1);
      var x, half := hi * Pow2(n) + lo, hi * p;
      assert Pow2(n) == 2 * p && hi * (2 * p) == 2 * half;
      assert x == 2 * half + lo;
      BesideHalf(half, lo, p);
      if k > 0 {
        BitBeside(hi, lo / 2, n - 1, k - 1);
      }
    }
  }

  lemma BesideHalf(half: nat, lo: nat, p: nat)
    requires lo < 2 * p
    ensures (2 * half + lo) % 2 == lo % 2 && (2 * half + lo) / 2 == half + lo / 2 && lo / 2 < p
  {
  }

  /** Bitwise or. */
  function BitOr(a: nat, b: nat): nat
    decreases a + b
  {
    if a == 0 && b == 0 then 0
    else 2 * BitOr(a / 2, b / 2) + (if a % 2 == 1 || b % 2 == 1 then 1 else 0)
  }

  lemma {:induction false} OrZero(a: nat)
    ensures BitOr(a, 0) == a
  {
    if a != 0 {
      OrZero(a / 2);
    }
  }

  lemma OrDouble(h: nat, b: nat)
    ensures BitOr(2 * h, b) == 2 * BitOr(h, b / 2) + b % 2
  {
    assert (2 * h) / 2 == h;
    if h == 0 && b == 0 {
      assert BitOr(h, b / 2) == 0;
    }
  }

  /** Or-ing a value that fits below `2^k` into a multiple of `2^k` adds the two. */
  lemma {:induction false} OrDisjoint(q: nat, b: nat, k: nat)
    requires b < Pow2(k)
    ensures BitOr(q * Pow2(k), b) == q * Pow2(k) + b
  {
    if k == 0 {
      OrZero(q);
    } else {
      var p := Pow2(k - 1);
      var half := q * p;
      assert q * (2 * p) == 2 * half;
      OrDouble(half, b);
      OrDisjoint(q, b / 2, k - 1);
    }
  }

  /** Or with a multiple of two, one bit at a time. */
  lemma OrEven(a: nat, b: nat)
    ensures BitOr(a, 2 * b) == 2 * BitOr(a / 2, b) + a % 2
  {
    assert (2 * b) / 2 == b;
    if a == 0 && b == 0 {
      assert BitOr(a / 2, b) == 0;
    }
  }

  lemma OrBit0(a: nat)
    ensures BitOr(a, 1) == a + 1 - a % 2
  {
    OrZero(a / 2);
  }

  lemma OrBit4(a: nat)
    ensures BitOr(a, 16) == a + (if a / 16 % 2 == 0 then 16 else 0)
  {
    hide BitOr;
    var a1 := a / 2;
    var a2 := a1 / 2;
    var a3 := a2 / 2;
    var a4 := a3 / 2;
    OrEven(a, 8);
    OrEven(a1, 4);
    OrEven(a2, 2);
    OrEven(a3, 1);
    OrBit0(a4);
    Sixteenth(a);
  }

  lemma Sixteenth(a: nat)
    ensures a / 16 == a / 2 / 2 / 2 / 2
  {
  }

  // ----- division

  lemma {:induction false} NextMultiple(m: nat, a: nat, b: nat)
    requires a < b
    ensures m * a + m <= m * b
  {
    if b == a + 1 {
      assert m * b == m * a + m;
    } else {
      NextMultiple(m, a, b - 1);
      assert m * b == m * (b - 1) + m;
    }
  }

  lemma DivUnique(x: nat, m: nat, y: nat, r: nat)
    requires m > 0 && x == m * y + r && r < m
    ensures x / m == y && x % m == r
  {
    var q := x / m;
    assert x == m * q + x % m;
    if q < y {
      NextMultiple(m, q, y);
    } else if q > y {
      NextMultiple(m, y, q);
    }
  }

  lemma {:induction false} Pow2Add(i: nat, j: nat)
    ensures Pow2(i + j) == Pow2(i) * Pow2(j)
  {
    if i != 0 {
      Pow2Add(i - 1, j);
    }
  }

  lemma Pow2Small()
    ensures Pow2(3) == 8 && Pow2(8) == 256 && Pow2(10) == 1024 && Pow2(12) == 4096
  {
    assert Pow2(5) == 32;
    assert Pow2(8) == 256;
    assert Pow2(10) == 1024;
  }

  lemma DivDouble(x: nat, p: nat)
    requires p > 0
    ensures x / (2 * p) == x / 2 / p && x % (2 * p) == 2 * (x / 2 % p) + x % 2
  {
    var h, y := x / 2, x / 2 / p;
    assert h == p * y + h % p;
    assert (2 * p) * y == 2 * (p * y);
    DivUnique(x, 2 * p, y, 2 * (h % p) + x % 2);
  }

  lemma {:induction false} BitIs(x: nat, k: nat)
    ensures Bit(x, k) <==> x / Pow2(k) % 2 == 1
  {
    if k > 0 {
      BitIs(x / 2, k - 1);
      DivDouble(x, Pow2(k - 1));
    }
  }
}
