/** Machine integers and the bit operations that the decoder applies to them. */
module Numeric {

  const TWO32 := 0x1_0000_0000

  type Byte = b: int | 0 <= b < 256 witness 0
  type U32 = n: int | 0 <= n < 0x1_0000_0000 witness 0

  function Min(a: int, b: int): int {
    if a < b then a else b
  }

  function Pow2(n: nat): (p: nat)
    ensures p >= 1
  {
    if n == 0 then 1 else 2 * Pow2(n - 1)
  }

  /** Bitwise conjunction of two non-negative integers, digit by digit. */
  function And(x: nat, y: nat): nat
    decreases x
  {
    if x == 0 || y == 0 then 0 else 2 * And(x / 2, y / 2) + (x % 2) * (y % 2)
  }

  /** Bitwise exclusive or of two non-negative integers, digit by digit. */
  function Xor(x: nat, y: nat): nat
    decreases x + y
  {
    if x == 0 then y
    else if y == 0 then x
    else 2 * Xor(x / 2, y / 2) + (x + y) % 2
  }

  lemma {:induction false} Pow2Add(a: nat, b: nat)
    ensures Pow2(a + b) == Pow2(a) * Pow2(b)
  {
    if a > 0 {
      Pow2Add(a - 1, b);
      assert Pow2(a + b) == 2 * Pow2(a - 1 + b);
      assert 2 * (Pow2(a - 1) * Pow2(b)) == (2 * Pow2(a - 1)) * Pow2(b);
    }
  }

  /** The low `b` binary digits of a number */
  function LowDigits(n: nat, b: nat): nat {
    n % Pow2(b)
  }

  lemma Pow2Values()
    ensures Pow2(0) == 1 && Pow2(1) == 2 && Pow2(2) == 4 && Pow2(3) == 8 && Pow2(4) == 16
    ensures Pow2(5) == 32 && Pow2(6) == 64 && Pow2(7) == 128 && Pow2(8) == 256
  {
  }

  /** Dropping the low bit of a number halves what remains of it below `2 * m`. */
  lemma HalfMod(x: nat, m: nat)
    requires m > 0
    ensures x % (2 * m) == 2 * ((x / 2) % m) + x % 2
  {
    var h, q, r := x / 2, (x / 2) / m, (x / 2) % m;
    assert h == m * q + r;
    assert x == 2 * h + x % 2;
    assert x == (2 * m) * q + (2 * r + x % 2) by {
      assert 2 * (m * q) == (2 * m) * q;
    }
    DivModUnique(x, 2 * m, q, 2 * r + x % 2);
  }

  lemma DivModUnique(x: int, m: int, q: int, r: int)
    requires m > 0 && 0 <= r < m && x == m * q + r
    ensures x / m == q && x % m == r
  {
    var q', r' := x / m, x % m;
    assert m * (q - q') == r' - r by {
      assert m * q' + r' == m * q + r;
      assert m * (q - q') == m * q - m * q';
    }
    MulStep(m, q - q');
  }

  lemma MulStep(m: int, k: int)
    requires m > 0
    ensures k >= 1 ==> m * k >= m
    ensures k <= -1 ==> m * k <= -m
  {
  }

  lemma AndEven(x: nat, h: nat)
    ensures And(x, 2 * h) == 2 * And(x / 2, h)
  {
    assert (2 * h) / 2 == h && (2 * h) % 2 == 0;
  }

  lemma AndOdd(x: nat, h: nat)
    ensures And(x, 2 * h + 1) == 2 * And(x / 2, h) + x % 2
  {
    assert (2 * h + 1) / 2 == h && (2 * h + 1) % 2 == 1;
  }

  lemma EvenBand(x: nat, a: nat, b: nat)
    requires 0 < b <= a && And(x / 2, a - b) == (x / 2) % a - (x / 2) % b
    ensures And(x, 2 * (a - b)) == x % (2 * a) - x % (2 * b)
  {
    hide And;
    AndEven(x, a - b);
    HalfMod(x, a);
    HalfMod(x, b);
  }

  lemma OddBand(x: nat, a: nat)
    requires 0 < a && And(x / 2, a - 1) == (x / 2) % a
    ensures And(x, 2 * (a - 1) + 1) == x % (2 * a)
  {
    hide And;
    AndOdd(x, a - 1);
    HalfMod(x, a);
  }

  /** Masking with a contiguous band of ones keeps exactly the digits in the band. */
  lemma {:induction false} AndBand(x: nat, lo: nat, hi: nat)
    requires lo <= hi
    requires Pow2(lo) <= Pow2(hi)
    ensures And(x, Pow2(hi) - Pow2(lo)) == x % Pow2(hi) - x % Pow2(lo)
    decreases hi
  {
    hide And, Pow2;
    if hi == lo {
      AndNothing(x);
    } else if lo > 0 {
      var a, b := Pow2(hi - 1), Pow2(lo - 1);
      Pow2Twice(hi);
      Pow2Twice(lo);
      AndBand(x / 2, lo - 1, hi - 1);
      EvenBand(x, a, b);
      assert 2 * a - 2 * b == 2 * (a - b);
    } else {
      var a := Pow2(hi - 1);
      Pow2Twice(hi);
      Pow2Zero();
      assert (x / 2) % 1 == 0;
      AndBand(x / 2, 0, hi - 1);
      OddBand(x, a);
      assert 2 * a - 1 == 2 * (a - 1) + 1 && x % 1 == 0;
    }
  }

  lemma AndNothing(x: nat)
    ensures And(x, 0) == 0
  {
  }

  lemma Pow2Twice(n: nat)
    requires n > 0
    ensures Pow2(n) == 2 * Pow2(n - 1)
  {
  }

  lemma Pow2Zero()
    ensures Pow2(0) == 1
  {
  }

  lemma {:induction false} Pow2Mono(a: nat, b: nat)
    requires a <= b
    ensures Pow2(a) <= Pow2(b)
    decreases b
  {
    if a < b {
      Pow2Mono(a, b - 1);
    }
  }

  /** Reducing modulo a multiple first does not change a remainder. */
  lemma ModOfMod(x: nat, m: nat, k: nat)
    requires m > 0 && k > 0
    ensures m * k > 0
    ensures (x % (m * k)) % m == x % m
  {
    assert m * k > 0;
    var q, r := x / (m * k), x % (m * k);
    var q', r' := r / m, r % m;
    assert x == (m * k) * q + r && r == m * q' + r';
    assert (m * k) * q == m * (k * q);
    assert x == m * (k * q + q') + r';
    DivModUnique(x, m, k * q + q', r');
  }

  // ----- common divisors -----

  function Gcd(a: nat, b: nat): (g: nat)
    requires a > 0 || b > 0
    ensures g > 0
    decreases b
  {
    if b == 0 then a else Gcd(b, a % b)
  }

  lemma DivisorStep(a: int, b: int, d: int, r: int, p: int, q: int, g: int)
    requires a == b * d + r && b == p * g && r == q * g
    ensures a == (d * p + q) * g
  {
    assert (d * p + q) * g == d * (p * g) + q * g;
  }

  lemma BezoutStep(a: int, b: int, d: int, r: int, u: int, v: int)
    requires a == b * d + r
    ensures v * a + (u - v * d) * b == u * b + v * r
  {
    assert v * (b * d + r) == (v * d) * b + v * r;
    assert (u - v * d) * b == u * b - (v * d) * b;
  }

  lemma {:induction false} GcdDivides(a: nat, b: nat) returns (p: nat, q: nat)
    requires a > 0 || b > 0
    ensures a == p * Gcd(a, b) && b == q * Gcd(a, b)
    decreases b
  {
    if b == 0 {
      p, q := 1, 0;
    } else {
      var g := Gcd(a, b);
      p, q := GcdDivides(b, a % b);
      var d, r := a / b, a % b;
      DivisorStep(a, b, d, r, p, q, g);
      p, q := d * p + q, p;
    }
  }

  /** The greatest common divisor is a sum of multiples. */
  lemma {:induction false} Bezout(a: nat, b: nat) returns (u: int, v: int)
    requires a > 0 || b > 0
    ensures u * a + v * b == Gcd(a, b)
    decreases b
  {
    if b == 0 {
      u, v := 1, 0;
    } else {
      u, v := Bezout(b, a % b);
      var d, r := a / b, a % b;
      BezoutStep(a, b, d, r, u, v);
      u, v := v, u - v * d;
    }
  }
}
