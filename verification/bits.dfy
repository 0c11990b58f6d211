/** The bitwise operators of PHP and C on non-negative integers, bit by bit, and what they come to where
    the code uses them. */
module Bits {
  import opened Common

  function BitOr(a: nat, b: nat): (r: nat) {
    if a == 0 then b else if b == 0 then a
    else 2 * BitOr(a / 2, b / 2) + (if a % 2 == 1 || b % 2 == 1 then 1 else 0)
  }

  function BitAnd(a: nat, b: nat): (r: nat) {
    if a == 0 || b == 0 then 0
    else 2 * BitAnd(a / 2, b / 2) + (if a % 2 == 1 && b % 2 == 1 then 1 else 0)
  }

  /** a << n on a 64-bit integer, as an unsigned value */
  function Shl64(a: nat, n: nat): nat {
    (a * Pow2(n)) % 0x1_0000_0000_0000_0000
  }

  function Shr(a: nat, n: nat): nat {
    if n == 0 then a else Shr(a / 2, n - 1)
  }

  /** Disjoint bits: or is addition. */
  lemma {:induction false} OrBelow(a: nat, b: nat, n: nat)
    requires b < Pow2(n)
    ensures BitOr(a * Pow2(n), b) == a * Pow2(n) + b
  {
    if a != 0 && b != 0 {
      var x := a * Pow2(n);
      assert n > 0;
      assert x == 2 * (a * Pow2(n - 1));
      assert x / 2 == a * Pow2(n - 1) && x % 2 == 0 && x > 0;
      OrBelow(a, b / 2, n - 1);
    } else if a == 0 {
      assert a * Pow2(n) == 0;
    }
  }

  lemma AndZero(a: nat)
    ensures BitAnd(0, a) == 0 == BitAnd(a, 0)
  {
  }

  lemma AndOddMask(a: nat, m: nat)
    ensures BitAnd(a, 2 * m + 1) == 2 * BitAnd(a / 2, m) + a % 2
  {
    var x := 2 * m + 1;
    assert x / 2 == m && x % 2 == 1;
  }

  /** A mask of the n lowest bits: and is the remainder. */
  lemma {:induction false} AndMask(a: nat, n: nat)
    ensures BitAnd(a, Pow2(n) - 1) == a % Pow2(n)
  {
    hide BitAnd;
    if n == 0 {
      AndZero(a);
    } else {
      AndOddMask(a, Pow2(n - 1) - 1);
      AndMask(a / 2, n - 1);
      HalfMod(a, Pow2(n - 1));
    }
  }

  lemma HalfMod(a: nat, p: nat)
    requires p >= 1
    ensures 2 * ((a / 2) % p) + a % 2 == a % (2 * p)
  {
    var q, r := a / 2 / p, (a / 2) % p;
    assert a == 2 * (q * p + r) + a % 2;
    assert a == q * (2 * p) + (2 * r + a % 2);
    ModIs(a, 2 * p, q, 2 * r + a % 2);
  }

  lemma Magnitude(k: int, d: int)
    requires d > 0
    ensures k >= 1 ==> k * d >= d
    ensures k <= -1 ==> k * d <= -d
  {
  }

  /** Division with remainder is unique. */
  lemma ModIs(v: int, d: nat, q: int, r: int)
    requires d > 0 && v == q * d + r && 0 <= r < d
    ensures v % d == r && v / d == q
  {
    var k := q - v / d;
    assert v == (v / d) * d + v % d;
    assert k * d == v % d - r;
    Magnitude(k, d);
  }

  /** Dividing twice is dividing by the product. */
  lemma DivDiv(v: nat, a: nat, b: nat)
    requires a > 0 && b > 0
    ensures a * b > 0 && v / a / b == v / (a * b)
  {
    Magnitude(a, b);
    var u, s := v / a, v % a;
    var q, r := u / b, u % b;
    assert v == u * a + s;
    assert u == q * b + r;
    Regroup(q, b, r, a);
    Fits(r, b, a, s);
    ModIs(v, a * b, q, r * a + s);
  }

  lemma Regroup(q: int, b: int, r: int, a: int)
    ensures (q * b + r) * a == q * (a * b) + r * a
  {
    assert (q * b + r) * a == (q * b) * a + r * a;
    assert (q * b) * a == q * (b * a);
  }

  lemma Fits(r: int, b: int, a: int, s: int)
    requires 0 <= r < b && 0 <= s < a
    ensures 0 <= r * a + s < a * b
  {
    assert (b - r) * a == b * a - r * a;
    Magnitude(b - r, a);
  }

  /** A mask with its lowest bit clear looks at the upper bits only. */
  lemma AndEvenMask(a: nat, m: nat)
    ensures BitAnd(a, 2 * m) == 2 * BitAnd(a / 2, m)
  {
    var x := 2 * m;
    assert x / 2 == m && x % 2 == 0;
    if a == 0 || m == 0 {
      AndZero(a);
      AndZero(x);
      AndZero(a / 2);
      AndZero(m);
      hide BitAnd;
    } else {
      assert BitAnd(a, x) == 2 * BitAnd(a / 2, x / 2);
      hide BitAnd;
    }
  }

  /** The number a byte's two top bits hold, and the rest. */
  lemma TopTwoBits(b: byte)
    ensures Shr(b, 6) == b as int / 64 && BitAnd(b, 0x3f) == b as int % 64
    ensures BitAnd(b, 0xc0) == 64 * (b as int / 64)
  {
    hide BitAnd;
    assert Pow2(6) == 64;
    AndMask(b, 6);
    ShiftSix(b, b as int / 2, b as int / 4, b as int / 8);
    TopMask(b, b as int / 2, b as int / 4, b as int / 8);
  }

  lemma ShiftSix(b: nat, b2: nat, b4: nat, b8: nat)
    requires b2 == b / 2 && b4 == b / 4 && b8 == b / 8
    ensures Shr(b, 6) == b / 64
  {
    assert Shr(b, 6) == Shr(b2, 5) == Shr(b4, 4) == Shr(b8, 3);
    ShiftThree(b8, b8 / 2, b8 / 4, b8 / 8);
  }

  lemma ShiftThree(b: nat, b2: nat, b4: nat, b8: nat)
    requires b2 == b / 2 && b4 == b / 4 && b8 == b / 8
    ensures Shr(b, 3) == b8
  {
    assert Shr(b, 3) == Shr(b2, 2) == Shr(b4, 1) == Shr(b8, 0);
  }

  lemma TopMask(b: nat, b2: nat, b4: nat, b8: nat)
    requires b < 256 && b2 == b / 2 && b4 == b / 4 && b8 == b / 8
    ensures BitAnd(b, 0xc0) == 64 * (b / 64)
  {
    hide BitAnd;
    AndEvenMask(b, 96);
    AndEvenMask(b2, 48);
    AndEvenMask(b4, 24);
    TopMaskOfFive(b8, b8 / 2, b8 / 4, b8 / 8);
  }

  lemma TopMaskOfFive(b: nat, b2: nat, b4: nat, b8: nat)
    requires b < 32 && b2 == b / 2 && b4 == b / 4 && b8 == b / 8
    ensures BitAnd(b, 24) == 8 * (b / 8)
  {
    hide BitAnd;
    AndEvenMask(b, 12);
    AndEvenMask(b2, 6);
    AndEvenMask(b4, 3);
    AndMask(b8, 2);
    assert Pow2(2) == 4;
  }
}
