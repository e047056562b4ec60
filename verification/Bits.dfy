/**
 Bitwise operations of Python on integers: `&` on integers of either sign (in two's complement
 without a width), `|` and `^` on naturals.
 */
module Bits {

  function Pow2(n: nat): (p: nat)
    ensures p >= 1
  {
    if n == 0 then 1 else 2 * Pow2(n - 1)
  }

  function Abs(x: int): nat { if x < 0 then -x else x }

  function And(x: int, y: int): (r: int)
    ensures x >= 0 ==> 0 <= r <= x
    ensures y >= 0 ==> 0 <= r <= y
    decreases Abs(x)
  {
    if x == 0 || y == 0 then 0
    else if x == -1 then y
    else if y == -1 then x
    else (if x % 2 == 1 && y % 2 == 1 then 1 else 0) + 2 * And(x / 2, y / 2)
  }

  function Or(x: nat, y: nat): nat
    decreases x
  {
    if x == 0 then y
    else (if x % 2 == 1 || y % 2 == 1 then 1 else 0) + 2 * Or(x / 2, y / 2)
  }

  function Xor(x: nat, y: nat): nat
    decreases x
  {
    if x == 0 then y
    else (if x % 2 != y % 2 then 1 else 0) + 2 * Xor(x / 2, y / 2)
  }

  function ShiftLeft(x: nat, n: nat): nat {
    if n == 0 then x else 2 * ShiftLeft(x, n - 1)
  }

  function ShiftRight(x: nat, n: nat): nat {
    if n == 0 then x else ShiftRight(x / 2, n - 1)
  }

  lemma {:induction false} ShiftLeftIsProduct(x: nat, n: nat)
    ensures ShiftLeft(x, n) == x * Pow2(n)
  {
    if n > 0 {
      ShiftLeftIsProduct(x, n - 1);
      assert 2 * (x * Pow2(n - 1)) == x * (2 * Pow2(n - 1));
    }
  }

  lemma {:induction false} ShiftRightIsQuotient(x: nat, n: nat)
    ensures ShiftRight(x, n) == x / Pow2(n)
    decreases n
  {
    if n > 0 {
      ShiftRightIsQuotient(x / 2, n - 1);
      Halved(x, Pow2(n - 1));
    }
  }

  // The recursive equation holds without exception.
  lemma {:induction false} AndStep(x: int, y: int)
    ensures And(x, y) == (if x % 2 == 1 && y % 2 == 1 then 1 else 0) + 2 * And(x / 2, y / 2)
  {
  }

  // Bit `n` of a number in two's complement, bit 0 being the lowest.
  predicate Bit(x: int, n: nat)
    decreases n
  {
    if n == 0 then x % 2 == 1 else Bit(x / 2, n - 1)
  }

  /** For naturals that is bit `n` of the binary numeral. */
  lemma {:induction false} BitIsQuotient(x: nat, n: nat)
    ensures Bit(x, n) <==> (x / Pow2(n)) % 2 == 1
    decreases n
  {
    if n > 0 {
      BitIsQuotient(x / 2, n - 1);
      Halved(x, Pow2(n - 1));
    }
  }

  // A number that is put together from its lowest bit and the rest.
  lemma {:induction false} BitMade(v: int, low: bool, high: int, n: nat)
    requires v == (if low then 1 else 0) + 2 * high
    ensures Bit(v, n) <==> if n == 0 then low else Bit(high, n - 1)
  {
    assert v / 2 == high && v % 2 == if low then 1 else 0;
  }

  /** The three operations work bit by bit. */
  lemma {:induction false} AndBits(x: int, y: int, n: nat)
    ensures Bit(And(x, y), n) <==> Bit(x, n) && Bit(y, n)
    decreases n
  {
    AndStep(x, y);
    BitMade(And(x, y), x % 2 == 1 && y % 2 == 1, And(x / 2, y / 2), n);
    if n > 0 {
      AndBits(x / 2, y / 2, n - 1);
    }
  }

  lemma {:induction false} OrStep(x: nat, y: nat)
    ensures Or(x, y) == (if x % 2 == 1 || y % 2 == 1 then 1 else 0) + 2 * Or(x / 2, y / 2)
  {
    if x == 0 {
      assert Or(0, y / 2) == y / 2;
    }
  }

  lemma {:induction false} OrBits(x: nat, y: nat, n: nat)
    ensures Bit(Or(x, y), n) <==> Bit(x, n) || Bit(y, n)
    decreases n
  {
    OrStep(x, y);
    BitMade(Or(x, y), x % 2 == 1 || y % 2 == 1, Or(x / 2, y / 2), n);
    if n > 0 {
      OrBits(x / 2, y / 2, n - 1);
    }
  }

  lemma {:induction false} XorStep(x: nat, y: nat)
    ensures Xor(x, y) == (if x % 2 != y % 2 then 1 else 0) + 2 * Xor(x / 2, y / 2)
  {
    if x == 0 {
      assert Xor(0, y / 2) == y / 2;
    }
  }

  lemma {:induction false} XorBits(x: nat, y: nat, n: nat)
    ensures Bit(Xor(x, y), n) <==> Bit(x, n) != Bit(y, n)
    decreases n
  {
    XorStep(x, y);
    BitMade(Xor(x, y), x % 2 != y % 2, Xor(x / 2, y / 2), n);
    if n > 0 {
      XorBits(x / 2, y / 2, n - 1);
    }
  }

  lemma {:induction false} ComplementBits(x: int, n: nat)
    ensures Bit(-1 - x, n) <==> !Bit(x, n)
    decreases n
  {
    if n > 0 {
      assert (-1 - x) / 2 == -1 - x / 2;
      ComplementBits(x / 2, n - 1);
    }
  }

  lemma {:induction false} OrBound(x: nat, y: nat, n: nat)
    requires x < Pow2(n) && y < Pow2(n)
    ensures Or(x, y) < Pow2(n)
    decreases n
  {
    if x != 0 {
      OrBound(x / 2, y / 2, n - 1);
    }
  }

  lemma {:induction false} XorBound(x: nat, y: nat, n: nat)
    requires x < Pow2(n) && y < Pow2(n)
    ensures Xor(x, y) < Pow2(n)
    decreases n
  {
    if x != 0 {
      XorBound(x / 2, y / 2, n - 1);
    }
  }

  lemma {:induction false} AndMaskStep(x: nat, p: nat, r: int)
    requires p >= 1 && And(x / 2, p - 1) == r
    ensures And(x, 2 * p - 1) == x % 2 + 2 * r
  {
    OddHalf(p);
    AndOdd(x, 2 * p - 1);
  }

  lemma {:induction false} OddHalf(p: nat)
    ensures (2 * p - 1) % 2 == 1 && (2 * p - 1) / 2 == p - 1
  {
  }

  lemma {:induction false} AndOdd(x: nat, y: int)
    requires y % 2 == 1
    ensures And(x, y) == x % 2 + 2 * And(x / 2, y / 2)
  {
    AndStep(x, y);
  }

  // A mask of `n` ones takes the remainder.
  lemma {:induction false} AndMask(x: nat, n: nat)
    ensures And(x, Pow2(n) - 1) == x % Pow2(n)
    decreases n
  {
    if n > 0 {
      var p := Pow2(n - 1);
      AndMask(x / 2, n - 1);
      AndMaskStep(x, p, (x / 2) % p);
      Halved(x, p);
    }
  }

  lemma {:induction false} Multiple(k: int, m: nat)
    requires m >= 1
    ensures k >= 1 ==> k * m >= m
    ensures k <= -1 ==> k * m + m <= 0
  {
    if k >= 1 {
      assert k * m == (k - 1) * m + m;
    } else if k <= -1 {
      assert k * m == (k + 1) * m - m;
    }
  }

  lemma {:induction false} ModUnique(v: int, m: nat, q: int, low: nat)
    requires m >= 1 && v == q * m + low && low < m
    ensures v / m == q && v % m == low
  {
    var p, r := v / m, v % m;
    assert v == p * m + r;
    assert (p - q) * m == low - r;
    Multiple(p - q, m);
  }

  lemma {:induction false} CarryMod(x: nat, q: nat, k: nat, m: nat)
    requires x == q * m + k && k + q < m
    ensures (x + q) % m == k + q
  {
    ModUnique(x + q, m, q, k + q);
  }

  // `w == q * m + r`, scaled by `p`.
  lemma {:induction false} SplitProduct(w: nat, q: nat, m: nat, r: nat, p: nat)
    requires w == q * m + r && r < m && p >= 1 && w < m * p
    ensures w * p == q * (m * p) + r * p && r * p + p <= m * p && q < p && r * p >= 0
  {
    assert w * p == (q * m) * p + r * p;
    assert (q * m) * p == q * (m * p);
    Multiple(m - r, p);
    assert (m - r) * p == m * p - r * p;
  }

  lemma {:induction false} Doubled(h: nat, q: nat, m: nat, r: nat, b: nat)
    requires h == q * m + r
    ensures 2 * h + b == q * (2 * m) + (b + 2 * r)
  {
    assert 2 * (q * m) == q * (2 * m);
  }

  lemma {:induction false} QuotientRemainder(h: nat, m: nat)
    requires m >= 1
    ensures h == (h / m) * m + h % m && 0 <= h % m < m && h / m >= 0
  {
  }

  // Division by an even number, one bit first.
  lemma {:induction false} Halved(x: nat, m: nat)
    requires m >= 1
    ensures x / (2 * m) == (x / 2) / m && x % (2 * m) == x % 2 + 2 * ((x / 2) % m)
  {
    var h := x / 2;
    QuotientRemainder(h, m);
    Doubled(h, h / m, m, h % m, x % 2);
    ModUnique(x, 2 * m, h / m, x % 2 + 2 * (h % m));
  }

  lemma {:induction false} HalfBound(x: nat, n: nat)
    requires n > 0 && x < Pow2(n)
    ensures x / 2 < Pow2(n - 1) && Pow2(n) == 2 * Pow2(n - 1)
  {
  }

  lemma {:induction false} ComplementHalves(x: nat, p: nat)
    ensures (-1 - x) / 2 == -1 - x / 2 && (2 * p - 1 - x) / 2 == p - 1 - x / 2
    ensures (-1 - x) % 2 == (2 * p - 1 - x) % 2
  {
  }

  lemma {:induction false} AndSame(a: int, b: int, z: int)
    requires a % 2 == b % 2 && And(a / 2, z / 2) == And(b / 2, z / 2)
    ensures And(a, z) == And(b, z)
  {
    AndStep(a, z);
    AndStep(b, z);
  }

  lemma {:induction false} ComplementStep(x: nat, z: nat, p: nat)
    requires And(-1 - x / 2, z / 2) == And(p - 1 - x / 2, z / 2)
    ensures And(-1 - x, z) == And(2 * p - 1 - x, z)
  {
    ComplementHalves(x, p);
    AndSame(-1 - x, 2 * p - 1 - x, z);
  }

  // The complement in `n` bits and Python's complement select the same bits of an `n`-bit number.
  lemma {:induction false} AndComplement(x: nat, z: nat, n: nat)
    requires x < Pow2(n) && z < Pow2(n)
    ensures And(-1 - x, z) == And(Pow2(n) - 1 - x, z)
    decreases n
  {
    if n > 0 {
      var p := Pow2(n - 1);
      HalfBound(x, n);
      HalfBound(z, n);
      AndComplement(x / 2, z / 2, n - 1);
      ComplementStep(x, z, p);
    }
  }

  lemma {:induction false} OrZero(x: nat)
    ensures Or(x, 0) == x
  {
    if x > 0 {
      OrZero(x / 2);
    }
  }

  // Numbers without a common bit are added by `|`.
  lemma {:induction false} OrDisjoint(a: nat, b: nat, n: nat)
    requires b < Pow2(n)
    ensures Or(a * Pow2(n), b) == a * Pow2(n) + b
    decreases n
  {
    if n == 0 {
      OrZero(a);
    } else if a == 0 {
    } else {
      var x, half := a * Pow2(n), a * Pow2(n - 1);
      assert x == 2 * half && x > 0;
      OrDisjoint(a, b / 2, n - 1);
    }
  }

  lemma {:induction false} Pow2Add(a: nat, b: nat)
    ensures Pow2(a + b) == Pow2(a) * Pow2(b)
  {
    if a > 0 {
      Pow2Add(a - 1, b);
      assert 2 * (Pow2(a - 1) * Pow2(b)) == (2 * Pow2(a - 1)) * Pow2(b);
    }
  }

  lemma {:induction false} Pow2Word()
    ensures Pow2(32) == 0x1_0000_0000
  {
    assert Pow2(8) == 256;
    Pow2Add(8, 8);
    Pow2Add(16, 16);
  }
}
