/** Two's-complement bitwise operations on unbounded integers.

    The assembler combines machine words with Go's `|` and `&` on `int`,
    which act on the two's-complement representation (so negative words
    behave as infinitely sign-extended bit strings). `Or` and `And` below
    compute exactly that, bit by bit from the least significant end, using
    Dafny's Euclidean `/` and `%` (which floor, as an arithmetic shift does). */
module Bits {

  function Pow2(n: nat): (r: nat)
    ensures r >= 1
  {
    if n == 0 then 1 else 2 * Pow2(n - 1)
  }

  function Abs(x: int): nat
  {
    if x < 0 then -x else x
  }

  /** Bitwise inclusive or, as Go's `|` on int. */
  function Or(a: int, b: int): int
    decreases Abs(a) + Abs(b)
  {
    if a == 0 || b == -1 then b
    else if b == 0 || a == -1 then a
    else 2 * Or(a / 2, b / 2) + (if a % 2 == 1 || b % 2 == 1 then 1 else 0)
  }

  /** Bitwise and, as Go's `&` on int. */
  function And(a: int, b: int): int
    decreases Abs(a) + Abs(b)
  {
    if a == 0 || b == 0 then 0
    else if a == -1 then b
    else if b == -1 then a
    else 2 * And(a / 2, b / 2) + (if a % 2 == 1 && b % 2 == 1 then 1 else 0)
  }

  lemma Pow2Values()
    ensures Pow2(6) == 64 && Pow2(7) == 128 && Pow2(8) == 256
    ensures Pow2(9) == 512 && Pow2(10) == 1024 && Pow2(12) == 4096 && Pow2(16) == 65536
  {
  }

  lemma {:induction false} Pow2Add(m: nat, n: nat)
    ensures Pow2(m + n) == Pow2(m) * Pow2(n)
    decreases m
  {
    if m > 0 {
      Pow2Add(m - 1, n);
    }
  }

  /** Dividing by 2 and then by 2^n is dividing by 2^(n+1). */
  lemma DivDiv(x: int, n: nat)
    ensures x / 2 / Pow2(n) == x / Pow2(n + 1)
    ensures x % Pow2(n + 1) == 2 * ((x / 2) % Pow2(n)) + x % 2
  {
    var p := Pow2(n);
    var q := x / 2;
    var r := x % 2;
    var q2 := q / p;
    var r2 := q % p;
    assert x == 2 * q + r;
    assert q == p * q2 + r2;
    assert x == (2 * p) * q2 + (2 * r2 + r);
    assert 0 <= 2 * r2 + r < 2 * p;
    DivModUnique(x, 2 * p, q2, 2 * r2 + r);
  }

  lemma DivModUnique(x: int, d: int, q: int, r: int)
    requires d > 0 && x == d * q + r && 0 <= r < d
    ensures x / d == q && x % d == r
  {
    var q0 := x / d;
    var r0 := x % d;
    assert x == d * q0 + r0;
    if q0 < q {
      MulAtLeast(d, q - q0);
    } else if q0 > q {
      MulAtLeast(d, q0 - q);
    }
  }

  lemma MulZero(p: int)
    ensures 0 * p == 0
  {
  }

  lemma MulTwice(a: int, b: int)
    ensures a * (2 * b) == 2 * (a * b)
  {
    assert 2 * b == b + b;
    assert a * (b + b) == a * b + a * b;
  }

  lemma {:induction false} MulAtLeast(d: int, k: int)
    requires d > 0 && k >= 1
    ensures d * k >= d
    decreases k
  {
    if k > 1 {
      MulAtLeast(d, k - 1);
      assert d * k == d * (k - 1) + d;
    }
  }

  lemma AndStep(a: int, b: int)
    requires a != 0 && a != -1 && b != 0 && b != -1
    ensures And(a, b) == 2 * And(a / 2, b / 2) + (if a % 2 == 1 && b % 2 == 1 then 1 else 0)
  {
  }

  lemma OrStep(a: int, b: int)
    requires a != 0 && a != -1 && b != 0 && b != -1
    ensures Or(a, b) == 2 * Or(a / 2, b / 2) + (if a % 2 == 1 || b % 2 == 1 then 1 else 0)
  {
  }

  /** And with a mask of n low ones keeps the low n bits. */
  lemma {:induction false} AndLowMask(x: int, n: nat)
    ensures And(x, Pow2(n) - 1) == x % Pow2(n)
    decreases n
  {
    if n == 0 {
    } else if x == 0 {
    } else if x == -1 {
      assert Pow2(n) - 1 == (-1) % Pow2(n) by {
        DivModUnique(-1, Pow2(n), -1, Pow2(n) - 1);
      }
    } else {
      var h := Pow2(n - 1);
      var m := Pow2(n) - 1;
      assert m == 2 * h - 1;
      assert m / 2 == h - 1 && m % 2 == 1;
      AndStep(x, m);
      AndLowMask(x / 2, n - 1);
      DivDiv(x, n - 1);
    }
  }

  /** And with a mask shifted left by k is the shifted And of the shifted value. */
  lemma {:induction false} AndShifted(x: int, m: nat, k: nat)
    ensures And(x, m * Pow2(k)) == Pow2(k) * And(x / Pow2(k), m)
    decreases k
  {
    if k > 0 {
      if m == 0 {
        AndZeroMask(x, Pow2(k));
      } else {
        AndShifted(x / 2, m, k - 1);
        AndShiftedStep(x, m, k);
      }
    }
  }

  lemma AndZeroMask(x: int, p: nat)
    requires p > 0
    ensures And(x, 0 * p) == p * And(x / p, 0)
  {
    MulZero(p);
  }

  /** And with an even mask: the low bit is 0, the rest is And one bit down. */
  lemma AndDouble(x: int, b: int)
    requires b > 0
    ensures And(x, 2 * b) == 2 * And(x / 2, b)
  {
    if x != 0 && x != -1 {
      DivModUnique(2 * b, 2, b, 0);
      AndStep(x, 2 * b);
    }
  }

  lemma AndShiftedStep(x: int, m: nat, k: nat)
    requires k > 0 && m != 0
    requires And(x / 2, m * Pow2(k - 1)) == Pow2(k - 1) * And(x / 2 / Pow2(k - 1), m)
    ensures And(x, m * Pow2(k)) == Pow2(k) * And(x / Pow2(k), m)
  {
    DivDiv(x, k - 1);
    AndShiftCore(x, m, Pow2(k - 1), Pow2(k));
  }

  lemma AndShiftCore(x: int, m: int, h: int, p: int)
    requires m > 0 && h >= 1 && p == 2 * h && x / 2 / h == x / p
    requires And(x / 2, m * h) == h * And(x / 2 / h, m)
    ensures And(x, m * p) == p * And(x / p, m)
  {
    var mh := m * h;
    var a := And(x / p, m);
    MulDouble(m, h, p);
    MulAtLeast(m, h);
    AndDouble(x, mh);
    MulDouble(a, h, p);
  }

  lemma MulDouble(a: int, h: int, p: int)
    requires p == 2 * h
    ensures a * p == 2 * (a * h) && p * a == 2 * (h * a)
  {
    MulTwice(a, h);
  }

  /** Or of a value below 2^n with a multiple of 2^n is their sum: no bits overlap. */
  lemma {:induction false} OrDisjoint(a: int, b: int, n: nat)
    requires 0 <= a < Pow2(n)
    requires b >= 0 && b % Pow2(n) == 0
    ensures Or(a, b) == a + b
  {
    if a == 0 || b == 0 {
    } else {
      assert n > 0;
      assert b % 2 == 0 by {
        DivDiv(b, n - 1);
      }
      assert (b / 2) % Pow2(n - 1) == 0 by {
        DivDiv(b, n - 1);
      }
      OrDisjoint(a / 2, b / 2, n - 1);
    }
  }

  /** Or is commutative. */
  lemma {:induction false} OrCommutes(a: int, b: int)
    ensures Or(a, b) == Or(b, a)
    decreases Abs(a) + Abs(b)
  {
    if a == 0 || b == -1 || b == 0 || a == -1 {
    } else {
      OrCommutes(a / 2, b / 2);
    }
  }

  /** And with a non-negative mask is non-negative and no larger than the mask. */
  lemma {:induction false} AndBounded(a: int, m: int)
    requires m >= 0
    ensures 0 <= And(a, m) <= m
    decreases Abs(a) + Abs(m)
  {
    if a == 0 || m == 0 || a == -1 {
    } else {
      AndBounded(a / 2, m / 2);
    }
  }

  /** And never exceeds a non-negative operand, whatever the mask. */
  lemma {:induction false} AndBelow(a: int, m: int)
    requires a >= 0
    ensures 0 <= And(a, m) <= a
    decreases Abs(a) + Abs(m)
  {
    if a != 0 && m != 0 && m != -1 {
      AndBelow(a / 2, m / 2);
    }
  }

  /** Or of two non-negative values is at least each of them and at most
      their sum. */
  lemma {:induction false} OrBounded(a: int, b: int)
    requires a >= 0 && b >= 0
    ensures a <= Or(a, b) && b <= Or(a, b) <= a + b
    decreases Abs(a) + Abs(b)
  {
    if a != 0 && b != 0 {
      OrBounded(a / 2, b / 2);
    }
  }

  lemma {:induction false} Pow2Increasing(a: nat, b: nat)
    requires a < b
    ensures 2 * Pow2(a) <= Pow2(b)
    decreases b
  {
    if a + 1 < b {
      Pow2Increasing(a, b - 1);
    }
  }

  /** The equation AndClearBit proves, named so the induction can pass it
      along as a single fact. */
  ghost predicate ClearsBit(x: int, k: nat, n: nat)
  {
    And(x, Pow2(n) - 1 - Pow2(k)) == x % Pow2(n) - ((x / Pow2(k)) % 2) * Pow2(k)
  }

  /** And with a mask of n low ones except bit k keeps the low n bits and
      clears bit k. */
  lemma {:induction false} AndClearBit(x: int, k: nat, n: nat)
    requires x >= 0 && k < n
    ensures And(x, Pow2(n) - 1 - Pow2(k)) == x % Pow2(n) - ((x / Pow2(k)) % 2) * Pow2(k)
  {
    ClearsBitByInduction(x, k, n);
  }

  lemma {:induction false} ClearsBitByInduction(x: int, k: nat, n: nat)
    requires x >= 0 && k < n
    ensures ClearsBit(x, k, n)
    decreases k
  {
    if x == 0 {
      ClearBitOfZero(k, n);
    } else if k == 0 {
      ClearLowestBit(x, n);
    } else {
      ClearsBitByInduction(x / 2, k - 1, n - 1);
      ClearsBitStep(x, k, n);
    }
  }

  lemma ClearsBitStep(x: int, k: nat, n: nat)
    requires x > 0 && 0 < k < n
    requires ClearsBit(x / 2, k - 1, n - 1)
    ensures ClearsBit(x, k, n)
  {
    ClearBitStep(x, k, n);
  }

  lemma ClearBitOfZero(k: nat, n: nat)
    ensures And(0, Pow2(n) - 1 - Pow2(k)) == 0 % Pow2(n) - ((0 / Pow2(k)) % 2) * Pow2(k)
  {
    DivModUnique(0, Pow2(n), 0, 0);
    DivModUnique(0, Pow2(k), 0, 0);
  }

  lemma ClearLowestBit(x: int, n: nat)
    requires x > 0 && 0 < n
    ensures And(x, Pow2(n) - 1 - Pow2(0)) == x % Pow2(n) - ((x / Pow2(0)) % 2) * Pow2(0)
  {
    var h: int := Pow2(n - 1);
    var m: int := Pow2(n) - 1 - Pow2(0);
    assert Pow2(n) == 2 * h;
    assert x / Pow2(0) == x;
    if n == 1 {
      assert m == 0;
      assert x % 2 - (x % 2) * 1 == 0;
    } else {
      assert m == 2 * (h - 1);
      DivModUnique(m, 2, h - 1, 0);
      AndStep(x, m);
      AndLowMask(x / 2, n - 1);
      DivDiv(x, n - 1);
    }
  }

  /** The mask with bit k cleared, halved, is the same mask one size down. */
  lemma ClearBitMask(k: nat, n: nat)
    requires 0 < k < n
    ensures var m := Pow2(n) - 1 - Pow2(k);
      m > 0 && m / 2 == Pow2(n - 1) - 1 - Pow2(k - 1) && m % 2 == 1
  {
    var h: int := Pow2(n - 1);
    var hk: int := Pow2(k - 1);
    assert Pow2(n) == 2 * h;
    assert Pow2(k) == 2 * hk;
    Pow2Increasing(k - 1, n - 1);
    DivModUnique(2 * (h - 1 - hk) + 1, 2, h - 1 - hk, 1);
  }

  lemma ClearBitStep(x: int, k: nat, n: nat)
    requires x > 0 && 0 < k < n
    requires And(x / 2, Pow2(n - 1) - 1 - Pow2(k - 1)) == (x / 2) % Pow2(n - 1) - ((x / 2 / Pow2(k - 1)) % 2) * Pow2(k - 1)
    ensures And(x, Pow2(n) - 1 - Pow2(k)) == x % Pow2(n) - ((x / Pow2(k)) % 2) * Pow2(k)
  {
    var h, hk := Pow2(n - 1), Pow2(k - 1);
    var m := Pow2(n) - 1 - Pow2(k);
    var q := x / 2;
    var t := (x / Pow2(k)) % 2;
    var rq := And(q, h - 1 - hk);
    assert And(x, m) == 2 * rq + x % 2 by {
      ClearBitMask(k, n);
      AndStep(x, m);
    }
    assert q / hk == x / Pow2(k) by {
      DivDiv(x, k - 1);
    }
    assert rq == q % h - t * hk;
    assert x % Pow2(n) == 2 * (q % h) + x % 2 by {
      DivDiv(x, n - 1);
    }
    ClearBitCombine(And(x, m), rq, x % 2, q % h, t, hk, Pow2(k), x % Pow2(n));
  }

  lemma ClearBitCombine(r: int, rq: int, low: int, qh: int, t: int, hk: int, pk: int, xp: int)
    requires r == 2 * rq + low && rq == qh - t * hk
    requires xp == 2 * qh + low && pk == 2 * hk
    ensures r == xp - t * pk
  {
    MulTwice(t, hk);
  }
}
