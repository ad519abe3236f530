/**
 * Divisibility facts behind the primality and perfection tests: the
 * textbook definitions those tests are checked against, and the two
 * arguments that justify stopping trial division at the square root.
 */
module Divisors {

  /** n is prime: at least 2 and no i with 2 <= i < n divides it. */
  predicate IsPrimeSpec(n: int)
  {
    n >= 2 && forall i :: 2 <= i < n ==> n % i != 0
  }

  /** The sum of the divisors d of n with 1 <= d < k. */
  function SumDivisorsBelow(n: int, k: int): int
    decreases k
  {
    if k <= 1 then 0
    else SumDivisorsBelow(n, k - 1) + (if n % (k - 1) == 0 then k - 1 else 0)
  }

  /** The sum of the proper divisors of n: every divisor d with 1 <= d < n. */
  function SumProperDivisors(n: int): int
  {
    SumDivisorsBelow(n, n)
  }

  /** n is perfect: a positive integer equal to the sum of its proper divisors. */
  predicate IsPerfectSpec(n: int)
  {
    n >= 1 && SumProperDivisors(n) == n
  }

  /** Multiplying by a positive number preserves order. */
  lemma MulMonotone(a: int, b: int, c: int)
    requires c > 0
    ensures a < b ==> a * c < b * c
    ensures a <= b ==> a * c <= b * c
  {
  }

  /** A positive m times a non-zero k is at least m in magnitude. */
  lemma MulAtLeast(m: int, k: int)
    requires m > 0
    ensures k >= 1 ==> m * k >= m
    ensures k <= -1 ==> m * k <= -m
  {
    MulMonotone(1, k, m);
    MulMonotone(k, -1, m);
  }

  /** Division with remainder has exactly one answer. */
  lemma DivModUnique(n: int, m: int, quo: int, rem: int)
    requires m > 0 && 0 <= rem < m && n == m * quo + rem
    ensures n / m == quo && n % m == rem
  {
    var a, b := n / m, n % m;
    assert n == m * a + b;
    assert m * (quo - a) == b - rem;
    MulAtLeast(m, quo - a);
  }

  /** If d divides n, the cofactor n / d multiplies back to n. */
  lemma Cofactor(n: int, d: int)
    requires d > 0 && n % d == 0
    ensures n == d * (n / d)
  {
  }

  /** In a factorisation n == d * q, q divides n and n / q == d. */
  lemma FactorDivides(n: int, d: int, q: int)
    requires q >= 1 && n == d * q
    ensures n % q == 0 && n / q == d
  {
    DivModUnique(n, q, d, 0);
  }

  /**
   * The cofactor of a divisor d of a positive n lies in 1..n, is below n
   * when d >= 2, and is at least 2 when d < n.
   */
  lemma CofactorRange(n: int, d: int)
    requires n >= 1 && d >= 1 && n % d == 0
    ensures 1 <= n / d <= n
    ensures d >= 2 ==> n / d < n
    ensures d < n ==> n / d >= 2
  {
    var q := n / d;
    Cofactor(n, d);
    MulAtLeast(d, q);
    MulMonotone(1, d, q);
    MulMonotone(1, q, d);
  }

  /** Of two factors of n, one is below any bound whose square exceeds n. */
  lemma SmallFactor(n: int, d: int, q: int, r: int)
    requires d >= 1 && q >= 1 && n == d * q && r >= 1 && r * r > n
    ensures d < r || q < r
  {
  }

  /** Every divisor 2 <= d < n of n has a partner divisor j >= 2 with j * j <= n. */
  lemma SmallDivisorOf(n: int, d: int) returns (j: int)
    requires 2 <= d < n && n % d == 0
    ensures 2 <= j && j * j <= n && n % j == 0
  {
    var q := n / d;
    Cofactor(n, d);
    CofactorRange(n, d);
    if d <= q {
      MulMonotone(d, q, d);
      j := d;
    } else {
      MulMonotone(q, d, q);
      FactorDivides(n, d, q);
      j := q;
    }
  }

  /** The square-root cutoff loses no divisor. */
  lemma NoFactorBelowRoot(n: int)
    requires n >= 2
    requires forall j :: 2 <= j && j * j <= n ==> n % j != 0
    ensures IsPrimeSpec(n)
  {
    forall d | 2 <= d < n
      ensures n % d != 0
    {
      if n % d == 0 {
        var j := SmallDivisorOf(n, d);
        assert false;
      }
    }
  }

  /**
   * Primality is decided by trial division up to the square root, in both
   * directions.
   */
  lemma PrimeIffNoFactorUpToRoot(n: int)
    ensures IsPrimeSpec(n) <==> n >= 2 && forall i :: 2 <= i && i * i <= n ==> n % i != 0
  {
    if n >= 2 && forall i :: 2 <= i && i * i <= n ==> n % i != 0 {
      NoFactorBelowRoot(n);
    }
    if IsPrimeSpec(n) {
      forall i | 2 <= i && i * i <= n
        ensures n % i != 0
      {
        MulMonotone(2, i, i);
      }
    }
  }

  // ---------------------------------------------------------------------------
  // Sums over finite sets of integers, used to count each divisor exactly once.

  /** The sum of the elements of a finite set. */
  ghost function SetSum(s: set<int>): int
    decreases |s|
  {
    if s == {} then 0 else NonEmptyHasElement(s); var x :| x in s; x + SetSum(s - {x})
  }

  lemma NonEmptyHasElement(s: set<int>)
    requires s != {}
    ensures exists x :: x in s
  {
    if forall x :: x !in s {
      assert false;
    }
  }

  /** Any element can be taken out first: the order of summation does not matter. */
  lemma {:induction false} SetSumRemove(s: set<int>, y: int)
    requires y in s
    ensures SetSum(s) == y + SetSum(s - {y})
    decreases |s|
  {
    var x :| x in s && SetSum(s) == x + SetSum(s - {x});
    if x != y {
      SetSumRemove(s - {x}, y);
      SetSumRemove(s - {y}, x);
      assert s - {x} - {y} == s - {y} - {x};
    }
  }

  /** Adding a new element to a set adds it to the sum. */
  lemma SetSumInsert(s: set<int>, y: int)
    requires y !in s
    ensures SetSum(s + {y}) == SetSum(s) + y
  {
    SetSumRemove(s + {y}, y);
    assert s + {y} - {y} == s;
  }

  /** The divisors d of n with 1 <= d < k, as a set. */
  ghost function DivisorsBelow(n: int, k: int): set<int>
  {
    set d | 1 <= d < k && n % d == 0
  }

  /** Summing the divisor set agrees with the range sum. */
  lemma {:induction false} SetSumDivisorsBelow(n: int, k: int)
    ensures SetSum(DivisorsBelow(n, k)) == SumDivisorsBelow(n, k)
    decreases k
  {
    if k <= 1 {
      assert DivisorsBelow(n, k) == {};
    } else {
      SetSumDivisorsBelow(n, k - 1);
      if n % (k - 1) == 0 {
        assert DivisorsBelow(n, k) == DivisorsBelow(n, k - 1) + {k - 1};
        SetSumInsert(DivisorsBelow(n, k - 1), k - 1);
      } else {
        assert DivisorsBelow(n, k) == DivisorsBelow(n, k - 1);
      }
    }
  }

  /** The small divisors 2 <= j < i of n. */
  ghost function SmallDivisors(n: int, i: int): set<int>
  {
    set j | 2 <= j < i && n % j == 0
  }

  /** The cofactors n / j of the small divisors 2 <= j < i of n. */
  ghost function Cofactors(n: int, i: int): set<int>
  {
    set j | 2 <= j < i && n % j == 0 :: n / j
  }

  /**
   * The divisors found after trial division has tried every i below the
   * bound: 1, every small divisor and every cofactor.
   */
  ghost function PairsFound(n: int, i: int): set<int>
  {
    {1} + SmallDivisors(n, i) + Cofactors(n, i)
  }

  /** Before the first trial, only the divisor 1 is known, and it sums to 1. */
  lemma PairsFoundInitially(n: int)
    ensures PairsFound(n, 2) == {1}
    ensures SetSum(PairsFound(n, 2)) == 1
  {
    assert SmallDivisors(n, 2) == {};
    assert Cofactors(n, 2) == {};
    SetSumInsert({}, 1);
    assert {} + {1} == {1};
  }

  /** Trying one more candidate i adds i to the small divisors when it divides n. */
  lemma SmallDivisorsStep(n: int, i: int)
    requires i >= 2
    ensures SmallDivisors(n, i + 1) == SmallDivisors(n, i) + (if n % i == 0 then {i} else {})
  {
  }

  /** Trying one more candidate i adds its cofactor n / i when i divides n. */
  lemma CofactorsStep(n: int, i: int)
    requires i >= 2
    ensures Cofactors(n, i + 1) == Cofactors(n, i) + (if n % i == 0 then {n / i} else {})
  {
  }

  /** Every cofactor n / j of a divisor j < i lies strictly above n / i. */
  lemma CofactorsLarge(n: int, i: int)
    requires n >= 1 && i >= 2
    ensures forall c :: c in Cofactors(n, i) ==> c * i > n
  {
    forall c | c in Cofactors(n, i)
      ensures c * i > n
    {
      var j :| 2 <= j < i && n % j == 0 && n / j == c;
      Cofactor(n, j);
      CofactorRange(n, j);
      MulMonotone(j, i, c);
    }
  }

  /** One trial step: a divisor i adds i and its cofactor n / i to the divisors found. */
  lemma PairsFoundStep(n: int, i: int)
    requires i >= 2
    ensures n % i != 0 ==> PairsFound(n, i + 1) == PairsFound(n, i)
    ensures n % i == 0 ==> PairsFound(n, i + 1) == PairsFound(n, i) + {i} + {n / i}
  {
    SmallDivisorsStep(n, i);
    CofactorsStep(n, i);
  }

  /**
   * While i * i <= n, a divisor i and its cofactor n / i are both new:
   * neither had been found by the earlier trials.
   */
  lemma PairsFoundFresh(n: int, i: int)
    requires 2 <= i && i * i <= n && n % i == 0
    ensures i !in PairsFound(n, i) && n / i !in PairsFound(n, i)
  {
    var c := n / i;
    Cofactor(n, i);
    MulMonotone(c, i, i);
    assert c >= i;
    CofactorsLarge(n, i);
    assert i !in Cofactors(n, i) && c !in Cofactors(n, i);
    assert i !in SmallDivisors(n, i) && c !in SmallDivisors(n, i);
  }

  /**
   * Once i is the first candidate whose square exceeds n, the divisors
   * found are exactly the proper divisors: every divisor above the root is
   * the cofactor of one below it.
   */
  lemma PairsFoundComplete(n: int, i: int)
    requires n >= 2 && 2 <= i && (i - 1) * (i - 1) <= n < i * i
    ensures PairsFound(n, i) == DivisorsBelow(n, n)
  {
    forall d | d in PairsFound(n, i)
      ensures d in DivisorsBelow(n, n)
    {
      if d in SmallDivisors(n, i) {
        MulMonotone(d, i - 1, d);
        MulMonotone(d, i - 1, i - 1);
        MulMonotone(2, d, d);
      } else if d in Cofactors(n, i) {
        var j :| 2 <= j < i && n % j == 0 && n / j == d;
        Cofactor(n, j);
        CofactorRange(n, j);
        FactorDivides(n, j, d);
      }
    }
    forall d | d in DivisorsBelow(n, n)
      ensures d in PairsFound(n, i)
    {
      if d >= 2 {
        var q := n / d;
        Cofactor(n, d);
        CofactorRange(n, d);
        SmallFactor(n, d, q, i);
        if d >= i {
          FactorDivides(n, d, q);
          assert 2 <= q < i && n % q == 0 && n / q == d;
        }
      }
    }
  }
}
