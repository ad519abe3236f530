/**
 * Base-10 arithmetic behind the digit-based classifiers: powers, the decimal
 * digits of a non-negative integer (most significant first), their value,
 * and the two digit sums the classifier needs.
 */
module Decimal {

  /** b raised to the e-th power, by repeated multiplication. */
  function Pow(b: int, e: nat): int
    decreases e
  {
    if e == 0 then 1 else b * Pow(b, e - 1)
  }

  /** A law of Pow, stated for its own sake: addition of exponents becomes multiplication. */
  lemma {:induction false} PowAdd(b: int, m: nat, k: nat)
    ensures Pow(b, m + k) == Pow(b, m) * Pow(b, k)
    decreases m
  {
    if m > 0 {
      PowAdd(b, m - 1, k);
      assert Pow(b, m + k) == b * Pow(b, m - 1 + k);
    }
  }

  /** A well-formed decimal numeral: non-empty, every digit in 0..9, no leading zero unless it is "0". */
  predicate IsDecimal(ds: seq<int>)
  {
    && |ds| >= 1
    && (forall i :: 0 <= i < |ds| ==> 0 <= ds[i] <= 9)
    && (ds[0] != 0 || |ds| == 1)
  }

  /** The value of a digit sequence read in base 10, most significant digit first. */
  function ValueOf(ds: seq<int>): int
    decreases |ds|
  {
    if ds == [] then 0 else 10 * ValueOf(ds[..|ds| - 1]) + ds[|ds| - 1]
  }

  /**
   * The decimal digits of n, most significant first, as strconv.Itoa writes them.
   * The digits form a well-formed numeral whose value is n.
   */
  function DigitsOf(n: nat): (ds: seq<int>)
    ensures IsDecimal(ds)
    ensures ValueOf(ds) == n
    decreases n
  {
    if n < 10 then [n] else DigitsOf(n / 10) + [n % 10]
  }

  /** The number of decimal digits of n, i.e. the length of its decimal string. */
  function DigitCount(n: nat): (k: nat)
    ensures k == |DigitsOf(n)|
    ensures n < Pow(10, k)
    ensures n == 0 || Pow(10, k - 1) <= n
    decreases n
  {
    if n < 10 then 1 else DigitCount(n / 10) + 1
  }

  /** A numeral with a non-negative leading digit is worth at least that digit. */
  lemma {:induction false} ValueAtLeastFirst(ds: seq<int>)
    requires |ds| >= 1
    requires forall i :: 0 <= i < |ds| ==> 0 <= ds[i] <= 9
    ensures ValueOf(ds) >= ds[0]
    decreases |ds|
  {
    if |ds| > 1 {
      var init := ds[..|ds| - 1];
      assert init[0] == ds[0];
      ValueAtLeastFirst(init);
    }
  }

  /**
   * The decimal representation is unique: every well-formed numeral whose
   * value is n is exactly DigitsOf(n).
   */
  lemma {:induction false} DigitsOfUnique(ds: seq<int>, n: nat)
    requires IsDecimal(ds)
    requires ValueOf(ds) == n
    ensures ds == DigitsOf(n)
    decreases |ds|
  {
    if |ds| == 1 {
      assert ds[..0] == [];
    } else {
      var init := ds[..|ds| - 1];
      var last := ds[|ds| - 1];
      assert init[0] == ds[0];
      ValueAtLeastFirst(init);
      var v := ValueOf(init);
      assert n == 10 * v + last && v >= 1 && 0 <= last <= 9;
      assert n / 10 == v && n % 10 == last;
      DigitsOfUnique(init, v);
      assert ds == init + [last];
    }
  }

  /** Sum of a sequence of digits, accumulated front to back. */
  function Sum(ds: seq<int>): int
    decreases |ds|
  {
    if ds == [] then 0 else Sum(ds[..|ds| - 1]) + ds[|ds| - 1]
  }

  /** Sum of every element raised to the k-th power. */
  function PowSum(ds: seq<int>, k: nat): int
    decreases |ds|
  {
    if ds == [] then 0 else PowSum(ds[..|ds| - 1], k) + Pow(ds[|ds| - 1], k)
  }

  /** Appending a digit adds it to the sum. */
  lemma SumAppend(ds: seq<int>, d: int)
    ensures Sum(ds + [d]) == Sum(ds) + d
  {
    assert (ds + [d])[..|ds|] == ds;
  }

  /** Appending a digit adds its k-th power to the power sum. */
  lemma PowSumAppend(ds: seq<int>, d: int, k: nat)
    ensures PowSum(ds + [d], k) == PowSum(ds, k) + Pow(d, k)
  {
    assert (ds + [d])[..|ds|] == ds;
  }

  /**
   * The digit sum never exceeds the number, and equals it exactly for the
   * single-digit numbers.
   */
  lemma {:induction false} DigitSumAtMost(n: nat)
    ensures 0 <= Sum(DigitsOf(n)) <= n
    ensures Sum(DigitsOf(n)) == n <==> n < 10
    decreases n
  {
    var ds := DigitsOf(n);
    if n < 10 {
      assert ds[..0] == [];
    } else {
      DigitSumAtMost(n / 10);
      assert ds[..|ds| - 1] == DigitsOf(n / 10);
    }
  }

  /** Casting out nines: the digit sum is congruent to the number modulo 9. */
  lemma {:induction false} DigitSumMod9(n: nat)
    ensures Sum(DigitsOf(n)) % 9 == n % 9
    decreases n
  {
    var ds := DigitsOf(n);
    if n < 10 {
      assert ds[..0] == [];
    } else {
      var q, r := n / 10, n % 10;
      DigitSumMod9(q);
      assert ds[..|ds| - 1] == DigitsOf(q);
      assert Sum(ds) == Sum(DigitsOf(q)) + r;
      assert n == 9 * q + (q + r);
      ModAddMultiple(q + r, q);
      assert n % 9 == (q + r) % 9;
      ModAddCongruent(Sum(DigitsOf(q)), q, r);
    }
  }

  lemma ModAddMultiple(a: int, k: int)
    ensures (9 * k + a) % 9 == a % 9
  {
  }

  lemma ModAddCongruent(a: int, b: int, r: int)
    requires a % 9 == b % 9
    ensures (a + r) % 9 == (b + r) % 9
  {
    assert a == 9 * (a / 9) + a % 9;
    assert b == 9 * (b / 9) + b % 9;
    ModAddMultiple(a % 9 + r, a / 9);
    ModAddMultiple(b % 9 + r, b / 9);
  }
}
