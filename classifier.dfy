/**
 * The number classifier: primality, perfection, the Armstrong property, the
 * digit sum and the ordered property tags reported for a number. Each
 * operation keeps the same loop as the Go service's `main.go` and is
 * proved against the definition it optimises.
 */
module Classifier {
  import opened Decimal
  import opened Divisors

  /**
   * n is an Armstrong number: the sum of its digits, each raised to the
   * number of digits, equals n.
   */
  predicate IsArmstrongSpec(n: nat)
  {
    var ds := DigitsOf(n);
    PowSum(ds, |ds|) == n
  }

  /**
   * Trial division up to the square root. Numbers below 2 are not prime;
   * stopping at i * i > n misses no divisor.
   */
  method IsPrime(n: int) returns (prime: bool)
    ensures prime <==> IsPrimeSpec(n)
  {
    if n < 2 {
      return false;
    }
    var i := 2;
    while i * i <= n
      invariant 2 <= i <= n + 1
      invariant forall j :: 2 <= j < i ==> n % j != 0
      decreases n + 1 - i
    {
      MulMonotone(2, i, i);
      if n % i == 0 {
        return false;
      }
      i := i + 1;
    }
    forall j | 2 <= j && j * j <= n
      ensures n % j != 0
    {
      MulMonotone(i, j, i);
      MulMonotone(i, j, j);
    }
    NoFactorBelowRoot(n);
    return true;
  }

  /**
   * Sums divisor pairs (i, n / i) up to the square root, starting from the
   * divisor 1 and adding a square root once. The result is true exactly
   * for the perfect numbers; 1 is excluded explicitly, since its sum
   * starts at 1 although it has no proper divisor.
   */
  method IsPerfect(n: int) returns (perfect: bool)
    ensures perfect <==> IsPerfectSpec(n)
  {
    if n < 1 {
      return false;
    }
    var sum := 1;
    var i := 2;
    PairsFoundInitially(n);
    while i * i <= n
      invariant 2 <= i && (i - 1) * (i - 1) <= n
      invariant sum == SetSum(PairsFound(n, i))
      decreases n + 1 - i
    {
      MulMonotone(1, i, i);
      ghost var found := PairsFound(n, i);
      PairsFoundStep(n, i);
      if n % i == 0 {
        PairsFoundFresh(n, i);
        SetSumInsert(found, i);
        sum := sum + i;
        if i != n / i {
          SetSumInsert(found + {i}, n / i);
          sum := sum + n / i;
        } else {
          assert found + {i} + {n / i} == found + {i};
        }
      }
      i := i + 1;
    }
    if n >= 2 {
      PairsFoundComplete(n, i);
      SetSumDivisorsBelow(n, n);
    }
    return sum == n && n != 1;
  }

  /**
   * The decimal digits of n, most significant first, written into an
   * array sized to the digit count.
   */
  method IntToDigits(n: nat) returns (digits: seq<int>)
    ensures digits == DigitsOf(n)
    ensures IsDecimal(digits) && ValueOf(digits) == n
    ensures n == 0 ==> digits == [0]
  {
    var count := DigitCount(n);
    var a := new int[count];
    ghost var ds := DigitsOf(n);
    var m := n;
    var k := count;
    while k > 0
      invariant 0 <= k <= count == a.Length == |ds|
      invariant k > 0 ==> DigitsOf(m) == ds[..k]
      invariant a[k..] == ds[k..]
    {
      assert m % 10 == ds[k - 1];
      assert k - 1 > 0 ==> DigitsOf(m / 10) == ds[..k - 1];
      a[k - 1] := m % 10;
      m := m / 10;
      k := k - 1;
    }
    digits := a[..];
  }

  /** b raised to the power e by repeated multiplication; a negative e gives 1. */
  method IntPow(b: int, e: int) returns (r: int)
    ensures e >= 0 ==> r == Pow(b, e)
    ensures e < 0 ==> r == 1
  {
    r := 1;
    var i := 0;
    while i < e
      invariant 0 <= i <= (if e >= 0 then e else 0)
      invariant r == Pow(b, i)
    {
      r := r * b;
      i := i + 1;
    }
  }

  /** The sum of the decimal digits of n. */
  method SumOfDigits(n: nat) returns (sum: int)
    ensures sum == Sum(DigitsOf(n))
  {
    var digits := IntToDigits(n);
    sum := 0;
    for i := 0 to |digits|
      invariant sum == Sum(digits[..i])
    {
      assert digits[..i + 1][..i] == digits[..i];
      sum := sum + digits[i];
    }
    assert digits[..|digits|] == digits;
  }

  /** Raises every digit of n to the digit count and compares the sum with n. */
  method IsArmstrong(n: nat) returns (armstrong: bool)
    ensures armstrong <==> IsArmstrongSpec(n)
  {
    var digits := IntToDigits(n);
    var power := |digits|;
    var sum := 0;
    for i := 0 to |digits|
      invariant sum == PowSum(digits[..i], power)
    {
      assert digits[..i + 1][..i] == digits[..i];
      var p := IntPow(digits[i], power);
      sum := sum + p;
    }
    assert digits[..|digits|] == digits;
    armstrong := sum == n;
  }

  /**
   * The property tags of n, in order: "armstrong" first when n is an
   * Armstrong number, then exactly one of "even" and "odd".
   */
  method GetNumberProperties(n: nat) returns (properties: seq<string>)
    ensures |properties| == if IsArmstrongSpec(n) then 2 else 1
    ensures properties[|properties| - 1] == (if n % 2 == 0 then "even" else "odd")
    ensures "armstrong" in properties <==> IsArmstrongSpec(n)
    ensures IsArmstrongSpec(n) <==> properties[0] == "armstrong"
    ensures forall k :: 0 <= k < |properties| ==> properties[k] in {"armstrong", "even", "odd"}
  {
    properties := [];
    var armstrong := IsArmstrong(n);
    if armstrong {
      properties := properties + ["armstrong"];
    }
    if n % 2 == 0 {
      properties := properties + ["even"];
    } else {
      properties := properties + ["odd"];
    }
  }

  /** Every single-digit number, 0 included, is an Armstrong number. */
  lemma SingleDigitsAreArmstrong(n: nat)
    requires n < 10
    ensures IsArmstrongSpec(n)
  {
    assert DigitsOf(n) == [n];
    assert Pow(n, 1) == n;
  }
}
