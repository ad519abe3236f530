/**
 * Worked examples: 6 and 28 are perfect, 153 and 9474 are Armstrong
 * numbers, and the digit sum of 12345 is 15. Each is proved about the
 * definitions the classifier's operations are verified against.
 */
module Examples {
  import opened Decimal
  import opened Divisors
  import opened Classifier

  /** 6 is perfect; 12, 0 and 1 are not. */
  lemma PerfectExamples()
    ensures IsPerfectSpec(6)
    ensures !IsPerfectSpec(12) && !IsPerfectSpec(0) && !IsPerfectSpec(1)
  {
  }

  /** 28 = 1 + 2 + 4 + 7 + 14 is perfect. */
  lemma PerfectTwentyEight()
    ensures IsPerfectSpec(28)
  {
    assert SumDivisorsBelow(28, 8) == 14;
    assert SumDivisorsBelow(28, 15) == 28;
    assert SumDivisorsBelow(28, 22) == 28;
  }

  /** 2 is prime; 1 and 91 = 7 * 13 are not. */
  lemma PrimeExamples()
    ensures IsPrimeSpec(2) && !IsPrimeSpec(1) && !IsPrimeSpec(91)
  {
    assert 91 % 7 == 0;
  }

  /** 153 = 1^3 + 5^3 + 3^3 is an Armstrong number; 123 is not. */
  lemma ArmstrongExamples()
    ensures IsArmstrongSpec(153) && !IsArmstrongSpec(123)
  {
    assert DigitsOf(153) == [1, 5] + [3];
    assert DigitsOf(123) == [1, 2] + [3];
    PowSumAppend([], 1, 3);
    PowSumAppend([1], 5, 3);
    PowSumAppend([1, 5], 3, 3);
    PowSumAppend([1], 2, 3);
    PowSumAppend([1, 2], 3, 3);
  }

  /** 9474 = 9^4 + 4^4 + 7^4 + 4^4 is an Armstrong number. */
  lemma ArmstrongFourDigits()
    ensures IsArmstrongSpec(9474)
  {
    DigitsOfNineFourSevenFour();
    PowSumNineFourSevenFour();
  }

  lemma DigitsOfNineFourSevenFour()
    ensures DigitsOf(9474) == [9, 4, 7, 4]
  {
    assert DigitsOf(94) == [9, 4];
    assert DigitsOf(947) == [9, 4] + [7];
  }

  lemma PowSumNineFourSevenFour()
    ensures PowSum([9, 4, 7, 4], 4) == 9474
  {
    assert Pow(9, 4) == 6561 && Pow(4, 4) == 256 && Pow(7, 4) == 2401;
    PowSumAppend([], 9, 4);
    assert PowSum([9], 4) == 6561 by { assert [9] == [] + [9]; }
    PowSumAppend([9], 4, 4);
    assert PowSum([9, 4], 4) == 6817 by { assert [9, 4] == [9] + [4]; }
    PowSumAppend([9, 4], 7, 4);
    assert PowSum([9, 4, 7], 4) == 9218 by { assert [9, 4, 7] == [9, 4] + [7]; }
    PowSumAppend([9, 4, 7], 4, 4);
    assert [9, 4, 7, 4] == [9, 4, 7] + [4];
  }

  /** The digit sum of 12345 is 15 and that of 0 is 0. */
  lemma DigitSumExamples()
    ensures Sum(DigitsOf(12345)) == 15 && Sum(DigitsOf(0)) == 0
  {
    assert DigitsOf(12345) == [1, 2, 3, 4] + [5];
    SumAppend([], 1);
    assert Sum([1]) == 1 by { assert [1] == [] + [1]; }
    SumAppend([1], 2);
    assert Sum([1, 2]) == 3 by { assert [1, 2] == [1] + [2]; }
    SumAppend([1, 2], 3);
    assert Sum([1, 2, 3]) == 6 by { assert [1, 2, 3] == [1, 2] + [3]; }
    SumAppend([1, 2, 3], 4);
    assert Sum([1, 2, 3, 4]) == 10 by { assert [1, 2, 3, 4] == [1, 2, 3] + [4]; }
    SumAppend([1, 2, 3, 4], 5);
  }
}
