# Number classification, modelled in Dafny

This project models the arithmetic core of a small number-classification
service. For a non-negative integer the service reports whether it is
prime, whether it is perfect, its digit sum, and an ordered list of
property tags: "armstrong" if the number equals the sum of its digits each
raised to the digit count, then exactly one of "even" or "odd".

The original functions are small loops with accumulators. Each one is a
Dafny `method` with the same loop, proved against the mathematical
definition that the loop optimises:

- `Classifier.IsPrime` does trial division while `i * i <= n`. It is proved
  equal to `IsPrimeSpec`: n is at least 2 and no i in 2..n-1 divides n.
- `Classifier.IsPerfect` sums divisor pairs `i` and `n / i` up to the square
  root, starting from 1. It is proved equal to `IsPerfectSpec`: n is at
  least 1 and equals `SumProperDivisors(n)`, the plain sum over every
  divisor d with 1 <= d < n. The proof keeps the set of divisors found so
  far. Each step adds a divisor i and its cofactor, both new, and adds a
  square root once. When i * i > n the set is exactly the proper divisors.
- `Classifier.IntToDigits` fills an array sized by the digit count. It is
  proved equal to `DigitsOf(n)`, the decimal numeral of n. That numeral is
  well formed, has value n, and is the only well-formed numeral with value n.
- `Classifier.IntPow`, `Classifier.SumOfDigits` and `Classifier.IsArmstrong`
  are proved against `Pow`, `Sum` and `PowSum`.
- `Classifier.GetNumberProperties` builds the tag list by appending.

Files:

- `decimal.dfy` (module `Decimal`): powers, decimal digits, digit sums.
- `divisors.dfy` (module `Divisors`): primality and perfection definitions,
  the square-root arguments, and finite-set sums.
- `classifier.dfy` (module `Classifier`): the operations of `main.go`.
- `examples.dfy` (module `Examples`): worked examples. 6 and 28 are
  perfect, 153 and 9474 are Armstrong numbers, and the digit sum of 12345
  is 15.

Integers are mathematical (`int`/`nat`). `IsPrime`, `IsPerfect` and
`IntPow` take any `int`, as the original does: they have their own guards
for n < 2, n < 1 and a negative exponent. The digit-based operations take
a `nat`. For every parsed value whose magnitude fits in Go's `int`, the
request handler passes them a non-negative number, the absolute value of
the parsed number. NaN, infinities and magnitudes of at least 2^63 convert
to `int` in an implementation-defined way; they are left out with the
float parsing.

## Model

| member | source | states |
|---|---|---|
| `Classifier.IsPrime` | main.go:122-132 | The result is true exactly when n >= 2 and no i with 2 <= i < n divides n. It is false for every n < 2. Stopping at `i * i > n` loses no divisor. |
| `Divisors.NoFactorBelowRoot` | main.go:126-131 | If n >= 2 and no j >= 2 with j * j <= n divides n, then n is prime. |
| `Divisors.PrimeIffNoFactorUpToRoot` | main.go:122-132 | Both directions: n is prime iff n >= 2 and no i >= 2 with i * i <= n divides n. |
| `Divisors.SmallDivisorOf` | main.go:126-131 | Every divisor d of n with 2 <= d < n has a partner divisor j >= 2 with j * j <= n. |
| `Classifier.IsPerfect` | main.go:134-148 | The result is true exactly when n >= 1 and the sum of the divisors d of n with 1 <= d < n equals n. It is false for n < 1 and for n == 1. |
| `Divisors.PairsFoundInitially` | main.go:138 | Before any trial only the divisor 1 is counted, so the running sum starts at 1. |
| `Divisors.PairsFoundStep` | main.go:139-146 | Trying i adds nothing if i does not divide n. Otherwise it adds exactly i and its cofactor n / i. |
| `Divisors.PairsFoundFresh` | main.go:140-144 | While i * i <= n, a divisor i and its cofactor n / i were not found before. Each divisor is therefore added once, and a square root once. |
| `Divisors.PairsFoundComplete` | main.go:139-147 | Once i is the first candidate with i * i > n, the divisors found are exactly the divisors d of n with 1 <= d < n. |
| `Divisors.SetSumDivisorsBelow` | main.go:138-147 | The sum of the set of divisors below k equals the range sum `SumDivisorsBelow(n, k)`. |
| `Decimal.DigitsOf` | main.go:169-176 | The decimal numeral of n is non-empty. Every digit is in 0..9. There is no leading zero, except for 0 itself. Its base-10 value is n. |
| `Decimal.DigitsOfUnique` | main.go:169-176 | A well-formed numeral with value n is exactly `DigitsOf(n)`. The most-significant-first representation is unique. |
| `Decimal.DigitCount` | main.go:170-171 | The digit count equals the length of `DigitsOf(n)`. It is the k with n < 10^k and, unless n == 0, 10^(k-1) <= n. |
| `Classifier.IntToDigits` | main.go:169-176 | The result is `DigitsOf(n)`: a well-formed numeral, most significant digit first, whose value is n. It is exactly [0] for n == 0. |
| `Classifier.IntPow` | main.go:178-184 | For e >= 0 the result is b^e, so it is 1 for e == 0. For e < 0 the loop does not run and the result is 1. |
| `Decimal.PowAdd` | main.go:178-184 | A law of the power that `intPow` computes, stated for the model's `Pow` and not needed by `IntPow`'s proof: b^(m+k) equals b^m * b^k. |
| `Classifier.SumOfDigits` | main.go:160-167 | The result is the sum of the digits of `DigitsOf(n)`. |
| `Decimal.SumAppend` | main.go:163-165 | Adding one more digit adds that digit to the running sum. |
| `Decimal.DigitSumAtMost` | main.go:160-167 | The digit sum is between 0 and n. It equals n exactly when n < 10, so the digit sum of 0 is 0. |
| `Decimal.DigitSumMod9` | main.go:160-167 | The digit sum is congruent to n modulo 9. |
| `Classifier.IsArmstrong` | main.go:150-158 | The result is true exactly when the digits of n, each raised to the digit count, sum to n. |
| `Decimal.PowSumAppend` | main.go:154-156 | Adding one more digit adds that digit's k-th power to the running sum. |
| `Classifier.SingleDigitsAreArmstrong` | main.go:150-158 | Every n in 0..9, including 0, is an Armstrong number. |
| `Classifier.GetNumberProperties` | main.go:109-120 | The list has two tags when n is an Armstrong number and one otherwise. The last tag is "even" when n % 2 == 0 and "odd" otherwise. "armstrong" is present iff n is an Armstrong number, and then it is first. No other tag appears. |
| `Examples.PerfectExamples` | main.go:134-148 | 6 is perfect. 12, 0 and 1 are not. |
| `Examples.PerfectTwentyEight` | main.go:134-148 | 28 is perfect. |
| `Examples.PrimeExamples` | main.go:122-132 | 2 is prime. 1 and 91 are not. |
| `Examples.ArmstrongExamples` | main.go:150-158 | 153 is an Armstrong number. 123 is not. |
| `Examples.ArmstrongFourDigits` | main.go:150-158 | 9474 is an Armstrong number. |
| `Examples.DigitSumExamples` | main.go:160-167 | The digit sum of 12345 is 15. The digit sum of 0 is 0. |

## Left out

- `main` (main.go:26-45): router set-up, CORS configuration and server start-up are framework plumbing.
- `classifyNumber` (main.go:47-95) is not modelled. It covers query-string handling, JSON responses and HTTP status codes. Its parsing uses `strconv.ParseFloat`, `math.Abs` and an `int` cast, which is floating-point conversion. The model only assumes that the digit-based operations receive a non-negative integer, which `nat` expresses.
- The `Response` record (main.go:15-22) is only filled by the handler, so it is not modelled.
- `fetchFunFact` (main.go:97-107) makes an outbound HTTP GET to a third-party trivia service and returns opaque text. The model has no network.
- Go's fixed-width `int` is not modelled. `IntPow`, `IsArmstrong`'s running sum and the `i * i` guards use mathematical integers, so wrap-around for very large inputs is not reproduced.
- Classifier.IntToDigits: does not model the string round-trip through `strconv.Itoa`/`strconv.Atoi`. It extracts digits arithmetically and fills the array from the last position to the first. The original fills it front to back. The resulting sequence is the same.
- Negative input to `intToDigits`, `sumOfDigits`, `isArmstrong` and `getNumberProperties` is not modelled: those operations take a `nat`. On a negative number the original would read the minus sign as a failed `Atoi`, giving the digit 0; for a negative odd number Go's `num%2` is -1, which still yields "odd". For every parsed value whose magnitude fits in `int` the handler passes a non-negative number. NaN, infinities and magnitudes of at least 2^63 convert in an implementation-defined way (math.MinInt64 on amd64, a negative number) and are left out with the float parsing.
