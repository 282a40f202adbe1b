/** Little-endian digit strings: `digits_to_numbers` and `numbers_to_digits`,
    which `hard_addition.py` and `simple_arithmetic.py` both define with the same body.
    Numbers are the elements of the source's numpy arrays, one at a time; the
    arrays apply the same computation to every element. */
module Digits {
  import opened Arith
  import opened Wrappers

  function Pow(base: int, k: nat): int
    decreases k
  {
    if k == 0 then 1 else base * Pow(base, k - 1)
  }

  lemma {:induction false} PowPositive(base: int, k: nat)
    requires base > 0
    ensures Pow(base, k) > 0
    decreases k
  {
    if k > 0 {
      PowPositive(base, k - 1);
    }
  }

  predicate ValidDigits(d: seq<int>, base: int)
  {
    forall i :: 0 <= i < |d| ==> 0 <= d[i] < base
  }

  /** `digits_to_numbers`: the sum of `d[i] * base^i` over every position `i`. */
  function DigitsToNumber(d: seq<int>, base: int): int
  {
    if d == [] then 0 else DigitsToNumber(d[..|d| - 1], base) + d[|d| - 1] * Pow(base, |d| - 1)
  }

  /** Horner form of the weighted sum: the least significant digit plus `base` times the rest. */
  lemma {:induction false} DigitsToNumberHorner(d: seq<int>, base: int)
    requires d != []
    ensures DigitsToNumber(d, base) == d[0] + base * DigitsToNumber(d[1..], base)
  {
    if |d| > 1 {
      var init := d[..|d| - 1];
      DigitsToNumberHorner(init, base);
      assert init[1..] == d[1..][..|d[1..]| - 1];
      assert d[1..][|d[1..]| - 1] == d[|d| - 1];
      var rest, last, p := DigitsToNumber(init[1..], base), d[|d| - 1], Pow(base, |d| - 2);
      assert Pow(base, |d| - 1) == base * p;
      HornerAlgebra(d[0], rest, last, base, p);
      assert DigitsToNumber(d[1..], base) == rest + last * p;
    } else {
      assert d[..0] == [] && d[1..] == [];
    }
  }

  lemma HornerAlgebra(first: int, rest: int, last: int, base: int, p: int)
    ensures first + base * rest + last * (base * p) == first + base * (rest + last * p)
  {
  }

  /** Digits in [0, base) give a value in [0, base^|d|). */
  lemma {:induction false} DigitsToNumberBounds(d: seq<int>, base: int)
    requires base > 0 && ValidDigits(d, base)
    ensures 0 <= DigitsToNumber(d, base) < Pow(base, |d|)
  {
    if d != [] {
      DigitsToNumberHorner(d, base);
      DigitsToNumberBounds(d[1..], base);
      HornerBounds(d[0], DigitsToNumber(d[1..], base), base, Pow(base, |d| - 1));
    }
  }

  /** One Horner step keeps a value in range: a digit plus `base` times a
      value below `p` is below `base * p`. */
  lemma HornerBounds(digit: int, rest: int, base: int, p: int)
    requires 0 <= digit < base && 0 <= rest < p
    ensures 0 <= digit + base * rest < base * p
  {
    MulMonotone(rest, p - 1, base);
    MulMonotone(0, rest, base);
    assert (p - 1) * base == base * p - base;
  }

  /** The specification of `numbers_to_digits(n, k, base)` for `k >= 1`: `k` digits, least
      significant first, with Python's floor `%` and `//` (Dafny's `%` and `/` agree with them for
      a positive base). At `k == 0` the source raises instead; `NumbersToDigits` says so. */
  function ToDigits(n: int, k: nat, base: int): (r: seq<int>)
    requires base > 0
    ensures |r| == k
    decreases k
  {
    if k == 0 then [] else [n % base] + ToDigits(n / base, k - 1, base)
  }

  /** `numbers_to_digits`, as the source computes it: `k` rounds of `% base` and
      `//= base`, then `np.stack` of the rounds, which raises `ValueError` when
      there are none. */
  method NumbersToDigits(n: int, k: nat, base: int) returns (r: Result<seq<int>>)
    requires base > 0
    ensures k == 0 ==> r == Err("ValueError")
    ensures k > 0 ==> r == Ok(ToDigits(n, k, base))
  {
    var numbers := n;
    var digits := [];
    for i := 0 to k
      invariant digits + ToDigits(numbers, k - i, base) == ToDigits(n, k, base)
    {
      assert ToDigits(numbers, k - i, base) == [numbers % base] + ToDigits(numbers / base, k - i - 1, base);
      digits := digits + [numbers % base];
      numbers := numbers / base;
    }
    assert digits == ToDigits(n, k, base);
    if digits == [] {
      return Err("ValueError");
    }
    return Ok(digits);
  }

  lemma {:induction false} ToDigitsValid(n: int, k: nat, base: int)
    requires base > 0
    ensures ValidDigits(ToDigits(n, k, base), base)
    decreases k
  {
    if k > 0 {
      ToDigitsValid(n / base, k - 1, base);
    }
  }

  lemma ModOfProduct(n: int, b: int, m: int)
    requires b > 0 && m > 0
    ensures n % (b * m) == n % b + b * ((n / b) % m)
  {
    var q := n / b;
    ProductSplit(n, b, m, q, q / m, q % m);
    LowBound(n % b, q % m, b, m);
    DivModUnique(n, b * m, q / m, n % b + b * (q % m));
  }

  /** `n` split by `b` and then the quotient by `m`. */
  lemma ProductSplit(n: int, b: int, m: int, q: int, q2: int, r: int)
    requires b > 0 && m > 0 && q == n / b && q2 == q / m && r == q % m
    ensures n == q2 * (b * m) + (n % b + b * r)
  {
    assert n == q * b + n % b;
    assert q == q2 * m + r;
    MulAddRight(q2 * m, r, b);
    MulRotate(q2, m, b);
  }

  /** A low digit plus `b` times a digit below `m` stays below `b * m`. */
  lemma LowBound(d: int, r: int, b: int, m: int)
    requires 0 <= d < b && 0 <= r < m
    ensures 0 <= d + b * r < b * m
  {
    MulMonotone(r, m - 1, b);
    MulAddRight(m, -1, b);
    MulMonotone(0, r, b);
  }

  /** `digits_to_numbers(numbers_to_digits(n, k)) == n mod base^k`: the digits above
      `base^k` are dropped and nothing else is lost. */
  lemma {:induction false} NumberRoundTrip(n: int, k: nat, base: int)
    requires base > 0
    ensures Pow(base, k) > 0
    ensures DigitsToNumber(ToDigits(n, k, base), base) == n % Pow(base, k)
    decreases k
  {
    PowPositive(base, k);
    if k > 0 {
      var d := ToDigits(n, k, base);
      assert d[0] == n % base && d[1..] == ToDigits(n / base, k - 1, base);
      DigitsToNumberHorner(d, base);
      NumberRoundTrip(n / base, k - 1, base);
      PowPositive(base, k - 1);
      ModOfProduct(n, base, Pow(base, k - 1));
    } else {
      assert n % 1 == 0;
    }
  }

  /** `numbers_to_digits(digits_to_numbers(d), len(d)) == d` for digits in [0, base). */
  lemma {:induction false} DigitsRoundTrip(d: seq<int>, base: int)
    requires base > 0 && ValidDigits(d, base)
    ensures ToDigits(DigitsToNumber(d, base), |d|, base) == d
  {
    if d != [] {
      var v := DigitsToNumber(d, base);
      DigitsToNumberHorner(d, base);
      DivModUnique(v, base, DigitsToNumber(d[1..], base), d[0]);
      DigitsRoundTrip(d[1..], base);
      assert d == [d[0]] + d[1..];
    }
  }
}
