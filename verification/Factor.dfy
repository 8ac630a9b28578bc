/** The shell's `factor` command: trial division by 2 and the odd numbers. */
module Factor {

  ghost predicate IsPrime(n: nat)
  {
    n >= 2 && forall d :: 2 <= d < n ==> !Divides(d, n)
  }

  ghost predicate Divides(d: nat, n: nat)
  {
    exists k: nat :: d * k == n
  }

  function Product(s: seq<nat>): nat
  {
    if s == [] then 1 else Product(s[..|s| - 1]) * s[|s| - 1]
  }

  /** `s` lists the prime factors of `n` in order, each as often as it occurs. */
  ghost predicate IsFactorization(s: seq<nat>, n: nat)
  {
    Product(s) == n && AllPrime(s) && Ordered(s)
  }

  ghost predicate AllPrime(s: seq<nat>)
  {
    forall i :: 0 <= i < |s| ==> IsPrime(s[i])
  }

  predicate Ordered(s: seq<nat>)
  {
    forall i, j :: 0 <= i < j < |s| ==> s[i] <= s[j]
  }

  /** Nothing from 2 up to, but not including, `bound` divides `n`. */
  ghost predicate NoFactorBelow(bound: nat, n: nat)
  {
    forall d :: 2 <= d < bound ==> !Divides(d, n)
  }

  /** The factors printed so far, and what is left of the input to divide. */
  ghost predicate Progress(printed: seq<nat>, value: nat, divisor: nat, input: nat)
  {
    && IsFactorization(printed, Product(printed))
    && Product(printed) * value == input
    && (forall i :: 0 <= i < |printed| ==> printed[i] <= divisor)
    && value >= 1
    && NoFactorBelow(divisor, value)
  }

  type U64 = x: nat | x < 0x1_0000_0000_0000_0000

  datatype Output = Usage | Factors(list: seq<nat>)

  /** The command on an argument that parsed as a 64-bit number. */
  method Factor(input: U64) returns (output: Output)
    ensures output.Usage? <==> input < 2
    ensures output.Factors? ==> IsFactorization(output.list, input)
  {
    if input < 2 {
      return Usage;
    }
    var value: nat := input;
    var printed: seq<nat> := [];
    var divisor := 2;
    while divisor <= value / divisor
      invariant value <= input
      invariant divisor == 2 || (divisor >= 3 && divisor % 2 == 1)
      invariant Progress(printed, value, divisor, input)
      decreases value - divisor
    {
      SquareBelow(value, divisor);
      printed, value := DivideOut(printed, value, divisor, input);
      assert divisor + 2 < 0x1_0000_0000_0000_0000;  // the u64 counter cannot wrap
      SkipEven(value, divisor);
      divisor := divisor + if divisor == 2 then 1 else 2;
    }
    if value > 1 {
      LeftoverIsPrime(value, divisor);
      LeftoverIsLarge(printed, value, divisor);
      AppendFactor(printed, value);
      printed := printed + [value];
    }
    output := Factors(printed);
  }

  /** The inner loop: prints `divisor` as often as it divides what is left. */
  method DivideOut(printed0: seq<nat>, value0: nat, divisor: nat, ghost input: nat)
      returns (printed: seq<nat>, value: nat)
    requires divisor >= 2 && Progress(printed0, value0, divisor, input)
    ensures Progress(printed, value, divisor, input)
    ensures value <= value0 && !Divides(divisor, value)
  {
    printed, value := printed0, value0;
    while value % divisor == 0
      invariant Progress(printed, value, divisor, input)
      invariant value <= value0
      decreases value
    {
      ProgressStep(printed, value, divisor, input);
      printed := printed + [divisor];
      value := value / divisor;
    }
    NotMultiple(divisor, value);
  }

  /** Printing a divisor and dividing it out keeps everything that is true of the printed factors. */
  lemma ProgressStep(printed: seq<nat>, value: nat, divisor: nat, input: nat)
    requires divisor >= 2 && value % divisor == 0 && Progress(printed, value, divisor, input)
    ensures Progress(printed + [divisor], value / divisor, divisor, input) && value / divisor < value
  {
    var quotient := value / divisor;
    Quotient(value, divisor);
    FirstDivisorIsPrime(value, divisor);
    AppendFactor(printed, divisor);
    Regroup(Product(printed), divisor, quotient);
    QuotientKeepsBound(value, quotient, divisor);
  }

  lemma Regroup(p: nat, d: nat, q: nat)
    ensures (p * d) * q == p * (d * q)
  {
  }

  lemma Quotient(n: nat, d: nat)
    requires d >= 2 && n >= 1 && n % d == 0
    ensures d * (n / d) == n && 1 <= n / d < n && Divides(d, n)
  {
    var k := n / d;
    assert d * k == n;
    assert k >= 1;
    assert k * 2 <= k * d;
  }

  lemma NotMultiple(d: nat, n: nat)
    requires d >= 2 && n % d != 0
    ensures !Divides(d, n)
  {
    if Divides(d, n) {
      var k: nat :| d * k == n;
      MultipleHasNoRemainder(d, k);
    }
  }

  lemma MultipleHasNoRemainder(d: nat, k: nat)
    requires d >= 1
    ensures d * k % d == 0
  {
    var q, r := d * k / d, d * k % d;
    assert d * (k - q) == r;
    MulBounds(d, k - q);
  }

  lemma MulBounds(d: nat, x: int)
    ensures x >= 1 ==> d * x >= d
    ensures x <= -1 ==> d * x <= -(d as int)
  {
  }

  lemma SquareOfBoth(m: nat, k: nat, d: nat)
    ensures m >= d && k >= d ==> m * k >= d * d
  {
    if m >= d && k >= d {
      assert m * k >= d * k >= d * d;
    }
  }

  lemma DividesTransitive(a: nat, b: nat, c: nat)
    requires Divides(a, b) && Divides(b, c)
    ensures Divides(a, c)
  {
    var k: nat :| a * k == b;
    var l: nat :| b * l == c;
    assert a * (k * l) == c;
  }

  /** The smallest divisor of a number is prime. */
  lemma FirstDivisorIsPrime(n: nat, d: nat)
    requires d >= 2 && Divides(d, n) && NoFactorBelow(d, n)
    ensures IsPrime(d)
  {
    forall m | 2 <= m < d ensures !Divides(m, d) {
      if Divides(m, d) {
        DividesTransitive(m, d, n);
      }
    }
  }

  lemma QuotientKeepsBound(n: nat, q: nat, d: nat)
    requires n == d * q && NoFactorBelow(d, n)
    ensures NoFactorBelow(d, q)
  {
    forall m | 2 <= m < d ensures !Divides(m, q) {
      if Divides(m, q) {
        assert Divides(q, n) by { assert q * d == n; }
        DividesTransitive(m, q, n);
      }
    }
  }

  /** Skipping the even candidate after an odd one misses nothing, once 2 has been divided out. */
  lemma SkipEven(n: nat, d: nat)
    requires d == 2 || (d >= 3 && d % 2 == 1)
    requires NoFactorBelow(d, n) && !Divides(d, n)
    ensures NoFactorBelow(d + if d == 2 then 1 else 2, n)
  {
    if d > 2 && Divides(d + 1, n) {
      assert Divides(2, d + 1) by { assert 2 * ((d + 1) / 2) == d + 1; }
      DividesTransitive(2, d + 1, n);
    }
  }

  /** The loop guard in multiplied form. */
  lemma SquareBelow(n: nat, d: nat)
    requires d >= 2
    ensures d <= n / d <==> d * d <= n
    ensures d <= n / d ==> 2 * d <= n
  {
    var q, r := n / d, n % d;
    assert n == d * q + r;
    if d <= q {
      Ordering(d, d, q);
      Ordering(d, 2, d);
    } else {
      Ordering(d, q, d - 1);
      assert d * (d - 1) == d * d - d;
    }
  }

  lemma Ordering(d: nat, x: nat, y: nat)
    requires x <= y
    ensures d * x <= d * y
  {
  }

  /** When the divisor has passed the square root, what is left is prime. */
  lemma LeftoverIsPrime(n: nat, d: nat)
    requires n >= 2 && d >= 2 && d > n / d && NoFactorBelow(d, n)
    ensures IsPrime(n)
  {
    SquareBelow(n, d);
    forall m | 2 <= m < n ensures !Divides(m, n) {
      if Divides(m, n) {
        var k: nat :| m * k == n;
        Cofactor(n, m, k);
        SquareOfBoth(m, k, d);
      }
    }
  }

  lemma Cofactor(n: nat, m: nat, k: nat)
    requires m * k == n && 2 <= m < n
    ensures 2 <= k && Divides(k, n)
  {
    assert k * m == n;
    assert k == 1 ==> m * k == m;
  }

  lemma LeftoverIsLarge(printed: seq<nat>, value: nat, divisor: nat)
    requires value >= 2 && NoFactorBelow(divisor, value)
    requires forall i :: 0 <= i < |printed| ==> printed[i] <= divisor
    ensures forall i :: 0 <= i < |printed| ==> printed[i] <= value
  {
    assert Divides(value, value) by { assert value * 1 == value; }
  }

  lemma AppendFactor(printed: seq<nat>, p: nat)
    requires IsFactorization(printed, Product(printed)) && IsPrime(p)
    requires forall i :: 0 <= i < |printed| ==> printed[i] <= p
    ensures IsFactorization(printed + [p], Product(printed) * p)
  {
    AllPrimeAppend(printed, p);
    OrderedAppend(printed, p);
    ProductAppend(printed, p);
  }

  lemma AllPrimeAppend(s: seq<nat>, p: nat)
    requires AllPrime(s) && IsPrime(p)
    ensures AllPrime(s + [p])
  {
    forall i | 0 <= i < |s + [p]| ensures IsPrime((s + [p])[i]) {
      if i < |s| {
        assert (s + [p])[i] == s[i];
      } else {
        assert (s + [p])[i] == p;
      }
    }
  }

  lemma OrderedAppend(s: seq<nat>, p: nat)
    requires Ordered(s) && forall i :: 0 <= i < |s| ==> s[i] <= p
    ensures Ordered(s + [p])
  {
  }

  lemma ProductAppend(s: seq<nat>, p: nat)
    ensures Product(s + [p]) == Product(s) * p
  {
    assert (s + [p])[..|s|] == s;
  }
}
