/** The count_each_* functions: exact over the given integer type, and failing
    exactly when the true count does not fit it. */
module Counting {
  import opened Arith
  import opened Choices

  datatype CountResult = Count(value: nat) | Overflow | InvalidArgument

  /** The exact outcome of counting `n` things in a type with the maximum `max`. */
  function Fitting(n: nat, max: nat): CountResult {
    if n <= max then Count(n) else Overflow
  }

  // ----- number theory

  ghost predicate Divides(d: nat, n: nat) {
    exists q: nat :: q * d == n
  }

  ghost function GcdOf(x: nat, y: nat): nat
    decreases y
  {
    if y == 0 then x else GcdOf(y, x % y)
  }

  /** The greatest common divisor is a combination of its arguments. */
  lemma {:induction false} Bezout(x: nat, y: nat) returns (a: int, b: int)
    ensures a * x + b * y == GcdOf(x, y)
    decreases y
  {
    if y == 0 {
      a, b := 1, 0;
    } else {
      var c, d := Bezout(y, x % y);
      DivMod(x, y);
      var q := x / y;
      a, b := d, c - d * q;
      calc {
        a * x + b * y;
        d * x + (c - d * q) * y;
        d * (q * y + x % y) + (c - d * q) * y;
        { assert d * (q * y + x % y) == d * (q * y) + d * (x % y); }
        { assert (c - d * q) * y == c * y - d * q * y; }
        { assert d * (q * y) == d * q * y; }
        c * y + d * (x % y);
      }
    }
  }

  lemma DividesSum(d: nat, m: nat, n: nat)
    requires Divides(d, m) && Divides(d, n)
    ensures Divides(d, m + n)
  {
    var p: nat :| p * d == m;
    var q: nat :| q * d == n;
    assert (p + q) * d == m + n;
  }

  lemma DividesTimes(d: nat, m: nat, k: nat)
    requires Divides(d, m)
    ensures Divides(d, k * m)
  {
    var p: nat :| p * d == m;
    assert k * p * d == k * m;
  }

  lemma {:induction false} GcdDivides(x: nat, y: nat)
    ensures Divides(GcdOf(x, y), x) && Divides(GcdOf(x, y), y)
    decreases y
  {
    var g := GcdOf(x, y);
    if y == 0 {
      assert 1 * g == x && 0 * g == y;
    } else {
      assert g == GcdOf(y, x % y);
      hide GcdOf, Divides;
      GcdDivides(y, x % y);
      DivMod(x, y);
      DividesTimes(g, y, x / y);
      DividesSum(g, x / y * y, x % y);
    }
  }

  /** The result of gcd divides both arguments, and every common divisor divides it. */
  lemma GcdIsGreatest(x: nat, y: nat, d: nat)
    ensures Divides(GcdOf(x, y), x) && Divides(GcdOf(x, y), y)
    ensures Divides(d, x) && Divides(d, y) ==> Divides(d, GcdOf(x, y))
  {
    GcdDivides(x, y);
    if Divides(d, x) && Divides(d, y) {
      hide GcdOf;
      var a, b := Bezout(x, y);
      var p: nat :| p * d == x;
      var q: nat :| q * d == y;
      var g := GcdOf(x, y);
      ScaledSum(a, b, p, q, d);
      NonNegativeFactor(a * p + b * q, d, g);
    }
  }

  lemma NonNegativeFactor(k: int, d: nat, g: nat)
    requires d * k == g
    ensures Divides(d, g)
  {
    if k < 0 {
      assert k * d <= 0;
      assert g == 0;
      assert 0 * d == g;
    } else {
      var q: nat := k;
      assert q * d == g;
    }
  }

  method Gcd(x0: nat, y0: nat) returns (x: nat)
    ensures x == GcdOf(x0, y0)
    ensures Divides(x, x0) && Divides(x, y0) && (x0 > 0 || y0 > 0 ==> x > 0)
  {
    var y: nat := y0;
    x := x0;
    while y != 0
      invariant GcdOf(x, y) == GcdOf(x0, y0)
      invariant x0 > 0 || y0 > 0 ==> x > 0 || y > 0
      decreases y
    {
      var t: nat := x % y;
      x := y;
      y := t;
    }
    GcdDivides(x0, y0);
  }

  /** Taking the common factor out of both sides. */
  lemma ReducedEquation(r: nat, n: nat, k: nat, c: nat, g: nat, r': nat, k': nat)
    requires g > 0 && r' * g == r && k' * g == k && c * k == r * n
    ensures c * k' == r' * n
  {
    assert g * (c * k') == c * (k' * g);
    assert g * (r' * n) == (r' * g) * n;
    CancelFactor(g, c * k', r' * n);
  }

  lemma ReducedCoprime(r: nat, k: nat, g: nat, r': nat, k': nat) returns (a: int, b: int)
    requires g > 0 && g == GcdOf(r, k) && r' * g == r && k' * g == k
    ensures a * r' + b * k' == 1
  {
    a, b := Bezout(r, k);
    ScaledSum(a, b, r', k', g);
    CancelFactor(g, a * r' + b * k', 1);
  }

  lemma ScaledSum(a: int, b: int, p: int, q: int, g: int)
    ensures g * (a * p + b * q) == a * (p * g) + b * (q * g)
  {
    Distributes(a * p, b * q, g);
    Assoc(a, p, g);
    Assoc(b, q, g);
  }

  /** With r' and k' coprime, k' divides n when it divides r' * n. */
  lemma EuclidsLemma(a: int, b: int, r': nat, k': nat, n: nat, c: nat)
    requires a * r' + b * k' == 1 && c * k' == r' * n
    ensures Divides(k', n)
  {
    assert n == (a * r' + b * k') * n;
    assert (a * r' + b * k') * n == a * (r' * n) + b * n * k';
    assert a * (c * k') == a * c * k';
    assert a * c * k' + b * n * k' == (a * c + b * n) * k';
    NonNegativeFactor(a * c + b * n, k', n);
  }

  /** r * n == c * k: the part of k not taken out of r divides n, and so
      r * n / k is computed without truncation. */
  lemma QuotientExact(r: nat, n: nat, k: nat, c: nat, g: nat, r': nat, k': nat)
    requires k > 0 && g > 0 && g == GcdOf(r, k) && r' * g == r && k' * g == k && c * k == r * n
    ensures k' > 0 && r' * (n / k') == c
  {
    ReducedEquation(r, n, k, c, g, r', k');
    var a, b := ReducedCoprime(r, k, g, r', k');
    EuclidsLemma(a, b, r', k', n, c);
    assert k' == 0 ==> k' * g == 0;
    var t: nat :| t * k' == n;
    DivExact(t, k');
    assert r' * (t * k') == k' * (r' * t);
    CancelFactor(k', c, r' * t);
  }

  // ----- the exact counts

  /** n * (n - 1) * ... * (m + 1). */
  function Falling(n: nat, m: nat): (r: nat)
    ensures r > 0
  {
    if n <= m then 1 else n * Falling(n - 1, m)
  }

  lemma {:induction false} FallingFactorial(n: nat, m: nat)
    requires m <= n
    ensures Falling(n, m) * Factorial(m) == Factorial(n)
  {
    if m == n {
    } else {
      FallingFactorial(n - 1, m);
      Assoc(n, Falling(n - 1, m), Factorial(m));
    }
  }

  lemma {:induction false} FallingSplit(n: nat, l: nat, m: nat)
    requires m <= l <= n
    ensures Falling(n, m) == Falling(n, l) * Falling(l, m)
  {
    if l == n {
    } else {
      FallingSplit(n - 1, l, m);
      Assoc(n, Falling(n - 1, l), Falling(l, m));
    }
  }

  lemma {:induction false} ChooseFactorial(n: nat, k: nat)
    requires k <= n
    ensures Choose(n, k) * Factorial(k) * Factorial(n - k) == Factorial(n)
  {
    if k == 0 {
      assert 1 * Factorial(0) * Factorial(n) == Factorial(n);
    } else if k == n {
      assert 1 * Factorial(n) * Factorial(0) == Factorial(n);
    } else {
      ChooseFactorial(n - 1, k - 1);
      ChooseFactorial(n - 1, k);
      PascalFactorial(n, k, Choose(n - 1, k - 1), Choose(n - 1, k), Factorial(k - 1), Factorial(n - k - 1),
                      Factorial(n - 1));
    }
  }

  lemma PascalFactorial(n: nat, k: nat, a: nat, b: nat, p: nat, q: nat, f: nat)
    requires 0 < k < n
    requires a * p * ((n - k) * q) == f && b * (k * p) * q == f
    ensures (a + b) * (k * p) * ((n - k) * q) == n * f
  {
    var u := n - k;
    assert a * (k * p) * (u * q) == k * (a * p * (u * q)) by { PullOut(a, k, p, u * q); }
    assert b * (k * p) * (u * q) == u * (b * (k * p) * q) by { PullOut(b * (k * p), u, q, 1); }
    Distributes(a, b, k * p);
    Distributes(a * (k * p), b * (k * p), u * q);
    Distributes(k, u, f);
  }

  lemma PullOut(a: int, k: int, p: int, q: int)
    ensures a * (k * p) * q == k * (a * p * q)
  {}

  lemma ChooseSymmetric(n: nat, k: nat)
    requires k <= n
    ensures Choose(n, k) == Choose(n, n - k)
  {
    ChooseFactorial(n, k);
    ChooseFactorial(n, n - k);
    hide Choose, Factorial;
    var p, q, a, b := Factorial(k), Factorial(n - k), Choose(n, k), Choose(n, n - k);
    Regroup3(a, p, q);
    Regroup3(b, q, p);
    MulPositive(p, q);
    CancelFactor(p * q, a, b);
  }

  /** The step of the loop: r * n / k. */
  lemma ChooseStep(n: nat, k: nat)
    requires 1 <= k <= n
    ensures Choose(n, k) * k == Choose(n, k - 1) * (n - k + 1)
  {
    ChooseFactorial(n, k);
    ChooseFactorial(n, k - 1);
    var a, b, p, q := Choose(n, k), Choose(n, k - 1), Factorial(k - 1), Factorial(n - k);
    assert Factorial(k) == k * p && Factorial(n - k + 1) == (n - k + 1) * q;
    hide Choose, Factorial;
    Regroup4(a, k, p, q);
    Regroup4(b, n - k + 1, p, q);
    MulPositive(p, q);
    CancelFactor(p * q, a * k, b * (n - k + 1));
  }

  lemma ChoosePositive(n: nat, k: nat)
    requires k <= n
    ensures Choose(n, k) > 0
  {}

  lemma NotBelow(a: nat, b: nat, k: nat, m: nat)
    requires 0 < k <= m && a * k == b * m
    ensures b <= a
  {
    MulMonotone(k, m, b);
    if a < b {
      MulStrict(a, b, k);
    }
  }

  /** In the lower half the binomials grow. */
  lemma ChooseGrows(n: nat, j: nat, k: nat)
    requires j <= k && 2 * k <= n
    ensures Choose(n, j) <= Choose(n, k)
    decreases k - j
  {
    if j == k {
    } else {
      ChooseGrows(n, j, k - 1);
      ChooseStep(n, k);
      NotBelow(Choose(n, k), Choose(n, k - 1), k, n - k + 1);
    }
  }

  lemma ChooseAtLeast(n: nat, k: nat)
    requires 1 <= k < n
    ensures Choose(n, k) >= n
  {
    if n == 2 {
    } else if k == 1 {
      ChooseAtLeast(n - 1, k);
    } else {
      ChooseAtLeast(n - 1, k - 1);
      ChoosePositive(n - 1, k);
    }
  }

  /** One step of the loop: neither division truncates. */
  lemma ReducedStep(n: nat, k: nat, c: nat, g: nat)
    requires 2 <= k <= n && c == Choose(n, k - 1)
    requires g > 0 && g == GcdOf(c, k) && Divides(g, c) && Divides(g, k)
    ensures k / g > 0 && (n - k + 1) / (k / g) > 0
    ensures c / g * ((n - k + 1) / (k / g)) == Choose(n, k)
  {
    hide Choose, GcdOf, Divides;
    ChooseStep(n, k);
    ChoosePositive(n, k);
    TakenOut(c, g);
    TakenOut(k, g);
    QuotientExact(c, n - k + 1, k, Choose(n, k), g, c / g, k / g);
    PositiveFactor(c / g, (n - k + 1) / (k / g));
  }

  lemma PositiveFactor(a: nat, b: nat)
    requires a * b > 0
    ensures b > 0
  {}

  method CountEachCombination(d1_: int, d2_: int, max: nat) returns (r: CountResult)
    requires d1_ <= max && d2_ <= max && max > 0
    ensures d1_ < 0 || d2_ < 0 ==> r == InvalidArgument
    ensures d1_ >= 0 && d2_ >= 0 ==> r == Fitting(Choose(d1_ + d2_, d1_), max)
  {
    hide Choose, GcdOf, Divides;
    if d1_ < 0 || d2_ < 0 {
      return InvalidArgument;
    }
    var d1: nat, d2: nat := d1_, d2_;
    ChooseSymmetric(d1 + d2, d1);
    ChooseNone(d1 + d2);
    if d2 < d1 {
      d1, d2 := d2, d1;
    }
    if d1 == 0 {
      return Count(1);
    }
    ghost var N := d1 + d2;
    if d1 > max - d2 {
      ChooseAtLeast(N, d1);
      return Overflow;
    }
    var n := d1 + d2;
    var c := n;
    n := n - 1;
    var k := 2;
    ChooseOne(N);
    while k <= d1
      invariant 2 <= k <= d1 + 1 && n == N - k + 1
      invariant c == Choose(N, k - 1) <= max
    {
      var g := Gcd(c, k);
      ReducedStep(N, k, c, g);
      c := c / g;
      var t := n / (k / g);
      ProductFits(c, t, max);
      if c > max / t {
        ChooseGrows(N, k, d1);
        return Overflow;
      }
      c := c * t;
      k, n := k + 1, n - 1;
    }
    return Count(c);
  }

  lemma ChooseNone(n: nat)
    ensures Choose(n, 0) == 1
  {}

  lemma ChooseOne(n: nat)
    requires n >= 1
    ensures Choose(n, 1) == n
  {}

  lemma TakenOut(x: nat, g: nat)
    requires g > 0 && Divides(g, x)
    ensures x / g * g == x
  {
    var q: nat :| q * g == x;
    DivExact(q, g);
  }

  /** (d1 + d2)! / d2!. */
  function PermutationCount(d1: nat, d2: nat): nat {
    Falling(d1 + d2, d2)
  }

  /** d1 > 0 ? (d1 + d2)! / (d1 * d2!) : 1. */
  function CircularCount(d1: nat, d2: nat): nat {
    if d1 == 0 then 1 else Choose(d1 + d2, d1) * Factorial(d1 - 1)
  }

  /** d1 > 1 ? (d1 + d2)! / (2 * d2!) : (d1 + d2)! / d2!. */
  function ReversibleCount(d1: nat, d2: nat): nat {
    if d1 <= 1 then Falling(d1 + d2, d2) else Falling(d1 + d2, d2) / 2
  }

  /** d1 == 0 ? 1 : d1 <= 2 ? (d1 + d2)! / (d1 * d2!) : (d1 + d2)! / (2 * d1 * d2!). */
  function ReversibleCircularCount(d1: nat, d2: nat): nat {
    if d1 <= 2 then CircularCount(d1, d2) else CircularCount(d1, d2) / 2
  }

  /** The closed forms, without division. */
  lemma ClosedForms(d1: nat, d2: nat)
    ensures PermutationCount(d1, d2) * Factorial(d2) == Factorial(d1 + d2)
    ensures d1 > 0 ==> CircularCount(d1, d2) * d1 * Factorial(d2) == Factorial(d1 + d2)
    ensures d1 > 1 ==> 2 * ReversibleCount(d1, d2) * Factorial(d2) == Factorial(d1 + d2)
    ensures d1 > 2 ==> 2 * ReversibleCircularCount(d1, d2) * d1 * Factorial(d2) == Factorial(d1 + d2)
  {
    hide *;
    PermutationClosed(d1, d2);
    if d1 > 0 {
      CircularClosed(d1, d2);
    }
    if d1 > 1 {
      ReversibleClosed(d1, d2);
    }
    if d1 > 2 {
      ReversibleCircularClosed(d1, d2);
    }
  }

  lemma PermutationClosed(d1: nat, d2: nat)
    ensures PermutationCount(d1, d2) * Factorial(d2) == Factorial(d1 + d2)
  {
    FallingFactorial(d1 + d2, d2);
  }

  lemma ReversibleClosed(d1: nat, d2: nat)
    requires d1 > 1
    ensures 2 * ReversibleCount(d1, d2) * Factorial(d2) == Factorial(d1 + d2)
  {
    FallingFactorial(d1 + d2, d2);
    FallingEven(d1 + d2, d2);
  }

  lemma ReversibleCircularClosed(d1: nat, d2: nat)
    requires d1 > 2
    ensures 2 * ReversibleCircularCount(d1, d2) * d1 * Factorial(d2) == Factorial(d1 + d2)
  {
    CircularClosed(d1, d2);
    FactorialEven(d1 - 1);
    var h, c := Factorial(d1 - 1) / 2, Choose(d1 + d2, d1);
    assert CircularCount(d1, d2) == 2 * ReversibleCircularCount(d1, d2) by {
      hide Choose, Factorial;
      assert c * (2 * h) == 2 * (c * h);
    }
  }

  lemma CircularClosed(d1: nat, d2: nat)
    requires d1 > 0
    ensures CircularCount(d1, d2) * d1 * Factorial(d2) == Factorial(d1 + d2)
  {
    ChooseFactorial(d1 + d2, d1);
    var c, f, g := Choose(d1 + d2, d1), Factorial(d1 - 1), Factorial(d2);
    assert Factorial(d1) == d1 * f;
    hide Choose, Factorial;
    Assoc(c, f, d1);
    Regroup3(1, f, d1);
  }

  /** Two consecutive factors make the product even. */
  lemma FallingEven(n: nat, m: nat)
    requires m + 2 <= n
    ensures Falling(n, m) == 2 * (Falling(n, m) / 2)
    ensures n % 2 == 0 ==> Falling(n, m) / 2 == n / 2 * (n - 1) * Falling(n - 2, m)
    ensures n % 2 == 1 ==> Falling(n, m) / 2 == n * ((n - 1) / 2) * Falling(n - 2, m)
  {
    var f := Falling(n - 2, m);
    assert Falling(n, m) == n * ((n - 1) * f);
    hide Falling;
    if n % 2 == 0 {
      HalfEven(n, n / 2, n - 1, f);
    } else {
      HalfOdd(n, n - 1, (n - 1) / 2, f);
    }
  }

  lemma HalfEven(n: nat, h: nat, m: nat, f: nat)
    requires n == 2 * h
    ensures n * (m * f) == 2 * (n * (m * f) / 2) && n * (m * f) / 2 == h * m * f
  {
    HalfProduct(h, m * f);
    Assoc(h, m, f);
  }

  lemma HalfOdd(n: nat, m: nat, h: nat, f: nat)
    requires m == 2 * h
    ensures n * (m * f) == 2 * (n * (m * f) / 2) && n * (m * f) / 2 == n * h * f
  {
    PullOut(n, m, f, 1);
    HalfProduct(h, n * f);
    Regroup3(n, h, f);
    Assoc(h, n, f);
  }

  lemma HalfProduct(h: nat, x: nat)
    ensures 2 * h * x / 2 == h * x && 2 * h * x == 2 * (h * x)
  {
    Assoc(2, h, x);
  }

  lemma {:induction false} FactorialEven(n: nat)
    requires n >= 2
    ensures Factorial(n) == 2 * (Factorial(n) / 2)
  {
    if n > 2 {
      FactorialEven(n - 1);
      var h := Factorial(n - 1) / 2;
      assert n * (2 * h) == 2 * (n * h);
    } else {
      assert Factorial(1) == 1 * Factorial(0);
      assert Factorial(2) == 2 * Factorial(1);
    }
  }

  /** The loops that multiply c by from, from - 1, ..., to + 1. */
  method MultiplyDown(c0: nat, from: nat, to: nat, max: nat) returns (r: CountResult)
    requires c0 <= max
    ensures r == Fitting(Times(c0, Falling(from, to)), max)
  {
    var c: nat, n: nat := c0, from;
    while n > to
      invariant c <= max && c * Falling(n, to) == c0 * Falling(from, to)
      decreases n
    {
      ProductFits(c, n, max);
      assert c * Falling(n, to) == c * n * Falling(n - 1, to) by {
        Assoc(c, n, Falling(n - 1, to));
      }
      if c > max / n {
        MulMonotone(1, Falling(n - 1, to), c * n);
        return Overflow;
      }
      c := c * n;
      n := n - 1;
    }
    assert Falling(n, to) == 1;
    return Count(c);
  }

  method CountEachPermutation(d1_: int, d2_: int, max: nat) returns (r: CountResult)
    requires d1_ <= max && d2_ <= max && max > 0
    ensures d1_ < 0 || d2_ < 0 ==> r == InvalidArgument
    ensures d1_ >= 0 && d2_ >= 0 ==> r == Fitting(PermutationCount(d1_, d2_), max)
  {
    if d1_ < 0 || d2_ < 0 {
      return InvalidArgument;
    }
    var d1: nat, d2: nat := d1_, d2_;
    hide Falling, Times;
    TimesAtLeast(1, Falling(d1 + d2, d2));
    if d1 > max - d2 {
      FallingAtLeast(d1 + d2, d2);
      return Overflow;
    }
    r := MultiplyDown(1, d1 + d2, d2, max);
  }

  lemma FallingAtLeast(n: nat, m: nat)
    requires m < n
    ensures Falling(n, m) >= n
  {
    MulPositive(n, Falling(n - 1, m));
  }

  method CountEachCircularPermutation(d1_: int, d2_: int, max: nat) returns (r: CountResult)
    requires d1_ <= max && d2_ <= max && max > 0
    ensures d1_ < 0 || d2_ < 0 ==> r == InvalidArgument
    ensures d1_ >= 0 && d2_ >= 0 ==> r == Fitting(CircularCount(d1_, d2_), max)
  {
    if d1_ < 0 || d2_ < 0 {
      return InvalidArgument;
    }
    var d1: nat, d2: nat := d1_, d2_;
    if d1 == 0 {
      return Count(1);
    }
    hide Falling, Choose, CircularCount, Times;
    if d1 <= d2 {
      SlowerBranch(d1, d2);
      TimesAtLeast(Choose(d1 + d2, d1), Falling(d1 - 1, 1));
      r := CountEachCombination(d1, d2, max);
      if r.Count? {
        r := MultiplyDown(r.value, d1 - 1, 1, max);
      }
    } else {
      FasterBranch(d1, d2);
      TimesAtLeast(1, Falling(d1 + d2, d1));
      TimesAtLeast(Falling(d1 + d2, d1), Falling(d1 - 1, d2));
      if d1 > max - d2 {
        FallingAtLeast(d1 + d2, d1);
        return Overflow;
      }
      r := MultiplyDown(1, d1 + d2, d1, max);
      if r.Count? {
        r := MultiplyDown(r.value, d1 - 1, d2, max);
      }
    }
  }

  lemma SlowerBranch(d1: nat, d2: nat)
    requires d1 > 0
    ensures Times(Choose(d1 + d2, d1), Falling(d1 - 1, 1)) == CircularCount(d1, d2)
  {
    FactorialIsFalling(d1 - 1);
  }

  lemma {:induction false} FactorialIsFalling(n: nat)
    ensures Falling(n, 1) == Factorial(n)
  {
    if n > 1 {
      FactorialIsFalling(n - 1);
    } else if n == 1 {
      assert Factorial(1) == 1 * Factorial(0);
    }
  }

  /** The "functionally equivalent but faster" branch computes the same number. */
  lemma FasterBranch(d1: nat, d2: nat)
    requires d1 > d2
    ensures Times(Falling(d1 + d2, d1), Falling(d1 - 1, d2)) == CircularCount(d1, d2)
  {
    var a, b, g := Falling(d1 + d2, d1), Falling(d1 - 1, d2), Factorial(d2);
    FallingFactorial(d1 + d2, d1);
    FallingFactorial(d1 - 1, d2);
    CircularClosed(d1, d2);
    var c := CircularCount(d1, d2);
    assert a * (d1 * (b * g)) == Factorial(d1 + d2);
    hide Falling, Factorial, CircularCount;
    MulPositive(d1, g);
    assert d1 * g * (a * b) == a * (d1 * (b * g)) by { Reorder(a, b, d1, g); }
    assert d1 * g * c == c * d1 * g by { Regroup3(c, d1, g); }
    CancelFactor(d1 * g, a * b, c);
  }

  lemma Reorder(a: int, b: int, d: int, g: int)
    ensures d * g * (a * b) == a * (d * (b * g))
  {}

  method CountEachReversiblePermutation(d1_: int, d2_: int, max: nat) returns (r: CountResult)
    requires d1_ <= max && d2_ <= max && max > 0
    ensures d1_ < 0 || d2_ < 0 ==> r == InvalidArgument
    ensures d1_ >= 0 && d2_ >= 0 ==> r == Fitting(ReversibleCount(d1_, d2_), max)
  {
    if d1_ < 0 || d2_ < 0 {
      return InvalidArgument;
    }
    var d1: nat, d2: nat := d1_, d2_;
    if d1 > max - d2 {
      HalfAtLeast(d1, d2);
      return Overflow;
    }
    hide Falling, ReversibleCount, Times;
    var n := d1 + d2;
    var c: nat := 1;
    ReversibleByHalves(d1, d2);
    if d1 > 1 {
      c := n;
      if n % 2 == 0 {
        c := c / 2;
      }
      n := n - 1;
      var t := n;
      if t % 2 == 0 {
        t := t / 2;
      }
      ProductFits(c, t, max);
      TimesAtLeast(Times(c, t), Falling(n - 1, d2));
      if c > max / t {
        assert Times(c, t) == c * t by { TimesIsProduct(c, t); }
        return Overflow;
      }
      c := c * t;
      n := n - 1;
    }
    TimesAtLeast(1, Falling(n, d2));
    r := MultiplyDown(c, n, d2, max);
  }

  lemma TimesIsProduct(c: nat, t: nat)
    ensures Times(c, t) == c * t
  {}

  lemma ReversibleByHalves(d1: nat, d2: nat)
    ensures d1 <= 1 ==> ReversibleCount(d1, d2) == Falling(d1 + d2, d2)
    ensures d1 > 1 ==>
      var n := d1 + d2;
      var c := if n % 2 == 0 then n / 2 else n;
      var t := if (n - 1) % 2 == 0 then (n - 1) / 2 else n - 1;
      t > 0 && ReversibleCount(d1, d2) == Times(Times(c, t), Falling(n - 2, d2)) && Times(c, t) == c * t
  {
    if d1 > 1 {
      FirstFactors(d1 + d2, d2);
    }
  }

  /** Halving the even one of the first two factors is exact. */
  lemma FirstFactors(n: nat, m: nat)
    requires m + 2 <= n
    ensures var c := if n % 2 == 0 then n / 2 else n; var t := if (n - 1) % 2 == 0 then (n - 1) / 2 else n - 1;
      t > 0 && Falling(n, m) / 2 == c * t * Falling(n - 2, m)
  {
    FallingEven(n, m);
  }

  lemma HalfAtLeast(d1: nat, d2: nat)
    requires d1 >= 1 && (d1 + d2 > 2 || d1 == 1)
    ensures ReversibleCount(d1, d2) >= d1 + d2
  {
    hide *;
    ReversibleByHalves(d1, d2);
    if d1 == 1 {
      FallingAtLeast(d1 + d2, d2);
    } else {
      var c, t := HalfPair(d1 + d2);
      ProductAtLeast(d1 + d2, c, t, Falling(d1 + d2 - 2, d2));
    }
  }

  /** The first two factors, the even one halved. */
  lemma HalfPair(n: nat) returns (c: nat, t: nat)
    requires n > 1
    ensures c == (if n % 2 == 0 then n / 2 else n) && t == (if (n - 1) % 2 == 0 then (n - 1) / 2 else n - 1)
    ensures (2 * c == n && t == n - 1) || (c == n && 2 * t == n - 1)
  {
    c := if n % 2 == 0 then n / 2 else n;
    t := if (n - 1) % 2 == 0 then (n - 1) / 2 else n - 1;
  }

  lemma ProductAtLeast(n: nat, c: nat, t: nat, f: nat)
    requires n > 2 && ((2 * c == n && t == n - 1) || (c == n && 2 * t == n - 1)) && f > 0
    ensures Times(Times(c, t), f) >= n
  {
    HalfPairAtLeast(n, c, t);
    hide Times;
    TimesAtLeast(Times(c, t), f);
  }

  lemma HalfPairAtLeast(n: nat, c: nat, t: nat)
    requires n > 2 && ((2 * c == n && t == n - 1) || (c == n && 2 * t == n - 1))
    ensures Times(c, t) >= n
  {
    if 2 * c == n {
      MulMonotone(2, t, c);
    } else {
      MulMonotone(1, t, c);
    }
  }

  method CountEachReversibleCircularPermutation(d1_: int, d2_: int, max: nat) returns (r: CountResult)
    requires d1_ <= max && d2_ <= max && max > 0
    ensures d1_ < 0 || d2_ < 0 ==> r == InvalidArgument
    ensures d1_ >= 0 && d2_ >= 0 ==> r == Fitting(ReversibleCircularCount(d1_, d2_), max)
  {
    if d1_ < 0 || d2_ < 0 {
      return InvalidArgument;
    }
    var d1: nat, d2: nat := d1_, d2_;
    hide Falling, Choose, ReversibleCircularCount, Times;
    r := CountEachCombination(d1, d2, max);
    HalfFactorial(d1, d2);
    if d1 > 3 {
      TimesAtLeast(Choose(d1 + d2, d1), Falling(d1 - 1, 2));
      if r.Count? {
        r := MultiplyDown(r.value, d1 - 1, 2, max);
      }
    }
  }

  lemma HalfFactorial(d1: nat, d2: nat)
    ensures ReversibleCircularCount(d1, d2) ==
      if d1 > 3 then Times(Choose(d1 + d2, d1), Falling(d1 - 1, 2)) else Choose(d1 + d2, d1)
  {
    assert Factorial(1) == 1 * Factorial(0) == 1;
    if d1 >= 3 {
      FallingFactorial(d1 - 1, 2);
      assert Factorial(2) == 2 * Factorial(1);
      var c, f := Choose(d1 + d2, d1), Falling(d1 - 1, 2);
      assert d1 == 3 ==> f == 1;
      assert Factorial(d1 - 1) == f * 2;
      hide Choose, Falling, Factorial;
      assert c * (f * 2) == c * f * 2 by { Assoc(c, f, 2); }
    }
  }
}
