/** Products of unknowns, one step at a time. */
module Arith {

  lemma Assoc(a: int, b: int, c: int)
    ensures a * b * c == a * (b * c)
  {}

  lemma Distributes(a: int, b: int, c: int)
    ensures (a + b) * c == a * c + b * c
    ensures (a - b) * c == a * c - b * c
  {}

  lemma MulMonotone(a: nat, b: nat, k: nat)
    requires a <= b
    ensures a * k <= b * k
  {}

  lemma MulPositive(a: nat, b: nat)
    requires a > 0 && b > 0
    ensures a * b >= a && a * b >= b
  {}

  lemma MulStrict(a: nat, b: nat, k: nat)
    requires a < b && k > 0
    ensures a * k + k <= b * k
  {
    Distributes(b, a, k);
    MulMonotone(1, b - a, k);
  }

  lemma SmallMultiple(x: int, k: nat)
    requires k > 0 && 0 <= x * k < k
    ensures x == 0
  {}

  lemma CancelFactor(g: int, x: int, y: int)
    requires g != 0 && g * x == g * y
    ensures x == y
  {}

  /** Reorderings of products. */
  lemma Regroup3(a: int, b: int, c: int)
    ensures a * b * c == b * c * a == a * c * b
  {}

  lemma Regroup4(a: int, k: int, p: int, q: int)
    ensures a * (k * p) * q == p * q * (a * k)
    ensures a * p * (k * q) == p * q * (a * k)
  {}

  lemma DivMod(x: nat, y: nat)
    requires y > 0
    ensures x == x / y * y + x % y && 0 <= x % y < y
  {}

  lemma DivExact(t: nat, k: nat)
    requires k > 0
    ensures t * k / k == t
  {
    var q := t * k / k;
    DivMod(t * k, k);
    Distributes(t, q, k);
    SmallMultiple(t - q, k);
  }

  /** The test before a multiplication that must not overflow. */
  lemma ProductFits(c: nat, t: nat, max: nat)
    requires t > 0
    ensures c > max / t <==> c * t > max
  {
    DivMod(max, t);
    var q := max / t;
    if c > q {
      MulStrict(q, c, t);
    } else {
      MulMonotone(c, q, t);
    }
  }

  /** A product to be looked into only where needed. */
  function Times(a: nat, b: nat): nat {
    a * b
  }

  lemma TimesAtLeast(a: nat, b: nat)
    requires b > 0
    ensures Times(a, b) >= a && Times(1, b) == b && Times(a, 1) == a
  {
    MulMonotone(1, b, a);
  }
}
