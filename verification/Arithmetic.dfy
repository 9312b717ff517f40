/** Products and quotients of whole numbers. */
module Arithmetic {
  lemma ScaledOrder(a: int, b: int, d: nat)
    requires a <= b
    ensures a * d <= b * d
  {
  }

  lemma QuotientBounds(a: nat, d: nat)
    requires d > 0
    ensures a / d * d <= a < a / d * d + d
  {
  }

  lemma QuotientBelow(a: nat, d: nat, n: nat)
    requires d > 0 && a < n * d
    ensures a / d < n
  {
    if n <= a / d {
      ScaledOrder(n, a / d, d);
      QuotientBounds(a, d);
    }
  }

  lemma QuotientAtLeast(a: nat, d: nat, n: nat)
    requires d > 0 && n * d <= a
    ensures n <= a / d
  {
    QuotientBounds(a, d);
    if a / d < n {
      ScaledOrder(a / d + 1, n, d);
    }
  }

  lemma QuotientLess(a: nat, b: nat, d: nat)
    requires d > 0 && a + d <= b
    ensures a / d < b / d
  {
    QuotientBounds(a, d);
    if b / d <= a / d {
      ScaledOrder(b / d, a / d, d);
      QuotientBounds(b, d);
    }
  }

  lemma QuotientMonotone(a: nat, b: nat, d: nat)
    requires d > 0 && a <= b
    ensures a / d <= b / d
  {
    QuotientBounds(b, d);
    if b / d < a / d {
      ScaledOrder(b / d + 1, a / d, d);
      QuotientBounds(a, d);
    }
  }

  lemma Remainder(a: nat, d: nat)
    requires d > 0
    ensures a % d == a - a / d * d
  {
  }
}
