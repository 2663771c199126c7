/** Remainders of shifted numbers. */
module Modular {
  lemma NoMultipleBetween(q: int, c: int)
    requires c > 0 && -c < c * q < c
    ensures q == 0
  {
  }

  // Quotient and remainder are unique.
  lemma Unique(a: int, q: int, r: int, c: int)
    requires c > 0 && a == c * q + r && 0 <= r < c
    ensures a % c == r && a / c == q
  {
    assert a == c * (a / c) + a % c;
    assert c * (a / c - q) == c * (a / c) - c * q;
    NoMultipleBetween(a / c - q, c);
  }

  lemma ShiftUp(x: int, q: int, c: int)
    requires c > 0
    ensures (x + c * q) % c == x % c
  {
    assert c * (x / c + q) == c * (x / c) + c * q;
    Unique(x + c * q, x / c + q, x % c, c);
  }

  // Adding k before or after taking the remainder is the same.
  lemma AddAfter(n: int, k: int, c: int)
    requires c > 0
    ensures (n % c + k) % c == (n + k) % c
  {
    ShiftUp(n % c + k, n / c, c);
  }

  // Two numbers less than c apart have different remainders.
  lemma Near(a: int, b: int, c: int)
    requires c > 0 && a < b < a + c
    ensures a % c != b % c
  {
    if a % c == b % c {
      assert c * (b / c - a / c) == c * (b / c) - c * (a / c);
      NoMultipleBetween(b / c - a / c, c);
    }
  }
}
