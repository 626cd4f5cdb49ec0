/** Remainders: the few congruence laws that the signature equations need. */
module Modular {

  /** Remainders are unique. */
  lemma Unique(n: int, q: int, r: int, q': int, r': int)
    requires 0 <= r < n && 0 <= r' < n && n * q + r == n * q' + r'
    ensures r == r'
  {
    if q > q' { Grows(n, q', q); } else if q < q' { Grows(n, q, q'); }
  }

  lemma Grows(n: int, a: int, b: int)
    requires n > 0 && a < b
    ensures n * a + n <= n * b
  {
    AtLeastOnce(n, b - a);
    Spread(n, a, b - a);
  }

  lemma {:induction false} AtLeastOnce(n: int, t: int)
    requires n > 0 && t >= 1
    ensures n * t >= n
    decreases t
  {
    if t > 1 {
      AtLeastOnce(n, t - 1);
      Spread(n, t - 1, 1);
    }
  }

  lemma Spread(n: int, a: int, t: int)
    ensures n * (a + t) == n * a + n * t
  {
  }

  /** Numbers that differ by a multiple of n have the same remainder. */
  lemma Shift(a: int, q: int, n: int)
    requires n > 0
    ensures (a + n * q) % n == a % n
  {
    var b := a + n * q;
    assert n * (b / n) + b % n == n * (a / n + q) + a % n;
    Unique(n, b / n, b % n, a / n + q, a % n);
  }

  lemma Quotient(a: int, n: int) returns (q: int)
    requires n > 0
    ensures a == a % n + n * q
  {
    q := a / n;
  }

  /** Numbers with the same remainder differ by a multiple of n. */
  lemma Difference(a: int, b: int, n: int) returns (t: int)
    requires n > 0 && a % n == b % n
    ensures a == b + n * t
  {
    var p := Quotient(a, n);
    var q := Quotient(b, n);
    t := p - q;
    Spread(n, q, t);
  }

  lemma Add(a: int, b: int, c: int, n: int)
    requires n > 0 && a % n == b % n
    ensures (a + c) % n == (b + c) % n
  {
    var t := Difference(a, b, n);
    Shift(b + c, t, n);
  }

  lemma Mul(a: int, b: int, c: int, n: int)
    requires n > 0 && a % n == b % n
    ensures (a * c) % n == (b * c) % n
  {
    var t := Difference(a, b, n);
    Expand(b, n, t, c);
    Shift(b * c, t * c, n);
  }

  lemma Expand(b: int, n: int, t: int, c: int)
    ensures (b + n * t) * c == b * c + n * (t * c)
  {
  }

  lemma Reduced(a: int, n: int)
    requires n > 0
    ensures (a % n) % n == a % n
  {
  }

  lemma Small(a: int, n: int)
    requires 0 <= a < n
    ensures a % n == a
  {
  }

  lemma Unit(a: int, c: int, inverse: int, n: int)
    requires n > 1 && (c * inverse) % n == 1
    ensures ((a * c) * inverse) % n == a % n
  {
    Small(1, n);
    Mul(c * inverse, 1, a, n);
    Reorder(a, c, inverse);
  }

  lemma Reorder(a: int, c: int, d: int)
    ensures (a * c) * d == (c * d) * a
  {
  }
}
