/** Division that rounds down, as digits need it. */
module Division {
  /** Dividing in two steps. */
  lemma DivTwice(n: int, a: nat, p: nat)
    requires a >= 1 && p >= 1
    ensures a * p >= 1 && (n / a) / p == n / (a * p)
  {
    var q := (n / a) / p;
    var s, r := (n / a) % p, n % a;
    assert n / a == q * p + s;
    assert n == a * (n / a) + r;
    Regroup(a, q, p, s);
    Below(a, p, s, r);
    DivIs(n, a * p, q, a * s + r);
  }

  lemma Regroup(a: int, q: int, p: int, s: int)
    ensures a * (q * p + s) == q * (a * p) + a * s
  {
  }

  lemma Below(a: nat, p: nat, s: nat, r: nat)
    requires r < a && s < p
    ensures 0 <= a * s + r < a * p
  {
    assert a * p == a * (s + 1) + a * (p - s - 1);
    assert a * (s + 1) == a * s + a;
  }

  /** The quotient is the one with a remainder in range. */
  lemma DivIs(n: int, d: nat, q: int, r: int)
    requires d >= 1 && n == q * d + r && 0 <= r < d
    ensures n / d == q
  {
    var q', r' := n / d, n % d;
    assert n == q' * d + r';
    SmallMultiple(q - q', d, r' - r);
  }

  lemma SmallMultiple(x: int, d: int, y: int)
    requires x * d == y && -d < y < d
    ensures x == 0
  {
    if x >= 1 {
      AtLeastOnce(x, d);
    } else if x <= -1 {
      AtLeastOnce(-x, d);
    }
  }

  lemma AtLeastOnce(x: int, d: int)
    requires x >= 1 && d >= 0
    ensures x * d >= d && (-x) * d <= -d
  {
    assert x * d == d + (x - 1) * d;
  }
}
