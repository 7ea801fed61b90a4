/** Facts about integer quotients and remainders. */
module Division {

  lemma AtLeastOne(d: int, b: int)
    requires d != 0 && b > 0
    ensures d * b >= b || d * b <= -b
  {
    if d > 0 {
      assert (d - 1) * b >= 0;
    } else {
      assert (-d - 1) * b >= 0;
    }
  }

  lemma Quotient(a: int, b: int, q: int)
    requires b > 0 && q * b <= a < q * b + b
    ensures a / b == q
  {
    assert a == a / b * b + a % b;
    if a / b != q {
      AtLeastOne(a / b - q, b);
    }
  }

  lemma Remainder(a: int, b: int, k: int)
    requires b > 0
    ensures (a + b * k) % b == a % b
  {
    Quotient(a + b * k, b, a / b + k);
  }
}
