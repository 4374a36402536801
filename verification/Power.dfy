/** Powers and the little number theory that the integer encodings share. */
module Power {

  function Pow(b: nat, n: nat): (p: nat)
    ensures b > 0 ==> p > 0
    decreases n
  {
    if n == 0 then 1 else b * Pow(b, n - 1)
  }

  lemma {:induction false} PowAdd(b: nat, m: nat, n: nat)
    ensures Pow(b, m + n) == Pow(b, m) * Pow(b, n)
    decreases m
  {
    if m > 0 {
      PowAdd(b, m - 1, n);
      MulAssoc(b, Pow(b, m - 1), Pow(b, n));
    }
  }

  lemma {:induction false} PowGrows(b: nat, m: nat, n: nat)
    requires m <= n && b > 0
    ensures Pow(b, m) <= Pow(b, n)
    decreases n
  {
    if m < n {
      PowGrows(b, m, n - 1);
      MulGrows(1, b, Pow(b, n - 1));
    }
  }

  lemma MulAssoc(a: int, b: int, c: int)
    ensures a * b * c == a * (b * c)
  {
  }

  lemma MulGrows(a: int, b: int, c: int)
    requires a <= b && c >= 0
    ensures a * c <= b * c
  {
  }

  lemma Distribute(a: int, b: int, c: int)
    ensures (a + b) * c == a * c + b * c
    ensures (a - b) * c == a * c - b * c
  {
  }

  /** Quotient and remainder are unique. */
  lemma DivUnique(x: int, d: int, q: int, r: int)
    requires x == q * d + r && 0 <= r < d
    ensures x / d == q && x % d == r
  {
    var q', r' := x / d, x % d;
    assert x == q' * d + r' && 0 <= r' < d;
    Distribute(q, q', d);
    if q < q' {
      MulGrows(1, q' - q, d);
    } else if q' < q {
      MulGrows(1, q - q', d);
      Distribute(q', q, d);
    }
  }

  lemma DivMod(x: int, d: int)
    requires d > 0
    ensures x == x / d * d + x % d && 0 <= x % d < d
  {
  }

  /** Dividing twice is dividing by the product. */
  lemma DivDiv(x: nat, a: nat, b: nat)
    requires a > 0 && b > 0
    ensures a * b > 0 && x / a / b == x / (a * b)
  {
    var q, r := x / a, x % a;
    var q2, r2 := q / b, q % b;
    DivMod(x, a);
    DivMod(q, b);
    Distribute(q2 * b, r2, a);
    MulAssoc(q2, b, a);
    MulGrows(r2, b - 1, a);
    Distribute(b, 1, a);
    assert x == q2 * (a * b) + (r2 * a + r);
    DivUnique(x, a * b, q2, r2 * a + r);
  }

  lemma DivBound(x: nat, d: nat, n: nat)
    requires d > 0 && x < n * d
    ensures x / d < n
  {
    if x / d >= n {
      MulGrows(n, x / d, d);
      assert false;
    }
  }

  lemma MulLess(a: int, b: int, p: int)
    requires 0 <= a < b && p > 0
    ensures 0 <= a * p < b * p
  {
    MulGrows(0, a, p);
    MulGrows(a + 1, b, p);
    Distribute(a, 1, p);
  }
}
