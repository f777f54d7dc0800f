/** Facts about products, quotients and remainders. */
module Arithmetic {

  lemma MulAtLeast(a: nat, b: nat)
    requires a >= 1
    ensures a * b >= b
  {
  }

  lemma MulMono(a: nat, b: nat, c: nat)
    requires a <= b
    ensures a * c <= b * c
  {
  }

  lemma MulNext(k: nat, a: nat)
    ensures (k + 1) * a == k * a + a
  {
  }

  lemma MulAssoc(a: nat, b: nat, c: nat)
    ensures a * (b * c) == a * c * b
  {
  }

  lemma DivMod(n: nat, a: nat)
    requires a > 0
    ensures n / a * a + n % a == n && n % a < a
  {
  }

  /** A quotient and a remainder below the divisor are the ones division gives. */
  lemma DivUnique(k: nat, i: nat, a: nat)
    requires i < a
    ensures (k * a + i) / a == k && (k * a + i) % a == i
  {
    var q, r := (k * a + i) / a, (k * a + i) % a;
    assert (q - k) * a == i - r;
    if q > k {
      MulAtLeast(q - k, a);
    } else if q < k {
      MulAtLeast(k - q, a);
    }
  }
}
