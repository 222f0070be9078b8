/** Integer widths, and division by small steps. */
module Arithmetic {

  const U32_MODULUS: nat := 0x1_0000_0000

  const U64_MODULUS: nat := 0x1_0000_0000_0000_0000

  type U32 = x: nat | x < 0x1_0000_0000

  lemma QuotientUnique(n: nat, m: nat, q: nat, r: nat)
    requires m >= 1 && r < m && n == q * m + r
    ensures n / m == q && n % m == r
  {
    var d := n / m - q;
    Spread(n / m, q, m);
    assert d * m == r - n % m;
    if d >= 1 {
      Spread(d, 1, m);
      assert false;
    } else if d <= -1 {
      Spread(-1, d, m);
      assert false;
    }
  }

  lemma Spread(a: int, b: int, m: nat)
    ensures a * m - b * m == (a - b) * m
    ensures a >= b ==> a * m >= b * m
  {
  }

  /** Counting up by one moves to the next remainder, or to the next quotient. */
  lemma QuotientStep(n: nat, m: nat)
    requires m >= 1
    ensures n % m + 1 == m ==> (n + 1) / m == n / m + 1 && (n + 1) % m == 0
    ensures n % m + 1 < m ==> (n + 1) / m == n / m && (n + 1) % m == n % m + 1
  {
    var q, r := n / m, n % m;
    assert n == q * m + r;
    if r + 1 == m {
      Spread(q + 1, q, m);
      QuotientUnique(n + 1, m, q + 1, 0);
    } else {
      QuotientUnique(n + 1, m, q, r + 1);
    }
  }

  /** Wrapping at every step comes to wrapping once. */
  lemma NextModulo(n: nat, m: nat)
    requires m > 1
    ensures (n % m + 1) % m == (n + 1) % m
  {
    QuotientStep(n, m);
    if n % m + 1 == m {
      QuotientUnique(m, m, 1, 0);
    } else {
      QuotientUnique(n % m + 1, m, 0, n % m + 1);
    }
  }

  /** Two numbers are in the same group of m exactly if their groups start at the same one. */
  lemma SameQuotient(n: nat, k: nat, m: nat)
    requires m >= 1
    ensures n / m == k / m <==> n - n % m == k - k % m
  {
    var q, q' := n / m, k / m;
    assert n - n % m == q * m && k - k % m == q' * m;
    Spread(q, q', m);
    if q > q' {
      Spread(q - q', 1, m);
    } else if q < q' {
      Spread(-1, q - q', m);
    }
  }
}
