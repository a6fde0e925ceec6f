/** Powers of two, and the division facts the solver does not find by itself. */
module Numbers {
  function Pow2(n: nat): (p: nat)
    ensures p > 0
  {
    if n == 0 then 1 else 2 * Pow2(n - 1)
  }

  lemma {:induction false} Pow2Add(m: nat, n: nat)
    ensures Pow2(m + n) == Pow2(m) * Pow2(n)
  {
    if m > 0 {
      Pow2Add(m - 1, n);
      MulAssoc(2, Pow2(m - 1), Pow2(n));
    }
  }

  lemma {:induction false} Pow2Mono(m: nat, n: nat)
    requires m <= n
    ensures Pow2(m) <= Pow2(n)
    decreases n - m
  {
    if m < n {
      Pow2Mono(m, n - 1);
    }
  }

  // ---------------------------------------------------------------- products

  /** A product.  Proofs that hide this body reason about products by the lemmas below and nothing else. */
  function Mul(a: nat, b: nat): (m: nat) {
    a * b
  }

  lemma MulAdd(a: nat, b: nat, k: nat)
    ensures Mul(a + b, k) == Mul(a, k) + Mul(b, k)
  {}

  lemma MulNext(a: nat, k: nat)
    ensures Mul(a + 1, k) == Mul(a, k) + k && Mul(0, k) == 0 && Mul(1, k) == k
  {}

  lemma MulSwap(a: nat, b: nat)
    ensures Mul(a, b) == Mul(b, a)
  {}

  lemma MulGroup(a: nat, b: nat, c: nat)
    ensures Mul(Mul(a, b), c) == Mul(a, Mul(b, c))
  {}

  lemma MulGrows(a: nat, b: nat, k: nat)
    requires a <= b
    ensures Mul(a, k) <= Mul(b, k)
    ensures a < b && k > 0 ==> Mul(a, k) < Mul(b, k)
  {
    hide Mul;
    MulAdd(a, b - a, k);
    if a < b {
      MulAdd(1, b - a - 1, k);
      MulNext(0, k);
    }
  }

  lemma MulPositive(a: nat, b: nat)
    requires a > 0 && b > 0
    ensures Mul(a, b) > 0
  {}

  lemma MulMono(a: nat, b: nat, k: nat)
    requires a <= b
    ensures a * k <= b * k && k * a <= k * b
  {}

  lemma MulStrict(a: nat, b: nat, k: nat)
    requires a < b && k > 0
    ensures a * k < b * k
  {}

  lemma MulAssoc(a: nat, b: nat, c: nat)
    ensures a * b * c == a * (b * c)
  {}

  // ---------------------------------------------------------------- quotients and remainders

  lemma DivMod(n: nat, d: nat)
    requires d > 0
    ensures n == Mul(n / d, d) + n % d && n % d < d
  {}

  /** The quotient is the number whose multiple is within reach. */
  lemma DivIs(n: nat, d: nat, q: nat)
    requires Mul(q, d) <= n < Mul(q, d) + d
    ensures n / d == q && n % d == n - Mul(q, d)
  {
    hide Mul;
    var p: nat := n / d;
    DivMod(n, d);
    MulNext(p, d);
    MulNext(q, d);
    if p < q {
      MulGrows(p + 1, q, d);
    } else if q < p {
      MulGrows(q + 1, p, d);
    }
  }

  lemma Quotient(n: nat, d: nat)
    requires d > 0
    ensures n / d * d <= n < (n / d + 1) * d
  {
    assert n == n / d * d + n % d;
  }

  lemma Remainder(n: nat, d: nat, q: nat, r: nat)
    requires r < d && n == q * d + r
    ensures n / d == q && n % d == r
  {
    assert Mul(q, d) == q * d;
    hide Mul;
    DivIs(n, d, q);
  }

  lemma SameRemainder(p: nat, q: nat, m: nat)
    requires m > 0 && p <= q
    ensures p % m == q % m <==> (q - p) % m == 0
  {
    hide Mul;
    var a: nat, r: nat, d: nat, s: nat := p / m, p % m, (q - p) / m, (q - p) % m;
    DivMod(p, m);
    DivMod(q - p, m);
    MulAdd(a, d, m);
    MulNext(a + d, m);
    if r + s < m {
      DivIs(q, m, a + d);
    } else {
      DivIs(q, m, a + d + 1);
    }
  }

  /** Dividing twice is dividing by the product. */
  lemma DivDiv(x: nat, a: nat, b: nat)
    requires a > 0 && b > 0
    ensures Mul(a, b) > 0 && x / a / b == x / Mul(a, b)
  {
    hide Mul;
    var m: nat := x / a;
    var q: nat := m / b;
    DivMod(x, a);
    DivMod(m, b);
    MulPositive(a, b);
    MulNext(m, a);
    MulGrows(Mul(q, b), m, a);
    MulGrows(m + 1, Mul(q, b) + b, a);
    MulAdd(Mul(q, b), b, a);
    MulGroup(q, b, a);
    MulSwap(b, a);
    DivIs(x, Mul(a, b), q);
  }

  /** A common factor cancels. */
  lemma CancelDiv(x: nat, a: nat, b: nat)
    requires a > 0 && b > 0
    ensures Mul(a, b) > 0 && Mul(x, b) / Mul(a, b) == x / a
  {
    hide Mul;
    var q: nat, r: nat := x / a, x % a;
    DivMod(x, a);
    MulPositive(a, b);
    MulAdd(Mul(q, a), r, b);
    MulGroup(q, a, b);
    MulGrows(r, a, b);
    DivIs(Mul(x, b), Mul(a, b), q);
  }
}
