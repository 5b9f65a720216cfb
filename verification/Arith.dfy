/** Multiplication by repeated addition, and its connection to `*`, `/` and `%`. Keeping
    products behind `Mul` keeps non-linear arithmetic out of the proofs about bytes. */
module Arith {

  function Mul(a: nat, b: nat): nat {
    if a == 0 then 0 else b + Mul(a - 1, b)
  }

  lemma {:induction false} MulIsProduct(a: nat, b: nat)
    ensures Mul(a, b) == a * b
  {
    if a > 0 {
      MulIsProduct(a - 1, b);
      ProductStep(a, b);
    }
  }

  lemma ProductStep(a: nat, b: nat)
    requires a > 0
    ensures a * b == b + (a - 1) * b
  {
  }

  /** Division with remainder, stated with `Mul`. */
  lemma DivMod(n: nat, d: nat)
    requires d > 0
    ensures n % d < d && n == Mul(n / d, d) + n % d
  {
    MulIsProduct(n / d, d);
  }

  lemma {:induction false} MulMono(a: nat, b: nat, d: nat)
    requires a <= b
    ensures Mul(a, d) <= Mul(b, d)
  {
    if b > a {
      MulMono(a, b - 1, d);
    }
  }

  lemma {:induction false} MulAdd(a: nat, b: nat, d: nat)
    ensures Mul(a + b, d) == Mul(a, d) + Mul(b, d)
  {
    if a > 0 {
      MulAdd(a - 1, b, d);
    }
  }

  lemma {:induction false} MulAddRight(a: nat, d: nat, e: nat)
    ensures Mul(a, d + e) == Mul(a, d) + Mul(a, e)
  {
    if a > 0 {
      MulAddRight(a - 1, d, e);
    }
  }

  lemma {:induction false} MulGe(a: nat, d: nat)
    requires d > 0
    ensures a <= Mul(a, d)
  {
    if a > 0 {
      MulGe(a - 1, d);
    }
  }

  lemma DivModUnique(n: nat, d: nat, q: nat, r: nat)
    requires r < d && n == Mul(q, d) + r
    ensures n / d == q && n % d == r
  {
    DivMod(n, d);
    if n / d > q {
      MulMono(q + 1, n / d, d);
    } else if n / d < q {
      MulMono(n / d + 1, q, d);
    }
  }

  lemma DivMono(a: nat, b: nat, d: nat)
    requires a <= b && d > 0
    ensures a / d <= b / d
  {
    DivMod(a, d);
    DivMod(b, d);
    if b / d < a / d {
      MulMono(b / d + 1, a / d, d);
    }
  }

  /** How many parts of `d` it takes to hold `n`. */
  function CeilDiv(n: nat, d: nat): nat
    requires d > 0
  {
    (n + d - 1) / d
  }

  lemma CeilDivBounds(n: nat, d: nat)
    requires d > 0
    ensures n <= Mul(CeilDiv(n, d), d) && (n > 0 ==> CeilDiv(n, d) > 0 && Mul(CeilDiv(n, d) - 1, d) < n)
    ensures CeilDiv(n, d) == 0 <==> n == 0
  {
    DivMod(n + d - 1, d);
  }

  lemma CeilDivIs(n: nat, d: nat, k: nat)
    requires d > 0 && k > 0 && Mul(k - 1, d) < n <= Mul(k, d)
    ensures CeilDiv(n, d) == k
  {
    CeilDivBounds(n, d);
    if CeilDiv(n, d) < k {
      MulMono(CeilDiv(n, d), k - 1, d);
    } else if CeilDiv(n, d) > k {
      MulMono(k, CeilDiv(n, d) - 1, d);
    }
  }
}
