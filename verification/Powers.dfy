/** Powers of two and the shifts the tree code uses. */
module Powers {

  function Pow2(n: nat): (p: nat)
    ensures p > 0
  {
    if n == 0 then 1 else 2 * Pow2(n - 1)
  }

  /** `i >> n`, one bit at a time: the ancestor of leaf `i` at level `n`. */
  function Shr(i: nat, n: nat): nat {
    if n == 0 then i else Shr(i, n - 1) / 2
  }

  /** `i << n`. */
  function Shl(i: nat, n: nat): nat {
    if n == 0 then i else 2 * Shl(i, n - 1)
  }

  lemma {:induction false} Pow2Monotone(a: nat, b: nat)
    requires a <= b
    ensures Pow2(a) <= Pow2(b)
    decreases b
  {
    if a >= b {
    } else {
      Pow2Monotone(a, b - 1);
    }
  }

  lemma {:induction false} Pow2Sum(a: nat, b: nat)
    ensures Pow2(a + b) == Pow2(a) * Pow2(b)
  {
    if a == 0 {
    } else {
      Pow2Sum(a - 1, b);
      assert Pow2(a) * Pow2(b) == 2 * (Pow2(a - 1) * Pow2(b));
    }
  }

  lemma {:induction false} ShlIsProduct(i: nat, n: nat)
    ensures Shl(i, n) == i * Pow2(n)
  {
    if n == 0 {
    } else {
      ShlIsProduct(i, n - 1);
    }
  }

  lemma {:induction false} ShrIsQuotient(i: nat, n: nat)
    ensures Shr(i, n) == i / Pow2(n)
  {
    if n == 0 {
    } else {
      ShrIsQuotient(i, n - 1);
      var p := Pow2(n - 1);
      var q, r := i / p, i % p;
      assert i == (q / 2) * (2 * p) + ((q % 2) * p + r);
      QuotientUnique(i, 2 * p, q / 2, (q % 2) * p + r);
    }
  }

  lemma {:induction false} QuotientUnique(i: nat, m: nat, q: nat, r: nat)
    requires m > 0 && i == q * m + r && r < m
    ensures i / m == q && i % m == r
  {
    MultipleIsFar(q - i / m, m);
    assert (q - i / m) * m == i % m - r;
  }

  lemma {:induction false} MultipleIsFar(d: int, m: int)
    requires m >= 0
    ensures d >= 1 ==> d * m >= m
    ensures d <= -1 ==> d * m <= -m
  {}

  /** An index is inside a `2^n` domain exactly when its level-`n` ancestor is the root. */
  lemma {:induction false} InDomain(i: nat, n: nat)
    ensures i < Pow2(n) <==> Shr(i, n) == 0
  {
    ShrIsQuotient(i, n);
    if i < Pow2(n) {
      QuotientUnique(i, Pow2(n), 0, i);
    }
  }

  lemma {:induction false} ShrSum(i: nat, a: nat, b: nat)
    ensures Shr(i, a + b) == Shr(Shr(i, a), b)
  {
    if b == 0 {
    } else {
      ShrSum(i, a, b - 1);
    }
  }

  lemma {:induction false} ShrShl(i: nat, n: nat)
    ensures Shr(Shl(i, n), n) == i
  {
    if n == 0 {
    } else {
      ShrShl(i, n - 1);
      ShrDouble(Shl(i, n - 1), n - 1);
    }
  }

  lemma {:induction false} ShrDouble(i: nat, n: nat)
    ensures Shr(2 * i, n + 1) == Shr(i, n)
  {
    ShrSum(2 * i, 1, n);
    assert Shr(2 * i, 1) == i by { assert Shr(2 * i, 0) == 2 * i; }
  }

  lemma {:induction false} ShlDouble(i: nat, n: nat)
    ensures Shl(2 * i, n) == 2 * Shl(i, n)
  {
    if n == 0 {
    } else {
      ShlDouble(i, n - 1);
    }
  }

  lemma {:induction false} ShlSucc(i: nat, n: nat)
    ensures Shl(i + 1, n) == Shl(i, n) + Pow2(n)
  {
    if n == 0 {
    } else {
      ShlSucc(i, n - 1);
    }
  }

  /** The low `n` bits of an index. */
  function Offset(i: nat, n: nat): (offset: nat)
    ensures offset < Pow2(n) && Shl(Shr(i, n), n) + offset == i
  {
    if n == 0 then 0
    else
      var half := Shr(i, n - 1);
      ShlDouble(half / 2, n - 1);
      ShlSucc(2 * (half / 2), n - 1);
      Offset(i, n - 1) + (if half % 2 == 1 then Pow2(n - 1) else 0)
  }

  lemma {:induction false} ZeroShl(n: nat)
    ensures Shl(0, n) == 0 && Shr(0, n) == 0
  {
    if n == 0 {
    } else {
      ZeroShl(n - 1);
    }
  }

  lemma {:induction false} ShlMonotone(i: nat, j: nat, n: nat)
    requires i <= j
    ensures Shl(i, n) <= Shl(j, n)
  {
    if n == 0 {
    } else {
      ShlMonotone(i, j, n - 1);
    }
  }

  lemma {:induction false} ShlPow2(k: nat, n: nat)
    ensures Shl(Pow2(k), n) == Pow2(k + n)
  {
    if n == 0 {
    } else {
      ShlPow2(k, n - 1);
    }
  }
}
