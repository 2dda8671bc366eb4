/**
 Integer powers of exact reals, standing for `f64::powi`. Scales are modelled
 as exact reals, so these laws hold exactly (the f64 originals only hold up to
 rounding).
 */
module Powers {

  /** `x` multiplied by itself `n` times. */
  function NatPow(x: real, n: nat): (r: real)
    ensures x > 0.0 ==> r > 0.0
    ensures x != 0.0 ==> r != 0.0
  {
    if n == 0 then 1.0 else x * NatPow(x, n - 1)
  }

  /** `x.powi(n)`: a negative power is the reciprocal of the positive one, so it needs `x != 0`. */
  function IntPow(x: real, n: int): (r: real)
    requires n >= 0 || x != 0.0
    ensures x > 0.0 ==> r > 0.0
    ensures x != 0.0 ==> r != 0.0
  {
    if n >= 0 then NatPow(x, n) else 1.0 / NatPow(x, -n)
  }

  lemma ProductNonzero(x: real, y: real)
    requires x != 0.0 && y != 0.0
    ensures x * y != 0.0
  {
  }

  lemma {:induction false} NatPowOfOne(n: nat)
    ensures NatPow(1.0, n) == 1.0
  {
    if n > 0 {
      NatPowOfOne(n - 1);
    }
  }

  lemma {:induction false} NatPowAdd(x: real, m: nat, n: nat)
    ensures NatPow(x, m + n) == NatPow(x, m) * NatPow(x, n)
  {
    if m > 0 {
      NatPowAdd(x, m - 1, n);
    }
  }

  lemma NatPowMul(x: real, m: nat, n: nat)
    ensures NatPow(NatPow(x, m), n) == NatPow(x, m * n)
  {
    NatPowMulTo(x, m, n, m * n);
  }

  /** `NatPowMul` with the product exponent named, so that every exponent in the proof stays linear. */
  lemma {:induction false} NatPowMulTo(x: real, m: nat, n: nat, p: nat)
    requires p == m * n
    ensures NatPow(NatPow(x, m), n) == NatPow(x, p)
  {
    if n > 0 {
      MulPredecessor(m, n, p);
      NatPowMulTo(x, m, n - 1, p - m);
      NatPowAdd(x, m, p - m);
    }
  }

  lemma MulPredecessor(m: nat, n: nat, p: nat)
    requires n > 0 && p == m * n
    ensures p >= m && p - m == m * (n - 1)
  {
  }

  lemma {:induction false} NatPowProduct(x: real, y: real, n: nat)
    ensures NatPow(x * y, n) == NatPow(x, n) * NatPow(y, n)
  {
    if n > 0 {
      NatPowProduct(x, y, n - 1);
      var a, b := NatPow(x, n - 1), NatPow(y, n - 1);
      assert NatPow(x * y, n) == (x * y) * (a * b);
      assert NatPow(x, n) == x * a && NatPow(y, n) == y * b;
      assert (x * y) * (a * b) == (x * a) * (y * b);
    }
  }

  lemma {:induction false} NatPowReciprocal(y: real, n: nat)
    requires y != 0.0
    ensures NatPow(1.0 / y, n) == 1.0 / NatPow(y, n)
  {
    if n > 0 {
      NatPowReciprocal(y, n - 1);
      var b := NatPow(y, n - 1);
      assert (1.0 / y) * (1.0 / b) == 1.0 / (y * b);
    }
  }

  /** `(x^m)^n == x^(m*n)` for every sign of `m` and `n`. */
  lemma IntPowMul(x: real, m: int, n: int)
    requires x != 0.0
    ensures IntPow(IntPow(x, m), n) == IntPow(x, m * n)
  {
    if m >= 0 && n >= 0 {
      NatPowMul(x, m, n);
    } else if m >= 0 {
      IntPowMulNegOuter(x, m, -n);
    } else if n >= 0 {
      IntPowMulNegInner(x, -m, n);
    } else {
      IntPowMulNegBoth(x, -m, -n);
    }
  }

  lemma IntPowMulNegOuter(x: real, m: nat, k: int)
    requires x != 0.0 && k > 0
    ensures IntPow(IntPow(x, m), -k) == IntPow(x, m * -k)
  {
    NatPowMul(x, m, k);
    assert m * -k == -(m * k);
    if m == 0 {
      NatPowOfOne(k);
    }
  }

  lemma IntPowMulNegInner(x: real, j: int, n: nat)
    requires x != 0.0 && j > 0
    ensures IntPow(IntPow(x, -j), n) == IntPow(x, -j * n)
  {
    var a := NatPow(x, j);
    assert IntPow(x, -j) == 1.0 / a;
    NatPowReciprocal(a, n);
    NatPowMul(x, j, n);
    assert -j * n == -(j * n);
    if n == 0 {
      assert IntPow(x, -j * n) == 1.0;
    } else {
      assert IntPow(x, -j * n) == 1.0 / NatPow(x, j * n);
    }
  }

  lemma IntPowMulNegBoth(x: real, j: int, k: int)
    requires x != 0.0 && j > 0 && k > 0
    ensures IntPow(IntPow(x, -j), -k) == IntPow(x, -j * -k)
  {
    var a := NatPow(x, j);
    assert IntPow(x, -j) == 1.0 / a;
    NatPowReciprocal(a, k);
    NatPowMul(x, j, k);
    assert -j * -k == j * k;
    var b := NatPow(a, k);
    assert IntPow(1.0 / a, -k) == 1.0 / NatPow(1.0 / a, k) == 1.0 / (1.0 / b);
  }

  /**
   `(x*y)^n == x^n * y^n`. The product is passed as `z`: a product written
   inside the argument of `IntPow` is hard for the solver to match.
   */
  lemma IntPowProduct(x: real, y: real, z: real, n: int)
    requires x != 0.0 && y != 0.0 && z == x * y
    ensures IntPow(z, n) == IntPow(x, n) * IntPow(y, n)
  {
    if n >= 0 {
      NatPowProduct(x, y, n);
    } else {
      NatPowProduct(x, y, -n);
      var a, b := NatPow(x, -n), NatPow(y, -n);
      assert 1.0 / (a * b) == (1.0 / a) * (1.0 / b);
    }
  }

  lemma IntPowOfOne(n: int)
    ensures IntPow(1.0, n) == 1.0
  {
    if n >= 0 {
      NatPowOfOne(n);
    } else {
      NatPowOfOne(-n);
    }
  }

  lemma IntPowOneAndMinusOne(x: real)
    ensures IntPow(x, 1) == x
    ensures x != 0.0 ==> IntPow(x, -1) == 1.0 / x
  {
    assert NatPow(x, 1) == x * NatPow(x, 0);
  }
}
