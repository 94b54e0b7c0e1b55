/** Polynomials and power sums over GF(256). A polynomial is the function from the
    exponent to the coefficient, cut off at a length. The two facts the decoder
    rests on are Vandermonde (power sums determine their weights) and RootBound
    (a nonzero polynomial has no more roots than its degree). */
module GfPoly {
  import opened Gf256

  type Coeffs = nat -> bv8

  ghost function Exp(a: bv8, n: nat): bv8
  {
    if n == 0 then 1 else Mul(a, Exp(a, n - 1))
  }

  // sum of p(i) * x^i over i < n
  ghost function Eval(p: Coeffs, x: bv8, n: nat): bv8
  {
    if n == 0 then 0 else Xor(Eval(p, x, n - 1), Mul(p(n - 1), Exp(x, n - 1)))
  }

  // sum of c(j) * x(j)^i over j < n
  ghost function PowerSum(c: Coeffs, x: Coeffs, n: nat, i: nat): bv8
  {
    if n == 0 then 0 else Xor(PowerSum(c, x, n - 1, i), Mul(c(n - 1), Exp(x(n - 1), i)))
  }

  // sum of p(j) * s(i - j) over j < k
  ghost function ConvTo(p: Coeffs, s: Coeffs, i: nat, k: nat): bv8
    requires k <= i + 1
  {
    if k == 0 then 0 else Xor(ConvTo(p, s, i, k - 1), Mul(p(k - 1), s(i - (k - 1))))
  }

  // Coefficient i of the product of p and s.
  ghost function Conv(p: Coeffs, s: Coeffs, i: nat): bv8
  {
    ConvTo(p, s, i, i + 1)
  }

  // How many of the first n weights are not zero.
  ghost function NonZeros(c: Coeffs, n: nat): nat
  {
    if n == 0 then 0 else NonZeros(c, n - 1) + (if c(n - 1) != 0 then 1 else 0)
  }

  ghost predicate Locators(x: Coeffs, n: nat)
  {
    (forall j :: 0 <= j < n ==> x(j) != 0) &&
    (forall j, k :: 0 <= j < k < n ==> x(j) != x(k))
  }

  // ----- powers -------------------------------------------------------------

  lemma {:induction false} ExpNonZero(a: bv8, n: nat)
    requires a != 0
    ensures Exp(a, n) != 0
  {
    hide Xor, Mul;
    if n > 0 {
      ExpNonZero(a, n - 1);
      MulNonZero(a, Exp(a, n - 1));
    }
  }

  lemma {:induction false} ExpAdd(a: bv8, m: nat, n: nat)
    ensures Exp(a, m + n) == Mul(Exp(a, m), Exp(a, n))
  {
    hide Xor, Mul;
    if m == 0 {
      MulOne(Exp(a, n));
    } else {
      ExpAdd(a, m - 1, n);
      MulAssoc(a, Exp(a, m - 1), Exp(a, n));
    }
  }

  lemma {:induction false} ExpInv(a: bv8, n: nat)
    requires a != 0
    ensures Mul(Exp(a, n), Exp(Inv(a), n)) == 1
  {
    hide Xor, Mul, Inv;
    MulInv(a);
    if n == 0 {
      MulOne(1);
    } else {
      var b := Inv(a);
      ExpInv(a, n - 1);
      MulCross(a, Exp(a, n - 1), b, Exp(b, n - 1));
      MulOne(1);
    }
  }

  lemma MulCross(a: bv8, b: bv8, c: bv8, d: bv8)
    ensures Mul(Mul(a, b), Mul(c, d)) == Mul(Mul(a, c), Mul(b, d))
  {
    hide *;
    MulAssoc(a, b, Mul(c, d));
    MulAssoc(b, c, d);
    MulComm(b, c);
    MulAssoc(c, b, d);
    MulAssoc(a, c, Mul(b, d));
  }

  lemma {:induction false} ExpOfPow(k: nat, n: nat)
    ensures Exp(Pow(k), n) == Pow(k * n)
  {
    hide Xor, Mul, Pow;
    if n == 0 {
      PowZero();
    } else {
      ExpOfPow(k, n - 1);
      MulPowPow(k, k * (n - 1));
      assert k + k * (n - 1) == k * n;
    }
  }

  // ----- Vandermonde --------------------------------------------------------

  // The weights c(j) * (x(j) + y), which no longer involve the locator y.
  ghost function Eliminated(c: Coeffs, x: Coeffs, y: bv8): Coeffs
  {
    (j: nat) => Mul(c(j), Xor(x(j), y))
  }

  lemma {:induction false} PowerSumEliminated(c: Coeffs, x: Coeffs, n: nat, y: bv8, i: nat)
    ensures PowerSum(Eliminated(c, x, y), x, n, i)
         == Xor(PowerSum(c, x, n, i + 1), Mul(y, PowerSum(c, x, n, i)))
  {
    hide Xor, Mul;
    if n == 0 {
      MulZero(y);
      XorLaws(0, 0);
    } else {
      PowerSumEliminated(c, x, n - 1, y, i);
      EliminatedTerm(c(n - 1), x(n - 1), y, Exp(x(n - 1), i));
      var t := Mul(c(n - 1), Exp(x(n - 1), i));
      MulRightXor(y, PowerSum(c, x, n - 1, i), t);
      XorSwap(PowerSum(c, x, n - 1, i + 1), Mul(y, PowerSum(c, x, n - 1, i)),
              Mul(c(n - 1), Exp(x(n - 1), i + 1)), Mul(y, t));
    }
  }

  lemma EliminatedTerm(c: bv8, x: bv8, y: bv8, e: bv8)
    ensures Mul(Mul(c, Xor(x, y)), e) == Xor(Mul(c, Mul(x, e)), Mul(y, Mul(c, e)))
  {
    hide *;
    MulAssoc(c, Xor(x, y), e);
    MulLeftXor(x, y, e);
    MulRightXor(c, Mul(x, e), Mul(y, e));
    MulAssoc(c, y, e);
    MulComm(c, y);
    MulAssoc(y, c, e);
  }

  lemma {:induction false} NonZerosEliminated(c: Coeffs, x: Coeffs, y: bv8, n: nat)
    ensures NonZeros(Eliminated(c, x, y), n) <= NonZeros(c, n)
  {
    hide Xor, Mul;
    if n > 0 {
      NonZerosEliminated(c, x, y, n - 1);
      MulZero(Xor(x(n - 1), y));
    }
  }

  // If as many consecutive power sums vanish as there are nonzero weights, there
  // are no nonzero weights.
  lemma {:induction false} Vandermonde(c: Coeffs, x: Coeffs, n: nat, a: nat, t: nat)
    requires Locators(x, n)
    requires NonZeros(c, n) <= t
    requires forall i :: a <= i < a + t ==> PowerSum(c, x, n, i) == 0
    ensures forall j :: 0 <= j < n ==> c(j) == 0
    decreases n
  {
    hide Xor, Mul;
    if n > 0 {
      var m, y := n - 1, x(n - 1);
      if c(n - 1) == 0 {
        forall i | a <= i < a + t
          ensures PowerSum(c, x, m, i) == 0
        {
          MulZero(Exp(y, i));
          XorLaws(PowerSum(c, x, n - 1, i), 0);
          assert PowerSum(c, x, n, i) == 0;
        }
        Vandermonde(c, x, n - 1, a, t);
      } else {
        VandermondeEliminated(c, x, n, a, t);
        LastWeight(c, x, n, a);
        assert PowerSum(c, x, n, a) == 0;
        ExpNonZero(y, a);
        MulNonZero(c(n - 1), Exp(y, a));
        assert false;
      }
    }
  }

  lemma {:induction false} VandermondeEliminated(c: Coeffs, x: Coeffs, n: nat, a: nat, t: nat)
    requires n > 0 && Locators(x, n) && c(n - 1) != 0
    requires NonZeros(c, n) <= t
    requires forall i :: a <= i < a + t ==> PowerSum(c, x, n, i) == 0
    ensures forall j :: 0 <= j < n - 1 ==> c(j) == 0
    decreases n, 0
  {
    hide Xor, Mul;
    var m, y := n - 1, x(n - 1);
    var d := Eliminated(c, x, y);
    NonZerosEliminated(c, x, y, n - 1);
    forall i | a <= i < a + (t - 1)
      ensures PowerSum(d, x, m, i) == 0
    {
      PowerSumEliminated(c, x, n - 1, y, i);
      assert PowerSum(c, x, n, i) == 0 && PowerSum(c, x, n, i + 1) == 0;
      var e := Exp(y, i);
      XorZero(PowerSum(c, x, n - 1, i), Mul(c(n - 1), e));
      XorZero(PowerSum(c, x, n - 1, i + 1), Mul(c(n - 1), Mul(y, e)));
      MulAssoc(y, c(n - 1), e);
      MulComm(y, c(n - 1));
      MulAssoc(c(n - 1), y, e);
      XorLaws(Mul(c(n - 1), Mul(y, e)), 0);
    }
    Vandermonde(d, x, n - 1, a, t - 1);
    forall j | 0 <= j < n - 1
      ensures c(j) == 0
    {
      assert d(j) == 0;
      XorZero(x(j), y);
      if c(j) != 0 {
        MulNonZero(c(j), Xor(x(j), y));
      }
    }
  }

  lemma {:induction false} PowerSumZero(c: Coeffs, x: Coeffs, n: nat, i: nat)
    requires forall j :: 0 <= j < n ==> c(j) == 0
    ensures PowerSum(c, x, n, i) == 0
  {
    hide Xor, Mul;
    if n > 0 {
      PowerSumZero(c, x, n - 1, i);
      MulZero(Exp(x(n - 1), i));
      XorLaws(0, 0);
    }
  }

  lemma LastWeight(c: Coeffs, x: Coeffs, n: nat, a: nat)
    requires n > 0 && forall j :: 0 <= j < n - 1 ==> c(j) == 0
    ensures PowerSum(c, x, n, a) == Mul(c(n - 1), Exp(x(n - 1), a))
  {
    hide Xor, Mul;
    PowerSumZero(c, x, n - 1, a);
    XorLaws(Mul(c(n - 1), Exp(x(n - 1), a)), 0);
  }

  // ----- dividing by (1 + X*x) ---------------------------------------------

  // Coefficient i of p divided by (1 + X*x), as a power series.
  ghost function Quot(p: Coeffs, X: bv8, i: nat): bv8
  {
    if i == 0 then p(0) else Xor(p(i), Mul(X, Quot(p, X, i - 1)))
  }

  ghost function QuotPoly(p: Coeffs, X: bv8): Coeffs
  {
    (i: nat) => Quot(p, X, i)
  }

  lemma {:induction false} QuotValue(p: Coeffs, X: bv8, i: nat)
    requires X != 0
    ensures Quot(p, X, i) == Mul(Exp(X, i), Eval(p, Inv(X), i + 1))
  {
    hide Xor, Mul, Inv;
    var z := Inv(X);
    if i == 0 {
      assert Eval(p, z, 1) == Xor(0, Mul(p(0), 1));
      MulOne(p(0));
      XorLaws(p(0), 0);
    } else {
      QuotValue(p, X, i - 1);
      var e := Exp(X, i);
      MulRightXor(e, Eval(p, z, i), Mul(p(i), Exp(z, i)));
      MulAssoc(X, Exp(X, i - 1), Eval(p, z, i));
      ExpInv(X, i);
      MulComm(p(i), Exp(z, i));
      MulAssoc(e, Exp(z, i), p(i));
      MulOne(p(i));
      XorLaws(p(i), Mul(e, Eval(p, z, i)));
    }
  }

  ghost function Geometric(X: bv8): Coeffs
  {
    (i: nat) => Exp(X, i)
  }

  // Coefficient i of p times the geometric series of X is the same quotient.
  lemma {:induction false} ConvGeometric(p: Coeffs, X: bv8, i: nat)
    ensures Conv(p, Geometric(X), i) == Quot(p, X, i)
  {
    hide Xor, Mul;
    var s := Geometric(X);
    if i == 0 {
      assert ConvTo(p, s, 0, 1) == Xor(0, Mul(p(0), s(0)));
      MulOne(p(0));
      XorLaws(p(0), 0);
    } else {
      ConvGeometric(p, X, i - 1);
      ConvGeometricStep(p, X, i, i);
      assert s(0) == 1;
      MulOne(p(i));
      XorLaws(p(i), ConvTo(p, s, i, i));
    }
  }

  lemma {:induction false} ConvGeometricStep(p: Coeffs, X: bv8, i: nat, k: nat)
    requires 1 <= i && k <= i
    ensures ConvTo(p, Geometric(X), i, k) == Mul(X, ConvTo(p, Geometric(X), i - 1, k))
    decreases k
  {
    hide Xor, Mul;
    var s := Geometric(X);
    if k == 0 {
      MulZero(X);
    } else {
      ConvGeometricStep(p, X, i, k - 1);
      var m := i - k;
      assert s(m + 1) == Mul(X, s(m));
      MulRightXor(X, ConvTo(p, s, i - 1, k - 1), Mul(p(k - 1), s(m)));
      MulAssoc(X, p(k - 1), s(m));
      MulComm(X, p(k - 1));
      MulAssoc(p(k - 1), X, s(m));
    }
  }

  // Splitting off the factor (1 + X*x), whose root is the inverse of X.
  lemma {:induction false} DivideOut(p: Coeffs, X: bv8, y: bv8, d: nat)
    ensures Xor(Eval(p, y, d + 1), Mul(Quot(p, X, d), Exp(y, d)))
         == Mul(Xor(1, Mul(X, y)), Eval(QuotPoly(p, X), y, d))
    decreases d
  {
    hide Xor, Mul;
    var q := QuotPoly(p, X);
    if d == 0 {
      assert Eval(p, y, 1) == Xor(0, Mul(p(0), 1));
      XorLaws(Mul(p(0), 1), 0);
      MulZero(Xor(1, Mul(X, y)));
    } else {
      DivideOut(p, X, y, d - 1);
      var e := Exp(y, d - 1);
      var f := Exp(y, d);
      DivideOutStep(X, y, q(d - 1), p(d), e, Eval(p, y, d), Eval(q, y, d - 1));
    }
  }

  lemma DivideOutStep(X: bv8, y: bv8, a: bv8, b: bv8, e: bv8, u: bv8, v: bv8)
    requires Xor(u, Mul(a, e)) == Mul(Xor(1, Mul(X, y)), v)
    ensures Xor(Xor(u, Mul(b, Mul(y, e))), Mul(Xor(b, Mul(X, a)), Mul(y, e)))
         == Mul(Xor(1, Mul(X, y)), Xor(v, Mul(a, e)))
  {
    hide *;
    var f := Mul(y, e);
    var g := Mul(a, e);
    calc {
      Mul(Xor(1, Mul(X, y)), Xor(v, g));
      { MulRightXor(Xor(1, Mul(X, y)), v, g); }
      Xor(Xor(u, g), Mul(Xor(1, Mul(X, y)), g));
      { MulLeftXor(1, Mul(X, y), g); MulOne(g); }
      Xor(Xor(u, g), Xor(g, Mul(Mul(X, y), g)));
      { XorAssoc(Xor(u, g), g, Mul(Mul(X, y), g)); XorLaws(u, g); }
      Xor(u, Mul(Mul(X, y), g));
      { MulCross(X, y, a, e); }
      Xor(u, Mul(Mul(X, a), f));
    }
    calc {
      Xor(Xor(u, Mul(b, f)), Mul(Xor(b, Mul(X, a)), f));
      { MulLeftXor(b, Mul(X, a), f); }
      Xor(Xor(u, Mul(b, f)), Xor(Mul(b, f), Mul(Mul(X, a), f)));
      { XorAssoc(Xor(u, Mul(b, f)), Mul(b, f), Mul(Mul(X, a), f)); XorLaws(u, Mul(b, f)); }
      Xor(u, Mul(Mul(X, a), f));
    }
  }

  // At a root of p, the factor comes out without remainder.
  lemma DivideOutRoot(p: Coeffs, X: bv8, y: bv8, d: nat)
    requires X != 0 && Eval(p, Inv(X), d + 1) == 0
    ensures Quot(p, X, d) == 0
    ensures Eval(p, y, d + 1) == Mul(Xor(1, Mul(X, y)), Eval(QuotPoly(p, X), y, d))
  {
    hide Xor, Mul, Inv, Eval, Quot;
    QuotValue(p, X, d);
    MulZero(Exp(X, d));
    DivideOut(p, X, y, d);
    MulZero(Exp(y, d));
    XorLaws(Eval(p, y, d + 1), 0);
  }

  ghost predicate RootsAt(p: Coeffs, d: nat, xs: seq<bv8>)
  {
    (forall k :: 0 <= k < |xs| ==> xs[k] != 0 && Eval(p, Inv(xs[k]), d + 1) == 0) &&
    (forall j, k :: 0 <= j < k < |xs| ==> xs[j] != xs[k])
  }

  // A polynomial of degree d with a nonzero constant term has at most d roots.
  lemma {:induction false} RootBound(p: Coeffs, d: nat, xs: seq<bv8>)
    requires p(0) != 0
    requires RootsAt(p, d, xs)
    ensures |xs| <= d
  {
    hide Xor, Mul, Inv;
    if xs != [] {
      var n := |xs| - 1;
      var X := xs[n];
      if d == 0 {
        assert Eval(p, Inv(X), 1) == Xor(0, Mul(p(0), 1));
        XorLaws(Mul(p(0), 1), 0);
        MulOne(p(0));
        assert false;
      } else {
        var q := QuotPoly(p, X);
        forall k | 0 <= k < n
          ensures xs[..n][k] != 0 && Eval(q, Inv(xs[..n][k]), d) == 0
        {
          assert xs[k] != 0 && Eval(p, Inv(xs[k]), d + 1) == 0;
          OtherRoot(p, X, xs[k], d);
        }
        assert RootsAt(q, d - 1, xs[..n]);
        RootBound(q, d - 1, xs[..n]);
      }
    }
  }

  lemma OtherRoot(p: Coeffs, X: bv8, Y: bv8, d: nat)
    requires X != 0 && Y != 0 && X != Y
    requires Eval(p, Inv(X), d + 1) == 0 && Eval(p, Inv(Y), d + 1) == 0
    ensures Eval(QuotPoly(p, X), Inv(Y), d) == 0
  {
    hide Xor, Mul, Inv, Eval, Quot, QuotPoly;
    DivideOutRoot(p, X, Inv(Y), d);
    LocatorFactor(X, Y);
    var v := Eval(QuotPoly(p, X), Inv(Y), d);
    if v != 0 {
      MulNonZero(Xor(1, Mul(X, Inv(Y))), v);
    }
  }

  lemma LocatorFactor(X: bv8, Y: bv8)
    requires Y != 0 && X != Y
    ensures Xor(1, Mul(X, Inv(Y))) != 0
  {
    hide *;
    var z := Inv(Y);
    XorZero(1, Mul(X, z));
    MulInv(Y);
    if Mul(X, z) == 1 {
      MulAssoc(X, z, Y);
      MulComm(z, Y);
      MulOne(X);
      MulOne(Y);
    }
  }

  // ----- the product of p with a sequence of power sums ----------------------

  // sum of c(j) * Quot(p, x(j), i) over j < n
  ghost function QuotSum(p: Coeffs, c: Coeffs, x: Coeffs, n: nat, i: nat): bv8
  {
    if n == 0 then 0 else Xor(QuotSum(p, c, x, n - 1, i), Mul(c(n - 1), Quot(p, x(n - 1), i)))
  }

  ghost function PowerSums(c: Coeffs, x: Coeffs, n: nat): Coeffs
  {
    (i: nat) => PowerSum(c, x, n, i)
  }

  lemma {:induction false} ConvPowerSums(p: Coeffs, c: Coeffs, x: Coeffs, n: nat, i: nat)
    ensures Conv(p, PowerSums(c, x, n), i) == QuotSum(p, c, x, n, i)
  {
    hide Xor, Mul, Quot;
    if n == 0 {
      ConvNothing(p, c, x, i, i + 1);
    } else {
      ConvPowerSums(p, c, x, n - 1, i);
      ConvOneMore(p, c, x, n, i, i + 1);
      ConvGeometric(p, x(n - 1), i);
    }
  }

  lemma {:induction false} ConvNothing(p: Coeffs, c: Coeffs, x: Coeffs, i: nat, k: nat)
    requires k <= i + 1
    ensures ConvTo(p, PowerSums(c, x, 0), i, k) == 0
    decreases k
  {
    hide Xor, Mul;
    if k > 0 {
      ConvNothing(p, c, x, i, k - 1);
      MulZero(p(k - 1));
      XorLaws(0, 0);
    }
  }

  lemma {:induction false} ConvOneMore(p: Coeffs, c: Coeffs, x: Coeffs, n: nat, i: nat, k: nat)
    requires n > 0 && k <= i + 1
    ensures ConvTo(p, PowerSums(c, x, n), i, k)
         == Xor(ConvTo(p, PowerSums(c, x, n - 1), i, k), Mul(c(n - 1), ConvTo(p, Geometric(x(n - 1)), i, k)))
    decreases k
  {
    hide Xor, Mul;
    var w, g := c(n - 1), Geometric(x(n - 1));
    if k == 0 {
      MulZero(w);
      XorLaws(0, 0);
    } else {
      ConvOneMore(p, c, x, n, i, k - 1);
      var m, a := i - (k - 1), p(k - 1);
      var u, v := PowerSum(c, x, n - 1, m), g(m);
      MulRightXor(a, u, Mul(w, v));
      MulAssoc(a, w, v);
      MulComm(a, w);
      MulAssoc(w, a, v);
      MulRightXor(w, ConvTo(p, g, i, k - 1), Mul(a, v));
      XorSwap(ConvTo(p, PowerSums(c, x, n - 1), i, k - 1), Mul(w, ConvTo(p, g, i, k - 1)), Mul(a, u), Mul(w, Mul(a, v)));
    }
  }

  // The weights c(j) * p(1 / x(j)).
  ghost function Weighed(p: Coeffs, c: Coeffs, x: Coeffs, d: nat): Coeffs
  {
    (j: nat) => if x(j) == 0 then 0 else Mul(c(j), Eval(p, Inv(x(j)), d + 1))
  }

  lemma {:induction false} EvalCut(p: Coeffs, x: bv8, d: nat, n: nat)
    requires d <= n && forall i :: d <= i < n ==> p(i) == 0
    ensures Eval(p, x, n) == Eval(p, x, d)
    decreases n
  {
    hide Xor, Mul;
    if n > d {
      EvalCut(p, x, d, n - 1);
      MulZero(Exp(x, n - 1));
      XorLaws(Eval(p, x, n - 1), 0);
    }
  }

  // Past the degree of p, the coefficients of the product are power sums again.
  lemma {:induction false} QuotSumIsPowerSum(p: Coeffs, c: Coeffs, x: Coeffs, n: nat, d: nat, i: nat)
    requires forall j :: 0 <= j < n ==> x(j) != 0
    requires d <= i && forall k :: d < k <= i ==> p(k) == 0
    ensures QuotSum(p, c, x, n, i) == PowerSum(Weighed(p, c, x, d), x, n, i)
    decreases n
  {
    hide Xor, Mul, Quot, Eval, Inv;
    if n > 0 {
      QuotSumIsPowerSum(p, c, x, n - 1, d, i);
      var X := x(n - 1);
      assert X != 0;
      QuotValue(p, X, i);
      EvalCut(p, Inv(X), d + 1, i + 1);
      var v := Eval(p, Inv(X), d + 1);
      MulComm(Exp(X, i), v);
      MulAssoc(c(n - 1), v, Exp(X, i));
    }
  }

  lemma {:induction false} NonZerosWeighed(p: Coeffs, c: Coeffs, x: Coeffs, d: nat, n: nat)
    ensures NonZeros(Weighed(p, c, x, d), n) <= NonZeros(c, n)
    decreases n
  {
    hide Xor, Mul, Eval, Inv;
    if n > 0 {
      NonZerosWeighed(p, c, x, d, n - 1);
      if x(n - 1) != 0 {
        MulZero(Eval(p, Inv(x(n - 1)), d + 1));
      }
    }
  }
}
