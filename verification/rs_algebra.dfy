/** Why the decoder of meteor_ecc.cc works, on polynomials: the invariant of the
    Berlekamp-Massey iteration, the bound that ties its length to the number of
    errors, and Forney's formula for the error values. The syndromes are power sums:
    c(j) is the weight and x(j) the locator of position j. */
module RsAlgebra {
  import opened Gf256
  import opened GfPoly

  // ----- products under the operations of one iteration ----------------------

  ghost function Shifted(b: Coeffs): Coeffs
  {
    (i: nat) => if i == 0 then 0 else b(i - 1)
  }

  // p + d*x*b
  ghost function Updated(p: Coeffs, d: bv8, b: Coeffs): Coeffs
  {
    (i: nat) => Xor(p(i), Mul(d, Shifted(b)(i)))
  }

  ghost function Scaled(p: Coeffs, a: bv8): Coeffs
  {
    (i: nat) => Mul(a, p(i))
  }

  lemma {:induction false} ConvCongruence(p: Coeffs, q: Coeffs, s: Coeffs, u: Coeffs, i: nat, k: nat)
    requires k <= i + 1
    requires forall j :: 0 <= j < k ==> p(j) == q(j)
    requires forall j :: 0 <= j <= i ==> s(j) == u(j)
    ensures ConvTo(p, s, i, k) == ConvTo(q, u, i, k)
    decreases k
  {
    hide Xor, Mul;
    if k > 0 {
      ConvCongruence(p, q, s, u, i, k - 1);
    }
  }

  lemma {:induction false} ConvShifted(b: Coeffs, s: Coeffs, i: nat, k: nat)
    requires k <= i + 1
    ensures ConvTo(Shifted(b), s, i + 1, k + 1) == ConvTo(b, s, i, k)
    decreases k
  {
    hide Xor, Mul;
    if k == 0 {
      assert ConvTo(Shifted(b), s, i + 1, 1) == Xor(0, Mul(0, s(i + 1)));
      MulZero(s(i + 1));
      XorLaws(0, 0);
    } else {
      ConvShifted(b, s, i, k - 1);
    }
  }

  lemma {:induction false} ConvUpdated(p: Coeffs, d: bv8, b: Coeffs, s: Coeffs, i: nat, k: nat)
    requires k <= i + 1
    ensures ConvTo(Updated(p, d, b), s, i, k) == Xor(ConvTo(p, s, i, k), Mul(d, ConvTo(Shifted(b), s, i, k)))
    decreases k
  {
    hide Xor, Mul, Shifted;
    if k == 0 {
      MulZero(d);
      XorLaws(0, 0);
    } else {
      ConvUpdated(p, d, b, s, i, k - 1);
      var u, v, w := p(k - 1), Shifted(b)(k - 1), s(i - (k - 1));
      MulLeftXor(u, Mul(d, v), w);
      MulAssoc(d, v, w);
      MulRightXor(d, ConvTo(Shifted(b), s, i, k - 1), Mul(v, w));
      XorSwap(ConvTo(p, s, i, k - 1), Mul(d, ConvTo(Shifted(b), s, i, k - 1)), Mul(u, w), Mul(d, Mul(v, w)));
    }
  }

  lemma {:induction false} ConvScaled(p: Coeffs, a: bv8, s: Coeffs, i: nat, k: nat)
    requires k <= i + 1
    ensures ConvTo(Scaled(p, a), s, i, k) == Mul(a, ConvTo(p, s, i, k))
    decreases k
  {
    hide Xor, Mul;
    if k == 0 {
      MulZero(a);
    } else {
      ConvScaled(p, a, s, i, k - 1);
      MulAssoc(a, p(k - 1), s(i - (k - 1)));
      MulRightXor(a, ConvTo(p, s, i, k - 1), Mul(p(k - 1), s(i - (k - 1))));
    }
  }

  // ----- the Berlekamp-Massey invariant ---------------------------------------

  // After r-1 syndromes: p has length el and reproduces them; b, times x, fails
  // first at the last of them, with discrepancy 1.
  ghost predicate BmInv(s: Coeffs, p: Coeffs, b: Coeffs, r: nat, el: nat)
  {
    1 <= r && el < r &&
    p(0) == 1 &&
    (forall i: nat :: el < i ==> p(i) == 0) &&
    (forall i: nat :: r - 1 - el < i ==> b(i) == 0) &&
    (forall i: nat :: el <= i && i + 1 < r ==> Conv(p, s, i) == 0) &&
    (forall i: nat :: r - el <= i + 1 && i + 2 < r ==> Conv(b, s, i) == 0) &&
    (1 <= el ==> Conv(b, s, r - 2) == 1)
  }

  lemma BmInit(s: Coeffs, p: Coeffs, b: Coeffs)
    requires p(0) == 1 && b(0) == 1
    requires forall i: nat :: 0 < i ==> p(i) == 0 && b(i) == 0
    ensures BmInv(s, p, b, 1, 0)
  {
    hide Conv, Xor, Mul;
  }

  // The partner polynomial after a step that did not change the length.
  lemma BmShift(s: Coeffs, p: Coeffs, b: Coeffs, r: nat, el: nat)
    requires BmInv(s, p, b, r, el)
    ensures forall i: nat :: r - el < i ==> Shifted(b)(i) == 0
    ensures forall i: nat :: r - el <= i && i + 1 < r ==> Conv(Shifted(b), s, i) == 0
    ensures 1 <= el ==> Conv(Shifted(b), s, r - 1) == 1
  {
    hide Xor, Mul, ConvTo;
    forall i: nat | r - el <= i && i + 1 < r
      ensures Conv(Shifted(b), s, i) == 0
    {
      ConvShifted(b, s, i - 1, i);
      assert Conv(b, s, i - 1) == 0;
    }
    if 1 <= el {
      ConvShifted(b, s, r - 2, r - 1);
    }
  }

  lemma BmAgree(s: Coeffs, p: Coeffs, b: Coeffs, r: nat, el: nat)
    requires BmInv(s, p, b, r, el)
    requires Conv(p, s, r - 1) == 0
    ensures BmInv(s, p, Shifted(b), r + 1, el)
  {
    hide Xor, Mul, Conv, Shifted;
    BmShift(s, p, b, r, el);
  }

  // What one correction with discrepancy d achieves, whichever way the length goes.
  lemma BmCorrected(s: Coeffs, p: Coeffs, b: Coeffs, r: nat, el: nat, el1: nat)
    requires BmInv(s, p, b, r, el)
    requires el <= el1 && r - el <= el1 < r + 1
    ensures var q := Updated(p, Conv(p, s, r - 1), b);
      q(0) == 1 &&
      (forall i: nat :: el1 < i ==> q(i) == 0) &&
      (forall i: nat :: el1 <= i && i < r ==> Conv(q, s, i) == 0)
  {
    hide Xor, Mul, ConvTo;
    var d := Conv(p, s, r - 1);
    var q := Updated(p, d, b);
    BmShift(s, p, b, r, el);
    MulZero(d);
    XorLaws(1, 0);
    XorLaws(0, 0);
    assert q(0) == 1;
    forall i: nat | el1 < i
      ensures q(i) == 0
    {
      assert p(i) == 0 && Shifted(b)(i) == 0;
    }
    forall i: nat | el1 <= i && i < r
      ensures Conv(q, s, i) == 0
    {
      ConvUpdated(p, d, b, s, i, i + 1);
      if i == r - 1 {
        assert 1 <= el;
        MulOne(d);
        XorLaws(d, d);
      } else {
        assert Conv(p, s, i) == 0 && Conv(Shifted(b), s, i) == 0;
      }
    }
  }

  lemma BmKeep(s: Coeffs, p: Coeffs, b: Coeffs, r: nat, el: nat)
    requires BmInv(s, p, b, r, el)
    requires 2 * el > r - 1
    ensures BmInv(s, Updated(p, Conv(p, s, r - 1), b), Shifted(b), r + 1, el)
  {
    hide Xor, Mul, Conv, Shifted, Updated;
    BmCorrected(s, p, b, r, el, el);
    BmShift(s, p, b, r, el);
  }

  lemma BmGrow(s: Coeffs, p: Coeffs, b: Coeffs, r: nat, el: nat)
    requires BmInv(s, p, b, r, el)
    requires 2 * el <= r - 1
    requires Conv(p, s, r - 1) != 0
    ensures var d := Conv(p, s, r - 1);
      BmInv(s, Updated(p, d, b), Scaled(p, Inv(d)), r + 1, r - el)
  {
    hide Xor, Mul, ConvTo, Shifted, Updated, Inv;
    var d := Conv(p, s, r - 1);
    var a := Inv(d);
    BmCorrected(s, p, b, r, el, r - el);
    MulZero(a);
    forall i: nat | el <= i && i < r
      ensures Conv(Scaled(p, a), s, i) == if i == r - 1 then 1 else 0
    {
      ConvScaled(p, a, s, i, i + 1);
      MulInv(d);
      MulComm(a, d);
      assert i < r - 1 ==> Conv(p, s, i) == 0;
    }
  }

  lemma BmCongruence(s: Coeffs, p: Coeffs, b: Coeffs, p1: Coeffs, b1: Coeffs, r: nat, el: nat)
    requires BmInv(s, p, b, r, el)
    requires forall i: nat :: p(i) == p1(i) && b(i) == b1(i)
    ensures BmInv(s, p1, b1, r, el)
  {
    hide Xor, Mul, ConvTo;
    forall i: nat
      ensures Conv(p1, s, i) == Conv(p, s, i) && Conv(b1, s, i) == Conv(b, s, i)
    {
      ConvCongruence(p, p1, s, s, i, i + 1);
      ConvCongruence(b, b1, s, s, i, i + 1);
    }
  }

  // ----- the length never exceeds the number of errors -------------------------

  ghost predicate Syndromes(s: Coeffs, c: Coeffs, x: Coeffs, n: nat)
  {
    forall m :: 0 <= m < 32 ==> s(m) == PowerSum(c, x, n, m)
  }

  lemma ConvSyndromes(s: Coeffs, p: Coeffs, c: Coeffs, x: Coeffs, n: nat, i: nat)
    requires i < 32 && Syndromes(s, c, x, n)
    ensures Conv(p, s, i) == QuotSum(p, c, x, n, i)
  {
    hide PowerSum, QuotSum, ConvTo, Xor, Mul;
    ConvCongruence(p, p, s, PowerSums(c, x, n), i, i + 1);
    ConvPowerSums(p, c, x, n, i);
  }

  // The products of p with the syndromes are power sums of the weighed errors.
  lemma ProductIsPowerSum(s: Coeffs, p: Coeffs, c: Coeffs, x: Coeffs, n: nat, el: nat, i: nat)
    requires Locators(x, n) && Syndromes(s, c, x, n)
    requires el <= i < 32
    requires forall k: nat :: el < k ==> p(k) == 0
    ensures Conv(p, s, i) == PowerSum(Weighed(p, c, x, el), x, n, i)
  {
    hide PowerSum, QuotSum, Conv, Xor, Mul, Syndromes, Weighed;
    ConvSyndromes(s, p, c, x, n, i);
    QuotSumIsPowerSum(p, c, x, n, el, i);
  }

  // Enough agreeing products make every error a root of p.
  lemma AgreementsGiveRoots(s: Coeffs, p: Coeffs, c: Coeffs, x: Coeffs, n: nat, el: nat, t: nat)
    requires Locators(x, n) && Syndromes(s, c, x, n)
    requires NonZeros(c, n) <= t && el + t <= 32
    requires forall k: nat :: el < k ==> p(k) == 0
    requires forall i :: el <= i < el + t ==> Conv(p, s, i) == 0
    ensures forall j :: 0 <= j < n ==> Weighed(p, c, x, el)(j) == 0
  {
    hide PowerSum, Conv, Xor, Mul, Syndromes, Weighed, Locators, NonZeros;
    var g := Weighed(p, c, x, el);
    NonZerosWeighed(p, c, x, el, n);
    forall i | el <= i < el + t
      ensures PowerSum(g, x, n, i) == 0
    {
      ProductIsPowerSum(s, p, c, x, n, el, i);
    }
    Vandermonde(g, x, n, el, t);
  }

  // A failing product after that many agreeing ones means more errors.
  lemma LengthBound(s: Coeffs, p: Coeffs, c: Coeffs, x: Coeffs, n: nat, r: nat, el: nat, t: nat)
    requires Locators(x, n) && Syndromes(s, c, x, n)
    requires NonZeros(c, n) <= t && 1 <= r <= 32 && el < r
    requires forall k: nat :: el < k ==> p(k) == 0
    requires forall i: nat :: el <= i && i + 1 < r ==> Conv(p, s, i) == 0
    requires Conv(p, s, r - 1) != 0
    ensures r - el <= t
  {
    hide PowerSum, Conv, Xor, Mul, Syndromes, Weighed, Locators, NonZeros;
    if t + el < r {
      AgreementsGiveRoots(s, p, c, x, n, el, t);
      ProductIsPowerSum(s, p, c, x, n, el, r - 1);
      PowerSumZero(Weighed(p, c, x, el), x, n, r - 1);
    }
  }

  // ----- the locator polynomial ------------------------------------------------

  // The locators of the positions in error, in order.
  ghost function Support(c: Coeffs, x: Coeffs, n: nat): (xs: seq<bv8>)
    ensures |xs| == NonZeros(c, n)
  {
    if n == 0 then []
    else Support(c, x, n - 1) + (if c(n - 1) != 0 then [x(n - 1)] else [])
  }

  lemma {:induction false} SupportMembers(c: Coeffs, x: Coeffs, n: nat, y: bv8)
    ensures y in Support(c, x, n) <==> exists j :: 0 <= j < n && c(j) != 0 && x(j) == y
  {
    if n > 0 {
      SupportMembers(c, x, n - 1, y);
      if y in Support(c, x, n) && y !in Support(c, x, n - 1) {
        assert c(n - 1) != 0 && x(n - 1) == y;
      }
    }
  }

  lemma {:induction false} SupportDistinct(c: Coeffs, x: Coeffs, n: nat)
    requires Locators(x, n)
    ensures forall j, k :: 0 <= j < k < |Support(c, x, n)| ==> Support(c, x, n)[j] != Support(c, x, n)[k]
  {
    if n > 0 {
      SupportDistinct(c, x, n - 1);
      SupportMembers(c, x, n - 1, x(n - 1));
    }
  }

  // p, of degree d, vanishes at the inverse of every locator in error.
  ghost predicate LocatesAll(p: Coeffs, d: nat, c: Coeffs, x: Coeffs, n: nat)
  {
    forall j :: 0 <= j < n && c(j) != 0 && x(j) != 0 ==> Eval(p, Inv(x(j)), d + 1) == 0
  }

  lemma SupportRoots(p: Coeffs, d: nat, c: Coeffs, x: Coeffs, n: nat)
    requires Locators(x, n) && LocatesAll(p, d, c, x, n)
    ensures RootsAt(p, d, Support(c, x, n))
  {
    hide Eval, Inv, NonZeros, Support;
    var xs := Support(c, x, n);
    SupportDistinct(c, x, n);
    forall k | 0 <= k < |xs|
      ensures xs[k] != 0 && Eval(p, Inv(xs[k]), d + 1) == 0
    {
      SupportMembers(c, x, n, xs[k]);
      assert xs[k] in xs;
    }
  }

  // The outcome of the iteration: the length is the number of errors and every
  // error is located.
  lemma BmOutcome(s: Coeffs, p: Coeffs, b: Coeffs, el: nat, c: Coeffs, x: Coeffs, n: nat)
    requires Locators(x, n) && Syndromes(s, c, x, n)
    requires BmInv(s, p, b, 33, el)
    requires el <= NonZeros(c, n) <= 16
    ensures el == NonZeros(c, n)
    ensures LocatesAll(p, el, c, x, n)
  {
    hide Eval, Inv, Xor, Mul, Conv, Syndromes, NonZeros, PowerSum;
    AgreementsGiveRoots(s, p, c, x, n, el, NonZeros(c, n));
    forall j | 0 <= j < n && c(j) != 0 && x(j) != 0
      ensures Eval(p, Inv(x(j)), el + 1) == 0
    {
      assert Weighed(p, c, x, el)(j) == 0;
      if Eval(p, Inv(x(j)), el + 1) != 0 {
        MulNonZero(c(j), Eval(p, Inv(x(j)), el + 1));
      }
    }
    SupportRoots(p, el, c, x, n);
    RootBound(p, el, Support(c, x, n));
  }

  // The highest nonzero coefficient then sits exactly at the number of errors ...
  lemma LocatorDegree(p: Coeffs, el: nat, d: nat, c: Coeffs, x: Coeffs, n: nat)
    requires Locators(x, n) && LocatesAll(p, el, c, x, n)
    requires p(0) == 1 && d <= el == NonZeros(c, n)
    requires forall i :: d < i <= el ==> p(i) == 0
    ensures d == el
  {
    hide Eval, Inv, Xor, Mul, NonZeros;
    forall j | 0 <= j < n && c(j) != 0 && x(j) != 0
      ensures Eval(p, Inv(x(j)), d + 1) == 0
    {
      EvalCut(p, Inv(x(j)), d + 1, el + 1);
    }
    SupportRoots(p, d, c, x, n);
    RootBound(p, d, Support(c, x, n));
  }

  // ... and it has no other roots.
  lemma OnlyErrorsAreRoots(p: Coeffs, el: nat, c: Coeffs, x: Coeffs, n: nat, y: bv8)
    requires Locators(x, n) && LocatesAll(p, el, c, x, n)
    requires p(0) == 1 && el == NonZeros(c, n)
    requires y != 0 && Eval(p, Inv(y), el + 1) == 0
    ensures exists j :: 0 <= j < n && c(j) != 0 && x(j) == y
  {
    hide Eval, Inv, NonZeros, Locators, Support;
    var xs := Support(c, x, n);
    SupportRoots(p, el, c, x, n);
    SupportMembers(c, x, n, y);
    if y !in xs {
      assert RootsAt(p, el, xs + [y]);
      RootBound(p, el, xs + [y]);
    }
  }

  // ----- Forney's formula --------------------------------------------------------

  // sum of p(j) * z^j over the odd, or the even, j < n
  ghost function EvalParity(p: Coeffs, z: bv8, n: nat, odd: bool): bv8
  {
    if n == 0 then 0
    else if ((n - 1) % 2 == 1) == odd then Xor(EvalParity(p, z, n - 1, odd), Mul(p(n - 1), Exp(z, n - 1)))
    else EvalParity(p, z, n - 1, odd)
  }

  lemma {:induction false} EvalByParity(p: Coeffs, z: bv8, n: nat)
    ensures Eval(p, z, n) == Xor(EvalParity(p, z, n, true), EvalParity(p, z, n, false))
  {
    hide Xor, Mul;
    if n == 0 {
      XorLaws(0, 0);
    } else {
      EvalByParity(p, z, n - 1);
      var u, v, w := EvalParity(p, z, n - 1, true), EvalParity(p, z, n - 1, false), Mul(p(n - 1), Exp(z, n - 1));
      XorAssoc(u, v, w);
      XorLaws(u, v);
      XorAssoc(v, u, w);
      XorLaws(v, Xor(u, w));
    }
  }

  lemma {:induction false} QuotTerms(p: Coeffs, X: bv8, z: bv8, n: nat)
    requires X != 0 && z == Inv(X)
    ensures Eval(QuotPoly(p, X), z, n) == EvalParity(p, z, n, n % 2 == 0)
  {
    hide Xor, Mul, Inv, Quot;
    if n > 0 {
      QuotTerms(p, X, z, n - 1);
      QuotValue(p, X, n - 1);
      var e, f, v := Exp(X, n - 1), Exp(z, n - 1), Eval(p, z, n);
      ExpInv(X, n - 1);
      MulComm(e, v);
      MulAssoc(v, e, f);
      MulOne(v);
      EvalByParity(p, z, n);
      var a, b := EvalParity(p, z, n, n % 2 == 0), EvalParity(p, z, n, n % 2 == 1);
      XorLaws(a, b);
      XorLaws(b, a);
      XorAssoc(b, a, b);
      assert EvalParity(p, z, n, n % 2 == 1) == EvalParity(p, z, n - 1, (n - 1) % 2 == 0);
    }
  }

  // At its own root, the quotient of p by one factor is the odd part of p.
  lemma QuotAtRoot(p: Coeffs, X: bv8, t: nat)
    requires X != 0 && Eval(p, Inv(X), t + 1) == 0
    ensures Eval(QuotPoly(p, X), Inv(X), t) == EvalParity(p, Inv(X), t + 1, true)
  {
    hide Xor, Mul, Inv, Eval, QuotPoly;
    var z := Inv(X);
    QuotTerms(p, X, z, t);
    EvalByParity(p, z, t + 1);
    XorZero(EvalParity(p, z, t + 1, true), EvalParity(p, z, t + 1, false));
    if t % 2 == 0 {
      assert EvalParity(p, z, t + 1, true) == EvalParity(p, z, t, true);
    } else {
      assert EvalParity(p, z, t + 1, false) == EvalParity(p, z, t, false);
    }
  }

  // sum of p(2k+1) * z^(2k) over k < m: the formal derivative of p
  ghost function Derivative(p: Coeffs, z: bv8, m: nat): bv8
  {
    if m == 0 then 0
    else Xor(Derivative(p, z, m - 1), Mul(p(2 * m - 1), Exp(z, 2 * m - 2)))
  }

  lemma {:induction false} DerivativeIsOddPart(p: Coeffs, z: bv8, m: nat)
    ensures Mul(z, Derivative(p, z, m)) == EvalParity(p, z, 2 * m, true)
  {
    hide Xor, Mul;
    if m == 0 {
      MulZero(z);
    } else {
      DerivativeIsOddPart(p, z, m - 1);
      var a, e := p(2 * m - 1), Exp(z, 2 * m - 2);
      MulRightXor(z, Derivative(p, z, m - 1), Mul(a, e));
      MulAssoc(z, a, e);
      MulComm(z, a);
      MulAssoc(a, z, e);
      assert EvalParity(p, z, 2 * m - 1, true) == EvalParity(p, z, 2 * m - 2, true);
    }
  }

  lemma {:induction false} ParityCut(p: Coeffs, z: bv8, d: nat, n: nat)
    requires d <= n && forall i :: d <= i < n ==> p(i) == 0
    ensures EvalParity(p, z, n, true) == EvalParity(p, z, d, true)
    decreases n
  {
    hide Xor, Mul;
    if n > d {
      ParityCut(p, z, d, n - 1);
      MulZero(Exp(z, n - 1));
      XorLaws(EvalParity(p, z, n - 1, true), 0);
    }
  }

  // sum of c(j) times the quotient of p by the factor of x(j), at z
  ghost function QuotientsAt(p: Coeffs, c: Coeffs, x: Coeffs, n: nat, z: bv8, t: nat): bv8
  {
    if n == 0 then 0
    else Xor(QuotientsAt(p, c, x, n - 1, z, t), Mul(c(n - 1), Eval(QuotPoly(p, x(n - 1)), z, t)))
  }

  // The evaluator polynomial: the product of p and the syndromes.
  ghost function Evaluator(p: Coeffs, s: Coeffs): Coeffs
  {
    (i: nat) => Conv(p, s, i)
  }

  lemma {:induction false} QuotientsAtStep(p: Coeffs, c: Coeffs, x: Coeffs, n: nat, z: bv8, t: nat)
    requires t > 0
    ensures QuotientsAt(p, c, x, n, z, t)
         == Xor(QuotientsAt(p, c, x, n, z, t - 1), Mul(QuotSum(p, c, x, n, t - 1), Exp(z, t - 1)))
    decreases n
  {
    hide Xor, Mul, Quot, Exp;
    var e := Exp(z, t - 1);
    if n == 0 {
      MulZero(e);
      XorLaws(0, 0);
    } else {
      QuotientsAtStep(p, c, x, n - 1, z, t);
      var w, q := c(n - 1), QuotPoly(p, x(n - 1));
      MulRightXor(w, Eval(q, z, t - 1), Mul(q(t - 1), e));
      MulAssoc(w, q(t - 1), e);
      MulLeftXor(QuotSum(p, c, x, n - 1, t - 1), Mul(w, q(t - 1)), e);
      XorSwap(QuotientsAt(p, c, x, n - 1, z, t - 1), Mul(QuotSum(p, c, x, n - 1, t - 1), e),
              Mul(w, Eval(q, z, t - 1)), Mul(Mul(w, q(t - 1)), e));
    }
  }

  lemma {:induction false} QuotientsAtNothing(p: Coeffs, c: Coeffs, x: Coeffs, n: nat, z: bv8)
    ensures QuotientsAt(p, c, x, n, z, 0) == 0
  {
    hide Xor, Mul;
    if n > 0 {
      QuotientsAtNothing(p, c, x, n - 1, z);
      MulZero(c(n - 1));
      XorLaws(0, 0);
    }
  }

  lemma {:induction false} EvaluatorAt(p: Coeffs, s: Coeffs, c: Coeffs, x: Coeffs, n: nat, z: bv8, t: nat)
    requires t <= 32 && Syndromes(s, c, x, n)
    ensures Eval(Evaluator(p, s), z, t) == QuotientsAt(p, c, x, n, z, t)
    decreases t
  {
    hide Xor, Mul, Conv, QuotientsAt, QuotSum, Syndromes;
    if t == 0 {
      QuotientsAtNothing(p, c, x, n, z);
    } else {
      EvaluatorAt(p, s, c, x, n, z, t - 1);
      ConvSyndromes(s, p, c, x, n, t - 1);
      QuotientsAtStep(p, c, x, n, z, t);
    }
  }

  // At the inverse of locator k, only error k is left.
  lemma {:induction false} QuotientsAtRoot(p: Coeffs, c: Coeffs, x: Coeffs, n: nat, N: nat, t: nat, k: nat)
    requires n <= N && k < N && Locators(x, N) && LocatesAll(p, t, c, x, N)
    requires c(k) != 0
    ensures QuotientsAt(p, c, x, n, Inv(x(k)), t)
         == if k < n then Mul(c(k), Eval(QuotPoly(p, x(k)), Inv(x(k)), t)) else 0
    decreases n
  {
    hide Xor, Mul, Inv, Eval, QuotPoly;
    if n > 0 {
      var j := n - 1;
      QuotientsAtRoot(p, c, x, j, N, t, k);
      var v := Eval(QuotPoly(p, x(j)), Inv(x(k)), t);
      XorLaws(Mul(c(j), v), 0);
      if j != k {
        if c(j) == 0 {
          MulZero(v);
        } else {
          OtherRoot(p, x(j), x(k), t);
          MulZero(c(j));
        }
        XorLaws(QuotientsAt(p, c, x, j, Inv(x(k)), t), 0);
      }
    }
  }

  // The roots of the locator polynomial are simple.
  lemma SimpleRoot(p: Coeffs, c: Coeffs, x: Coeffs, n: nat, t: nat, k: nat)
    requires k < n && Locators(x, n) && LocatesAll(p, t, c, x, n)
    requires c(k) != 0 && p(0) == 1 && t == NonZeros(c, n)
    ensures Eval(QuotPoly(p, x(k)), Inv(x(k)), t) != 0
  {
    hide Eval, Inv, Locators, Support, NonZeros;
    var X, xs := x(k), Support(c, x, n);
    SupportRoots(p, t, c, x, n);
    SupportMembers(c, x, n, X);
    LocatorsNonZero(x, n, k);
    assert t > 0;
    var q := QuotPoly(p, X);
    if Eval(q, Inv(X), t) == 0 {
      forall m | 0 <= m < |xs|
        ensures xs[m] != 0 && Eval(q, Inv(xs[m]), t) == 0
      {
        if xs[m] != X {
          OtherRoot(p, X, xs[m], t);
        }
      }
      assert RootsAt(q, t - 1, xs);
      RootBound(q, t - 1, xs);
    }
  }

  lemma LocatorsNonZero(x: Coeffs, n: nat, k: nat)
    requires Locators(x, n) && k < n
    ensures x(k) != 0
  {}

  // Forney's formula: the value of error k, from the evaluator and the derivative.
  lemma Forney(p: Coeffs, s: Coeffs, c: Coeffs, x: Coeffs, n: nat, t: nat, k: nat, m: nat, y: bv8)
    requires k < n && Locators(x, n) && Syndromes(s, c, x, n) && LocatesAll(p, t, c, x, n)
    requires p(0) == 1 && t == NonZeros(c, n) <= 32
    requires forall i: nat :: t < i ==> p(i) == 0
    requires t < 2 * m
    requires y != 0 && c(k) == Mul(y, Exp(x(k), 112))
    ensures var z := Inv(x(k));
      Derivative(p, z, m) != 0 &&
      Eval(Evaluator(p, s), z, t) != 0 &&
      Mul(Eval(Evaluator(p, s), z, t), Exp(z, 111)) == Mul(y, Derivative(p, z, m))
  {
    hide *;
    LocatorsNonZero(x, n, k);
    var X := x(k);
    var z, e := Inv(X), Exp(X, 112);
    var den, num := Derivative(p, z, m), Eval(Evaluator(p, s), z, t);
    ExpNonZero(X, 112);
    MulNonZero(y, e);
    RootOf(p, c, x, n, t, k);
    var v := Eval(QuotPoly(p, X), z, t);
    EvaluatorAt(p, s, c, x, n, z, t);
    QuotientsAtRoot(p, c, x, n, n, t, k);
    assert num == Mul(c(k), v);
    SimpleRoot(p, c, x, n, t, k);
    QuotAtRoot(p, X, t);
    ParityCut(p, z, t + 1, 2 * m);
    DerivativeIsOddPart(p, z, m);
    assert v == Mul(z, den);
    MulZero(z);
    MulNonZero(c(k), v);
    calc {
      Mul(num, Exp(z, 111));
      Mul(Mul(Mul(y, e), Mul(z, den)), Exp(z, 111));
      { MulAssoc(Mul(y, e), Mul(z, den), Exp(z, 111)); }
      Mul(Mul(y, e), Mul(Mul(z, den), Exp(z, 111)));
      { MulComm(Mul(z, den), Exp(z, 111)); MulAssoc(Exp(z, 111), z, den); }
      Mul(Mul(y, e), Mul(Mul(Exp(z, 111), z), den));
      { ExpStep(z, 111); }
      Mul(Mul(y, e), Mul(Exp(z, 112), den));
      { MulComm(Exp(z, 112), den); MulCross(y, e, den, Exp(z, 112)); }
      Mul(Mul(y, den), Mul(e, Exp(z, 112)));
      { ExpInv(X, 112); MulOne(Mul(y, den)); }
      Mul(y, den);
    }
  }

  lemma RootOf(p: Coeffs, c: Coeffs, x: Coeffs, n: nat, t: nat, k: nat)
    requires k < n && LocatesAll(p, t, c, x, n) && c(k) != 0 && x(k) != 0
    ensures Eval(p, Inv(x(k)), t + 1) == 0
  {
    hide Eval, Inv;
  }

  lemma ExpStep(z: bv8, n: nat)
    ensures Mul(Exp(z, n), z) == Exp(z, n + 1)
  {
    hide Mul;
    MulComm(Exp(z, n), z);
  }
}
