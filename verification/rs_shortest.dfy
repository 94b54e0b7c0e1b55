/** What Berlekamp-Massey computes for every word, correctable or not: the shortest
    polynomial that reproduces the syndromes. Up to length 16 there is only one, so
    the outcome of ecc_decode is a matter of its degree and its roots. */
module RsShortest {
  import opened Gf256
  import opened GfPoly
  import opened RsAlgebra

  // p has constant term 1 and length at most el, and from syndrome el on each
  // syndrome follows from the el before it.
  ghost predicate Reproduces(s: Coeffs, p: Coeffs, el: nat)
  {
    p(0) == 1 &&
    (forall i: nat :: el < i ==> p(i) == 0) &&
    (forall i: nat :: el <= i < 32 ==> Conv(p, s, i) == 0)
  }

  ghost predicate Shortest(s: Coeffs, p: Coeffs, el: nat)
  {
    Reproduces(s, p, el) &&
    forall q: Coeffs, e: nat :: e < el ==> !Reproduces(s, q, e)
  }

  ghost function Degree(p: Coeffs, el: nat): (d: nat)
    ensures d <= el && (d > 0 ==> p(d) != 0) && forall i :: d < i <= el ==> p(i) == 0
  {
    if el == 0 || p(el) != 0 then el else Degree(p, el - 1)
  }

  ghost predicate IsZero(p: Coeffs, el: nat, y: bv8)
  {
    Eval(p, y, el + 1) == 0
  }

  // The nonzero roots of p in the field.
  ghost function Zeros(p: Coeffs, el: nat): (ys: set<bv8>)
    ensures forall y: bv8 :: y in ys <==> y != 0 && IsZero(p, el, y)
  {
    hide *;
    var ys := set i: nat | 1 <= i <= 255 && IsZero(p, el, Pow(i)) :: Pow(i);
    assert forall y: bv8 :: y in ys <==> y != 0 && IsZero(p, el, y) by {
      forall y: bv8
        ensures y in ys <==> y != 0 && IsZero(p, el, y)
      {
        if y != 0 {
          var _ := ExponentOf(y);
        }
        if y in ys {
          var i: nat :| 1 <= i <= 255 && Pow(i) == y;
          PowNonZero(i);
        }
      }
    }
    ys
  }

  // Every nonzero byte is a power of the primitive element.
  lemma ExponentOf(y: bv8) returns (i: nat)
    requires y != 0
    ensures 1 <= i <= 255 && Pow(i) == y
  {
    hide Pow, Idx;
    IdxIsLog(y);
    PowPeriod(0);
    i := if Idx(y) == 0 then 255 else Idx(y);
  }

  // A polynomial with as many roots as its degree locates that many errors;
  // the word is given up if it has fewer.
  ghost function Verdict(p: Coeffs, el: nat): int
  {
    if |Zeros(p, el)| == Degree(p, el) then Degree(p, el) else -1
  }

  // ----- products of three polynomials -----------------------------------------

  ghost function Delayed(s: Coeffs, m: nat): Coeffs
  {
    (u: nat) => if u < m then 0 else s(u - m)
  }

  // f + a*g
  ghost function Plus(f: Coeffs, a: bv8, g: Coeffs): Coeffs
  {
    (u: nat) => Xor(f(u), Mul(a, g(u)))
  }

  lemma {:induction false} ConvPlus(b: Coeffs, f: Coeffs, a: bv8, g: Coeffs, t: nat, k: nat)
    requires k <= t + 1
    ensures ConvTo(b, Plus(f, a, g), t, k) == Xor(ConvTo(b, f, t, k), Mul(a, ConvTo(b, g, t, k)))
    decreases k
  {
    hide Xor, Mul;
    if k == 0 {
      MulZero(a);
      XorLaws(0, 0);
    } else {
      ConvPlus(b, f, a, g, t, k - 1);
      var w, u, v := b(k - 1), f(t - (k - 1)), g(t - (k - 1));
      MulRightXor(w, u, Mul(a, v));
      MulAssoc(w, a, v);
      MulComm(w, a);
      MulAssoc(a, w, v);
      MulRightXor(a, ConvTo(b, g, t, k - 1), Mul(w, v));
      XorSwap(ConvTo(b, f, t, k - 1), Mul(a, ConvTo(b, g, t, k - 1)), Mul(w, u), Mul(a, Mul(w, v)));
    }
  }

  lemma {:induction false} PlusConv(f: Coeffs, a: bv8, g: Coeffs, s: Coeffs, t: nat, k: nat)
    requires k <= t + 1
    ensures ConvTo(Plus(f, a, g), s, t, k) == Xor(ConvTo(f, s, t, k), Mul(a, ConvTo(g, s, t, k)))
    decreases k
  {
    hide Xor, Mul;
    if k == 0 {
      MulZero(a);
      XorLaws(0, 0);
    } else {
      PlusConv(f, a, g, s, t, k - 1);
      var w, u, v := s(t - (k - 1)), f(k - 1), g(k - 1);
      MulLeftXor(u, Mul(a, v), w);
      MulAssoc(a, v, w);
      MulRightXor(a, ConvTo(g, s, t, k - 1), Mul(v, w));
      XorSwap(ConvTo(f, s, t, k - 1), Mul(a, ConvTo(g, s, t, k - 1)), Mul(u, w), Mul(a, Mul(v, w)));
    }
  }

  // A product in which only term m can be different from zero.
  lemma {:induction false} ConvOnly(a: Coeffs, f: Coeffs, t: nat, m: nat, k: nat)
    requires k <= t + 1 && m <= t
    requires forall j :: 0 <= j < k && j != m ==> a(j) == 0 || f(t - j) == 0
    ensures ConvTo(a, f, t, k) == if m < k then Mul(a(m), f(t - m)) else 0
    decreases k
  {
    hide Xor, Mul;
    if k > 0 {
      ConvOnly(a, f, t, m, k - 1);
      var u, v := a(k - 1), f(t - (k - 1));
      MulZero(u);
      MulZero(v);
      XorLaws(Mul(u, v), 0);
      XorLaws(ConvTo(a, f, t, k - 1), 0);
    }
  }

  lemma {:induction false} ConvDelayed(b: Coeffs, s: Coeffs, m: nat, t: nat, k: nat)
    requires m <= t && k <= t + 1
    ensures ConvTo(b, Delayed(s, m), t, k) == ConvTo(b, s, t - m, if k <= t - m + 1 then k else t - m + 1)
    decreases k
  {
    hide Xor, Mul;
    if k > 0 {
      ConvDelayed(b, s, m, t, k - 1);
      MulZero(b(k - 1));
      XorLaws(ConvTo(b, Delayed(s, m), t, k - 1), 0);
    }
  }

  lemma {:induction false} DelayedConv(b: Coeffs, s: Coeffs, m: nat, t: nat, k: nat)
    requires k <= t + 1
    ensures ConvTo(Delayed(b, m), s, t + m, k + m) == ConvTo(b, s, t, k)
    decreases k
  {
    hide Xor, Mul;
    if k == 0 {
      ConvOnly(Delayed(b, m), s, t + m, t + m, m);
    } else {
      DelayedConv(b, s, m, t, k - 1);
    }
  }

  // a, cut off at k, times s
  ghost function CutProduct(a: Coeffs, s: Coeffs, k: nat): Coeffs
  {
    if k == 0 then (u: nat) => 0 else Plus(CutProduct(a, s, k - 1), a(k - 1), Delayed(s, k - 1))
  }

  lemma {:induction false} CutProductIs(a: Coeffs, s: Coeffs, k: nat, u: nat)
    ensures CutProduct(a, s, k)(u) == ConvTo(a, s, u, if k <= u + 1 then k else u + 1)
    decreases k
  {
    hide Xor, Mul;
    if k > 0 {
      CutProductIs(a, s, k - 1, u);
      MulZero(a(k - 1));
      XorLaws(CutProduct(a, s, k - 1)(u), 0);
    }
  }

  lemma {:induction false} CutSwap(a: Coeffs, b: Coeffs, s: Coeffs, t: nat, k: nat)
    requires k <= t + 1
    ensures ConvTo(a, Evaluator(b, s), t, k) == Conv(b, CutProduct(a, s, k), t)
    decreases k
  {
    hide Xor, Mul;
    if k == 0 {
      ConvOnly(b, CutProduct(a, s, 0), t, 0, t + 1);
      MulZero(b(0));
    } else {
      CutSwap(a, b, s, t, k - 1);
      ConvPlus(b, CutProduct(a, s, k - 1), a(k - 1), Delayed(s, k - 1), t, t + 1);
      ConvDelayed(b, s, k - 1, t, t + 1);
    }
  }

  // a times (b times s) is b times (a times s).
  lemma ConvSwap(a: Coeffs, b: Coeffs, s: Coeffs, t: nat)
    ensures Conv(a, Evaluator(b, s), t) == Conv(b, Evaluator(a, s), t)
  {
    hide Xor, Mul, ConvTo;
    CutSwap(a, b, s, t, t + 1);
    forall u: nat | u <= t
      ensures CutProduct(a, s, t + 1)(u) == Evaluator(a, s)(u)
    {
      CutProductIs(a, s, t + 1, u);
    }
    ConvCongruence(b, b, CutProduct(a, s, t + 1), Evaluator(a, s), t, t + 1);
  }

  // ----- the iteration ends with a shortest polynomial ----------------------------

  lemma BmShortest(s: Coeffs, p: Coeffs, b: Coeffs, el: nat)
    requires BmInv(s, p, b, 33, el)
    ensures Shortest(s, p, el)
  {
    hide Xor, Mul, ConvTo;
    assert Reproduces(s, p, el);
    forall q: Coeffs, e: nat | e < el
      ensures !Reproduces(s, q, e)
    {
      if Reproduces(s, q, e) {
        forall j | 0 <= j < 32 && j != 0
          ensures q(j) == 0 || Evaluator(b, s)(31 - j) == 0
        {
          if j <= e {
            assert Conv(b, s, 31 - j) == 0;
          }
        }
        forall j | 0 <= j < 32
          ensures b(j) == 0 || Evaluator(q, s)(31 - j) == 0
        {
          if j <= 32 - el {
            assert Conv(q, s, 31 - j) == 0;
          }
        }
        MulOne(1);
        MulZero(b(0));
        MulZero(Evaluator(q, s)(31));
        ConvOnly(q, Evaluator(b, s), 31, 0, 32);
        ConvOnly(b, Evaluator(q, s), 31, 0, 32);
        ConvSwap(q, b, s, 31);
      }
    }
  }

  // ----- up to length 16 it is the only one ---------------------------------------

  lemma {:induction false} FirstNonZero(d: Coeffs, m: nat) returns (k: nat)
    requires d(m) != 0
    ensures k <= m && d(k) != 0 && forall j :: 0 <= j < k ==> d(j) == 0
  {
    k := 0;
    while k < m && d(k) == 0
      invariant k <= m && forall j :: 0 <= j < k ==> d(j) == 0
    {
      k := k + 1;
    }
  }

  // If g agrees with the syndromes from e to t-1 but not at t, then p, which agrees
  // up to the end, overlaps with g too little.
  lemma NoLateFailure(s: Coeffs, p: Coeffs, g: Coeffs, el: nat, e: nat, t: nat)
    requires Reproduces(s, p, el)
    requires g(0) == 1 && forall i: nat :: e < i ==> g(i) == 0
    requires forall i: nat :: e <= i < t ==> Conv(g, s, i) == 0
    requires el + e <= t < 32
    ensures Conv(g, s, t) == 0
  {
    hide Xor, Mul, ConvTo;
    ConvSwap(p, g, s, t);
    forall j | 0 <= j < t + 1 && j != 0
      ensures p(j) == 0 || Evaluator(g, s)(t - j) == 0
    {
      if j <= el {
        assert Conv(g, s, t - j) == 0;
      }
    }
    ConvOnly(p, Evaluator(g, s), t, 0, t + 1);
    MulOne(Evaluator(g, s)(t));
    forall j | 0 <= j < t + 1
      ensures g(j) == 0 || Evaluator(p, s)(t - j) == 0
    {
      if j <= e {
        assert Conv(p, s, t - j) == 0;
      }
    }
    ConvOnly(g, Evaluator(p, s), t, 0, t + 1);
    MulZero(Evaluator(p, s)(t));
    MulZero(g(0));
  }

  lemma {:induction false} NeverFails(s: Coeffs, p: Coeffs, g: Coeffs, el: nat, e: nat, t: nat)
    requires Reproduces(s, p, el)
    requires g(0) == 1 && forall i: nat :: e < i ==> g(i) == 0
    requires forall i: nat :: e <= i < el + e ==> Conv(g, s, i) == 0
    requires t <= 32
    ensures forall i: nat :: e <= i < t ==> Conv(g, s, i) == 0
  {
    hide Conv;
    if t > 0 {
      NeverFails(s, p, g, el, e, t - 1);
      if el + e <= t - 1 {
        NoLateFailure(s, p, g, el, e, t - 1);
      }
    }
  }

  // Where the difference of two such polynomials starts, a shorter one begins.
  lemma ShorterFromDifference(s: Coeffs, p: Coeffs, q: Coeffs, el: nat, m: nat) returns (g: Coeffs)
    requires Reproduces(s, p, el) && Reproduces(s, q, el) && 2 * el <= 32
    requires m <= el && p(m) != q(m) && forall j :: 0 <= j < m ==> p(j) == q(j)
    ensures 0 < m && Reproduces(s, g, el - m)
  {
    hide Xor, Mul, Inv, ConvTo;
    var d := Plus(p, 1, q);
    forall i: nat
      ensures d(i) == Xor(p(i), q(i)) && (d(i) == 0 <==> p(i) == q(i))
    {
      MulOne(q(i));
      XorZero(p(i), q(i));
    }
    var h: Coeffs := (i: nat) => d(i + m);
    var a := Inv(d(m));
    g := Scaled(h, a);
    MulInv(d(m));
    MulComm(d(m), a);
    MulZero(a);
    forall i: nat | el - m <= i && i + m < 32
      ensures Conv(g, s, i) == 0
    {
      ConvScaled(h, a, s, i, i + 1);
      DelayedConv(h, s, m, i, i + 1);
      ConvCongruence(Delayed(h, m), d, s, s, i + m, i + m + 1);
      PlusConv(p, 1, q, s, i + m, i + m + 1);
      assert Conv(p, s, i + m) == 0 && Conv(q, s, i + m) == 0;
      MulZero(1);
      XorLaws(0, 0);
    }
    NeverFails(s, p, g, el, el - m, 32);
  }

  lemma ShortestIsUnique(s: Coeffs, p: Coeffs, el: nat, q: Coeffs, e: nat)
    requires Shortest(s, p, el) && Shortest(s, q, e) && el <= 16
    ensures el == e && forall i: nat :: p(i) == q(i)
  {
    hide Reproduces;
    assert el == e;
    forall i: nat
      ensures p(i) == q(i)
    {
      SameCoefficient(s, p, q, el, i);
    }
  }

  lemma SameCoefficient(s: Coeffs, p: Coeffs, q: Coeffs, el: nat, i: nat)
    requires Shortest(s, p, el) && Shortest(s, q, el) && el <= 16
    ensures p(i) == q(i)
  {
    hide Conv, Xor;
    if p(i) != q(i) {
      assert i <= el;
      var d: Coeffs := (j: nat) => Xor(p(j), q(j));
      forall j: nat
        ensures d(j) == 0 <==> p(j) == q(j)
      {
        XorZero(p(j), q(j));
      }
      var m := FirstNonZero(d, i);
      var g := ShorterFromDifference(s, p, q, el, m);
    }
  }

  // ----- its verdict ------------------------------------------------------------------

  lemma {:induction false} EvalCongruence(p: Coeffs, q: Coeffs, y: bv8, n: nat)
    requires forall i: nat :: p(i) == q(i)
    ensures Eval(p, y, n) == Eval(q, y, n)
  {
    hide Xor, Mul, Exp;
    if n > 0 {
      EvalCongruence(p, q, y, n - 1);
    }
  }

  lemma {:induction false} DegreeIs(p: Coeffs, el: nat, d: nat)
    requires d <= el && (d > 0 ==> p(d) != 0) && forall i :: d < i <= el ==> p(i) == 0
    ensures Degree(p, el) == d
  {}

  // All that matters of a polynomial is its coefficients.
  lemma SameVerdict(p: Coeffs, q: Coeffs, el: nat)
    requires forall i: nat :: p(i) == q(i)
    ensures Degree(p, el) == Degree(q, el)
    ensures Zeros(p, el) == Zeros(q, el)
    ensures Verdict(p, el) == Verdict(q, el)
  {
    hide Eval;
    DegreeIs(p, el, Degree(q, el));
    forall y: bv8
      ensures IsZero(p, el, y) <==> IsZero(q, el, y)
    {
      EvalCongruence(p, q, y, el + 1);
    }
    assert Zeros(p, el) == Zeros(q, el);
  }

  // The roots counted over the exponents 1 to 255 of the primitive element.
  ghost function PowersAt(root: seq<nat>): (ys: set<bv8>)
  {
    set i | i in root :: Pow(i)
  }

  lemma {:induction false} PowersDiffer(root: seq<nat>)
    requires forall k :: 0 <= k < |root| ==> 1 <= root[k] <= 255
    requires forall k, l :: 0 <= k < l < |root| ==> root[k] != root[l]
    ensures |PowersAt(root)| == |root|
  {
    hide Pow;
    if |root| > 0 {
      var n := |root| - 1;
      PowersDiffer(root[..n]);
      assert root == root[..n] + [root[n]];
      assert PowersAt(root) == PowersAt(root[..n]) + {Pow(root[n])};
      PowerIsNew(root, n);
    }
  }

  lemma PowerIsNew(root: seq<nat>, n: nat)
    requires n < |root| && forall k :: 0 <= k < |root| ==> 1 <= root[k] <= 255
    requires forall k, l :: 0 <= k < l < |root| ==> root[k] != root[l]
    ensures Pow(root[n]) !in PowersAt(root[..n])
  {
    hide Pow;
    if Pow(root[n]) in PowersAt(root[..n]) {
      var i :| i in root[..n] && Pow(i) == Pow(root[n]);
      PowInjective(i, root[n]);
      var k :| 0 <= k < n && root[k] == i;
      assert root[k] != root[n];
      SmallResidues(root[k], root[n]);
    }
  }

  lemma SmallResidues(a: nat, b: nat)
    requires 1 <= a <= 255 && 1 <= b <= 255 && a % 255 == b % 255
    ensures a == b
  {}

  // If the exponents listed are those of all roots, there are that many roots.
  lemma ZerosCounted(p: Coeffs, el: nat, root: seq<nat>)
    requires forall k :: 0 <= k < |root| ==> 1 <= root[k] <= 255 && IsZero(p, el, Pow(root[k]))
    requires forall k, l :: 0 <= k < l < |root| ==> root[k] != root[l]
    requires forall i: nat :: 1 <= i <= 255 && IsZero(p, el, Pow(i)) ==> i in root
    ensures |Zeros(p, el)| == |root|
  {
    hide Pow, IsZero, Idx;
    PowersDiffer(root);
    forall y: bv8
      ensures y in Zeros(p, el) <==> y in PowersAt(root)
    {
      if y in Zeros(p, el) {
        var i := ExponentOf(y);
        assert IsZero(p, el, Pow(i));
      }
      if y in PowersAt(root) {
        var i :| i in root && Pow(i) == y;
        PowNonZero(i);
      }
    }
    assert Zeros(p, el) == PowersAt(root);
  }

  // The exponents below n at which p is zero.
  ghost function Exponents(p: Coeffs, el: nat, n: nat): (root: seq<nat>)
    ensures forall k :: 0 <= k < |root| ==> 1 <= root[k] < n && IsZero(p, el, Pow(root[k]))
    ensures forall k, l :: 0 <= k < l < |root| ==> root[k] != root[l]
    ensures forall i: nat :: 1 <= i < n && IsZero(p, el, Pow(i)) ==> i in root
  {
    if n <= 1 then []
    else Exponents(p, el, n - 1) + (if IsZero(p, el, Pow(n - 1)) then [n - 1] else [])
  }

  lemma InverseTwice(y: bv8)
    requires y != 0
    ensures Inv(y) != 0 && Inv(Inv(y)) == y
  {
    hide Inv, Mul;
    MulInv(y);
    MulZero(y);
    var z := Inv(y);
    MulInv(z);
    MulComm(y, z);
    MulAssoc(y, z, Inv(z));
    MulOne(y);
    MulOne(Inv(z));
  }

  // So a word is given up exactly if its shortest polynomial has fewer roots than
  // its degree.
  lemma VerdictIs(s: Coeffs, p: Coeffs, el: nat)
    requires Reproduces(s, p, el)
    ensures |Zeros(p, el)| <= Degree(p, el)
    ensures Verdict(p, el) == -1 <==> |Zeros(p, el)| < Degree(p, el)
    ensures Verdict(p, el) != -1 ==> Verdict(p, el) == Degree(p, el)
  {
    hide Eval, Inv, Conv, Pow, IsZero, Exponents;
    var d, root := Degree(p, el), Exponents(p, el, 256);
    ZerosCounted(p, el, root);
    var xs := seq(|root|, k requires 0 <= k < |root| => Inverse(Pow(root[k])));
    forall k | 0 <= k < |xs|
      ensures xs[k] != 0 && Inv(xs[k]) == Pow(root[k]) && Eval(p, Inv(xs[k]), d + 1) == 0
    {
      PowNonZero(root[k]);
      InverseTwice(Pow(root[k]));
      ZeroCut(p, el, d, Pow(root[k]));
    }
    forall k, l | 0 <= k < l < |xs|
      ensures xs[k] != xs[l]
    {
      if Pow(root[k]) == Pow(root[l]) {
        PowInjective(root[k], root[l]);
        SmallResidues(root[k], root[l]);
      }
    }
    assert RootsAt(p, d, xs);
    RootBound(p, d, xs);
  }

  lemma ZeroCut(p: Coeffs, el: nat, d: nat, y: bv8)
    requires d <= el && IsZero(p, el, y) && forall i :: d < i <= el ==> p(i) == 0
    ensures Eval(p, y, d + 1) == 0
  {
    hide Eval;
    EvalCut(p, y, d + 1, el + 1);
  }

  ghost function Inverse(y: bv8): bv8
  {
    if y == 0 then 0 else Inv(y)
  }

  // ----- an example: 1 + x^2 = (1 + x)^2 has one root, not two ----------------------

  ghost predicate Alternating(s: Coeffs)
  {
    forall i: nat :: i < 32 ==> s(i) == if i % 2 == 0 then 1 else 0
  }

  ghost function OnePlusSquare(): Coeffs
  {
    (i: nat) => if i == 0 || i == 2 then 1 else 0
  }

  lemma {:induction false} ConvSparse(s: Coeffs, t: nat, k: nat)
    requires 2 <= t && 3 <= k <= t + 1
    ensures ConvTo(OnePlusSquare(), s, t, k) == Xor(s(t), s(t - 2))
    decreases k
  {
    hide Xor, Mul;
    var p := OnePlusSquare();
    if k == 3 {
      assert ConvTo(p, s, t, 1) == Xor(0, Mul(1, s(t)));
      assert ConvTo(p, s, t, 2) == Xor(ConvTo(p, s, t, 1), Mul(0, s(t - 1)));
      MulOne(s(t));
      MulOne(s(t - 2));
      MulZero(s(t - 1));
      XorLaws(s(t), 0);
    } else {
      ConvSparse(s, t, k - 1);
      MulZero(s(t - (k - 1)));
      XorLaws(Xor(s(t), s(t - 2)), 0);
    }
  }

  lemma NoShorter(s: Coeffs, q: Coeffs, e: nat)
    requires Alternating(s) && e < 2
    ensures !Reproduces(s, q, e)
  {
    hide Xor, Mul;
    if Reproduces(s, q, e) {
      assert Conv(q, s, 2) == 0;
      ConvOnly(q, s, 2, 0, 3);
      MulOne(1);
    }
  }

  lemma SquareRoot(y: bv8)
    requires IsZero(OnePlusSquare(), 2, y)
    ensures y == 1
  {
    hide Xor, Mul;
    var p := OnePlusSquare();
    assert Eval(p, y, 1) == Xor(0, Mul(1, 1));
    assert Eval(p, y, 2) == Xor(Eval(p, y, 1), Mul(0, Exp(y, 1)));
    assert Exp(y, 1) == Mul(y, Exp(y, 0)) && Exp(y, 2) == Mul(y, Exp(y, 1));
    assert Eval(p, y, 3) == Xor(Eval(p, y, 2), Mul(1, Exp(y, 2)));
    MulOne(1);
    MulOne(y);
    MulZero(Exp(y, 1));
    XorLaws(1, 0);
    MulOne(Mul(y, y));
    var u := Xor(1, y);
    XorZero(1, y);
    XorZero(1, Mul(y, y));
    MulLeftXor(1, y, u);
    MulRightXor(y, 1, y);
    MulOne(u);
    XorAssoc(1, y, Xor(y, Mul(y, y)));
    XorAssoc(y, y, Mul(y, y));
    XorLaws(y, y);
    XorLaws(Mul(y, y), 0);
    if u != 0 {
      MulNonZero(u, u);
    }
  }

  // A word with these syndromes is given up.
  lemma DoubleRootGivenUp(s: Coeffs)
    requires Alternating(s)
    ensures Shortest(s, OnePlusSquare(), 2) && Verdict(OnePlusSquare(), 2) == -1
  {
    hide Eval, ConvTo, Xor, Mul;
    var p := OnePlusSquare();
    forall i: nat | 2 <= i < 32
      ensures Conv(p, s, i) == 0
    {
      ConvSparse(s, i, i + 1);
      XorLaws(s(i), s(i));
    }
    forall q: Coeffs, e: nat | e < 2
      ensures !Reproduces(s, q, e)
    {
      NoShorter(s, q, e);
    }
    forall y | y in Zeros(p, 2)
      ensures y == 1
    {
      SquareRoot(y);
    }
    AtMostOne(Zeros(p, 2), 1);
    VerdictIs(s, p, 2);
  }

  lemma AtMostOne<T>(ys: set<T>, a: T)
    requires forall y :: y in ys ==> y == a
    ensures |ys| <= 1
  {
    assert {a} == ys + ({a} - ys);
    assert ys !! ({a} - ys);
  }
}
