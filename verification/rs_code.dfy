/** The (255,223) code of meteor_ecc.cc: a word is a codeword when its 32
    syndromes vanish. */
module RsCode {
  import opened Gf256
  import opened GfPoly
  import opened RsAlgebra

  // Evaluation as ecc_decode does it, first byte first.
  ghost function Horner(w: seq<bv8>, beta: bv8): bv8
  {
    if |w| == 0 then 0
    else Xor(Mul(Horner(w[..|w| - 1], beta), beta), w[|w| - 1])
  }

  ghost function Syndrome(w: seq<bv8>, i: nat): bv8
  {
    Horner(w, Pow(11 * (112 + i)))
  }

  ghost predicate IsCodeword(w: seq<bv8>)
  {
    forall i :: 0 <= i < 32 ==> Syndrome(w, i) == 0
  }

  // The number of positions in which two words differ.
  ghost function Distance(a: seq<bv8>, b: seq<bv8>): nat
    requires |a| == |b|
  {
    if |a| == 0 then 0
    else Distance(a[..|a| - 1], b[..|b| - 1]) + (if a[|a| - 1] != b[|b| - 1] then 1 else 0)
  }

  ghost function Difference(a: seq<bv8>, b: seq<bv8>): seq<bv8>
    requires |a| == |b|
  {
    seq(|a|, j requires 0 <= j < |a| => Xor(a[j], b[j]))
  }

  // ----- positions and locators ------------------------------------------------

  // Byte j of an n-byte word is the coefficient of x^(n-1-j).
  ghost function Locator(n: nat): Coeffs
  {
    (j: nat) => if j < n then Pow(11 * (n - 1 - j)) else 1
  }

  ghost function Weight(w: seq<bv8>): Coeffs
  {
    (j: nat) => if j < |w| then Mul(w[j], Exp(Locator(|w|)(j), 112)) else 0
  }

  lemma LogOfLocator(a: nat, b: nat)
    requires a < 255 && b < 255 && (11 * a) % 255 == (11 * b) % 255
    ensures a == b
  {
    // 11 * 116 == 5 * 255 + 1
    var q := 11 * a / 255 - 11 * b / 255;
    assert 11 * (a - b) == 255 * q;
    assert a - b == 255 * (116 * q - 5 * (a - b));
  }

  lemma LocatorsDiffer(n: nat)
    requires n <= 255
    ensures Locators(Locator(n), n)
  {
    hide Pow;
    forall j | 0 <= j < n
      ensures Locator(n)(j) != 0
    {
      PowNonZero(11 * (n - 1 - j));
    }
    forall j, k | 0 <= j < k < n
      ensures Locator(n)(j) != Locator(n)(k)
    {
      if Locator(n)(j) == Locator(n)(k) {
        PowInjective(11 * (n - 1 - j), 11 * (n - 1 - k));
        LogOfLocator(n - 1 - j, n - 1 - k);
      }
    }
  }

  // ----- syndromes are power sums ------------------------------------------------

  // sum of w[j] * beta^(e-j) over j < |w|
  ghost function Terms(w: seq<bv8>, beta: bv8, e: nat): bv8
    requires |w| <= e + 1
  {
    if |w| == 0 then 0
    else Xor(Terms(w[..|w| - 1], beta, e), Mul(w[|w| - 1], Exp(beta, e - (|w| - 1))))
  }

  lemma {:induction false} TermsShift(w: seq<bv8>, beta: bv8, e: nat)
    requires |w| <= e + 1
    ensures Terms(w, beta, e + 1) == Mul(Terms(w, beta, e), beta)
  {
    hide Xor, Mul;
    if |w| == 0 {
      MulZero(beta);
    } else {
      var m := |w| - 1;
      TermsShift(w[..m], beta, e);
      var x := Exp(beta, e - m);
      MulLeftXor(Terms(w[..m], beta, e), Mul(w[m], x), beta);
      MulAssoc(w[m], x, beta);
      MulComm(x, beta);
    }
  }

  lemma {:induction false} HornerIsTerms(w: seq<bv8>, beta: bv8)
    requires |w| > 0
    ensures Horner(w, beta) == Terms(w, beta, |w| - 1)
  {
    hide Xor, Mul;
    var m := |w| - 1;
    assert Exp(beta, 0) == 1;
    MulOne(w[m]);
    if m == 0 {
      MulZero(beta);
    } else {
      HornerIsTerms(w[..m], beta);
      TermsShift(w[..m], beta, m - 1);
    }
  }

  lemma TermIsPower(w: seq<bv8>, j: nat, n: nat, i: nat)
    requires j < |w| <= n
    ensures Mul(w[j], Exp(Pow(11 * (112 + i)), n - 1 - j))
         == Mul(Mul(w[j], Exp(Locator(n)(j), 112)), Exp(Locator(n)(j), i))
  {
    hide Xor, Mul, Pow, Exp;
    var k := n - 1 - j;
    var x := Locator(n)(j);
    ExpOfPow(11 * (112 + i), k);
    ExpOfPow(11 * k, 112 + i);
    assert 11 * (112 + i) * k == 11 * k * (112 + i);
    ExpAdd(x, 112, i);
    MulAssoc(w[j], Exp(x, 112), Exp(x, i));
  }

  lemma {:induction false} TermsArePowerSum(w: seq<bv8>, c: Coeffs, m: nat, i: nat)
    requires m <= |w| && |w| > 0
    requires forall j :: 0 <= j < m ==> c(j) == Mul(w[j], Exp(Locator(|w|)(j), 112))
    ensures Terms(w[..m], Pow(11 * (112 + i)), |w| - 1) == PowerSum(c, Locator(|w|), m, i)
  {
    hide Xor, Mul, Pow, Exp, Locator;
    if m > 0 {
      TermsArePowerSum(w, c, m - 1, i);
      TermIsPower(w, m - 1, |w|, i);
      assert w[..m][..m - 1] == w[..m - 1];
    }
  }

  lemma SyndromeIsPowerSum(w: seq<bv8>, i: nat)
    requires |w| > 0
    ensures Syndrome(w, i) == PowerSum(Weight(w), Locator(|w|), |w|, i)
  {
    hide Xor, Mul, Pow, Exp, Horner, Terms, PowerSum, Locator;
    HornerIsTerms(w, Pow(11 * (112 + i)));
    TermsArePowerSum(w, Weight(w), |w|, i);
    assert w[..|w|] == w;
  }

  // ----- adding a codeword does not change the syndromes ---------------------------

  lemma {:induction false} HornerDifference(a: seq<bv8>, b: seq<bv8>, beta: bv8)
    requires |a| == |b|
    ensures Horner(Difference(a, b), beta) == Xor(Horner(a, beta), Horner(b, beta))
  {
    hide Xor, Mul;
    if |a| == 0 {
      XorLaws(0, 0);
    } else {
      var m := |a| - 1;
      HornerDifference(a[..m], b[..m], beta);
      assert Difference(a, b)[..m] == Difference(a[..m], b[..m]);
      var u, v := Horner(a[..m], beta), Horner(b[..m], beta);
      MulLeftXor(u, v, beta);
      XorSwap(Mul(u, beta), Mul(v, beta), a[m], b[m]);
    }
  }

  // The errors of a received word against a codeword explain its syndromes.
  lemma ErrorSyndromes(d: seq<bv8>, c: seq<bv8>, s: Coeffs)
    requires |d| == |c| > 0 && IsCodeword(c)
    requires forall i :: 0 <= i < 32 ==> s(i) == Syndrome(d, i)
    ensures Syndromes(s, Weight(Difference(d, c)), Locator(|d|), |d|)
  {
    hide Xor, Mul, Pow, Horner, PowerSum, Weight, Difference, Locator;
    var e := Difference(d, c);
    assert |e| == |d| by { DifferenceLength(d, c); }
    forall i | 0 <= i < 32
      ensures s(i) == PowerSum(Weight(e), Locator(|d|), |d|, i)
    {
      HornerDifference(d, c, Pow(11 * (112 + i)));
      assert Syndrome(c, i) == 0;
      XorLaws(Syndrome(d, i), 0);
      SyndromeIsPowerSum(e, i);
    }
  }

  lemma DifferenceLength(d: seq<bv8>, c: seq<bv8>)
    requires |d| == |c|
    ensures |Difference(d, c)| == |d|
  {}

  lemma WeightZero(d: seq<bv8>, c: seq<bv8>, j: nat)
    requires |d| == |c| && j < |d|
    ensures Weight(Difference(d, c))(j) == Mul(Xor(d[j], c[j]), Exp(Locator(|d|)(j), 112))
    ensures Weight(Difference(d, c))(j) == 0 <==> d[j] == c[j]
  {
    hide Xor, Mul, Pow, Exp;
    var x := Locator(|d|)(j);
    PowNonZero(11 * (|d| - 1 - j));
    ExpNonZero(x, 112);
    XorZero(d[j], c[j]);
    MulZero(Exp(x, 112));
    if d[j] != c[j] {
      MulNonZero(Xor(d[j], c[j]), Exp(x, 112));
    }
  }

  lemma DistanceEmpty(a: seq<bv8>, b: seq<bv8>)
    requires |a| == |b| == 0
    ensures Distance(a, b) == 0
  {}

  lemma DistanceStep(a: seq<bv8>, b: seq<bv8>)
    requires |a| == |b| > 0
    ensures Distance(a, b) == Distance(a[..|a| - 1], b[..|b| - 1]) + (if a[|a| - 1] != b[|b| - 1] then 1 else 0)
  {}

  lemma {:induction false} DistancePrefix(d: seq<bv8>, c: seq<bv8>, m: nat)
    requires |d| == |c| && m <= |d|
    ensures NonZeros(Weight(Difference(d, c)), m) == Distance(d[..m], c[..m])
  {
    hide Weight, Difference, Locator, Distance, Mul, Xor, Exp;
    if m == 0 {
      DistanceEmpty(d[..0], c[..0]);
    } else {
      DistancePrefix(d, c, m - 1);
      WeightZero(d, c, m - 1);
      DistanceStep(d[..m], c[..m]);
      assert d[..m][..m - 1] == d[..m - 1] && c[..m][..m - 1] == c[..m - 1];
    }
  }

  lemma DistanceIsWeight(d: seq<bv8>, c: seq<bv8>)
    requires |d| == |c|
    ensures NonZeros(Weight(Difference(d, c)), |d|) == Distance(d, c)
  {
    hide Weight, Difference, NonZeros, Distance;
    DistancePrefix(d, c, |d|);
    assert d[..|d|] == d && c[..|c|] == c;
  }

  // Two different codewords differ in at least 33 positions.
  lemma MinimumDistance(a: seq<bv8>, b: seq<bv8>)
    requires |a| == |b| <= 255 && IsCodeword(a) && IsCodeword(b) && a != b
    ensures Distance(a, b) >= 33
  {
    hide Xor, Mul, Pow, Exp, Weight, Difference, Locator, Syndrome, NonZeros, Distance, PowerSum;
    var n, w, x := |a|, Weight(Difference(a, b)), Locator(|a|);
    var zero: Coeffs := (i: nat) => 0;
    DistanceIsWeight(a, b);
    if Distance(a, b) <= 32 {
      ErrorSyndromes(a, b, zero);
      LocatorsDiffer(n);
      forall i | 0 <= i < 0 + 32
        ensures PowerSum(w, x, n, i) == 0
      {
        assert zero(i) == 0;
      }
      Vandermonde(w, x, n, 0, 32);
      forall j | 0 <= j < n
        ensures a[j] == b[j]
      {
        WeightZero(a, b, j);
      }
    }
  }
}
