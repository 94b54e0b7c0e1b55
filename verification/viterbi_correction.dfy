// The error-correcting power of the Viterbi decoder: a frame that was sent is decoded exactly
// when every soft value has the right sign and some strength, bad values apart, as long as
// the bad ones do not come too densely.
module ViterbiCorrection {
  import opened ViterbiCode
  import opened ViterbiSurvivors
  import ViterbiDecoder
  import BitIo

  // ----- the weight of a difference -----------------------------------------------------

  // One of the two code bits of step i.
  predicate CodeBit(u: seq<bool>, i: int, second: bool) {
    if second then CodeB(At(u, i), At(u, i - 2), At(u, i - 3), At(u, i - 5), At(u, i - 6))
    else CodeA(At(u, i), At(u, i - 1), At(u, i - 2), At(u, i - 3), At(u, i - 6))
  }

  function StepWeight(v: seq<bool>, i: int): (w: nat)
    ensures w <= 2
  {
    AsInt(CodeBit(v, i, false)) + AsInt(CodeBit(v, i, true))
  }

  // The number of code bits set in steps 1 to n - 1.
  function Weight(v: seq<bool>, n: nat): nat {
    if n <= 1 then 0 else Weight(v, n - 1) + StepWeight(v, n - 1)
  }

  function RegisterWeight(c0: bool, c1: bool, c2: bool, c3: bool, c4: bool, c5: bool, c6: bool): nat {
    AsInt(CodeA(c0, c1, c2, c3, c6)) + AsInt(CodeB(c0, c2, c3, c5, c6))
  }

  function Octal(c2: bool, c1: bool, c0: bool, x0: nat, x1: nat, x2: nat, x3: nat, x4: nat, x5: nat, x6: nat, x7: nat): nat {
    if c2 then (if c1 then (if c0 then x7 else x6) else (if c0 then x5 else x4))
    else (if c1 then (if c0 then x3 else x2) else (if c0 then x1 else x0))
  }

  // The least weight with which a difference that has left state zero can be in a state,
  // the step of leaving not counted.
  function Reach(c0: bool, c1: bool, c2: bool, c3: bool, c4: bool, c5: bool): nat {
    if c5 && c4 && c3 then Octal(c2, c1, c0, 4, 4, 5, 5, 5, 5, 4, 4)
    else if c5 && c4 && !c3 then Octal(c2, c1, c0, 5, 5, 4, 2, 6, 6, 5, 5)
    else if c5 && !c4 && c3 then Octal(c2, c1, c0, 3, 3, 2, 4, 4, 4, 5, 3)
    else if c5 && !c4 && !c3 then Octal(c2, c1, c0, 6, 6, 5, 3, 5, 5, 4, 2)
    else if !c5 && c4 && c3 then Octal(c2, c1, c0, 4, 2, 5, 5, 3, 5, 4, 4)
    else if !c5 && c4 && !c3 then Octal(c2, c1, c0, 5, 3, 4, 4, 2, 2, 3, 3)
    else if !c5 && !c4 && c3 then Octal(c2, c1, c0, 5, 3, 2, 2, 2, 4, 3, 3)
    else Octal(c2, c1, c0, 0, 0, 1, 1, 3, 1, 2, 2)
  }

  // How far weight, times four, is ahead of the number of steps spent off state zero.
  function Ahead(c0: bool, c1: bool, c2: bool, c3: bool, c4: bool, c5: bool): nat {
    if c5 && c4 && c3 then Octal(c2, c1, c0, 7, 7, 4, 8, 9, 9, 6, 7)
    else if c5 && c4 && !c3 then Octal(c2, c1, c0, 10, 10, 6, 3, 7, 7, 8, 7)
    else if c5 && !c4 && c3 then Octal(c2, c1, c0, 5, 5, 3, 6, 11, 11, 6, 7)
    else if c5 && !c4 && !c3 then Octal(c2, c1, c0, 10, 10, 9, 3, 9, 9, 7, 2)
    else if !c5 && c4 && c3 then Octal(c2, c1, c0, 10, 4, 9, 9, 4, 5, 8, 8)
    else if !c5 && c4 && !c3 then Octal(c2, c1, c0, 7, 4, 8, 8, 2, 4, 8, 8)
    else if !c5 && !c4 && c3 then Octal(c2, c1, c0, 8, 7, 5, 5, 5, 6, 5, 5)
    else Octal(c2, c1, c0, 0, 0, 3, 3, 8, 2, 6, 6)
  }

  predicate NonZero(c0: bool, c1: bool, c2: bool, c3: bool, c4: bool, c5: bool) {
    c0 || c1 || c2 || c3 || c4 || c5
  }

  // Every edge of the trellis off state zero respects both bounds.
  lemma Edges(b: bool, c0: bool, c1: bool, c2: bool, c3: bool, c4: bool, c5: bool)
    requires NonZero(c0, c1, c2, c3, c4, c5) && NonZero(b, c0, c1, c2, c3, c4)
    ensures var w := RegisterWeight(b, c0, c1, c2, c3, c4, c5);
      Reach(b, c0, c1, c2, c3, c4) <= Reach(c0, c1, c2, c3, c4, c5) + w &&
      Ahead(b, c0, c1, c2, c3, c4) + 1 <= Ahead(c0, c1, c2, c3, c4, c5) + 4 * w
  {}

  // The one edge back to state zero.
  lemma ClosingEdge()
    ensures RegisterWeight(false, false, false, false, false, false, true) == 2
    ensures Reach(false, false, false, false, false, true) == 6
    ensures Ahead(false, false, false, false, false, true) == 10
    ensures Reach(true, false, false, false, false, false) == 0
    ensures Ahead(true, false, false, false, false, false) == 0
  {}

  function ReachAt(v: seq<bool>, n: int): nat {
    Reach(At(v, n - 1), At(v, n - 2), At(v, n - 3), At(v, n - 4), At(v, n - 5), At(v, n - 6))
  }

  function AheadAt(v: seq<bool>, n: int): nat {
    Ahead(At(v, n - 1), At(v, n - 2), At(v, n - 3), At(v, n - 4), At(v, n - 5), At(v, n - 6))
  }

  // The difference has died out: the last six bits are zero.
  predicate ZeroAt(v: seq<bool>, n: int) {
    !NonZero(At(v, n - 1), At(v, n - 2), At(v, n - 3), At(v, n - 4), At(v, n - 5), At(v, n - 6))
  }

  // The difference starts at k and has not died out up to n.
  ghost predicate Alive(v: seq<bool>, k: nat, n: nat)
  {
    k < n <= |v| && v[k] && (forall i :: 0 <= i < k ==> !v[i]) && forall m :: k < m <= n ==> !ZeroAt(v, m)
  }

  lemma {:induction false} NoWeightBefore(v: seq<bool>, k: nat)
    requires k <= |v| && forall i :: 0 <= i < k ==> !v[i]
    ensures Weight(v, k) == 0
    decreases k
  {
    if k > 1 {
      NoWeightBefore(v, k - 1);
    }
  }

  lemma Leaving(v: seq<bool>, k: nat)
    requires k < |v| && v[k] && forall i :: 0 <= i < k ==> !v[i]
    ensures ReachAt(v, k + 1) == 0 && AheadAt(v, k + 1) == 0
  {
    hide Reach, Ahead;
    ClosingEdge();
  }

  lemma WeightStep(v: seq<bool>, n: nat)
    requires 2 <= n
    ensures Weight(v, n) == Weight(v, n - 1) + RegisterWeight(At(v, n - 1), At(v, n - 2), At(v, n - 3), At(v, n - 4), At(v, n - 5), At(v, n - 6), At(v, n - 7))
  {
    hide At;
  }

  // While it is alive, a difference gains weight.
  lemma {:induction false} Climb(v: seq<bool>, k: nat, n: nat)
    requires Alive(v, k, n)
    ensures Weight(v, n) >= ReachAt(v, n)
    ensures 4 * Weight(v, n) >= n - 1 - k + AheadAt(v, n)
    decreases n
  {
    hide Weight, Reach, Ahead, At, RegisterWeight, NonZero;
    if n == k + 1 {
      Leaving(v, k);
    } else {
      Climb(v, k, n - 1);
      WeightStep(v, n);
      assert !ZeroAt(v, n) && !ZeroAt(v, n - 1);
      Edges(At(v, n - 1), At(v, n - 2), At(v, n - 3), At(v, n - 4), At(v, n - 5), At(v, n - 6), At(v, n - 7));
    }
  }

  // When it dies out, it has gained at least eight.
  lemma DyingOut(v: seq<bool>, k: nat, m: nat)
    requires 1 <= m <= |v| && Alive(v, k, m - 1) && ZeroAt(v, m)
    ensures Weight(v, m) >= 8 && 4 * Weight(v, m) >= m - k + 16
  {
    hide Weight, Reach, Ahead, At, RegisterWeight;
    Climb(v, k, m - 1);
    WeightStep(v, m);
    assert !ZeroAt(v, m - 1);
    ClosingEdge();
  }

  // Follows the difference from its start until it dies out, or to n.
  lemma Excursion(v: seq<bool>, k: nat, n: nat) returns (m: nat)
    requires k < n <= |v| && v[k] && forall i :: 0 <= i < k ==> !v[i]
    ensures k + 1 <= m <= n
    ensures if ZeroAt(v, m) then k + 1 < m && Alive(v, k, m - 1) else m == n && Alive(v, k, n)
  {
    m := k + 1;
    assert At(v, k);
    while m < n && !ZeroAt(v, m)
      invariant k < m <= n && (m == k + 1 || Alive(v, k, m - 1))
      invariant !ZeroAt(v, k + 1)
    {
      m := m + 1;
    }
  }

  // ----- received strength --------------------------------------------------------------

  // How strongly a received soft value speaks for the code bit that was sent.
  function Strength(soft: seq<Byte>, u: seq<bool>, i: nat, second: bool): (m: int)
    requires 2 * i + 1 < |soft|
    ensures -128 <= m <= 128
  {
    var y := Signed(soft[if second then 2 * i + 1 else 2 * i]);
    if CodeBit(u, i, second) then -y else y
  }

  function BadStep(soft: seq<Byte>, u: seq<bool>, a: int, i: nat): (b: nat)
    requires 2 * i + 1 < |soft|
    ensures b <= 2
  {
    AsInt(Strength(soft, u, i, false) < a) + AsInt(Strength(soft, u, i, true) < a)
  }

  // The number of values weaker than a among the steps from i to j.
  function Bad(soft: seq<Byte>, u: seq<bool>, a: int, i: nat, j: nat): nat
    requires i <= j && 2 * j <= |soft|
  {
    if i == j then 0 else Bad(soft, u, a, i, j - 1) + BadStep(soft, u, a, j - 1)
  }

  // The register after step i spells the code bits of step i.
  lemma StepOutput(u: seq<bool>, i: nat)
    requires i < |u|
    ensures Output(Reg(u[..i + 1])) == AsInt(CodeBit(u, i, false)) + 2 * AsInt(CodeBit(u, i, true))
  {
    hide Output, Register, CodeA, CodeB;
    var w := u[..i + 1];
    assert At(w, i) == At(u, i) && At(w, i - 1) == At(u, i - 1) && At(w, i - 2) == At(u, i - 2) && At(w, i - 3) == At(u, i - 3);
    assert At(w, i - 4) == At(u, i - 4) && At(w, i - 5) == At(u, i - 5) && At(w, i - 6) == At(u, i - 6);
    OutputIsParity(At(u, i), At(u, i - 1), At(u, i - 2), At(u, i - 3), At(u, i - 4), At(u, i - 5), At(u, i - 6));
  }

  lemma StepCostOf(soft: seq<Byte>, u: seq<bool>, i: nat)
    requires i < |u| && 2 * i + 1 < |soft|
    ensures StepCost(soft, i, Reg(u[..i + 1])) == 510 - Strength(soft, u, i, false) - Strength(soft, u, i, true)
  {
    hide Output, Reg, CodeBit, Distance;
    StepOutput(u, i);
    DistanceLinear(Output(Reg(u[..i + 1])), soft[2 * i], soft[2 * i + 1]);
  }

  // ----- the excess of another path -----------------------------------------------------

  function Diff(u: seq<bool>, w: seq<bool>): (v: seq<bool>)
    requires |u| == |w|
    ensures |v| == |u|
  {
    seq(|u|, i requires 0 <= i < |u| => u[i] != w[i])
  }

  // The code is linear.
  lemma CodeOfDiff(u: seq<bool>, w: seq<bool>, i: nat, second: bool)
    requires |u| == |w| && i < |u|
    ensures CodeBit(Diff(u, w), i, second) == (CodeBit(u, i, second) != CodeBit(w, i, second))
  {
    DiffAt(u, w, i); DiffAt(u, w, i - 1); DiffAt(u, w, i - 2); DiffAt(u, w, i - 3); DiffAt(u, w, i - 5); DiffAt(u, w, i - 6);
    hide At, Diff;
  }

  lemma DiffAt(u: seq<bool>, w: seq<bool>, i: int)
    requires |u| == |w|
    ensures At(Diff(u, w), i) == (At(u, i) != At(w, i))
  {}

  lemma StrengthOfOther(soft: seq<Byte>, u: seq<bool>, w: seq<bool>, i: nat, second: bool)
    requires |u| == |w| && i < |u| && 2 * i + 1 < |soft|
    ensures Strength(soft, w, i, second) == if CodeBit(Diff(u, w), i, second) then -Strength(soft, u, i, second) else Strength(soft, u, i, second)
  {
    hide CodeBit, Diff;
    CodeOfDiff(u, w, i, second);
  }

  // A step of the other path costs more by at least a share for each differing code bit,
  // less what bad values can take back.
  lemma StepExcess(soft: seq<Byte>, u: seq<bool>, w: seq<bool>, a: int, i: nat)
    requires |u| == |w| && i < |u| && 2 * i + 1 < |soft| && 0 <= a
    ensures StepCost(soft, i, Reg(w[..i + 1])) - StepCost(soft, i, Reg(u[..i + 1]))
         >= 2 * (a * StepWeight(Diff(u, w), i) - (a + 128) * BadStep(soft, u, a, i))
  {
    hide CodeBit, Diff, Reg, StepCost;
    StepCostOf(soft, u, i);
    StepCostOf(soft, w, i);
    StrengthOfOther(soft, u, w, i, false);
    StrengthOfOther(soft, u, w, i, true);
    var v := Diff(u, w);
    var m0, m1 := Strength(soft, u, i, false), Strength(soft, u, i, true);
    Share(CodeBit(v, i, false), m0, a);
    Share(CodeBit(v, i, true), m1, a);
    Distribute(a, AsInt(CodeBit(v, i, false)), AsInt(CodeBit(v, i, true)));
    Distribute(a + 128, AsInt(m0 < a), AsInt(m1 < a));
  }

  lemma Share(differs: bool, m: int, a: int)
    requires -128 <= m && 0 <= a
    ensures (if differs then 2 * m else 0) >= 2 * (a * AsInt(differs) - (a + 128) * AsInt(m < a))
  {}

  lemma Distribute(a: int, x: int, y: int)
    ensures a * (x + y) == a * x + a * y
  {}

  lemma NoBadIn(soft: seq<Byte>, u: seq<bool>, a: int, k: nat)
    requires 2 * k <= |soft|
    ensures Bad(soft, u, a, k, k) == 0
  {}

  lemma BadStepAdds(soft: seq<Byte>, u: seq<bool>, a: int, i: nat, j: nat)
    requires i < j && 2 * j <= |soft|
    ensures Bad(soft, u, a, i, j) == Bad(soft, u, a, i, j - 1) + BadStep(soft, u, a, j - 1)
  {}

  lemma CostStep(soft: seq<Byte>, u: seq<bool>, n: nat)
    requires 2 <= n <= |u| && 2 * n <= |soft|
    ensures PathCost(soft, u[..n]) == PathCost(soft, u[..n - 1]) + StepCost(soft, n - 1, Reg(u[..n]))
  {
    hide StepCost, Reg;
    assert u[..n][..n - 1] == u[..n - 1];
  }

  lemma NoCost(soft: seq<Byte>, u: seq<bool>, n: nat)
    requires n <= 1 && n <= |u| && 2 * n <= |soft|
    ensures PathCost(soft, u[..n]) == 0
  {}

  lemma WeightAdds(v: seq<bool>, n: nat)
    requires 2 <= n
    ensures Weight(v, n) == Weight(v, n - 1) + StepWeight(v, n - 1)
  {}

  // Over a whole excursion.
  lemma {:induction false} Excess(soft: seq<Byte>, u: seq<bool>, w: seq<bool>, a: int, k: nat, n: nat)
    requires |u| == |w| && k <= n <= |u| && 2 * |u| <= |soft| && 0 <= a && u[..k] == w[..k]
    ensures PathCost(soft, w[..n]) - PathCost(soft, u[..n]) >= 2 * (a * Weight(Diff(u, w), n) - (a + 128) * Bad(soft, u, a, k, n))
    decreases n
  {
    hide PathCost, StepCost, Reg, Diff, Weight, StepWeight, Bad, BadStep;
    var v := Diff(u, w);
    if n == k {
      forall i | 0 <= i < k ensures !v[i] { assert u[..k][i] == w[..k][i]; DiffAt(u, w, i); }
      NoWeightBefore(v, k);
      NoBadIn(soft, u, a, k);
    } else if n == 1 {
      NoCost(soft, u, n);
      NoCost(soft, w, n);
      NoWeightBefore(v, 0);
      OneStepWeighsNothing(v);
      NotPositive(a + 128, Bad(soft, u, a, k, n));
    } else {
      Excess(soft, u, w, a, k, n - 1);
      CostStep(soft, u, n);
      CostStep(soft, w, n);
      StepExcess(soft, u, w, a, n - 1);
      WeightAdds(v, n);
      BadStepAdds(soft, u, a, k, n);
      Distribute(a, Weight(v, n - 1), StepWeight(v, n - 1));
      Distribute(a + 128, Bad(soft, u, a, k, n - 1), BadStep(soft, u, a, n - 1));
    }
  }

  lemma OneStepWeighsNothing(v: seq<bool>)
    ensures Weight(v, 1) == 0
  {}

  lemma NotPositive(a: nat, b: nat)
    ensures a * 0 - a * b <= 0
  {}

  // ----- what can be tolerated ----------------------------------------------------------

  const FIRM := 25
  const STRONG := 77

  // Every value has the right sign and some strength.
  predicate AllFirm(soft: seq<Byte>, u: seq<bool>)
    requires 2 * |u| <= |soft|
  {
    forall i, second :: 0 <= i < |u| ==> Strength(soft, u, i, second) >= FIRM
  }

  // Strong values with bad ones in between: three at once, and one more every 28 steps.
  ghost predicate BadIsSparse(soft: seq<Byte>, u: seq<bool>)
    requires 2 * |u| <= |soft|
  {
    forall i: nat, j: nat :: i <= j <= |u| ==> 28 * Bad(soft, u, STRONG, i, j) <= 84 + j - i
  }

  ghost predicate Tolerable(soft: seq<Byte>, u: seq<bool>)
    requires 2 * |u| <= |soft|
  {
    AllFirm(soft, u) || BadIsSparse(soft, u)
  }

  lemma {:induction false} FirmIsNotBad(soft: seq<Byte>, u: seq<bool>, i: nat, j: nat)
    requires i <= j <= |u| && 2 * |u| <= |soft| && AllFirm(soft, u)
    ensures Bad(soft, u, FIRM, i, j) == 0
    decreases j
  {
    hide Strength;
    if i < j {
      FirmIsNotBad(soft, u, i, j - 1);
    }
  }

  lemma EnoughWeight(w: nat, b: nat, len: nat, closed: bool)
    requires 28 * b <= 84 + len
    requires if closed then w >= 8 && 4 * w >= len + 16 else len >= 42 && 4 * w >= len - 1
    ensures STRONG * w - (STRONG + 128) * b > 0
  {
    if b <= 3 {
      if !closed { assert w >= 11; }
    } else if !closed && b == 4 {
      assert w >= 11;
    }
  }

  // A difference that has died out, or has lasted for 42 steps, makes the other path cost more.
  lemma OtherCostsMore(soft: seq<Byte>, u: seq<bool>, w: seq<bool>, k: nat, m: nat)
    requires |u| == |w| && k < m <= |u| && 2 * |u| <= |soft| && Tolerable(soft, u) && u[..k] == w[..k]
    requires var v := Diff(u, w);
      if ZeroAt(v, m) then Alive(v, k, m - 1) else Alive(v, k, m) && m - k >= 42
    ensures PathCost(soft, w[..m]) > PathCost(soft, u[..m])
  {
    hide PathCost, Bad, Weight, Strength, Diff, ZeroAt, Alive, AheadAt;
    var v := Diff(u, w);
    if ZeroAt(v, m) {
      DyingOut(v, k, m);
    } else {
      Climb(v, k, m);
    }
    if AllFirm(soft, u) {
      FirmIsNotBad(soft, u, k, m);
      Excess(soft, u, w, FIRM, k, m);
    } else {
      EnoughWeight(Weight(v, m), Bad(soft, u, STRONG, k, m), m - k, ZeroAt(v, m));
      Excess(soft, u, w, STRONG, k, m);
    }
  }

  // ----- best paths are the sent path ---------------------------------------------------

  lemma {:induction false} SameTail(soft: seq<Byte>, x: seq<bool>, y: seq<bool>, z: seq<bool>)
    requires |x| == |y| >= 1 && StateOf(x) == StateOf(y) && 2 * (|x| + |z|) <= |soft|
    ensures StateOf(x + z) == StateOf(y + z)
    ensures PathCost(soft, x + z) - PathCost(soft, x) == PathCost(soft, y + z) - PathCost(soft, y)
    decreases |z|
  {
    hide StateOf, PathCost, StepCost, Reg;
    if |z| == 0 {
      assert x + z == x && y + z == y;
    } else {
      var z0, b := z[..|z| - 1], z[|z| - 1];
      assert x + z == (x + z0) + [b] && y + z == (y + z0) + [b];
      SameTail(soft, x, y, z0);
      Extend(soft, x + z0, b);
      Extend(soft, y + z0, b);
      RegGivesState(x + z0, y + z0, b);
    }
  }

  lemma RegGivesState(x: seq<bool>, y: seq<bool>, b: bool)
    requires StateOf(x) == StateOf(y)
    ensures StateOf(x + [b]) == StateOf(y + [b])
  {
    hide StateOf, Reg, AsInt;
    var top, top' := At(x, |x| - 6), At(y, |y| - 6);
    SameTop(x, y);
    hide At;
    ShiftIn(x, b);
    ShiftIn(y, b);
  }

  lemma SameTop(x: seq<bool>, y: seq<bool>)
    requires StateOf(x) == StateOf(y)
    ensures At(x, |x| - 6) == At(y, |y| - 6)
  {
    hide At;
  }

  lemma AtPrefix(u: seq<bool>, w: seq<bool>, m: nat, d: nat)
    requires |u| == |w| && m <= |u| && 1 <= d
    ensures At(u[..m], m - d) == At(u, m - d) && At(w[..m], m - d) == At(w, m - d)
    ensures At(Diff(u, w), m - d) == (At(u, m - d) != At(w, m - d))
  {}

  lemma AtPrefixes(u: seq<bool>, w: seq<bool>, m: nat)
    requires |u| == |w| && m <= |u|
    ensures ZeroAt(Diff(u, w), m) ==
      (At(u[..m], m - 1) == At(w[..m], m - 1) && At(u[..m], m - 2) == At(w[..m], m - 2) && At(u[..m], m - 3) == At(w[..m], m - 3) &&
       At(u[..m], m - 4) == At(w[..m], m - 4) && At(u[..m], m - 5) == At(w[..m], m - 5) && At(u[..m], m - 6) == At(w[..m], m - 6))
  {
    hide At, Diff;
    AtPrefix(u, w, m, 1); AtPrefix(u, w, m, 2); AtPrefix(u, w, m, 3); AtPrefix(u, w, m, 4); AtPrefix(u, w, m, 5); AtPrefix(u, w, m, 6);
  }

  // Where the difference has died out, the states are the same.
  lemma SameState(u: seq<bool>, w: seq<bool>, m: nat)
    requires |u| == |w| && m <= |u| && ZeroAt(Diff(u, w), m)
    ensures StateOf(u[..m]) == StateOf(w[..m])
  {
    hide State, At, Diff, ZeroAt;
    AtPrefixes(u, w, m);
  }

  lemma StatesDiffer(u: seq<bool>, w: seq<bool>, m: nat)
    requires |u| == |w| && m <= |u| && StateOf(u[..m]) == StateOf(w[..m])
    ensures ZeroAt(Diff(u, w), m)
  {
    hide State, At, Diff, ZeroAt;
    var x, y := u[..m], w[..m];
    StateInjective(At(x, m - 1), At(x, m - 2), At(x, m - 3), At(x, m - 4), At(x, m - 5), At(x, m - 6),
                   At(y, m - 1), At(y, m - 2), At(y, m - 3), At(y, m - 4), At(y, m - 5), At(y, m - 6));
    AtPrefixes(u, w, m);
  }

  lemma FirstDifference(u: seq<bool>, w: seq<bool>, i: nat) returns (k: nat)
    requires |u| == |w| && i < |u| && u[i] != w[i]
    ensures k <= i && u[..k] == w[..k]
    ensures var v := Diff(u, w); v[k] && forall j :: 0 <= j < k ==> !v[j]
  {
    k := 0;
    while u[k] == w[k]
      invariant k <= i && forall j :: 0 <= j < k ==> u[j] == w[j]
      decreases i - k
    {
      k := k + 1;
    }
  }

  // Taking the sent path over an excursion makes a path to the same state that costs less.
  lemma Shortcut(soft: seq<Byte>, u: seq<bool>, w: seq<bool>, m: nat, n: nat) returns (x: seq<bool>)
    requires |u| == |w| && 1 <= m <= n <= |u| && 2 * |u| <= |soft|
    requires ZeroAt(Diff(u, w), m) && PathCost(soft, w[..m]) > PathCost(soft, u[..m])
    ensures |x| == n && StateOf(x) == StateOf(w[..n]) && PathCost(soft, x) < PathCost(soft, w[..n])
  {
    hide PathCost, StateOf, Diff;
    SameState(u, w, m);
    SameTail(soft, u[..m], w[..m], w[m..n]);
    x := u[..m] + w[m..n];
    assert w[..n] == w[..m] + w[m..n];
  }

  // A best path agrees with the sent path, its last 41 bits apart.
  lemma BestAgrees(soft: seq<Byte>, u: seq<bool>, w: seq<bool>, n: nat, i: nat)
    requires |u| == |w| && n <= |u| && 2 * |u| <= |soft| && Tolerable(soft, u)
    requires PathCost(soft, w[..n]) == MinOpt(soft, n) && i + 42 <= n
    ensures u[i] == w[i]
  {
    hide PathCost, MinOpt, StateOf, Tolerable, ZeroAt, Alive, Diff;
    if u[i] != w[i] {
      var k := FirstDifference(u, w, i);
      var m := Excursion(Diff(u, w), k, n);
      OtherCostsMore(soft, u, w, k, m);
      if ZeroAt(Diff(u, w), m) {
        var x := Shortcut(soft, u, w, m, n);
        MinOptIsMinimum(soft, x);
      } else {
        MinOptIsMinimum(soft, u[..n]);
      }
      assert false;
    }
  }

  // A best path to the sent path's final state is the sent path.
  lemma BestEndAgrees(soft: seq<Byte>, u: seq<bool>, w: seq<bool>, i: nat)
    requires |u| == |w| && 2 * |u| <= |soft| && Tolerable(soft, u) && StateOf(u) == StateOf(w) && i < |u|
    requires StateOf(w) < LiveCount(|w|) && PathCost(soft, w) == Opt(soft, |w|, StateOf(w))
    ensures u[i] == w[i]
  {
    hide PathCost, StateOf, Tolerable, ZeroAt, Alive, Diff, Opt;
    if u[i] != w[i] {
      var k := FirstDifference(u, w, i);
      var m := Excursion(Diff(u, w), k, |u|);
      assert u[..|u|] == u && w[..|u|] == w;
      StatesDiffer(u, w, |u|);
      OtherCostsMore(soft, u, w, k, m);
      var x := Shortcut(soft, u, w, m, |u|);
      OptLower(soft, x);
      assert false;
    }
  }

  // ----- sixteen bits are enough --------------------------------------------------------

  lemma StepIsCheap(soft: seq<Byte>, u: seq<bool>, a: nat, i: nat)
    requires i < |u| && 2 * i + 1 < |soft|
    ensures StepCost(soft, i, Reg(u[..i + 1])) <= 510 - 2 * a + (a + 128) * BadStep(soft, u, a, i)
  {
    hide StepCost, Reg, CodeBit;
    StepCostOf(soft, u, i);
    var m0, m1 := Strength(soft, u, i, false), Strength(soft, u, i, true);
    Distribute(a + 128, AsInt(m0 < a), AsInt(m1 < a));
  }

  // What a stretch of the sent path costs.
  lemma {:induction false} WindowCost(soft: seq<Byte>, u: seq<bool>, a: nat, i: nat, j: nat)
    requires i <= j <= |u| && 2 * |u| <= |soft| && a <= 255
    ensures PathCost(soft, u[..j]) - PathCost(soft, u[..i]) <= (510 - 2 * a) * (j - i) + (a + 128) * Bad(soft, u, a, i, j)
    decreases j
  {
    hide PathCost, StepCost, Reg, Bad, BadStep;
    if i == j {
      NoBadIn(soft, u, a, i);
    } else {
      WindowCost(soft, u, a, i, j - 1);
      BadStepAdds(soft, u, a, i, j);
      Distribute(a + 128, Bad(soft, u, a, i, j - 1), BadStep(soft, u, a, j - 1));
      Distribute(510 - 2 * a, j - 1 - i, 1);
      if j == 1 {
        NoCost(soft, u, 0);
        NoCost(soft, u, 1);
        NotNegative(510 - 2 * a, j - i, a + 128, Bad(soft, u, a, i, j));
      } else {
        CostStep(soft, u, j);
        StepIsCheap(soft, u, a, j - 1);
      }
    }
  }

  lemma NotNegative(a: nat, b: nat, c: nat, d: nat)
    ensures a * b + c * d >= 0
  {}

  lemma TolerableWindow(soft: seq<Byte>, u: seq<bool>, i: nat, j: nat)
    requires i <= j <= |u| && j - i <= 133 && 2 * |u| <= |soft| && Tolerable(soft, u)
    ensures PathCost(soft, u[..j]) - PathCost(soft, u[..i]) <= if j - i <= 127 then 58420 else 61180
  {
    hide PathCost, Bad, AllFirm;
    if AllFirm(soft, u) {
      FirmIsNotBad(soft, u, i, j);
      WindowCost(soft, u, FIRM, i, j);
    } else {
      WindowCost(soft, u, STRONG, i, j);
      assert 28 * Bad(soft, u, STRONG, i, j) <= 84 + j - i;
      assert Bad(soft, u, STRONG, i, j) <= 7;
    }
  }

  // The least cost does not grow faster than the cost of the sent path.
  lemma OptAlong(soft: seq<Byte>, u: seq<bool>, i: nat, j: nat)
    requires 6 <= i <= j <= |u| && 2 * |u| <= |soft|
    ensures Opt(soft, j, StateOf(u[..j])) <= Opt(soft, i, StateOf(u[..i])) + PathCost(soft, u[..j]) - PathCost(soft, u[..i])
  {
    hide PathCost, StateOf, Opt, BestPath;
    var s := StateOf(u[..i]);
    BestPathAttains(soft, i, s);
    var x := BestPath(soft, i, s);
    SameTail(soft, x, u[..i], u[i..j]);
    assert u[..j] == u[..i] + u[i..j];
    OptLower(soft, x + u[i..j]);
  }

  // The last renormalisation is at most 127 columns back.
  lemma {:induction false} LastBase(soft: seq<Byte>, n: nat) returns (r: nat)
    requires 6 <= n && 2 * n <= |soft|
    ensures if r == 0 then n <= 133 && Base(soft, n) == 0 else 134 <= r <= n && Base(soft, n) == MinOpt(soft, r)
    ensures r != 0 ==> n - r == (n - 6) % RENORMALIZE_INTERVAL
    ensures r == 0 ==> n - 6 == (n - 6) % RENORMALIZE_INTERVAL
    decreases n
  {
    hide MinOpt;
    if n == 6 {
      r := 0;
    } else if (n - 6) % RENORMALIZE_INTERVAL == 0 {
      r := n;
    } else {
      r := LastBase(soft, n - 1);
    }
  }

  // The errors stay far below 65535 when the sent path is cheap.
  lemma ErrorsSmall(soft: seq<Byte>, u: seq<bool>, n: nat, p: nat)
    requires 6 <= n <= |u| && 2 * |u| <= |soft| && Tolerable(soft, u) && p < 64
    ensures Opt(soft, n, p) - Base(soft, n) <= 0xFFFF - 766
  {
    hide PathCost, StateOf, Opt, MinOpt, Base, Tolerable;
    var r := LastBase(soft, n);
    var s := StateOf(u[..n]);
    StatesClose(soft, n, p, s);
    if r == 0 {
      OptLower(soft, u[..n]);
      NoCost(soft, u, 0);
      TolerableWindow(soft, u, 0, n);
    } else {
      OptAlong(soft, u, r, n);
      TolerableWindow(soft, u, r, n);
      var best := MinOptIsMin(soft, r);
      StatesClose(soft, r, StateOf(u[..r]), best);
    }
  }

  lemma {:induction false} NothingWraps(soft: seq<Byte>, u: seq<bool>, n: nat)
    requires n <= |u| <= NUM_FRAME_BITS && 2 * |u| <= |soft| && Tolerable(soft, u)
    ensures NoWrap(soft, n)
    decreases n
  {
    hide PathCost, StateOf, Opt, Base, Tolerable, Kept, StepCost;
    if n > 6 {
      NothingWraps(soft, u, n - 1);
      forall s, top | 0 <= s < 64 && Kept(n, s)
        ensures Via(soft, n, s, top) - Base(soft, n - 1) <= 0xFFFF
      {
        ErrorsSmall(soft, u, n - 1, Prev(s, top));
      }
    }
  }

  // ----- the theorem --------------------------------------------------------------------

  // A frame whose last six bits are zero, received well enough.
  ghost predicate Received(soft: seq<Byte>, u: seq<bool>)
    requires |soft| >= 2 * NUM_FRAME_BITS
  {
    |u| == NUM_FRAME_BITS && StateOf(u) == 0 && Tolerable(soft, u)
  }

  lemma GroupAgrees(soft: seq<Byte>, u: seq<bool>, bits: seq<bool>, j: nat, i: nat)
    requires |u| == |bits| + 6 && 2 * |u| <= |soft| && Tolerable(soft, u) && GroupOnBestPath(soft, bits, j) && DecisionTime(j) <= |u|
    requires TRACEBACK_LENGTH * j <= i < TRACEBACK_LENGTH * (j + 1)
    ensures bits[i] == u[i]
  {
    hide PathCost, MinOpt, Tolerable;
    var from, to, n := TRACEBACK_LENGTH * j, TRACEBACK_LENGTH * (j + 1), DecisionTime(j);
    var x: seq<bool> :| |x| == n && PathCost(soft, x) == MinOpt(soft, n) && x[from..to] == bits[from..to];
    var w := x + u[n..];
    assert w[..n] == x;
    BestAgrees(soft, u, w, n, i);
    assert x[from..to][i - from] == bits[from..to][i - from];
  }

  lemma EndAgrees(soft: seq<Byte>, u: seq<bool>, bits: seq<bool>, from: nat, i: nat)
    requires |u| == |bits| + 6 && 2 * |u| <= |soft| && Tolerable(soft, u) && StateOf(u) == 0
    requires from <= i < |bits| && EndOnBestPath(soft, bits, from)
    ensures bits[i] == u[i]
  {
    hide PathCost, Opt, Tolerable, StateOf;
    var x: seq<bool> :| |x| == |bits| + 6 && StateOf(x) == 0 && PathCost(soft, x) == Opt(soft, |x|, 0) && x[from..|bits|] == bits[from..];
    BestEndAgrees(soft, u, x, i);
    assert x[from..|bits|][i - from] == bits[from..][i - from];
  }

  // What is decided along best paths is what was sent.
  lemma DecidedIsSent(soft: seq<Byte>, u: seq<bool>, bits: seq<bool>)
    requires |soft| >= 2 * NUM_FRAME_BITS && Received(soft, u) && |bits| == NUM_FRAME_BITS - 6
    requires Decided(soft, bits, ViterbiDecoder.ROUNDS) && EndOnBestPath(soft, bits, TRACEBACK_LENGTH * ViterbiDecoder.ROUNDS)
    ensures bits == u[..|bits|]
  {
    hide Tolerable, StateOf, GroupOnBestPath, EndOnBestPath;
    forall i | 0 <= i < |bits|
      ensures bits[i] == u[i]
    {
      var j := i / TRACEBACK_LENGTH;
      if j < ViterbiDecoder.ROUNDS {
        GroupAgrees(soft, u, bits, j, i);
      } else {
        EndAgrees(soft, u, bits, TRACEBACK_LENGTH * ViterbiDecoder.ROUNDS, i);
      }
    }
  }

  // The decoder of one frame: whatever frame was sent, if it was received well enough its
  // bits come out in every whole byte.
  method VitDecode(decoder: ViterbiDecoder.Viterbi, soft: seq<Byte>, decoded: array<bv8>)
    requires decoder.Valid() && |soft| >= 2 * NUM_FRAME_BITS && decoded.Length >= ViterbiDecoder.WHOLE_BYTES
    requires decoded != decoder.fetched && decoded as object != decoder.distances && decoded as object != decoder.pairDistances
    requires decoded as object != decoder.history && decoded as object != decoder.err0 && decoded as object != decoder.err1
    modifies decoder, decoder.distances, decoder.pairDistances, decoder.history, decoder.fetched, decoder.err0, decoder.err1, decoded
    ensures decoder.Valid()
    ensures forall u :: |u| == NUM_FRAME_BITS && Received(soft, u) ==> BitIo.Bits(decoded[..ViterbiDecoder.WHOLE_BYTES]) == u[..8 * ViterbiDecoder.WHOLE_BYTES]
  {
    hide Decided, EndOnBestPath, Received, BitIo.Bits, NoWrap;
    ghost var bits := decoder.VitConvDecode(soft, decoded);
    forall u | |u| == NUM_FRAME_BITS && Received(soft, u)
      ensures BitIo.Bits(decoded[..ViterbiDecoder.WHOLE_BYTES]) == u[..8 * ViterbiDecoder.WHOLE_BYTES]
    {
      ReceivedFits(soft, u, |bits| + 6);
      DecidedIsSent(soft, u, bits);
      assert bits[..8 * ViterbiDecoder.WHOLE_BYTES] == u[..|bits|][..8 * ViterbiDecoder.WHOLE_BYTES];
    }
  }

  lemma ReceivedFits(soft: seq<Byte>, u: seq<bool>, n: nat)
    requires |soft| >= 2 * NUM_FRAME_BITS && Received(soft, u) && n <= NUM_FRAME_BITS
    ensures NoWrap(soft, n)
  {
    NothingWraps(soft, u, n);
  }

  // ----- without noise ------------------------------------------------------------------

  // A code bit at full strength: 127 for zero, -127 for one, as a byte.
  function FullStrength(b: bool): Byte {
    if b then 129 else 127
  }

  function Encode(u: seq<bool>): (soft: seq<Byte>)
    ensures |soft| == 2 * |u|
  {
    seq(2 * |u|, j requires 0 <= j < 2 * |u| => FullStrength(CodeBit(u, j / 2, j % 2 == 1)))
  }

  // What is sent without noise is received.
  lemma NoiselessIsReceived(u: seq<bool>)
    requires |u| == NUM_FRAME_BITS && StateOf(u) == 0
    ensures Received(Encode(u), u)
  {
    hide CodeBit, StateOf;
    var soft := Encode(u);
    forall i, second | 0 <= i < |u|
      ensures Strength(soft, u, i, second) >= FIRM
    {
      var j := if second then 2 * i + 1 else 2 * i;
      assert j / 2 == i && (j % 2 == 1 <==> second);
      assert soft[j] == FullStrength(CodeBit(u, i, second));
    }
  }

  // A frame that was received well enough is the one path of least cost, so no two different
  // frames can both have been.
  lemma ReceivedIsBest(soft: seq<Byte>, u: seq<bool>)
    requires |soft| >= 2 * NUM_FRAME_BITS && Received(soft, u)
    ensures u == BestPath(soft, |u|, 0)
  {
    hide PathCost, StateOf, Tolerable, Opt, BestPath;
    BestPathAttains(soft, |u|, 0);
    var w := BestPath(soft, |u|, 0);
    forall i | 0 <= i < |u|
      ensures u[i] == w[i]
    {
      BestEndAgrees(soft, u, w, i);
    }
  }
}
