// The rate 1/2, constraint length 7 code of meteor_viterbi.cc and its soft-decision path metric:
// what the decoder's tables mean, what a path through the trellis costs, and the least cost of
// reaching a state, as a recurrence and as a minimum over all inputs.
module ViterbiCode {

  // ----- the output table ---------------------------------------------------------------

  const VITERBI27_POLYA: bv32 := 79
  const VITERBI27_POLYB: bv32 := 109

  // The bits of a 32-bit word, counted in parallel.
  function CountBits(i: bv32): bv32 {
    var pairs := i - ((i >> 1) & 0x5555_5555);
    var nibbles := (pairs & 0x3333_3333) + ((pairs >> 2) & 0x3333_3333);
    (((nibbles + (nibbles >> 4)) & 0x0F0F_0F0F) * 0x0101_0101) >> 24
  }

  function BitOr(w: bv32, b: bool): bv32 {
    (w << 1) | (if b then 1 else 0)
  }

  // The machine word that holds a small number.
  function Word(i: nat): bv32 {
    if i == 0 then 0 else BitOr(Word(i / 2), i % 2 == 1)
  }

  predicate Tap(poly: bv32, r: nat) {
    CountBits(Word(r) & poly) & 1 == 1
  }

  // An entry of table_: the two code bits for a shift register.
  function Output(r: nat): (o: nat)
    ensures o < 4
  {
    (if Tap(VITERBI27_POLYA, r) then 1 else 0) + (if Tap(VITERBI27_POLYB, r) then 2 else 0)
  }

  function AsInt(b: bool): (i: int)
    ensures 0 <= i <= 1
  {
    if b then 1 else 0
  }

  // A register from its bits, newest first.
  function Register(c0: bool, c1: bool, c2: bool, c3: bool, c4: bool, c5: bool, c6: bool): nat {
    AsInt(c0) + 2 * (AsInt(c1) + 2 * (AsInt(c2) + 2 * (AsInt(c3) + 2 * (AsInt(c4) + 2 * (AsInt(c5) + 2 * AsInt(c6))))))
  }

  predicate CodeA(c0: bool, c1: bool, c2: bool, c3: bool, c6: bool) {
    c0 != (c1 != (c2 != (c3 != c6)))
  }

  predicate CodeB(c0: bool, c2: bool, c3: bool, c5: bool, c6: bool) {
    c0 != (c2 != (c3 != (c5 != c6)))
  }

  lemma NoBits()
    ensures BitOr(0, false) == 0
  {}

  lemma WordStep(i: nat, b: bool)
    ensures Word(2 * i + AsInt(b)) == BitOr(Word(i), b)
  {
    hide BitOr;
    NoBits();
    var r := 2 * i + AsInt(b);
    assert r / 2 == i && (r % 2 == 1 <==> b);
  }

  lemma RegisterWord(c0: bool, c1: bool, c2: bool, c3: bool, c4: bool, c5: bool, c6: bool)
    ensures Word(Register(c0, c1, c2, c3, c4, c5, c6))
         == BitOr(BitOr(BitOr(BitOr(BitOr(BitOr(BitOr(0, c6), c5), c4), c3), c2), c1), c0)
  {
    hide Word, BitOr;
    var r6 := AsInt(c6);
    var r5 := 2 * r6 + AsInt(c5);
    var r4 := 2 * r5 + AsInt(c4);
    var r3 := 2 * r4 + AsInt(c3);
    var r2 := 2 * r3 + AsInt(c2);
    var r1 := 2 * r2 + AsInt(c1);
    WordOfZero();
    WordStep(0, c6); WordStep(r6, c5); WordStep(r5, c4); WordStep(r4, c3); WordStep(r3, c2); WordStep(r2, c1); WordStep(r1, c0);
  }

  lemma WordOfZero()
    ensures Word(0) == 0
  {}

  lemma TapParity(c0: bool, c1: bool, c2: bool, c3: bool, c4: bool, c5: bool, c6: bool)
    ensures var w := BitOr(BitOr(BitOr(BitOr(BitOr(BitOr(BitOr(0, c6), c5), c4), c3), c2), c1), c0);
      (CountBits(w & VITERBI27_POLYA) & 1 == 1 <==> CodeA(c0, c1, c2, c3, c6)) &&
      (CountBits(w & VITERBI27_POLYB) & 1 == 1 <==> CodeB(c0, c2, c3, c5, c6))
  {}

  // The table is the convolutional code: each output bit is the parity of the tapped inputs.
  lemma OutputIsParity(c0: bool, c1: bool, c2: bool, c3: bool, c4: bool, c5: bool, c6: bool)
    ensures Output(Register(c0, c1, c2, c3, c4, c5, c6)) == AsInt(CodeA(c0, c1, c2, c3, c6)) + 2 * AsInt(CodeB(c0, c2, c3, c5, c6))
  {
    hide Word, CountBits, BitOr, Register, CodeA, CodeB;
    RegisterWord(c0, c1, c2, c3, c4, c5, c6);
    TapParity(c0, c1, c2, c3, c4, c5, c6);
  }

  function Half(r: nat): nat {
    r / 2
  }

  predicate Odd(r: nat) {
    r % 2 == 1
  }

  lemma Halve(r: nat, k: nat)
    requires r < 2 * k
    ensures r == AsInt(Odd(r)) + 2 * Half(r) && Half(r) < k
  {}

  lemma RegisterOfBits(r: nat) returns (c0: bool, c1: bool, c2: bool, c3: bool, c4: bool, c5: bool, c6: bool)
    requires r < 128
    ensures r == Register(c0, c1, c2, c3, c4, c5, c6)
  {
    var r1 := Half(r);
    var r2 := Half(r1);
    var r3 := Half(r2);
    var r4 := Half(r3);
    var r5 := Half(r4);
    var r6 := Half(r5);
    c0, c1, c2, c3, c4, c5, c6 := Odd(r), Odd(r1), Odd(r2), Odd(r3), Odd(r4), Odd(r5), Odd(r6);
    assert r == AsInt(c0) + 2 * r1 && r1 == AsInt(c1) + 2 * r2 && r2 == AsInt(c2) + 2 * r3 && r3 == AsInt(c3) + 2 * r4
        && r4 == AsInt(c4) + 2 * r5 && r5 == AsInt(c5) + 2 * r6 && r6 == AsInt(c6) by {
      hide Half, Odd, AsInt;
      Halve(r, 64); Halve(r1, 32); Halve(r2, 16); Halve(r3, 8); Halve(r4, 4); Halve(r5, 2); Halve(r6, 1);
    }
    RegisterSum(r, r1, r2, r3, r4, r5, r6, c0, c1, c2, c3, c4, c5, c6);
  }

  lemma RegisterSum(r: nat, r1: nat, r2: nat, r3: nat, r4: nat, r5: nat, r6: nat, c0: bool, c1: bool, c2: bool, c3: bool, c4: bool, c5: bool, c6: bool)
    requires r == AsInt(c0) + 2 * r1 && r1 == AsInt(c1) + 2 * r2 && r2 == AsInt(c2) + 2 * r3 && r3 == AsInt(c3) + 2 * r4
    requires r4 == AsInt(c4) + 2 * r5 && r5 == AsInt(c5) + 2 * r6 && r6 == AsInt(c6)
    ensures r == Register(c0, c1, c2, c3, c4, c5, c6)
  {}

  function Complement(o: nat): nat
    requires o < 4
  {
    3 - o
  }

  // Both taps hold bits 0 and 6, so flipping the newest or the oldest bit flips both outputs.
  lemma NewestFlipsBoth(s: nat)
    requires s < 64
    ensures Output(2 * s + 1) == Complement(Output(2 * s))
  {
    hide Output, Tap;
    var c0, c1, c2, c3, c4, c5, c6 := RegisterOfBits(2 * s);
    OutputIsParity(false, c1, c2, c3, c4, c5, c6);
    OutputIsParity(true, c1, c2, c3, c4, c5, c6);
    FlipNewest(c0, c1, c2, c3, c4, c5, c6, s);
  }

  lemma FlipNewest(c0: bool, c1: bool, c2: bool, c3: bool, c4: bool, c5: bool, c6: bool, s: nat)
    requires 2 * s == Register(c0, c1, c2, c3, c4, c5, c6)
    ensures !c0 && Register(true, c1, c2, c3, c4, c5, c6) == 2 * s + 1
  {}

  // ----- the branch metric --------------------------------------------------------------

  type Byte = b: int | 0 <= b < 256

  // A byte read as a signed one: the same number modulo 256, from -128 to 127.
  function Signed(b: Byte): (v: int)
    ensures -128 <= v < 128 && (v - b) % 256 == 0
  {
    if b < 128 then b else b - 256
  }

  function Abs(x: int): int {
    if x < 0 then -x else x
  }

  const SOFT_MAX := 255

  // What a hard bit looks like at full strength: zero is positive.
  function Full(b: bool): int {
    if b then -SOFT_MAX else SOFT_MAX
  }

  // The distance of a received pair of soft values from a hard pair.
  function Distance(hard: nat, y0: Byte, y1: Byte): (d: int)
    requires hard < 4
    ensures 254 <= d <= 766
  {
    Abs(Signed(y0) - Full(hard % 2 == 1)) + Abs(Signed(y1) - Full(hard / 2 == 1))
  }

  // The metric is linear in the soft values, and complementary pairs sum to a constant.
  lemma DistanceLinear(hard: nat, y0: Byte, y1: Byte)
    requires hard < 4
    ensures Distance(hard, y0, y1) == 510 - (if hard % 2 == 1 then -Signed(y0) else Signed(y0)) - (if hard / 2 == 1 then -Signed(y1) else Signed(y1))
    ensures Distance(hard, y0, y1) + Distance(Complement(hard), y0, y1) == 1020
  {}

  // ----- paths --------------------------------------------------------------------------

  // The i-th input bit; zeros come before the first.
  predicate At(u: seq<bool>, i: int) {
    0 <= i < |u| && u[i]
  }

  // The register after shifting in all of u: the newest seven bits.
  function Reg(u: seq<bool>): (r: nat)
    ensures r < 128
  {
    var n := |u|;
    Register(At(u, n - 1), At(u, n - 2), At(u, n - 3), At(u, n - 4), At(u, n - 5), At(u, n - 6), At(u, n - 7))
  }

  // The state of six bits, newest first.
  function State(c0: bool, c1: bool, c2: bool, c3: bool, c4: bool, c5: bool): (s: nat)
    ensures s < 64
  {
    AsInt(c0) + 2 * (AsInt(c1) + 2 * (AsInt(c2) + 2 * (AsInt(c3) + 2 * (AsInt(c4) + 2 * AsInt(c5)))))
  }

  function StateOf(u: seq<bool>): (s: nat)
    ensures s < 64
  {
    var n := |u|;
    State(At(u, n - 1), At(u, n - 2), At(u, n - 3), At(u, n - 4), At(u, n - 5), At(u, n - 6))
  }

  // The oldest bit of the register is what the state has lost.
  lemma RegisterAndState(u: seq<bool>)
    ensures Reg(u) == StateOf(u) + 64 * AsInt(At(u, |u| - 7))
  {
    hide AsInt, At;
  }

  lemma StateShift(b: bool, c0: bool, c1: bool, c2: bool, c3: bool, c4: bool, c5: bool)
    ensures Register(b, c0, c1, c2, c3, c4, c5) == 2 * State(c0, c1, c2, c3, c4, c5) + AsInt(b)
    ensures State(b, c0, c1, c2, c3, c4) == 2 * State(c0, c1, c2, c3, c4, c5) + AsInt(b) - 64 * AsInt(c5)
  {
    hide AsInt;
  }

  lemma ShiftIn(u: seq<bool>, b: bool)
    ensures Reg(u + [b]) == 2 * StateOf(u) + AsInt(b)
    ensures StateOf(u + [b]) == 2 * StateOf(u) + AsInt(b) - 64 * AsInt(At(u, |u| - 6))
  {
    hide AsInt, State, Register;
    var w := u + [b];
    var n := |u|;
    assert At(w, n) == b && At(w, n - 1) == At(u, n - 1) && At(w, n - 2) == At(u, n - 2) && At(w, n - 3) == At(u, n - 3);
    assert At(w, n - 4) == At(u, n - 4) && At(w, n - 5) == At(u, n - 5) && At(w, n - 6) == At(u, n - 6);
    StateShift(b, At(u, n - 1), At(u, n - 2), At(u, n - 3), At(u, n - 4), At(u, n - 5), At(u, n - 6));
  }

  // Six bits fix the state.
  lemma StateAfterBits(u: seq<bool>, b: seq<bool>)
    requires |b| == 6
    ensures StateOf(u + b) == State(b[5], b[4], b[3], b[2], b[1], b[0])
  {
    hide AsInt, State;
    var w, n := u + b, |u|;
    assert At(w, n) == b[0] && At(w, n + 1) == b[1] && At(w, n + 2) == b[2] && At(w, n + 3) == b[3] && At(w, n + 4) == b[4] && At(w, n + 5) == b[5];
  }

  // The states that some input of n bits reaches.
  function LiveCount(n: nat): (k: nat)
    ensures 1 <= k <= 64
  {
    if n == 0 then 1 else if n == 1 then 2 else if n == 2 then 4 else if n == 3 then 8
    else if n == 4 then 16 else if n == 5 then 32 else 64
  }

  lemma StateIsLive(u: seq<bool>)
    ensures StateOf(u) < LiveCount(|u|)
    ensures |u| <= 6 ==> Reg(u) == StateOf(u)
  {
    RegisterAndState(u);
  }

  // The branch metric of register r at step i.
  function StepCost(soft: seq<Byte>, i: nat, r: nat): (d: int)
    requires 2 * i + 1 < |soft|
    ensures 254 <= d <= 766
  {
    Distance(Output(r), soft[2 * i], soft[2 * i + 1])
  }

  // The summed branch metric of a path. The first step is free: the first buffer swap
  // hands back the buffer of zeros, so its distances are never read.
  function PathCost(soft: seq<Byte>, u: seq<bool>): int
    requires 2 * |u| <= |soft|
  {
    if |u| <= 1 then 0
    else PathCost(soft, u[..|u| - 1]) + StepCost(soft, |u| - 1, Reg(u))
  }

  // ----- the least cost of a state ------------------------------------------------------

  function Min(a: int, b: int): int {
    if a <= b then a else b
  }

  // The least cost of reaching state s with n bits, one trellis step at a time.
  function Opt(soft: seq<Byte>, n: nat, s: nat): int
    requires 2 * n <= |soft| && s < LiveCount(n)
    decreases n, 1
  {
    if n <= 1 then 0
    else if n <= 6 then Opt(soft, n - 1, s / 2) + StepCost(soft, n - 1, s)
    else Min(Via(soft, n, s, false), Via(soft, n, s, true))
  }

  function Prev(s: nat, top: bool): (p: nat)
    requires s < 64
    ensures p < 64
  {
    s / 2 + 32 * AsInt(top)
  }

  // The cost of reaching s at step n - 1 through the predecessor whose oldest bit is top.
  function Via(soft: seq<Byte>, n: nat, s: nat, top: bool): int
    requires 7 <= n && 2 * n <= |soft| && s < 64
    decreases n, 0
  {
    Opt(soft, n - 1, Prev(s, top)) + StepCost(soft, n - 1, s + 64 * AsInt(top))
  }

  // The predecessor of a state, from the bit that the register dropped.
  lemma Predecessor(u: seq<bool>, b: bool)
    ensures var s, top := StateOf(u + [b]), At(u, |u| - 6);
      Prev(s, top) == StateOf(u) && Reg(u + [b]) == s + 64 * AsInt(top)
    ensures |u| < 6 ==> !At(u, |u| - 6) && StateOf(u + [b]) / 2 == StateOf(u)
  {
    hide StateOf, Reg;
    ShiftIn(u, b);
  }

  lemma {:induction false} OptLower(soft: seq<Byte>, u: seq<bool>)
    requires 2 * |u| <= |soft|
    ensures StateOf(u) < LiveCount(|u|)
    ensures Opt(soft, |u|, StateOf(u)) <= PathCost(soft, u)
    decreases |u|
  {
    hide StepCost, PathCost, StateOf, Reg, AsInt, Prev;
    StateIsLive(u);
    if |u| <= 1 {
      CostOfShort(soft, u);
    } else {
      var w, b := u[..|u| - 1], u[|u| - 1];
      assert u == w + [b];
      OptLower(soft, w);
      Extend(soft, w, b);
      Predecessor(w, b);
    }
  }

  // A path that attains the least cost.
  function BestPath(soft: seq<Byte>, n: nat, s: nat): seq<bool>
    requires 2 * n <= |soft| && s < LiveCount(n)
  {
    if n == 0 then []
    else if n <= 6 then BestPath(soft, n - 1, s / 2) + [s % 2 == 1]
    else BestPath(soft, n - 1, Prev(s, Via(soft, n, s, true) < Via(soft, n, s, false))) + [s % 2 == 1]
  }

  lemma {:induction false} BestPathAttains(soft: seq<Byte>, n: nat, s: nat)
    requires 2 * n <= |soft| && s < LiveCount(n)
    ensures |BestPath(soft, n, s)| == n
    ensures StateOf(BestPath(soft, n, s)) == s
    ensures PathCost(soft, BestPath(soft, n, s)) == Opt(soft, n, s)
    decreases n
  {
    hide StepCost, PathCost, StateOf;
    if n == 0 {
      NoPath(soft);
    } else if n <= 6 {
      BestPathAttains(soft, n - 1, s / 2);
      EarlyStep(soft, BestPath(soft, n - 1, s / 2), n, s);
    } else {
      var top := Via(soft, n, s, true) < Via(soft, n, s, false);
      BestPathAttains(soft, n - 1, Prev(s, top));
      LateStep(soft, BestPath(soft, n - 1, Prev(s, top)), n, s, top);
    }
  }

  lemma NoPath(soft: seq<Byte>)
    ensures StateOf([]) == 0 && PathCost(soft, []) == 0
  {}

  lemma CostOfShort(soft: seq<Byte>, u: seq<bool>)
    requires |u| <= 1 && 2 * |u| <= |soft|
    ensures PathCost(soft, u) == 0
  {}

  lemma EarlyStep(soft: seq<Byte>, w: seq<bool>, n: nat, s: nat)
    requires 1 <= n <= 6 && 2 * n <= |soft| && s < LiveCount(n)
    requires |w| == n - 1 && StateOf(w) == s / 2 && PathCost(soft, w) == Opt(soft, n - 1, s / 2)
    ensures StateOf(w + [s % 2 == 1]) == s && PathCost(soft, w + [s % 2 == 1]) == Opt(soft, n, s)
  {
    hide StepCost, PathCost, StateOf, Reg;
    Extend(soft, w, s % 2 == 1);
    Predecessor(w, s % 2 == 1);
  }

  lemma LateStep(soft: seq<Byte>, w: seq<bool>, n: nat, s: nat, top: bool)
    requires 7 <= n && 2 * n <= |soft| && s < 64
    requires |w| == n - 1 && StateOf(w) == Prev(s, top) && PathCost(soft, w) == Opt(soft, n - 1, Prev(s, top))
    ensures StateOf(w + [s % 2 == 1]) == s && PathCost(soft, w + [s % 2 == 1]) == Via(soft, n, s, top)
  {
    hide StepCost, PathCost, StateOf, Opt, Reg;
    var b := s % 2 == 1;
    Extend(soft, w, b);
    Predecessor(w, b);
    assert 2 * Prev(s, top) + AsInt(b) == s + 64 * AsInt(top);
  }

  lemma Extend(soft: seq<Byte>, w: seq<bool>, b: bool)
    requires 2 * |w| + 2 <= |soft|
    ensures Reg(w + [b]) == 2 * StateOf(w) + AsInt(b)
    ensures |w| == 0 ==> PathCost(soft, w + [b]) == 0
    ensures |w| > 0 ==> PathCost(soft, w + [b]) == PathCost(soft, w) + StepCost(soft, |w|, Reg(w + [b]))
  {
    hide Reg, StateOf, StepCost;
    ShiftIn(w, b);
    assert (w + [b])[..|w|] == w;
  }

  // The recurrence is the minimum over every input that reaches the state.
  lemma OptIsMinimum(soft: seq<Byte>, n: nat, s: nat)
    requires 2 * n <= |soft| && s < LiveCount(n)
    ensures exists u: seq<bool> :: |u| == n && StateOf(u) == s && PathCost(soft, u) == Opt(soft, n, s)
    ensures forall u: seq<bool> :: |u| == n && StateOf(u) == s ==> Opt(soft, n, s) <= PathCost(soft, u)
  {
    hide PathCost, Opt, BestPath, StateOf;
    BestPathAttains(soft, n, s);
    forall u: seq<bool> | |u| == n && StateOf(u) == s
      ensures Opt(soft, n, s) <= PathCost(soft, u)
    {
      OptLower(soft, u);
    }
  }

  // ----- the best state -----------------------------------------------------------------

  // The least cost over the first k states.
  function MinOver(soft: seq<Byte>, n: nat, k: nat): int
    requires 2 * n <= |soft| && 1 <= k <= LiveCount(n)
    decreases k
  {
    if k == 1 then Opt(soft, n, 0) else Min(MinOver(soft, n, k - 1), Opt(soft, n, k - 1))
  }

  function MinOpt(soft: seq<Byte>, n: nat): int
    requires 2 * n <= |soft|
  {
    MinOver(soft, n, LiveCount(n))
  }

  lemma {:induction false} MinOverIsMin(soft: seq<Byte>, n: nat, k: nat) returns (s: nat)
    requires 2 * n <= |soft| && 1 <= k <= LiveCount(n)
    ensures s < k && Opt(soft, n, s) == MinOver(soft, n, k)
    ensures forall t :: 0 <= t < k ==> MinOver(soft, n, k) <= Opt(soft, n, t)
    decreases k
  {
    hide Opt;
    s := 0;
    if k > 1 {
      s := MinOverIsMin(soft, n, k - 1);
      if Opt(soft, n, k - 1) < Opt(soft, n, s) {
        s := k - 1;
      }
    }
  }

  lemma MinOptIsMin(soft: seq<Byte>, n: nat) returns (s: nat)
    requires 2 * n <= |soft|
    ensures s < LiveCount(n) && Opt(soft, n, s) == MinOpt(soft, n)
    ensures forall t :: 0 <= t < LiveCount(n) ==> MinOpt(soft, n) <= Opt(soft, n, t)
  {
    hide Opt, MinOver;
    s := MinOverIsMin(soft, n, LiveCount(n));
  }

  // The best state has the cost of the best path of all.
  lemma MinOptIsMinimum(soft: seq<Byte>, u: seq<bool>)
    requires 2 * |u| <= |soft|
    ensures MinOpt(soft, |u|) <= PathCost(soft, u)
  {
    hide Opt, MinOver, PathCost, StateOf, MinOpt;
    OptLower(soft, u);
    var _ := MinOptIsMin(soft, |u|);
  }

  // ----- how far apart states can be ----------------------------------------------------

  lemma StepCostSpread(soft: seq<Byte>, i: nat, r: nat, r': nat)
    requires 2 * i + 1 < |soft|
    ensures StepCost(soft, i, r) <= StepCost(soft, i, r') + 512
  {
    hide Output;
  }

  // Two paths that share all but their last k bits.
  lemma {:induction false} CostsClose(soft: seq<Byte>, u: seq<bool>, u': seq<bool>, k: nat)
    requires |u| == |u'| && 2 * |u| <= |soft| && k <= |u| && u[..|u| - k] == u'[..|u| - k]
    ensures PathCost(soft, u) <= PathCost(soft, u') + 512 * k
    decreases k
  {
    hide StepCost;
    if k == 0 {
      assert u == u';
    } else if |u| > 1 {
      var w, w' := u[..|u| - 1], u'[..|u| - 1];
      assert w[..|u| - k] == u[..|u| - k] && w'[..|u| - k] == u'[..|u| - k];
      CostsClose(soft, w, w', k - 1);
      StepCostSpread(soft, |u| - 1, Reg(u), Reg(u'));
    }
  }

  // The bits of a state, oldest first.
  function StateBits(s: nat): (b: seq<bool>)
    ensures |b| == 6
  {
    var s1 := Half(s);
    var s2 := Half(s1);
    var s3 := Half(s2);
    var s4 := Half(s3);
    [Odd(Half(s4)), Odd(s4), Odd(s3), Odd(s2), Odd(s1), Odd(s)]
  }

  lemma StateOfBits(s: nat)
    requires s < 64
    ensures var b := StateBits(s);
      s == State(b[5], b[4], b[3], b[2], b[1], b[0])
  {
    var s1 := Half(s);
    var s2 := Half(s1);
    var s3 := Half(s2);
    var s4 := Half(s3);
    var s5 := Half(s4);
    var b := StateBits(s);
    hide StateBits;
    assert s == AsInt(b[5]) + 2 * s1 && s1 == AsInt(b[4]) + 2 * s2 && s2 == AsInt(b[3]) + 2 * s3 && s3 == AsInt(b[2]) + 2 * s4
        && s4 == AsInt(b[1]) + 2 * s5 && s5 == AsInt(b[0]) by {
      hide Half, Odd, AsInt;
      Halve(s, 32); Halve(s1, 16); Halve(s2, 8); Halve(s3, 4); Halve(s4, 2); Halve(s5, 1);
      BitsOfState(s);
    }
    StateSum(s, s1, s2, s3, s4, s5, b[0], b[1], b[2], b[3], b[4], b[5]);
  }

  lemma BitsOfState(s: nat)
    ensures StateBits(s) == [Odd(Half(Half(Half(Half(Half(s)))))), Odd(Half(Half(Half(Half(s))))), Odd(Half(Half(Half(s)))), Odd(Half(Half(s))), Odd(Half(s)), Odd(s)]
  {
    hide Half, Odd;
  }

  lemma StateSum(s: nat, s1: nat, s2: nat, s3: nat, s4: nat, s5: nat, b0: bool, b1: bool, b2: bool, b3: bool, b4: bool, b5: bool)
    requires s == AsInt(b5) + 2 * s1 && s1 == AsInt(b4) + 2 * s2 && s2 == AsInt(b3) + 2 * s3 && s3 == AsInt(b2) + 2 * s4
    requires s4 == AsInt(b1) + 2 * s5 && s5 == AsInt(b0)
    ensures s == State(b5, b4, b3, b2, b1, b0)
  {}

  // From six steps on, any state can be reached from where the best one was six steps ago.
  lemma StatesClose(soft: seq<Byte>, n: nat, s: nat, s': nat)
    requires 6 <= n && 2 * n <= |soft| && s < 64 && s' < 64
    ensures Opt(soft, n, s) <= Opt(soft, n, s') + 6 * 512
  {
    hide Opt, PathCost, StateOf, StateBits, BestPath, State;
    BestPathAttains(soft, n, s');
    var u' := BestPath(soft, n, s');
    var u := u'[..n - 6] + StateBits(s);
    StateAfterBits(u'[..n - 6], StateBits(s));
    StateOfBits(s);
    assert u[..n - 6] == u'[..n - 6];
    CostsClose(soft, u, u', 6);
    OptLower(soft, u);
  }

  // The best cost grows by at most 510 a step: the two ways on from a state are complementary.
  lemma MinGrows(soft: seq<Byte>, n: nat)
    requires 1 <= n && 2 * n + 2 <= |soft|
    ensures MinOpt(soft, n) <= MinOpt(soft, n + 1) <= MinOpt(soft, n) + 510
  {
    hide Opt, PathCost, StateOf, BestPath, MinOpt, Output, Distance, Reg;
    var s := MinOptIsMin(soft, n);
    BestPathAttains(soft, n, s);
    var u := BestPath(soft, n, s);
    Extend(soft, u, false);
    Extend(soft, u, true);
    NewestFlipsBoth(s);
    DistanceLinear(Output(2 * s), soft[2 * n], soft[2 * n + 1]);
    MinOptIsMinimum(soft, u + [false]);
    MinOptIsMinimum(soft, u + [true]);
    var t := MinOptIsMin(soft, n + 1);
    BestPathAttains(soft, n + 1, t);
    var w := BestPath(soft, n + 1, t);
    MinOptIsMinimum(soft, w[..n]);
    LastStep(soft, w);
  }

  lemma LastStep(soft: seq<Byte>, w: seq<bool>)
    requires |w| > 1 && 2 * |w| <= |soft|
    ensures PathCost(soft, w[..|w| - 1]) <= PathCost(soft, w)
  {
    hide StepCost;
  }
}
