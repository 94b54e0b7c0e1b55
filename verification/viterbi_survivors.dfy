// What the decoder's arrays mean: survivor paths read off the decision history, errors as least
// costs with renormalisation taken out, and the condition under which 16 bits are enough.
module ViterbiSurvivors {
  import opened ViterbiCode

  const NUM_FRAME_BITS := 8192
  const MIN_TRACEBACK := 35
  const TRACEBACK_LENGTH := 105
  const RING := MIN_TRACEBACK + TRACEBACK_LENGTH
  const RENORMALIZE_INTERVAL := 128

  type U16 = x: int | 0 <= x < 0x1_0000

  // ----- survivors ----------------------------------------------------------------------

  // One column of decisions: for each state, the bit that the register drops on the way in.
  predicate Column(c: seq<bool>) {
    |c| == 64
  }

  predicate Columns(cols: seq<seq<bool>>) {
    forall j :: 0 <= j < |cols| ==> Column(cols[j])
  }

  // The dropped bits along the survivor of state s, oldest first.
  function Trail(cols: seq<seq<bool>>, s: nat): (r: seq<bool>)
    requires Columns(cols) && s < 64
    ensures |r| == |cols|
    decreases |cols|
  {
    if |cols| == 0 then [] else
      var last := cols[|cols| - 1];
      Trail(cols[..|cols| - 1], Prev(s, last[s])) + [last[s]]
  }

  // The whole survivor path: what was dropped, then what the state still holds.
  function Survivor(cols: seq<seq<bool>>, s: nat): (u: seq<bool>)
    requires Columns(cols) && s < 64
    ensures |u| == |cols| + 6
  {
    Trail(cols, s) + StateBits(s)
  }

  lemma LastBit(s: nat)
    ensures StateBits(s)[5] == (s % 2 == 1)
  {}

  lemma StateBitsOfPrev(s: nat, top: bool)
    requires s < 64
    ensures StateBits(Prev(s, top)) + [s % 2 == 1] == [top] + StateBits(s)
  {
    hide StateBits, State, Register, AsInt, Prev;
    var b, p := StateBits(s), StateBits(Prev(s, top));
    PrevIsStateOfBits(s, top);
    LastBit(s);
    StateOfBits(s);
    StateOfBits(Prev(s, top));
    StateShift(b[5], b[4], b[3], b[2], b[1], b[0], top);
    StateInjective(p[5], p[4], p[3], p[2], p[1], p[0], b[4], b[3], b[2], b[1], b[0], top);
  }

  lemma PrevIsStateOfBits(s: nat, top: bool)
    requires s < 64
    ensures 2 * Prev(s, top) + AsInt(s % 2 == 1) == s + 64 * AsInt(top)
  {}

  lemma StateInjective(a0: bool, a1: bool, a2: bool, a3: bool, a4: bool, a5: bool, b0: bool, b1: bool, b2: bool, b3: bool, b4: bool, b5: bool)
    requires State(a0, a1, a2, a3, a4, a5) == State(b0, b1, b2, b3, b4, b5)
    ensures a0 == b0 && a1 == b1 && a2 == b2 && a3 == b3 && a4 == b4 && a5 == b5
  {}

  // A survivor extends the survivor of its predecessor by the newest bit.
  lemma SurvivorStep(cols: seq<seq<bool>>, c: seq<bool>, s: nat)
    requires Columns(cols) && Column(c) && s < 64
    ensures Survivor(cols + [c], s) == Survivor(cols, Prev(s, c[s])) + [s % 2 == 1]
  {
    hide StateBits, Prev;
    var all := cols + [c];
    assert all[..|cols|] == cols;
    StateBitsOfPrev(s, c[s]);
    var t, p := Trail(cols, Prev(s, c[s])), StateBits(Prev(s, c[s]));
    assert Survivor(all, s) == t + [c[s]] + StateBits(s);
    assert t + [c[s]] + StateBits(s) == t + ([c[s]] + StateBits(s));
    assert t + (p + [s % 2 == 1]) == t + p + [s % 2 == 1];
  }

  // The state that the survivor of s was in j columns ago.
  function BackState(cols: seq<seq<bool>>, s: nat, j: nat): (r: nat)
    requires Columns(cols) && s < 64 && j <= |cols|
    ensures r < 64
  {
    if j == 0 then s else
      var t := BackState(cols, s, j - 1);
      Prev(t, cols[|cols| - j][t])
  }

  lemma {:induction false} BackStateStep(cols: seq<seq<bool>>, s: nat, j: nat)
    requires Columns(cols) && s < 64 && 1 <= j <= |cols|
    ensures BackState(cols, s, j) == BackState(cols[..|cols| - 1], Prev(s, cols[|cols| - 1][s]), j - 1)
    decreases j
  {
    hide Prev;
    if j > 1 {
      BackStateStep(cols, s, j - 1);
    } else {
      assert BackState(cols, s, 0) == s;
    }
  }

  // Tracing back reads the trail from its end.
  lemma {:induction false} TrailAt(cols: seq<seq<bool>>, s: nat, j: nat)
    requires Columns(cols) && s < 64 && j < |cols|
    ensures Trail(cols, s)[|cols| - 1 - j] == cols[|cols| - 1 - j][BackState(cols, s, j)]
    decreases j
  {
    hide Prev;
    if j > 0 {
      BackStateStep(cols, s, j);
      TrailAt(cols[..|cols| - 1], Prev(s, cols[|cols| - 1][s]), j - 1);
    }
  }

  // ----- renormalisation and 16 bits ----------------------------------------------------

  // In the tail only the states that end in zeros are kept.
  function Stride(n: nat): (k: nat)
    ensures 1 <= k <= 64
  {
    if n <= NUM_FRAME_BITS - 6 then 1
    else if n == NUM_FRAME_BITS - 5 then 2
    else if n == NUM_FRAME_BITS - 4 then 4
    else if n == NUM_FRAME_BITS - 3 then 8
    else if n == NUM_FRAME_BITS - 2 then 16
    else if n == NUM_FRAME_BITS - 1 then 32
    else 64
  }

  predicate Kept(n: nat, s: nat) {
    s < LiveCount(n) && s % Stride(n) == 0
  }

  lemma PrevKept(n: nat, s: nat, top: bool)
    requires 7 <= n <= NUM_FRAME_BITS && Kept(n, s)
    ensures Kept(n - 1, Prev(s, top))
  {
    hide Prev;
    if n <= NUM_FRAME_BITS - 5 {
      assert Prev(s, top) % 1 == 0;
    } else if n == NUM_FRAME_BITS - 4 {
      Halves4(s, top);
    } else if n == NUM_FRAME_BITS - 3 {
      Halves8(s, top);
    } else if n == NUM_FRAME_BITS - 2 {
      Halves16(s, top);
    } else if n == NUM_FRAME_BITS - 1 {
      Halves32(s, top);
    } else {
      Halves64(s, top);
    }
  }

  lemma Halves4(s: nat, top: bool)
    requires s < 64 && s % 4 == 0
    ensures Prev(s, top) % 2 == 0
  {
    var k := s / 4;
    assert Prev(s, top) == 2 * k + 32 * AsInt(top);
  }

  lemma Halves8(s: nat, top: bool)
    requires s < 64 && s % 8 == 0
    ensures Prev(s, top) % 4 == 0
  {
    var k := s / 8;
    assert Prev(s, top) == 4 * k + 32 * AsInt(top);
  }

  lemma Halves16(s: nat, top: bool)
    requires s < 64 && s % 16 == 0
    ensures Prev(s, top) % 8 == 0
  {
    var k := s / 16;
    assert Prev(s, top) == 8 * k + 32 * AsInt(top);
  }

  lemma Halves32(s: nat, top: bool)
    requires s < 64 && s % 32 == 0
    ensures Prev(s, top) % 16 == 0
  {
    assert s == 0 || s == 32;
  }

  lemma Halves64(s: nat, top: bool)
    requires s < 64 && s % 64 == 0
    ensures Prev(s, top) % 32 == 0
  {
    assert s == 0;
  }

  // All that renormalisation has subtracted by the time n bits are in: every 128 columns
  // the least error is brought down to zero.
  function Base(soft: seq<Byte>, n: nat): int
    requires 2 * n <= |soft|
  {
    if n <= 6 then 0
    else if (n - 6) % RENORMALIZE_INTERVAL == 0 then MinOpt(soft, n)
    else Base(soft, n - 1)
  }

  // No sum of the n-th step passes 65535.
  ghost predicate StepFits(soft: seq<Byte>, n: nat)
    requires 7 <= n && 2 * n <= |soft|
  {
    forall s, top :: 0 <= s < 64 && Kept(n, s) ==> Via(soft, n, s, top) - Base(soft, n - 1) <= 0xFFFF
  }

  ghost predicate NoWrap(soft: seq<Byte>, n: nat)
    requires 2 * n <= |soft|
  {
    n <= 6 || (NoWrap(soft, n - 1) && StepFits(soft, n))
  }

  // ----- one step -----------------------------------------------------------------------

  function Wrap(x: nat): U16 {
    x % 0x1_0000
  }

  // The 16-bit sum for reaching s through the predecessor with oldest bit top.
  function Candidate(errs: seq<U16>, soft: seq<Byte>, i: nat, s: nat, top: bool): U16
    requires |errs| >= 64 && 2 * i + 1 < |soft| && s < 64
  {
    Wrap(StepCost(soft, i, s + 64 * AsInt(top)) + errs[Prev(s, top)])
  }

  // Add, compare, select: on equal sums the tail prefers the high predecessor.
  predicate Picked(low: U16, high: U16, tail: bool, w: U16, top: bool) {
    top == (if tail then high <= low else high < low) && w == (if top then high else low)
  }

  predicate Selected(errs: seq<U16>, soft: seq<Byte>, i: nat, s: nat, tail: bool, w: U16, top: bool)
    requires |errs| >= 64 && 2 * i + 1 < |soft| && s < 64
  {
    Picked(Candidate(errs, soft, i, s, false), Candidate(errs, soft, i, s, true), tail, w, top)
  }

  // The errors are the least costs, with what renormalisation subtracted left out.
  predicate Exact(errs: seq<U16>, soft: seq<Byte>, n: nat, base: int)
    requires |errs| >= 64 && 2 * n <= |soft|
  {
    forall s :: 0 <= s < 64 && Kept(n, s) ==> errs[s] + base == Opt(soft, n, s)
  }

  // Every survivor is a path of least cost to its state.
  predicate SurvivorsBest(cols: seq<seq<bool>>, soft: seq<Byte>)
    requires 2 * |cols| + 12 <= |soft| && Columns(cols)
  {
    forall s :: 0 <= s < 64 && Kept(|cols| + 6, s) ==> PathCost(soft, Survivor(cols, s)) == Opt(soft, |cols| + 6, s)
  }

  lemma SurvivorState(cols: seq<seq<bool>>, s: nat)
    requires Columns(cols) && s < 64
    ensures StateOf(Survivor(cols, s)) == s
  {
    hide StateBits, State, StateOf;
    StateAfterBits(Trail(cols, s), StateBits(s));
    StateOfBits(s);
  }

  lemma CandidateExact(errs: seq<U16>, soft: seq<Byte>, n: nat, s: nat, top: bool)
    requires |errs| >= 64 && 7 <= n <= NUM_FRAME_BITS && 2 * n <= |soft| && s < 64 && Kept(n, s)
    requires Exact(errs, soft, n - 1, Base(soft, n - 1)) && StepFits(soft, n)
    ensures Candidate(errs, soft, n - 1, s, top) + Base(soft, n - 1) == Via(soft, n, s, top)
  {
    hide StepCost, Base, Kept, Prev, Opt;
    PrevKept(n, s, top);
    var p := Prev(s, top);
    assert errs[p] + Base(soft, n - 1) == Opt(soft, n - 1, p);
    assert Via(soft, n, s, top) - Base(soft, n - 1) <= 0xFFFF;
  }

  lemma OptIsLesser(soft: seq<Byte>, n: nat, s: nat)
    requires 7 <= n && 2 * n <= |soft| && s < 64
    ensures Opt(soft, n, s) == Min(Via(soft, n, s, false), Via(soft, n, s, true))
  {
    hide Via;
  }

  // Selecting by wrapped sums selects by true costs when nothing wraps.
  lemma SelectIsMin(errs: seq<U16>, soft: seq<Byte>, n: nat, s: nat, tail: bool, w: U16, top: bool)
    requires |errs| >= 64 && 7 <= n <= NUM_FRAME_BITS && 2 * n <= |soft| && s < 64 && Kept(n, s)
    requires Exact(errs, soft, n - 1, Base(soft, n - 1)) && StepFits(soft, n)
    requires Selected(errs, soft, n - 1, s, tail, w, top)
    ensures w + Base(soft, n - 1) == Opt(soft, n, s) == Via(soft, n, s, top)
  {
    hide Candidate, Base, Kept, Prev, Opt, Via, Exact, StepFits, LiveCount;
    OptIsLesser(soft, n, s);
    CandidateExact(errs, soft, n, s, false);
    CandidateExact(errs, soft, n, s, true);
  }

  lemma SurvivorExtends(cols: seq<seq<bool>>, c: seq<bool>, soft: seq<Byte>, s: nat)
    requires Columns(cols) && Column(c) && s < 64 && 2 * |cols| + 14 <= |soft|
    requires PathCost(soft, Survivor(cols, Prev(s, c[s]))) == Opt(soft, |cols| + 6, Prev(s, c[s]))
    ensures PathCost(soft, Survivor(cols + [c], s)) == Via(soft, |cols| + 7, s, c[s])
  {
    hide Prev, StateOf, StepCost, Opt, PathCost, Survivor, Reg, LiveCount;
    SurvivorStep(cols, c, s);
    var p := Prev(s, c[s]);
    SurvivorState(cols, p);
    Extend(soft, Survivor(cols, p), s % 2 == 1);
    PrevIsStateOfBits(s, c[s]);
  }

  // Everything that is known before a step, given that nothing has wrapped.
  ghost predicate Ready(errs: seq<U16>, cols: seq<seq<bool>>, soft: seq<Byte>)
    requires |errs| >= 64 && Columns(cols) && |cols| + 6 <= NUM_FRAME_BITS && 2 * |cols| + 12 <= |soft|
  {
    Exact(errs, soft, |cols| + 6, Base(soft, |cols| + 6)) && SurvivorsBest(cols, soft)
  }

  // What a step writes: the selected error and decision of every state that is kept.
  predicate RowSelected(errs: seq<U16>, written: seq<U16>, c: seq<bool>, soft: seq<Byte>, n: nat, tail: bool)
    requires |errs| >= 64 && |written| >= 64 && Column(c) && 1 <= n && 2 * n <= |soft|
  {
    forall s :: 0 <= s < 64 && Kept(n, s) ==> Selected(errs, soft, n - 1, s, tail, written[s], c[s])
  }

  lemma StepOne(errs: seq<U16>, cols: seq<seq<bool>>, c: seq<bool>, soft: seq<Byte>, s: nat, tail: bool, w: U16)
    requires |errs| >= 64 && Columns(cols) && Column(c) && s < 64
    requires |cols| + 7 <= NUM_FRAME_BITS && 2 * |cols| + 14 <= |soft| && Kept(|cols| + 7, s) && StepFits(soft, |cols| + 7)
    requires Ready(errs, cols, soft) && Selected(errs, soft, |cols| + 6, s, tail, w, c[s])
    ensures w + Base(soft, |cols| + 6) == Opt(soft, |cols| + 7, s)
    ensures PathCost(soft, Survivor(cols + [c], s)) == Opt(soft, |cols| + 7, s)
  {
    hide StepFits, Base, Kept, Prev, Selected, Exact, Survivor, PathCost, Opt, Via, LiveCount;
    var n := |cols| + 7;
    SelectIsMin(errs, soft, n, s, tail, w, c[s]);
    PrevKept(n, s, c[s]);
    SurvivorExtends(cols, c, soft, s);
  }

  // One step keeps errors exact (before renormalisation) and survivors best.
  lemma StepExact(errs: seq<U16>, written: seq<U16>, cols: seq<seq<bool>>, c: seq<bool>, soft: seq<Byte>, tail: bool)
    requires |errs| >= 64 && |written| >= 64 && Columns(cols) && Column(c)
    requires |cols| + 7 <= NUM_FRAME_BITS && 2 * |cols| + 14 <= |soft| && StepFits(soft, |cols| + 7)
    requires Ready(errs, cols, soft) && RowSelected(errs, written, c, soft, |cols| + 7, tail)
    ensures Exact(written, soft, |cols| + 7, Base(soft, |cols| + 6))
    ensures SurvivorsBest(cols + [c], soft)
  {
    hide StepFits, Base, Prev, Selected, Survivor, PathCost, Opt, Ready, Kept;
    forall s | 0 <= s < 64 && Kept(|cols| + 7, s)
      ensures written[s] + Base(soft, |cols| + 6) == Opt(soft, |cols| + 7, s)
    {
      StepOne(errs, cols, c, soft, s, tail, written[s]);
    }
    forall s | 0 <= s < 64 && Kept(|cols| + 7, s)
      ensures PathCost(soft, Survivor(cols + [c], s)) == Opt(soft, |cols| + 7, s)
    {
      StepOne(errs, cols, c, soft, s, tail, written[s]);
    }
  }

  // ----- what is written out ------------------------------------------------------------

  // bits[from..to] are the bits of some path of n bits and the given cost.
  ghost predicate Segment(soft: seq<Byte>, bits: seq<bool>, from: nat, to: nat, n: nat, cost: int)
    requires from <= to <= |bits| && to <= n && 2 * n <= |soft|
  {
    exists u: seq<bool> :: |u| == n && PathCost(soft, u) == cost && u[from..to] == bits[from..to]
  }

  // The number of input bits when traceback number j starts.
  function DecisionTime(j: nat): nat {
    6 + RING + TRACEBACK_LENGTH * j
  }

  // The j-th group of 105 bits lies on a best path at the time of its traceback.
  ghost predicate GroupOnBestPath(soft: seq<Byte>, bits: seq<bool>, j: nat)
  {
    TRACEBACK_LENGTH * (j + 1) <= |bits| && 2 * DecisionTime(j) <= |soft| &&
    Segment(soft, bits, TRACEBACK_LENGTH * j, TRACEBACK_LENGTH * (j + 1), DecisionTime(j), MinOpt(soft, DecisionTime(j)))
  }

  ghost predicate Decided(soft: seq<Byte>, bits: seq<bool>, k: nat) {
    forall j :: 0 <= j < k ==> GroupOnBestPath(soft, bits, j)
  }

  // The bits after the last group lie on a best path that ends in state zero.
  ghost predicate EndOnBestPath(soft: seq<Byte>, bits: seq<bool>, from: nat)
    requires 2 * |bits| + 12 <= |soft| && from <= |bits|
  {
    exists u: seq<bool> :: |u| == |bits| + 6 && StateOf(u) == 0 && PathCost(soft, u) == Opt(soft, |u|, 0) && u[from..|bits|] == bits[from..]
  }

  lemma GroupKept(soft: seq<Byte>, bits: seq<bool>, more: seq<bool>, j: nat)
    requires GroupOnBestPath(soft, bits, j)
    ensures GroupOnBestPath(soft, bits + more, j)
  {
    hide PathCost, MinOpt;
    var from, to, n := TRACEBACK_LENGTH * j, TRACEBACK_LENGTH * (j + 1), DecisionTime(j);
    var u: seq<bool> :| |u| == n && PathCost(soft, u) == MinOpt(soft, n) && u[from..to] == bits[from..to];
    assert (bits + more)[from..to] == bits[from..to];
  }

  lemma DecidedKept(soft: seq<Byte>, bits: seq<bool>, more: seq<bool>, k: nat)
    requires Decided(soft, bits, k)
    ensures Decided(soft, bits + more, k)
  {
    hide GroupOnBestPath;
    forall j | 0 <= j < k
      ensures GroupOnBestPath(soft, bits + more, j)
    {
      GroupKept(soft, bits, more, j);
    }
  }

  // A traceback from a best state writes a group that lies on a best path.
  lemma GroupDecided(soft: seq<Byte>, bits: seq<bool>, k: nat, cols: seq<seq<bool>>, s: nat)
    requires |bits| == TRACEBACK_LENGTH * k && |cols| == RING + TRACEBACK_LENGTH * k && 2 * |cols| + 12 <= |soft| && Columns(cols) && s < 64
    requires PathCost(soft, Survivor(cols, s)) == MinOpt(soft, |cols| + 6)
    requires Decided(soft, bits, k)
    ensures Decided(soft, bits + Trail(cols, s)[|cols| - RING..|cols| - MIN_TRACEBACK], k + 1)
  {
    hide PathCost, MinOpt, GroupOnBestPath, Trail, StateBits;
    var more := Trail(cols, s)[|cols| - RING..|cols| - MIN_TRACEBACK];
    DecidedKept(soft, bits, more, k);
    assert GroupOnBestPath(soft, bits + more, k) by {
      NewGroup(soft, bits, k, cols, s);
    }
  }

  lemma NewGroup(soft: seq<Byte>, bits: seq<bool>, k: nat, cols: seq<seq<bool>>, s: nat)
    requires |bits| == TRACEBACK_LENGTH * k && |cols| == RING + TRACEBACK_LENGTH * k && 2 * |cols| + 12 <= |soft| && Columns(cols) && s < 64
    requires PathCost(soft, Survivor(cols, s)) == MinOpt(soft, |cols| + 6)
    ensures GroupOnBestPath(soft, bits + Trail(cols, s)[|cols| - RING..|cols| - MIN_TRACEBACK], k)
  {
    hide PathCost, MinOpt, Trail, StateBits;
    var from, to := TRACEBACK_LENGTH * k, TRACEBACK_LENGTH * (k + 1);
    var more := Trail(cols, s)[|cols| - RING..|cols| - MIN_TRACEBACK];
    var u := Survivor(cols, s);
    assert u[from..to] == more;
    assert (bits + more)[from..to] == more;
  }

  lemma TrailTail(cols: seq<seq<bool>>, bits: seq<bool>, s: nat)
    requires Columns(cols) && s < 64 && |bits| <= |cols|
    ensures var all := bits + Trail(cols, s)[|bits|..];
      |all| == |cols| && all[|bits|..] == Survivor(cols, s)[|bits|..|all|]
  {
    hide Trail, StateBits;
  }

  // The last traceback, from state zero.
  lemma EndDecided(soft: seq<Byte>, bits: seq<bool>, k: nat, cols: seq<seq<bool>>)
    requires |bits| == TRACEBACK_LENGTH * k <= |cols| && 2 * |cols| + 12 <= |soft| && Columns(cols)
    requires SurvivorsBest(cols, soft) && Decided(soft, bits, k)
    ensures Decided(soft, bits + Trail(cols, 0)[|bits|..], k)
    ensures EndOnBestPath(soft, bits + Trail(cols, 0)[|bits|..], |bits|)
  {
    hide PathCost, Trail, StateBits, StateOf, Opt, Survivor, Decided, SurvivorsBest, EndOnBestPath;
    DecidedKept(soft, bits, Trail(cols, 0)[|bits|..], k);
    EndIsBest(soft, bits, cols);
  }

  lemma EndIsBest(soft: seq<Byte>, bits: seq<bool>, cols: seq<seq<bool>>)
    requires |bits| <= |cols| && 2 * |cols| + 12 <= |soft| && Columns(cols) && SurvivorsBest(cols, soft)
    ensures EndOnBestPath(soft, bits + Trail(cols, 0)[|bits|..], |bits|)
  {
    hide PathCost, Trail, StateBits, StateOf, Opt, Survivor, Decided;
    SurvivorState(cols, 0);
    TrailTail(cols, bits, 0);
    assert Kept(|cols| + 6, 0);
    var u := Survivor(cols, 0);
    assert |u| == |cols| + 6 by { SurvivorLength(cols, 0); }
    assert PathCost(soft, u) == Opt(soft, |u|, 0);
  }

  lemma SurvivorLength(cols: seq<seq<bool>>, s: nat)
    requires Columns(cols) && s < 64
    ensures |Survivor(cols, s)| == |cols| + 6
  {
    hide Trail;
  }

  // ----- the start ----------------------------------------------------------------------

  lemma {:induction false} OptSmall(soft: seq<Byte>, n: nat, s: nat)
    requires n <= 6 && 2 * n <= |soft| && s < LiveCount(n)
    ensures 0 <= Opt(soft, n, s) <= 766 * n
    decreases n
  {
    hide StepCost;
    if n > 1 {
      OptSmall(soft, n - 1, s / 2);
    }
  }

  // A short path is the only one to its state.
  lemma {:induction false} OnlyPath(soft: seq<Byte>, u: seq<bool>)
    requires |u| <= 6 && 2 * |u| <= |soft|
    ensures StateOf(u) < LiveCount(|u|) && PathCost(soft, u) == Opt(soft, |u|, StateOf(u))
    decreases |u|
  {
    hide StepCost, PathCost, StateOf, Reg;
    StateIsLive(u);
    if |u| <= 1 {
      CostOfShort(soft, u);
    } else {
      var w, b := u[..|u| - 1], u[|u| - 1];
      assert u == w + [b];
      OnlyPath(soft, w);
      Extend(soft, w, b);
      Predecessor(w, b);
    }
  }

  lemma StartReady(errs: seq<U16>, soft: seq<Byte>)
    requires |errs| >= 64 && |soft| >= 12 && forall s :: 0 <= s < 64 ==> errs[s] == Opt(soft, 6, s)
    ensures Ready(errs, [], soft)
  {
    hide Opt, PathCost, StateBits;
    forall s | 0 <= s < 64
      ensures PathCost(soft, Survivor([], s)) == Opt(soft, 6, s)
    {
      SurvivorState([], s);
      OnlyPath(soft, Survivor([], s));
    }
  }

  // ----- after a column -----------------------------------------------------------------

  // best has the least error among every skip-th state.
  ghost predicate Least(errs: seq<U16>, skip: nat, best: nat)
    requires |errs| >= 64 && skip > 0
  {
    best < 64 && best % skip == 0 && forall t :: 0 <= t < 64 && t % skip == 0 ==> errs[best] <= errs[t]
  }

  lemma LeastIsMinOpt(errs: seq<U16>, soft: seq<Byte>, n: nat, base: int, best: nat)
    requires |errs| >= 64 && 6 <= n <= NUM_FRAME_BITS - 6 && 2 * n <= |soft| && Exact(errs, soft, n, base) && Least(errs, 1, best)
    ensures Opt(soft, n, best) == MinOpt(soft, n)
  {
    hide Opt, MinOpt;
    var s := MinOptIsMin(soft, n);
    assert s % 1 == 0 && best % 1 == 0;
    assert errs[s] + base == Opt(soft, n, s) && errs[best] + base == Opt(soft, n, best);
  }

  function WrapDiff(a: int, b: int): U16 {
    (a - b) % 0x1_0000
  }

  // The errors after a column: brought down by the least one when that is due.
  predicate BroughtDown(written: seq<U16>, errs: seq<U16>, due: bool, best: nat)
    requires |written| >= 64 && |errs| >= 64 && best < 64
  {
    forall s :: 0 <= s < 64 ==> errs[s] == if due then WrapDiff(written[s], written[best]) else written[s]
  }

  // Renormalised when due, the errors stay exact for the new base.
  lemma Renormalized(written: seq<U16>, errs: seq<U16>, soft: seq<Byte>, n: nat, best: nat)
    requires |written| >= 64 && |errs| >= 64 && 7 <= n <= NUM_FRAME_BITS && 2 * n <= |soft|
    requires (n - 6) % RENORMALIZE_INTERVAL == 0 ==> n <= NUM_FRAME_BITS - 6 && Least(written, 1, best)
    requires Exact(written, soft, n, Base(soft, n - 1))
    requires best < 64 && BroughtDown(written, errs, (n - 6) % RENORMALIZE_INTERVAL == 0, best)
    ensures Exact(errs, soft, n, Base(soft, n))
  {
    hide Opt, MinOpt, Kept;
    if (n - 6) % RENORMALIZE_INTERVAL == 0 {
      LeastIsMinOpt(written, soft, n, Base(soft, n - 1), best);
      assert Kept(n, best) by { AllKept(n, best); }
      forall s | 0 <= s < 64 && Kept(n, s)
        ensures errs[s] + MinOpt(soft, n) == Opt(soft, n, s)
      {
        assert written[best] <= written[s] by { assert s % 1 == 0; }
        Difference(written[s], written[best]);
      }
    }
  }

  lemma AllKept(n: nat, s: nat)
    requires 6 <= n <= NUM_FRAME_BITS - 6 && s < 64
    ensures Kept(n, s)
  {}

  lemma Difference(a: U16, b: U16)
    requires b <= a
    ensures WrapDiff(a, b) == a as int - b as int
  {}

  // ----- the meaning of a whole column --------------------------------------------------

  // While nothing has wrapped, the state means what it should.
  ghost predicate Meaning(errs: seq<U16>, cols: seq<seq<bool>>, bits: seq<bool>, rounds: nat, soft: seq<Byte>)
    requires |errs| >= 64 && Columns(cols) && |cols| + 6 <= NUM_FRAME_BITS && 2 * |cols| + 12 <= |soft|
  {
    NoWrap(soft, |cols| + 6) ==> Ready(errs, cols, soft) && Decided(soft, bits, rounds)
  }

  // How many columns have come since renormalisation was due.
  function Phase(columns: nat): nat {
    columns % RENORMALIZE_INTERVAL
  }

  lemma ColumnErrors(errs: seq<U16>, written: seq<U16>, next: seq<U16>, cols: seq<seq<bool>>, c: seq<bool>, best: nat, soft: seq<Byte>, tail: bool)
    requires |errs| >= 64 && |written| >= 64 && |next| >= 64 && Columns(cols) && Column(c) && best < 64
    requires |cols| + 7 <= NUM_FRAME_BITS && 2 * |cols| + 14 <= |soft| && StepFits(soft, |cols| + 7)
    requires Ready(errs, cols, soft) && RowSelected(errs, written, c, soft, |cols| + 7, tail)
    requires Phase(|cols| + 1) == 0 ==> |cols| + 7 <= NUM_FRAME_BITS - 6 && Least(written, 1, best)
    requires BroughtDown(written, next, Phase(|cols| + 1) == 0, best)
    ensures Exact(written, soft, |cols| + 7, Base(soft, |cols| + 6)) && Ready(next, cols + [c], soft)
  {
    hide StepFits, RowSelected, BroughtDown, Least, Exact, SurvivorsBest, Base;
    StepExact(errs, written, cols, c, soft, tail);
    Renormalized(written, next, soft, |cols| + 7, best);
  }

  lemma LastStepFits(soft: seq<Byte>, n: nat)
    requires 7 <= n && 2 * n <= |soft| && NoWrap(soft, n)
    ensures NoWrap(soft, n - 1) && StepFits(soft, n)
  {
    hide StepFits;
  }

  lemma PlainColumn(errs: seq<U16>, written: seq<U16>, next: seq<U16>, cols: seq<seq<bool>>, c: seq<bool>, best: nat, bits: seq<bool>, rounds: nat, soft: seq<Byte>, tail: bool)
    requires |errs| >= 64 && |written| >= 64 && |next| >= 64 && Columns(cols) && Column(c) && best < 64
    requires |cols| + 7 <= NUM_FRAME_BITS && 2 * |cols| + 14 <= |soft|
    requires Meaning(errs, cols, bits, rounds, soft) && RowSelected(errs, written, c, soft, |cols| + 7, tail)
    requires Phase(|cols| + 1) == 0 ==> |cols| + 7 <= NUM_FRAME_BITS - 6 && Least(written, 1, best)
    requires BroughtDown(written, next, Phase(|cols| + 1) == 0, best)
    ensures Meaning(next, cols + [c], bits, rounds, soft)
  {
    hide StepFits, RowSelected, BroughtDown, Least, Exact, SurvivorsBest, Base, Decided, Ready, Phase, NoWrap;
    if NoWrap(soft, |cols| + 7) {
      LastStepFits(soft, |cols| + 7);
      ColumnErrors(errs, written, next, cols, c, best, soft, tail);
    }
  }

  lemma RoundDecided(written: seq<U16>, next: seq<U16>, cols: seq<seq<bool>>, best: nat, bits: seq<bool>, rounds: nat, soft: seq<Byte>)
    requires |written| >= 64 && |next| >= 64 && Columns(cols) && best < 64 && |bits| == TRACEBACK_LENGTH * rounds
    requires |cols| + 6 <= NUM_FRAME_BITS - 6 && 2 * |cols| + 12 <= |soft| && |cols| == TRACEBACK_LENGTH * rounds + RING
    requires Least(written, 1, best) && Exact(written, soft, |cols| + 6, Base(soft, |cols| + 5)) && Ready(next, cols, soft) && Decided(soft, bits, rounds)
    ensures Decided(soft, bits + Trail(cols, best)[|cols| - RING..|cols| - MIN_TRACEBACK], rounds + 1)
  {
    hide Least, Exact, Base, Trail, Decided, Ready, MinOpt, Opt, PathCost, Survivor;
    LeastIsMinOpt(written, soft, |cols| + 6, Base(soft, |cols| + 5), best);
    BestSurvivor(next, cols, soft, best);
    GroupDecided(soft, bits, rounds, cols, best);
  }

  lemma RoundColumn(errs: seq<U16>, written: seq<U16>, next: seq<U16>, cols: seq<seq<bool>>, c: seq<bool>, best: nat, bits: seq<bool>, rounds: nat, soft: seq<Byte>)
    requires |errs| >= 64 && |written| >= 64 && |next| >= 64 && Columns(cols) && Column(c) && best < 64 && |bits| == TRACEBACK_LENGTH * rounds
    requires |cols| + 7 <= NUM_FRAME_BITS - 6 && 2 * |cols| + 14 <= |soft| && |cols| + 1 == TRACEBACK_LENGTH * rounds + RING
    requires Meaning(errs, cols, bits, rounds, soft) && RowSelected(errs, written, c, soft, |cols| + 7, false)
    requires Least(written, 1, best) && BroughtDown(written, next, Phase(|cols| + 1) == 0, best)
    ensures Meaning(next, cols + [c], bits + Trail(cols + [c], best)[|cols| + 1 - RING..|cols| + 1 - MIN_TRACEBACK], rounds + 1, soft)
  {
    hide StepFits, RowSelected, BroughtDown, Least, Exact, SurvivorsBest, Base, Trail, Decided, Ready, Phase, NoWrap;
    if NoWrap(soft, |cols| + 7) {
      LastStepFits(soft, |cols| + 7);
      ColumnErrors(errs, written, next, cols, c, best, soft, false);
      RoundDecided(written, next, cols + [c], best, bits, rounds, soft);
    }
  }

  lemma ColumnMeaning(errs: seq<U16>, written: seq<U16>, next: seq<U16>, cols: seq<seq<bool>>, c: seq<bool>, best: nat, bits: seq<bool>, rounds: nat, soft: seq<Byte>)
    requires |errs| >= 64 && |written| >= 64 && |next| >= 64 && Columns(cols) && Column(c) && best < 64
    requires |cols| + 7 <= NUM_FRAME_BITS - 6 && 2 * |cols| + 14 <= |soft| && |bits| == TRACEBACK_LENGTH * rounds
    requires Meaning(errs, cols, bits, rounds, soft) && RowSelected(errs, written, c, soft, |cols| + 7, false)
    requires Phase(|cols| + 1) == 0 || |cols| + 1 == TRACEBACK_LENGTH * rounds + RING ==> Least(written, 1, best)
    requires BroughtDown(written, next, Phase(|cols| + 1) == 0, best)
    ensures |cols| + 1 != TRACEBACK_LENGTH * rounds + RING ==> Meaning(next, cols + [c], bits, rounds, soft)
    ensures |cols| + 1 == TRACEBACK_LENGTH * rounds + RING ==>
      Meaning(next, cols + [c], bits + Trail(cols + [c], best)[|cols| + 1 - RING..|cols| + 1 - MIN_TRACEBACK], rounds + 1, soft)
  {
    hide Meaning, RowSelected, BroughtDown, Least, Trail, Phase;
    if |cols| + 1 == TRACEBACK_LENGTH * rounds + RING {
      RoundColumn(errs, written, next, cols, c, best, bits, rounds, soft);
    } else {
      PlainColumn(errs, written, next, cols, c, best, bits, rounds, soft, false);
    }
  }

  lemma BestSurvivor(errs: seq<U16>, cols: seq<seq<bool>>, soft: seq<Byte>, s: nat)
    requires |errs| >= 64 && Columns(cols) && |cols| + 6 <= NUM_FRAME_BITS - 6 && 2 * |cols| + 12 <= |soft| && s < 64
    requires Ready(errs, cols, soft)
    ensures PathCost(soft, Survivor(cols, s)) == Opt(soft, |cols| + 6, s)
  {
    hide PathCost, Survivor, Opt, Exact, Base;
    assert Kept(|cols| + 6, s) by { AllKept(|cols| + 6, s); }
  }

  // ----- errors and wrapping over a whole run ---------------------------------------------

  // What one step writes, decides and leaves, best being the state it brings the errors down by.
  datatype Step = Step(written: seq<U16>, column: seq<bool>, best: nat, errs: seq<U16>)

  // The n-th step, done on the given errors.
  ghost predicate StepFrom(before: seq<U16>, t: Step, soft: seq<Byte>, n: nat)
    requires 7 <= n <= NUM_FRAME_BITS && 2 * n <= |soft|
  {
    |before| >= 64 && |t.written| >= 64 && |t.errs| >= 64 && Column(t.column) && t.best < 64 &&
    RowSelected(before, t.written, t.column, soft, n, n > NUM_FRAME_BITS - 6) &&
    (Phase(n - 6) == 0 ==> n <= NUM_FRAME_BITS - 6 && Least(t.written, 1, t.best)) &&
    BroughtDown(t.written, t.errs, Phase(n - 6) == 0, t.best)
  }

  function ErrsAfter(start: seq<U16>, steps: seq<Step>): seq<U16> {
    if |steps| == 0 then start else steps[|steps| - 1].errs
  }

  // Steps one after the other, from the errors that six bits leave.
  ghost predicate IsRun(start: seq<U16>, steps: seq<Step>, soft: seq<Byte>)
  {
    |steps| + 6 <= NUM_FRAME_BITS && 2 * |steps| + 12 <= |soft| &&
    if |steps| == 0 then |start| >= 64 && forall s :: 0 <= s < 64 ==> start[s] == Opt(soft, 6, s)
    else
      var before := steps[..|steps| - 1];
      IsRun(start, before, soft) && StepFrom(ErrsAfter(start, before), steps[|steps| - 1], soft, |steps| + 6)
  }

  lemma RunGrows(start: seq<U16>, steps: seq<Step>, t: Step, soft: seq<Byte>)
    requires IsRun(start, steps, soft) && |steps| + 7 <= NUM_FRAME_BITS && 2 * |steps| + 14 <= |soft|
    requires StepFrom(ErrsAfter(start, steps), t, soft, |steps| + 7)
    ensures IsRun(start, steps + [t], soft) && Decisions(steps + [t]) == Decisions(steps) + [t.column] && ErrsAfter(start, steps + [t]) == t.errs
  {
    hide StepFrom;
    assert (steps + [t])[..|steps|] == steps;
  }

  function Decisions(steps: seq<Step>): (cols: seq<seq<bool>>)
    ensures |cols| == |steps|
  {
    if |steps| == 0 then [] else Decisions(steps[..|steps| - 1]) + [steps[|steps| - 1].column]
  }

  // Every error that a step has written and that counts is the true minimum.
  ghost predicate AllExact(steps: seq<Step>, soft: seq<Byte>)
    requires 2 * |steps| + 12 <= |soft|
  {
    forall k :: 0 <= k < |steps| ==> |steps[k].written| >= 64 && Exact(steps[k].written, soft, k + 7, Base(soft, k + 6))
  }

  // After exact errors, a step writes exact errors if and only if no sum passes 65535: one that
  // does comes out below the true minimum, as the two ways into a state differ by less than 65536.
  lemma ExactIffFits(errs: seq<U16>, written: seq<U16>, c: seq<bool>, soft: seq<Byte>, n: nat, tail: bool)
    requires |errs| >= 64 && |written| >= 64 && Column(c) && 7 <= n <= NUM_FRAME_BITS && 2 * n <= |soft|
    requires Exact(errs, soft, n - 1, Base(soft, n - 1)) && RowSelected(errs, written, c, soft, n, tail)
    ensures Exact(written, soft, n, Base(soft, n - 1)) <==> StepFits(soft, n)
    ensures !StepFits(soft, n) ==> exists s :: 0 <= s < 64 && Kept(n, s) && written[s] + Base(soft, n - 1) < Opt(soft, n, s)
  {
    hide StepFits, Base, Kept, Selected, Opt, Exact;
    if StepFits(soft, n) {
      forall s | 0 <= s < 64 && Kept(n, s)
        ensures written[s] + Base(soft, n - 1) == Opt(soft, n, s)
      {
        SelectIsMin(errs, soft, n, s, tail, written[s], c[s]);
      }
      ExactIf(written, soft, n, Base(soft, n - 1));
    } else {
      var s, top := TooLarge(soft, n);
      WrappedIsLess(errs, soft, n, s, top, tail, written[s], c[s]);
      NotExactIf(written, soft, n, Base(soft, n - 1), s);
    }
  }

  lemma ExactIf(written: seq<U16>, soft: seq<Byte>, n: nat, base: int)
    requires |written| >= 64 && 2 * n <= |soft|
    requires forall s :: 0 <= s < 64 && Kept(n, s) ==> written[s] + base == Opt(soft, n, s)
    ensures Exact(written, soft, n, base)
  {
    hide Opt, Kept;
  }

  lemma NotExactIf(written: seq<U16>, soft: seq<Byte>, n: nat, base: int, s: nat)
    requires |written| >= 64 && 2 * n <= |soft| && s < 64 && Kept(n, s) && written[s] + base < Opt(soft, n, s)
    ensures !Exact(written, soft, n, base)
  {
    hide Opt, Kept;
  }

  lemma TooLarge(soft: seq<Byte>, n: nat) returns (s: nat, top: bool)
    requires 7 <= n && 2 * n <= |soft| && !StepFits(soft, n)
    ensures s < 64 && Kept(n, s) && Via(soft, n, s, top) - Base(soft, n - 1) > 0xFFFF
  {
    hide Kept, Via, Base;
    s, top :| 0 <= s < 64 && Kept(n, s) && Via(soft, n, s, top) - Base(soft, n - 1) > 0xFFFF;
  }

  // The two ways into a state cost about the same.
  lemma WaysClose(soft: seq<Byte>, n: nat, s: nat, top: bool)
    requires 7 <= n && 2 * n <= |soft| && s < 64
    ensures Via(soft, n, s, top) <= Opt(soft, n, s) + 6 * 512 + 512
  {
    hide Opt, StepCost, Prev;
    OptIsLesser(soft, n, s);
    var other := !top;
    StatesClose(soft, n - 1, Prev(s, top), Prev(s, other));
  }

  lemma WrappedIsLess(errs: seq<U16>, soft: seq<Byte>, n: nat, s: nat, top: bool, tail: bool, w: U16, decision: bool)
    requires |errs| >= 64 && 7 <= n <= NUM_FRAME_BITS && 2 * n <= |soft| && s < 64 && Kept(n, s)
    requires Exact(errs, soft, n - 1, Base(soft, n - 1)) && Selected(errs, soft, n - 1, s, tail, w, decision)
    requires Via(soft, n, s, top) - Base(soft, n - 1) > 0xFFFF
    ensures w + Base(soft, n - 1) < Opt(soft, n, s)
  {
    hide Candidate, Base, Kept, Prev, Opt, Via, Exact;
    CandidateWraps(errs, soft, n, s, top);
    WaysClose(soft, n, s, top);
    assert w <= Candidate(errs, soft, n - 1, s, top);
  }

  lemma CandidateWraps(errs: seq<U16>, soft: seq<Byte>, n: nat, s: nat, top: bool)
    requires |errs| >= 64 && 7 <= n <= NUM_FRAME_BITS && 2 * n <= |soft| && s < 64 && Kept(n, s)
    requires Exact(errs, soft, n - 1, Base(soft, n - 1))
    ensures var true_ := Via(soft, n, s, top) - Base(soft, n - 1);
      Candidate(errs, soft, n - 1, s, top) == if true_ > 0xFFFF then true_ - 0x1_0000 else true_
  {
    hide StepCost, Base, Kept, Prev, Opt;
    PrevKept(n, s, top);
    var p := Prev(s, top);
    assert errs[p] + Base(soft, n - 1) == Opt(soft, n - 1, p);
  }

  // Over any run: all errors are the true minima exactly if nothing wraps.
  lemma {:induction false} ExactWhileNoWrap(start: seq<U16>, steps: seq<Step>, soft: seq<Byte>)
    requires IsRun(start, steps, soft)
    ensures AllExact(steps, soft) <==> NoWrap(soft, |steps| + 6)
    ensures Columns(Decisions(steps)) && |ErrsAfter(start, steps)| >= 64
    ensures NoWrap(soft, |steps| + 6) ==> Ready(ErrsAfter(start, steps), Decisions(steps), soft)
    decreases |steps|
  {
    hide StepFits, RowSelected, BroughtDown, Exact, Ready, Base, Phase, Opt, StepFrom;
    if |steps| == 0 {
      hide NoWrap;
      RunStarts(start, soft);
      assert NoWrap(soft, 6) by { EarlyFits(soft); }
    } else {
      var before, t := steps[..|steps| - 1], steps[|steps| - 1];
      ExactWhileNoWrap(start, before, soft);
      assert AllExact(steps, soft) <==> AllExact(before, soft) && |t.written| >= 64 && Exact(t.written, soft, |steps| + 6, Base(soft, |steps| + 5));
      StepColumn(ErrsAfter(start, before), t, soft, |steps| + 6);
      if NoWrap(soft, |before| + 6) {
        RunStep(ErrsAfter(start, before), Decisions(before), t, soft);
      }
    }
  }

  lemma EarlyFits(soft: seq<Byte>)
    requires |soft| >= 12
    ensures NoWrap(soft, 6)
  {}

  lemma StepColumn(before: seq<U16>, t: Step, soft: seq<Byte>, n: nat)
    requires 7 <= n <= NUM_FRAME_BITS && 2 * n <= |soft| && StepFrom(before, t, soft, n)
    ensures |before| >= 64 && |t.written| >= 64 && |t.errs| >= 64 && Column(t.column)
  {
    hide RowSelected, BroughtDown;
  }

  lemma RunStarts(start: seq<U16>, soft: seq<Byte>)
    requires IsRun(start, [], soft)
    ensures |start| >= 64 && Ready(start, [], soft)
  {
    hide Opt;
    StartReady(start, soft);
  }

  lemma RunStep(errs: seq<U16>, cols: seq<seq<bool>>, t: Step, soft: seq<Byte>)
    requires |errs| >= 64 && Columns(cols) && |cols| + 7 <= NUM_FRAME_BITS && 2 * |cols| + 14 <= |soft|
    requires Ready(errs, cols, soft) && StepFrom(errs, t, soft, |cols| + 7)
    ensures |t.written| >= 64 && |t.errs| >= 64 && Column(t.column)
    ensures Exact(t.written, soft, |cols| + 7, Base(soft, |cols| + 6)) <==> StepFits(soft, |cols| + 7)
    ensures StepFits(soft, |cols| + 7) ==> Ready(t.errs, cols + [t.column], soft)
  {
    hide StepFits, RowSelected, BroughtDown, Exact, SurvivorsBest, Base, Phase;
    var n := |cols| + 7;
    ExactIffFits(errs, t.written, t.column, soft, n, n > NUM_FRAME_BITS - 6);
    if StepFits(soft, n) {
      assert Phase(|cols| + 1) == 0 ==> Least(t.written, 1, t.best);
      ColumnErrors(errs, t.written, t.errs, cols, t.column, t.best, soft, n > NUM_FRAME_BITS - 6);
    }
  }

  // ----- when the sums do wrap ----------------------------------------------------------

  // Soft values that say nothing, for n steps.
  predicate Silent(soft: seq<Byte>, n: nat) {
    forall i :: 0 <= i < 2 * n && i < |soft| ==> soft[i] == 0
  }

  lemma {:induction false} SilentCost(soft: seq<Byte>, n: nat, s: nat)
    requires Silent(soft, n) && 2 * n <= |soft| && s < LiveCount(n)
    ensures Opt(soft, n, s) == if n == 0 then 0 else 510 * (n - 1)
    decreases n
  {
    hide Output, Prev;
    if 1 < n <= 6 {
      SilentCost(soft, n - 1, s / 2);
      SilentStep(soft, n - 1, s);
    } else if 6 < n {
      SilentCost(soft, n - 1, Prev(s, false));
      SilentCost(soft, n - 1, Prev(s, true));
      SilentStep(soft, n - 1, s);
      SilentStep(soft, n - 1, s + 64);
    }
  }

  lemma SilentStep(soft: seq<Byte>, i: nat, r: nat)
    requires 2 * i + 1 < |soft| && soft[2 * i] == 0 && soft[2 * i + 1] == 0
    ensures StepCost(soft, i, r) == 510
  {
    hide Output, Distance;
    DistanceLinear(Output(r), soft[2 * i], soft[2 * i + 1]);
  }

  // Silence outlasts the 16 bits: the sums pass 65535 from the 130th step on, before the
  // first renormalisation.
  lemma {:induction false} SilenceWraps(soft: seq<Byte>, n: nat)
    requires Silent(soft, n) && 2 * n <= |soft|
    ensures NoWrap(soft, n) <==> n <= 129
    decreases n
  {
    hide Opt, StepCost, Prev, Base;
    if n > 6 {
      SilenceWraps(soft, n - 1);
      if n <= 130 {
        assert Base(soft, n - 1) == 0 by { NoBaseYet(soft, n - 1); }
        forall s, top | 0 <= s < 64 && Kept(n, s)
          ensures Via(soft, n, s, top) == 510 * (n - 1)
        {
          SilentVia(soft, n, s, top);
        }
        assert Kept(n, 0);
        SilentVia(soft, n, 0, false);
      }
    }
  }

  lemma SilentVia(soft: seq<Byte>, n: nat, s: nat, top: bool)
    requires Silent(soft, n) && 7 <= n && 2 * n <= |soft| && s < 64
    ensures Via(soft, n, s, top) == 510 * (n - 1)
  {
    hide Opt, StepCost, Prev;
    SilentCost(soft, n - 1, Prev(s, top));
    SilentStep(soft, n - 1, s + 64 * AsInt(top));
  }

  lemma {:induction false} NoBaseYet(soft: seq<Byte>, n: nat)
    requires 2 * n <= |soft| && n < 134
    ensures Base(soft, n) == 0
  {
    hide MinOpt;
    if n > 6 {
      NoBaseYet(soft, n - 1);
      assert (n - 6) % RENORMALIZE_INTERVAL == n - 6;
    }
  }

  lemma RunSplit(start: seq<U16>, steps: seq<Step>, soft: seq<Byte>)
    requires IsRun(start, steps, soft) && |steps| > 0
    ensures var before, t := steps[..|steps| - 1], steps[|steps| - 1];
      IsRun(start, before, soft) && StepFrom(ErrsAfter(start, before), t, soft, |steps| + 6) && Decisions(steps) == Decisions(before) + [t.column]
  {
    hide StepFrom;
  }

  lemma ZeroOutputs()
    ensures Output(0) == 0 && Output(64) == 3
  {
    OutputIsParity(false, false, false, false, false, false, false);
    OutputIsParity(false, false, false, false, false, false, true);
  }

  // The two ways into state zero after 129 silent steps and a pair of strong ones.
  lemma LastWays(soft: seq<Byte>)
    requires |soft| >= 260 && Silent(soft, 129) && soft[258] == 128 && soft[259] == 128
    ensures Via(soft, 130, 0, false) == 66046 && Via(soft, 130, 0, true) == 65534
  {
    hide Opt, Output;
    ZeroOutputs();
    SilentCost(soft, 129, Prev(0, false));
    SilentCost(soft, 129, Prev(0, true));
  }

  lemma WrongWay(errs: seq<U16>, t: Step, soft: seq<Byte>)
    requires |soft| >= 260 && |errs| >= 64 && Exact(errs, soft, 129, 0) && Base(soft, 129) == 0 && StepFrom(errs, t, soft, 130)
    requires Via(soft, 130, 0, false) == 66046 && Via(soft, 130, 0, true) == 65534
    ensures !t.column[0]
  {
    hide Via, Base, Candidate, BroughtDown, Least;
    assert Kept(130, 0);
    CandidateWraps(errs, soft, 130, 0, false);
    CandidateWraps(errs, soft, 130, 0, true);
    assert Selected(errs, soft, 129, 0, false, t.written[0], t.column[0]);
  }

  lemma SurvivorOfLast(errs: seq<U16>, cols: seq<seq<bool>>, c: seq<bool>, soft: seq<Byte>)
    requires |errs| >= 64 && Columns(cols) && |cols| == 123 && |soft| >= 260 && Column(c) && Ready(errs, cols, soft)
    ensures PathCost(soft, Survivor(cols + [c], 0)) == Via(soft, 130, 0, c[0])
  {
    hide Exact, PathCost, Survivor, Opt, Via, Prev, Base;
    assert Kept(130, 0);
    PrevKept(130, 0, c[0]);
    SurvivorExtends(cols, c, soft, 0);
  }

  // All states that are kept have the same error.
  predicate Even(errs: seq<U16>, n: nat)
    requires |errs| >= 64
  {
    forall s, t :: 0 <= s < 64 && 0 <= t < 64 && Kept(n, s) && Kept(n, t) ==> errs[s] == errs[t]
  }

  lemma EvenStep(before: seq<U16>, t: Step, soft: seq<Byte>, n: nat)
    requires 7 <= n <= NUM_FRAME_BITS && 2 * n <= |soft| && StepFrom(before, t, soft, n) && Even(before, n - 1) && Silent(soft, n)
    ensures Even(t.errs, n) && forall s :: 0 <= s < 64 && Kept(n, s) ==> t.column[s] == (n > NUM_FRAME_BITS - 6)
  {
    hide StepCost, Prev, Kept, Least;
    forall s | 0 <= s < 64 && Kept(n, s)
      ensures t.column[s] == (n > NUM_FRAME_BITS - 6) && t.written[s] == Wrap(before[Prev(0, false)] as int + 510)
    {
      assert Kept(n, 0) by { ZeroIsKept(n); }
      PrevKept(n, 0, false);
      PrevKept(n, s, false);
      PrevKept(n, s, true);
      SilentStep(soft, n - 1, s);
      SilentStep(soft, n - 1, s + 64);
      assert Selected(before, soft, n - 1, s, n > NUM_FRAME_BITS - 6, t.written[s], t.column[s]);
    }
  }

  lemma ZeroIsKept(n: nat)
    ensures Kept(n, 0)
  {}

  // How ties are decided: on silence every state of every step is reached by the low way, and in
  // the tail by the high one, wrapped sums or not.
  lemma {:induction false} SilentTies(start: seq<U16>, steps: seq<Step>, soft: seq<Byte>)
    requires IsRun(start, steps, soft) && Silent(soft, |steps| + 6)
    ensures |ErrsAfter(start, steps)| >= 64 && Even(ErrsAfter(start, steps), |steps| + 6)
    ensures |steps| > 0 ==> var c := steps[|steps| - 1].column;
      |c| == 64 && forall s :: 0 <= s < 64 && Kept(|steps| + 6, s) ==> c[s] == (|steps| > NUM_FRAME_BITS - 12)
    decreases |steps|
  {
    hide StepFrom, Opt;
    if |steps| == 0 {
      forall s | 0 <= s < 64
        ensures start[s] == 2550
      {
        SilentCost(soft, 6, s);
      }
    } else {
      var before, t := steps[..|steps| - 1], steps[|steps| - 1];
      SilentTies(start, before, soft);
      StepColumn(ErrsAfter(start, before), t, soft, |steps| + 6);
      EvenStep(ErrsAfter(start, before), t, soft, |steps| + 6);
    }
  }

  // A wrapped sum can win. After 129 silent steps, one pair of strong values makes the decoder
  // reach state zero by the way that costs 512 more than the other, whose sum just fits.
  lemma WrapMisleads(start: seq<U16>, steps: seq<Step>, soft: seq<Byte>)
    requires IsRun(start, steps, soft) && |steps| == 124 && |soft| >= 260
    requires Silent(soft, 129) && soft[258] == 128 && soft[259] == 128
    ensures Columns(Decisions(steps)) && PathCost(soft, Survivor(Decisions(steps), 0)) == Opt(soft, 130, 0) + 512
  {
    hide Exact, SurvivorsBest, Opt, PathCost, Survivor, StepFrom, Decisions, NoWrap, Via, Base, IsRun;
    var before, t := steps[..123], steps[123];
    var errs, cols := ErrsAfter(start, before), Decisions(before);
    RunSplit(start, steps, soft);
    ExactWhileNoWrap(start, before, soft);
    SilenceWraps(soft, 129);
    LastWays(soft);
    NoBaseYet(soft, 129);
    StepColumn(errs, t, soft, 130);
    WrongWay(errs, t, soft);
    SurvivorOfLast(errs, cols, t.column, soft);
    OptIsLesser(soft, 130, 0);
  }
}
