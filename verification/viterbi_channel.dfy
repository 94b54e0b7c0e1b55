// What the Viterbi decoder does, in terms of the channel: signed soft values go in as two's
// complement bytes, the code is given by its delays, and numbers come out.
module ViterbiChannel {
  import opened ViterbiCode
  import opened ViterbiSurvivors
  import opened ViterbiCorrection
  import ViterbiDecoder
  import BitIo
  import BitReader
  import Huffman

  // ----- values and bytes ---------------------------------------------------------------

  type Soft = v: int | -128 <= v < 128

  function Wire(values: seq<Soft>): (soft: seq<Byte>)
    ensures |soft| == |values|
  {
    seq(|values|, j requires 0 <= j < |values| => TwosComplement(values[j]))
  }

  function TwosComplement(v: Soft): Byte {
    v as int % 256
  }

  lemma SignedOfWire(v: Soft)
    ensures Signed(TwosComplement(v)) == v
  {}

  // The metric of the decoder's table, for a pair of values and the pair of bits that hard codes.
  lemma MetricOfValues(hard: nat, v0: Soft, v1: Soft)
    requires hard < 4
    ensures Distance(hard, TwosComplement(v0), TwosComplement(v1)) == Off(v0, hard % 2 == 1) + Off(v1, hard / 2 == 1)
  {
    hide Signed;
    SignedOfWire(v0);
    SignedOfWire(v1);
  }

  // ----- the code -----------------------------------------------------------------------

  // Whether an odd number of the bits at the given delays before bit i are set.
  predicate Odd(u: seq<bool>, i: int, delays: seq<nat>) {
    if |delays| == 0 then false
    else (0 <= i - delays[0] < |u| && u[i - delays[0]]) != Odd(u, i, delays[1..])
  }

  const FIRST_DELAYS: seq<nat> := [0, 1, 2, 3, 6]
  const SECOND_DELAYS: seq<nat> := [0, 2, 3, 5, 6]

  // The code word of u: two bits for each.
  function CodeWord(u: seq<bool>): (c: seq<bool>)
    ensures |c| == 2 * |u|
  {
    seq(2 * |u|, j requires 0 <= j < 2 * |u| => Odd(u, j / 2, if j % 2 == 0 then FIRST_DELAYS else SECOND_DELAYS))
  }

  lemma OddOfFive(u: seq<bool>, i: int, d: seq<nat>)
    requires |d| == 5
    ensures Odd(u, i, d) == (At(u, i - d[0]) != (At(u, i - d[1]) != (At(u, i - d[2]) != (At(u, i - d[3]) != At(u, i - d[4])))))
  {
    assert d[1..][1..] == d[2..] && d[2..][1..] == d[3..] && d[3..][1..] == d[4..] && d[4..][1..] == [];
    assert Odd(u, i, d[3..]) == (At(u, i - d[3]) != Odd(u, i, d[4..]));
    assert Odd(u, i, d[2..]) == (At(u, i - d[2]) != Odd(u, i, d[3..]));
  }

  lemma CodeWordBit(u: seq<bool>, i: nat)
    requires i < |u|
    ensures CodeWord(u)[2 * i] == CodeBit(u, i, false) && CodeWord(u)[2 * i + 1] == CodeBit(u, i, true)
  {
    hide At;
    assert 2 * i / 2 == i && (2 * i + 1) / 2 == i && 2 * i % 2 == 0 && (2 * i + 1) % 2 == 1;
    OddOfFive(u, i, FIRST_DELAYS);
    OddOfFive(u, i, SECOND_DELAYS);
  }

  // ----- what a path costs --------------------------------------------------------------

  // How far a value is from what was sent at full strength, zero being positive.
  function Off(v: int, bit: bool): nat {
    var off := v - (if bit then -255 else 255);
    if off < 0 then -off else off
  }

  // All of this, but for the first two values, which the decoder does not use.
  function Cost(values: seq<Soft>, c: seq<bool>): nat
    requires |c| <= |values|
  {
    if |c| <= 2 then 0 else Cost(values, c[..|c| - 1]) + Off(values[|c| - 1], c[|c| - 1])
  }

  lemma {:induction false} CostOfPath(values: seq<Soft>, u: seq<bool>)
    requires 2 * |u| <= |values|
    ensures PathCost(Wire(values), u) == Cost(values, CodeWord(u))
    decreases |u|
  {
    hide CodeBit, Distance, Output, Odd, Reg;
    if |u| > 1 {
      var n, w := |u| - 1, u[..|u| - 1];
      CostOfPath(values, w);
      assert u == w + [u[n]];
      PrefixCode(w, u[n]);
      CodeWordBit(u, n);
      var c := CodeWord(u);
      assert c[..2 * n + 1][..2 * n] == CodeWord(w);
      assert c[..|c| - 1] == c[..2 * n + 1];
      assert Cost(values, c[..2 * n + 1]) == Cost(values, CodeWord(w)) + Off(values[2 * n], c[2 * n]);
      assert u[..n + 1] == u;
      StepCostOf(Wire(values), u, n);
      StrengthOfValue(values, u, n);
    }
  }

  lemma PrefixCode(w: seq<bool>, b: bool)
    ensures CodeWord(w + [b])[..2 * |w|] == CodeWord(w)
  {
    hide CodeBit, Odd;
    var u := w + [b];
    forall i | 0 <= i < |w|
      ensures CodeWord(u)[2 * i] == CodeWord(w)[2 * i] && CodeWord(u)[2 * i + 1] == CodeWord(w)[2 * i + 1]
    {
      CodeWordBit(u, i);
      CodeWordBit(w, i);
      SameCodeBits(w, b, i);
    }
    forall j | 0 <= j < 2 * |w|
      ensures CodeWord(u)[j] == CodeWord(w)[j]
    {
      assert j == 2 * (j / 2) || j == 2 * (j / 2) + 1;
    }
  }

  lemma SameCodeBits(w: seq<bool>, b: bool, i: nat)
    requires i < |w|
    ensures CodeBit(w + [b], i, false) == CodeBit(w, i, false) && CodeBit(w + [b], i, true) == CodeBit(w, i, true)
  {}

  // How strongly a value speaks for a bit.
  function Margin(v: int, bit: bool): int {
    if bit then -v else v
  }

  lemma StrengthOfValue(values: seq<Soft>, u: seq<bool>, i: nat)
    requires i < |u| && 2 * i + 1 < |values|
    ensures var c := CodeWord(u);
      Strength(Wire(values), u, i, false) == Margin(values[2 * i], c[2 * i]) && Strength(Wire(values), u, i, true) == Margin(values[2 * i + 1], c[2 * i + 1])
  {
    hide CodeBit, Odd, Signed;
    CodeWordBit(u, i);
    SignedOfWire(values[2 * i]);
    SignedOfWire(values[2 * i + 1]);
  }

  // ----- frames received well enough ----------------------------------------------------

  // The number of values from position p to q that speak for their bit less than strongly.
  function Weak(values: seq<Soft>, c: seq<bool>, p: nat, q: nat): nat
    requires p <= q <= |c| <= |values|
  {
    if p == q then 0 else Weak(values, c, p, q - 1) + if Margin(values[q - 1], c[q - 1]) < 77 then 1 else 0
  }

  // All values have the right sign and a strength of 25, or, but for some, of 77: in any stretch of
  // steps at most three, and one more for every 28 steps, are weaker or wrong, however much.
  ghost predicate Fair(values: seq<Soft>, u: seq<bool>)
    requires 2 * |u| <= |values|
  {
    var c := CodeWord(u);
    (forall j :: 0 <= j < |c| ==> Margin(values[j], c[j]) >= 25) ||
    forall i: nat, k: nat :: i <= k <= |u| ==> 28 * Weak(values, c, 2 * i, 2 * k) <= 84 + k - i
  }

  lemma {:induction false} WeakIsBad(values: seq<Soft>, u: seq<bool>, i: nat, k: nat)
    requires i <= k <= |u| && 2 * |u| <= |values|
    ensures Weak(values, CodeWord(u), 2 * i, 2 * k) == Bad(Wire(values), u, STRONG, i, k)
    decreases k
  {
    hide Strength, Margin, CodeWord;
    if i < k {
      WeakIsBad(values, u, i, k - 1);
      StrengthOfValue(values, u, k - 1);
      var c := CodeWord(u);
      assert Weak(values, c, 2 * i, 2 * k) == Weak(values, c, 2 * i, 2 * k - 1) + if Margin(values[2 * k - 1], c[2 * k - 1]) < 77 then 1 else 0;
    }
  }

  lemma FairIsTolerable(values: seq<Soft>, u: seq<bool>)
    requires 2 * |u| <= |values|
    ensures Fair(values, u) <==> Tolerable(Wire(values), u)
  {
    hide Strength, Margin, CodeWord, Wire;
    var c, soft := CodeWord(u), Wire(values);
    forall i | 0 <= i < |u|
      ensures Strength(soft, u, i, false) == Margin(values[2 * i], c[2 * i]) && Strength(soft, u, i, true) == Margin(values[2 * i + 1], c[2 * i + 1])
    {
      StrengthOfValue(values, u, i);
    }
    if AllFirm(soft, u) {
      forall j | 0 <= j < |c|
        ensures Margin(values[j], c[j]) >= 25
      {
        var i := j / 2;
        assert j == 2 * i || j == 2 * i + 1;
        assert Strength(soft, u, i, j == 2 * i + 1) >= FIRM;
      }
    }
    forall i: nat, k: nat | i <= k <= |u|
      ensures Weak(values, c, 2 * i, 2 * k) == Bad(soft, u, STRONG, i, k)
    {
      WeakIsBad(values, u, i, k);
    }
    assert (forall j :: 0 <= j < |c| ==> Margin(values[j], c[j]) >= 25) <==> AllFirm(soft, u);
  }

  // ----- the decoder on the channel -----------------------------------------------------

  // A frame that ends in six zeros.
  predicate Frame(u: seq<bool>) {
    |u| == NUM_FRAME_BITS && forall i :: |u| - 6 <= i < |u| ==> !u[i]
  }

  lemma FrameState(u: seq<bool>)
    requires |u| == NUM_FRAME_BITS
    ensures Frame(u) <==> StateOf(u) == 0
  {
    hide AsInt;
    var n := |u|;
    ZeroState(At(u, n - 1), At(u, n - 2), At(u, n - 3), At(u, n - 4), At(u, n - 5), At(u, n - 6));
    assert Frame(u) <==> !u[n - 1] && !u[n - 2] && !u[n - 3] && !u[n - 4] && !u[n - 5] && !u[n - 6];
  }

  lemma ZeroState(c0: bool, c1: bool, c2: bool, c3: bool, c4: bool, c5: bool)
    ensures State(c0, c1, c2, c3, c4, c5) == 0 <==> !c0 && !c1 && !c2 && !c3 && !c4 && !c5
  {}

  // The number in byte k of the frame, first bit highest.
  function ByteOf(u: seq<bool>, k: nat): nat
    requires 8 * k + 8 <= |u|
  {
    Huffman.Value(u[8 * k..8 * k + 8])
  }

  // Whatever frame was sent, if its values arrive fairly its bytes come out.
  method DecodeFrame(decoder: ViterbiDecoder.Viterbi, values: seq<Soft>, decoded: array<bv8>)
    requires decoder.Valid() && |values| == 2 * NUM_FRAME_BITS && decoded.Length >= ViterbiDecoder.WHOLE_BYTES
    requires decoded != decoder.fetched && decoded as object != decoder.distances && decoded as object != decoder.pairDistances
    requires decoded as object != decoder.history && decoded as object != decoder.err0 && decoded as object != decoder.err1
    modifies decoder, decoder.distances, decoder.pairDistances, decoder.history, decoder.fetched, decoder.err0, decoder.err1, decoded
    ensures decoder.Valid()
    ensures forall u :: Frame(u) && Fair(values, u) ==> forall k :: 0 <= k < ViterbiDecoder.WHOLE_BYTES ==> decoded[k] as int == ByteOf(u, k)
  {
    hide Fair, BitIo.Bits, Tolerable, StateOf, Huffman.Value;
    VitDecode(decoder, Wire(values), decoded);
    ghost var bytes := decoded[..ViterbiDecoder.WHOLE_BYTES];
    forall u | Frame(u) && Fair(values, u)
      ensures forall k :: 0 <= k < ViterbiDecoder.WHOLE_BYTES ==> decoded[k] as int == ByteOf(u, k)
    {
      FairIsTolerable(values, u);
      FrameState(u);
      forall k | 0 <= k < ViterbiDecoder.WHOLE_BYTES
        ensures decoded[k] as int == ByteOf(u, k)
      {
        BitReader.ByteIsValue(bytes, k);
        assert u[..8 * ViterbiDecoder.WHOLE_BYTES][8 * k..8 * k + 8] == u[8 * k..8 * k + 8];
      }
    }
  }

  // Such a frame is the one closest to the values: every other frame costs more.
  lemma FairIsClosest(values: seq<Soft>, u: seq<bool>, w: seq<bool>)
    requires |values| == 2 * NUM_FRAME_BITS && Frame(u) && Frame(w) && Fair(values, u) && w != u
    ensures Cost(values, CodeWord(u)) < Cost(values, CodeWord(w))
  {
    hide Fair, Tolerable, StateOf, PathCost, CodeWord, Cost, Opt;
    var soft := Wire(values);
    FairIsTolerable(values, u);
    FrameState(u);
    FrameState(w);
    CostOfPath(values, u);
    CostOfPath(values, w);
    OptIsMinimum(soft, |u|, 0);
    ReceivedIsBest(soft, u);
    BestPathAttains(soft, |u|, 0);
    if PathCost(soft, w) == Opt(soft, |w|, 0) {
      forall i | 0 <= i < |u|
        ensures u[i] == w[i]
      {
        BestEndAgrees(soft, u, w, i);
      }
    }
  }
}
