// The Golay code and its message block in terms of what is sent: messages of twelve bits, twelve
// check bits in front of each, and a few bits flipped on the way.
module GolayChannel {
  import opened Golay24
  import opened GolayDecoder

  // ----- the code -----------------------------------------------------------------------

  // The check matrix: eleven rows that are rotations of each other, with the numbers below as the
  // places of their ones, a column of ones beside them and a row of ones below them.
  predicate Checks(i: nat, j: nat) {
    if i == 11 then j < 11
    else j == 11 || (i + j) % 11 in {0, 4, 5, 6, 8, 9}
  }

  lemma MatrixIsRotated(i: nat, j: nat)
    requires i < N && j < N
    ensures B(i)[j] == Checks(i, j)
  {}

  // Check bit i of a message: whether an odd number of the bits that it checks are set.
  predicate CheckFrom(m: seq<bool>, i: nat, j: nat)
    requires |m| == N && j <= N
    decreases N - j
  {
    if j == N then false else (Checks(i, j) && m[j]) != CheckFrom(m, i, j + 1)
  }

  // What is sent for a message: the check bits and the message bits.
  function SentUnit(m: seq<bool>): (u: seq<bool>)
    requires |m| == N
    ensures |u| == 24
  {
    seq(24, j requires 0 <= j < 24 => if j < 12 then CheckFrom(m, j, 0) else m[j - 12])
  }

  lemma {:induction false} CheckIsParity(m: seq<bool>, i: nat, j: nat)
    requires |m| == N && i < N && j <= N
    ensures CheckFrom(m, i, j) == OddFrom(B(i), m, j)
    decreases N - j
  {
    hide B, Checks;
    if j < N {
      CheckIsParity(m, i, j + 1);
      MatrixIsRotated(i, j);
    }
  }

  lemma SentUnitIsSent(m: seq<bool>)
    requires |m| == N
    ensures var c := Zeros(8) + SentUnit(m); Sent(c) && Low(c) == m
  {
    hide B, Checks, Times;
    var c := Zeros(8) + SentUnit(m);
    assert Low(c) == m;
    assert High(c) == Times(m) by {
      forall i | 0 <= i < N
        ensures High(c)[i] == Times(m)[i]
      {
        CheckIsParity(m, i, 0);
      }
    }
    XorSelf(Times(m));
    assert c[..8] == Zeros(8);
  }

  // ----- messages -----------------------------------------------------------------------

  // The bits of unit i as they came in: a byte that is not zero is a one.
  function Came(input: seq<bv8>, offset: nat, i: nat): (r: seq<bool>)
    requires offset + 24 * i + 24 <= |input|
    ensures |r| == 24
  {
    seq(24, j requires 0 <= j < 24 => input[offset + 24 * i + j] != 0)
  }

  predicate Messages(messages: seq<seq<bool>>) {
    forall i :: 0 <= i < |messages| ==> |messages[i]| == N
  }

  // In how many bits unit i differs from what is sent for the message.
  function Flips(input: seq<bv8>, offset: nat, i: nat, m: seq<bool>): nat
    requires offset + 24 * i + 24 <= |input| && |m| == N
  {
    Weight(Xor(Came(input, offset, i), SentUnit(m)))
  }

  lemma FlipsAreDistance(input: seq<bv8>, offset: nat, i: nat, m: seq<bool>)
    requires offset + 24 * i + 24 <= |input| && |m| == N
    ensures Distance(UnitAt(input, offset, i), Zeros(8) + SentUnit(m)) == Flips(input, offset, i, m)
  {
    hide SentUnit, Weight;
    var x, y := Came(input, offset, i), SentUnit(m);
    var u, c := UnitAt(input, offset, i), Zeros(8) + y;
    assert u == Zeros(8) + x;
    assert Xor(u, c) == Zeros(8) + Xor(x, y);
    WeightBehindZeros(Xor(x, y));
  }

  lemma WeightBehindZeros(x: seq<bool>)
    ensures Weight(Zeros(8) + x) == Weight(x)
  {
    WeightOfZeros(8);
    WeightOfConcat(Zeros(8), x, 0);
  }

  function Words(messages: seq<seq<bool>>): (words: seq<seq<bool>>)
    requires Messages(messages)
    ensures |words| == |messages|
  {
    seq(|messages|, i requires 0 <= i < |messages| => Zeros(8) + SentUnit(messages[i]))
  }

  lemma {:induction false} PayloadIs(messages: seq<seq<bool>>, i: nat, j: nat)
    requires Messages(messages) && i < |messages| && j < N
    ensures Payload(Words(messages))[12 * i + j] == if messages[i][j] then 1 else 0
    decreases |messages|
  {
    hide SentUnit;
    var n := |messages| - 1;
    var before := messages[..n];
    assert Words(messages)[..n] == Words(before);
    SentUnitIsSent(messages[n]);
    if i < n {
      PayloadIs(before, i, j);
    }
  }

  // No unit has more than three flipped bits.
  predicate FewFlips(input: seq<bv8>, offset: nat, messages: seq<seq<bool>>) {
    Messages(messages) && offset + 24 * |messages| <= |input| && forall i :: 0 <= i < |messages| ==> Flips(input, offset, i, messages[i]) <= 3
  }

  // In front what was before the units, then the bits of the messages, then what was after them.
  predicate Holds(out: seq<bv8>, input: seq<bv8>, offset: nat, messages: seq<seq<bool>>)
    requires Messages(messages) && offset + 24 * |messages| <= |input|
  {
    |out| == |input| - 12 * |messages| &&
    out[..offset] == input[..offset] && out[offset + 12 * |messages|..] == input[offset + 24 * |messages|..] &&
    forall i, j :: 0 <= i < |messages| && 0 <= j < N ==> out[offset + 12 * i + j] == if messages[i][j] then 1 else 0
  }

  lemma PayloadHolds(input: seq<bv8>, offset: nat, messages: seq<seq<bool>>)
    requires Messages(messages) && offset + 24 * |messages| <= |input|
    ensures Holds(input[..offset] + Payload(Words(messages)) + input[offset + 24 * |messages|..], input, offset, messages)
  {
    hide SentUnit, Payload;
    var p := Payload(Words(messages));
    var out := input[..offset] + p + input[offset + 24 * |messages|..];
    forall i, j | 0 <= i < |messages| && 0 <= j < N
      ensures out[offset + 12 * i + j] == if messages[i][j] then 1 else 0
    {
      PayloadIs(messages, i, j);
      assert out[offset + 12 * i + j] == p[12 * i + j];
    }
  }

  // Whatever came in, messages whose units have at most three flipped bits each come out. A unit
  // with exactly four flips keeps anything from coming out.
  method Receive(offset: nat, numUnits: nat, input: seq<bv8>) returns (published: Option<seq<bv8>>)
    requires offset + 24 * numUnits <= |input|
    ensures forall messages :: |messages| == numUnits && FewFlips(input, offset, messages) ==>
      published.Some? && Holds(published.value, input, offset, messages)
    ensures forall i, m: seq<bool> :: 0 <= i < numUnits && |m| == N && Flips(input, offset, i, m) == 4 ==> published == None
  {
    hide SentUnit, Weight, Payload, Words, Holds, Near, Flips;
    published := MsgHandler(offset, numUnits, input);
    forall messages | |messages| == numUnits && FewFlips(input, offset, messages)
      ensures published.Some? && Holds(published.value, input, offset, messages)
    {
      AllNear(offset, input, messages);
      PayloadHolds(input, offset, messages);
    }
    forall i, m: seq<bool> | 0 <= i < numUnits && |m| == N && Flips(input, offset, i, m) == 4
      ensures published == None
    {
      SentUnitIsSent(m);
      FlipsAreDistance(input, offset, i, m);
    }
  }

  lemma AllNear(offset: nat, input: seq<bv8>, messages: seq<seq<bool>>)
    requires Messages(messages) && offset + 24 * |messages| <= |input|
    requires forall i :: 0 <= i < |messages| ==> Flips(input, offset, i, messages[i]) <= 3
    ensures Near(input, offset, Words(messages))
  {
    hide SentUnit, Weight;
    forall i | 0 <= i < |messages|
      ensures Sent(Words(messages)[i]) && Distance(UnitWord(input, offset + 24 * i), Words(messages)[i]) <= 3
    {
      SentUnitIsSent(messages[i]);
      FlipsAreDistance(input, offset, i, messages[i]);
    }
  }
}
