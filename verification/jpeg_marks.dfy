// The entropy coding of images by the marks of ITU-T T.81: what the numbers of a category mean
// (section F.1.2), some codes of the standard's tables, and where decoding stops.
module JpegMarks {
  import opened Huffman
  import opened JpegTables
  import opened JpegBlocks

  // ----- categories ---------------------------------------------------------------------

  // The values of category n are those of n binary digits, with either sign.
  lemma CategoryMeans(x: int, n: nat)
    ensures Category(x) == n <==> if n == 0 then x == 0 else Power2(n - 1) <= (if x < 0 then -x else x) < Power2(n)
  {
    hide Power2, BitLength;
    var a: nat := if x < 0 then -x else x;
    CategoryIsLength(x);
    BitLengthMeans(a);
    LengthOfZero();
    if a > 0 && n > 0 {
      if n < BitLength(a) {
        PowerGrows(n, BitLength(a) - 1);
      } else if n > BitLength(a) {
        PowerGrows(BitLength(a), n - 1);
      }
    }
  }

  lemma CategoryIsLength(x: int)
    ensures Category(x) == BitLength(if x < 0 then -x else x)
  {}

  lemma LengthOfZero()
    ensures BitLength(0) == 0
  {}

  lemma {:induction false} PowerGrows(i: nat, j: nat)
    requires i <= j
    ensures Power2(i) <= Power2(j)
    decreases j
  {
    if i < j {
      PowerGrows(i, j - 1);
    }
  }

  // The numbers of a category stand for its values in ascending order: those whose first bit is
  // zero for the negative ones and the others for themselves.
  lemma NumbersAscend(n: nat, v: nat)
    requires n > 0 && v < Power2(n)
    ensures var x := MapRange(n, v);
      (if v >= Power2(n - 1) then x == v && x > 0 else x == v + 1 - Power2(n) && x < 0) && Category(x) == n
    ensures v + 1 < Power2(n) ==> MapRange(n, v) < MapRange(n, v + 1)
  {
    hide Category;
    assert Power2(n) == 2 * Power2(n - 1);
    AtLeast(v, Power2(n - 1));
    AtLeast(v + 1, Power2(n - 1));
    CategoryMeans(MapRange(n, v), n);
  }

  // ----- codes of the standard ----------------------------------------------------------

  // Codes of Annex K.3 of ITU-T T.81, as their lengths and numbers: the end of a block is 1010,
  // sixteen zeros are 11111111001 and the shortest code is 00.
  lemma StandardAcCodes()
    ensures Length(AcCounts(), Index(0, 0)) == 4 && Code(AcCounts(), Index(0, 0)) == 0xA
    ensures Length(AcCounts(), Index(15, 0)) == 11 && Code(AcCounts(), Index(15, 0)) == 0x7F9
    ensures Length(AcCounts(), Index(0, 1)) == 2 && Code(AcCounts(), Index(0, 1)) == 0
  {
    hide Length, Code;
    StandardPlaces();
    EndOfBlockCode();
    SixteenZerosCode();
    ShortestCode();
  }

  lemma StandardPlaces()
    ensures Index(0, 0) == 3 && Index(15, 0) == 31 && Index(0, 1) == 0
  {}

  lemma EndOfBlockCode()
    ensures Length(AcCounts(), 3) == 4 && Code(AcCounts(), 3) == 0xA
  {}

  lemma SixteenZerosCode()
    ensures Length(AcCounts(), 31) == 11 && Code(AcCounts(), 31) == 0x7F9
  {
    var c := AcCounts();
    assert LengthFrom(c, 8, 10) == 11 && RankFrom(c, 8, 10) == 3;
    assert LengthFrom(c, 16, 8) == 11 && RankFrom(c, 16, 8) == 3;
    assert LengthFrom(c, 22, 6) == 11 && RankFrom(c, 22, 6) == 3;
    assert LengthFrom(c, 28, 4) == 11 && RankFrom(c, 28, 4) == 3;
    assert First(c, 4) == 0xA && First(c, 6) == 0x3A;
    assert First(c, 8) == 0xF8 && First(c, 10) == 0x3F6;
  }

  lemma ShortestCode()
    ensures Length(AcCounts(), 0) == 2 && Code(AcCounts(), 0) == 0
  {}

  // ----- where decoding stops -----------------------------------------------------------

  // No DC code begins with nine ones.
  lemma NineOnesAreBad(bits: seq<bool>, pos: nat)
    requires pos + 16 <= |bits| && forall i :: pos <= i < pos + 9 ==> bits[i]
    ensures GetDcReal(Word(bits, pos)) == -1
  {
    hide Value;
    var w := bits[pos..pos + 16];
    var v := Value(w);
    assert forall i :: 0 <= i < 9 ==> w[i];
    OnesBound(w);
    NoSuchCode(v);
  }

  // A word that starts with nine ones and goes on in any way.
  lemma OnesBound(w: seq<bool>)
    requires |w| == 16 && forall i :: 0 <= i < 9 ==> w[i]
    ensures 0xFF80 <= Value(w) < 0x1_0000
  {
    hide Value;
    ValueBound(w);
    PowersOfTwo();
    NineOnes(w[..9]);
    LowerBound(w);
  }

  lemma LowerBound(w: seq<bool>)
    requires |w| == 16
    ensures Value(w) >= 128 * Value(w[..9])
  {
    hide Value;
    assert w[..16] == w;
    forall k | 9 <= k < 16
      ensures Value(w[..k + 1]) >= 2 * Value(w[..k])
    {
      ValueStep(w, k);
    }
    assert Value(w[..10]) >= 2 * Value(w[..9]) && Value(w[..11]) >= 2 * Value(w[..10]) && Value(w[..12]) >= 2 * Value(w[..11]);
    assert Value(w[..13]) >= 2 * Value(w[..12]) && Value(w[..14]) >= 2 * Value(w[..13]) && Value(w[..15]) >= 2 * Value(w[..14]);
    assert Value(w[..16]) >= 2 * Value(w[..15]);
  }

  lemma ValueStep(w: seq<bool>, k: nat)
    requires k < |w|
    ensures Value(w[..k + 1]) >= 2 * Value(w[..k])
  {
    assert w[..k + 1][..k] == w[..k];
  }

  lemma NineOnes(x: seq<bool>)
    requires |x| == 9 && forall i :: 0 <= i < 9 ==> x[i]
    ensures Value(x) == 511
  {
    hide Value;
    assert x[..9] == x && x[..0] == [];
    NothingIsZero();
    forall k | 0 <= k < 9
      ensures Value(x[..k + 1]) == 2 * Value(x[..k]) + 1
    {
      OneMoreOne(x, k);
    }
    assert Value(x[..1]) == 1 && Value(x[..2]) == 3 && Value(x[..3]) == 7 && Value(x[..4]) == 15 && Value(x[..5]) == 31;
    assert Value(x[..6]) == 63 && Value(x[..7]) == 127 && Value(x[..8]) == 255 && Value(x[..9]) == 511;
  }

  lemma NothingIsZero()
    ensures Value([]) == 0
  {}

  lemma OneMoreOne(x: seq<bool>, k: nat)
    requires k < |x| && x[k]
    ensures Value(x[..k + 1]) == 2 * Value(x[..k]) + 1
  {
    assert x[..k + 1][..k] == x[..k];
  }

  lemma NoSuchCode(v: nat)
    requires 0xFF80 <= v < 0x1_0000
    ensures GetDcReal(v) == -1
  {}

  // Coded blocks before such a word are all that is decoded.
  lemma {:induction false} BadCodeCuts(bits: seq<bool>, pos: nat, blocks: seq<seq<int>>, prevDc: int, count: nat)
    requires AllInLimits(blocks, prevDc) && |blocks| < count && Holds(bits, pos, EncodeBlocks(blocks, prevDc))
    requires var p := pos + |EncodeBlocks(blocks, prevDc)|; forall i :: p <= i < p + 9 ==> bits[i]
    ensures DecodeBlocks(bits, pos, prevDc, count) == Cut(blocks)
    decreases |blocks|
  {
    hide DecodeBlock, EncodeBlock, Holds, Category, Word;
    if |blocks| == 0 {
      HoldsRoom(bits, pos, []);
      NineOnesAreBad(bits, pos);
      BadStops(bits, pos, prevDc);
    } else {
      var code, rest := EncodeBlock(blocks[0], prevDc), EncodeBlocks(blocks[1..], blocks[0][0]);
      HoldsBoth(bits, pos, code, rest);
      BlockRoundTrip(bits, pos, blocks[0], prevDc);
      BadCodeCuts(bits, pos + |code|, blocks[1..], blocks[0][0], count - 1);
      assert blocks == [blocks[0]] + blocks[1..];
    }
  }

  lemma HoldsRoom(bits: seq<bool>, pos: nat, code: seq<bool>)
    requires Holds(bits, pos, code)
    ensures pos + |code| + 16 <= |bits|
  {}

  lemma BadStops(bits: seq<bool>, pos: nat, prevDc: int)
    requires pos + 16 <= |bits| && GetDcReal(Word(bits, pos)) == -1
    ensures DecodeBlock(bits, pos, prevDc) == Bad
  {}
}
