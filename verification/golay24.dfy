// The extended Golay (24,12) code of golay24.c: encoding, decoding by syndromes, and why every
// word within three bits of a codeword comes back as that codeword. Words are lists of bits,
// most significant first.
module Golay24 {

  const N := 12

  // ----- bits ---------------------------------------------------------------------------

  function AsInt(b: bool): (i: int)
    ensures 0 <= i <= 1
  {
    if b then 1 else 0
  }

  function Xor(x: seq<bool>, y: seq<bool>): (z: seq<bool>)
    requires |x| == |y|
    ensures |z| == |x| && forall i :: 0 <= i < |x| ==> z[i] == (x[i] != y[i])
  {
    seq(|x|, i requires 0 <= i < |x| => x[i] != y[i])
  }

  function Zeros(n: nat): (z: seq<bool>)
    ensures |z| == n && forall i :: 0 <= i < n ==> !z[i]
  {
    seq(n, _ => false)
  }

  // Whether an odd number of the bits that the mask selects are set.
  predicate OddFrom(mask: seq<bool>, x: seq<bool>, i: nat)
    requires |mask| == |x| && i <= |x|
    decreases |x| - i
  {
    if i == |x| then false else (mask[i] && x[i]) != OddFrom(mask, x, i + 1)
  }

  // The parity of a masked word.
  predicate Parity(mask: seq<bool>, x: seq<bool>)
    requires |mask| == |x|
  {
    OddFrom(mask, x, 0)
  }

  function WeightFrom(x: seq<bool>, i: nat): nat
    requires i <= |x|
    decreases |x| - i
  {
    if i == |x| then 0 else AsInt(x[i]) + WeightFrom(x, i + 1)
  }

  // The number of ones.
  function Weight(x: seq<bool>): nat {
    WeightFrom(x, 0)
  }

  lemma {:induction false} OddOfXor(mask: seq<bool>, x: seq<bool>, y: seq<bool>, i: nat)
    requires |mask| == |x| == |y| && i <= |x|
    ensures OddFrom(mask, Xor(x, y), i) == (OddFrom(mask, x, i) != OddFrom(mask, y, i))
    decreases |x| - i
  {
    if i < |x| {
      OddOfXor(mask, x, y, i + 1);
    }
  }

  lemma {:induction false} OddOfZeros(mask: seq<bool>, x: seq<bool>, i: nat, j: nat)
    requires |mask| == |x| && i <= j <= |x| && forall k :: i <= k < j ==> !mask[k] || !x[k]
    ensures OddFrom(mask, x, i) == OddFrom(mask, x, j)
    decreases j - i
  {
    if i < j {
      OddOfZeros(mask, x, i + 1, j);
    }
  }

  lemma {:induction false} OddOfSuffix(mask: seq<bool>, x: seq<bool>, k: nat, i: nat)
    requires |mask| == |x| && k + i <= |x|
    ensures OddFrom(mask, x, k + i) == OddFrom(mask[k..], x[k..], i)
    decreases |x| - i
  {
    if k + i < |x| {
      OddOfSuffix(mask, x, k, i + 1);
    }
  }

  lemma {:induction false} WeightOfXor(x: seq<bool>, y: seq<bool>, i: nat)
    requires |x| == |y| && i <= |x|
    ensures WeightFrom(Xor(x, y), i) <= WeightFrom(x, i) + WeightFrom(y, i)
    decreases |x| - i
  {
    if i < |x| {
      WeightOfXor(x, y, i + 1);
    }
  }

  lemma {:induction false} WeightOfConcat(x: seq<bool>, y: seq<bool>, i: nat)
    requires i <= |x|
    ensures WeightFrom(x + y, i) == WeightFrom(x, i) + Weight(y)
    decreases |x| - i
  {
    if i < |x| {
      WeightOfConcat(x, y, i + 1);
    } else {
      WeightOfSuffix(x + y, |x|, 0);
      assert (x + y)[|x|..] == y;
    }
  }

  lemma {:induction false} WeightOfSuffix(x: seq<bool>, k: nat, i: nat)
    requires k + i <= |x|
    ensures WeightFrom(x, k + i) == WeightFrom(x[k..], i)
    decreases |x| - i
  {
    if k + i < |x| {
      WeightOfSuffix(x, k, i + 1);
    }
  }

  lemma {:induction false} WeightZero(x: seq<bool>, i: nat)
    requires i <= |x|
    ensures WeightFrom(x, i) == 0 <==> forall k :: i <= k < |x| ==> !x[k]
    decreases |x| - i
  {
    if i < |x| {
      WeightZero(x, i + 1);
    }
  }

  lemma WeightOfZeros(n: nat)
    ensures Weight(Zeros(n)) == 0
  {
    WeightZero(Zeros(n), 0);
  }

  // ----- the matrix ---------------------------------------------------------------------

  function TwelveBits(b: bv12): (x: seq<bool>)
    ensures |x| == N
  {
    [b & 0x800 != 0, b & 0x400 != 0, b & 0x200 != 0, b & 0x100 != 0, b & 0x080 != 0, b & 0x040 != 0, b & 0x020 != 0, b & 0x010 != 0, b & 0x008 != 0, b & 0x004 != 0, b & 0x002 != 0, b & 0x001 != 0]
  }

  // Row i of B, the low half of H[i].
  function B(i: nat): (x: seq<bool>)
    requires i < N
    ensures |x| == N
  {
    TwelveBits(
      if i == 0 then 0x8ED else if i == 1 then 0x1DB else if i == 2 then 0x3B5 else if i == 3 then 0x769
      else if i == 4 then 0xED1 else if i == 5 then 0xDA3 else if i == 6 then 0xB47 else if i == 7 then 0x68F
      else if i == 8 then 0xD1D else if i == 9 then 0xA3B else if i == 10 then 0x477 else 0xFFE)
  }

  function Unit(i: nat): (x: seq<bool>)
    requires i < N
    ensures |x| == N
  {
    seq(N, k => k == i)
  }

  // A row of the parity check matrix, as a 32-bit word: the identity beside B.
  function H(i: nat): (x: seq<bool>)
    requires i < N
    ensures |x| == 32
  {
    Zeros(8) + Unit(i) + B(i)
  }

  // B times a column of twelve bits.
  function Times(x: seq<bool>): (y: seq<bool>)
    requires |x| == N
    ensures |y| == N && forall i :: 0 <= i < N ==> y[i] == Parity(B(i), x)
  {
    seq(N, i requires 0 <= i < N => Parity(B(i), x))
  }

  // B is linear.
  lemma TimesXor(x: seq<bool>, y: seq<bool>)
    requires |x| == N && |y| == N
    ensures Times(Xor(x, y)) == Xor(Times(x), Times(y))
  {
    hide B, OddFrom;
    forall i | 0 <= i < N
      ensures Times(Xor(x, y))[i] == Xor(Times(x), Times(y))[i]
    {
      OddOfXor(B(i), x, y, 0);
    }
  }

  // ----- the matrix, bit by bit ---------------------------------------------------------

  lemma Unrolled(mask: seq<bool>, x: seq<bool>)
    requires |mask| == N && |x| == N
    ensures Parity(mask, x) == ((mask[0] && x[0]) != ((mask[1] && x[1]) != ((mask[2] && x[2]) != ((mask[3] && x[3]) != ((mask[4] && x[4]) != ((mask[5] && x[5]) != ((mask[6] && x[6]) != ((mask[7] && x[7]) != ((mask[8] && x[8]) != ((mask[9] && x[9]) != ((mask[10] && x[10]) != (mask[11] && x[11]))))))))))))
  {
    assert OddFrom(mask, x, 11) == ((mask[11] && x[11]) != OddFrom(mask, x, 12));
    assert OddFrom(mask, x, 10) == ((mask[10] && x[10]) != OddFrom(mask, x, 11));
    assert OddFrom(mask, x, 9) == ((mask[9] && x[9]) != OddFrom(mask, x, 10));
    assert OddFrom(mask, x, 8) == ((mask[8] && x[8]) != OddFrom(mask, x, 9));
    assert OddFrom(mask, x, 7) == ((mask[7] && x[7]) != OddFrom(mask, x, 8));
    assert OddFrom(mask, x, 6) == ((mask[6] && x[6]) != OddFrom(mask, x, 7));
    assert OddFrom(mask, x, 5) == ((mask[5] && x[5]) != OddFrom(mask, x, 6));
    assert OddFrom(mask, x, 4) == ((mask[4] && x[4]) != OddFrom(mask, x, 5));
    assert OddFrom(mask, x, 3) == ((mask[3] && x[3]) != OddFrom(mask, x, 4));
    assert OddFrom(mask, x, 2) == ((mask[2] && x[2]) != OddFrom(mask, x, 3));
    assert OddFrom(mask, x, 1) == ((mask[1] && x[1]) != OddFrom(mask, x, 2));
    assert OddFrom(mask, x, 0) == ((mask[0] && x[0]) != OddFrom(mask, x, 1));
  }

  lemma RowIs0(x: seq<bool>)
    requires |x| == N
    ensures Parity(B(0), x) == (x[0] != (x[4] != (x[5] != (x[6] != (x[8] != (x[9] != x[11]))))))
  {
    hide Parity;
    Unrolled(B(0), x);
  }

  lemma RowIs1(x: seq<bool>)
    requires |x| == N
    ensures Parity(B(1), x) == (x[3] != (x[4] != (x[5] != (x[7] != (x[8] != (x[10] != x[11]))))))
  {
    hide Parity;
    Unrolled(B(1), x);
  }

  lemma RowIs2(x: seq<bool>)
    requires |x| == N
    ensures Parity(B(2), x) == (x[2] != (x[3] != (x[4] != (x[6] != (x[7] != (x[9] != x[11]))))))
  {
    hide Parity;
    Unrolled(B(2), x);
  }

  lemma RowIs3(x: seq<bool>)
    requires |x| == N
    ensures Parity(B(3), x) == (x[1] != (x[2] != (x[3] != (x[5] != (x[6] != (x[8] != x[11]))))))
  {
    hide Parity;
    Unrolled(B(3), x);
  }

  lemma RowIs4(x: seq<bool>)
    requires |x| == N
    ensures Parity(B(4), x) == (x[0] != (x[1] != (x[2] != (x[4] != (x[5] != (x[7] != x[11]))))))
  {
    hide Parity;
    Unrolled(B(4), x);
  }

  lemma RowIs5(x: seq<bool>)
    requires |x| == N
    ensures Parity(B(5), x) == (x[0] != (x[1] != (x[3] != (x[4] != (x[6] != (x[10] != x[11]))))))
  {
    hide Parity;
    Unrolled(B(5), x);
  }

  lemma RowIs6(x: seq<bool>)
    requires |x| == N
    ensures Parity(B(6), x) == (x[0] != (x[2] != (x[3] != (x[5] != (x[9] != (x[10] != x[11]))))))
  {
    hide Parity;
    Unrolled(B(6), x);
  }

  lemma RowIs7(x: seq<bool>)
    requires |x| == N
    ensures Parity(B(7), x) == (x[1] != (x[2] != (x[4] != (x[8] != (x[9] != (x[10] != x[11]))))))
  {
    hide Parity;
    Unrolled(B(7), x);
  }

  lemma RowIs8(x: seq<bool>)
    requires |x| == N
    ensures Parity(B(8), x) == (x[0] != (x[1] != (x[3] != (x[7] != (x[8] != (x[9] != x[11]))))))
  {
    hide Parity;
    Unrolled(B(8), x);
  }

  lemma RowIs9(x: seq<bool>)
    requires |x| == N
    ensures Parity(B(9), x) == (x[0] != (x[2] != (x[6] != (x[7] != (x[8] != (x[10] != x[11]))))))
  {
    hide Parity;
    Unrolled(B(9), x);
  }

  lemma RowIs10(x: seq<bool>)
    requires |x| == N
    ensures Parity(B(10), x) == (x[1] != (x[5] != (x[6] != (x[7] != (x[9] != (x[10] != x[11]))))))
  {
    hide Parity;
    Unrolled(B(10), x);
  }

  lemma RowIs11(x: seq<bool>)
    requires |x| == N
    ensures Parity(B(11), x) == (x[0] != (x[1] != (x[2] != (x[3] != (x[4] != (x[5] != (x[6] != (x[7] != (x[8] != (x[9] != x[10]))))))))))
  {
    hide Parity;
    Unrolled(B(11), x);
  }

  // Bit by bit, y is B times x.
  predicate IsProduct(x: seq<bool>, y: seq<bool>)
    requires |x| == N && |y| == N
  {
    y[0] == (x[0] != (x[4] != (x[5] != (x[6] != (x[8] != (x[9] != x[11])))))) &&
    y[1] == (x[3] != (x[4] != (x[5] != (x[7] != (x[8] != (x[10] != x[11])))))) &&
    y[2] == (x[2] != (x[3] != (x[4] != (x[6] != (x[7] != (x[9] != x[11])))))) &&
    y[3] == (x[1] != (x[2] != (x[3] != (x[5] != (x[6] != (x[8] != x[11])))))) &&
    y[4] == (x[0] != (x[1] != (x[2] != (x[4] != (x[5] != (x[7] != x[11])))))) &&
    y[5] == (x[0] != (x[1] != (x[3] != (x[4] != (x[6] != (x[10] != x[11])))))) &&
    y[6] == (x[0] != (x[2] != (x[3] != (x[5] != (x[9] != (x[10] != x[11])))))) &&
    y[7] == (x[1] != (x[2] != (x[4] != (x[8] != (x[9] != (x[10] != x[11])))))) &&
    y[8] == (x[0] != (x[1] != (x[3] != (x[7] != (x[8] != (x[9] != x[11])))))) &&
    y[9] == (x[0] != (x[2] != (x[6] != (x[7] != (x[8] != (x[10] != x[11])))))) &&
    y[10] == (x[1] != (x[5] != (x[6] != (x[7] != (x[9] != (x[10] != x[11])))))) &&
    y[11] == (x[0] != (x[1] != (x[2] != (x[3] != (x[4] != (x[5] != (x[6] != (x[7] != (x[8] != (x[9] != x[10]))))))))))
  }

  lemma TimesBits(x: seq<bool>)
    requires |x| == N
    ensures IsProduct(x, Times(x))
  {
    hide B, Parity;
    RowIs0(x); RowIs1(x); RowIs2(x); RowIs3(x);
    RowIs4(x); RowIs5(x); RowIs6(x); RowIs7(x);
    RowIs8(x); RowIs9(x); RowIs10(x); RowIs11(x);
  }

  lemma TimesRow0()
    ensures Times(B(0)) == Unit(0)
  {
    assert Parity(B(0), B(0)); assert !Parity(B(1), B(0)); assert !Parity(B(2), B(0)); assert !Parity(B(3), B(0));
    assert !Parity(B(4), B(0)); assert !Parity(B(5), B(0)); assert !Parity(B(6), B(0)); assert !Parity(B(7), B(0));
    assert !Parity(B(8), B(0)); assert !Parity(B(9), B(0)); assert !Parity(B(10), B(0)); assert !Parity(B(11), B(0));
    hide B, Parity;
    assert forall k :: 0 <= k < N ==> Times(B(0))[k] == Unit(0)[k];
  }

  lemma TimesRow1()
    ensures Times(B(1)) == Unit(1)
  {
    assert !Parity(B(0), B(1)); assert Parity(B(1), B(1)); assert !Parity(B(2), B(1)); assert !Parity(B(3), B(1));
    assert !Parity(B(4), B(1)); assert !Parity(B(5), B(1)); assert !Parity(B(6), B(1)); assert !Parity(B(7), B(1));
    assert !Parity(B(8), B(1)); assert !Parity(B(9), B(1)); assert !Parity(B(10), B(1)); assert !Parity(B(11), B(1));
    hide B, Parity;
    assert forall k :: 0 <= k < N ==> Times(B(1))[k] == Unit(1)[k];
  }

  lemma TimesRow2()
    ensures Times(B(2)) == Unit(2)
  {
    assert !Parity(B(0), B(2)); assert !Parity(B(1), B(2)); assert Parity(B(2), B(2)); assert !Parity(B(3), B(2));
    assert !Parity(B(4), B(2)); assert !Parity(B(5), B(2)); assert !Parity(B(6), B(2)); assert !Parity(B(7), B(2));
    assert !Parity(B(8), B(2)); assert !Parity(B(9), B(2)); assert !Parity(B(10), B(2)); assert !Parity(B(11), B(2));
    hide B, Parity;
    assert forall k :: 0 <= k < N ==> Times(B(2))[k] == Unit(2)[k];
  }

  lemma TimesRow3()
    ensures Times(B(3)) == Unit(3)
  {
    assert !Parity(B(0), B(3)); assert !Parity(B(1), B(3)); assert !Parity(B(2), B(3)); assert Parity(B(3), B(3));
    assert !Parity(B(4), B(3)); assert !Parity(B(5), B(3)); assert !Parity(B(6), B(3)); assert !Parity(B(7), B(3));
    assert !Parity(B(8), B(3)); assert !Parity(B(9), B(3)); assert !Parity(B(10), B(3)); assert !Parity(B(11), B(3));
    hide B, Parity;
    assert forall k :: 0 <= k < N ==> Times(B(3))[k] == Unit(3)[k];
  }

  lemma TimesRow4()
    ensures Times(B(4)) == Unit(4)
  {
    assert !Parity(B(0), B(4)); assert !Parity(B(1), B(4)); assert !Parity(B(2), B(4)); assert !Parity(B(3), B(4));
    assert Parity(B(4), B(4)); assert !Parity(B(5), B(4)); assert !Parity(B(6), B(4)); assert !Parity(B(7), B(4));
    assert !Parity(B(8), B(4)); assert !Parity(B(9), B(4)); assert !Parity(B(10), B(4)); assert !Parity(B(11), B(4));
    hide B, Parity;
    assert forall k :: 0 <= k < N ==> Times(B(4))[k] == Unit(4)[k];
  }

  lemma TimesRow5()
    ensures Times(B(5)) == Unit(5)
  {
    assert !Parity(B(0), B(5)); assert !Parity(B(1), B(5)); assert !Parity(B(2), B(5)); assert !Parity(B(3), B(5));
    assert !Parity(B(4), B(5)); assert Parity(B(5), B(5)); assert !Parity(B(6), B(5)); assert !Parity(B(7), B(5));
    assert !Parity(B(8), B(5)); assert !Parity(B(9), B(5)); assert !Parity(B(10), B(5)); assert !Parity(B(11), B(5));
    hide B, Parity;
    assert forall k :: 0 <= k < N ==> Times(B(5))[k] == Unit(5)[k];
  }

  lemma TimesRow6()
    ensures Times(B(6)) == Unit(6)
  {
    assert !Parity(B(0), B(6)); assert !Parity(B(1), B(6)); assert !Parity(B(2), B(6)); assert !Parity(B(3), B(6));
    assert !Parity(B(4), B(6)); assert !Parity(B(5), B(6)); assert Parity(B(6), B(6)); assert !Parity(B(7), B(6));
    assert !Parity(B(8), B(6)); assert !Parity(B(9), B(6)); assert !Parity(B(10), B(6)); assert !Parity(B(11), B(6));
    hide B, Parity;
    assert forall k :: 0 <= k < N ==> Times(B(6))[k] == Unit(6)[k];
  }

  lemma TimesRow7()
    ensures Times(B(7)) == Unit(7)
  {
    assert !Parity(B(0), B(7)); assert !Parity(B(1), B(7)); assert !Parity(B(2), B(7)); assert !Parity(B(3), B(7));
    assert !Parity(B(4), B(7)); assert !Parity(B(5), B(7)); assert !Parity(B(6), B(7)); assert Parity(B(7), B(7));
    assert !Parity(B(8), B(7)); assert !Parity(B(9), B(7)); assert !Parity(B(10), B(7)); assert !Parity(B(11), B(7));
    hide B, Parity;
    assert forall k :: 0 <= k < N ==> Times(B(7))[k] == Unit(7)[k];
  }

  lemma TimesRow8()
    ensures Times(B(8)) == Unit(8)
  {
    assert !Parity(B(0), B(8)); assert !Parity(B(1), B(8)); assert !Parity(B(2), B(8)); assert !Parity(B(3), B(8));
    assert !Parity(B(4), B(8)); assert !Parity(B(5), B(8)); assert !Parity(B(6), B(8)); assert !Parity(B(7), B(8));
    assert Parity(B(8), B(8)); assert !Parity(B(9), B(8)); assert !Parity(B(10), B(8)); assert !Parity(B(11), B(8));
    hide B, Parity;
    assert forall k :: 0 <= k < N ==> Times(B(8))[k] == Unit(8)[k];
  }

  lemma TimesRow9()
    ensures Times(B(9)) == Unit(9)
  {
    assert !Parity(B(0), B(9)); assert !Parity(B(1), B(9)); assert !Parity(B(2), B(9)); assert !Parity(B(3), B(9));
    assert !Parity(B(4), B(9)); assert !Parity(B(5), B(9)); assert !Parity(B(6), B(9)); assert !Parity(B(7), B(9));
    assert !Parity(B(8), B(9)); assert Parity(B(9), B(9)); assert !Parity(B(10), B(9)); assert !Parity(B(11), B(9));
    hide B, Parity;
    assert forall k :: 0 <= k < N ==> Times(B(9))[k] == Unit(9)[k];
  }

  lemma TimesRow10()
    ensures Times(B(10)) == Unit(10)
  {
    assert !Parity(B(0), B(10)); assert !Parity(B(1), B(10)); assert !Parity(B(2), B(10)); assert !Parity(B(3), B(10));
    assert !Parity(B(4), B(10)); assert !Parity(B(5), B(10)); assert !Parity(B(6), B(10)); assert !Parity(B(7), B(10));
    assert !Parity(B(8), B(10)); assert !Parity(B(9), B(10)); assert Parity(B(10), B(10)); assert !Parity(B(11), B(10));
    hide B, Parity;
    assert forall k :: 0 <= k < N ==> Times(B(10))[k] == Unit(10)[k];
  }

  lemma TimesRow11()
    ensures Times(B(11)) == Unit(11)
  {
    assert !Parity(B(0), B(11)); assert !Parity(B(1), B(11)); assert !Parity(B(2), B(11)); assert !Parity(B(3), B(11));
    assert !Parity(B(4), B(11)); assert !Parity(B(5), B(11)); assert !Parity(B(6), B(11)); assert !Parity(B(7), B(11));
    assert !Parity(B(8), B(11)); assert !Parity(B(9), B(11)); assert !Parity(B(10), B(11)); assert Parity(B(11), B(11));
    hide B, Parity;
    assert forall k :: 0 <= k < N ==> Times(B(11))[k] == Unit(11)[k];
  }

  lemma TimesRow(i: nat)
    requires i < N
    ensures Times(B(i)) == Unit(i)
  {
    hide B, Times, Unit;
    if i == 0 { TimesRow0(); }
    else if i == 1 { TimesRow1(); }
    else if i == 2 { TimesRow2(); }
    else if i == 3 { TimesRow3(); }
    else if i == 4 { TimesRow4(); }
    else if i == 5 { TimesRow5(); }
    else if i == 6 { TimesRow6(); }
    else if i == 7 { TimesRow7(); }
    else if i == 8 { TimesRow8(); }
    else if i == 9 { TimesRow9(); }
    else if i == 10 { TimesRow10(); }
    else if i == 11 { TimesRow11(); }
  }

  // B is symmetric.
  lemma Symmetric(i: nat, j: nat)
    requires i < N && j < N
    ensures B(i)[j] == B(j)[i]
  {
    if i == 0 {  }
    else if i == 1 {  }
    else if i == 2 {  }
    else if i == 3 {  }
    else if i == 4 {  }
    else if i == 5 {  }
    else if i == 6 {  }
    else if i == 7 {  }
    else if i == 8 {  }
    else if i == 9 {  }
    else if i == 10 {  }
    else if i == 11 {  }
  }

  lemma OddOfUnit(mask: seq<bool>, i: nat)
    requires |mask| == N && i < N
    ensures Parity(mask, Unit(i)) == mask[i]
  {
    OddOfZeros(mask, Unit(i), 0, i);
    OddOfZeros(mask, Unit(i), i + 1, N);
  }

  // The columns of B are its rows.
  lemma TimesUnit(i: nat)
    requires i < N
    ensures Times(Unit(i)) == B(i)
  {
    hide B, Parity;
    forall j | 0 <= j < N
      ensures Times(Unit(i))[j] == B(i)[j]
    {
      OddOfUnit(B(j), i);
      Symmetric(i, j);
    }
  }

  function Front(x: seq<bool>, k: nat): (y: seq<bool>)
    requires k <= |x|
    ensures |y| == |x|
  {
    x[..k] + Zeros(|x| - k)
  }

  // A linear map that fixes the units fixes everything.
  lemma {:induction false} TimesTwiceFront(x: seq<bool>, k: nat)
    requires |x| == N && k <= N
    ensures Times(Times(Front(x, k))) == Front(x, k)
    decreases k
  {
    hide Times, B;
    if k == 0 {
      TimesZero();
      assert Front(x, 0) == Zeros(N);
    } else {
      TimesTwiceFront(x, k - 1);
      var f := Front(x, k - 1);
      if x[k - 1] {
        assert Front(x, k) == Xor(f, Unit(k - 1));
        TimesXor(f, Unit(k - 1));
        TimesXor(Times(f), Times(Unit(k - 1)));
        TimesUnit(k - 1);
        TimesRow(k - 1);
      } else {
        assert Front(x, k) == f;
      }
    }
  }

  lemma TimesZero()
    ensures Times(Zeros(N)) == Zeros(N)
  {
    hide B;
    forall i | 0 <= i < N
      ensures !Times(Zeros(N))[i]
    {
      OddOfZeros(B(i), Zeros(N), 0, N);
    }
  }

  // B is its own inverse.
  lemma TimesTwice(x: seq<bool>)
    requires |x| == N
    ensures Times(Times(x)) == x
  {
    TimesTwiceFront(x, N);
    assert Front(x, N) == x;
  }

  function Count(x: seq<bool>): int
    requires |x| == N
  {
    AsInt(x[0]) + AsInt(x[1]) + AsInt(x[2]) + AsInt(x[3]) + AsInt(x[4]) + AsInt(x[5]) + AsInt(x[6]) + AsInt(x[7]) + AsInt(x[8]) + AsInt(x[9]) + AsInt(x[10]) + AsInt(x[11])
  }

  lemma WeightBits(x: seq<bool>)
    requires |x| == N
    ensures Weight(x) == Count(x)
  {
    hide AsInt;
    assert WeightFrom(x, 11) == AsInt(x[11]) + WeightFrom(x, 12);
    assert WeightFrom(x, 10) == AsInt(x[10]) + WeightFrom(x, 11);
    assert WeightFrom(x, 9) == AsInt(x[9]) + WeightFrom(x, 10);
    assert WeightFrom(x, 8) == AsInt(x[8]) + WeightFrom(x, 9);
    assert WeightFrom(x, 7) == AsInt(x[7]) + WeightFrom(x, 8);
    assert WeightFrom(x, 6) == AsInt(x[6]) + WeightFrom(x, 7);
    assert WeightFrom(x, 5) == AsInt(x[5]) + WeightFrom(x, 6);
    assert WeightFrom(x, 4) == AsInt(x[4]) + WeightFrom(x, 5);
    assert WeightFrom(x, 3) == AsInt(x[3]) + WeightFrom(x, 4);
    assert WeightFrom(x, 2) == AsInt(x[2]) + WeightFrom(x, 3);
    assert WeightFrom(x, 1) == AsInt(x[1]) + WeightFrom(x, 2);
    assert WeightFrom(x, 0) == AsInt(x[0]) + WeightFrom(x, 1);
  }

  lemma MinCount000(x: seq<bool>, y: seq<bool>)
    requires |x| == N && |y| == N && IsProduct(x, y) && !x[0] && !x[1] && !x[2]
    requires x[3] || x[4] || x[5] || x[6] || x[7] || x[8] || x[9] || x[10] || x[11]
    ensures Count(x) + Count(y) >= 8
  {}

  lemma MinCount001(x: seq<bool>, y: seq<bool>)
    requires |x| == N && |y| == N && IsProduct(x, y) && !x[0] && !x[1] && x[2]
    ensures Count(x) + Count(y) >= 8
  {}

  lemma MinCount010(x: seq<bool>, y: seq<bool>)
    requires |x| == N && |y| == N && IsProduct(x, y) && !x[0] && x[1] && !x[2]
    ensures Count(x) + Count(y) >= 8
  {}

  lemma MinCount011(x: seq<bool>, y: seq<bool>)
    requires |x| == N && |y| == N && IsProduct(x, y) && !x[0] && x[1] && x[2]
    ensures Count(x) + Count(y) >= 8
  {}

  lemma MinCount100(x: seq<bool>, y: seq<bool>)
    requires |x| == N && |y| == N && IsProduct(x, y) && x[0] && !x[1] && !x[2]
    ensures Count(x) + Count(y) >= 8
  {}

  lemma MinCount101(x: seq<bool>, y: seq<bool>)
    requires |x| == N && |y| == N && IsProduct(x, y) && x[0] && !x[1] && x[2]
    ensures Count(x) + Count(y) >= 8
  {}

  lemma MinCount110(x: seq<bool>, y: seq<bool>)
    requires |x| == N && |y| == N && IsProduct(x, y) && x[0] && x[1] && !x[2]
    ensures Count(x) + Count(y) >= 8
  {}

  lemma MinCount111(x: seq<bool>, y: seq<bool>)
    requires |x| == N && |y| == N && IsProduct(x, y) && x[0] && x[1] && x[2]
    ensures Count(x) + Count(y) >= 8
  {}

  lemma SomeOne(x: seq<bool>)
    requires |x| == N && x != Zeros(N)
    ensures x[0] || x[1] || x[2] || x[3] || x[4] || x[5] || x[6] || x[7] || x[8] || x[9] || x[10] || x[11]
  {
    if forall i :: 0 <= i < N ==> !x[i] {
      EqualZeros(x);
      assert false;
    }
  }

  lemma EqualZeros(x: seq<bool>)
    requires forall i :: 0 <= i < |x| ==> !x[i]
    ensures x == Zeros(|x|)
  {}

  // A codeword other than zero has at least eight ones: case by case over the first three bits.
  lemma MinWeight(x: seq<bool>)
    requires |x| == N && x != Zeros(N)
    ensures Weight(x) + Weight(Times(x)) >= 8
  {
    hide Weight, Times, Count, IsProduct;
    var y := Times(x);
    TimesBits(x);
    WeightBits(x);
    WeightBits(y);
    SomeOne(x);
    if x[0] {
      if x[1] {
        if x[2] { MinCount111(x, y); } else { MinCount110(x, y); }
      } else {
        if x[2] { MinCount101(x, y); } else { MinCount100(x, y); }
      }
    } else {
      if x[1] {
        if x[2] { MinCount011(x, y); } else { MinCount010(x, y); }
      } else {
        if x[2] { MinCount001(x, y); } else { MinCount000(x, y); }
      }
    }
  }
}
