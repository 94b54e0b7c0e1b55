// Entropy coding of the image blocks in meteor_image.cc: each block of 64 coefficients is a coded
// difference of its first coefficient and coded runs of zeros and values; decoding inverts
// encoding.
module JpegBlocks {
  import opened Huffman
  import opened JpegTables
  import opened BitReader
  import BitIo

  // ----- values -------------------------------------------------------------------------

  function Abs(x: int): nat {
    if x < 0 then -x else x
  }

  function BitLength(x: nat): nat {
    if x == 0 then 0 else 1 + BitLength(x / 2)
  }

  // The number of bits that a value takes.
  function Category(x: int): nat {
    BitLength(Abs(x))
  }

  lemma {:induction false} BitLengthMeans(x: nat)
    ensures x < Power2(BitLength(x))
    ensures x > 0 ==> BitLength(x) >= 1 && Power2(BitLength(x) - 1) <= x
    decreases x
  {
    if x > 0 {
      BitLengthMeans(x / 2);
      if x / 2 == 0 {
        assert BitLength(0) == 0;
      }
    }
  }

  // The number sent for a value: negative values are moved to the lower half of the range.
  function Sent(x: int): int {
    if x >= 0 then x else x + Power2(Category(x)) - 1
  }

  lemma SentInRange(x: int)
    ensures 0 <= Sent(x) < Power2(Category(x))
    ensures x != 0 ==> Category(x) >= 1 && (x > 0 <==> Sent(x) >= Power2(Category(x) - 1))
  {
    hide BitLength;
    BitLengthMeans(Abs(x));
    if x != 0 {
      var c := Category(x);
      assert Power2(c) == 2 * Power2(c - 1);
    }
  }

  // The bits sent for a value.
  function Magnitude(x: int): (b: seq<bool>)
    ensures |b| == Category(x)
  {
    SentInRange(x);
    BitsOf(Sent(x), Category(x))
  }

  // The value that a number of a category stands for.
  function MapRange(cat: nat, vl: nat): int {
    var maxval := Power2(cat) - 1;
    var sig := cat > 0 && vl / Power2(cat - 1) != 0;
    if sig then vl else vl - maxval
  }

  lemma AtLeast(x: nat, p: nat)
    requires p >= 1
    ensures x / p != 0 <==> x >= p
  {
    if x >= p {
      QuotientBound(x, 1, p);
    }
  }

  // Mapping inverts sending.
  lemma MapRangeInverts(x: int)
    ensures MapRange(Category(x), Value(Magnitude(x))) == x
  {
    hide BitsOf, Value, Category;
    SentInRange(x);
    ValueOfBits(Sent(x), Category(x));
    if x == 0 {
      assert Category(0) == 0 by { CategoryOfZero(); }
      assert Power2(0) == 1;
    } else {
      AtLeast(Sent(x), Power2(Category(x) - 1));
    }
  }

  lemma CategoryOfZero()
    ensures Category(0) == 0
  {}

  // ----- encoding -----------------------------------------------------------------------

  const BLOCK := 64

  // The limits of the tables.
  predicate InLimits(block: seq<int>, prevDc: int) {
    |block| == BLOCK && Category(block[0] - prevDc) < DC_CODES && forall i :: 1 <= i < BLOCK ==> Category(block[i]) <= 10
  }

  function AcCode(run: nat, size: nat): seq<bool> {
    CodeBits(AcCounts(), Index(run, size))
  }

  function DcCodeBits(cat: nat): seq<bool> {
    CodeBits(DcCounts(), cat)
  }

  // The number of zeros from k on.
  function RunFrom(block: seq<int>, k: nat): (r: nat)
    requires k <= |block|
    ensures k + r <= |block| && forall i :: k <= i < k + r ==> block[i] == 0
    ensures k + r < |block| ==> block[k + r] != 0
    decreases |block| - k
  {
    if k == |block| || block[k] != 0 then 0 else 1 + RunFrom(block, k + 1)
  }

  // The coefficients from k on: runs of zeros and values, sixteen zeros at a time where a run is
  // longer, and an end mark when only zeros are left.
  function EncodeAc(block: seq<int>, k: nat): seq<bool>
    requires |block| == BLOCK && k <= BLOCK
    decreases BLOCK - k
  {
    if k == BLOCK then [] else
      var r := RunFrom(block, k);
      if k + r == BLOCK then AcCode(0, 0)
      else if r >= 16 then AcCode(15, 0) + EncodeAc(block, k + 16)
      else AcCode(r, Category(block[k + r])) + Magnitude(block[k + r]) + EncodeAc(block, k + r + 1)
  }

  function EncodeBlock(block: seq<int>, prevDc: int): seq<bool>
    requires |block| == BLOCK
  {
    DcCodeBits(Category(block[0] - prevDc)) + Magnitude(block[0] - prevDc) + EncodeAc(block, 1)
  }

  predicate AllInLimits(blocks: seq<seq<int>>, prevDc: int)
    decreases |blocks|
  {
    |blocks| == 0 || (InLimits(blocks[0], prevDc) && AllInLimits(blocks[1..], blocks[0][0]))
  }

  function EncodeBlocks(blocks: seq<seq<int>>, prevDc: int): seq<bool>
    requires AllInLimits(blocks, prevDc)
    decreases |blocks|
  {
    if |blocks| == 0 then [] else EncodeBlock(blocks[0], prevDc) + EncodeBlocks(blocks[1..], blocks[0][0])
  }

  // ----- decoding -----------------------------------------------------------------------

  // Bad: a word that starts with no code. Overrun: a read past the data or a write past the block, which the
  // source does not guard against.
  datatype Coeffs = Coeffs(values: seq<int>, pos: nat) | Bad | Overrun

  function Prepend(v: seq<int>, c: Coeffs): Coeffs {
    match c
    case Coeffs(w, p) => Coeffs(v + w, p)
    case _ => c
  }

  function ZeroRun(n: nat): (z: seq<int>)
    ensures |z| == n && forall i :: 0 <= i < n ==> z[i] == 0
  {
    seq(n, _ => 0)
  }

  function Word(bits: seq<bool>, pos: nat): nat
    requires pos + 16 <= |bits|
  {
    Value(bits[pos..pos + 16])
  }

  function DecodeAc(bits: seq<bool>, pos: nat, k: nat): Coeffs
    requires k <= BLOCK
    decreases BLOCK - k
  {
    if k == BLOCK then Coeffs([], pos)
    else if pos + 16 > |bits| then Overrun
    else
      var ac := AcLookup(Word(bits, pos));
      if ac == -1 then Bad else
        var e := Entry(ac);
        var next := pos + e.len;
        if e.run == 0 && e.size == 0 then Coeffs(ZeroRun(BLOCK - k), next)
        else if k + e.run > BLOCK then Overrun
        else if e.size != 0 then
          if k + e.run == BLOCK || next + e.size > |bits| then Overrun
          else Prepend(ZeroRun(e.run) + [MapRange(e.size, Value(bits[next..next + e.size]))], DecodeAc(bits, next + e.size, k + e.run + 1))
        else if e.run == 15 then
          if k + 15 == BLOCK then Overrun else Prepend(ZeroRun(16), DecodeAc(bits, next, k + 16))
        else Prepend(ZeroRun(e.run), DecodeAc(bits, next, k + e.run))
  }

  function DecodeBlock(bits: seq<bool>, pos: nat, prevDc: int): Coeffs {
    if pos + 16 > |bits| then Overrun else
      var cat := GetDcReal(Word(bits, pos));
      if cat == -1 then Bad else
        var next := pos + DcCatOff(cat);
        if next + cat > |bits| then Overrun
        else Prepend([MapRange(cat, Value(bits[next..next + cat])) + prevDc], DecodeAc(bits, next + cat, 1))
  }

  // Decodes count blocks, or fewer if a bad code comes.
  datatype Image = Image(blocks: seq<seq<int>>, pos: nat) | Cut(before: seq<seq<int>>) | OutOfBounds

  function AddBlock(block: seq<int>, i: Image): Image {
    match i
    case Image(blocks, p) => Image([block] + blocks, p)
    case Cut(before) => Cut([block] + before)
    case OutOfBounds => OutOfBounds
  }

  function DecodeBlocks(bits: seq<bool>, pos: nat, prevDc: int, count: nat): Image
    decreases count
  {
    if count == 0 then Image([], pos) else
      match DecodeBlock(bits, pos, prevDc)
      case Bad => Cut([])
      case Overrun => OutOfBounds
      case Coeffs(v, p) => AddBlock(v, DecodeBlocks(bits, p, if |v| > 0 then v[0] else 0, count - 1))
  }

  // ----- decoding inverts encoding ------------------------------------------------------

  // bits holds code at pos, and at least sixteen bits after it.
  predicate Holds(bits: seq<bool>, pos: nat, code: seq<bool>) {
    pos + |code| + 16 <= |bits| && bits[pos..pos + |code|] == code
  }

  lemma HoldsBoth(bits: seq<bool>, pos: nat, a: seq<bool>, b: seq<bool>)
    requires Holds(bits, pos, a + b)
    ensures Holds(bits, pos, a) && Holds(bits, pos + |a|, b)
  {
    var ab := bits[pos..pos + |a + b|];
    assert ab[..|a|] == a && ab[|a|..] == b;
    assert bits[pos..pos + |a|] == ab[..|a|];
    assert bits[pos + |a|..pos + |a| + |b|] == ab[|a|..];
  }

  lemma NextAc(bits: seq<bool>, pos: nat, run: nat, size: nat)
    requires Coded(run, size) && Holds(bits, pos, AcCode(run, size))
    ensures var ac := AcLookup(Word(bits, pos));
      ac != -1 && Entry(ac).run == run && Entry(ac).size == size && Entry(ac).len == |AcCode(run, size)|
  {
    hide AcCounts, Symbol, Index, Value, Fits, Length, CodeBits, Total, Code, Power2;
    IndexFinds(run, size);
    TablesFit();
    var n := Index(run, size);
    var code := AcCode(run, size);
    assert bits[pos..pos + 16][..|code|] == bits[pos..pos + |code|];
    LookupFinds(AcCounts(), n, bits[pos..pos + 16]);
  }

  lemma NextDc(bits: seq<bool>, pos: nat, cat: nat)
    requires cat < DC_CODES && Holds(bits, pos, DcCodeBits(cat))
    ensures GetDcReal(Word(bits, pos)) == cat && DcCatOff(cat) == |DcCodeBits(cat)|
  {
    hide DcCounts, Value, Fits, Length, CodeBits, Total, Code, Power2, GetDcReal, DcCatOff;
    TablesFit();
    DcCode(cat);
    var code := DcCodeBits(cat);
    var w := bits[pos..pos + 16];
    assert w[..|code|] == bits[pos..pos + |code|];
    LookupFinds(DcCounts(), cat, w);
    ValueBound(w);
    PowersOfTwo();
    DcLookup(Value(w));
  }

  lemma NextValue(bits: seq<bool>, pos: nat, x: int)
    requires Holds(bits, pos, Magnitude(x))
    ensures MapRange(Category(x), Value(bits[pos..pos + Category(x)])) == x
  {
    hide Value, Magnitude, MapRange;
    MapRangeInverts(x);
  }

  // One symbol that carries a value.
  lemma ValueStep(bits: seq<bool>, pos: nat, k: nat, e: AcEntry)
    requires k < BLOCK && pos + 16 <= |bits| && AcLookup(Word(bits, pos)) != -1 && e == Entry(AcLookup(Word(bits, pos)))
    requires e.size != 0 && k + e.run < BLOCK && pos + e.len + e.size <= |bits|
    ensures var next := pos + e.len;
      DecodeAc(bits, pos, k) == Prepend(ZeroRun(e.run) + [MapRange(e.size, Value(bits[next..next + e.size]))], DecodeAc(bits, next + e.size, k + e.run + 1))
  {
    hide Entry, AcLookup, Word, MapRange, Value;
  }

  // One symbol for sixteen zeros.
  lemma ZerosStep(bits: seq<bool>, pos: nat, k: nat, e: AcEntry)
    requires k < BLOCK && pos + 16 <= |bits| && AcLookup(Word(bits, pos)) != -1 && e == Entry(AcLookup(Word(bits, pos)))
    requires e.size == 0 && e.run == 15 && k + 16 <= BLOCK
    ensures DecodeAc(bits, pos, k) == Prepend(ZeroRun(16), DecodeAc(bits, pos + e.len, k + 16))
  {
    hide Entry, AcLookup, Word, MapRange, Value;
  }

  lemma EndStep(bits: seq<bool>, pos: nat, k: nat, e: AcEntry)
    requires k < BLOCK && pos + 16 <= |bits| && AcLookup(Word(bits, pos)) != -1 && e == Entry(AcLookup(Word(bits, pos)))
    requires e.size == 0 && e.run == 0
    ensures DecodeAc(bits, pos, k) == Coeffs(ZeroRun(BLOCK - k), pos + e.len)
  {
    hide Entry, AcLookup, Word, MapRange, Value;
  }

  lemma EndOfBlock(bits: seq<bool>, pos: nat, block: seq<int>, k: nat)
    requires |block| == BLOCK && 1 <= k < BLOCK && k + RunFrom(block, k) == BLOCK && Holds(bits, pos, EncodeAc(block, k))
    ensures DecodeAc(bits, pos, k) == Coeffs(block[k..], pos + |EncodeAc(block, k)|)
  {
    hide Entry, AcLookup, AcCode, Word, DecodeAc;
    NextAc(bits, pos, 0, 0);
    EndStep(bits, pos, k, Entry(AcLookup(Word(bits, pos))));
    assert block[k..] == ZeroRun(BLOCK - k);
  }

  lemma LongRun(bits: seq<bool>, pos: nat, block: seq<int>, k: nat)
    requires |block| == BLOCK && 1 <= k < BLOCK && 16 <= RunFrom(block, k) && k + RunFrom(block, k) < BLOCK && Holds(bits, pos, EncodeAc(block, k))
    ensures var next := pos + |AcCode(15, 0)|;
      Holds(bits, next, EncodeAc(block, k + 16)) && DecodeAc(bits, pos, k) == Prepend(block[k..k + 16], DecodeAc(bits, next, k + 16)) &&
      pos + |EncodeAc(block, k)| == next + |EncodeAc(block, k + 16)|
  {
    hide Entry, AcLookup, AcCode, Word, DecodeAc;
    HoldsBoth(bits, pos, AcCode(15, 0), EncodeAc(block, k + 16));
    NextAc(bits, pos, 15, 0);
    ZerosStep(bits, pos, k, Entry(AcLookup(Word(bits, pos))));
    assert block[k..k + 16] == ZeroRun(16);
  }

  lemma ValueCode(block: seq<int>, k: nat)
    requires |block| == BLOCK && k <= BLOCK && k + RunFrom(block, k) < BLOCK && RunFrom(block, k) < 16
    ensures var r := RunFrom(block, k);
      EncodeAc(block, k) == AcCode(r, Category(block[k + r])) + Magnitude(block[k + r]) + EncodeAc(block, k + r + 1)
  {
    hide AcCode, Magnitude, Category;
  }

  lemma RunAndValue(bits: seq<bool>, pos: nat, block: seq<int>, k: nat)
    requires |block| == BLOCK && 1 <= k < BLOCK && RunFrom(block, k) < 16 && k + RunFrom(block, k) < BLOCK && Holds(bits, pos, EncodeAc(block, k))
    requires Category(block[k + RunFrom(block, k)]) <= 10
    ensures var r := RunFrom(block, k);
      var x := block[k + r];
      var next := pos + |AcCode(r, Category(x))| + Category(x);
      Holds(bits, next, EncodeAc(block, k + r + 1)) && DecodeAc(bits, pos, k) == Prepend(block[k..k + r + 1], DecodeAc(bits, next, k + r + 1)) &&
      pos + |EncodeAc(block, k)| == next + |EncodeAc(block, k + r + 1)|
  {
    hide Entry, AcLookup, AcCode, Word, Magnitude, MapRange, Value, Category, EncodeAc, DecodeAc;
    var r := RunFrom(block, k);
    var x := block[k + r];
    var code, rest := AcCode(r, Category(x)), EncodeAc(block, k + r + 1);
    SentInRange(x);
    ValueCode(block, k);
    HoldsBoth(bits, pos, code + Magnitude(x), rest);
    HoldsBoth(bits, pos, code, Magnitude(x));
    NextAc(bits, pos, r, Category(x));
    NextValue(bits, pos + |code|, x);
    ValueStep(bits, pos, k, Entry(AcLookup(Word(bits, pos))));
    assert block[k..k + r + 1] == ZeroRun(r) + [x];
  }

  // Coded coefficients decode to themselves.
  lemma {:induction false} AcRoundTrip(bits: seq<bool>, pos: nat, block: seq<int>, k: nat)
    requires |block| == BLOCK && 1 <= k <= BLOCK && Holds(bits, pos, EncodeAc(block, k))
    requires forall i :: 1 <= i < BLOCK ==> Category(block[i]) <= 10
    ensures DecodeAc(bits, pos, k) == Coeffs(block[k..], pos + |EncodeAc(block, k)|)
    decreases BLOCK - k
  {
    hide DecodeAc, EncodeAc, AcCode, Category, Holds, Magnitude, RunFrom;
    if k == BLOCK {
      AllDone(bits, pos, block);
      assert block[k..] == [];
    } else {
      var r := RunFrom(block, k);
      if k + r == BLOCK {
        EndOfBlock(bits, pos, block, k);
      } else if r >= 16 {
        LongRun(bits, pos, block, k);
        AcRoundTrip(bits, pos + |AcCode(15, 0)|, block, k + 16);
        assert block[k..] == block[k..k + 16] + block[k + 16..];
      } else {
        RunAndValue(bits, pos, block, k);
        var c := Category(block[k + r]);
        AcRoundTrip(bits, pos + |AcCode(r, c)| + c, block, k + r + 1);
        assert block[k..] == block[k..k + r + 1] + block[k + r + 1..];
      }
    }
  }

  lemma AllDone(bits: seq<bool>, pos: nat, block: seq<int>)
    requires |block| == BLOCK
    ensures DecodeAc(bits, pos, BLOCK) == Coeffs([], pos) && EncodeAc(block, BLOCK) == []
  {}

  lemma BlockRoundTrip(bits: seq<bool>, pos: nat, block: seq<int>, prevDc: int)
    requires InLimits(block, prevDc) && Holds(bits, pos, EncodeBlock(block, prevDc))
    ensures DecodeBlock(bits, pos, prevDc) == Coeffs(block, pos + |EncodeBlock(block, prevDc)|)
  {
    hide DecodeAc, EncodeAc, DcCodeBits, Category, GetDcReal, DcCatOff, MapRange, Value, Magnitude, Word;
    var d := block[0] - prevDc;
    var code, rest := DcCodeBits(Category(d)), EncodeAc(block, 1);
    HoldsBoth(bits, pos, code + Magnitude(d), rest);
    HoldsBoth(bits, pos, code, Magnitude(d));
    NextDc(bits, pos, Category(d));
    NextValue(bits, pos + |code|, d);
    AcRoundTrip(bits, pos + |code| + Category(d), block, 1);
    assert block == [block[0]] + block[1..];
  }

  // Any sequence of blocks within the limits is decoded to itself.
  lemma {:induction false} BlocksRoundTrip(bits: seq<bool>, pos: nat, blocks: seq<seq<int>>, prevDc: int)
    requires AllInLimits(blocks, prevDc) && Holds(bits, pos, EncodeBlocks(blocks, prevDc))
    ensures DecodeBlocks(bits, pos, prevDc, |blocks|) == Image(blocks, pos + |EncodeBlocks(blocks, prevDc)|)
    decreases |blocks|
  {
    hide DecodeBlock, EncodeBlock, Holds, Category;
    if |blocks| > 0 {
      var code, rest := EncodeBlock(blocks[0], prevDc), EncodeBlocks(blocks[1..], blocks[0][0]);
      HoldsBoth(bits, pos, code, rest);
      BlockRoundTrip(bits, pos, blocks[0], prevDc);
      BlocksRoundTrip(bits, pos + |code|, blocks[1..], blocks[0][0]);
      assert blocks == [blocks[0]] + blocks[1..];
    }
  }

  // ----- the decoder --------------------------------------------------------------------

  // How far a symbol moves on in the block.
  function Covered(e: AcEntry, k: nat): nat
    requires k <= BLOCK
  {
    if e.run == 0 && e.size == 0 then BLOCK - k
    else if e.size != 0 then e.run + 1
    else if e.run == 15 then 16
    else e.run
  }

  // The coefficients that a symbol stands for.
  function Symbols(bits: seq<bool>, next: nat, e: AcEntry, k: nat): seq<int>
    requires k <= BLOCK && next + e.size <= |bits|
  {
    if e.run == 0 && e.size == 0 then ZeroRun(BLOCK - k)
    else if e.size != 0 then ZeroRun(e.run) + [MapRange(e.size, Value(bits[next..next + e.size]))]
    else if e.run == 15 then ZeroRun(16)
    else ZeroRun(e.run)
  }

  // One step of the decoding loop, when it does not run out of bounds.
  lemma AcStep(bits: seq<bool>, pos: nat, k: nat)
    requires k < BLOCK && DecodeAc(bits, pos, k) != Overrun
    ensures pos + 16 <= |bits|
    ensures AcLookup(Word(bits, pos)) == -1 ==> DecodeAc(bits, pos, k) == Bad
    ensures AcLookup(Word(bits, pos)) != -1 ==>
      var e := Entry(AcLookup(Word(bits, pos)));
      e.size <= 15 && 1 <= Covered(e, k) && k + Covered(e, k) <= BLOCK && pos + e.len + e.size <= |bits| &&
      DecodeAc(bits, pos, k) == Prepend(Symbols(bits, pos + e.len, e, k), DecodeAc(bits, pos + e.len + e.size, k + Covered(e, k)))
  {
    hide AcLookup, Word, MapRange, Value, Symbol, Code, Length, AcCounts;
    if AcLookup(Word(bits, pos)) != -1 {
      var e := Entry(AcLookup(Word(bits, pos)));
      if e.run == 0 && e.size == 0 {
        assert ZeroRun(BLOCK - k) + [] == ZeroRun(BLOCK - k);
      }
    }
  }

  lemma PrependTwice(u: seq<int>, v: seq<int>, c: Coeffs)
    ensures Prepend(u, Prepend(v, c)) == Prepend(u + v, c)
    ensures Prepend(u, c) == Overrun <==> c == Overrun
    ensures Prepend(u, c) == Bad <==> c == Bad
  {
    if c.Coeffs? {
      assert u + (v + c.values) == u + v + c.values;
    }
  }

  const MCU_PER_PACKET := 14

  class Imager {
    const acTable: seq<AcEntry>
    const acLookup: seq<int>
    const dcLookup: seq<int>

    ghost predicate Valid() {
      AcTable(acTable) && |acLookup| == 0x1_0000 && |dcLookup| == 0x1_0000 &&
      forall w :: 0 <= w < 0x1_0000 ==> acLookup[w] == AcLookup(w) && dcLookup[w] == GetDcReal(w)
    }

    constructor ()
      ensures Valid()
    {
      var t, a, d := InitHuffmanTable();
      acTable, acLookup, dcLookup := t, a, d;
    }

    // Sets the coefficients from k0 on to the run of zeros and the value, or to zeros.
    method FillSymbol(b: Reader, zdct: array<int>, k0: nat, e: AcEntry) returns (k: nat)
      requires zdct.Length == BLOCK && 1 <= k0 < BLOCK && e.size <= 15
      requires 1 <= Covered(e, k0) && k0 + Covered(e, k0) <= BLOCK && b.pos + e.size <= |b.Stream()|
      modifies b, zdct
      ensures k == k0 + Covered(e, k0) && zdct[..k0] == old(zdct[..k0])
      ensures b.pos == old(b.pos) + e.size <= |b.Stream()|
      ensures zdct[k0..k] == Symbols(b.Stream(), old(b.pos), e, k0)
    {
      hide BitIo.Bits, Value, MapRange;
      k := k0;
      if e.run == 0 && e.size == 0 {
        for i := k0 to BLOCK
          invariant b.pos == old(b.pos) && zdct[..k0] == old(zdct[..k0]) && forall j :: k0 <= j < i ==> zdct[j] == 0
        {
          zdct[i] := 0;
        }
        k := BLOCK;
      } else {
        for i := 0 to e.run
          invariant b.pos == old(b.pos) && k == k0 + i && zdct[..k0] == old(zdct[..k0]) && forall j :: k0 <= j < k ==> zdct[j] == 0
        {
          zdct[k] := 0;
          k := k + 1;
        }
        if e.size != 0 {
          var n := b.FetchNBits(e.size);
          zdct[k] := MapRange(e.size, n);
          k := k + 1;
        } else if e.run == 15 {
          zdct[k] := 0;
          k := k + 1;
        }
      }
    }

    lemma WordInRange(bits: seq<bool>, pos: nat)
      requires pos + 16 <= |bits|
      ensures Word(bits, pos) < 0x1_0000
    {
      ValueBound(bits[pos..pos + 16]);
      PowersOfTwo();
    }

    // The loop over the AC symbols of a block.
    method DecodeAcs(b: Reader, zdct: array<int>) returns (ok: bool)
      requires Valid() && zdct.Length == BLOCK && DecodeAc(b.Stream(), b.pos, 1) != Overrun
      modifies b, zdct
      ensures zdct[0] == old(zdct[0]) && ok == DecodeAc(b.Stream(), old(b.pos), 1).Coeffs?
      ensures ok ==> DecodeAc(b.Stream(), old(b.pos), 1) == Coeffs(zdct[1..], b.pos)
    {
      hide BitIo.Bits, Value, MapRange, DecodeAc, AcTable, AcLookup, Entry, GetDcReal, Symbols, Covered, Word;
      ghost var bits, all := b.Stream(), DecodeAc(b.Stream(), b.pos, 1);
      var k := 1;
      assert zdct[1..1] == [];
      assert Prepend([], all) == all;
      while k < BLOCK
        invariant 1 <= k <= BLOCK && zdct[0] == old(zdct[0])
        invariant all == Prepend(zdct[1..k], DecodeAc(bits, b.pos, k))
        decreases BLOCK - k
      {
        ghost var before := zdct[1..k];
        PrependTwice(before, [], DecodeAc(bits, b.pos, k));
        AcStep(bits, b.pos, k);
        WordInRange(bits, b.pos);
        var word := b.PeekNBits(16);
        assert word == Word(bits, b.pos) by { WordIs(bits, b.pos); }
        var ac := acLookup[word];
        if ac == -1 {
          return false;
        }
        EntryIs(ac);
        var e := acTable[ac];
        b.AdvanceNBits(e.len);
        ghost var symbols := Symbols(bits, b.pos, e, k);
        ghost var k0, row := k, zdct[..k];
        k := FillSymbol(b, zdct, k, e);
        assert zdct[1..k0] == row[1..] == before;
        assert zdct[0] == row[0];
        assert zdct[1..k] == before + symbols;
        PrependTwice(before, symbols, DecodeAc(bits, b.pos, k));
      }
      AcEnd(bits, b.pos);
      assert zdct[1..BLOCK] + [] == zdct[1..];
      return true;
    }

    lemma WordIs(bits: seq<bool>, pos: nat)
      requires pos + 16 <= |bits|
      ensures Word(bits, pos) == Value(bits[pos..pos + 16])
    {}

    lemma EntryIs(n: nat)
      requires Valid() && n < AC_CODES
      ensures |acTable| == AC_CODES && acTable[n] == Entry(n)
    {}

    lemma AcEnd(bits: seq<bool>, pos: nat)
      ensures DecodeAc(bits, pos, BLOCK) == Coeffs([], pos)
    {}

    // One block, into zdct.
    method DecodeOne(b: Reader, zdct: array<int>, prevDc: int) returns (ok: bool)
      requires Valid() && zdct.Length == BLOCK && DecodeBlock(b.Stream(), b.pos, prevDc) != Overrun
      modifies b, zdct
      ensures ok == DecodeBlock(b.Stream(), old(b.pos), prevDc).Coeffs?
      ensures ok ==> DecodeBlock(b.Stream(), old(b.pos), prevDc) == Coeffs(zdct[..], b.pos)
    {
      hide BitIo.Bits, Value, MapRange, DecodeAc, AcTable, AcLookup, GetDcReal, DcCatOff;
      ghost var bits := b.Stream();
      WordInRange(bits, b.pos);
      var word := b.PeekNBits(16);
      assert word == Word(bits, b.pos);
      var dcCat := dcLookup[word];
      CategoryInRange(word);
      if dcCat == -1 {
        return false;
      }
      b.AdvanceNBits(DcCatOff(dcCat));
      var n := b.FetchNBits(dcCat);
      zdct[0] := MapRange(dcCat, n) + prevDc;
      ok := DecodeAcs(b, zdct);
      assert zdct[..] == [zdct[0]] + zdct[1..];
    }

    lemma CategoryInRange(word: nat)
      ensures -1 <= GetDcReal(word) < DC_CODES
    {}

    // Decodes count blocks. A bad code ends the decoding; the blocks before it stand.
    method DecMcus(b: Reader, count: nat) returns (blocks: seq<seq<int>>)
      requires Valid() && DecodeBlocks(b.Stream(), b.pos, 0, count) != OutOfBounds
      modifies b
      ensures match DecodeBlocks(b.Stream(), old(b.pos), 0, count)
        case Image(all, p) => blocks == all && b.pos == p
        case Cut(before) => blocks == before
        case OutOfBounds => false
    {
      hide BitIo.Bits, DecodeBlock, AcTable, AcLookup, GetDcReal;
      ghost var bits, whole := b.Stream(), DecodeBlocks(b.Stream(), b.pos, 0, count);
      var zdct := new int[BLOCK](_ => 0);
      var prevDc := 0;
      blocks := [];
      AddNone(whole);
      for m := 0 to count
        invariant whole == AddAll(blocks, DecodeBlocks(bits, b.pos, prevDc, count - m))
      {
        ghost var pos := b.pos;
        AddAllBounds(blocks, DecodeBlocks(bits, pos, prevDc, count - m));
        BlockStep(bits, pos, prevDc, count - m);
        var ok := DecodeOne(b, zdct, prevDc);
        if !ok {
          AddAllCut(blocks);
          return;
        }
        AddOneMore(blocks, zdct[..], DecodeBlocks(bits, b.pos, zdct[0], count - m - 1));
        blocks := blocks + [zdct[..]];
        prevDc := zdct[0];
      }
      AddAllImage(blocks, b.pos);
    }
  }

  function AddAll(blocks: seq<seq<int>>, i: Image): Image {
    match i
    case Image(more, p) => Image(blocks + more, p)
    case Cut(more) => Cut(blocks + more)
    case OutOfBounds => OutOfBounds
  }

  lemma AddNone(i: Image)
    ensures AddAll([], i) == i
  {
    match i {
      case Image(more, p) => { assert [] + more == more; }
      case Cut(more) => { assert [] + more == more; }
      case OutOfBounds => {}
    }
  }

  lemma AddAllBounds(blocks: seq<seq<int>>, i: Image)
    ensures AddAll(blocks, i) == OutOfBounds <==> i == OutOfBounds
  {}

  lemma AddAllCut(blocks: seq<seq<int>>)
    ensures AddAll(blocks, Cut([])) == Cut(blocks)
  {}

  lemma AddAllImage(blocks: seq<seq<int>>, p: nat)
    ensures AddAll(blocks, Image([], p)) == Image(blocks, p)
  {}

  lemma AddOneMore(blocks: seq<seq<int>>, block: seq<int>, i: Image)
    ensures AddAll(blocks, AddBlock(block, i)) == AddAll(blocks + [block], i)
  {
    match i {
      case Image(more, p) => { assert blocks + ([block] + more) == blocks + [block] + more; }
      case Cut(more) => { assert blocks + ([block] + more) == blocks + [block] + more; }
      case OutOfBounds => {}
    }
  }

  lemma BlockStep(bits: seq<bool>, pos: nat, prevDc: int, count: nat)
    requires count > 0 && DecodeBlocks(bits, pos, prevDc, count) != OutOfBounds
    ensures DecodeBlock(bits, pos, prevDc) != Overrun
    ensures DecodeBlock(bits, pos, prevDc) == Bad ==> DecodeBlocks(bits, pos, prevDc, count) == Cut([])
    ensures DecodeBlock(bits, pos, prevDc).Coeffs? ==>
      var Coeffs(v, p) := DecodeBlock(bits, pos, prevDc);
      DecodeBlocks(bits, pos, prevDc, count) == AddBlock(v, DecodeBlocks(bits, p, if |v| > 0 then v[0] else 0, count - 1))
  {
    hide DecodeBlock;
  }

  // A packet of coded blocks, with at least sixteen bits after them, is decoded to the blocks.
  method DecodePacket(imager: Imager, packet: seq<bv8>) returns (blocks: seq<seq<int>>)
    requires imager.Valid() && DecodeBlocks(BitIo.Bits(packet), 0, 0, MCU_PER_PACKET) != OutOfBounds
    ensures forall sent :: |sent| == MCU_PER_PACKET && AllInLimits(sent, 0) && Holds(BitIo.Bits(packet), 0, EncodeBlocks(sent, 0)) ==> blocks == sent
  {
    hide BitIo.Bits, DecodeBlocks, AllInLimits, EncodeBlocks, Holds;
    var b := new Reader(packet);
    blocks := imager.DecMcus(b, MCU_PER_PACKET);
    forall sent | |sent| == MCU_PER_PACKET && AllInLimits(sent, 0) && Holds(BitIo.Bits(packet), 0, EncodeBlocks(sent, 0))
      ensures blocks == sent
    {
      BlocksRoundTrip(BitIo.Bits(packet), 0, sent, 0);
    }
  }
}
