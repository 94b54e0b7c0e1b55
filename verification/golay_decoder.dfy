// Encoding and decoding of 24-bit Golay words (golay24.c), and the message block that decodes
// a message unit by unit (golay_decoder_impl.cc). A 32-bit word is a list of 32 bits, most
// significant first; the code uses its low 24 bits.
module GolayDecoder {
  import opened Golay24

  // ----- words --------------------------------------------------------------------------

  function High(r: seq<bool>): (x: seq<bool>)
    requires |r| == 32
    ensures |x| == N
  {
    r[8..20]
  }

  function Low(r: seq<bool>): (x: seq<bool>)
    requires |r| == 32
    ensures |x| == N
  {
    r[20..]
  }

  function Word(high: seq<bool>, low: seq<bool>): (r: seq<bool>)
    requires |high| == N && |low| == N
    ensures |r| == 32
  {
    Zeros(8) + high + low
  }

  function Syndrome(r: seq<bool>): (s: seq<bool>)
    requires |r| == 32
    ensures |s| == N
  {
    Xor(High(r), Times(Low(r)))
  }

  predicate Codeword(r: seq<bool>) {
    |r| == 32 && Syndrome(r) == Zeros(N)
  }

  function Distance(x: seq<bool>, y: seq<bool>): nat
    requires |x| == |y|
  {
    Weight(Xor(x, y))
  }

  // ----- syndromes ----------------------------------------------------------------------

  // A row of the matrix checks one bit of the high half against the low half.
  lemma RowChecks(i: nat, r: seq<bool>)
    requires i < N && |r| == 32
    ensures Parity(H(i), r) == Syndrome(r)[i]
  {
    hide B, Unit;
    var h := H(i);
    assert forall k :: 0 <= k < 8 ==> !h[k];
    UnitInRow(i);
    OddOfZeros(h, r, 0, 8 + i);
    OddOfZeros(h, r, 9 + i, 20);
    OddOfSuffix(h, r, 20, 0);
    assert h[20..] == B(i);
    assert r[8 + i] == High(r)[i];
  }

  lemma UnitInRow(i: nat)
    requires i < N
    ensures forall k :: 0 <= k < 20 ==> (H(i)[k] <==> k == 8 + i)
  {
    hide B;
  }

  // The loop that computes a syndrome, one row at a time.
  method ComputeSyndrome(r: seq<bool>) returns (s: seq<bool>)
    requires |r| == 32
    ensures s == Syndrome(r)
  {
    hide Syndrome, H, Parity;
    s := [];
    for i := 0 to N
      invariant s == Syndrome(r)[..i]
    {
      RowChecks(i, r);
      s := s + [Parity(H(i), r)];
    }
  }

  // q = B * s.
  method MultiplyByB(s: seq<bool>) returns (q: seq<bool>)
    requires |s| == N
    ensures q == Times(s)
  {
    hide B, Parity;
    q := [];
    for i := 0 to N
      invariant q == Times(s)[..i]
    {
      q := q + [Parity(B(i), s)];
    }
  }

  lemma ZeroTimes(x: seq<bool>)
    requires |x| == N
    ensures Xor(Times(x), Times(x)) == Zeros(N) && Xor(x, Zeros(N)) == x
  {}

  // A message of twelve bits becomes the codeword that carries it in its low half.
  method EncodeGolay24(data: seq<bool>) returns (code: int, encoded: seq<bool>)
    requires |data| == 32
    ensures code == 0 && Codeword(encoded) && Low(encoded) == Low(data) && encoded[..8] == Zeros(8)
  {
    hide Times;
    var r := Zeros(20) + data[20..];
    var s := ComputeSyndrome(r);
    assert High(r) == Zeros(N) && Low(r) == Low(data);
    assert s == Times(Low(data));
    encoded := Zeros(8) + s + r[20..];
    assert High(encoded) == s && Low(encoded) == Low(data);
    ZeroTimes(Low(data));
    code := 0;
  }

  // ----- the error behind a syndrome ----------------------------------------------------

  // An error with the given halves leads to syndrome s.
  predicate Explains(s: seq<bool>, a: seq<bool>, b: seq<bool>) {
    |s| == N && |a| == N && |b| == N && Xor(a, Times(b)) == s
  }

  lemma XorTwice(x: seq<bool>, y: seq<bool>)
    requires |x| == |y|
    ensures Xor(Xor(x, y), y) == x && Xor(Xor(x, y), x) == y && Xor(x, y) == Xor(y, x)
  {}

  lemma XorBack(x: seq<bool>, y: seq<bool>)
    requires |x| == |y|
    ensures Xor(x, Xor(x, y)) == y
  {}

  lemma XorMiddle(a: seq<bool>, b: seq<bool>, c: seq<bool>, d: seq<bool>)
    requires |a| == |b| == |c| == |d|
    ensures Xor(Xor(a, b), Xor(c, d)) == Xor(Xor(a, c), Xor(b, d))
  {}

  lemma XorZero(x: seq<bool>, y: seq<bool>)
    requires |x| == |y| && Xor(x, y) == Zeros(|x|)
    ensures x == y
  {
    forall i | 0 <= i < |x|
      ensures x[i] == y[i]
    {
      assert !Xor(x, y)[i];
    }
  }

  lemma XorSelf(x: seq<bool>)
    ensures Xor(x, x) == Zeros(|x|)
  {}

  lemma LighterXor(x: seq<bool>, y: seq<bool>)
    requires |x| == |y|
    ensures Weight(Xor(x, y)) <= Weight(x) + Weight(y)
  {
    WeightOfXor(x, y, 0);
  }

  // At most one error of weight three has a given syndrome, and then none of weight four.
  lemma OneExplanation(s: seq<bool>, a: seq<bool>, b: seq<bool>, c: seq<bool>, d: seq<bool>)
    requires Explains(s, a, b) && Explains(s, c, d)
    requires Weight(a) + Weight(b) + Weight(c) + Weight(d) < 8
    ensures a == c && b == d
  {
    hide Times, Weight;
    var x := Xor(b, d);
    TimesXor(b, d);
    XorMiddle(a, Times(b), c, Times(d));
    XorSelf(s);
    XorZero(Xor(a, c), Times(x));
    LighterXor(b, d);
    LighterXor(a, c);
    assert Weight(x) + Weight(Times(x)) < 8;
    if x != Zeros(N) {
      MinWeight(x);
      assert false;
    }
    XorZero(b, d);
    TimesZero();
    XorZero(a, c);
  }

  // ----- small weights ------------------------------------------------------------------

  lemma {:induction false} SingleOne(x: seq<bool>, i: nat) returns (k: nat)
    requires |x| == N && i <= N && WeightFrom(x, i) == 1
    ensures i <= k < N && x[k] && forall j :: i <= j < N && j != k ==> !x[j]
    decreases N - i
  {
    if x[i] {
      k := i;
      WeightZero(x, i + 1);
    } else {
      k := SingleOne(x, i + 1);
    }
  }

  // A word of weight one is a unit.
  lemma WeightOne(x: seq<bool>) returns (k: nat)
    requires |x| == N && Weight(x) == 1
    ensures k < N && x == Unit(k)
  {
    k := SingleOne(x, 0);
  }

  lemma UnitWeighsOne(k: nat)
    requires k < N
    ensures Weight(Unit(k)) == 1
  {
    WeightOfUnit(k, 0);
  }

  lemma {:induction false} WeightOfUnit(k: nat, i: nat)
    requires k < N && i <= N
    ensures WeightFrom(Unit(k), i) == if i <= k then 1 else 0
    decreases N - i
  {
    if i < N {
      WeightOfUnit(k, i + 1);
    }
  }

  lemma NothingWeighsZero(x: seq<bool>)
    requires Weight(x) == 0
    ensures x == Zeros(|x|)
  {
    WeightZero(x, 0);
  }

  // Each of the four tests of the decoder finds an error that explains the syndrome.
  lemma TestsExplain(s: seq<bool>, i: nat)
    requires |s| == N && i < N
    ensures Explains(s, s, Zeros(N))
    ensures Explains(s, Xor(s, B(i)), Unit(i))
    ensures Explains(s, Zeros(N), Times(s))
    ensures Explains(s, Unit(i), Xor(Times(s), B(i)))
  {
    hide Times, B, Unit;
    TimesZero();
    ZeroTimes(s);
    TimesUnit(i);
    XorTwice(s, B(i));
    TimesTwice(s);
    XorTwice(Zeros(N), s);
    TimesXor(Times(s), B(i));
    TimesRow(i);
    XorTwice(s, Unit(i));
    XorTwice(Unit(i), Xor(s, Unit(i)));
  }

  // If all four tests fail, nothing of weight three or less explains the syndrome.
  lemma TestsMiss(s: seq<bool>, a: seq<bool>, b: seq<bool>)
    requires Explains(s, a, b)
    requires Weight(s) > 3 && (forall i :: 0 <= i < N ==> Weight(Xor(s, B(i))) > 2)
    requires Weight(Times(s)) > 3 && (forall i :: 0 <= i < N ==> Weight(Xor(Times(s), B(i))) > 2)
    ensures Weight(a) + Weight(b) > 3
  {
    hide Times, B, Unit, Weight;
    TimesXor(a, Times(b));
    TimesTwice(b);
    if Weight(b) == 0 {
      NothingWeighsZero(b);
      TimesZero();
      ZeroTimes(a);
    } else if Weight(b) == 1 {
      var k := WeightOne(b);
      TimesUnit(k);
      XorTwice(a, B(k));
    } else if Weight(a) == 0 {
      NothingWeighsZero(a);
      TimesZero();
      XorTwice(Zeros(N), b);
      ZeroTimes(b);
    } else if Weight(a) == 1 {
      var k := WeightOne(a);
      TimesUnit(k);
      XorTwice(B(k), b);
    }
  }

  // Steps 2 to 7: the error of weight at most three behind a syndrome, if there is one.
  method FindError(s: seq<bool>) returns (found: bool, e: seq<bool>, ghost a: seq<bool>, ghost b: seq<bool>)
    requires |s| == N
    ensures found ==> |a| == N && |b| == N && Explains(s, a, b) && Weight(a) + Weight(b) <= 3 && e == Word(a, b)
    ensures !found ==> forall c, d :: Explains(s, c, d) ==> Weight(c) + Weight(d) > 3
  {
    hide Times, B, Unit, Weight, Explains;
    a, b := [], [];
    WeightOfZeros(N);
    if Weight(s) <= 3 {
      TestsExplain(s, 0);
      a, b := s, Zeros(N);
      return true, Word(s, Zeros(N)), a, b;
    }
    for i := 0 to N
      invariant forall k :: 0 <= k < i ==> Weight(Xor(s, B(k))) > 2
    {
      if Weight(Xor(s, B(i))) <= 2 {
        TestsExplain(s, i);
        UnitWeighsOne(i);
        a, b := Xor(s, B(i)), Unit(i);
        return true, Word(Xor(s, B(i)), Unit(i)), a, b;
      }
    }
    var q := MultiplyByB(s);
    if Weight(q) <= 3 {
      TestsExplain(s, 0);
      a, b := Zeros(N), q;
      return true, Word(Zeros(N), q), a, b;
    }
    for i := 0 to N
      invariant forall k :: 0 <= k < i ==> Weight(Xor(q, B(k))) > 2
    {
      if Weight(Xor(q, B(i))) <= 2 {
        TestsExplain(s, i);
        UnitWeighsOne(i);
        a, b := Unit(i), Xor(q, B(i));
        return true, Word(Unit(i), Xor(q, B(i))), a, b;
      }
    }
    forall c, d | Explains(s, c, d)
      ensures Weight(c) + Weight(d) > 3
    {
      TestsMiss(s, c, d);
    }
    return false, [], a, b;
  }

  // ----- decoding -----------------------------------------------------------------------

  // Two words with the same top eight bits differ in their halves.
  lemma DistanceOfHalves(x: seq<bool>, y: seq<bool>)
    requires |x| == 32 && |y| == 32 && x[..8] == y[..8]
    ensures Distance(x, y) == Weight(Xor(High(x), High(y))) + Weight(Xor(Low(x), Low(y)))
    ensures Xor(x, y) == Word(Xor(High(x), High(y)), Xor(Low(x), Low(y)))
  {
    hide Weight;
    var a, b := Xor(High(x), High(y)), Xor(Low(x), Low(y));
    forall i | 0 <= i < 32
      ensures Xor(x, y)[i] == Word(a, b)[i]
    {
      if i < 8 {
        assert x[..8][i] == y[..8][i];
      }
    }
    assert Xor(x, y) == Word(a, b);
    WordWeight(a, b);
  }

  lemma WordWeight(a: seq<bool>, b: seq<bool>)
    requires |a| == N && |b| == N
    ensures Weight(Word(a, b)) == Weight(a) + Weight(b)
  {
    WeightOfZeros(8);
    WeightOfConcat(Zeros(8), a, 0);
    WeightOfConcat(Zeros(8) + a, b, 0);
  }

  // The difference between a word and a codeword explains the word's syndrome.
  lemma CodewordExplains(r: seq<bool>, c: seq<bool>)
    requires |r| == 32 && Codeword(c)
    ensures Explains(Syndrome(r), Xor(High(r), High(c)), Xor(Low(r), Low(c)))
  {
    hide Times;
    TimesXor(Low(r), Low(c));
    XorMiddle(High(r), High(c), Times(Low(r)), Times(Low(c)));
    ZeroTimes(Syndrome(r));
  }

  // Taking an explained error away leaves a codeword.
  lemma CorrectedIsCodeword(r: seq<bool>, a: seq<bool>, b: seq<bool>)
    requires |r| == 32 && Explains(Syndrome(r), a, b)
    ensures var c := Xor(r, Word(a, b));
      Codeword(c) && c[..8] == r[..8] && High(c) == Xor(High(r), a) && Low(c) == Xor(Low(r), b)
  {
    hide Times;
    var c := Xor(r, Word(a, b));
    assert High(c) == Xor(High(r), a) && Low(c) == Xor(Low(r), b);
    TimesXor(Low(r), b);
    XorMiddle(High(r), a, Times(Low(r)), Times(b));
    XorSelf(Syndrome(r));
  }

  lemma SameWord(c: seq<bool>, d: seq<bool>)
    requires |c| == 32 && |d| == 32 && c[..8] == d[..8] && High(c) == High(d) && Low(c) == Low(d)
    ensures c == d
  {
    assert c == c[..8] + High(c) + Low(c);
    assert d == d[..8] + High(d) + Low(d);
  }

  // A codeword that is close enough is the one that correction finds.
  lemma Corrected(r: seq<bool>, a: seq<bool>, b: seq<bool>, c: seq<bool>)
    requires |r| == 32 && Explains(Syndrome(r), a, b) && Weight(a) + Weight(b) <= 3
    requires Codeword(c) && c[..8] == r[..8] && Distance(r, c) <= 4
    ensures c == Xor(r, Word(a, b)) && Distance(r, c) == Weight(a) + Weight(b)
  {
    hide Times, Weight, Syndrome, Explains;
    DistanceOfHalves(r, c);
    CodewordExplains(r, c);
    OneExplanation(Syndrome(r), a, b, Xor(High(r), High(c)), Xor(Low(r), Low(c)));
    CorrectedIsCodeword(r, a, b);
    XorTwice(High(r), High(c));
    XorTwice(Low(r), Low(c));
    XorTwice(High(c), High(r));
    XorTwice(Low(c), Low(r));
    SameWord(c, Xor(r, Word(a, b)));
  }

  // Decodes one word: the codeword within three bits, or -1 when there is none.
  method DecodeGolay24(data: seq<bool>) returns (n: int, decoded: seq<bool>)
    requires |data| == 32
    ensures |decoded| == 32 && decoded[..8] == data[..8]
    ensures n >= 0 ==> Codeword(decoded) && n == Distance(data, decoded) <= 3
    ensures n < 0 ==> n == -1 && decoded == data
    ensures forall c :: Codeword(c) && c[..8] == data[..8] && Distance(data, c) <= 3 ==> decoded == c && n == Distance(data, c)
    ensures forall c :: Codeword(c) && c[..8] == data[..8] && Distance(data, c) == 4 ==> n == -1
  {
    hide Times, Weight, Syndrome, Explains;
    var s := ComputeSyndrome(data);
    var found, e, a, b := FindError(s);
    if found {
      CorrectedIsCodeword(data, a, b);
      forall c | Codeword(c) && c[..8] == data[..8] && Distance(data, c) <= 4
        ensures c == Xor(data, e) && Distance(data, c) <= 3
      {
        Corrected(data, a, b, c);
      }
      decoded := Xor(data, e);
      WordWeight(a, b);
      XorBack(data, e);
      n := Weight(e);
    } else {
      forall c | Codeword(c) && c[..8] == data[..8]
        ensures Distance(data, c) > 3
      {
        DistanceOfHalves(data, c);
        CodewordExplains(data, c);
      }
      n, decoded := -1, data;
    }
  }

  // ----- the message block --------------------------------------------------------------

  datatype Option<T> = None | Some(value: T)

  // The j-th bit of a message is set when its byte is not zero.
  function UnitWord(input: seq<bv8>, p: nat): (r: seq<bool>)
    requires p + 24 <= |input|
    ensures |r| == 32
  {
    Zeros(8) + seq(24, j requires 0 <= j < 24 => input[p + j] != 0)
  }

  function AsBytes(x: seq<bool>): (r: seq<bv8>)
    ensures |r| == |x|
  {
    seq(|x|, i requires 0 <= i < |x| => if x[i] then 1 else 0)
  }

  // The message bits of a list of words, one after the other.
  function Payload(words: seq<seq<bool>>): (r: seq<bv8>)
    requires forall i :: 0 <= i < |words| ==> |words[i]| == 32
    ensures |r| == 12 * |words|
  {
    if |words| == 0 then [] else Payload(words[..|words| - 1]) + AsBytes(Low(words[|words| - 1]))
  }

  predicate Sent(c: seq<bool>) {
    Codeword(c) && c[..8] == Zeros(8)
  }

  // Every unit of the input is within three bits of the codeword in the list.
  predicate Near(input: seq<bv8>, offset: nat, words: seq<seq<bool>>) {
    offset + 24 * |words| <= |input| &&
    forall i :: 0 <= i < |words| ==> Sent(words[i]) && Distance(UnitWord(input, offset + 24 * i), words[i]) <= 3
  }

  // No codeword is within three bits.
  ghost predicate TooFar(r: seq<bool>)
    requires |r| == 32
  {
    forall c :: Sent(c) ==> Distance(r, c) > 3
  }

  // Gathers the 24 bits of a unit into a word.
  method ReadUnit(input: seq<bv8>, p0: nat) returns (word: seq<bool>, p: nat)
    requires p0 + 24 <= |input|
    ensures word == UnitWord(input, p0) && p == p0 + 24
  {
    word, p := Zeros(32), p0;
    for j := 0 to 24
      invariant p == p0 + j && |word| == 32
      invariant j == 0 ==> word == Zeros(32)
      invariant forall k :: 0 <= k < 32 - j ==> !word[k]
      invariant forall k :: 32 - j <= k < 32 ==> word[k] == (input[p0 + k - (32 - j)] != 0)
    {
      if j != 0 {
        word := word[1..] + [false];
      }
      if input[p] != 0 {
        word := word[31 := true];
      }
      p := p + 1;
    }
  }

  // Appends the low twelve bits of a word, one byte each.
  method AppendBits(word: seq<bool>, out0: seq<bv8>) returns (out: seq<bv8>)
    requires |word| == 32
    ensures out == out0 + AsBytes(Low(word))
  {
    out := out0;
    for j := 0 to 12
      invariant out == out0 + AsBytes(Low(word))[..j]
    {
      out := out + [if word[20 + j] then 1 else 0];
    }
  }

  lemma PayloadMore(words: seq<seq<bool>>, c: seq<bool>)
    requires (forall i :: 0 <= i < |words| ==> |words[i]| == 32) && |c| == 32
    ensures Payload(words + [c]) == Payload(words) + AsBytes(Low(c))
  {
    assert (words + [c])[..|words|] == words;
  }

  lemma UnitTop(input: seq<bv8>, p: nat)
    requires p + 24 <= |input|
    ensures UnitWord(input, p)[..8] == Zeros(8)
  {}

  lemma CloseWords(r: seq<bool>, c: seq<bool>, d: seq<bool>)
    requires |r| == 32 && r[..8] == Zeros(8) && Sent(c) && Sent(d) && Distance(r, c) <= 3 && Distance(r, d) <= 4
    ensures c == d
  {
    hide Weight, Times, Syndrome, Explains;
    DistanceOfHalves(r, c);
    DistanceOfHalves(r, d);
    CodewordExplains(r, c);
    CodewordExplains(r, d);
    OneExplanation(Syndrome(r), Xor(High(r), High(c)), Xor(Low(r), Low(c)), Xor(High(r), High(d)), Xor(Low(r), Low(d)));
    XorBack(High(r), High(c));
    XorBack(High(r), High(d));
    XorBack(Low(r), Low(c));
    XorBack(Low(r), Low(d));
    SameWord(c, d);
  }

  // The codewords near a message are determined by it.
  lemma NearIsUnique(input: seq<bv8>, offset: nat, words: seq<seq<bool>>, others: seq<seq<bool>>)
    requires Near(input, offset, words) && Near(input, offset, others) && |words| <= |others|
    ensures words == others[..|words|]
  {
    hide Syndrome, Weight, UnitWord;
    forall i | 0 <= i < |words|
      ensures words[i] == others[i]
    {
      UnitTop(input, offset + 24 * i);
      CloseWords(UnitWord(input, offset + 24 * i), words[i], others[i]);
    }
  }

  // Four flipped bits are noticed.
  lemma FourIsTooFar(r: seq<bool>, d: seq<bool>)
    requires |r| == 32 && r[..8] == Zeros(8) && Sent(d) && Distance(r, d) == 4
    ensures TooFar(r)
  {
    hide Syndrome, Weight;
    forall c | Sent(c)
      ensures Distance(r, c) > 3
    {
      if Distance(r, c) <= 3 {
        CloseWords(r, c, d);
        assert false;
      }
    }
  }

  // The i-th unit of a message.
  function UnitAt(input: seq<bv8>, offset: nat, i: nat): (r: seq<bool>)
    requires offset + 24 * i + 24 <= |input|
    ensures |r| == 32 && r[..8] == Zeros(8)
  {
    UnitWord(input, offset + 24 * i)
  }

  // Decodes the units in turn and stops at the first that cannot be corrected.
  method DecodeUnits(offset: nat, numUnits: nat, input: seq<bv8>) returns (published: Option<seq<bv8>>, ghost words: seq<seq<bool>>)
    requires offset + 24 * numUnits <= |input|
    ensures Near(input, offset, words)
    ensures published.Some? ==> (|words| == numUnits && published.value == input[..offset] + Payload(words) + input[offset + 24 * numUnits..])
    ensures published.None? ==> (|words| < numUnits && TooFar(UnitAt(input, offset, |words|)))
  {
    hide UnitWord, Payload, Syndrome, Weight;
    var out := input[..offset];
    var p := offset;
    words := [];
    for i := 0 to numUnits
      invariant |words| == i && p == offset + 24 * i && Near(input, offset, words)
      invariant out == input[..offset] + Payload(words)
    {
      ghost var r := UnitAt(input, offset, i);
      var word;
      word, p := ReadUnit(input, p);
      assert word == r;
      var numCorrectedBits, decoded := DecodeGolay24(word);
      if numCorrectedBits < 0 {
        assert TooFar(r);
        return None, words;
      }
      out := AppendBits(decoded, out);
      PayloadMore(words, decoded);
      assert Sent(decoded);
      words := words + [decoded];
    }
    out := out + input[offset + 24 * numUnits..];
    published := Some(out);
  }

  // Handles a message. If every unit is within three bits of a codeword, the message bits of
  // those codewords are published in place of the units; otherwise nothing is.
  method MsgHandler(offset: nat, numUnits: nat, input: seq<bv8>) returns (published: Option<seq<bv8>>)
    requires offset + 24 * numUnits <= |input|
    ensures published.Some? ==> exists words :: |words| == numUnits && Near(input, offset, words)
    ensures forall words :: |words| == numUnits && Near(input, offset, words) ==>
      published == Some(input[..offset] + Payload(words) + input[offset + 24 * numUnits..])
    ensures forall i, c :: 0 <= i < numUnits && Sent(c) && Distance(UnitAt(input, offset, i), c) == 4 ==> published == None
  {
    hide UnitAt, Payload, Syndrome, Weight, UnitWord;
    ghost var found;
    published, found := DecodeUnits(offset, numUnits, input);
    forall words | |words| == numUnits && Near(input, offset, words)
      ensures published == Some(input[..offset] + Payload(words) + input[offset + 24 * numUnits..])
    {
      if published.None? {
        NearUnit(input, offset, words, |found|);
        assert false;
      }
      NearIsUnique(input, offset, found, words);
      assert words[..|found|] == words;
    }
    forall i, c | 0 <= i < numUnits && Sent(c) && Distance(UnitAt(input, offset, i), c) == 4
      ensures published == None
    {
      FourIsTooFar(UnitAt(input, offset, i), c);
      if published.Some? {
        NearUnit(input, offset, found, i);
        assert false;
      }
    }
  }

  lemma NearUnit(input: seq<bv8>, offset: nat, words: seq<seq<bool>>, i: nat)
    requires Near(input, offset, words) && i < |words|
    ensures Sent(words[i]) && Distance(UnitAt(input, offset, i), words[i]) <= 3
  {
    hide Syndrome, Weight, UnitWord;
  }
}
