// Canonical prefix codes as init_huffman_table in meteor_image.cc builds them from the number of
// codes of each length: no code is a prefix of another, and sixteen bits are enough to tell
// which code comes next.
module Huffman {

  // ----- numbers and bits ---------------------------------------------------------------

  function Power2(n: nat): (p: nat)
    ensures p >= 1
  {
    if n == 0 then 1 else 2 * Power2(n - 1)
  }

  function AsInt(b: bool): (i: int)
    ensures 0 <= i <= 1
  {
    if b then 1 else 0
  }

  // The number that the bits spell, most significant first.
  function Value(bits: seq<bool>): nat {
    if |bits| == 0 then 0 else 2 * Value(bits[..|bits| - 1]) + AsInt(bits[|bits| - 1])
  }

  // The low n bits of a number.
  function BitsOf(v: nat, n: nat): (r: seq<bool>)
    ensures |r| == n
  {
    if n == 0 then [] else BitsOf(v / 2, n - 1) + [v % 2 == 1]
  }

  lemma {:induction false} ValueBound(bits: seq<bool>)
    ensures Value(bits) < Power2(|bits|)
    decreases |bits|
  {
    if |bits| > 0 {
      ValueBound(bits[..|bits| - 1]);
    }
  }

  lemma {:induction false} ValueOfBits(v: nat, n: nat)
    requires v < Power2(n)
    ensures Value(BitsOf(v, n)) == v
    decreases n
  {
    if n > 0 {
      ValueOfBits(v / 2, n - 1);
      var r := BitsOf(v, n);
      assert r[..n - 1] == BitsOf(v / 2, n - 1);
    }
  }

  lemma {:induction false} ValueInjective(a: seq<bool>, b: seq<bool>)
    requires |a| == |b| && Value(a) == Value(b)
    ensures a == b
    decreases |a|
  {
    if |a| > 0 {
      ValueInjective(a[..|a| - 1], b[..|b| - 1]);
      assert a == a[..|a| - 1] + [a[|a| - 1]] && b == b[..|b| - 1] + [b[|b| - 1]];
    }
  }

  // Shifting right keeps the leading bits.
  lemma {:induction false} ValueOfPrefix(bits: seq<bool>, n: nat)
    requires n <= |bits|
    ensures Value(bits[..n]) == Value(bits) / Power2(|bits| - n)
    decreases |bits|
  {
    if n == |bits| {
      assert bits[..n] == bits;
    } else {
      var w := bits[..|bits| - 1];
      ValueOfPrefix(w, n);
      assert w[..n] == bits[..n];
      DivideTwice(Value(bits), Power2(|w| - n));
    }
  }

  lemma DivideTwice(x: nat, p: nat)
    requires p >= 1
    ensures x / 2 / p == x / (2 * p)
  {
    var q := x / (2 * p);
    var r := x - 2 * p * q;
    assert 0 <= r < 2 * p;
    assert x / 2 == p * q + r / 2;
    QuotientIs(x / 2, p, q, r / 2);
  }

  lemma QuotientIs(x: nat, p: nat, q: nat, r: nat)
    requires x == p * q + r && r < p
    ensures x / p == q
  {
    var k := x / p;
    var m := x - p * k;
    assert 0 <= m < p;
    if k < q {
      Spread(p, k + 1, q);
    } else if q < k {
      Spread(p, q + 1, k);
    }
  }

  lemma Spread(p: nat, a: nat, b: nat)
    requires a <= b
    ensures a * p <= b * p
  {
    assert b * p == a * p + (b - a) * p;
  }

  // ----- canonical codes ----------------------------------------------------------------

  const MAX_LEN := 16

  // counts[k - 1] is the number of codes of length k.
  function First(counts: seq<nat>, k: nat): nat
    requires |counts| == MAX_LEN && 1 <= k <= MAX_LEN
  {
    if k == 1 then 0 else 2 * (First(counts, k - 1) + counts[k - 2])
  }

  // There is room for the codes of every length.
  predicate Fits(counts: seq<nat>) {
    |counts| == MAX_LEN && forall k :: 1 <= k <= MAX_LEN ==> First(counts, k) + counts[k - 1] <= Power2(k)
  }

  // The length of code number n, counted from length k on.
  function LengthFrom(counts: seq<nat>, n: nat, k: nat): (l: nat)
    requires |counts| == MAX_LEN && 1 <= k <= MAX_LEN
    ensures k <= l <= MAX_LEN
    decreases MAX_LEN - k
  {
    if n < counts[k - 1] || k == MAX_LEN then k else LengthFrom(counts, n - counts[k - 1], k + 1)
  }

  // Its number among the codes of its length.
  function RankFrom(counts: seq<nat>, n: nat, k: nat): nat
    requires |counts| == MAX_LEN && 1 <= k <= MAX_LEN
    decreases MAX_LEN - k
  {
    if n < counts[k - 1] || k == MAX_LEN then n else RankFrom(counts, n - counts[k - 1], k + 1)
  }

  function Total(counts: seq<nat>, k: nat): nat
    requires |counts| == MAX_LEN && 1 <= k <= MAX_LEN + 1
    decreases MAX_LEN + 1 - k
  {
    if k == MAX_LEN + 1 then 0 else counts[k - 1] + Total(counts, k + 1)
  }

  function Length(counts: seq<nat>, n: nat): (l: nat)
    requires |counts| == MAX_LEN
    ensures 1 <= l <= MAX_LEN
  {
    LengthFrom(counts, n, 1)
  }

  function Code(counts: seq<nat>, n: nat): nat
    requires |counts| == MAX_LEN
  {
    First(counts, Length(counts, n)) + RankFrom(counts, n, 1)
  }

  function CodeBits(counts: seq<nat>, n: nat): (b: seq<bool>)
    requires |counts| == MAX_LEN
    ensures |b| == Length(counts, n)
  {
    BitsOf(Code(counts, n), Length(counts, n))
  }

  lemma {:induction false} RankBelowCount(counts: seq<nat>, n: nat, k: nat)
    requires |counts| == MAX_LEN && 1 <= k <= MAX_LEN && n < Total(counts, k)
    ensures RankFrom(counts, n, k) < counts[LengthFrom(counts, n, k) - 1]
    decreases MAX_LEN - k
  {
    if !(n < counts[k - 1] || k == MAX_LEN) {
      RankBelowCount(counts, n - counts[k - 1], k + 1);
    }
  }

  // Codes are ordered by length, and by rank within a length.
  lemma {:induction false} Ordered(counts: seq<nat>, n: nat, m: nat, k: nat)
    requires |counts| == MAX_LEN && 1 <= k <= MAX_LEN && n < m < Total(counts, k)
    ensures LengthFrom(counts, n, k) <= LengthFrom(counts, m, k)
    ensures LengthFrom(counts, n, k) == LengthFrom(counts, m, k) ==> RankFrom(counts, n, k) < RankFrom(counts, m, k)
    decreases MAX_LEN - k
  {
    if n >= counts[k - 1] && k < MAX_LEN {
      Ordered(counts, n - counts[k - 1], m - counts[k - 1], k + 1);
    }
  }

  lemma {:induction false} FirstGrows(counts: seq<nat>, k: nat, l: nat)
    requires |counts| == MAX_LEN && 1 <= k < l <= MAX_LEN
    ensures First(counts, l) >= (First(counts, k) + counts[k - 1]) * Power2(l - k)
    decreases l
  {
    if l == k + 1 {
      assert Power2(1) == 2;
    } else {
      FirstGrows(counts, k, l - 1);
      Doubled(First(counts, k) + counts[k - 1], l - k);
    }
  }

  lemma Doubled(x: nat, n: nat)
    requires n >= 1
    ensures 2 * (x * Power2(n - 1)) == x * Power2(n)
  {}

  lemma CodeInRange(counts: seq<nat>, n: nat)
    requires |counts| == MAX_LEN && Fits(counts) && n < Total(counts, 1)
    ensures Code(counts, n) < First(counts, Length(counts, n)) + counts[Length(counts, n) - 1] <= Power2(Length(counts, n))
    ensures Value(CodeBits(counts, n)) == Code(counts, n)
  {
    hide First, Power2, Value, BitsOf;
    RankBelowCount(counts, n, 1);
    ValueOfBits(Code(counts, n), Length(counts, n));
  }

  lemma QuotientBound(x: nat, y: nat, p: nat)
    requires p >= 1 && x >= y * p
    ensures x / p >= y
  {
    var q := x / p;
    if q < y {
      Spread(p, q + 1, y);
    }
  }

  // The leading bits of a longer code are beyond the shorter codes.
  lemma LongerIsBeyond(counts: seq<nat>, m: nat, k: nat)
    requires |counts| == MAX_LEN && Fits(counts) && m < Total(counts, 1) && 1 <= k < Length(counts, m)
    ensures Value(CodeBits(counts, m)[..k]) >= First(counts, k) + counts[k - 1]
  {
    hide First, Power2, Value, CodeBits, Fits, Total, Length, RankFrom;
    CodeInRange(counts, m);
    var l := Length(counts, m);
    FirstGrows(counts, k, l);
    QuotientBound(Code(counts, m), First(counts, k) + counts[k - 1], Power2(l - k));
    ValueOfPrefix(CodeBits(counts, m), k);
  }

  // No code begins with another.
  lemma PrefixFree(counts: seq<nat>, n: nat, m: nat)
    requires |counts| == MAX_LEN && Fits(counts) && n < m < Total(counts, 1)
    ensures Length(counts, n) <= Length(counts, m)
    ensures CodeBits(counts, m)[..Length(counts, n)] != CodeBits(counts, n)
  {
    hide First, Power2, Value, CodeBits, Fits, Total, LengthFrom, RankFrom;
    Ordered(counts, n, m, 1);
    CodeInRange(counts, n);
    CodeInRange(counts, m);
    var k, l := Length(counts, n), Length(counts, m);
    if k == l {
      assert CodeBits(counts, m)[..k] == CodeBits(counts, m);
    } else {
      LongerIsBeyond(counts, m, k);
    }
  }

  // ----- looking up the next code -------------------------------------------------------

  // Code number n is the start of a sixteen-bit word.
  predicate Matches(counts: seq<nat>, n: nat, word: nat)
    requires |counts| == MAX_LEN
  {
    word / Power2(MAX_LEN - Length(counts, n)) % Power2(Length(counts, n)) == Code(counts, n)
  }

  lemma MatchesPrefix(counts: seq<nat>, n: nat, bits: seq<bool>)
    requires |counts| == MAX_LEN && Fits(counts) && n < Total(counts, 1) && |bits| == MAX_LEN
    ensures Matches(counts, n, Value(bits)) <==> bits[..Length(counts, n)] == CodeBits(counts, n)
  {
    hide First, Power2, Value, CodeBits, Fits, Code;
    var k := Length(counts, n);
    ValueOfPrefix(bits, k);
    ValueBound(bits[..k]);
    CodeInRange(counts, n);
    Small(Value(bits[..k]), Power2(k));
    if Value(bits[..k]) == Code(counts, n) {
      ValueInjective(bits[..k], CodeBits(counts, n));
    }
  }

  lemma Small(x: nat, p: nat)
    requires x < p
    ensures x % p == x
  {}

  // At most one code is the start of a word.
  lemma OneMatch(counts: seq<nat>, n: nat, m: nat, bits: seq<bool>)
    requires |counts| == MAX_LEN && Fits(counts) && n < m < Total(counts, 1) && |bits| == MAX_LEN
    ensures !(Matches(counts, n, Value(bits)) && Matches(counts, m, Value(bits)))
  {
    hide Value, CodeBits, Fits, Code, Matches, Length;
    MatchesPrefix(counts, n, bits);
    MatchesPrefix(counts, m, bits);
    PrefixFree(counts, n, m);
    assert bits[..Length(counts, m)][..Length(counts, n)] == bits[..Length(counts, n)];
  }

  // The number of the code that a word starts with, or -1.
  function Lookup(counts: seq<nat>, word: nat, i: nat): (r: int)
    requires |counts| == MAX_LEN && i <= Total(counts, 1)
    ensures r == -1 || (i <= r < Total(counts, 1) && Matches(counts, r, word))
    ensures r == -1 ==> forall n :: i <= n < Total(counts, 1) ==> !Matches(counts, n, word)
    ensures forall n :: i <= n < r ==> !Matches(counts, n, word)
    decreases Total(counts, 1) - i
  {
    if i == Total(counts, 1) then -1
    else if Matches(counts, i, word) then i
    else Lookup(counts, word, i + 1)
  }

  // Sixteen bits that start with a code are looked up as that code.
  lemma LookupFinds(counts: seq<nat>, n: nat, bits: seq<bool>)
    requires |counts| == MAX_LEN && Fits(counts) && n < Total(counts, 1) && |bits| == MAX_LEN && bits[..Length(counts, n)] == CodeBits(counts, n)
    ensures Lookup(counts, Value(bits), 0) == n
  {
    hide Value, CodeBits, Fits, Code, Matches, Length, Total;
    MatchesPrefix(counts, n, bits);
    var r := Lookup(counts, Value(bits), 0);
    if 0 <= r < n {
      OneMatch(counts, r, n, bits);
    }
  }
}
