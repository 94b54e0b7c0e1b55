/** ecc_decode, phase by phase: syndromes, Berlekamp-Massey, Chien search, Forney.
    The theorem is the postcondition of EccDecode: every word at distance at most 16
    from a codeword is turned into that codeword. */
module RsDecoder {
  import opened Gf256
  import opened GfPoly
  import opened RsAlgebra
  import opened RsCode
  import opened RsShortest

  // The polynomial held in an array of values, and in an array of logs.
  ghost function Values(q: seq<bv8>): Coeffs
  {
    (i: nat) => if i < |q| then q[i] else 0
  }

  ghost predicate IsLogs(q: seq<int>)
  {
    forall i :: 0 <= i < |q| ==> 0 <= q[i] < 256
  }

  ghost function LogValues(q: seq<int>): Coeffs
    requires IsLogs(q)
  {
    (i: nat) => if i < |q| then Alpha(q[i]) else 0
  }

  ghost function SyndromePoly(d: seq<bv8>): Coeffs
  {
    (i: nat) => if i < 32 then Syndrome(d, i) else 0
  }

  // ----- phase 1: syndromes ----------------------------------------------------

  lemma SyndromeStep(h: bv8, i: nat, x: bv8)
    ensures (if h == 0 then x else (AlphaOfIdx(h); Xor(x, Alpha((Idx(h) + (112 + i) * 11) % 255))))
         == Xor(Mul(h, Pow(11 * (112 + i))), x)
  {
    hide Alpha, Idx, Xor, Mul, Pow;
    var b := Pow(11 * (112 + i));
    if h == 0 {
      MulZero(b);
      XorLaws(x, 0);
    } else {
      IdxIsLog(h);
      MulPowPow(Idx(h), 11 * (112 + i));
      AlphaMod(Idx(h) + 11 * (112 + i));
      XorLaws(x, Mul(h, b));
    }
  }

  method ComputeSyndromes(data: array<bv8>, pad: nat) returns (s: array<bv8>)
    requires pad <= 223 && data.Length == 255 - pad
    ensures fresh(s) && s.Length == 32
    ensures forall i :: 0 <= i < 32 ==> s[i] == Syndrome(data[..], i)
  {
    hide Alpha, Idx, Xor, Mul, Pow;
    s := new bv8[32];
    for i := 0 to 32
      invariant forall l :: 0 <= l < i ==> s[l] == data[0]
    {
      s[i] := data[0];
    }
    forall i | 0 <= i < 32
      ensures s[i] == Syndrome(data[..1], i)
    {
      var beta := Pow(11 * (112 + i));
      assert Horner(data[..1], beta) == Xor(Mul(Horner(data[..1][..0], beta), beta), data[0]);
      assert Horner(data[..1][..0], beta) == 0;
      MulZero(beta);
      XorLaws(data[0], 0);
    }
    for j := 1 to 255 - pad
      invariant forall i :: 0 <= i < 32 ==> s[i] == Syndrome(data[..j], i)
    {
      assert data[..j + 1][..j] == data[..j];
      for i := 0 to 32
        invariant forall l :: 0 <= l < i ==> s[l] == Syndrome(data[..j + 1], l)
        invariant forall l :: i <= l < 32 ==> s[l] == Syndrome(data[..j], l)
      {
        SyndromeStep(s[i], i, data[j]);
        AlphaOfIdx(s[i]);
        s[i] := if s[i] == 0 then data[j] else Xor(data[j], Alpha((Idx(s[i]) + (112 + i) * 11) % 255));
      }
    }
    assert data[..255 - pad] == data[..];
  }

  // ----- phase 2: Berlekamp-Massey ------------------------------------------------

  // No codeword is nearer to d than el.
  ghost predicate NoCloser(d: seq<bv8>, el: nat)
  {
    forall c: seq<bv8> :: |c| == |d| && IsCodeword(c) ==> el <= Distance(d, c)
  }

  // A discrepancy forces every explanation to be as long as the new length.
  lemma GrowthIsForced(d: seq<bv8>, p: Coeffs, b: Coeffs, r: nat, el: nat)
    requires 0 < |d| <= 255 && r <= 32
    requires BmInv(SyndromePoly(d), p, b, r, el)
    requires Conv(p, SyndromePoly(d), r - 1) != 0
    ensures NoCloser(d, r - el)
  {
    hide Xor, Mul, Pow, Conv, Horner, Weight, Difference, Locator, NonZeros, Distance, Syndromes, IsCodeword;
    var s, n := SyndromePoly(d), |d|;
    LocatorsDiffer(n);
    forall c: seq<bv8> | |c| == n && IsCodeword(c)
      ensures r - el <= Distance(d, c)
    {
      ErrorSyndromes(d, c, s);
      DistanceIsWeight(d, c);
      LengthBound(s, p, Weight(Difference(d, c)), Locator(n), n, r, el, Distance(d, c));
    }
  }

  // One term of the discrepancy.
  lemma DiscrepancyTerm(a: bv8, b: bv8)
    requires a != 0 && Idx(b) != 255
    ensures 0 <= Idx(a) < 255 && 0 <= Idx(b) < 255
    ensures Alpha((Idx(a) + Idx(b)) % 255) == Mul(a, b)
  {
    hide *;
    AlphaOfIdx(b);
    MulByTables(a, b);
  }

  lemma LogProduct(d: bv8, v: int)
    requires d != 0 && 0 <= v < 256
    ensures 0 <= Idx(d) < 255
    ensures Mul(d, Alpha(v)) == if v == 255 then 0 else Alpha((Idx(d) + v) % 255)
  {
    hide Alpha, Idx, Mul, Pow;
    IdxIsLog(d);
    AlphaOfIdx(0);
    MulZero(d);
    if v != 255 {
      AlphaIsPow(v);
      MulPowPow(Idx(d), v);
      AlphaMod(Idx(d) + v);
    }
  }

  lemma LogQuotient(a: bv8, d: bv8)
    requires a != 0 && d != 0
    ensures 0 <= Idx(a) < 255 && 0 <= Idx(d) < 255
    ensures 0 <= (Idx(a) - Idx(d) + 255) % 255 < 255
    ensures Alpha((Idx(a) - Idx(d) + 255) % 255) == Mul(Inv(d), a)
  {
    hide Alpha, Idx, Mul, Pow;
    IdxIsLog(a);
    IdxIsLog(d);
    AlphaMod(Idx(a) - Idx(d) + 255);
    MulPowPow(255 - Idx(d), Idx(a));
  }

  method Discrepancy(lambda: array<bv8>, s: array<int>, r: nat, ghost d: seq<bv8>) returns (discr: bv8)
    requires lambda.Length == 33 && s.Length == 32 && 1 <= r <= 32
    requires forall i :: 0 <= i < 32 ==> s[i] == Idx(Syndrome(d, i))
    ensures discr == Conv(Values(lambda[..]), SyndromePoly(d), r - 1)
  {
    hide Alpha, Idx, Xor, Mul, Pow, Syndrome;
    discr := 0;
    ghost var p, q := Values(lambda[..]), SyndromePoly(d);
    for i := 0 to r
      invariant discr == ConvTo(p, q, r - 1, i)
    {
      AlphaOfIdx(q(r - i - 1));
      MulZero(p(i));
      MulZero(q(r - i - 1));
      XorLaws(discr, 0);
      if lambda[i] != 0 && s[r - i - 1] != 255 {
        DiscrepancyTerm(lambda[i], q(r - i - 1));
        discr := Xor(discr, Alpha((Idx(lambda[i]) + s[r - i - 1]) % 255));
      }
    }
  }

  // The array moves up one place and the log of zero comes in at the bottom.
  method ShiftUp(b: array<int>)
    requires b.Length == 33
    modifies b
    ensures b[0] == 255
    ensures forall i :: 1 <= i < 33 ==> b[i] == old(b[i - 1])
  {
    var i := 32;
    while i > 0
      invariant 0 <= i <= 32
      invariant forall l :: i < l < 33 ==> b[l] == old(b[l - 1])
      invariant forall l :: 0 <= l <= i ==> b[l] == old(b[l])
    {
      b[i] := b[i - 1];
      i := i - 1;
    }
    b[0] := 255;
  }

  lemma LogValueAt(q: seq<int>, i: nat)
    requires IsLogs(q)
    ensures i < |q| ==> 0 <= q[i] < 256 && LogValues(q)(i) == Alpha(q[i])
    ensures i >= |q| ==> LogValues(q)(i) == 0
  {
    hide Alpha;
  }

  lemma ShiftedLogs(q: seq<int>, q1: seq<int>)
    requires |q| == |q1| == 33 && IsLogs(q)
    requires q1[0] == 255 && forall i :: 1 <= i < 33 ==> q1[i] == q[i - 1]
    requires LogValues(q)(32) == 0
    ensures IsLogs(q1)
    ensures forall i: nat :: Shifted(LogValues(q))(i) == LogValues(q1)(i)
  {
    hide Alpha, Idx, LogValues;
    AlphaOfIdx(0);
    forall i: nat
      ensures Shifted(LogValues(q))(i) == LogValues(q1)(i)
    {
      LogValueAt(q1, i);
      if i > 0 {
        LogValueAt(q, i - 1);
      }
    }
  }

  lemma UpdatedAt(ls: seq<bv8>, bs: seq<int>, discr: bv8, l: nat)
    requires |ls| == |bs| == 33 && IsLogs(bs) && LogValues(bs)(32) == 0
    ensures Updated(Values(ls), discr, LogValues(bs))(l)
         == if l >= 33 then 0 else if l == 0 then ls[0] else (LogValueAt(bs, l - 1); Xor(ls[l], Mul(discr, Alpha(bs[l - 1]))))
  {
    hide Alpha, Idx, Xor, Mul, LogValues;
    MulZero(discr);
    XorLaws(ls[0], 0);
    XorLaws(0, 0);
    var v := if l == 0 then 0 else LogValues(bs)(l - 1);
    assert Shifted(LogValues(bs))(l) == v;
    assert Updated(Values(ls), discr, LogValues(bs))(l) == Xor(if l < 33 then ls[l] else 0, Mul(discr, v));
    if l > 0 {
      LogValueAt(bs, l - 1);
    }
  }

  // lambda + discr * x * b, into t
  method Correct(lambda: array<bv8>, b: array<int>, discrLog: int, ghost discr: bv8) returns (t: array<bv8>)
    requires lambda.Length == 33 && b.Length == 33 && IsLogs(b[..])
    requires discr != 0 && discrLog == Idx(discr)
    requires LogValues(b[..])(32) == 0
    ensures fresh(t) && t.Length == 33
    ensures forall i: nat :: Values(t[..])(i) == Updated(Values(lambda[..]), discr, LogValues(b[..]))(i)
  {
    hide Alpha, Idx, Xor, Mul, Updated, LogValues;
    t := new bv8[33];
    t[0] := lambda[0];
    ghost var ls, bs := lambda[..], b[..];
    for i := 0 to 32
      invariant lambda[..] == ls && b[..] == bs && t[0] == ls[0]
      invariant forall l :: 0 <= l < i ==> t[l + 1] == Xor(ls[l + 1], Mul(discr, Alpha(bs[l])))
    {
      LogValueAt(bs, i);
      LogProduct(discr, bs[i]);
      XorLaws(lambda[i + 1], 0);
      if b[i] != 255 {
        t[i + 1] := Xor(lambda[i + 1], Alpha((discrLog + b[i]) % 255));
      } else {
        t[i + 1] := lambda[i + 1];
      }
    }
    forall l: nat
      ensures Values(t[..])(l) == Updated(Values(ls), discr, LogValues(bs))(l)
    {
      UpdatedAt(ls, bs, discr, l);
      if 1 <= l < 33 {
        assert t[(l - 1) + 1] == Xor(ls[l], Mul(discr, Alpha(bs[l - 1])));
      }
    }
  }

  // lambda / discr, into b; b[32] is left as it is.
  method Normalise(lambda: array<bv8>, b: array<int>, discrLog: int, ghost discr: bv8)
    requires lambda.Length == 33 && b.Length == 33 && IsLogs(b[..])
    requires discr != 0 && discrLog == Idx(discr)
    requires LogValues(b[..])(32) == 0 && lambda[32] == 0
    requires lambda as object != b
    modifies b
    ensures IsLogs(b[..])
    ensures forall i: nat :: LogValues(b[..])(i) == Scaled(Values(lambda[..]), Inv(discr))(i)
  {
    hide Alpha, Idx, Mul, Inv, LogValues, Scaled;
    AlphaOfIdx(0);
    MulZero(Inv(discr));
    LogValueAt(b[..], 32);
    ghost var ls := lambda[..];
    for i := 0 to 32
      invariant lambda[..] == ls && b[32] == old(b[32])
      invariant forall l :: 0 <= l < i ==> 0 <= b[l] < 256 && Alpha(b[l]) == Mul(Inv(discr), ls[l])
    {
      if lambda[i] == 0 {
        b[i] := 255;
      } else {
        LogQuotient(lambda[i], discr);
        b[i] := (Idx(lambda[i]) - discrLog + 255) % 255;
      }
    }
    forall l | 0 <= l < 33
      ensures 0 <= b[..][l] < 256
    {
      assert 0 <= b[l] < 256;
    }
    forall l: nat
      ensures LogValues(b[..])(l) == Scaled(Values(ls), Inv(discr))(l)
    {
      LogValueAt(b[..], l);
      ScaledAt(ls, Inv(discr), l);
    }
  }

  lemma ScaledAt(ls: seq<bv8>, a: bv8, l: nat)
    ensures Scaled(Values(ls), a)(l) == if l < |ls| then Mul(a, ls[l]) else 0
  {
    hide Mul;
    MulZero(a);
  }

  // The initial lambda = b = 1.
  lemma InitialInv(d: seq<bv8>, p: seq<bv8>, b: seq<int>)
    requires |p| == |b| == 33 && p[0] == 1 && b[0] == Idx(1)
    requires forall i :: 1 <= i < 33 ==> p[i] == 0 && b[i] == Idx(0)
    ensures IsLogs(b)
    ensures BmInv(SyndromePoly(d), Values(p), LogValues(b), 1, 0)
    ensures NoCloser(d, 0)
  {
    hide Alpha, Idx, Conv, BmInv;
    AlphaOfIdx(0);
    AlphaOfIdx(1);
    BmInit(SyndromePoly(d), Values(p), LogValues(b));
  }

  lemma PartnerTop(s: Coeffs, p: Coeffs, b: Coeffs, r: nat, el: nat)
    requires BmInv(s, p, b, r, el) && r <= 32
    ensures b(32) == 0
    ensures 2 * el <= r - 1 ==> p(32) == 0
  {
    hide Conv;
  }

  method BerlekampMassey(s: array<int>, ghost d: seq<bv8>) returns (lambda: array<bv8>, ghost b: array<int>, ghost el: nat)
    requires s.Length == 32 && 0 < |d| <= 255
    requires forall i :: 0 <= i < 32 ==> s[i] == Idx(Syndrome(d, i))
    ensures fresh(lambda) && lambda.Length == 33 && b.Length == 33 && IsLogs(b[..])
    ensures BmInv(SyndromePoly(d), Values(lambda[..]), LogValues(b[..]), 33, el)
    ensures NoCloser(d, el)
  {
    hide Alpha, Idx, Xor, Mul, Pow, Conv, BmInv, NoCloser, Syndrome, Inv, Shifted, Updated, Scaled;
    lambda := new bv8[33](i => 0);
    lambda[0] := 1;
    var bb := new int[33];
    for i := 0 to 33
      invariant lambda[0] == 1 && forall l :: 1 <= l < 33 ==> lambda[l] == 0
      invariant forall l :: 0 <= l < i ==> bb[l] == Idx(lambda[l])
    {
      bb[i] := Idx(lambda[i]);
    }
    var r, len := 1, 0;
    forall i | 1 <= i < 33
      ensures lambda[..][i] == 0 && bb[..][i] == Idx(0)
    {
      assert bb[i] == Idx(lambda[i]);
    }
    assert bb[..][0] == Idx(1);
    InitialInv(d, lambda[..], bb[..]);
    while r <= 32
      invariant 1 <= r <= 33
      invariant fresh(lambda) && fresh(bb) && lambda.Length == 33 && bb.Length == 33
      invariant lambda as object != bb
      invariant IsLogs(bb[..])
      invariant BmInv(SyndromePoly(d), Values(lambda[..]), LogValues(bb[..]), r, len)
      invariant NoCloser(d, len)
    {
      lambda, len := BmRound(lambda, bb, s, r, len, d);
      r := r + 1;
    }
    b, el := bb, len;
  }

  // One iteration of the loop, for syndrome r-1.
  method BmRound(lambda: array<bv8>, b: array<int>, s: array<int>, r: nat, el: nat, ghost d: seq<bv8>)
    returns (lambda1: array<bv8>, el1: nat)
    requires s.Length == 32 && lambda.Length == 33 && b.Length == 33 && IsLogs(b[..])
    requires b != s && lambda as object != b
    requires 0 < |d| <= 255 && 1 <= r <= 32
    requires forall i :: 0 <= i < 32 ==> s[i] == Idx(Syndrome(d, i))
    requires BmInv(SyndromePoly(d), Values(lambda[..]), LogValues(b[..]), r, el)
    requires NoCloser(d, el)
    modifies b
    ensures lambda1 == lambda || fresh(lambda1)
    ensures lambda1 as object != b
    ensures lambda1.Length == 33 && IsLogs(b[..])
    ensures BmInv(SyndromePoly(d), Values(lambda1[..]), LogValues(b[..]), r + 1, el1)
    ensures NoCloser(d, el1)
  {
    hide Alpha, Idx, Xor, Mul, Pow, Conv, BmInv, NoCloser, Syndrome, Inv, Shifted, Updated, Scaled, LogValues, Values;
    ghost var S, p, q := SyndromePoly(d), Values(lambda[..]), LogValues(b[..]);
    ghost var ps, qs := lambda[..], b[..];
    PartnerTop(S, p, q, r, el);
    var discr := Discrepancy(lambda, s, r, d);
    var discrLog := Idx(discr);
    AlphaOfIdx(discr);
    lambda1, el1 := lambda, el;
    if discrLog == 255 {
      BmAgree(S, p, q, r, el);
      ShiftUp(b);
      assert lambda[..] == ps;
      ShiftedLogs(qs, b[..]);
      BmCongruence(S, p, Shifted(q), p, LogValues(b[..]), r + 1, el);
    } else {
      GrowthIsForced(d, p, q, r, el);
      var t := Correct(lambda, b, discrLog, discr);
      ghost var ts := t[..];
      if 2 * el <= r - 1 {
        el1 := r - el;
        BmGrow(S, p, q, r, el);
        assert lambda[32] == 0 by { ValueAt(lambda[..], 32); }
        Normalise(lambda, b, discrLog, discr);
        assert t[..] == ts;
        BmCongruence(S, Updated(p, discr, q), Scaled(p, Inv(discr)), Values(t[..]), LogValues(b[..]), r + 1, el1);
      } else {
        BmKeep(S, p, q, r, el);
        ShiftUp(b);
        assert t[..] == ts;
        ShiftedLogs(qs, b[..]);
        BmCongruence(S, Updated(p, discr, q), Shifted(q), Values(t[..]), LogValues(b[..]), r + 1, el);
      }
      lambda1 := t;
    }
  }

  lemma ValueAt(q: seq<bv8>, i: nat)
    requires i < |q|
    ensures Values(q)(i) == q[i]
  {}

  // ----- phase 3: Chien search ---------------------------------------------------

  // The position, counted in the unshortened word, that root i of lambda stands for.
  function LocationOf(i: nat): nat
  {
    (116 * i + 254) % 255
  }

  lemma LocationsDiffer(a: nat, b: nat)
    requires 1 <= a <= 255 && 1 <= b <= 255 && LocationOf(a) == LocationOf(b)
    ensures a == b
  {
    // 11 * 116 == 5 * 255 + 1
    var q := (116 * a + 254) / 255 - (116 * b + 254) / 255;
    assert 116 * (a - b) == 255 * q;
    assert a - b == 255 * (11 * q - 5 * (a - b));
  }

  // Register j holds the log of coefficient j times z^j, z being root candidate i.
  ghost predicate Registers(reg: seq<int>, p: Coeffs, d: nat, i: nat)
  {
    |reg| == 33 && d <= 32 && IsLogs(reg) &&
    forall j :: 1 <= j <= d ==> Alpha(reg[j]) == Mul(p(j), Pow(j * i)) && (reg[j] == 255 <==> p(j) == 0)
  }

  lemma RegisterStep(v: int, a: bv8, j: nat, i: nat)
    requires 0 <= v < 255 && a != 0 && i >= 1
    requires Alpha(v) == Mul(a, Pow(j * (i - 1)))
    ensures Alpha((v + j) % 255) == Mul(a, Pow(j * i))
  {
    hide Alpha, Idx, Mul, Pow;
    AlphaIsPow(v);
    MulPowPow(v, j);
    AlphaMod(v + j);
    MulAssoc(a, Pow(j * (i - 1)), Pow(j));
    MulPowPow(j * (i - 1), j);
    assert j * (i - 1) + j == j * i;
  }

  lemma EvalTerm(p: Coeffs, i: nat, j: nat, q: bv8, all: bv8)
    requires Xor(q, Eval(p, Pow(i), j + 1)) == all
    ensures Xor(Xor(q, Mul(p(j), Pow(j * i))), Eval(p, Pow(i), j)) == all
    ensures p(j) == 0 ==> Xor(q, Eval(p, Pow(i), j)) == all
  {
    hide Xor, Mul, Pow;
    ExpOfPow(i, j);
    var t, e := Mul(p(j), Pow(j * i)), Eval(p, Pow(i), j);
    assert i * j == j * i;
    XorLaws(t, e);
    XorAssoc(q, t, e);
    MulZero(Pow(j * i));
    XorLaws(e, 0);
  }

  // One candidate: advance the registers and add them up.
  method TryRoot(reg: array<int>, d: nat, i: nat, ghost p: Coeffs) returns (q: bv8)
    requires 1 <= i && p(0) == 1
    requires reg.Length == 33 && Registers(reg[..], p, d, i - 1)
    modifies reg
    ensures Registers(reg[..], p, d, i)
    ensures q == Eval(p, Pow(i), d + 1)
  {
    hide Alpha, Idx, Xor, Mul, Pow, Eval, Exp;
    q := 1;
    ghost var all := Xor(1, Eval(p, Pow(i), d + 1));
    var j := d;
    while j > 0
      invariant 0 <= j <= d
      invariant IsLogs(reg[..])
      invariant forall l :: 1 <= l <= j ==> reg[l] == old(reg[l])
      invariant forall l :: j < l <= d ==> Alpha(reg[..][l]) == Mul(p(l), Pow(l * i)) && (reg[l] == 255 <==> p(l) == 0)
      invariant Xor(q, Eval(p, Pow(i), j + 1)) == all
    {
      EvalTerm(p, i, j, q, all);
      assert old(reg[..])[j] == reg[j];
      assert 0 <= reg[..][j] < 256;
      if reg[j] != 255 {
        RegisterStep(reg[j], p(j), j, i);
        reg[j] := (reg[j] + j) % 255;
        q := Xor(q, Alpha(reg[j]));
      } else {
        AlphaOfIdx(0);
        MulZero(Pow(j * i));
      }
      j := j - 1;
    }
    ConstantTerm(p, Pow(i));
    var e := Eval(p, Pow(i), d + 1);
    XorLaws(1, q);
    XorLaws(1, e);
    XorLaws(q, 1);
    XorLaws(e, 1);
  }

  lemma ConstantTerm(p: Coeffs, z: bv8)
    ensures Eval(p, z, 1) == p(0)
  {
    hide Xor, Mul;
    assert Eval(p, z, 1) == Xor(0, Mul(p(0), 1));
    MulOne(p(0));
    XorLaws(p(0), 0);
  }

  lemma FirstRegisters(reg: seq<int>, p: Coeffs, d: nat)
    requires |reg| == 33 && d <= 32 && IsLogs(reg)
    requires forall j :: 1 <= j <= d ==> Alpha(reg[j]) == p(j) && (reg[j] == 255 <==> p(j) == 0)
    ensures Registers(reg, p, d, 0)
  {
    hide Alpha, Idx, Mul, Pow;
    PowZero();
    forall j | 1 <= j <= d
      ensures Mul(p(j), Pow(j * 0)) == p(j)
    {
      assert j * 0 == 0;
      MulOne(p(j));
    }
  }

  ghost predicate IsRoot(p: Coeffs, d: nat, i: nat)
  {
    IsZero(p, d, Pow(i))
  }

  // What the search has found among the candidates below i.
  ghost predicate FoundBelow(root: seq<nat>, loc: seq<nat>, p: Coeffs, d: nat, i: nat)
  {
    |root| == |loc| && |root| <= d &&
    (forall k :: 0 <= k < |root| ==> 1 <= root[k] < i && IsRoot(p, d, root[k]) && loc[k] == LocationOf(root[k])) &&
    (forall k, l :: 0 <= k < l < |root| ==> root[k] < root[l])
  }

  ghost predicate Complete(root: seq<nat>, p: Coeffs, d: nat, i: nat)
  {
    forall a: nat :: 1 <= a < i && IsRoot(p, d, a) ==> a in root
  }

  lemma NoRoot(root: seq<nat>, loc: seq<nat>, p: Coeffs, d: nat, i: nat)
    requires FoundBelow(root, loc, p, d, i) && Complete(root, p, d, i)
    requires !IsRoot(p, d, i)
    ensures FoundBelow(root, loc, p, d, i + 1) && Complete(root, p, d, i + 1)
  {
    hide IsRoot;
  }

  lemma NewRoot(root: seq<nat>, loc: seq<nat>, p: Coeffs, d: nat, i: nat)
    requires FoundBelow(root, loc, p, d, i) && Complete(root, p, d, i)
    requires IsRoot(p, d, i) && i >= 1 && |root| < d
    ensures FoundBelow(root + [i], loc + [LocationOf(i)], p, d, i + 1)
    ensures Complete(root + [i], p, d, i + 1)
  {
    hide IsRoot;
  }

  method LoadRegisters(lambda: array<int>, d: nat, ghost p: Coeffs) returns (reg: array<int>)
    requires lambda.Length == 33 && IsLogs(lambda[..]) && d <= 32
    requires forall j :: 1 <= j <= d ==> Alpha(lambda[..][j]) == p(j) && (lambda[j] == 255 <==> p(j) == 0)
    ensures fresh(reg) && reg.Length == 33 && Registers(reg[..], p, d, 0)
  {
    hide Alpha, Idx, Xor, Mul, Pow, Registers;
    reg := new int[33](_ => 255);
    for j := 1 to 33
      invariant reg[0] == 255 && forall l :: 1 <= l < j ==> reg[l] == lambda[l]
    {
      reg[j] := lambda[j];
    }
    forall j | 0 <= j < 33
      ensures 0 <= reg[..][j] < 256
    {
      assert 0 <= lambda[..][j] < 256;
    }
    forall j | 1 <= j <= d
      ensures Alpha(reg[..][j]) == p(j) && (reg[..][j] == 255 <==> p(j) == 0)
    {
      assert reg[..][j] == lambda[..][j];
    }
    FirstRegisters(reg[..], p, d);
  }

  method ChienSearch(lambda: array<int>, d: nat, ghost p: Coeffs)
    returns (root: array<nat>, loc: array<nat>, result: nat)
    requires lambda.Length == 33 && IsLogs(lambda[..]) && d <= 32 && p(0) == 1
    requires forall j :: 1 <= j <= d ==> Alpha(lambda[..][j]) == p(j) && (lambda[j] == 255 <==> p(j) == 0)
    ensures fresh(root) && fresh(loc) && root.Length == 32 && loc.Length == 32 && result <= 32
    ensures FoundBelow(root[..result], loc[..result], p, d, 256)
    ensures result == d || Complete(root[..result], p, d, 256)
  {
    hide *;
    root, loc, result := new nat[32](_ => 0), new nat[32](_ => 0), 0;
    var reg := LoadRegisters(lambda, d, p);
    var i, k := 1, 115;
    assert k == LocationOf(i) by { FirstLocation(); }
    NothingFound(p, d, root[..0], loc[..0]);
    while i <= 255
      invariant 1 <= i <= 256 && k == LocationOf(i)
      invariant fresh(root) && fresh(loc) && fresh(reg) && root.Length == 32 && loc.Length == 32 && reg.Length == 33
      invariant result == 0 || result < d
      invariant root != loc && root as object != reg && loc as object != reg
      invariant Registers(reg[..], p, d, i - 1)
      invariant FoundBelow(root[..result], loc[..result], p, d, i)
      invariant Complete(root[..result], p, d, i)
    {
      ghost var root0, loc0 := root[..result], loc[..result];
      var q := TryRoot(reg, d, i, p);
      assert root[..result] == root0 && loc[..result] == loc0;
      RootTest(p, d, i, q);
      NextLocation(i);
      if q != 0 {
        NoRoot(root0, loc0, p, d, i);
        i := i + 1;
        k := (k + 116) % 255;
        continue;
      }
      PositiveDegree(p, d, i);
      NewRoot(root0, loc0, p, d, i);
      root[result] := i;
      loc[result] := k;
      result := result + 1;
      assert root[..result] == root0 + [i] && loc[..result] == loc0 + [k];
      if result == d {
        WidenFound(root[..result], loc[..result], p, d, i + 1);
        break;
      }
      i := i + 1;
      k := (k + 116) % 255;
    }
  }

  lemma FirstLocation()
    ensures LocationOf(1) == 115
  {}

  lemma NextLocation(i: nat)
    ensures (LocationOf(i) + 116) % 255 == LocationOf(i + 1)
  {
    var q, r := (116 * i + 254) / 255, LocationOf(i);
    assert 116 * (i + 1) + 254 == 255 * q + (r + 116);
    ModAdd(r + 116, q);
  }

  lemma {:induction false} ModAdd(a: nat, k: nat)
    ensures (a + 255 * k) % 255 == a % 255
  {
    if k > 0 {
      ModAdd(a, k - 1);
      assert a + 255 * k == (a + 255 * (k - 1)) + 255;
    }
  }

  lemma NothingFound(p: Coeffs, d: nat, root: seq<nat>, loc: seq<nat>)
    requires root == [] && loc == []
    ensures FoundBelow(root, loc, p, d, 1) && Complete(root, p, d, 1)
  {
    hide IsRoot;
  }

  lemma PositiveDegree(p: Coeffs, d: nat, i: nat)
    requires p(0) == 1 && IsRoot(p, d, i)
    ensures d > 0
  {
    hide Pow, Eval;
    if d == 0 {
      ConstantTerm(p, Pow(i));
    }
  }

  lemma RootTest(p: Coeffs, d: nat, i: nat, q: bv8)
    requires q == Eval(p, Pow(i), d + 1)
    ensures q == 0 <==> IsRoot(p, d, i)
  {
    hide Eval, Pow;
  }

  lemma WidenFound(root: seq<nat>, loc: seq<nat>, p: Coeffs, d: nat, i: nat)
    requires FoundBelow(root, loc, p, d, i) && i <= 256
    ensures FoundBelow(root, loc, p, d, 256)
  {
    hide IsRoot;
  }

  // ----- phase 4: Forney -----------------------------------------------------------

  lemma LogTerm(a: int, b: int, u: bv8, v: bv8)
    requires 0 <= a < 256 && 0 <= b < 256 && Alpha(a) == u && Alpha(b) == v
    ensures a == 255 ==> Mul(u, v) == 0
    ensures b == 255 ==> Mul(u, v) == 0
    ensures a != 255 && b != 255 ==> Alpha((a + b) % 255) == Mul(u, v)
  {
    hide Alpha, Idx, Mul, Pow;
    AlphaOfIdx(0);
    MulZero(u);
    MulZero(v);
    if a != 255 && b != 255 {
      AlphaIsPow(a);
      AlphaIsPow(b);
      MulPowPow(a, b);
      AlphaMod(a + b);
    }
  }

  // Moving one term of a sum into the accumulator.
  lemma MoveTerm(acc: bv8, t: bv8, u: bv8, all: bv8)
    requires Xor(acc, Xor(u, t)) == all
    ensures Xor(Xor(acc, t), u) == all
    ensures t == 0 ==> Xor(acc, u) == all
  {
    hide *;
    XorLaws(u, t);
    XorAssoc(acc, t, u);
    XorLaws(u, 0);
  }

  // Coefficient i of the product of lambda and the syndromes, highest term first.
  method OmegaTerm(s: array<int>, lambda: array<int>, i: nat, ghost p: Coeffs, ghost S: Coeffs) returns (tmp: bv8)
    requires i < 32 && s.Length == 32 && lambda.Length == 33
    requires forall j :: 0 <= j <= 32 ==> 0 <= lambda[j] < 256 && Alpha(lambda[j]) == p(j)
    requires forall j :: 0 <= j < 32 ==> 0 <= s[j] < 256 && Alpha(s[j]) == S(j)
    ensures tmp == Conv(p, S, i)
  {
    hide Alpha, Idx, Xor, Mul;
    tmp := 0;
    ghost var all := ConvTo(p, S, i, i + 1);
    XorLaws(all, 0);
    var j: int := i;
    while j > -1
      invariant -1 <= j <= i
      invariant Xor(tmp, ConvTo(p, S, i, j + 1)) == all
    {
      MoveTerm(tmp, Mul(p(j), S(i - j)), ConvTo(p, S, i, j), all);
      LogTerm(lambda[j], s[i - j], p(j), S(i - j));
      if s[i - j] != 255 && lambda[j] != 255 {
        tmp := Xor(tmp, Alpha((lambda[j] + s[i - j]) % 255));
      }
      j := j - 1;
    }
    XorLaws(tmp, 0);
  }

  method ComputeOmega(s: array<int>, lambda: array<int>, d: nat, ghost p: Coeffs, ghost S: Coeffs) returns (omega: array<int>)
    requires d <= 32 && s.Length == 32 && lambda.Length == 33
    requires forall j :: 0 <= j <= 32 ==> 0 <= lambda[j] < 256 && Alpha(lambda[j]) == p(j)
    requires forall j :: 0 <= j < 32 ==> 0 <= s[j] < 256 && Alpha(s[j]) == S(j)
    ensures fresh(omega) && omega.Length == 33
    ensures forall i :: 0 <= i < d ==> 0 <= omega[i] < 256 && Alpha(omega[i]) == Evaluator(p, S)(i)
  {
    hide Alpha, Idx, Xor, Mul, Conv;
    omega := new int[33](_ => 0);
    for i := 0 to d
      invariant forall l :: 0 <= l < i ==> 0 <= omega[l] < 256 && Alpha(omega[l]) == Evaluator(p, S)(l)
    {
      var tmp := OmegaTerm(s, lambda, i, p, S);
      AlphaOfIdx(tmp);
      omega[i] := Idx(tmp);
    }
  }

  // A polynomial given by logs, at z = the root-th power, highest term first.
  lemma PowerTerm(v: int, a: bv8, root: nat, i: nat)
    requires 0 <= v < 256 && Alpha(v) == a
    ensures v == 255 ==> Mul(a, Exp(Pow(root), i)) == 0
    ensures v != 255 ==> Alpha((v + i * root) % 255) == Mul(a, Exp(Pow(root), i))
  {
    hide Alpha, Idx, Mul, Pow;
    ExpOfPow(root, i);
    if v == 255 {
      AlphaOfIdx(0);
      MulZero(Exp(Pow(root), i));
    } else {
      AlphaIsPow(v);
      MulPowPow(v, root * i);
      AlphaMod(v + root * i);
    }
  }

  lemma EvalStep(w: Coeffs, z: bv8, i: nat)
    ensures Eval(w, z, 0) == 0
    ensures Eval(w, z, i + 1) == Xor(Eval(w, z, i), Mul(w(i), Exp(z, i)))
  {
    hide Xor, Mul, Exp;
  }

  method Numerator(omega: array<int>, d: nat, root: nat, ghost w: Coeffs) returns (num: bv8)
    requires d <= 32 && omega.Length == 33
    requires forall i :: 0 <= i < d ==> 0 <= omega[i] < 256 && Alpha(omega[i]) == w(i)
    ensures num == Eval(w, Pow(root), d)
  {
    hide Alpha, Idx, Xor, Mul, Pow, Exp, Eval;
    num := 0;
    ghost var z := Pow(root);
    ghost var all := Eval(w, z, d);
    XorLaws(all, 0);
    var i := d - 1;
    while i > -1
      invariant -1 <= i < d
      invariant Xor(num, Eval(w, z, i + 1)) == all
    {
      EvalStep(w, z, i);
      MoveTerm(num, Mul(w(i), Exp(z, i)), Eval(w, z, i), all);
      PowerTerm(omega[i], w(i), root, i);
      if omega[i] != 255 {
        num := Xor(num, Alpha((omega[i] + i * root) % 255));
      }
      i := i - 1;
    }
    EvalStep(w, z, 0);
    XorLaws(num, 0);
  }

  // The number of terms the source adds up for the derivative.
  function DerivativeTerms(d: nat): nat
  {
    (if d < 31 then d else 31) / 2 + 1
  }

  method Denominator(lambda: array<int>, d: nat, root: nat, ghost p: Coeffs) returns (den: bv8)
    requires d <= 32 && lambda.Length == 33
    requires forall j :: 0 <= j <= 32 ==> 0 <= lambda[j] < 256 && Alpha(lambda[j]) == p(j)
    ensures den == Derivative(p, Pow(root), DerivativeTerms(d))
  {
    hide Alpha, Idx, Xor, Mul, Pow, Exp;
    den := 0;
    ghost var z := Pow(root);
    ghost var all := Derivative(p, z, DerivativeTerms(d));
    XorLaws(all, 0);
    var i := if d < 31 then d else 31;
    i := i - i % 2;
    while i >= 0
      invariant -2 <= i <= 30 && i % 2 == 0
      invariant Xor(den, Derivative(p, z, i / 2 + 1)) == all
    {
      ghost var t, u := Mul(p(i + 1), Exp(z, i)), Derivative(p, z, i / 2);
      assert Derivative(p, z, i / 2 + 1) == Xor(u, t);
      MoveTerm(den, t, u, all);
      PowerTerm(lambda[i + 1], p(i + 1), root, i);
      if lambda[i + 1] != 255 {
        den := Xor(den, Alpha((lambda[i + 1] + i * root) % 255));
      }
      i := i - 2;
    }
    XorLaws(den, 0);
  }

  // What the source adds to the byte at root i.
  ghost function Correction(p: Coeffs, S: Coeffs, d: nat, i: nat): bv8
  {
    var z := Pow(i);
    var num, den := Eval(Evaluator(p, S), z, d), Derivative(p, z, DerivativeTerms(d));
    if num == 0 then 0 else LogRatio(num, Pow(i * 111 + 255), den)
  }

  function LogRatio(num1: bv8, num2: bv8, den: bv8): bv8
  {
    AlphaOfIdx(num1);
    AlphaOfIdx(num2);
    AlphaOfIdx(den);
    Alpha((Idx(num1) + Idx(num2) + 255 - Idx(den)) % 255)
  }

  lemma LogRatioIsQuotient(a: bv8, b: bv8, den: bv8, y: bv8)
    requires a != 0 && b != 0 && den != 0 && Mul(a, b) == Mul(y, den)
    ensures LogRatio(a, b, den) == y
  {
    hide Alpha, Idx, Mul, Pow;
    IdxIsLog(a);
    IdxIsLog(b);
    IdxIsLog(den);
    MulPowPow(Idx(a), Idx(b));
    MulPowPow(Idx(a) + Idx(b), 255 - Idx(den));
    AlphaMod(Idx(a) + Idx(b) + 255 - Idx(den));
    MulInv(den);
    MulAssoc(y, den, Inv(den));
    MulOne(y);
  }

  // The word after correcting at the given locations, the last one first.
  ghost function Patched(w: seq<bv8>, pad: nat, loc: seq<nat>, fix: seq<bv8>): (w1: seq<bv8>)
    requires |loc| == |fix|
    ensures |w1| == |w|
    decreases |loc|
  {
    if |loc| == 0 then w
    else
      var w1 := Patched(w, pad, loc[1..], fix[1..]);
      if pad <= loc[0] < pad + |w| then w1[loc[0] - pad := Xor(w1[loc[0] - pad], fix[0])] else w1
  }

  lemma {:induction false} PatchedAt(w: seq<bv8>, pad: nat, loc: seq<nat>, fix: seq<bv8>, j: nat)
    requires |loc| == |fix| && j < |w|
    requires forall k, l :: 0 <= k < l < |loc| ==> loc[k] != loc[l]
    ensures pad + j !in loc ==> Patched(w, pad, loc, fix)[j] == w[j]
    ensures forall k :: 0 <= k < |loc| && loc[k] == pad + j ==> Patched(w, pad, loc, fix)[j] == Xor(w[j], fix[k])
    decreases |loc|
  {
    hide Xor;
    if |loc| > 0 {
      PatchedAt(w, pad, loc[1..], fix[1..], j);
      if loc[0] == pad + j {
        assert pad + j !in loc[1..];
      }
      forall k | 0 <= k < |loc| && loc[k] == pad + j
        ensures Patched(w, pad, loc, fix)[j] == Xor(w[j], fix[k])
      {
        if k > 0 {
          assert loc[1..][k - 1] == pad + j;
        }
      }
    }
  }

  ghost function Corrections(p: Coeffs, S: Coeffs, d: nat, root: seq<nat>): (fix: seq<bv8>)
    ensures |fix| == |root|
  {
    seq(|root|, k requires 0 <= k < |root| => Correction(p, S, d, root[k]))
  }

  method CorrectErrors(data: array<bv8>, pad: nat, s: array<int>, lambda: array<int>, d: nat,
                       root: array<nat>, loc: array<nat>, result: nat, ghost p: Coeffs, ghost S: Coeffs)
    requires pad <= 223 && data.Length == 255 - pad
    requires d <= 32 && s.Length == 32 && lambda.Length == 33 && root.Length == 32 && loc.Length == 32 && result <= 32
    requires data as object != s && data as object != lambda && data as object != root && data as object != loc
    requires forall j :: 0 <= j <= 32 ==> 0 <= lambda[j] < 256 && Alpha(lambda[j]) == p(j)
    requires forall j :: 0 <= j < 32 ==> 0 <= s[j] < 256 && Alpha(s[j]) == S(j)
    requires forall k :: 0 <= k < result ==> loc[k] < 255
    modifies data
    ensures data[..] == Patched(old(data[..]), pad, loc[..result], Corrections(p, S, d, root[..result]))
  {
    hide Correction, Corrections, Alpha, Idx, Xor, Patched, Evaluator;
    var omega := ComputeOmega(s, lambda, d, p, S);
    assert omega as object != data;
    ghost var ls, fs := loc[..result], Corrections(p, S, d, root[..result]);
    var j: int := result - 1;
    NothingPatched(data[..], pad, ls, fs);
    while j > -1
      invariant -1 <= j < result
      invariant forall i :: 0 <= i < d ==> 0 <= omega[i] < 256 && Alpha(omega[i]) == Evaluator(p, S)(i)
      invariant data[..] == Patched(old(data[..]), pad, ls[j + 1..], fs[j + 1..])
    {
      var v := ErrorValue(omega, lambda, d, root[j], p, S);
      CorrectionsAt(p, S, d, root[..result], j);
      assert ls[j] == loc[j] && fs[j] == v;
      PatchedStep(old(data[..]), pad, ls, fs, j);
      if loc[j] >= pad {
        data[loc[j] - pad] := Xor(data[loc[j] - pad], v);
      }
      j := j - 1;
    }
    assert ls[0..] == ls && fs[0..] == fs;
  }

  lemma PatchedStep(w: seq<bv8>, pad: nat, loc: seq<nat>, fix: seq<bv8>, j: nat)
    requires j < |loc| == |fix|
    ensures var w1 := Patched(w, pad, loc[j + 1..], fix[j + 1..]);
      Patched(w, pad, loc[j..], fix[j..])
      == if pad <= loc[j] < pad + |w| then w1[loc[j] - pad := Xor(w1[loc[j] - pad], fix[j])] else w1
  {
    hide Xor;
    assert loc[j..][1..] == loc[j + 1..] && fix[j..][1..] == fix[j + 1..];
  }

  lemma CorrectionsAt(p: Coeffs, S: Coeffs, d: nat, root: seq<nat>, k: nat)
    requires k < |root|
    ensures Corrections(p, S, d, root)[k] == Correction(p, S, d, root[k])
  {
    hide Correction;
  }

  lemma NothingPatched(w: seq<bv8>, pad: nat, loc: seq<nat>, fix: seq<bv8>)
    requires |loc| == |fix|
    ensures Patched(w, pad, loc[|loc|..], fix[|fix|..]) == w
  {
    hide Xor;
  }

  // The byte the source adds at one location; it skips the addition when num1 is zero.
  method ErrorValue(omega: array<int>, lambda: array<int>, d: nat, root: nat, ghost p: Coeffs, ghost S: Coeffs)
    returns (v: bv8)
    requires d <= 32 && omega.Length == 33 && lambda.Length == 33
    requires forall i :: 0 <= i < d ==> 0 <= omega[i] < 256 && Alpha(omega[i]) == Evaluator(p, S)(i)
    requires forall j :: 0 <= j <= 32 ==> 0 <= lambda[j] < 256 && Alpha(lambda[j]) == p(j)
    ensures v == Correction(p, S, d, root)
  {
    hide *;
    var num1 := Numerator(omega, d, root, Evaluator(p, S));
    AlphaMod(root * 111 + 255);
    var num2 := Alpha((root * 111 + 255) % 255);
    var den := Denominator(lambda, d, root, p);
    CorrectionValue(p, S, d, root, num1, num2, den);
    v := if num1 != 0 then Alpha((Idx(num1) + Idx(num2) + 255 - Idx(den)) % 255) else 0;
  }

  lemma CorrectionValue(p: Coeffs, S: Coeffs, d: nat, i: nat, num1: bv8, num2: bv8, den: bv8)
    requires num1 == Eval(Evaluator(p, S), Pow(i), d)
    requires num2 == Pow(i * 111 + 255)
    requires den == Derivative(p, Pow(i), DerivativeTerms(d))
    ensures num1 == 0 ==> Correction(p, S, d, i) == 0
    ensures 0 <= Idx(num1) < 256 && 0 <= Idx(num2) < 256 && 0 <= Idx(den) < 256
    ensures num1 != 0 ==> Correction(p, S, d, i) == Alpha((Idx(num1) + Idx(num2) + 255 - Idx(den)) % 255)
  {
    hide Alpha, Idx, Eval, Derivative, Pow, DerivativeTerms;
    AlphaOfIdx(num1);
    AlphaOfIdx(num2);
    AlphaOfIdx(den);
  }

  // ----- the decoder -----------------------------------------------------------------

  // What the phases know of the received word d when the roots have been found.
  ghost predicate Located(d: seq<bv8>, p: Coeffs, b: Coeffs, el: nat, deg: nat, root: seq<nat>, loc: seq<nat>)
  {
    0 < |d| <= 255 &&
    BmInv(SyndromePoly(d), p, b, 33, el) && NoCloser(d, el) &&
    deg <= 32 && (forall i: nat :: deg < i ==> p(i) == 0) && (deg > 0 ==> p(deg) != 0) &&
    FoundBelow(root, loc, p, deg, 256) && (|root| == deg || Complete(root, p, deg, 256))
  }

  // A codeword within distance 16 fixes the length, the degree and the roots.
  lemma LocatorFacts(d: seq<bv8>, c: seq<bv8>, p: Coeffs, b: Coeffs, el: nat, deg: nat)
    requires 0 < |d| <= 255 && BmInv(SyndromePoly(d), p, b, 33, el) && NoCloser(d, el)
    requires deg <= 32 && (forall i: nat :: deg < i ==> p(i) == 0) && (deg > 0 ==> p(deg) != 0)
    requires |c| == |d| && IsCodeword(c) && Distance(d, c) <= 16
    ensures deg == Distance(d, c)
    ensures var w, x, n := Weight(Difference(d, c)), Locator(|d|), |d|;
      Locators(x, n) && Syndromes(SyndromePoly(d), w, x, n) && LocatesAll(p, deg, w, x, n) && NonZeros(w, n) == deg
    ensures p(0) == 1
  {
    hide Eval, Pow, Inv, Conv, Horner, Weight, Difference, Locator, NonZeros, Distance, Syndromes, Locators, LocatesAll, IsCodeword;
    var w, x, n := Weight(Difference(d, c)), Locator(|d|), |d|;
    var S := SyndromePoly(d);
    LocatorsDiffer(n);
    ErrorSyndromes(d, c, S);
    DistanceIsWeight(d, c);
    BmOutcome(S, p, b, el, w, x, n);
    LocatorDegree(p, el, deg, w, x, n);
  }

  // Root candidate i belongs to position j of an n-byte word.
  lemma RootOfPosition(n: nat, pad: nat, j: nat, i: nat)
    requires n + pad == 255 && j < n && 1 <= i <= 255 && LocationOf(i) == pad + j
    ensures Locator(n)(j) != 0 && Pow(i) == Inv(Locator(n)(j))
  {
    hide Alpha, Idx, Pow, Mul, Inv;
    var e := 11 * (n - 1 - j);
    var x := Pow(e);
    PowNonZero(e);
    MulPowPow(e, i);
    var q := (116 * i + 254) / 255;
    assert 116 * i + 254 == 255 * q + pad + j;
    assert 11 * 116 * i + 11 * 254 == 255 * (11 * q) + 11 * (pad + j);
    assert e + i == 255 * (11 * q - 5 * i);
    PowMultiple(11 * q - 5 * i);
    MulInv(x);
    InverseIsUnique(x, Pow(i));
  }

  lemma InverseIsUnique(x: bv8, y: bv8)
    requires x != 0 && Mul(x, y) == 1
    ensures y == Inv(x)
  {
    hide *;
    MulInv(x);
    var z := Inv(x);
    MulComm(x, z);
    MulAssoc(z, x, y);
    MulOne(y);
    MulOne(z);
  }

  lemma {:induction false} PowMultiple(k: nat)
    ensures Pow(255 * k) == 1
  {
    hide Pow;
    if k == 0 {
      PowZero();
    } else {
      PowMultiple(k - 1);
      PowPeriod(255 * (k - 1));
    }
  }

  // The root candidate of position j.
  lemma PositionHasRoot(n: nat, pad: nat, j: nat) returns (i: nat)
    requires n + pad == 255 && j < n
    ensures 1 <= i <= 255 && LocationOf(i) == pad + j
  {
    var a := 11 * (pad + j + 1);
    i := if a % 255 == 0 then 255 else a % 255;
    var q := (a - i) / 255;
    assert a == 255 * q + i;
    assert 116 * i + 254 == 255 * (5 * (pad + j + 1) + 1 - 116 * q) + (pad + j);
    ModOf(116 * i + 254, 5 * (pad + j + 1) + 1 - 116 * q, pad + j);
  }

  lemma ModOf(a: nat, q: int, r: nat)
    requires a == 255 * q + r && r < 255
    ensures a % 255 == r
  {}

  // Every root found is the place of an error.
  lemma FoundIsError(d: seq<bv8>, c: seq<bv8>, pad: nat, p: Coeffs, deg: nat, i: nat) returns (j: nat)
    requires 0 < |d| == |c| && |d| + pad == 255
    requires var w, x, n := Weight(Difference(d, c)), Locator(|d|), |d|;
      Locators(x, n) && LocatesAll(p, deg, w, x, n) && NonZeros(w, n) == deg
    requires p(0) == 1 && 1 <= i <= 255 && IsRoot(p, deg, i)
    ensures j < |d| && d[j] != c[j] && LocationOf(i) == pad + j
  {
    hide Eval, Pow, Inv, Mul, Weight, Difference, Locator, NonZeros, Locators, LocatesAll, LocationOf;
    var w, x, n := Weight(Difference(d, c)), Locator(|d|), |d|;
    PowNonZero(i);
    MulInv(Pow(i));
    var y := Inv(Pow(i));
    MulComm(Pow(i), y);
    InverseIsUnique(y, Pow(i));
    OnlyErrorsAreRoots(p, deg, w, x, n, y);
    j :| 0 <= j < n && w(j) != 0 && x(j) == y;
    WeightZero(d, c, j);
    var i1 := PositionHasRoot(n, pad, j);
    RootOfPosition(n, pad, j, i1);
    PowInjective(i, i1);
    assert i % 255 == i1 % 255;
    assert i == i1;
  }

  // Every error is among the roots found, and the formula gives its value.
  lemma ErrorIsFound(d: seq<bv8>, c: seq<bv8>, pad: nat, p: Coeffs, b: Coeffs, el: nat, deg: nat,
                     root: seq<nat>, loc: seq<nat>, j: nat) returns (k: nat)
    requires Located(d, p, b, el, deg, root, loc) && |d| + pad == 255
    requires |c| == |d| && IsCodeword(c) && Distance(d, c) <= 16
    requires j < |d| && d[j] != c[j]
    ensures k < |root| && loc[k] == pad + j
  {
    hide Eval, Pow, Inv, Conv, Horner, Weight, Difference, Locator, NonZeros, Distance, Syndromes, Locators, IsCodeword, BmInv, NoCloser, LocationOf, SyndromePoly;
    LocatorFacts(d, c, p, b, el, deg);
    var w, x, n := Weight(Difference(d, c)), Locator(|d|), |d|;
    var i := PositionHasRoot(n, pad, j);
    RootOfPosition(n, pad, j, i);
    WeightZero(d, c, j);
    assert IsRoot(p, deg, i);
    if i !in root {
      ExtraRoot(root, loc, p, deg, i);
      assert false;
    }
    k :| 0 <= k < |root| && root[k] == i;
  }

  // As many roots as the degree leave no room for another one.
  lemma ExtraRoot(root: seq<nat>, loc: seq<nat>, p: Coeffs, deg: nat, i: nat)
    requires FoundBelow(root, loc, p, deg, 256) && p(0) == 1
    requires 1 <= i <= 255 && IsRoot(p, deg, i) && i !in root
    ensures |root| < deg
  {
    hide Eval, Pow, Inv, Mul;
    var all := root + [i];
    var xs := seq(|all|, k requires 0 <= k < |all| => RootLocator(all[k]));
    forall k | 0 <= k < |xs|
      ensures xs[k] != 0 && Eval(p, Inv(xs[k]), deg + 1) == 0
    {
      RootLocatorLaw(all[k]);
      assert IsRoot(p, deg, all[k]);
    }
    forall k, l | 0 <= k < l < |xs|
      ensures xs[k] != xs[l]
    {
      RootLocatorLaw(all[k]);
      RootLocatorLaw(all[l]);
      assert 1 <= all[k] <= 255 && 1 <= all[l] <= 255 && all[k] != all[l];
      if Pow(all[k]) == Pow(all[l]) {
        PowInjective(all[k], all[l]);
      }
    }
    RootBound(p, deg, xs);
  }

  ghost function RootLocator(i: nat): bv8
  {
    PowNonZero(i);
    Inv(Pow(i))
  }

  lemma RootLocatorLaw(i: nat)
    ensures RootLocator(i) != 0 && Inv(RootLocator(i)) == Pow(i)
  {
    hide Pow, Inv, Mul;
    PowNonZero(i);
    MulInv(Pow(i));
    var y := Inv(Pow(i));
    MulComm(Pow(i), y);
    InverseIsUnique(y, Pow(i));
  }

  lemma CorrectionIsError(d: seq<bv8>, c: seq<bv8>, pad: nat, p: Coeffs, b: Coeffs, el: nat, deg: nat, i: nat, j: nat)
    requires 0 < |d| <= 255 && BmInv(SyndromePoly(d), p, b, 33, el) && NoCloser(d, el)
    requires deg <= 32 && (forall i: nat :: deg < i ==> p(i) == 0) && (deg > 0 ==> p(deg) != 0)
    requires |c| == |d| && |d| + pad == 255 && IsCodeword(c) && Distance(d, c) <= 16
    requires j < |d| && d[j] != c[j] && 1 <= i <= 255 && LocationOf(i) == pad + j
    ensures Correction(p, SyndromePoly(d), deg, i) == Xor(d[j], c[j])
  {
    hide Eval, Pow, Inv, Conv, Xor, Mul, Exp, Horner, Weight, Difference, Locator, NonZeros, Distance, Syndromes, Locators, LocatesAll, IsCodeword, BmInv, NoCloser, SyndromePoly, LogRatio, Derivative, LocationOf, Evaluator;
    LocatorFacts(d, c, p, b, el, deg);
    var S, w, x, n := SyndromePoly(d), Weight(Difference(d, c)), Locator(|d|), |d|;
    var y := Xor(d[j], c[j]);
    XorZero(d[j], c[j]);
    WeightZero(d, c, j);
    RootOfPosition(n, pad, j, i);
    Forney(p, S, w, x, n, deg, j, DerivativeTerms(deg), y);
    var num, den := Eval(Evaluator(p, S), Pow(i), deg), Derivative(p, Pow(i), DerivativeTerms(deg));
    ExpOfPow(i, 111);
    PowPeriod(i * 111);
    PowNonZero(i * 111);
    LogRatioIsQuotient(num, Pow(i * 111 + 255), den, y);
  }

  // A word without syndromes is itself the only codeword within reach.
  lemma CleanWord(d: seq<bv8>)
    requires |d| <= 255 && forall i :: 0 <= i < 32 ==> Syndrome(d, i) == 0
    ensures forall c: seq<bv8> :: |c| == |d| && IsCodeword(c) && Distance(d, c) <= 16 ==> d == c && Distance(d, c) == 0
  {
    hide Syndrome;
    forall c: seq<bv8> | |c| == |d| && IsCodeword(c) && Distance(d, c) <= 16
      ensures d == c && Distance(d, c) == 0
    {
      if d != c {
        MinimumDistance(d, c);
      }
      DistanceToSelf(d);
    }
  }

  lemma {:induction false} DistanceToSelf(d: seq<bv8>)
    ensures Distance(d, d) == 0
  {
    if |d| > 0 {
      DistanceToSelf(d[..|d| - 1]);
    }
  }

  // lambda in log form, and its degree.
  method LogsAndDegree(v: array<bv8>) returns (lambda: array<int>, d: nat)
    requires v.Length == 33
    ensures fresh(lambda) && lambda.Length == 33 && d <= 32
    ensures IsLogs(lambda[..])
    ensures forall j :: 0 <= j <= 32 ==>
      0 <= lambda[j] < 256 && Alpha(lambda[j]) == Values(v[..])(j) && (lambda[j] == 255 <==> Values(v[..])(j) == 0)
    ensures forall i: nat :: d < i ==> Values(v[..])(i) == 0
    ensures d > 0 ==> Values(v[..])(d) != 0
  {
    hide Alpha, Idx;
    lambda, d := new int[33](_ => 0), 0;
    for i := 0 to 33
      invariant d <= 32
      invariant forall j :: 0 <= j < i ==> 0 <= lambda[j] < 256 && Alpha(lambda[j]) == v[j] && (lambda[j] == 255 <==> v[j] == 0)
      invariant forall j :: d < j < i ==> v[j] == 0
      invariant d > 0 ==> d < i && v[d] != 0
    {
      AlphaOfIdx(v[i]);
      lambda[i] := Idx(v[i]);
      if lambda[i] != 255 {
        d := i;
      }
    }
    forall j | 0 <= j < 33
      ensures 0 <= lambda[..][j] < 256
    {
      assert 0 <= lambda[j] < 256;
    }
  }

  lemma ConstantIsOne(s: Coeffs, p: Coeffs, b: Coeffs, el: nat)
    requires BmInv(s, p, b, 33, el)
    ensures p(0) == 1
  {
    hide Conv;
  }

  lemma LogsOfSyndromes(s: seq<int>, d: seq<bv8>)
    requires |s| == 32 && forall l :: 0 <= l < 32 ==> s[l] == Idx(Syndrome(d, l))
    ensures forall j :: 0 <= j < 32 ==> 0 <= s[j] < 256 && Alpha(s[j]) == SyndromePoly(d)(j)
  {
    hide Alpha, Idx, Syndrome;
    forall j | 0 <= j < 32
      ensures 0 <= s[j] < 256 && Alpha(s[j]) == SyndromePoly(d)(j)
    {
      AlphaOfIdx(Syndrome(d, j));
    }
  }

  ghost function Elements(q: seq<nat>): set<nat>
  {
    set x | x in q
  }

  lemma {:induction false} FewElements(q: seq<nat>)
    ensures |Elements(q)| <= |q|
  {
    if |q| > 0 {
      var m := |q| - 1;
      FewElements(q[..m]);
      assert q == q[..m] + [q[m]];
      assert Elements(q) == Elements(q[..m]) + {q[m]};
    }
  }

  // If every error of the first m positions has been located, there are at least
  // as many locations as errors.
  lemma {:induction false} LocatedErrors(d: seq<bv8>, c: seq<bv8>, pad: nat, places: set<nat>, m: nat)
    requires |d| == |c| && m <= |d|
    requires forall j :: 0 <= j < m && d[j] != c[j] ==> pad + j in places
    ensures Distance(d[..m], c[..m]) <= |set x | x in places && x < pad + m|
  {
    hide Distance;
    if m == 0 {
      DistanceEmpty(d[..0], c[..0]);
    } else {
      LocatedErrors(d, c, pad, places, m - 1);
      DistanceStep(d[..m], c[..m]);
      assert d[..m][..m - 1] == d[..m - 1] && c[..m][..m - 1] == c[..m - 1];
      var below := set x | x in places && x < pad + (m - 1);
      var now := set x | x in places && x < pad + m;
      if d[m - 1] != c[m - 1] {
        assert now == below + {pad + m - 1};
      } else {
        CardinalityMonotone(below, now);
      }
    }
  }

  lemma {:induction false} CardinalityMonotone(a: set<nat>, b: set<nat>)
    requires a <= b
    ensures |a| <= |b|
  {
    assert b == a + (b - a);
    assert a !! (b - a);
  }

  // With a codeword in reach, the search finds as many roots as the degree.
  lemma FindsAllRoots(d: seq<bv8>, c: seq<bv8>, pad: nat, p: Coeffs, b: Coeffs, el: nat, deg: nat, root: seq<nat>, loc: seq<nat>)
    requires Located(d, p, b, el, deg, root, loc) && |d| + pad == 255
    requires |c| == |d| && IsCodeword(c) && Distance(d, c) <= 16
    ensures |root| == deg
  {
    hide Distance, IsCodeword, BmInv, NoCloser, LocationOf, IsRoot, Weight, Difference, Locator, Eval, Inv, Conv, Xor;
    LocatorFacts(d, c, p, b, el, deg);
    var places := Elements(loc);
    forall j | 0 <= j < |d| && d[j] != c[j]
      ensures pad + j in places
    {
      var k := ErrorIsFound(d, c, pad, p, b, el, deg, root, loc, j);
      assert loc[k] in loc;
    }
    LocatedErrors(d, c, pad, places, |d|);
    assert d[..|d|] == d && c[..|c|] == c;
    CardinalityMonotone((set x | x in places && x < pad + |d|), places);
    FewElements(loc);
  }

  // With a codeword in reach, patching yields the codeword.
  lemma Corrected(d: seq<bv8>, c: seq<bv8>, pad: nat, p: Coeffs, b: Coeffs, el: nat, deg: nat, root: seq<nat>, loc: seq<nat>)
    requires Located(d, p, b, el, deg, root, loc) && |d| + pad == 255 && |root| == deg
    requires |c| == |d| && IsCodeword(c) && Distance(d, c) <= 16
    ensures Patched(d, pad, loc, Corrections(p, SyndromePoly(d), deg, root)) == c
    ensures deg == Distance(d, c)
  {
    hide Distance, IsCodeword, BmInv, NoCloser, LocationOf, IsRoot, Weight, Difference, Locator, Eval, Inv, Conv, Xor, Patched, Correction, Corrections, SyndromePoly;
    LocatorFacts(d, c, p, b, el, deg);
    var fix := Corrections(p, SyndromePoly(d), deg, root);
    forall k, l | 0 <= k < l < |loc|
      ensures loc[k] != loc[l]
    {
      if loc[k] == loc[l] {
        LocationsDiffer(root[k], root[l]);
      }
    }
    forall j | 0 <= j < |d|
      ensures Patched(d, pad, loc, fix)[j] == c[j]
    {
      PatchedAt(d, pad, loc, fix, j);
      if d[j] != c[j] {
        var k := ErrorIsFound(d, c, pad, p, b, el, deg, root, loc, j);
        CorrectionsAt(p, SyndromePoly(d), deg, root, k);
        CorrectionIsError(d, c, pad, p, b, el, deg, root[k], j);
        XorLaws(d[j], d[j]);
        XorAssoc(d[j], d[j], c[j]);
        XorLaws(c[j], 0);
      } else if pad + j in loc {
        var k :| 0 <= k < |loc| && loc[k] == pad + j;
        var _ := FoundIsError(d, c, pad, p, deg, root[k]);
        assert false;
      }
    }
  }

  lemma MakeLocated(d: seq<bv8>, p: Coeffs, b: Coeffs, el: nat, deg: nat, root: seq<nat>, loc: seq<nat>)
    requires 0 < |d| <= 255 && BmInv(SyndromePoly(d), p, b, 33, el) && NoCloser(d, el)
    requires deg <= 32 && (forall i: nat :: deg < i ==> p(i) == 0) && (deg > 0 ==> p(deg) != 0)
    requires FoundBelow(root, loc, p, deg, 256) && (|root| == deg || Complete(root, p, deg, 256))
    ensures Located(d, p, b, el, deg, root, loc)
    ensures |root| <= deg && |loc| == |root| && forall k :: 0 <= k < |loc| ==> loc[k] < 255
  {
    hide BmInv, NoCloser, IsRoot, Complete;
  }

  // ----- the outcome for every word, within reach of a codeword or not ----------------

  // Every byte whose position is a root of p is changed by the value computed for
  // that root, and no other byte.
  ghost predicate Repaired(d: seq<bv8>, d1: seq<bv8>, pad: nat, p: Coeffs, deg: nat)
  {
    |d1| == |d| &&
    forall i: nat, j: nat :: 1 <= i <= 255 && j < |d| && LocationOf(i) == pad + j ==>
      d1[j] == if IsRoot(p, deg, i) then Xor(d[j], Correction(p, SyndromePoly(d), deg, i)) else d[j]
  }

  // What becomes of the word d if p is a shortest polynomial for its syndromes.
  ghost predicate Outcome(d: seq<bv8>, d1: seq<bv8>, result: int, pad: nat, p: Coeffs, el: nat)
  {
    result == Verdict(p, el) &&
    if result <= 0 then d1 == d else Repaired(d, d1, pad, p, Degree(p, el))
  }

  lemma VerdictFound(s: Coeffs, p: Coeffs, b: Coeffs, el: nat, deg: nat, root: seq<nat>, loc: seq<nat>)
    requires BmInv(s, p, b, 33, el)
    requires (forall i: nat :: deg < i ==> p(i) == 0) && (deg > 0 ==> p(deg) != 0)
    requires FoundBelow(root, loc, p, deg, 256) && (|root| == deg || Complete(root, p, deg, 256))
    ensures Shortest(s, p, el) && Degree(p, el) == deg
    ensures Verdict(p, el) == if |root| == deg then deg else -1
  {
    hide Eval, Conv, Pow, LocationOf, Shortest;
    BmShortest(s, p, b, el);
    DegreeIs(p, el, deg);
    forall i: nat
      ensures IsZero(p, el, Pow(i)) <==> IsRoot(p, deg, i)
    {
      EvalCut(p, Pow(i), deg + 1, el + 1);
    }
    forall i: nat | 1 <= i <= 255 && IsZero(p, el, Pow(i))
      ensures i in root
    {
      if i !in root {
        ExtraRoot(root, loc, p, deg, i);
      }
    }
    ZerosCounted(p, el, root);
  }

  // A word without syndromes: the constant 1 reproduces them.
  lemma CleanOutcome(d: seq<bv8>, pad: nat)
    requires forall i :: 0 <= i < 32 ==> Syndrome(d, i) == 0
    ensures exists p: Coeffs, el: nat :: Shortest(SyndromePoly(d), p, el) && Outcome(d, d, 0, pad, p, el)
    ensures forall p: Coeffs, el: nat :: Shortest(SyndromePoly(d), p, el) && el <= 16 ==> Outcome(d, d, 0, pad, p, el)
  {
    hide Syndrome, ConvTo, Xor, Mul, Eval;
    var s, one: Coeffs := SyndromePoly(d), (i: nat) => if i == 0 then 1 else 0;
    forall i: nat | i < 32
      ensures Conv(one, s, i) == 0
    {
      ConvOnly(one, s, i, 0, i + 1);
      MulZero(1);
    }
    assert Shortest(s, one, 0);
    forall y: bv8
      ensures !IsZero(one, 0, y)
    {
      ConstantTerm(one, y);
    }
    assert Zeros(one, 0) == {};
    assert Outcome(d, d, 0, pad, one, 0);
    OneOutcome(d, d, 0, pad, one, 0);
  }

  lemma {:induction false} DerivativeCongruence(p: Coeffs, q: Coeffs, z: bv8, m: nat)
    requires forall i: nat :: p(i) == q(i)
    ensures Derivative(p, z, m) == Derivative(q, z, m)
  {
    hide Xor, Mul, Exp;
    if m > 0 {
      DerivativeCongruence(p, q, z, m - 1);
    }
  }

  lemma SameCorrection(p: Coeffs, q: Coeffs, s: Coeffs, d: nat, i: nat)
    requires forall i: nat :: p(i) == q(i)
    ensures Correction(p, s, d, i) == Correction(q, s, d, i)
    ensures IsRoot(p, d, i) <==> IsRoot(q, d, i)
  {
    hide Eval, Derivative, Pow, LogRatio, DerivativeTerms, Conv;
    forall k: nat
      ensures Evaluator(p, s)(k) == Evaluator(q, s)(k)
    {
      assert Conv(p, s, k) == Conv(q, s, k) by { ConvCongruence(p, q, s, s, k, k + 1); SameConv(p, q, s, k); }
    }
    EvalCongruence(Evaluator(p, s), Evaluator(q, s), Pow(i), d);
    DerivativeCongruence(p, q, Pow(i), DerivativeTerms(d));
    EvalCongruence(p, q, Pow(i), d + 1);
  }

  lemma SameConv(p: Coeffs, q: Coeffs, s: Coeffs, k: nat)
    requires ConvTo(p, s, k, k + 1) == ConvTo(q, s, k, k + 1)
    ensures Conv(p, s, k) == Conv(q, s, k)
  {
    hide ConvTo;
  }

  // Up to length 16, the outcome is the same for every shortest polynomial.
  lemma OneOutcome(d: seq<bv8>, d1: seq<bv8>, result: int, pad: nat, q: Coeffs, e: nat)
    requires Shortest(SyndromePoly(d), q, e) && Outcome(d, d1, result, pad, q, e)
    ensures forall p: Coeffs, el: nat :: Shortest(SyndromePoly(d), p, el) && el <= 16 ==> Outcome(d, d1, result, pad, p, el)
  {
    hide Shortest, Verdict, Degree, SyndromePoly, Correction, IsRoot, LocationOf, Xor;
    forall p: Coeffs, el: nat | Shortest(SyndromePoly(d), p, el) && el <= 16
      ensures Outcome(d, d1, result, pad, p, el)
    {
      ShortestIsUnique(SyndromePoly(d), p, el, q, e);
      SameVerdict(p, q, el);
      forall i: nat
        ensures Correction(p, SyndromePoly(d), Degree(p, el), i) == Correction(q, SyndromePoly(d), Degree(p, el), i)
        ensures IsRoot(p, Degree(p, el), i) <==> IsRoot(q, Degree(p, el), i)
      {
        SameCorrection(p, q, SyndromePoly(d), Degree(p, el), i);
      }
    }
  }

  lemma PatchedIsRepaired(d: seq<bv8>, pad: nat, p: Coeffs, deg: nat, root: seq<nat>, loc: seq<nat>)
    requires p(0) == 1 && |root| == deg && FoundBelow(root, loc, p, deg, 256)
    ensures Repaired(d, Patched(d, pad, loc, Corrections(p, SyndromePoly(d), deg, root)), pad, p, deg)
  {
    hide IsRoot, LocationOf, Correction, Corrections, Xor, Patched, SyndromePoly;
    var fix := Corrections(p, SyndromePoly(d), deg, root);
    forall k, l | 0 <= k < l < |loc|
      ensures loc[k] != loc[l]
    {
      if loc[k] == loc[l] {
        LocationsDiffer(root[k], root[l]);
      }
    }
    forall i: nat, j: nat | 1 <= i <= 255 && j < |d| && LocationOf(i) == pad + j
      ensures Patched(d, pad, loc, fix)[j] == if IsRoot(p, deg, i) then Xor(d[j], Correction(p, SyndromePoly(d), deg, i)) else d[j]
    {
      PatchedAt(d, pad, loc, fix, j);
      if IsRoot(p, deg, i) {
        if i !in root {
          ExtraRoot(root, loc, p, deg, i);
        }
        var k :| 0 <= k < |root| && root[k] == i;
        CorrectionsAt(p, SyndromePoly(d), deg, root, k);
      } else if pad + j in loc {
        var k :| 0 <= k < |loc| && loc[k] == pad + j;
        LocationsDiffer(i, root[k]);
        assert false;
      }
    }
  }

  lemma GivenUp(d: seq<bv8>, pad: nat, p: Coeffs, el: nat)
    requires Shortest(SyndromePoly(d), p, el) && Verdict(p, el) == -1
    ensures Outcome(d, d, -1, pad, p, el)
    ensures forall q: Coeffs, e: nat :: Shortest(SyndromePoly(d), q, e) && e <= 16 ==> Outcome(d, d, -1, pad, q, e)
  {
    hide Shortest, Verdict, SyndromePoly, Repaired;
    OneOutcome(d, d, -1, pad, p, el);
  }

  lemma PatchedOutcome(d: seq<bv8>, d1: seq<bv8>, pad: nat, p: Coeffs, el: nat, root: seq<nat>, loc: seq<nat>)
    requires p(0) == 1 && Shortest(SyndromePoly(d), p, el)
    requires |root| == Degree(p, el) == Verdict(p, el) && FoundBelow(root, loc, p, |root|, 256)
    requires d1 == Patched(d, pad, loc, Corrections(p, SyndromePoly(d), |root|, root))
    requires |root| == 0 ==> d1 == d
    ensures Outcome(d, d1, |root|, pad, p, el)
    ensures forall q: Coeffs, e: nat :: Shortest(SyndromePoly(d), q, e) && e <= 16 ==> Outcome(d, d1, |root|, pad, q, e)
  {
    hide Shortest, Verdict, Degree, SyndromePoly, Repaired, FoundBelow, Patched, Corrections;
    PatchedIsRepaired(d, pad, p, |root|, root, loc);
    OneOutcome(d, d1, |root|, pad, p, el);
  }

  // The whole decoder. In the source, -1 stands for a word it gives up on.
  method EccDecode(data: array<bv8>, pad: nat) returns (result: int)
    requires pad <= 223 && data.Length == 255 - pad
    modifies data
    ensures -1 <= result <= 32
    ensures result <= 0 ==> data[..] == old(data[..])
    ensures forall c: seq<bv8> :: |c| == data.Length && IsCodeword(c) && Distance(old(data[..]), c) <= 16 ==>
      data[..] == c && result == Distance(old(data[..]), c)
    ensures exists p: Coeffs, el: nat ::
      Shortest(SyndromePoly(old(data[..])), p, el) && Outcome(old(data[..]), data[..], result, pad, p, el)
    ensures forall p: Coeffs, el: nat :: Shortest(SyndromePoly(old(data[..])), p, el) && el <= 16 ==>
      Outcome(old(data[..]), data[..], result, pad, p, el)
  {
    hide *;
    ghost var d := data[..];
    var syn := ComputeSyndromes(data, pad);
    var synError, s := SyndromeLogs(syn, d);
    if !synError {
      CleanWord(d);
      CleanOutcome(d, pad);
      return 0;
    }
    result := LocateAndCorrect(data, pad, s);
  }

  // The syndromes in log form, and whether any of them is not zero.
  method SyndromeLogs(syn: array<bv8>, ghost d: seq<bv8>) returns (synError: bool, s: array<int>)
    requires syn.Length == 32 && forall i :: 0 <= i < 32 ==> syn[i] == Syndrome(d, i)
    ensures fresh(s) && s.Length == 32
    ensures forall i :: 0 <= i < 32 ==> s[i] == Idx(Syndrome(d, i))
    ensures !synError ==> forall i :: 0 <= i < 32 ==> Syndrome(d, i) == 0
  {
    hide *;
    synError := false;
    s := new int[32](_ => 0);
    for i := 0 to 32
      invariant forall l :: 0 <= l < i ==> s[l] == Idx(Syndrome(d, l))
      invariant !synError ==> forall l :: 0 <= l < i ==> Syndrome(d, l) == 0
    {
      assert syn[i] == Syndrome(d, i);
      synError := synError || syn[i] != 0;
      s[i] := Idx(syn[i]);
    }
  }

  method LocateAndCorrect(data: array<bv8>, pad: nat, s: array<int>) returns (result: int)
    requires pad <= 223 && data.Length == 255 - pad && s.Length == 32 && data as object != s
    requires forall i :: 0 <= i < 32 ==> s[i] == Idx(Syndrome(data[..], i))
    modifies data
    ensures -1 <= result <= 32
    ensures result <= 0 ==> data[..] == old(data[..])
    ensures forall c: seq<bv8> :: |c| == data.Length && IsCodeword(c) && Distance(old(data[..]), c) <= 16 ==>
      data[..] == c && result == Distance(old(data[..]), c)
    ensures exists p: Coeffs, el: nat ::
      Shortest(SyndromePoly(old(data[..])), p, el) && Outcome(old(data[..]), data[..], result, pad, p, el)
    ensures forall p: Coeffs, el: nat :: Shortest(SyndromePoly(old(data[..])), p, el) && el <= 16 ==>
      Outcome(old(data[..]), data[..], result, pad, p, el)
  {
    hide *;
    ghost var d := data[..];
    ghost var b, el;
    var lambdaValues;
    lambdaValues, b, el := BerlekampMassey(s, d);
    var lambda, degLambda := LogsAndDegree(lambdaValues);
    ghost var p, q := Values(lambdaValues[..]), LogValues(b[..]);
    ConstantIsOne(SyndromePoly(d), p, q, el);
    var root, loc;
    root, loc, result := ChienSearch(lambda, degLambda, p);
    ghost var roots, locs := root[..result], loc[..result];
    MakeLocated(d, p, q, el, degLambda, roots, locs);
    forall c: seq<bv8> | |c| == data.Length && IsCodeword(c) && Distance(d, c) <= 16
      ensures result == degLambda
    {
      FindsAllRoots(d, c, pad, p, q, el, degLambda, roots, locs);
    }
    VerdictFound(SyndromePoly(d), p, q, el, degLambda, roots, locs);
    if degLambda != result {
      GivenUp(d, pad, p, el);
      return -1;
    }
    LogsOfSyndromes(s[..], d);
    CorrectErrors(data, pad, s, lambda, degLambda, root, loc, result, p, SyndromePoly(d));
    if result == 0 {
      NothingPatched(d, pad, locs, Corrections(p, SyndromePoly(d), degLambda, roots));
    }
    PatchedOutcome(d, data[..], pad, p, el, roots, locs);
    forall c: seq<bv8> | |c| == data.Length && IsCodeword(c) && Distance(d, c) <= 16
      ensures data[..] == c && result == Distance(d, c)
    {
      Corrected(d, c, pad, p, q, el, degLambda, roots, locs);
    }
  }
}
