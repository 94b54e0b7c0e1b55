/** ecc_encode: the parity bytes as a shift register with feedback through the
    generator polynomial. */
module RsEncoder {
  import opened Gf256
  import opened GfPoly
  import opened RsCode
  import opened RsGenerator

  function Tap(f: bv8, k: int): bv8
  {
    if f == 0 then 0 else (AlphaOfIdx(f); Alpha((Idx(f) + Poly(k)) % 255))
  }

  // The register after one message byte, f being the byte fed back.
  function NextParity(bb: seq<bv8>, f: bv8): (nb: seq<bv8>)
    requires |bb| == 32
    ensures |nb| == 32
  {
    seq(32, j requires 0 <= j < 32 => if j == 31 then Tap(f, 0) else Xor(bb[j + 1], Tap(f, 31 - j)))
  }

  lemma TapIsProduct(f: bv8, k: int)
    ensures Tap(f, k) == Mul(f, Pow(Poly(k)))
  {
    hide Alpha, Idx, Mul, Pow, Poly;
    if f == 0 {
      MulZero(Pow(Poly(k)));
    } else {
      IdxIsLog(f);
      MulPowPow(Idx(f), Poly(k));
      AlphaMod(Idx(f) + Poly(k));
    }
  }

  // The leading m coefficients of the generator, below its first, at beta.
  ghost function Taps(beta: bv8, m: nat): bv8
    requires m <= 32
  {
    if m == 0 then 0 else Xor(Mul(Taps(beta, m - 1), beta), Pow(Poly(32 - m)))
  }

  lemma {:induction false} TapsMeetSum(r: nat, m: nat)
    requires m <= 32
    ensures Xor(Mul(Taps(Pow(11 * r), m), Exp(Pow(11 * r), 32 - m)), GenSum(r, 32 - m)) == GenSum(r, 32)
  {
    hide Xor, Mul, Pow, Poly;
    var beta := Pow(11 * r);
    var e := Exp(beta, 32 - m);
    if m == 0 {
      MulZero(e);
      XorLaws(GenSum(r, 32), 0);
    } else {
      TapsMeetSum(r, m - 1);
      var t, g, k := Taps(beta, m - 1), Pow(Poly(32 - m)), 32 - m;
      MulLeftXor(Mul(t, beta), g, e);
      MulAssoc(t, beta, e);
      ExpOfPow(11 * r, k);
      MulPowPow(Poly(k), 11 * r * k);
      assert Mul(g, e) == Pow(TermLog(r, k));
      XorAssoc(Mul(t, Mul(beta, e)), Mul(g, e), GenSum(r, k));
      XorLaws(Mul(g, e), GenSum(r, k));
    }
  }

  // The generator vanishes at its roots, so its lower part equals its leading power.
  lemma TapsAtRoot(r: nat)
    requires 112 <= r < 144
    ensures Taps(Pow(11 * r), 32) == Exp(Pow(11 * r), 32)
  {
    hide Xor, Mul, Pow, Poly, Taps;
    var beta := Pow(11 * r);
    TapsMeetSum(r, 32);
    assert Exp(beta, 0) == 1 && GenSum(r, 0) == 0;
    MulOne(Taps(beta, 32));
    XorLaws(Taps(beta, 32), 0);
    GeneratorRoots(r);
    assert GenSum(r, 33) == Xor(GenSum(r, 32), Pow(TermLog(r, 32)));
    XorZero(GenSum(r, 32), Pow(TermLog(r, 32)));
    assert Poly(32) == 0 by { LeadingCoefficient(); }
    ExpOfPow(11 * r, 32);
  }

  lemma LeadingCoefficient()
    ensures Poly(32) == 0
  {}

  // The first m bytes of the next register, at beta.
  lemma {:induction false} ShiftedRegister(bb: seq<bv8>, f: bv8, beta: bv8, m: nat)
    requires |bb| == 32 && m <= 31
    ensures Horner(NextParity(bb, f)[..m], beta)
         == Xor(Xor(Horner(bb[..m + 1], beta), Mul(bb[0], Exp(beta, m))), Mul(f, Taps(beta, m)))
  {
    hide Xor, Mul, Pow, Poly, Tap, Exp;
    var nb := NextParity(bb, f);
    if m == 0 {
      assert bb[..1][..0] == [];
      assert Horner(bb[..1], beta) == Xor(Mul(0, beta), bb[0]);
      MulZero(beta);
      MulZero(f);
      ExpNothing(beta);
      MulOne(bb[0]);
      XorLaws(bb[0], 0);
      XorLaws(bb[0], bb[0]);
      XorLaws(0, 0);
    } else {
      ShiftedRegister(bb, f, beta, m - 1);
      assert nb[..m][..m - 1] == nb[..m - 1] && bb[..m + 1][..m] == bb[..m];
      TapIsProduct(f, 32 - m);
      ExpMore(beta, m - 1);
      RegisterStep(Horner(bb[..m], beta), bb[0], Exp(beta, m - 1), f, Taps(beta, m - 1), beta, bb[m], Pow(Poly(32 - m)));
    }
  }

  lemma ExpNothing(a: bv8)
    ensures Exp(a, 0) == 1
  {}

  lemma ExpMore(a: bv8, n: nat)
    ensures Exp(a, n + 1) == Mul(Exp(a, n), a)
  {
    hide Mul;
    MulComm(a, Exp(a, n));
  }

  lemma RegisterStep(h: bv8, b: bv8, e: bv8, f: bv8, t: bv8, beta: bv8, x: bv8, g: bv8)
    ensures Xor(Mul(Xor(Xor(h, Mul(b, e)), Mul(f, t)), beta), Xor(x, Mul(f, g)))
         == Xor(Xor(Xor(Mul(h, beta), x), Mul(b, Mul(e, beta))), Mul(f, Xor(Mul(t, beta), g)))
  {
    hide *;
    calc {
      Xor(Mul(Xor(Xor(h, Mul(b, e)), Mul(f, t)), beta), Xor(x, Mul(f, g)));
      { MulLeftXor(Xor(h, Mul(b, e)), Mul(f, t), beta); MulLeftXor(h, Mul(b, e), beta); }
      Xor(Xor(Xor(Mul(h, beta), Mul(Mul(b, e), beta)), Mul(Mul(f, t), beta)), Xor(x, Mul(f, g)));
      { MulAssoc(b, e, beta); MulAssoc(f, t, beta); }
      Xor(Xor(Xor(Mul(h, beta), Mul(b, Mul(e, beta))), Mul(f, Mul(t, beta))), Xor(x, Mul(f, g)));
      { XorSwap(Xor(Mul(h, beta), Mul(b, Mul(e, beta))), Mul(f, Mul(t, beta)), x, Mul(f, g)); }
      Xor(Xor(Xor(Mul(h, beta), Mul(b, Mul(e, beta))), x), Xor(Mul(f, Mul(t, beta)), Mul(f, g)));
      { MulRightXor(f, Mul(t, beta), g); }
      Xor(Xor(Xor(Mul(h, beta), Mul(b, Mul(e, beta))), x), Mul(f, Xor(Mul(t, beta), g)));
      { XorAssoc(Mul(h, beta), Mul(b, Mul(e, beta)), x); XorLaws(Mul(b, Mul(e, beta)), x); XorAssoc(Mul(h, beta), x, Mul(b, Mul(e, beta))); }
      Xor(Xor(Xor(Mul(h, beta), x), Mul(b, Mul(e, beta))), Mul(f, Xor(Mul(t, beta), g)));
    }
  }

  // One step of the register keeps it the remainder of the message so far: at a
  // root, the register is the message times beta^32.
  lemma ParityStep(msg: seq<bv8>, m: bv8, bb: seq<bv8>, r: nat)
    requires |bb| == 32 && 112 <= r < 144
    requires Mul(Horner(msg, Pow(11 * r)), Exp(Pow(11 * r), 32)) == Horner(bb, Pow(11 * r))
    ensures Mul(Horner(msg + [m], Pow(11 * r)), Exp(Pow(11 * r), 32))
         == Horner(NextParity(bb, Xor(m, bb[0])), Pow(11 * r))
  {
    hide Xor, Mul, Pow, Poly, Tap, Exp, Taps;
    var beta, f := Pow(11 * r), Xor(m, bb[0]);
    var nb := NextParity(bb, f);
    var e, e1 := Exp(beta, 32), Exp(beta, 31);
    var h := Horner(bb, beta);
    ShiftedRegister(bb, f, beta, 31);
    assert bb[..32] == bb && nb[..32] == nb;
    TapIsProduct(f, 0);
    TapsMore(beta);
    TapsAtRoot(r);
    ExpMore(beta, 31);
    RegisterStep(h, bb[0], e1, f, Taps(beta, 31), beta, 0, Pow(Poly(0)));
    XorLaws(Mul(f, Pow(Poly(0))), 0);
    XorLaws(Mul(h, beta), 0);
    assert Horner(nb, beta) == Xor(Xor(Mul(h, beta), Mul(bb[0], e)), Mul(f, e));
    assert (msg + [m])[..|msg|] == msg;
    calc {
      Mul(Horner(msg + [m], beta), e);
      Mul(Xor(Mul(Horner(msg, beta), beta), m), e);
      { MulLeftXor(Mul(Horner(msg, beta), beta), m, e); }
      Xor(Mul(Mul(Horner(msg, beta), beta), e), Mul(m, e));
      { MulAssoc(Horner(msg, beta), beta, e); MulComm(beta, e); MulAssoc(Horner(msg, beta), e, beta); }
      Xor(Mul(h, beta), Mul(m, e));
      { XorLaws(m, bb[0]); XorLaws(bb[0], f); XorAssoc(bb[0], bb[0], m); XorLaws(bb[0], bb[0]); XorLaws(0, m); MulLeftXor(bb[0], f, e); }
      Xor(Mul(h, beta), Xor(Mul(bb[0], e), Mul(f, e)));
      { XorAssoc(Mul(h, beta), Mul(bb[0], e), Mul(f, e)); }
      Xor(Xor(Mul(h, beta), Mul(bb[0], e)), Mul(f, e));
    }
  }

  lemma TapsMore(beta: bv8)
    ensures Taps(beta, 32) == Xor(Mul(Taps(beta, 31), beta), Pow(Poly(0)))
  {
    hide Xor, Mul, Pow, Poly;
  }

  lemma {:induction false} HornerConcat(a: seq<bv8>, b: seq<bv8>, beta: bv8)
    ensures Horner(a + b, beta) == Xor(Mul(Horner(a, beta), Exp(beta, |b|)), Horner(b, beta))
    decreases |b|
  {
    hide Xor, Mul, Exp;
    if |b| == 0 {
      assert a + b == a;
      ExpNothing(beta);
      MulOne(Horner(a, beta));
      XorLaws(Horner(a, beta), 0);
    } else {
      var m := |b| - 1;
      HornerConcat(a, b[..m], beta);
      assert (a + b)[..|a| + m] == a + b[..m];
      ExpMore(beta, m);
      var h, e := Horner(a, beta), Exp(beta, m);
      MulLeftXor(Mul(h, e), Horner(b[..m], beta), beta);
      MulAssoc(h, e, beta);
      XorAssoc(Mul(h, Mul(e, beta)), Mul(Horner(b[..m], beta), beta), b[m]);
    }
  }

  // The remainder property of the register, at all 32 roots.
  ghost predicate Remainder(msg: seq<bv8>, bb: seq<bv8>)
  {
    forall r: nat :: 112 <= r < 144 ==> Mul(Horner(msg, Pow(11 * r)), Exp(Pow(11 * r), 32)) == Horner(bb, Pow(11 * r))
  }

  lemma RemainderStep(msg: seq<bv8>, m: bv8, bb: seq<bv8>)
    requires |bb| == 32 && Remainder(msg, bb)
    ensures Remainder(msg + [m], NextParity(bb, Xor(m, bb[0])))
  {
    hide Xor, Mul, Pow, Horner, Exp, NextParity;
    forall r: nat | 112 <= r < 144
      ensures Mul(Horner(msg + [m], Pow(11 * r)), Exp(Pow(11 * r), 32))
           == Horner(NextParity(bb, Xor(m, bb[0])), Pow(11 * r))
    {
      ParityStep(msg, m, bb, r);
    }
  }

  lemma RemainderGivesCodeword(msg: seq<bv8>, bb: seq<bv8>)
    requires |bb| == 32 && Remainder(msg, bb)
    ensures IsCodeword(msg + bb)
  {
    hide Xor, Mul, Pow, Horner, Exp;
    forall i | 0 <= i < 32
      ensures Syndrome(msg + bb, i) == 0
    {
      var r: nat := 112 + i;
      HornerConcat(msg, bb, Pow(11 * r));
      XorLaws(Horner(bb, Pow(11 * r)), 0);
      XorZero(Horner(bb, Pow(11 * r)), Horner(bb, Pow(11 * r)));
    }
  }

  lemma {:induction false} HornerZeros(w: seq<bv8>, beta: bv8)
    requires forall j :: 0 <= j < |w| ==> w[j] == 0
    ensures Horner(w, beta) == 0
  {
    hide Xor, Mul;
    if |w| > 0 {
      HornerZeros(w[..|w| - 1], beta);
      MulZero(beta);
      XorLaws(0, 0);
    }
  }

  lemma RemainderOfNothing(bb: seq<bv8>)
    requires forall j :: 0 <= j < |bb| ==> bb[j] == 0
    ensures Remainder([], bb)
  {
    hide Xor, Mul, Pow, Exp;
    forall r: nat | 112 <= r < 144
      ensures Mul(Horner([], Pow(11 * r)), Exp(Pow(11 * r), 32)) == Horner(bb, Pow(11 * r))
    {
      HornerZeros(bb, Pow(11 * r));
      MulZero(Exp(Pow(11 * r), 32));
    }
  }

  method EccEncode(data: array<bv8>, pad: nat)
    requires pad <= 223 && data.Length == 255 - pad
    modifies data
    ensures data[..223 - pad] == old(data[..223 - pad])
    ensures IsCodeword(data[..])
  {
    hide Alpha, Idx, Xor, Poly, Remainder, IsCodeword, Tap;
    var k := 223 - pad;
    ghost var message := data[..k];
    for j := 0 to 32
      invariant data[..k] == message
      invariant forall q :: k <= q < k + j ==> data[q] == 0
    {
      data[k + j] := 0;
    }
    RemainderOfNothing(data[k..]);
    assert message[..0] == [];
    for i := 0 to k
      invariant data[..k] == message
      invariant Remainder(message[..i], data[k..])
    {
      assert data[i] == message[i];
      ghost var bb := data[k..];
      FeedByte(data, k, data[i]);
      RemainderStep(message[..i], message[i], bb);
      assert message[..i] + [message[i]] == message[..i + 1];
    }
    RemainderGivesCodeword(message[..k], data[k..]);
    assert message[..k] + data[k..] == data[..];
  }

  function Fed(bb: seq<bv8>, f: bv8, l: int): bv8
    requires |bb| == 32 && 1 <= l < 32
  {
    Xor(bb[l], Tap(f, 32 - l))
  }

  // One round of the encoder's loop, on the 32 bytes from k on.
  method FeedByte(data: array<bv8>, k: nat, m: bv8)
    requires data.Length == k + 32
    modifies data
    ensures data[..k] == old(data[..k])
    ensures data[k..] == NextParity(old(data[k..]), Xor(m, old(data[k])))
  {
    hide Alpha, Idx, Xor, Poly;
    ghost var bb := data[k..];
    ghost var message := data[..k];
    var f := Xor(m, data[k]);
    AlphaOfIdx(f);
    var feedback := Idx(f);
    if feedback != 255 {
      for j := 1 to 32
        invariant data[..k] == message && data[k] == bb[0]
        invariant forall q :: k < q < k + j ==> data[q] == Fed(bb, f, q - k)
        invariant forall q :: k + j <= q < k + 32 ==> data[q] == bb[q - k]
      {
        data[k + j] := Xor(data[k + j], Alpha((feedback + Poly(32 - j)) % 255));
      }
    }
    forall q | k < q < k + 32
      ensures data[q] == Fed(bb, f, q - k)
    {
      XorLaws(bb[q - k], 0);
    }
    for j := 0 to 31
      invariant data[..k] == message
      invariant forall q :: k <= q < k + j ==> data[q] == Fed(bb, f, q - k + 1)
      invariant forall q :: k < q < k + 32 && k + j <= q ==> data[q] == Fed(bb, f, q - k)
    {
      data[k + j] := data[k + j + 1];
    }
    data[k + 31] := if feedback != 255 then Alpha((feedback + Poly(0)) % 255) else 0;
    forall j | 0 <= j < 32
      ensures data[k..][j] == NextParity(bb, f)[j]
    {
      assert data[k..][j] == data[k + j];
    }
  }
}
