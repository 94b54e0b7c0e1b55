// The pseudo-random bit sequence of prbs_generator.py, stored for one period and read from any
// position, and the accounting of packets made from it in prbs_sink_pdu.py.
module Prbs {
  import opened Huffman

  // ----- the shift register -------------------------------------------------------------

  // A register and its two feedback taps.
  datatype Taps = Taps(a: nat, b: nat)

  predicate Fitting(reg: seq<bool>, t: Taps) {
    t.a < |reg| && t.b < |reg|
  }

  function Feedback(reg: seq<bool>, t: Taps): bool
    requires Fitting(reg, t)
  {
    reg[t.a] != reg[t.b]
  }

  function Shifted(reg: seq<bool>, t: Taps): (r: seq<bool>)
    requires Fitting(reg, t)
    ensures |r| == |reg|
  {
    [Feedback(reg, t)] + reg[..|reg| - 1]
  }

  function RegAfter(reg: seq<bool>, t: Taps, n: nat): (r: seq<bool>)
    requires Fitting(reg, t)
    ensures |r| == |reg|
  {
    if n == 0 then reg else Shifted(RegAfter(reg, t, n - 1), t)
  }

  // The first n bits.
  function Output(reg: seq<bool>, t: Taps, n: nat): (o: seq<bool>)
    requires Fitting(reg, t)
    ensures |o| == n
  {
    if n == 0 then [] else Output(reg, t, n - 1) + [Feedback(RegAfter(reg, t, n - 1), t)]
  }

  lemma {:induction false} OutputPrefix(reg: seq<bool>, t: Taps, n: nat, m: nat)
    requires Fitting(reg, t) && n <= m
    ensures Output(reg, t, m)[..n] == Output(reg, t, n)
    decreases m
  {
    if n == m {
      assert Output(reg, t, m)[..n] == Output(reg, t, m);
    } else {
      OutputPrefix(reg, t, n, m - 1);
      assert Output(reg, t, m)[..n] == Output(reg, t, m - 1)[..n];
    }
  }

  lemma NextBit(reg: seq<bool>, t: Taps, k: nat, m: nat)
    requires Fitting(reg, t) && k < m
    ensures Output(reg, t, m)[k] == Feedback(RegAfter(reg, t, k), t)
  {
    OutputPrefix(reg, t, k + 1, m);
    assert Output(reg, t, m)[k] == Output(reg, t, m)[..k + 1][k];
  }

  // The register holds the latest bits, newest first, and behind them what is left of the seed.
  lemma {:induction false} RegisterHolds(reg: seq<bool>, t: Taps, k: nat, m: nat, j: nat)
    requires Fitting(reg, t) && k <= m && j < |reg|
    ensures RegAfter(reg, t, k)[j] == if j < k then Output(reg, t, m)[k - 1 - j] else reg[j - k]
    decreases k
  {
    hide Feedback;
    if k > 0 {
      if j == 0 {
        NextBit(reg, t, k - 1, m);
      } else {
        RegisterHolds(reg, t, k - 1, m, j - 1);
      }
    }
  }

  // The bit at a place in the sequence; before its start comes the seed.
  function SequenceAt(reg: seq<bool>, o: seq<bool>, i: int): bool
    requires -|reg| <= i < |o|
  {
    if i >= 0 then o[i] else reg[-1 - i]
  }

  // Each bit is the sum of two earlier ones; their distances are the taps plus one.
  lemma Recurrence(reg: seq<bool>, t: Taps, m: nat, k: nat)
    requires Fitting(reg, t) && k < m
    ensures var o := Output(reg, t, m);
      o[k] == (SequenceAt(reg, o, k - 1 - t.a) != SequenceAt(reg, o, k - 1 - t.b))
  {
    NextBit(reg, t, k, m);
    RegisterHolds(reg, t, k, m, t.a);
    RegisterHolds(reg, t, k, m, t.b);
  }

  // ----- the periodic stream ------------------------------------------------------------

  function Mod(x: nat, p: nat): (r: nat)
    requires p > 0
    ensures r < p
  {
    x % p
  }

  lemma ModSmall(x: nat, p: nat)
    requires x < p
    ensures Mod(x, p) == x
  {
    Small(x, p);
  }

  lemma ModPeriod(x: nat, p: nat)
    requires p > 0
    ensures Mod(x + p, p) == Mod(x, p)
  {
    var q, r := x / p, x % p;
    assert x + p == p * (q + 1) + r;
    RemainderIs(x + p, p, q + 1, r);
  }

  lemma RemainderIs(x: nat, p: nat, q: nat, r: nat)
    requires x == p * q + r && r < p
    ensures Mod(x, p) == r
  {
    QuotientIs(x, p, q, r);
  }

  lemma {:induction false} ModMultiple(y: nat, q: nat, p: nat)
    requires p > 0
    ensures Mod(y + q * p, p) == Mod(y, p)
    decreases q
  {
    hide Mod;
    if q > 0 {
      ModMultiple(y, q - 1, p);
      assert y + q * p == y + (q - 1) * p + p;
      ModPeriod(y + (q - 1) * p, p);
    }
  }

  lemma ModAdd(x: nat, i: nat, p: nat)
    requires p > 0
    ensures Mod(x + i, p) == Mod(Mod(x, p) + i, p)
  {
    var q := x / p;
    var y := Mod(x, p) + i;
    assert x + i == y + q * p;
    hide Mod;
    ModMultiple(y, q, p);
  }

  // n bits of the stream that repeats pre, from position x on.
  function Slice(pre: seq<bool>, x: nat, n: nat): (o: seq<bool>)
    requires |pre| > 0
    ensures |o| == n && forall i :: 0 <= i < n ==> o[i] == pre[Mod(x + i, |pre|)]
  {
    seq(n, i requires 0 <= i < n => pre[Mod(x + i, |pre|)])
  }

  lemma SliceSplit(pre: seq<bool>, x: nat, n: nat, m: nat)
    requires |pre| > 0
    ensures Slice(pre, x, n) + Slice(pre, x + n, m) == Slice(pre, x, n + m)
  {
    hide Mod;
    var o := Slice(pre, x, n) + Slice(pre, x + n, m);
    forall i | 0 <= i < n + m
      ensures o[i] == pre[Mod(x + i, |pre|)]
    {
      if i >= n {
        assert x + i == x + n + (i - n);
      }
    }
  }

  // Only the position within the period matters.
  lemma SliceModulo(pre: seq<bool>, x: nat, n: nat)
    requires |pre| > 0
    ensures Slice(pre, Mod(x, |pre|), n) == Slice(pre, x, n)
  {
    hide Mod;
    forall i | 0 <= i < n
      ensures Slice(pre, Mod(x, |pre|), n)[i] == Slice(pre, x, n)[i]
    {
      ModAdd(x, i, |pre|);
    }
  }

  // Within one period the stream is read straight from the store.
  lemma SliceStored(pre: seq<bool>, x: nat, n: nat)
    requires |pre| > 0 && x + n <= |pre|
    ensures Slice(pre, x, n) == pre[x..x + n]
  {
    hide Mod;
    forall i | 0 <= i < n
      ensures Slice(pre, x, n)[i] == pre[x + i]
    {
      ModSmall(x + i, |pre|);
    }
  }

  // A stretch of the stream within one period, and where it ends.
  lemma Stretch(pre: seq<bool>, x: nat, n: nat)
    requires |pre| > 0 && Mod(x, |pre|) + n <= |pre|
    ensures var i := Mod(x, |pre|);
      pre[i..i + n] == Slice(pre, x, n) && Mod(x + n, |pre|) == if i + n == |pre| then 0 else i + n
  {
    hide Mod;
    var p := |pre|;
    var i := Mod(x, p);
    SliceStored(pre, i, n);
    SliceModulo(pre, x, n);
    ModAdd(x, n, p);
    if i + n == p {
      ModPeriod(0, p);
      ModSmall(0, p);
    } else {
      ModSmall(i + n, p);
    }
  }

  lemma EmptySlice(pre: seq<bool>, x: nat)
    requires |pre| > 0
    ensures Slice(pre, x, 0) == []
  {}

  // ----- the generator ------------------------------------------------------------------

  class Generator {
    const taps: Taps
    const initReg: seq<bool>
    const resetLen: nat
    var reg: seq<bool>
    var idx: nat
    var pre: seq<bool>

    ghost predicate Ready()
      reads this
    {
      Fitting(initReg, taps) && resetLen >= 1 && idx < resetLen
    }

    // The bits of one period.
    ghost function Period(): (p: seq<bool>)
      requires Fitting(initReg, taps)
      ensures |p| == resetLen
    {
      Output(initReg, taps, resetLen)
    }

    ghost predicate Valid()
      reads this
    {
      Ready() && pre == Period()
    }

    // degree is the greatest tap; the seed has a zero in every fourth place.
    constructor (tap: nat, degree: nat, period: nat)
      requires tap <= degree && period >= 1
      ensures Valid() && idx == 0 && resetLen == period && taps == Taps(tap, degree)
      ensures |initReg| == degree + 1 && forall i :: 0 <= i < |initReg| ==> initReg[i] == (i % 4 != 0)
    {
      taps, resetLen := Taps(tap, degree), period;
      var seed := seq(degree + 1, i => i % 4 != 0);
      initReg, reg, idx, pre := seed, seed, 0, [];
      new;
      NoSteps();
      var bits := GenerateNBits(period, false);
      SliceStored(Period(), 0, period);
      ModPeriod(0, period);
      ModSmall(0, period);
      pre := bits;
    }

    // Runs the register for n steps.
    method GenerateAndStore(n: nat) returns (o: seq<bool>)
      requires Ready() && reg == RegAfter(initReg, taps, idx) && idx + n <= resetLen
      modifies this`reg
      ensures reg == RegAfter(initReg, taps, idx + n) && o == Period()[idx..idx + n]
    {
      hide Shifted, Feedback;
      o := [];
      for i := 0 to n
        invariant reg == RegAfter(initReg, taps, idx + i) && o == Period()[idx..idx + i]
      {
        NextBit(initReg, taps, idx + i, resetLen);
        var nv := Feedback(reg, taps);
        reg := Shifted(reg, taps);
        o := o + [nv];
      }
    }

    // The next n bits, from the store or from the register, wrapping round at the period's end.
    method GenerateNBits(n: nat, lookup: bool) returns (o: seq<bool>)
      requires Ready() && if lookup then pre == Period() else reg == RegAfter(initReg, taps, idx)
      modifies this`reg, this`idx
      ensures Ready() && (!lookup ==> reg == RegAfter(initReg, taps, idx))
      ensures o == Slice(Period(), old(idx), n) && idx == Mod(old(idx) + n, resetLen)
    {
      hide Output, RegAfter, Mod, Slice;
      o := [];
      ghost var period, start := Period(), idx;
      var left := n;
      ModSmall(idx, resetLen);
      EmptySlice(period, start);
      while left > 0
        invariant Ready() && 0 <= left <= n && (!lookup ==> reg == RegAfter(initReg, taps, idx))
        invariant o == Slice(period, start, n - left) && idx == Mod(start + (n - left), resetLen)
        decreases left
      {
        var nout := if left < resetLen - idx then left else resetLen - idx;
        Stretch(period, start + (n - left), nout);
        SliceSplit(period, start, n - left, nout);
        var part;
        if lookup {
          part := pre[idx..idx + nout];
        } else {
          part := GenerateAndStore(nout);
        }
        o := o + part;
        idx := idx + nout;
        left := left - nout;
        if idx == resetLen {
          reg := initReg;
          idx := 0;
          NoSteps();
        }
      }
    }

    lemma NoSteps()
      requires Fitting(initReg, taps)
      ensures RegAfter(initReg, taps, 0) == initReg
    {}

    // n bits from position x of the stream.
    method GenerateNBitsAfterX(n: nat, x: nat) returns (o: seq<bool>)
      requires Valid()
      ensures o == Slice(Period(), x, n)
    {
      hide Output, Mod, Slice;
      o := [];
      ghost var period := Period();
      var i := x % resetLen;
      assert i == Mod(x, resetLen) by { ModIs(x); }
      var left := n;
      EmptySlice(period, x);
      while left > 0
        invariant 0 <= left <= n && i < resetLen && i == Mod(x + (n - left), resetLen)
        invariant o == Slice(period, x, n - left)
        decreases left
      {
        var nout := if left < resetLen - i then left else resetLen - i;
        Stretch(period, x + (n - left), nout);
        SliceSplit(period, x, n - left, nout);
        var end := if i + left < resetLen then i + left else resetLen;
        o := o + pre[i..end];
        i := i + nout;
        left := left - nout;
        if i == resetLen {
          i := 0;
        }
      }
    }

    lemma ModIs(x: nat)
      requires resetLen > 0
      ensures x % resetLen == Mod(x, resetLen)
    {}
  }
}
