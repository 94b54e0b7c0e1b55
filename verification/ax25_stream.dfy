/** What the encoder sends is what the decoder publishes: for any list of messages,
    the concatenated symbols of their frames make the receiver publish exactly these
    messages, in order, and nothing else. */
module Ax25Stream {
  import opened Ax25Fcs
  import opened Ax25Frame
  import opened Ax25Encoder
  import opened Ax25Decoder

  function AsByte(b: bool): bv8
  {
    if b then 1 else 0
  }

  function AsBytes(s: seq<bool>): (r: seq<bv8>)
    ensures |r| == |s|
  {
    seq(|s|, i requires 0 <= i < |s| => AsByte(s[i]))
  }

  // The receiver on the NRZI symbols of bits.
  function RunBits(c: Config, s: State, level: bool, bits: seq<bool>): (State, seq<Publication>)
  {
    Run(c, s, AsBytes(Nrzi(level, bits)))
  }

  predicate OnLine(s: State, level: bool)
  {
    s.prevBit == AsByte(level)
  }

  function Next(level: bool, b: bool): bool
  {
    if b then level else !level
  }

  lemma RunBitsConcat(c: Config, s: State, level: bool, a: seq<bool>, b: seq<bool>)
    ensures RunBits(c, s, level, a + b)
         == (RunBits(c, RunBits(c, s, level, a).0, Level(level, a), b).0,
             RunBits(c, s, level, a).1 + RunBits(c, RunBits(c, s, level, a).0, Level(level, a), b).1)
  {
    hide Run, Nrzi;
    NrziConcat(level, a, b);
    assert AsBytes(Nrzi(level, a) + Nrzi(Level(level, a), b)) == AsBytes(Nrzi(level, a)) + AsBytes(Nrzi(Level(level, a), b));
    RunConcat(c, s, AsBytes(Nrzi(level, a)), AsBytes(Nrzi(Level(level, a), b)));
  }

  lemma RunBitsNothing(c: Config, s: State, level: bool)
    ensures RunBits(c, s, level, []) == (s, []) && Level(level, []) == level
  {
    assert AsBytes(Nrzi(level, [])) == [];
  }

  // One bit: the decoded bit is the one that was sent.
  function Shifted(s: State, level: bool, b: bool): State
  {
    s.(shiftReg := ShiftTop(s.shiftReg, AsByte(b)), decB := ShiftTop(s.decB, AsByte(b)), prevBit := AsByte(Next(level, b)))
  }

  lemma DecodedBit(s: State, level: bool, b: bool)
    requires OnLine(s, level)
    ensures Decode1b(s, AsByte(Next(level, b))) == Shifted(s, level, b)
  {
    hide ShiftTop;
  }

  lemma RunBitsFirst(c: Config, s: State, level: bool, bits: seq<bool>)
    requires |bits| > 0
    ensures RunBits(c, s, level, bits)
         == (RunBits(c, Step(c, s, AsByte(Next(level, bits[0]))).0, Next(level, bits[0]), bits[1..]).0,
             Step(c, s, AsByte(Next(level, bits[0]))).1
               + RunBits(c, Step(c, s, AsByte(Next(level, bits[0]))).0, Next(level, bits[0]), bits[1..]).1)
    ensures Level(level, bits) == Level(Next(level, bits[0]), bits[1..])
  {
    hide Step;
    NrziFirst(level, bits);
    var next := Next(level, bits[0]);
    assert AsBytes(Nrzi(level, bits))[1..] == AsBytes(Nrzi(next, bits[1..]));
  }

  // One bit that publishes nothing.
  lemma QuietBit(c: Config, s: State, level: bool, bits: seq<bool>, s1: State)
    requires |bits| > 0 && Step(c, s, AsByte(Next(level, bits[0]))) == (s1, [])
    ensures RunBits(c, s, level, bits) == RunBits(c, s1, Next(level, bits[0]), bits[1..])
    ensures Level(level, bits) == Level(Next(level, bits[0]), bits[1..])
  {
    hide Step, Run;
    RunBitsFirst(c, s, level, bits);
    var p := RunBits(c, s1, Next(level, bits[0]), bits[1..]).1;
    assert [] + p == p;
  }

  // ----- registers --------------------------------------------------------------------

  // The m bits shifted in last, oldest first.
  function Tail(reg: bv8, m: nat): (r: seq<bool>)
    requires m <= 8
    ensures |r| == m
  {
    ByteBits(reg)[8 - m..]
  }

  lemma ShiftTopMasks(reg: bv8, b: bool)
    ensures var r := ShiftTop(reg, AsByte(b));
      (r & 1 != 0 <==> reg & 2 != 0) && (r & 2 != 0 <==> reg & 4 != 0) && (r & 4 != 0 <==> reg & 8 != 0) &&
      (r & 8 != 0 <==> reg & 16 != 0) && (r & 16 != 0 <==> reg & 32 != 0) && (r & 32 != 0 <==> reg & 64 != 0) &&
      (r & 64 != 0 <==> reg & 128 != 0) && (r & 128 != 0 <==> b)
  {}

  lemma ShiftTopBits(reg: bv8, b: bool)
    ensures ByteBits(ShiftTop(reg, AsByte(b))) == ByteBits(reg)[1..] + [b]
  {
    hide ShiftTop;
    ShiftTopMasks(reg, b);
  }

  lemma DropBitMasks(reg: bv8)
    ensures var r := DropBit(reg);
      r & 1 == 0 && (r & 2 != 0 <==> reg & 1 != 0) && (r & 4 != 0 <==> reg & 2 != 0) && (r & 8 != 0 <==> reg & 4 != 0) &&
      (r & 16 != 0 <==> reg & 8 != 0) && (r & 32 != 0 <==> reg & 16 != 0) && (r & 64 != 0 <==> reg & 32 != 0) &&
      (r & 128 != 0 <==> reg & 64 != 0)
  {}

  lemma DropBitBits(reg: bv8)
    ensures ByteBits(DropBit(reg)) == [false] + ByteBits(reg)[..7]
  {
    hide DropBit;
    DropBitMasks(reg);
    var q := ByteBits(reg);
    SevenOf(q);
    assert ByteBits(DropBit(reg)) == [false, q[0], q[1], q[2], q[3], q[4], q[5], q[6]];
  }

  lemma SevenOf(q: seq<bool>)
    requires |q| == 8
    ensures [false] + q[..7] == [false, q[0], q[1], q[2], q[3], q[4], q[5], q[6]]
  {}

  lemma TailShift(reg: bv8, b: bool, m: nat)
    requires m <= 7
    ensures Tail(ShiftTop(reg, AsByte(b)), m + 1) == Tail(reg, m) + [b]
    ensures Tail(DropBit(ShiftTop(reg, AsByte(b))), m) == Tail(reg, m)
  {
    hide ByteBits, ShiftTop, DropBit;
    ShiftTopBits(reg, b);
    DropBitBits(ShiftTop(reg, AsByte(b)));
  }

  lemma ByteBitsInjective(a: bv8, b: bv8)
    requires ByteBits(a) == ByteBits(b)
    ensures a == b
  {
    var q, r := ByteBits(a), ByteBits(b);
    assert q[0] == r[0] && q[1] == r[1] && q[2] == r[2] && q[3] == r[3];
    assert q[4] == r[4] && q[5] == r[5] && q[6] == r[6] && q[7] == r[7];
  }

  lemma {:induction false} BitsInjective(a: seq<bv8>, b: seq<bv8>)
    requires Bits(a) == Bits(b)
    ensures a == b
    decreases |a|
  {
    hide ByteBits;
    if |a| > 0 {
      assert |Bits(a)| == |Bits(b)|;
      assert ByteBits(a[0]) == Bits(a)[..8] && ByteBits(b[0]) == Bits(b)[..8];
      ByteBitsInjective(a[0], b[0]);
      assert Bits(a[1..]) == Bits(a)[8..] && Bits(b[1..]) == Bits(b)[8..];
      BitsInjective(a[1..], b[1..]);
    }
  }

  // The top of the register is k ones above a zero.
  predicate TopOnes(reg: bv8, k: nat)
  {
    (k == 0 && reg & 0x80 == 0) || (k == 1 && reg & 0xC0 == 0x80) || (k == 2 && reg & 0xE0 == 0xC0) ||
    (k == 3 && reg & 0xF0 == 0xE0) || (k == 4 && reg & 0xF8 == 0xF0) || (k == 5 && reg & 0xFC == 0xF8) ||
    (k == 6 && reg & 0xFE == 0xFC)
  }

  lemma TopOneMore(reg: bv8, k: nat)
    requires k <= 5 && TopOnes(reg, k)
    ensures var r := ShiftTop(reg, 1); TopOnes(r, k + 1) && r != SYNC_FLAG && !IsStuffed(r) && !SevenOnes(r)
  {}

  lemma TopZero(reg: bv8, k: nat)
    requires k <= 5 && TopOnes(reg, k)
    ensures var r := ShiftTop(reg, 0); TopOnes(r, 0) && r != SYNC_FLAG && (IsStuffed(r) <==> k == 5) && !SevenOnes(r)
  {}

  // ----- the body of a frame --------------------------------------------------------------

  // The bits on air when k ones have been sent and bits are still to come; after five
  // ones the stuffed zero is due.
  function Raw(k: nat, bits: seq<bool>): seq<bool>
    requires k <= 5
    decreases |bits|, k
  {
    if k == 5 then [false] + Raw(0, bits)
    else if |bits| == 0 then []
    else [bits[0]] + Raw(if bits[0] then k + 1 else 0, bits[1..])
  }

  lemma {:induction false} RawIsStuff(k: nat, bits: seq<bool>)
    requires k <= 4
    ensures Raw(k, bits) == Stuff(k, bits)
    decreases |bits|
  {
    if |bits| > 0 {
      if !bits[0] || k < 4 {
        RawIsStuff(if bits[0] then k + 1 else 0, bits[1..]);
      } else {
        RawIsStuff(0, bits[1..]);
        assert Raw(5, bits[1..]) == [false] + Raw(0, bits[1..]);
      }
    }
  }

  // The bits of the frame that the receiver holds.
  function Received(s: State): seq<bool>
    requires s.bits < 8
  {
    Bits(s.frame) + Tail(s.decB, s.bits)
  }

  // A frame the receiver takes: every byte passes check_byte, and it fits.
  predicate Acceptable(c: Config, bytes: seq<bv8>)
  {
    |bytes| < c.maxFrameLen && forall i :: 0 <= i < |bytes| ==> ByteAllowed(bytes[i], i)
  }

  // In the middle of the body: what has been received and what is to come make up
  // the frame.
  predicate InBody(c: Config, s: State, level: bool, k: nat, bits: seq<bool>, bytes: seq<bv8>)
  {
    s.phase == Decoding && OnLine(s, level) && s.bits < 8 && k <= 5 && TopOnes(s.shiftReg, k) &&
    Received(s) + bits == Bits(bytes)
  }

  // The state after one bit on air.
  function BodyStep(s: State, level: bool, b: bool, stuffed: bool): State
  {
    var t := Shifted(s, level, b);
    if stuffed then t.(decB := DropBit(t.decB))
    else if t.bits + 1 == 8 then t.(bits := 0, frame := t.frame + [t.decB])
    else t.(bits := t.bits + 1)
  }

  lemma {:induction false} BitsPrefix(frame: seq<bv8>, d: bv8, rest: seq<bool>, bytes: seq<bv8>)
    requires Bits(frame) + ByteBits(d) + rest == Bits(bytes)
    ensures |frame| < |bytes| && d == bytes[|frame|]
    decreases |frame|
  {
    hide ByteBits;
    assert |bytes| > 0;
    assert ByteBits(bytes[0]) == Bits(bytes)[..8];
    if |frame| == 0 {
      assert Bits(frame) == [];
      assert (Bits(frame) + ByteBits(d) + rest)[..8] == ByteBits(d);
      ByteBitsInjective(d, bytes[0]);
    } else {
      assert Bits(frame) == ByteBits(frame[0]) + Bits(frame[1..]);
      assert Bits(bytes[1..]) == Bits(bytes)[8..];
      assert (Bits(frame) + ByteBits(d) + rest)[8..] == Bits(frame[1..]) + ByteBits(d) + rest;
      BitsPrefix(frame[1..], d, rest, bytes[1..]);
    }
  }

  lemma StuffedStep(c: Config, s: State, level: bool, bits: seq<bool>, bytes: seq<bv8>)
    requires InBody(c, s, level, 5, bits, bytes)
    ensures Step(c, s, AsByte(Next(level, false))) == (BodyStep(s, level, false, true), [])
    ensures InBody(c, BodyStep(s, level, false, true), !level, 0, bits, bytes)
  {
    hide ShiftTop, IsStuffed, SevenOnes, DropBit, TopOnes, Tail, Bits, DataBit;
    DecodedBit(s, level, false);
    TopZero(s.shiftReg, 5);
    TailShift(s.decB, false, s.bits);
  }

  lemma DataStep(c: Config, s: State, level: bool, k: nat, bits: seq<bool>, bytes: seq<bv8>)
    requires k <= 4 && InBody(c, s, level, k, bits, bytes) && |bits| > 0
    requires s.bits == 7 && |s.frame| < |bytes| ==> ByteAllowed(bytes[|s.frame|], |s.frame|) && |s.frame| + 1 < c.maxFrameLen
    ensures Step(c, s, AsByte(Next(level, bits[0]))) == (BodyStep(s, level, bits[0], false), [])
    ensures InBody(c, BodyStep(s, level, bits[0], false), Next(level, bits[0]), if bits[0] then k + 1 else 0, bits[1..], bytes)
  {
    hide ShiftTop, IsStuffed, SevenOnes, DropBit, TopOnes, Tail, Bits, ByteBits, ByteAllowed;
    var b := bits[0];
    DecodedBit(s, level, b);
    if b { TopOneMore(s.shiftReg, k); } else { TopZero(s.shiftReg, k); }
    TailShift(s.decB, b, s.bits);
    var t := Shifted(s, level, b);
    assert Received(s) + bits == Bits(s.frame) + (Tail(s.decB, s.bits) + [b]) + bits[1..];
    if t.bits + 1 == 8 {
      WholeTail(t.decB);
      BitsMore(s.frame, t.decB);
      BitsPrefix(s.frame, t.decB, bits[1..], bytes);
      assert Bits(t.frame + [t.decB]) + Tail(t.decB, 0) == Bits(s.frame) + ByteBits(t.decB);
    }
  }

  lemma FrameInside(s: State, level: bool, k: nat, bits: seq<bool>, bytes: seq<bv8>, c: Config)
    requires InBody(c, s, level, k, bits, bytes) && Acceptable(c, bytes)
    ensures s.bits == 7 && |s.frame| < |bytes| ==> ByteAllowed(bytes[|s.frame|], |s.frame|) && |s.frame| + 1 < c.maxFrameLen
  {
    hide ByteAllowed, Received, TopOnes;
  }

  lemma WholeTail(d: bv8)
    ensures Tail(d, 8) == ByteBits(d) && Tail(d, 0) == []
  {}

  // The rest of the body, from anywhere inside it.
  lemma {:induction false} BodyRun(c: Config, s: State, level: bool, k: nat, bits: seq<bool>, bytes: seq<bv8>) returns (m: nat)
    requires InBody(c, s, level, k, bits, bytes) && Acceptable(c, bytes)
    ensures m <= 4
    ensures RunBits(c, s, level, Raw(k, bits)).1 == []
    ensures InBody(c, RunBits(c, s, level, Raw(k, bits)).0, Level(level, Raw(k, bits)), m, [], bytes)
    decreases |bits|, k
  {
    hide InBody, Acceptable, Step, RunBits, BodyStep, Level;
    InBodyBound(c, s, level, k, bits, bytes);
    var raw := Raw(k, bits);
    if k == 5 {
      StuffedStep(c, s, level, bits, bytes);
      QuietBit(c, s, level, raw, BodyStep(s, level, false, true));
      assert raw[1..] == Raw(0, bits);
      m := BodyRun(c, BodyStep(s, level, false, true), !level, 0, bits, bytes);
    } else if |bits| == 0 {
      m := k;
      RunBitsNothing(c, s, level);
    } else {
      FrameInside(s, level, k, bits, bytes, c);
      DataStep(c, s, level, k, bits, bytes);
      QuietBit(c, s, level, raw, BodyStep(s, level, bits[0], false));
      var k1 := if bits[0] then k + 1 else 0;
      assert raw[1..] == Raw(k1, bits[1..]);
      m := BodyRun(c, BodyStep(s, level, bits[0], false), Next(level, bits[0]), k1, bits[1..], bytes);
    }
  }

  lemma InBodyBound(c: Config, s: State, level: bool, k: nat, bits: seq<bool>, bytes: seq<bv8>)
    requires InBody(c, s, level, k, bits, bytes)
    ensures k <= 5 && s.phase == Decoding
  {}

  // At the end of the body the receiver holds the whole frame.
  lemma BodyDone(c: Config, s: State, level: bool, m: nat, bytes: seq<bv8>)
    requires InBody(c, s, level, m, [], bytes)
    ensures s.bits == 0 && s.frame == bytes && OnLine(s, level) && s.phase == Decoding && TopOnes(s.shiftReg, m)
  {
    hide Bits, TopOnes, Tail;
    assert Received(s) + [] == Received(s);
    assert 8 * |s.frame| + s.bits == 8 * |bytes|;
    assert Tail(s.decB, 0) == [];
    assert Received(s) == Bits(s.frame);
    BitsInjective(s.frame, bytes);
  }

  // ----- into the body: the first byte after the flags --------------------------------

  // The receiver as if it had been decoding from the first bit after the flags.
  function BodyStart(level: bool): State
  {
    State(Decoding, 0, 0, AsByte(level), 0, [])
  }

  // The state that replaying n bits leads to.
  predicate MatchesReplay(s: State, r: Replayed)
  {
    s.phase == Decoding && s.shiftReg == r.shiftReg && s.decB == r.decB &&
    (if r.bits < 8 then s.bits == r.bits && s.frame == [] else s.bits == 0 && s.frame == [r.decB])
  }

  // Where n bits on air lead in the body.
  function Position(k: nat, bits: seq<bool>, n: nat): (r: (nat, seq<bool>))
    requires k <= 5 && n <= |Raw(k, bits)|
    ensures r.0 <= 5 && Raw(r.0, r.1) == Raw(k, bits)[n..]
    decreases n
  {
    if n == 0 then (k, bits)
    else if k == 5 then
      assert Raw(k, bits)[1..] == Raw(0, bits);
      Position(0, bits, n - 1)
    else
      assert Raw(k, bits)[1..] == Raw(if bits[0] then k + 1 else 0, bits[1..]);
      Position(if bits[0] then k + 1 else 0, bits[1..], n - 1)
  }

  lemma {:induction false} PositionMore(k: nat, bits: seq<bool>, n: nat)
    requires k <= 5 && n < |Raw(k, bits)|
    ensures Position(k, bits, n + 1) == Position(Position(k, bits, n).0, Position(k, bits, n).1, 1)
    decreases n
  {
    if n > 0 {
      if k == 5 {
        assert Raw(k, bits)[1..] == Raw(0, bits);
        PositionMore(0, bits, n - 1);
      } else {
        assert Raw(k, bits)[1..] == Raw(if bits[0] then k + 1 else 0, bits[1..]);
        PositionMore(if bits[0] then k + 1 else 0, bits[1..], n - 1);
      }
    }
  }

  lemma ReplayStep(s: State, level: bool, b: bool, tmp: bv8, n: nat, stuffed: bool)
    requires n < 8 && ByteBits(tmp)[n] == b && MatchesReplay(s, Replay(tmp, n)) && Replay(tmp, n).bits <= n
    requires IsStuffed(ShiftTop(s.shiftReg, AsByte(b))) <==> stuffed
    ensures MatchesReplay(BodyStep(s, level, b, stuffed), Replay(tmp, n + 1))
  {
    hide ShiftTop, IsStuffed, DropBit, ByteBits, Replay;
    BitOfByte(tmp, n);
    ReplayUnfold(tmp, n);
    assert (tmp >> n) & 1 == AsByte(b);
  }

  lemma ReplayUnfold(tmp: bv8, n: nat)
    requires n < 8
    ensures Replay(tmp, n + 1) == ReplayBit(tmp, n, Replay(tmp, n))
  {
    hide ReplayBit;
  }

  // Decoding the first n bits and replaying them is the same.
  lemma {:induction false} ReplayIsDecoding(c: Config, level: bool, bytes: seq<bv8>, tmp: bv8, n: nat)
    requires FirstByteFits(c, bytes) && n <= 8 <= |Raw(0, Bits(bytes))|
    requires ByteBits(tmp) == Raw(0, Bits(bytes))[..8]
    ensures var raw, q := Raw(0, Bits(bytes))[..n], Position(0, Bits(bytes), n);
      var t := RunBits(c, BodyStart(level), level, raw);
      t.1 == [] && MatchesReplay(t.0, Replay(tmp, n)) && InBody(c, t.0, Level(level, raw), q.0, q.1, bytes)
  {
    hide FirstByteFits, Step, RunBits, BodyStep, Level, Raw, Bits, ByteBits, InBody, MatchesReplay, Replay, Position;
    var bits := Bits(bytes);
    var all := Raw(0, bits);
    if n == 0 {
      assert all[..0] == [];
      RunBitsNothing(c, BodyStart(level), level);
      StartOfBody(c, level, bytes, tmp);
    } else {
      ReplayIsDecoding(c, level, bytes, tmp, n - 1);
      var raw, b := all[..n - 1], all[n - 1];
      var s := RunBits(c, BodyStart(level), level, raw).0;
      var (k, rest) := Position(0, bits, n - 1);
      assert all[..n] == raw + [b];
      assert Raw(k, rest)[0] == b;
      OneMoreRaw(c, s, Level(level, raw), k, rest, bytes, tmp, n - 1);
      PositionMore(0, bits, n - 1);
      RunBitsConcat(c, BodyStart(level), level, raw, [b]);
      LevelMore(level, raw, b);
      var l := Level(level, raw);
      var stuffed := k == 5;
      QuietBit(c, s, l, [b], BodyStep(s, l, b, stuffed));
      assert [b][1..] == [];
      RunBitsNothing(c, BodyStep(s, l, b, stuffed), Next(l, b));
    }
  }

  lemma {:induction false} LevelMore(level: bool, a: seq<bool>, b: bool)
    ensures Level(level, a + [b]) == Next(Level(level, a), b)
    decreases |a|
  {
    if |a| == 0 {
      assert a + [b] == [b] && [b][1..] == [];
    } else {
      assert (a + [b])[1..] == a[1..] + [b];
      LevelMore(Next(level, a[0]), a[1..], b);
    }
  }

  lemma StartOfBody(c: Config, level: bool, bytes: seq<bv8>, tmp: bv8)
    ensures Position(0, Bits(bytes), 0) == (0, Bits(bytes))
    ensures InBody(c, BodyStart(level), level, 0, Bits(bytes), bytes)
    ensures MatchesReplay(BodyStart(level), Replay(tmp, 0))
  {
    hide Bits, ByteBits;
    assert TopOnes(0, 0);
    assert Bits([]) == [] by { NoBits(); }
    assert [] + Bits(bytes) == Bits(bytes);
    assert Received(BodyStart(level)) == [];
  }

  lemma NoBits()
    ensures Bits([]) == []
  {}

  // The next raw bit at position (k, rest) of the body, on both sides.
  lemma OneMoreRaw(c: Config, s: State, level: bool, k: nat, rest: seq<bool>, bytes: seq<bv8>, tmp: bv8, n: nat)
    requires InBody(c, s, level, k, rest, bytes) && FirstByteFits(c, bytes) && k <= 5 && |Raw(k, rest)| > 0
    requires n < 8 && MatchesReplay(s, Replay(tmp, n)) && ByteBits(tmp)[n] == Raw(k, rest)[0]
    ensures var b, stuffed, q := Raw(k, rest)[0], k == 5, Position(k, rest, 1);
      Step(c, s, AsByte(Next(level, b))) == (BodyStep(s, level, b, stuffed), []) &&
      MatchesReplay(BodyStep(s, level, b, stuffed), Replay(tmp, n + 1)) &&
      InBody(c, BodyStep(s, level, b, stuffed), Next(level, b), q.0, q.1, bytes)
  {
    hide FirstByteFits, Step, BodyStep, Bits, ByteBits, InBody, MatchesReplay, Replay, IsStuffed, ShiftTop, TopOnes;
    ReplayBits(tmp, n);
    InBodyTop(c, s, level, k, rest, bytes);
    if k == 5 {
      StuffedStep(c, s, level, rest, bytes);
      TopZero(s.shiftReg, 5);
    } else {
      FirstFrameByte(c, s, bytes, tmp, n);
      DataStep(c, s, level, k, rest, bytes);
      if rest[0] { TopOneMore(s.shiftReg, k); } else { TopZero(s.shiftReg, k); }
    }
    ReplayStep(s, level, Raw(k, rest)[0], tmp, n, k == 5);
  }

  predicate FirstByteFits(c: Config, bytes: seq<bv8>) {
    |bytes| > 0 ==> ByteAllowed(bytes[0], 0) && 1 < c.maxFrameLen
  }

  lemma FirstFrameByte(c: Config, s: State, bytes: seq<bv8>, tmp: bv8, n: nat)
    requires FirstByteFits(c, bytes) && n < 8 && MatchesReplay(s, Replay(tmp, n)) && Replay(tmp, n).bits <= n
    ensures s.bits == 7 && |s.frame| < |bytes| ==> ByteAllowed(bytes[|s.frame|], |s.frame|) && |s.frame| + 1 < c.maxFrameLen
  {
    hide ByteAllowed, Replay;
  }

  lemma InBodyTop(c: Config, s: State, level: bool, k: nat, bits: seq<bool>, bytes: seq<bv8>)
    requires InBody(c, s, level, k, bits, bytes)
    ensures k <= 5 && TopOnes(s.shiftReg, k)
  {}

  // ----- counting whole bytes: IN_SYNC and FRAME_END ---------------------------------

  // The first n bits of a byte have come in.
  predicate Counting(s: State, phase: Phase, level: bool, bits: seq<bool>)
  {
    s.phase == phase && OnLine(s, level) && s.bits == |bits| < 8 && s.frame == [] &&
    Tail(s.shiftReg, |bits|) == bits && (phase == InSync ==> Tail(s.decB, |bits|) == bits)
  }

  lemma CountingStep(c: Config, s: State, phase: Phase, level: bool, bits: seq<bool>, b: bool)
    requires phase == InSync || phase == FrameEnd
    requires Counting(s, phase, level, bits) && |bits| < 7
    ensures Step(c, s, AsByte(Next(level, b))).1 == []
    ensures Counting(Step(c, s, AsByte(Next(level, b))).0, phase, Next(level, b), bits + [b])
  {
    hide ShiftTop, Tail, EnterDecoding;
    DecodedBit(s, level, b);
    TailShift(s.shiftReg, b, |bits|);
    TailShift(s.decB, b, |bits|);
  }

  lemma {:induction false} CountingRun(c: Config, s: State, phase: Phase, level: bool, done: seq<bool>, more: seq<bool>)
    requires phase == InSync || phase == FrameEnd
    requires Counting(s, phase, level, done) && |done| + |more| < 8
    ensures RunBits(c, s, level, more).1 == []
    ensures Counting(RunBits(c, s, level, more).0, phase, Level(level, more), done + more)
    decreases |more|
  {
    hide Counting, Step, RunBits, Level;
    if |more| == 0 {
      RunBitsNothing(c, s, level);
      assert done + more == done;
    } else {
      CountingStep(c, s, phase, level, done, more[0]);
      var s1 := Step(c, s, AsByte(Next(level, more[0]))).0;
      QuietBit(c, s, level, more, s1);
      assert done + more == done + [more[0]] + more[1..];
      CountingRun(c, s1, phase, Next(level, more[0]), done + [more[0]], more[1..]);
    }
  }

  // The eighth bit: the receiver looks at the byte.
  lemma EighthBit(c: Config, s: State, phase: Phase, level: bool, byte: bv8)
    requires phase == InSync || phase == FrameEnd
    requires Counting(s, phase, level, ByteBits(byte)[..7])
    ensures var b := ByteBits(byte)[7];
      var (s1, p) := Step(c, s, AsByte(Next(level, b)));
      p == [] &&
      (byte == SYNC_FLAG ==> Counting(s1, phase, Next(level, b), [])) &&
      (byte != SYNC_FLAG && phase == FrameEnd ==> s1 == INITIAL) &&
      (byte != SYNC_FLAG && phase == InSync ==>
         s1 == EnterDecoding(State(InSync, byte, byte, AsByte(Next(level, b)), 8, [])))
  {
    hide ShiftTop, ByteBits, EnterDecoding;
    var b := ByteBits(byte)[7];
    DecodedBit(s, level, b);
    TailShift(s.shiftReg, b, 7);
    WholeTail(ShiftTop(s.shiftReg, AsByte(b)));
    assert ByteBits(byte) == ByteBits(byte)[..7] + [b];
    ByteBitsInjective(ShiftTop(s.shiftReg, AsByte(b)), byte);
    if phase == InSync {
      TailShift(s.decB, b, 7);
      WholeTail(ShiftTop(s.decB, AsByte(b)));
      ByteBitsInjective(ShiftTop(s.decB, AsByte(b)), byte);
    }
  }

  // A whole byte while counting.
  lemma CountedByte(c: Config, s: State, phase: Phase, level: bool, byte: bv8)
    requires phase == InSync || phase == FrameEnd
    requires Counting(s, phase, level, [])
    ensures var r := RunBits(c, s, level, ByteBits(byte));
      r.1 == [] &&
      (byte == SYNC_FLAG ==> Counting(r.0, phase, Level(level, ByteBits(byte)), [])) &&
      (byte != SYNC_FLAG && phase == FrameEnd ==> r.0 == INITIAL) &&
      (byte != SYNC_FLAG && phase == InSync ==>
         r.0 == EnterDecoding(State(InSync, byte, byte, AsByte(Level(level, ByteBits(byte))), 8, [])))
  {
    hide Counting, Step, RunBits, Level, EnterDecoding, ByteBits;
    var all := ByteBits(byte);
    var a, b := all[..7], all[7];
    assert all == a + [b] && [] + a == a;
    CountingRun(c, s, phase, level, [], a);
    var s7 := RunBits(c, s, level, a).0;
    EighthBit(c, s7, phase, Level(level, a), byte);
    RunBitsConcat(c, s, level, a, [b]);
    LevelMore(level, a, b);
    var s8 := Step(c, s7, AsByte(Next(Level(level, a), b))).0;
    QuietBit(c, s7, Level(level, a), [b], s8);
    assert [b][1..] == [];
    RunBitsNothing(c, s8, Next(Level(level, a), b));
  }

  const FLAG := [false, true, true, true, true, true, true, false]

  lemma FlagIsFlag()
    ensures ByteBits(SYNC_FLAG) == FLAG && ByteBits(0) == Zeros(8)
  {}

  // Repeated flags while counting.
  lemma {:induction false} FlagsRun(c: Config, s: State, phase: Phase, level: bool, n: nat)
    requires phase == InSync || phase == FrameEnd
    requires Counting(s, phase, level, [])
    ensures var r := RunBits(c, s, level, FlagBits(n));
      r.1 == [] && Counting(r.0, phase, Level(level, FlagBits(n)), [])
    decreases n
  {
    hide Counting, RunBits, Level, ByteBits;
    if n == 0 {
      RunBitsNothing(c, s, level);
    } else {
      FlagIsFlag();
      FlagsRun(c, s, phase, level, n - 1);
      var s1, l := RunBits(c, s, level, FlagBits(n - 1)).0, Level(level, FlagBits(n - 1));
      CountedByte(c, s1, phase, l, SYNC_FLAG);
      RunBitsConcat(c, s, level, FlagBits(n - 1), FLAG);
      LevelConcat(level, FlagBits(n - 1), FLAG);
    }
  }

  lemma {:induction false} LevelConcat(level: bool, a: seq<bool>, b: seq<bool>)
    ensures Level(level, a + b) == Level(Level(level, a), b)
    decreases |a|
  {
    if |a| == 0 {
      assert a + b == b;
    } else {
      assert (a + b)[1..] == a[1..] + b;
      LevelConcat(Next(level, a[0]), a[1..], b);
    }
  }

  // ----- one frame -------------------------------------------------------------------

  // Looking for the first flag.
  predicate Hunting(s: State, level: bool, reg: bv8)
  {
    s.phase == NoSync && s.shiftReg == reg && OnLine(s, level) && s.frame == []
  }

  lemma HuntStep(c: Config, s: State, level: bool, reg: bv8, bits: seq<bool>) returns (s1: State)
    requires |bits| > 0 && Hunting(s, level, reg)
    ensures RunBits(c, s, level, bits) == RunBits(c, s1, Next(level, bits[0]), bits[1..])
    ensures Level(level, bits) == Level(Next(level, bits[0]), bits[1..])
    ensures var r := ShiftTop(reg, AsByte(bits[0]));
      if r == SYNC_FLAG then Counting(s1, InSync, Next(level, bits[0]), []) else Hunting(s1, Next(level, bits[0]), r)
  {
    hide ShiftTop, Tail, RunBits, Level;
    DecodedBit(s, level, bits[0]);
    s1 := Step(c, s, AsByte(Next(level, bits[0]))).0;
    QuietBit(c, s, level, bits, s1);
    NoTail(s1.shiftReg);
    NoTail(s1.decB);
  }

  lemma NoTail(d: bv8)
    ensures Tail(d, 0) == []
  {}

  lemma FlagRegisters()
    ensures ShiftTop(0, AsByte(false)) == 0 && ShiftTop(0, AsByte(true)) == 0x80 && ShiftTop(0x80, AsByte(true)) == 0xC0
    ensures ShiftTop(0xC0, AsByte(true)) == 0xE0 && ShiftTop(0xE0, AsByte(true)) == 0xF0
    ensures ShiftTop(0xF0, AsByte(true)) == 0xF8 && ShiftTop(0xF8, AsByte(true)) == 0xFC
    ensures ShiftTop(0xFC, AsByte(false)) == SYNC_FLAG
  {}

  // The first flag, from the idle receiver.
  lemma FirstFlag(c: Config)
    ensures var r := RunBits(c, INITIAL, false, FLAG);
      r.1 == [] && Counting(r.0, InSync, Level(false, FLAG), [])
  {
    hide Step, Run, RunBits, Counting, Level, ShiftTop, AsByte, Hunting;
    FlagRegisters();
    assert Hunting(INITIAL, false, 0) by { IdleHunts(); }
    var l0 := false;
    var s1 := HuntStep(c, INITIAL, false, 0, FLAG);
    assert Hunting(s1, true, 0);
    var s2 := HuntStep(c, s1, true, 0, FLAG[1..]);
    assert FLAG[1..][1..] == FLAG[2..];
    var s3 := HuntStep(c, s2, true, 0x80, FLAG[2..]);
    assert FLAG[2..][1..] == FLAG[3..];
    var s4 := HuntStep(c, s3, true, 0xC0, FLAG[3..]);
    assert FLAG[3..][1..] == FLAG[4..];
    var s5 := HuntStep(c, s4, true, 0xE0, FLAG[4..]);
    assert FLAG[4..][1..] == FLAG[5..];
    var s6 := HuntStep(c, s5, true, 0xF0, FLAG[5..]);
    assert FLAG[5..][1..] == FLAG[6..];
    var s7 := HuntStep(c, s6, true, 0xF8, FLAG[6..]);
    assert FLAG[6..][1..] == FLAG[7..];
    var s8 := HuntStep(c, s7, true, 0xFC, FLAG[7..]);
    assert FLAG[7..][1..] == [];
    RunBitsNothing(c, s8, false);
  }

  lemma IdleHunts()
    ensures Hunting(INITIAL, false, 0)
  {}

  // The flags before the frame.
  lemma Preamble(c: Config, n: nat)
    requires n > 0
    ensures var r := RunBits(c, INITIAL, false, FlagBits(n));
      r.1 == [] && Counting(r.0, InSync, Level(false, FlagBits(n)), [])
  {
    hide RunBits, Counting, Level, FlagBits;
    FlagBitsFront(n);
    FirstFlag(c);
    var s, l := RunBits(c, INITIAL, false, FLAG).0, Level(false, FLAG);
    FlagsRun(c, s, InSync, l, n - 1);
    RunBitsConcat(c, INITIAL, false, FLAG, FlagBits(n - 1));
    LevelConcat(false, FLAG, FlagBits(n - 1));
  }

  function ByteOf(b: seq<bool>): bv8
    requires |b| == 8
  {
    (if b[0] then 1 else 0) | (if b[1] then 2 else 0) | (if b[2] then 4 else 0) | (if b[3] then 8 else 0) |
    (if b[4] then 16 else 0) | (if b[5] then 32 else 0) | (if b[6] then 64 else 0) | (if b[7] then 128 else 0)
  }

  lemma ByteOfBits(b: seq<bool>)
    requires |b| == 8
    ensures ByteBits(ByteOf(b)) == b
  {
    var r := ByteBits(ByteOf(b));
    assert r[0] == b[0] && r[1] == b[1] && r[2] == b[2] && r[3] == b[3];
    assert r[4] == b[4] && r[5] == b[5] && r[6] == b[6] && r[7] == b[7];
  }

  // The first eight bits on air are never a flag.
  lemma FirstByteIsNoFlag(bits: seq<bool>, tmp: bv8)
    requires |Raw(0, bits)| >= 8 && ByteBits(tmp) == Raw(0, bits)[..8]
    ensures tmp != SYNC_FLAG
  {
    hide Raw, ByteBits, Stuff;
    RawIsStuff(0, bits);
    NoFlagInside(bits);
    FlagIsFlag();
    var s := Stuff(0, bits);
    var first := s[..8];
    assert !SixOnes(s, 1);
    assert first[1] == s[1] && first[2] == s[2] && first[3] == s[3] && first[4] == s[4] && first[5] == s[5] && first[6] == s[6];
    assert FLAG[1] && FLAG[2] && FLAG[3] && FLAG[4] && FLAG[5] && FLAG[6];
    assert first != FLAG;
  }

  // The whole body, from the flags before it.
  lemma Body(c: Config, s: State, level: bool, bytes: seq<bv8>) returns (m: nat)
    requires Counting(s, InSync, level, []) && Acceptable(c, bytes) && |bytes| > 0
    ensures m <= 4
    ensures var raw := Stuff(0, Bits(bytes));
      var r := RunBits(c, s, level, raw);
      r.1 == [] && InBody(c, r.0, Level(level, raw), m, [], bytes)
  {
    hide RunBits, Counting, Level, Bits, ByteBits, Raw, Stuff, InBody, Acceptable, Replay, MatchesReplay, ByteOf;
    var bits := Bits(bytes);
    var raw := Raw(0, bits);
    RawIsStuff(0, bits);
    StuffLength(0, bits);
    var first, rest := raw[..8], raw[8..];
    assert raw == first + rest;
    var tmp := ByteOf(first);
    ByteOfBits(first);
    FirstByteIsNoFlag(bits, tmp);
    CountedByte(c, s, InSync, level, tmp);
    FirstOfAcceptable(c, bytes);
    ReplayIsDecoding(c, level, bytes, tmp, 8);
    var l8 := Level(level, first);
    var t := RunBits(c, BodyStart(level), level, first).0;
    var q := Position(0, bits, 8);
    EntersAsReplayed(c, t, l8, tmp, q.0, q.1, bytes);
    m := BodyRun(c, t, l8, q.0, q.1, bytes);
    RunBitsConcat(c, s, level, first, rest);
    LevelConcat(level, first, rest);
  }

  lemma FirstOfAcceptable(c: Config, bytes: seq<bv8>)
    requires Acceptable(c, bytes)
    ensures FirstByteFits(c, bytes)
  {
    hide ByteAllowed;
  }

  lemma EntersAsReplayed(c: Config, t: State, level: bool, tmp: bv8, k: nat, bits: seq<bool>, bytes: seq<bv8>)
    requires MatchesReplay(t, Replay(tmp, 8)) && InBody(c, t, level, k, bits, bytes)
    ensures EnterDecoding(State(InSync, tmp, tmp, AsByte(level), 8, [])) == t
  {
    hide Replay, Bits, Tail, TopOnes;
    ReplayBits(tmp, 8);
  }

  // The closing flag: n of its bits have been taken for data.
  predicate Closing(s: State, level: bool, n: nat, bytes: seq<bv8>)
  {
    s.phase == Decoding && OnLine(s, level) && s.bits == n <= 7 && s.frame == bytes && Tail(s.shiftReg, n) == FLAG[..n]
  }

  lemma ClosingStep(c: Config, s: State, level: bool, n: nat, k: nat, bytes: seq<bv8>)
    requires n < 7 && Closing(s, level, n, bytes) && TopOnes(s.shiftReg, k)
    requires if n == 0 then k <= 4 else k == n - 1
    ensures var b := FLAG[n];
      var (s1, p) := Step(c, s, AsByte(Next(level, b)));
      p == [] && Closing(s1, Next(level, b), n + 1, bytes) && TopOnes(s1.shiftReg, n)
  {
    hide ShiftTop, IsStuffed, SevenOnes, TopOnes, Tail;
    var b := FLAG[n];
    DecodedBit(s, level, b);
    TailShift(s.shiftReg, b, n);
    if n == 0 { TopZero(s.shiftReg, k); } else { TopOneMore(s.shiftReg, k); }
    assert FLAG[..n + 1] == FLAG[..n] + [b];
  }

  lemma {:induction false} ClosingRun(c: Config, s: State, level: bool, n: nat, k: nat, bytes: seq<bv8>)
    requires n <= 7 && Closing(s, level, n, bytes) && TopOnes(s.shiftReg, k)
    requires if n == 0 then k <= 4 else k == n - 1
    ensures var r := RunBits(c, s, level, FLAG[n..]);
      r.1 == FramePublications(c, bytes) && Counting(r.0, FrameEnd, Level(level, FLAG[n..]), [])
    decreases 7 - n
  {
    hide RunBits, Closing, Step, TopOnes, Level, Counting, FramePublications;
    var b := FLAG[n];
    var s1 := Step(c, s, AsByte(Next(level, b))).0;
    assert FLAG[n..][1..] == FLAG[n + 1..];
    if n < 7 {
      ClosingStep(c, s, level, n, k, bytes);
      QuietBit(c, s, level, FLAG[n..], s1);
      ClosingRun(c, s1, Next(level, b), n + 1, n, bytes);
    } else {
      LastClosingBit(c, s, level, bytes);
      RunBitsFirst(c, s, level, FLAG[7..]);
      RunBitsNothing(c, s1, Next(level, b));
      assert FramePublications(c, bytes) + [] == FramePublications(c, bytes);
    }
  }

  lemma LastClosingBit(c: Config, s: State, level: bool, bytes: seq<bv8>)
    requires Closing(s, level, 7, bytes)
    ensures var (s1, p) := Step(c, s, AsByte(Next(level, false)));
      p == FramePublications(c, bytes) && Counting(s1, FrameEnd, Next(level, false), [])
  {
    hide ShiftTop, IsStuffed, SevenOnes, Tail, FramePublications, ByteBits;
    DecodedBit(s, level, false);
    var r := ShiftTop(s.shiftReg, AsByte(false));
    TailShift(s.shiftReg, false, 7);
    WholeTail(r);
    FlagIsFlag();
    assert FLAG == FLAG[..7] + [false];
    ByteBitsInjective(r, SYNC_FLAG);
    NoTail(0);
  }

  // From the end of the body to the idle receiver.
  lemma Ending(c: Config, s: State, level: bool, m: nat, bytes: seq<bv8>, post: nat)
    requires InBody(c, s, level, m, [], bytes) && m <= 4 && post > 0
    ensures RunBits(c, s, level, FlagBits(post) + Zeros(8)) == (INITIAL, FramePublications(c, bytes))
  {
    hide RunBits, Closing, Step, TopOnes, Level, Counting, FramePublications, FlagBits, ByteBits, InBody;
    BodyDone(c, s, level, m, bytes);
    assert Closing(s, level, 0, bytes) by { StartsClosing(s, level, bytes); }
    ClosingRun(c, s, level, 0, m, bytes);
    assert FLAG[0..] == FLAG;
    var s1, l1 := RunBits(c, s, level, FLAG).0, Level(level, FLAG);
    FlagsRun(c, s1, FrameEnd, l1, post - 1);
    var s2, l2 := RunBits(c, s1, l1, FlagBits(post - 1)).0, Level(l1, FlagBits(post - 1));
    FlagIsFlag();
    assert SYNC_FLAG != 0;
    CountedByte(c, s2, FrameEnd, l2, 0);
    FlagBitsFront(post);
    RunBitsConcat(c, s1, l1, FlagBits(post - 1), Zeros(8));
    RunBitsConcat(c, s, level, FLAG, FlagBits(post - 1) + Zeros(8));
    assert FlagBits(post) + Zeros(8) == FLAG + (FlagBits(post - 1) + Zeros(8));
    assert FramePublications(c, bytes) + ([] + []) == FramePublications(c, bytes);
  }

  lemma StartsClosing(s: State, level: bool, bytes: seq<bv8>)
    requires s.bits == 0 && s.frame == bytes && OnLine(s, level) && s.phase == Decoding
    ensures Closing(s, level, 0, bytes)
  {
    NoTail(s.shiftReg);
  }

  // Any acceptable frame, with its flags and the trailing zero byte, is published and
  // leaves the receiver idle.
  lemma FrameRun(c: Config, pre: nat, post: nat, bytes: seq<bv8>)
    requires pre > 0 && post > 0 && |bytes| > 0 && Acceptable(c, bytes)
    ensures RunBits(c, INITIAL, false, FlagBits(pre) + Stuff(0, Bits(bytes)) + FlagBits(post) + Zeros(8))
         == (INITIAL, FramePublications(c, bytes))
  {
    hide RunBits, Level, Counting, FramePublications, FlagBits, Bits, Stuff, InBody, Acceptable, Zeros;
    var a, b, z := FlagBits(pre), Stuff(0, Bits(bytes)), FlagBits(post) + Zeros(8);
    Preamble(c, pre);
    var s1, l1 := RunBits(c, INITIAL, false, a).0, Level(false, a);
    var m := Body(c, s1, l1, bytes);
    var s2, l2 := RunBits(c, s1, l1, b).0, Level(l1, b);
    Ending(c, s2, l2, m, bytes, post);
    RunBitsConcat(c, s1, l1, b, z);
    RunBitsConcat(c, INITIAL, false, a, b + z);
    assert a + b + FlagBits(post) + Zeros(8) == a + (b + z);
    assert [] + ([] + FramePublications(c, bytes)) == FramePublications(c, bytes);
  }

  // ----- the theorem --------------------------------------------------------------------

  predicate AddressField(addr: seq<bv8>)
  {
    |addr| == MIN_ADDR_LEN && forall i :: 0 <= i < MIN_ADDR_LEN ==> ByteAllowed(addr[i], i)
  }

  // Every address field the sender builds is one the receiver accepts.
  lemma BuiltAddress(dest: seq<bv8>, destSsid: bv8, src: seq<bv8>, srcSsid: bv8)
    requires |dest| <= CALLSIGN_MAX_LEN && |src| <= CALLSIGN_MAX_LEN
    ensures AddressField(AddrField(dest, destSsid, src, srcSsid))
  {
    var f := AddrField(dest, destSsid, src, srcSsid);
    AddrFieldEnds(dest, destSsid, src, srcSsid);
    forall i | 0 <= i < MIN_ADDR_LEN
      ensures ByteAllowed(f[i], i)
    {
      assert f[i] & 1 == 1 <==> i == MIN_ADDR_LEN - 1;
    }
  }

  function ExpectedPdu(c: Config, addr: seq<bv8>, info: seq<bv8>): Publication
  {
    Pdu(if c.stripHeaders then info else Content(info, IFrame, addr, [0]))
  }

  lemma FrameIsGood(c: Config, addr: seq<bv8>, info: seq<bv8>)
    requires AddressField(addr) && |info| + 18 < c.maxFrameLen
    ensures var bytes := FrameBytes(addr, info);
      Acceptable(c, bytes) && |bytes| > 0 && FramePublications(c, bytes) == [ExpectedPdu(c, addr, info)]
  {
    hide Fcs, FcsBytes, RecvFcs, LowBit;
    var content := Content(info, IFrame, addr, [0]);
    var bytes := FrameBytes(addr, info);
    assert |content| == |info| + 16 && bytes[..|content|] == content;
    FcsJoined(Fcs(content));
    forall i | 0 <= i < |bytes|
      ensures ByteAllowed(bytes[i], i)
    {
      if i < MIN_ADDR_LEN {
        assert bytes[i] == addr[i];
      }
    }
    assert GoodFcs(bytes);
    HeaderIsSixteen(bytes);
    assert bytes[16..|bytes| - 2] == info;
    assert bytes[0..|bytes| - 2] == content;
  }

  // One message survives sending and receiving.
  lemma FrameRoundTrip(c: Config, pre: nat, post: nat, addr: seq<bv8>, info: seq<bv8>)
    requires pre > 0 && post > 0 && AddressField(addr) && |info| + 18 < c.maxFrameLen
    ensures Run(c, INITIAL, AsBytes(FrameSymbols(pre, post, addr, info))) == (INITIAL, [ExpectedPdu(c, addr, info)])
  {
    hide FlagBits, Stuff, Bits, FrameBytes, Acceptable, FramePublications, Run, Nrzi, Zeros, AddressField;
    FrameIsGood(c, addr, info);
    FrameRun(c, pre, post, FrameBytes(addr, info));
  }

  // The symbols of all the messages, one frame after the other.
  function StreamSymbols(pre: nat, post: nat, addr: seq<bv8>, infos: seq<seq<bv8>>): seq<bool>
    decreases |infos|
  {
    if |infos| == 0 then []
    else FrameSymbols(pre, post, addr, infos[0]) + StreamSymbols(pre, post, addr, infos[1..])
  }

  function ExpectedPdus(c: Config, addr: seq<bv8>, infos: seq<seq<bv8>>): seq<Publication>
  {
    seq(|infos|, i requires 0 <= i < |infos| => ExpectedPdu(c, addr, infos[i]))
  }

  // The stream round trip.
  lemma {:induction false} StreamRoundTrip(c: Config, pre: nat, post: nat, addr: seq<bv8>, infos: seq<seq<bv8>>)
    requires pre > 0 && post > 0 && AddressField(addr)
    requires forall i :: 0 <= i < |infos| ==> |infos[i]| + 18 < c.maxFrameLen
    ensures Run(c, INITIAL, AsBytes(StreamSymbols(pre, post, addr, infos))) == (INITIAL, ExpectedPdus(c, addr, infos))
    decreases |infos|
  {
    hide Step, FrameSymbols, AddressField;
    if |infos| == 0 {
      assert AsBytes(StreamSymbols(pre, post, addr, infos)) == [];
    } else {
      var a, b := FrameSymbols(pre, post, addr, infos[0]), StreamSymbols(pre, post, addr, infos[1..]);
      FrameRoundTrip(c, pre, post, addr, infos[0]);
      StreamRoundTrip(c, pre, post, addr, infos[1..]);
      assert AsBytes(a + b) == AsBytes(a) + AsBytes(b);
      RunConcat(c, INITIAL, AsBytes(a), AsBytes(b));
      assert ExpectedPdus(c, addr, infos) == [ExpectedPdu(c, addr, infos[0])] + ExpectedPdus(c, addr, infos[1..]);
    }
  }
}
