/** How the receiver comes back: after an abort, after a line that stands still, and from any
    state of hunting; and what it does with frames that it must not take. */
module Ax25Recovery {
  import opened Ax25Fcs
  import opened Ax25Frame
  import opened Ax25Encoder
  import opened Ax25Decoder
  import opened Ax25Stream

  // ----- hunting ------------------------------------------------------------------------

  lemma OneIsNoFlag(reg: bv8)
    ensures ShiftTop(reg, 1) != SYNC_FLAG && !IsStuffed(ShiftTop(reg, 1))
  {}

  // A zero completes a flag just when six ones above a zero came before it.
  lemma ZeroMayBeFlag(reg: bv8)
    ensures ShiftTop(reg, 0) == SYNC_FLAG <==> reg & 0xFE == 0xFC
  {}

  // The rest of eight bits of which n have come in: all ones but the last.
  lemma {:induction false} HuntPattern(c: Config, s: State, level: bool, reg: bv8, pattern: seq<bool>, n: nat)
    requires Hunting(s, level, reg) && |pattern| == 8 && 1 <= n <= 7 && Tail(reg, n) == pattern[..n]
    requires (forall k :: n <= k < 7 ==> pattern[k]) && !pattern[7]
    ensures var r, l := RunBits(c, s, level, pattern[n..]), Level(level, pattern[n..]);
      r.1 == [] && if pattern == FLAG then Counting(r.0, InSync, l, []) else Hunting(r.0, l, r.0.shiftReg) && ByteBits(r.0.shiftReg) == pattern
    decreases 7 - n
  {
    hide Hunting, Counting, RunBits, Level, ShiftTop, Tail, ByteBits, Step;
    var b, more := pattern[n], pattern[n..];
    var s1 := HuntStep(c, s, level, reg, more);
    TailShift(reg, b, n);
    assert pattern[..n + 1] == pattern[..n] + [b];
    assert more[1..] == pattern[n + 1..];
    var r := ShiftTop(reg, AsByte(b));
    if n < 7 {
      OneIsNoFlag(reg);
      HuntPattern(c, s1, Next(level, b), r, pattern, n + 1);
    } else {
      WholeTail(r);
      assert pattern[..8] == pattern && pattern[8..] == [];
      RunBitsNothing(c, s1, Next(level, b));
      FlagIsFlag();
      if r != SYNC_FLAG {
        HuntingReg(s1, Next(level, b), r);
        if pattern == FLAG {
          ByteBitsInjective(r, SYNC_FLAG);
        }
      }
    }
  }

  lemma HuntingReg(s: State, level: bool, reg: bv8)
    requires Hunting(s, level, reg)
    ensures s.shiftReg == reg && s.phase == NoSync && s.frame == []
  {}

  // A flag is found, whatever is in the register, unless its first bit seems to end one.
  lemma FlagFound(c: Config, s: State, level: bool, reg: bv8)
    requires Hunting(s, level, reg) && reg & 0xFE != 0xFC
    ensures var r := RunBits(c, s, level, FLAG);
      r.1 == [] && Counting(r.0, InSync, Level(level, FLAG), [])
  {
    hide Hunting, Counting, RunBits, Level, ShiftTop, Tail, Step;
    var s1 := HuntStep(c, s, level, reg, FLAG);
    ZeroMayBeFlag(reg);
    TailShift(reg, false, 0);
    NoTail(reg);
    assert FLAG[..1] == [] + [false];
    HuntPattern(c, s1, true == !level, ShiftTop(reg, AsByte(false)), FLAG, 1);
  }

  // If the line is not where the sender starts, the first bit is taken for a one and the flag is missed.
  lemma FlagMissed(c: Config, s: State, level: bool)
    requires s.phase == NoSync && s.frame == [] && OnLine(s, !level)
    ensures var r, l := RunBits(c, s, level, FLAG), Level(level, FLAG);
      r.1 == [] && Hunting(r.0, l, r.0.shiftReg) && r.0.shiftReg & 0xFE != 0xFC && TopOnes(r.0.shiftReg, 0)
  {
    hide Hunting, RunBits, Level, ShiftTop, Tail, TopOnes, ByteBits;
    var pattern := [true] + FLAG[1..];
    var reg := ShiftTop(s.shiftReg, 1);
    var s1 := s.(shiftReg := reg, decB := ShiftTop(s.decB, 1), prevBit := AsByte(!level));
    OneIsNoFlag(s.shiftReg);
    assert Step(c, s, AsByte(Next(level, false))) == (s1, []);
    QuietBit(c, s, level, FLAG, s1);
    TailShift(s.shiftReg, true, 0);
    NoTail(s.shiftReg);
    assert pattern[..1] == [] + [true] && pattern[1..] == FLAG[1..];
    assert Hunting(s1, !level, reg) by { HuntingIs(s1, !level); }
    HuntPattern(c, s1, !level, reg, pattern, 1);
    assert pattern != FLAG;
    MissedRegister(RunBits(c, s, level, FLAG).0.shiftReg, pattern);
  }

  lemma HuntingIs(s: State, level: bool)
    requires s.phase == NoSync && s.frame == [] && OnLine(s, level)
    ensures Hunting(s, level, s.shiftReg)
  {}

  lemma MissedRegister(reg: bv8, pattern: seq<bool>)
    requires pattern == [true, true, true, true, true, true, true, false] && ByteBits(reg) == pattern
    ensures reg & 0xFE != 0xFC && TopOnes(reg, 0)
  {
    assert ByteBits(reg)[7] == false;
  }

  // No flag is found in a stretch without six ones in a row.
  lemma {:induction false} NothingFound(c: Config, s: State, level: bool, reg: bv8, k: nat, bits: seq<bool>) returns (m: nat)
    requires Hunting(s, level, reg) && k <= 5 && TopOnes(reg, k) && ShortRuns(k, bits)
    ensures m <= 5
    ensures var r := RunBits(c, s, level, bits);
      r.1 == [] && Hunting(r.0, Level(level, bits), r.0.shiftReg) && TopOnes(r.0.shiftReg, m)
    decreases |bits|
  {
    hide Hunting, RunBits, Level, ShiftTop, TopOnes, Step;
    if |bits| == 0 {
      RunBitsNothing(c, s, level);
      HuntingReg(s, level, reg);
      m := k;
    } else {
      var b := bits[0];
      assert ShortRuns(if b then k + 1 else 0, bits[1..]);
      var s1 := HuntStep(c, s, level, reg, bits);
      if b { TopOneMore(reg, k); } else { TopZero(reg, k); }
      m := NothingFound(c, s1, Next(level, b), ShiftTop(reg, AsByte(b)), if b then k + 1 else 0, bits[1..]);
    }
  }

  lemma FewOnes(reg: bv8, m: nat)
    requires m <= 5 && TopOnes(reg, m)
    ensures reg & 0xFE != 0xFC
  {}

  // ----- frames while hunting -----------------------------------------------------------

  // The bits of a frame on air, with the trailing zero byte.
  function OnAir(pre: nat, bytes: seq<bv8>, post: nat): seq<bool> {
    FlagBits(pre) + Stuff(0, Bits(bytes)) + FlagBits(post) + Zeros(8)
  }

  // Once a flag has been found, the frame is received.
  lemma FrameFromSync(c: Config, s: State, level: bool, pre: nat, post: nat, bytes: seq<bv8>)
    requires Counting(s, InSync, level, []) && post > 0 && |bytes| > 0 && Acceptable(c, bytes)
    ensures RunBits(c, s, level, OnAir(pre, bytes, post)) == (INITIAL, FramePublications(c, bytes))
  {
    hide RunBits, Level, Counting, FramePublications, FlagBits, Bits, Stuff, InBody, Acceptable, Zeros;
    var a, b, z := FlagBits(pre), Stuff(0, Bits(bytes)), FlagBits(post) + Zeros(8);
    FlagsRun(c, s, InSync, level, pre);
    var s1, l1 := RunBits(c, s, level, a).0, Level(level, a);
    var m := Body(c, s1, l1, bytes);
    var s2, l2 := RunBits(c, s1, l1, b).0, Level(l1, b);
    Ending(c, s2, l2, m, bytes, post);
    RunBitsConcat(c, s1, l1, b, z);
    RunBitsConcat(c, s, level, a, b + z);
    assert OnAir(pre, bytes, post) == a + (b + z);
    assert [] + ([] + FramePublications(c, bytes)) == FramePublications(c, bytes);
  }

  // While no flag has been found before it, the frame is lost, and its last flags are taken for
  // the first flags of the next.
  lemma FrameLost(c: Config, s: State, level: bool, bytes: seq<bv8>, post: nat)
    requires Hunting(s, level, s.shiftReg) && TopOnes(s.shiftReg, 0) && post > 0
    ensures var r := RunBits(c, s, level, OnAir(0, bytes, post));
      r.1 == [] && r.0.phase == Decoding
  {
    hide RunBits, Level, Counting, Hunting, TopOnes, FlagBits, Bits, Stuff, Zeros, ByteBits, ShortRuns, EnterDecoding;
    var b, z := Stuff(0, Bits(bytes)), FlagBits(post) + Zeros(8);
    StuffShortRuns(0, Bits(bytes));
    var m := NothingFound(c, s, level, s.shiftReg, 0, b);
    var s1, l1 := RunBits(c, s, level, b).0, Level(level, b);
    FewOnes(s1.shiftReg, m);
    FlagBitsFront(post);
    FlagFound(c, s1, l1, s1.shiftReg);
    var s2, l2 := RunBits(c, s1, l1, FLAG).0, Level(l1, FLAG);
    FlagsRun(c, s2, InSync, l2, post - 1);
    var s3, l3 := RunBits(c, s2, l2, FlagBits(post - 1)).0, Level(l2, FlagBits(post - 1));
    FlagIsFlag();
    assert SYNC_FLAG != 0;
    CountedByte(c, s3, InSync, l3, 0);
    RunBitsConcat(c, s2, l2, FlagBits(post - 1), Zeros(8));
    RunBitsConcat(c, s1, l1, FLAG, FlagBits(post - 1) + Zeros(8));
    assert z == FLAG + (FlagBits(post - 1) + Zeros(8));
    RunBitsConcat(c, s, level, b, z);
    NoFlagBits();
    assert OnAir(0, bytes, post) == b + z;
    Entered(State(InSync, 0, 0, AsByte(Level(l3, ByteBits(0))), 8, []));
  }

  lemma NoFlagBits()
    ensures FlagBits(0) == []
  {}

  lemma Entered(s: State)
    ensures EnterDecoding(s).phase == Decoding
  {
    hide Replay;
  }

  // The zero that the sender starts with seems to end a flag: the line is where the sender
  // starts, and six ones above a zero have just come in.
  predicate Misled(s: State, level: bool) {
    OnLine(s, level) && s.shiftReg & 0xFE == 0xFC
  }

  // From the false flag to the end of the second one: the byte between is taken for the first
  // of a frame, and refused.
  lemma MisledFlags(c: Config, s: State, level: bool)
    requires s.phase == NoSync && s.frame == [] && Misled(s, level)
    ensures var r, l := RunBits(c, s, level, FLAG + FLAG), Level(level, FLAG + FLAG);
      r.1 == [] && Hunting(r.0, l, r.0.shiftReg) && r.0.shiftReg & 0xFE != 0xFC && TopOnes(r.0.shiftReg, 0)
  {
    hide RunBits, Level, Counting, Hunting, TopOnes, ByteBits, EnterDecoding, Step, ShiftTop;
    var all := FLAG + FLAG;
    HuntingIs(s, level);
    ZeroMayBeFlag(s.shiftReg);
    var s1 := HuntStep(c, s, level, s.shiftReg, all);
    var byte, l1 := ByteBits(0x3F), !level;
    FalseByte();
    assert all[1..] == byte + ([true] + [true, true, true, true, true, false]);
    CountedByte(c, s1, InSync, l1, 0x3F);
    var s2, l2 := RunBits(c, s1, l1, byte).0, Level(l1, byte);
    FalseByteRefused(c, s2.prevBit == 1);
    SymbolOf(l2);
    var rest := [true, true, true, true, true, false];
    var s3 := INITIAL;
    assert ([true] + rest)[0] && ([true] + rest)[1..] == rest;
    assert s2 == EnterDecoding(State(InSync, 0x3F, 0x3F, AsByte(l2), 8, []));
    EnteredOnLine(l2);
    QuietBit(c, s2, l2, [true] + rest, s3);
    OnesAndZero(c, l2);
    RunBitsConcat(c, s1, l1, byte, [true] + rest);
    LevelConcat(l1, byte, [true] + rest);
  }

  lemma FalseByte()
    ensures ByteBits(0x3F) == [true, true, true, true, true, true, false, false]
  {}

  lemma SymbolOf(level: bool)
    ensures (AsByte(level) == 1) == level
  {}

  lemma ReplayedFalseByte()
    ensures Replay(0x3F, 8) == Replayed(0x3F, 0x7E, 7)
  {
    assert Replay(0x3F, 2) == Replayed(0xC0, 0xC0, 2);
    assert Replay(0x3F, 4) == Replayed(0xF0, 0xF0, 4);
    assert Replay(0x3F, 6) == Replayed(0xFC, 0xFC, 6);
  }

  lemma EnteredOnLine(level: bool)
    ensures EnterDecoding(State(InSync, 0x3F, 0x3F, AsByte(level), 8, [])) == State(Decoding, 0x3F, 0x7E, AsByte(level), 7, [])
  {
    ReplayedFalseByte();
  }

  lemma FalseByteRefused(c: Config, level: bool)
    ensures Step(c, State(Decoding, 0x3F, 0x7E, AsByte(level), 7, []), AsByte(Next(level, true))) == (INITIAL, [])
  {}

  // What is left of the second flag is no flag, whether or not its first bit is read right.
  lemma OnesAndZero(c: Config, level: bool)
    ensures var bits := [true, true, true, true, true, false];
      var r, l := RunBits(c, INITIAL, level, bits), Level(level, bits);
      r.1 == [] && Hunting(r.0, l, r.0.shiftReg) && r.0.shiftReg & 0xFE != 0xFC && TopOnes(r.0.shiftReg, 0)
  {
    hide RunBits, Level, Hunting, TopOnes, ShiftTop, Step, ShortRuns;
    var bits := [true, true, true, true, true, false];
    var rest := bits[1..];
    var s1 := AfterReset(level);
    FirstAfterReset(c, level);
    QuietBit(c, INITIAL, level, bits, s1);
    HuntingIs(s1, level);
    var k := if level then 0 else 1;
    FirstTop();
    RestIsShort(k, rest);
    var m := NothingFound(c, s1, level, s1.shiftReg, k, rest);
    FewOnes(RunBits(c, INITIAL, level, bits).0.shiftReg, m);
    EndsInZero(c, s1, level, k, rest);
  }

  // The receiver after a reset expects the line at zero; a one on a line at one is read as a zero.
  function AfterReset(level: bool): State {
    State(NoSync, if level then 0 else 0x80, if level then 0 else 0x80, AsByte(level), 0, [])
  }

  lemma FirstAfterReset(c: Config, level: bool)
    ensures Step(c, INITIAL, AsByte(Next(level, true))) == (AfterReset(level), [])
  {
    FirstShift();
  }

  lemma FirstShift()
    ensures ShiftTop(0, 0) == 0 && ShiftTop(0, 1) == 0x80
  {}

  lemma FirstTop()
    ensures TopOnes(0, 0) && TopOnes(0x80, 1)
  {}

  lemma RestIsShort(k: nat, rest: seq<bool>)
    requires k <= 1 && rest == [true, true, true, true, false]
    ensures ShortRuns(k, rest)
  {
    assert rest[1..] == [true, true, true, false] && rest[1..][1..] == [true, true, false] && rest[1..][1..][1..] == [true, false];
    assert rest[1..][1..][1..][1..] == [false] && rest[1..][1..][1..][1..][1..] == [];
    assert ShortRuns(0, []) && ShortRuns(k + 4, [false]) && ShortRuns(k + 3, [true, false]) && ShortRuns(k + 2, [true, true, false]);
  }

  // After a zero, the register has none at its top.
  lemma EndsInZero(c: Config, s: State, level: bool, k: nat, bits: seq<bool>)
    requires Hunting(s, level, s.shiftReg) && k <= 1 && TopOnes(s.shiftReg, k) && bits == [true, true, true, true, false]
    ensures TopOnes(RunBits(c, s, level, bits).0.shiftReg, 0)
  {
    hide RunBits, Level, Hunting, TopOnes, ShiftTop;
    var ones := [true, true, true, true];
    assert bits == ones + [false];
    RestIsShort(k, bits);
    OnesAreShort(k, ones);
    var m := NothingFound(c, s, level, s.shiftReg, k, ones);
    var s1, l1 := RunBits(c, s, level, ones).0, Level(level, ones);
    RunBitsConcat(c, s, level, ones, [false]);
    TopZero(s1.shiftReg, m);
    var s2 := HuntStep(c, s1, l1, s1.shiftReg, [false]);
    assert [false][1..] == [];
    RunBitsNothing(c, s2, !l1);
    HuntingReg(s2, !l1, ShiftTop(s1.shiftReg, 0));
  }

  lemma OnesAreShort(k: nat, ones: seq<bool>)
    requires k <= 1 && ones == [true, true, true, true]
    ensures ShortRuns(k, ones)
  {
    assert ones[1..] == [true, true, true] && ones[1..][1..] == [true, true] && ones[1..][1..][1..] == [true] && ones[1..][1..][1..][1..] == [];
    assert ShortRuns(k + 4, []) && ShortRuns(k + 3, [true]) && ShortRuns(k + 2, [true, true]);
  }

  // From any state of hunting, with any register and any level of the line, a frame after two or
  // more flags is received, but for one case: misled by the register, the receiver needs a third.
  lemma FrameWhileHunting(c: Config, s: State, level: bool, pre: nat, post: nat, bytes: seq<bv8>)
    requires s.phase == NoSync && s.frame == [] && (OnLine(s, level) || OnLine(s, !level))
    requires pre >= 2 && post > 0 && |bytes| > 0 && Acceptable(c, bytes)
    ensures var r := RunBits(c, s, level, OnAir(pre, bytes, post));
      if Misled(s, level) && pre == 2 then r.1 == [] && r.0.phase == Decoding
      else r == (INITIAL, FramePublications(c, bytes))
  {
    hide RunBits, Level, Counting, Hunting, FramePublications, OnAir, Acceptable, TopOnes, OnLine, Misled, FLAG;
    if Misled(s, level) {
      FrontFlags(pre, bytes, post, 2);
      MisledFlags(c, s, level);
      var s2, l2 := RunBits(c, s, level, FLAG + FLAG).0, Level(level, FLAG + FLAG);
      RunBitsConcat(c, s, level, FLAG + FLAG, OnAir(pre - 2, bytes, post));
      if pre == 2 {
        FrameLost(c, s2, l2, bytes, post);
      } else {
        FrameNow(c, s2, l2, pre - 2, post, bytes);
      }
    } else if OnLine(s, level) {
      HuntingIs(s, level);
      NotMisled(s, level);
      FrameNow(c, s, level, pre, post, bytes);
    } else {
      FrontFlags(pre, bytes, post, 1);
      FlagMissed(c, s, level);
      var s1, l1 := RunBits(c, s, level, FLAG).0, Level(level, FLAG);
      RunBitsConcat(c, s, level, FLAG, OnAir(pre - 1, bytes, post));
      FrameNow(c, s1, l1, pre - 1, post, bytes);
    }
    assert [] + FramePublications(c, bytes) == FramePublications(c, bytes);
  }

  lemma NotMisled(s: State, level: bool)
    requires OnLine(s, level) && !Misled(s, level)
    ensures s.shiftReg & 0xFE != 0xFC
  {}

  lemma FrameNow(c: Config, s: State, level: bool, pre: nat, post: nat, bytes: seq<bv8>)
    requires Hunting(s, level, s.shiftReg) && s.shiftReg & 0xFE != 0xFC && pre > 0 && post > 0 && |bytes| > 0 && Acceptable(c, bytes)
    ensures RunBits(c, s, level, OnAir(pre, bytes, post)) == (INITIAL, FramePublications(c, bytes))
  {
    hide RunBits, Level, Counting, Hunting, FramePublications, OnAir, Acceptable, FLAG;
    FrontFlags(pre, bytes, post, 1);
    FlagFound(c, s, level, s.shiftReg);
    var s1, l1 := RunBits(c, s, level, FLAG).0, Level(level, FLAG);
    FrameFromSync(c, s1, l1, pre - 1, post, bytes);
    RunBitsConcat(c, s, level, FLAG, OnAir(pre - 1, bytes, post));
    assert [] + FramePublications(c, bytes) == FramePublications(c, bytes);
  }

  lemma FrontFlags(pre: nat, bytes: seq<bv8>, post: nat, n: nat)
    requires 1 <= n <= 2 && n <= pre
    ensures OnAir(pre, bytes, post) == (if n == 1 then FLAG else FLAG + FLAG) + OnAir(pre - n, bytes, post)
  {
    hide FlagBits, Stuff, Bits, Zeros;
    FlagBitsFront(pre);
    if n == 2 {
      FlagBitsFront(pre - 1);
    }
  }

  // ----- a line that stands still -------------------------------------------------------

  // n symbols alike.
  function Still(v: bv8, n: nat): (r: seq<bv8>)
    ensures |r| == n
  {
    seq(n, _ => v)
  }

  lemma StillFirst(v: bv8, n: nat)
    requires n > 0
    ensures Still(v, n)[0] == v && Still(v, n)[1..] == Still(v, n - 1)
  {}

  lemma StillSplit(v: bv8, m: nat, n: nat)
    ensures Still(v, m + n) == Still(v, m) + Still(v, n)
  {}

  // How many ones are at the top of the register, up to seven.
  function Top(reg: bv8): (k: nat)
    ensures k <= 7
  {
    if reg & 0x80 == 0 then 0 else if reg & 0xC0 == 0x80 then 1 else if reg & 0xE0 == 0xC0 then 2 else if reg & 0xF0 == 0xE0 then 3
    else if reg & 0xF8 == 0xF0 then 4 else if reg & 0xFC == 0xF8 then 5 else if reg & 0xFE == 0xFC then 6 else 7
  }

  lemma TopMore(reg: bv8)
    ensures var r := ShiftTop(reg, 1);
      Top(r) == (if Top(reg) == 7 then 7 else Top(reg) + 1) && (SevenOnes(r) <==> Top(r) == 7)
  {}

  // Hunting, with nothing in the register that the line could complete to a flag.
  predicate Resting(s: State, v: bv8) {
    s.phase == NoSync && s.frame == [] && (s.prevBit == v || s.shiftReg == 0)
  }

  // How long it takes until the receiver is hunting, at most.
  function Waits(s: State): nat
    requires s.bits < 8
  {
    match s.phase
    case NoSync => 0
    case InSync => 8 - s.bits + 7
    case Decoding => if Top(s.shiftReg) >= 6 then 1 else 7 - Top(s.shiftReg)
    case FrameEnd => 8 - s.bits
  }

  lemma DecodedOne(s: State, v: bv8)
    requires (v == 0 || v == 1) && s.prevBit == v
    ensures Decode1b(s, v) == s.(shiftReg := ShiftTop(s.shiftReg, 1), decB := ShiftTop(s.decB, 1))
  {
    hide ShiftTop;
  }

  // One more symbol of a line that stands still.
  lemma WaitStep(c: Config, s: State, v: bv8)
    requires Inv(c, s) && (v == 0 || v == 1) && s.prevBit == v && s.phase != NoSync
    ensures var t := Step(c, s, v).0;
      Inv(c, t) && (Resting(t, v) || (t.phase != NoSync && t.prevBit == v && Waits(t) < Waits(s)))
  {
    hide ShiftTop, IsStuffed, SevenOnes, ByteAllowed, FramePublications, DropBit, Replay, Top;
    StepInv(c, s, v);
    DecodedOne(s, v);
    OneIsNoFlag(s.shiftReg);
    TopMore(s.shiftReg);
    if s.phase == InSync {
      ReplayBits(ShiftTop(s.decB, 1), 8);
    }
  }

  lemma RestStep(c: Config, s: State, v: bv8)
    requires Inv(c, s) && (v == 0 || v == 1) && Resting(s, v)
    ensures var (t, p) := Step(c, s, v);
      p == [] && Inv(c, t) && t.phase == NoSync && t.prevBit == v && t.shiftReg == ShiftTop(s.shiftReg, if s.prevBit == v then 1 else 0)
  {
    StepInv(c, s, v);
    OneIsNoFlag(s.shiftReg);
    ZeroMayBeFlag(s.shiftReg);
  }

  lemma {:induction false} RestRun(c: Config, s: State, v: bv8, n: nat)
    requires Inv(c, s) && (v == 0 || v == 1) && Resting(s, v)
    ensures var r := Run(c, s, Still(v, n)); r.1 == [] && Resting(r.0, v) && Inv(c, r.0)
    decreases n
  {
    hide Step, Inv;
    if n > 0 {
      StillFirst(v, n);
      RestStep(c, s, v);
      RestRun(c, Step(c, s, v).0, v, n - 1);
    }
  }

  lemma {:induction false} WaitRun(c: Config, s: State, v: bv8, n: nat)
    requires Inv(c, s) && (v == 0 || v == 1) && s.prevBit == v && (s.phase == NoSync || Waits(s) <= n)
    ensures var r := Run(c, s, Still(v, n)).0; Resting(r, v) && Inv(c, r)
    decreases n
  {
    hide Step, Inv;
    if s.phase == NoSync {
      assert Inv(c, s) && s.frame == [] by { NoFrame(c, s); }
      RestRun(c, s, v, n);
    } else {
      BitsBound(c, s);
      StillFirst(v, n);
      WaitStep(c, s, v);
      var t := Step(c, s, v).0;
      BitsBound(c, t);
      if t.phase == NoSync {
        RestRun(c, t, v, n - 1);
      } else {
        WaitRun(c, t, v, n - 1);
      }
    }
  }

  lemma NoFrame(c: Config, s: State)
    requires Inv(c, s) && s.phase != Decoding
    ensures s.frame == []
  {}

  lemma BitsBound(c: Config, s: State)
    requires Inv(c, s)
    ensures s.bits < 8
  {}

  // Seven ones end any frame: from every state of decoding that can be reached, the receiver is
  // hunting after them.
  lemma AbortResets(c: Config, s: State)
    requires Inv(c, s) && s.phase == Decoding
    ensures var r := Run(c, s, Still(s.prevBit, 7)).0; r.phase == NoSync && Inv(c, r)
  {
    WaitRun(c, s, s.prevBit, 7);
  }

  // The first symbol may be a change; from then on the line stands still.
  lemma StillRests(c: Config, s: State, v: bv8, n: nat)
    requires Inv(c, s) && (v == 0 || v == 1) && n >= 16
    ensures var r := Run(c, s, Still(v, n)).0; Resting(r, v) && Inv(c, r)
  {
    hide Step, Run;
    var t := Step(c, s, v).0;
    FirstStill(c, s, v);
    StillFirst(v, n);
    RunUnfold(c, s, Still(v, n));
    if t.phase == NoSync {
      RestRun(c, t, v, n - 1);
    } else {
      WaitRun(c, t, v, n - 1);
    }
  }

  lemma RunUnfold(c: Config, s: State, symbols: seq<bv8>)
    requires |symbols| > 0
    ensures Run(c, s, symbols).0 == Run(c, Step(c, s, symbols[0]).0, symbols[1..]).0
  {
    hide Step;
  }

  lemma FirstStill(c: Config, s: State, v: bv8)
    requires Inv(c, s) && (v == 0 || v == 1)
    ensures var t := Step(c, s, v).0;
      Inv(c, t) && t.bits < 8 && if t.phase == NoSync then Resting(t, v) else t.prevBit == v
  {
    hide ShiftTop, IsStuffed, SevenOnes, ByteAllowed, FramePublications, DropBit, Replay;
    StepInv(c, s, v);
    LowBitOf(v);
  }

  lemma LowBitOf(v: bv8)
    requires v == 0 || v == 1
    ensures LowBit(v) == v
  {}

  // Once it rests, eight more symbols fill the register with ones.
  lemma {:induction false} OnesFill(c: Config, s: State, v: bv8, k: nat, n: nat)
    requires Inv(c, s) && (v == 0 || v == 1) && s.phase == NoSync && s.prevBit == v && k <= 7 && Top(s.shiftReg) >= k && k + n >= 7
    ensures var r := Run(c, s, Still(v, n)).0; r.phase == NoSync && r.prevBit == v && Top(r.shiftReg) == 7 && Inv(c, r)
    decreases n
  {
    hide Step, Inv, Top, ShiftTop;
    if n > 0 {
      StillFirst(v, n);
      NoFrame(c, s);
      RestStep(c, s, v);
      TopMore(s.shiftReg);
      OnesFill(c, Step(c, s, v).0, v, if k == 7 then 7 else k + 1, n - 1);
    } else {
      TopBound(s.shiftReg);
    }
  }

  lemma TopBound(reg: bv8)
    ensures Top(reg) <= 7
  {}

  // A line that stands still for 24 symbols brings every state to the same end.
  lemma StillSettles(c: Config, s: State, v: bv8, n: nat)
    requires Inv(c, s) && (v == 0 || v == 1) && n >= 24
    ensures var r := Run(c, s, Still(v, n)).0;
      r.phase == NoSync && r.frame == [] && r.prevBit == v && r.shiftReg & 0xFE != 0xFC && Inv(c, r)
  {
    hide Step, Inv, Top, Run, Resting;
    StillRests(c, s, v, 16);
    var t := Run(c, s, Still(v, 16)).0;
    StillSplit(v, 16, n - 16);
    RunConcat(c, s, Still(v, 16), Still(v, n - 16));
    RestStep(c, t, v);
    StillFirst(v, n - 16);
    RunUnfold(c, t, Still(v, n - 16));
    var u := Step(c, t, v).0;
    OnesFill(c, u, v, 0, n - 17);
    var r := Run(c, u, Still(v, n - 17)).0;
    NoFrame(c, r);
    SevenIsNotSix(r.shiftReg);
  }

  lemma SevenIsNotSix(reg: bv8)
    requires Top(reg) == 7
    ensures reg & 0xFE != 0xFC
  {}

  // ----- frames after anything ----------------------------------------------------------

  // From any state of hunting, all frames of a stream are received if the first comes after three
  // flags, or after two and the receiver is not misled.
  lemma StreamWhileHunting(c: Config, s: State, pre: nat, post: nat, addr: seq<bv8>, infos: seq<seq<bv8>>)
    requires Inv(c, s) && s.phase == NoSync && |infos| > 0
    requires post > 0 && AddressField(addr) && (pre >= 3 || (pre == 2 && !Misled(s, false)))
    requires forall i :: 0 <= i < |infos| ==> |infos[i]| + 18 < c.maxFrameLen
    ensures Run(c, s, AsBytes(StreamSymbols(pre, post, addr, infos))) == (INITIAL, ExpectedPdus(c, addr, infos))
  {
    hide Run, Step, FrameSymbols, AddressField, Inv, Misled, OnAir, FrameBytes, FramePublications, Acceptable, ExpectedPdu, ExpectedPdus, OnLine, AsBytes;
    var a, b := FrameSymbols(pre, post, addr, infos[0]), StreamSymbols(pre, post, addr, infos[1..]);
    NoFrame(c, s);
    OnSomeLine(c, s);
    FrameIsGood(c, addr, infos[0]);
    FrameWhileHunting(c, s, false, pre, post, FrameBytes(addr, infos[0]));
    FrameOnAir(c, s, pre, post, addr, infos[0]);
    StreamRoundTrip(c, pre, post, addr, infos[1..]);
    BytesOfBoth(a, b);
    RunConcat(c, s, AsBytes(a), AsBytes(b));
    FirstPdu(c, addr, infos);
  }

  lemma BytesOfBoth(a: seq<bool>, b: seq<bool>)
    ensures AsBytes(a + b) == AsBytes(a) + AsBytes(b)
  {}

  lemma FirstPdu(c: Config, addr: seq<bv8>, infos: seq<seq<bv8>>)
    requires |infos| > 0
    ensures ExpectedPdus(c, addr, infos) == [ExpectedPdu(c, addr, infos[0])] + ExpectedPdus(c, addr, infos[1..])
  {}

  lemma OnSomeLine(c: Config, s: State)
    requires Inv(c, s)
    ensures OnLine(s, false) || OnLine(s, true)
  {}

  lemma FrameOnAir(c: Config, s: State, pre: nat, post: nat, addr: seq<bv8>, info: seq<bv8>)
    ensures Run(c, s, AsBytes(FrameSymbols(pre, post, addr, info))) == RunBits(c, s, false, OnAir(pre, FrameBytes(addr, info), post))
  {
    hide Run, FlagBits, Stuff, Bits, FrameBytes, Zeros, Nrzi;
  }

  // Whatever came before, once the line has stood still for 24 symbols all frames are received,
  // and nothing else is published.
  lemma RecoversFromStill(c: Config, input: seq<bv8>, v: bv8, n: nat, pre: nat, post: nat, addr: seq<bv8>, infos: seq<seq<bv8>>)
    requires (v == 0 || v == 1) && n >= 24 && pre >= 2 && post > 0 && AddressField(addr) && |infos| > 0
    requires forall i :: 0 <= i < |infos| ==> |infos[i]| + 18 < c.maxFrameLen
    ensures var before, frames := input + Still(v, n), AsBytes(StreamSymbols(pre, post, addr, infos));
      Run(c, INITIAL, before + frames) == (INITIAL, Run(c, INITIAL, before).1 + ExpectedPdus(c, addr, infos))
  {
    hide Run, Step, StreamSymbols, AddressField, Inv;
    StartIsSafe(c);
    RunSafe(c, INITIAL, input);
    var s := Run(c, INITIAL, input).0;
    StillSettles(c, s, v, n);
    RunConcat(c, INITIAL, input, Still(v, n));
    var t := Run(c, INITIAL, input + Still(v, n)).0;
    StreamWhileHunting(c, t, pre, post, addr, infos);
    RunConcat(c, INITIAL, input + Still(v, n), AsBytes(StreamSymbols(pre, post, addr, infos)));
  }

  lemma StartIsSafe(c: Config)
    ensures Inv(c, INITIAL)
  {}

  // Whatever came before, a frame that is broken off by seven or more ones takes nothing from the
  // frames that follow after three flags.
  lemma RecoversFromAbort(c: Config, input: seq<bv8>, n: nat, pre: nat, post: nat, addr: seq<bv8>, infos: seq<seq<bv8>>)
    requires Run(c, INITIAL, input).0.phase == Decoding && n >= 7 && pre >= 3 && post > 0 && AddressField(addr) && |infos| > 0
    requires forall i :: 0 <= i < |infos| ==> |infos[i]| + 18 < c.maxFrameLen
    ensures var before, frames := input + Still(Run(c, INITIAL, input).0.prevBit, n), AsBytes(StreamSymbols(pre, post, addr, infos));
      Run(c, INITIAL, before + frames) == (INITIAL, Run(c, INITIAL, before).1 + ExpectedPdus(c, addr, infos))
  {
    hide Run, Step, StreamSymbols, AddressField, Inv;
    StartIsSafe(c);
    RunSafe(c, INITIAL, input);
    var s := Run(c, INITIAL, input).0;
    BitsBound(c, s);
    PrevIsBit(c, s);
    WaitRun(c, s, s.prevBit, n);
    RunConcat(c, INITIAL, input, Still(s.prevBit, n));
    var t := Run(c, INITIAL, input + Still(s.prevBit, n)).0;
    StreamWhileHunting(c, t, pre, post, addr, infos);
    RunConcat(c, INITIAL, input + Still(s.prevBit, n), AsBytes(StreamSymbols(pre, post, addr, infos)));
  }

  lemma PrevIsBit(c: Config, s: State)
    requires Inv(c, s)
    ensures s.prevBit == 0 || s.prevBit == 1
  {}

  // Two flags can be too few: when the line has stood still for exactly six symbols, a new
  // receiver misses the frame after them.
  lemma SixOnesMislead(c: Config, post: nat, addr: seq<bv8>, info: seq<bv8>)
    requires post > 0 && AddressField(addr) && |info| + 18 < c.maxFrameLen
    ensures Run(c, INITIAL, Still(0, 6) + AsBytes(FrameSymbols(2, post, addr, info))).1 == []
  {
    hide Run, Step, FrameSymbols, AddressField, OnAir, FrameBytes, FramePublications, Acceptable;
    SixOnes0(c);
    var s := Run(c, INITIAL, Still(0, 6)).0;
    FrameIsGood(c, addr, info);
    FrameWhileHunting(c, s, false, 2, post, FrameBytes(addr, info));
    FrameOnAir(c, s, 2, post, addr, info);
    RunConcat(c, INITIAL, Still(0, 6), AsBytes(FrameSymbols(2, post, addr, info)));
  }

  lemma SixOnes0(c: Config)
    ensures var r := Run(c, INITIAL, Still(0, 6));
      r.1 == [] && r.0.phase == NoSync && r.0.frame == [] && Misled(r.0, false)
  {
    hide Run, Step, ShiftTop;
    FlagRegisters();
    StillFirst(0, 6); StillFirst(0, 5); StillFirst(0, 4); StillFirst(0, 3); StillFirst(0, 2); StillFirst(0, 1);
    var r1, r2, r3 := Ones(0x80), Ones(0xC0), Ones(0xE0);
    var r4, r5, r6 := Ones(0xF0), Ones(0xF8), Ones(0xFC);
    OneMore(c, INITIAL, r1); OneMore(c, r1, r2); OneMore(c, r2, r3); OneMore(c, r3, r4); OneMore(c, r4, r5); OneMore(c, r5, r6);
    assert Still(0, 0) == [];
    QuietRun(c, r6, 0); QuietRun(c, r5, 1); QuietRun(c, r4, 2); QuietRun(c, r3, 3); QuietRun(c, r2, 4); QuietRun(c, r1, 5); QuietRun(c, INITIAL, 6);
  }

  function Ones(reg: bv8): State {
    State(NoSync, reg, reg, 0, 0, [])
  }

  lemma OneMore(c: Config, s: State, t: State)
    requires s == Ones(s.shiftReg) && t == Ones(ShiftTop(s.shiftReg, 1))
    ensures Step(c, s, 0) == (t, [])
  {
    OneIsNoFlag(s.shiftReg);
  }

  lemma QuietRun(c: Config, s: State, n: nat)
    ensures n == 0 ==> Run(c, s, Still(0, n)) == (s, [])
    ensures n > 0 && Step(c, s, 0).1 == [] ==> Run(c, s, Still(0, n)) == Run(c, Step(c, s, 0).0, Still(0, n - 1))
  {
    hide Step;
    if n > 0 {
      StillFirst(0, n);
      var p := Run(c, Step(c, s, 0).0, Still(0, n - 1)).1;
      assert [] + p == p;
    }
  }

  // ----- frames that are not taken ------------------------------------------------------

  // Byte j is the first that the receiver cannot take: it is not allowed in its place, or with it
  // the frame is as long as the buffer.
  predicate RefusedAt(c: Config, bytes: seq<bv8>, j: nat) {
    1 <= j < |bytes| && j < c.maxFrameLen && (forall i :: 0 <= i < j ==> ByteAllowed(bytes[i], i)) &&
    (!ByteAllowed(bytes[j], j) || j + 1 == c.maxFrameLen)
  }

  function Refusal(bytes: seq<bv8>, j: nat): seq<Publication>
  {
    if j < |bytes| && ByteAllowed(bytes[j], j) then [FailedPdu(bytes[..j + 1])] else []
  }

  // The bit that completes the byte.
  lemma RefusingBit(c: Config, s: State, level: bool, k: nat, bits: seq<bool>, bytes: seq<bv8>, j: nat)
    requires k <= 4 && InBody(c, s, level, k, bits, bytes) && |bits| > 0 && s.bits == 7 && |s.frame| == j && RefusedAt(c, bytes, j)
    ensures s.frame == bytes[..j]
    ensures Step(c, s, AsByte(Next(level, bits[0]))) == (INITIAL, Refusal(bytes, j))
  {
    hide ShiftTop, IsStuffed, SevenOnes, DropBit, TopOnes, Tail, Bits, ByteBits, ByteAllowed;
    var b := bits[0];
    DecodedBit(s, level, b);
    if b { TopOneMore(s.shiftReg, k); } else { TopZero(s.shiftReg, k); }
    TailShift(s.decB, b, s.bits);
    var t := Shifted(s, level, b);
    assert Received(s) + bits == Bits(s.frame) + (Tail(s.decB, 7) + [b]) + bits[1..];
    WholeTail(t.decB);
    BitsPrefix(s.frame, t.decB, bits[1..], bytes);
    FramePrefix(s.frame, Tail(s.decB, 7) + bits, bytes);
    assert Bits(s.frame) + (Tail(s.decB, 7) + bits) == Bits(bytes);
    assert bytes[..j] + [bytes[j]] == bytes[..j + 1];
    var frame := t.frame + [t.decB];
    assert frame == bytes[..j + 1];
    assert |frame| == c.maxFrameLen ==> frame[..c.maxFrameLen] == frame;
    RefusedLast(c, bytes, j);
  }

  lemma RefusedLast(c: Config, bytes: seq<bv8>, j: nat)
    requires RefusedAt(c, bytes, j)
    ensures ByteAllowed(bytes[j], j) ==> j + 1 == c.maxFrameLen
  {
    hide ByteAllowed;
  }

  lemma {:induction false} FramePrefix(frame: seq<bv8>, rest: seq<bool>, bytes: seq<bv8>)
    requires Bits(frame) + rest == Bits(bytes)
    ensures |frame| <= |bytes| && frame == bytes[..|frame|]
    decreases |frame|
  {
    hide ByteBits;
    if |frame| > 0 {
      assert |bytes| > 0;
      assert Bits(frame) == ByteBits(frame[0]) + Bits(frame[1..]) && Bits(bytes) == ByteBits(bytes[0]) + Bits(bytes[1..]);
      assert ByteBits(frame[0]) == Bits(bytes)[..8];
      ByteBitsInjective(frame[0], bytes[0]);
      assert Bits(bytes)[8..] == Bits(bytes[1..]) && (Bits(frame) + rest)[8..] == Bits(frame[1..]) + rest;
      FramePrefix(frame[1..], rest, bytes[1..]);
      assert frame == [frame[0]] + frame[1..];
    }
  }

  lemma {:induction false} RefusedRun(c: Config, s: State, level: bool, k: nat, bits: seq<bool>, bytes: seq<bv8>, j: nat) returns (n: nat)
    requires InBody(c, s, level, k, bits, bytes) && RefusedAt(c, bytes, j) && |s.frame| <= j
    ensures n <= |Raw(k, bits)| && RunBits(c, s, level, Raw(k, bits)[..n]) == (INITIAL, Refusal(bytes, j))
    decreases |bits|, k
  {
    hide InBody, RefusedAt, Refusal, Step, RunBits, BodyStep, Level;
    InBodyBound(c, s, level, k, bits, bytes);
    var raw := Raw(k, bits);
    if k == 5 {
      StuffedStep(c, s, level, bits, bytes);
      var s1 := BodyStep(s, level, false, true);
      StuffedFrame(s, level);
      assert raw[1..] == Raw(0, bits);
      var m := RefusedRun(c, s1, !level, 0, bits, bytes, j);
      n := m + 1;
      assert raw[..n][1..] == raw[1..][..m];
      QuietBit(c, s, level, raw[..n], s1);
    } else {
      BitsLeft(c, s, level, k, bits, bytes, j);
      var b := bits[0];
      var k1 := if b then k + 1 else 0;
      assert raw[1..] == Raw(k1, bits[1..]);
      if s.bits == 7 && |s.frame| == j {
        RefusingBit(c, s, level, k, bits, bytes, j);
        n := 1;
        assert raw[..1] == [b] && raw[..1][1..] == [];
        RunBitsFirst(c, s, level, raw[..1]);
        RunBitsNothing(c, INITIAL, Next(level, b));
        assert Refusal(bytes, j) + [] == Refusal(bytes, j);
      } else {
        NotYetRefused(c, s, bytes, j);
        DataStep(c, s, level, k, bits, bytes);
        var s1 := BodyStep(s, level, b, false);
        DataFrame(s, level, b);
        var m := RefusedRun(c, s1, Next(level, b), k1, bits[1..], bytes, j);
        n := m + 1;
        assert raw[..n][1..] == raw[1..][..m];
        QuietBit(c, s, level, raw[..n], s1);
      }
    }
  }

  lemma StuffedFrame(s: State, level: bool)
    ensures BodyStep(s, level, false, true).frame == s.frame
  {}

  lemma DataFrame(s: State, level: bool, b: bool)
    ensures |BodyStep(s, level, b, false).frame| == if s.bits == 7 then |s.frame| + 1 else |s.frame|
  {}

  lemma NotYetRefused(c: Config, s: State, bytes: seq<bv8>, j: nat)
    requires RefusedAt(c, bytes, j) && |s.frame| <= j && !(s.bits == 7 && |s.frame| == j)
    ensures s.bits == 7 && |s.frame| < |bytes| ==> ByteAllowed(bytes[|s.frame|], |s.frame|) && |s.frame| + 1 < c.maxFrameLen
  {
    hide ByteAllowed;
  }

  lemma BitsLeft(c: Config, s: State, level: bool, k: nat, bits: seq<bool>, bytes: seq<bv8>, j: nat)
    requires InBody(c, s, level, k, bits, bytes) && RefusedAt(c, bytes, j) && |s.frame| <= j
    ensures |bits| > 0
  {
    hide Bits, Tail, ByteAllowed, TopOnes;
  }

  // A frame with such a byte is given up as soon as that byte is complete: without a word if the
  // byte is not allowed, and as failed if it fills the buffer.
  lemma FrameRefused(c: Config, pre: nat, bytes: seq<bv8>, j: nat) returns (n: nat)
    requires pre > 0 && RefusedAt(c, bytes, j)
    ensures n <= |Stuff(0, Bits(bytes))|
    ensures RunBits(c, INITIAL, false, FlagBits(pre) + Stuff(0, Bits(bytes))[..n]) == (INITIAL, Refusal(bytes, j))
  {
    hide RunBits, Counting, Level, Bits, ByteBits, Raw, Stuff, InBody, Replay, MatchesReplay, ByteOf, FlagBits, RefusedAt, Refusal, FirstByteFits;
    Preamble(c, pre);
    var s, level := RunBits(c, INITIAL, false, FlagBits(pre)).0, Level(false, FlagBits(pre));
    var bits := Bits(bytes);
    var raw := Raw(0, bits);
    RefusedLength(c, bytes, j);
    RawIsStuff(0, bits);
    StuffLength(0, bits);
    var first, rest := raw[..8], raw[8..];
    var tmp := ByteOf(first);
    ByteOfBits(first);
    FirstByteIsNoFlag(bits, tmp);
    CountedByte(c, s, InSync, level, tmp);
    ReplayIsDecoding(c, level, bytes, tmp, 8);
    var l8 := Level(level, first);
    var t := RunBits(c, BodyStart(level), level, first).0;
    var q := Position(0, bits, 8);
    EntersAsReplayed(c, t, l8, tmp, q.0, q.1, bytes);
    OneByteAtMost(t, tmp);
    var m := RefusedRun(c, t, l8, q.0, q.1, bytes, j);
    n := m + 8;
    assert raw[..n] == first + rest[..m];
    RunBitsConcat(c, s, level, first, rest[..m]);
    RunBitsConcat(c, INITIAL, false, FlagBits(pre), raw[..n]);
    assert [] + ([] + Refusal(bytes, j)) == Refusal(bytes, j);
  }

  lemma RefusedLength(c: Config, bytes: seq<bv8>, j: nat)
    requires RefusedAt(c, bytes, j)
    ensures |bytes| >= 2 && 1 <= j && FirstByteFits(c, bytes)
  {
    hide ByteAllowed;
  }

  lemma OneByteAtMost(t: State, tmp: bv8)
    requires MatchesReplay(t, Replay(tmp, 8))
    ensures |t.frame| <= 1
  {
    hide Replay;
  }
}
