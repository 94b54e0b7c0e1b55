/** ax25_decoder_bm_impl: the four-state bit-level receiver (the unscrambled branch).
    Step is one input symbol; the class is the block itself, whose calls are proved
    to be runs of Step. The two output ports are one log of publications. */
module Ax25Decoder {
  import opened Ax25Fcs
  import opened Ax25Frame

  datatype Phase = NoSync | InSync | Decoding | FrameEnd

  // WrappedPdu: a good frame too short for the headers that are cut off, so that
  // the unsigned length of the published blob wraps around.
  datatype Publication = Pdu(bytes: seq<bv8>) | FailedPdu(bytes: seq<bv8>) | WrappedPdu

  datatype Config = Config(maxFrameLen: nat, stripHeaders: bool)

  // frame: the bytes received so far; bits: how many bits of the next one.
  datatype State = State(phase: Phase, shiftReg: bv8, decB: bv8, prevBit: bv8, bits: nat, frame: seq<bv8>)

  const INITIAL := State(NoSync, 0, 0, 0, 0, [])

  function ShiftTop(reg: bv8, bit: bv8): bv8
  {
    (reg >> 1) | (bit << 7)
  }

  predicate IsStuffed(reg: bv8)
  {
    reg & 0xFC == 0x7C
  }

  predicate SevenOnes(reg: bv8)
  {
    reg & 0xFE == 0xFE
  }

  function DropBit(b: bv8): bv8
  {
    b << 1
  }

  function LowBit(b: bv8): bv8
  {
    b & 1
  }

  // decode_1b: NRZI, then the bit goes into both registers.
  function Decode1b(s: State, symbol: bv8): State
  {
    var line := LowBit(symbol);
    var bit := if line == s.prevBit then 1 else 0;
    s.(shiftReg := ShiftTop(s.shiftReg, bit), decB := ShiftTop(s.decB, bit), prevBit := line)
  }

  function EnterSync(s: State): State
  {
    State(InSync, 0, 0, s.prevBit, 0, [])
  }

  datatype Replayed = Replayed(shiftReg: bv8, decB: bv8, bits: nat)

  // One of the eight rounds of enter_decoding_state.
  function ReplayBit(tmp: bv8, i: nat, r: Replayed): Replayed
    requires i < 8
  {
    var bit := (tmp >> i) & 1;
    var reg, b := ShiftTop(r.shiftReg, bit), ShiftTop(r.decB, bit);
    if IsStuffed(reg) then Replayed(reg, DropBit(b), r.bits) else Replayed(reg, b, r.bits + 1)
  }

  function Replay(tmp: bv8, n: nat): Replayed
    requires n <= 8
  {
    if n == 0 then Replayed(0, 0, 0) else ReplayBit(tmp, n - 1, Replay(tmp, n - 1))
  }

  // The first byte after the flags may already hold a stuffed bit.
  function EnterDecoding(s: State): State
  {
    var r := Replay(s.decB, 8);
    if r.bits == 8 then State(Decoding, r.shiftReg, r.decB, s.prevBit, 0, [r.decB])
    else State(Decoding, r.shiftReg, r.decB, s.prevBit, r.bits, [])
  }

  function RecvFcs(high: bv8, low: bv8): bv16
  {
    ((high as bv16) << 8) | (low as bv16)
  }

  // ax25_get_addr_length, as far as the received bytes go.
  function HeaderLength(frame: seq<bv8>): nat
    requires |frame| >= 16
  {
    (if LowBit(frame[13]) == 1 then 14 else if |frame| > 20 && LowBit(frame[20]) == 1 then 21 else 28) + 2
  }

  predicate GoodFcs(frame: seq<bv8>)
    requires |frame| >= 2
  {
    var n := |frame| - 2;
    Fcs(frame[..n]) == RecvFcs(frame[n + 1], frame[n])
  }

  function FramePublications(c: Config, frame: seq<bv8>): seq<Publication>
  {
    if |frame| < 16 then []
    else
      var n := |frame| - 2;
      if !GoodFcs(frame) then [FailedPdu(frame[..n])]
      else
        var offset := if c.stripHeaders then HeaderLength(frame) else 0;
        if offset <= n then [Pdu(frame[offset..n])] else [WrappedPdu]
  }

  function EnterFrameEnd(s: State): State
  {
    State(FrameEnd, 0, 0, s.prevBit, 0, [])
  }

  // check_byte, for the byte that would be number n.
  predicate ByteAllowed(b: bv8, n: nat)
  {
    if n < MIN_ADDR_LEN - 1 then LowBit(b) != 1
    else if n == MIN_ADDR_LEN - 1 then LowBit(b) == 1
    else true
  }

  function Step(c: Config, s: State, symbol: bv8): (State, seq<Publication>)
  {
    var t := Decode1b(s, symbol);
    match t.phase
    case NoSync =>
      if t.shiftReg == SYNC_FLAG then (EnterSync(t), []) else (t, [])
    case InSync =>
      var u := t.(bits := t.bits + 1);
      if u.bits == 8 then
        if u.shiftReg != SYNC_FLAG then (EnterDecoding(u), []) else (u.(bits := 0), [])
      else (u, [])
    case Decoding =>
      if t.shiftReg == SYNC_FLAG then (EnterFrameEnd(t), FramePublications(c, t.frame))
      else if IsStuffed(t.shiftReg) then (t.(decB := DropBit(t.decB)), [])
      else if SevenOnes(t.shiftReg) then (INITIAL, [])
      else DataBit(c, t)
    case FrameEnd =>
      var u := t.(bits := t.bits + 1);
      if u.bits == 8 then
        if u.shiftReg != SYNC_FLAG then (INITIAL, []) else (u.(bits := 0), [])
      else (u, [])
  }

  // A bit of the frame has been shifted in.
  function DataBit(c: Config, t: State): (State, seq<Publication>)
  {
    var u := t.(bits := t.bits + 1);
    if u.bits == 8 then
      if !ByteAllowed(u.decB, |u.frame|) then (INITIAL, [])
      else
        var frame := u.frame + [u.decB];
        if |frame| >= c.maxFrameLen then (INITIAL, [FailedPdu(frame[..c.maxFrameLen])])
        else (u.(bits := 0, frame := frame), [])
    else (u, [])
  }

  function Run(c: Config, s: State, symbols: seq<bv8>): (State, seq<Publication>)
    decreases |symbols|
  {
    if |symbols| == 0 then (s, [])
    else
      var (s1, p1) := Step(c, s, symbols[0]);
      var (s2, p2) := Run(c, s1, symbols[1..]);
      (s2, p1 + p2)
  }

  // Any cut of the input gives the same final state and the same publications.
  lemma {:induction false} RunConcat(c: Config, s: State, a: seq<bv8>, b: seq<bv8>)
    ensures Run(c, s, a + b)
         == (Run(c, Run(c, s, a).0, b).0, Run(c, s, a).1 + Run(c, Run(c, s, a).0, b).1)
    decreases |a|
  {
    hide Step;
    if |a| == 0 {
      assert a + b == b;
      assert [] + Run(c, s, b).1 == Run(c, s, b).1;
    } else {
      assert (a + b)[1..] == a[1..] + b;
      var (s1, p1) := Step(c, s, a[0]);
      RunConcat(c, s1, a[1..], b);
      var (s2, p2) := Run(c, s1, a[1..]);
      assert Run(c, s, a) == (s2, p1 + p2);
      assert p1 + p2 + Run(c, s2, b).1 == p1 + (p2 + Run(c, s2, b).1);
    }
  }

  // ----- what every reachable state satisfies ---------------------------------------

  predicate Inv(c: Config, s: State)
  {
    s.bits < 8 &&
    (s.prevBit == 0 || s.prevBit == 1) &&
    (s.phase != Decoding ==> s.frame == []) &&
    (|s.frame| < c.maxFrameLen || |s.frame| <= 1) &&
    AddressChecked(s.frame)
  }

  // The first byte can come in unchecked; every later one has passed check_byte.
  predicate AddressChecked(frame: seq<bv8>)
  {
    forall i :: 1 <= i < |frame| ==> ByteAllowed(frame[i], i)
  }

  // A frame handed out on the good port.
  predicate GoodFrame(c: Config, frame: seq<bv8>)
  {
    16 <= |frame| < c.maxFrameLen && GoodFcs(frame) && LowBit(frame[13]) == 1 && AddressChecked(frame)
  }

  // Where a publication can come from.
  ghost predicate Justified(c: Config, p: Publication)
  {
    match p
    case Pdu(bytes) =>
      exists frame :: GoodFrame(c, frame) && bytes == Payload(c, frame)
    case FailedPdu(bytes) =>
      |bytes| <= c.maxFrameLen
    case WrappedPdu =>
      c.stripHeaders && exists frame :: GoodFrame(c, frame) && |frame| < 18
  }

  // What is published of a good frame.
  function Payload(c: Config, frame: seq<bv8>): seq<bv8>
  {
    var offset := if c.stripHeaders then 16 else 0;
    if offset + 2 <= |frame| then frame[offset..|frame| - 2] else []
  }

  lemma LowBitValues(b: bv8)
    ensures LowBit(b) == 0 || LowBit(b) == 1
  {}

  lemma {:induction false} ReplayBits(tmp: bv8, n: nat)
    requires n <= 8
    ensures Replay(tmp, n).bits <= n
  {
    hide ShiftTop, IsStuffed, DropBit;
    if n > 0 {
      ReplayBits(tmp, n - 1);
    }
  }

  // A complete address field ends at byte 13, so the header is 16 bytes.
  lemma HeaderIsSixteen(frame: seq<bv8>)
    requires |frame| >= 16 && AddressChecked(frame)
    ensures LowBit(frame[13]) == 1 && HeaderLength(frame) == 16
  {
    hide LowBit;
    assert ByteAllowed(frame[13], 13);
  }

  lemma FramePublicationsJustified(c: Config, frame: seq<bv8>)
    requires AddressChecked(frame) && (|frame| < c.maxFrameLen || |frame| <= 1)
    ensures |FramePublications(c, frame)| <= 1
    ensures forall p :: p in FramePublications(c, frame) ==> Justified(c, p)
    ensures WrappedPdu in FramePublications(c, frame)
       <==> c.stripHeaders && 16 <= |frame| < 18 && GoodFcs(frame)
  {
    hide LowBit, GoodFcs;
    if |frame| >= 16 {
      HeaderIsSixteen(frame);
      assert GoodFcs(frame) ==> GoodFrame(c, frame);
    }
  }

  lemma FcsJoined(f: bv16)
    ensures RecvFcs(FcsBytes(f)[1], FcsBytes(f)[0]) == f
  {}

  lemma FcsSplit(high: bv8, low: bv8)
    ensures FcsBytes(RecvFcs(high, low)) == [low, high]
  {}

  lemma FcsBytesReceived(f: bv16, high: bv8, low: bv8)
    ensures RecvFcs(high, low) == f <==> FcsBytes(f)[0] == low && FcsBytes(f)[1] == high
  {
    hide RecvFcs, FcsBytes;
    FcsJoined(f);
    FcsSplit(high, low);
  }

  // What is published of a frame: nothing if it is too short; what came before its FCS, as failed,
  // if the FCS is not the one its sender would have put there; and otherwise the same as good, or
  // what comes after the header.
  lemma FrameVerdict(c: Config, frame: seq<bv8>)
    requires AddressChecked(frame)
    ensures |frame| < 16 ==> FramePublications(c, frame) == []
    ensures |frame| >= 16 ==> var content := frame[..|frame| - 2];
      FramePublications(c, frame) ==
        if frame != WithFcs(content) then [FailedPdu(content)]
        else if !c.stripHeaders then [Pdu(content)]
        else if |content| >= 16 then [Pdu(content[16..])] else [WrappedPdu]
  {
    hide Fcs, FcsBytes, RecvFcs, LowBit, AddressChecked;
    if |frame| >= 16 {
      var n := |frame| - 2;
      var content := frame[..n];
      HeaderIsSixteen(frame);
      FcsBytesReceived(Fcs(content), frame[n + 1], frame[n]);
      var sent := WithFcs(content);
      assert frame == content + [frame[n], frame[n + 1]];
      assert sent[n] == FcsBytes(Fcs(content))[0] && sent[n + 1] == FcsBytes(Fcs(content))[1];
      if GoodFcs(frame) {
        assert FcsBytes(Fcs(content)) == [frame[n], frame[n + 1]];
        assert frame == sent;
      } else {
        assert frame != sent;
      }
      assert frame[0..n] == content;
      if |content| >= 16 {
        assert frame[16..n] == content[16..];
      }
    }
  }

  lemma StepInv(c: Config, s: State, symbol: bv8)
    requires Inv(c, s)
    ensures Inv(c, Step(c, s, symbol).0)
    ensures forall p :: p in Step(c, s, symbol).1 ==> Justified(c, p)
  {
    hide ShiftTop, IsStuffed, DropBit, SevenOnes, LowBit, Replay, FramePublications, ByteAllowed, Justified, DataBit;
    LowBitValues(symbol);
    var t := Decode1b(s, symbol);
    ReplayBits(t.decB, 8);
    if s.phase == Decoding {
      FramePublicationsJustified(c, t.frame);
      DataBitInv(c, t);
    }
  }

  lemma DataBitInv(c: Config, t: State)
    requires Inv(c, t) && t.phase == Decoding
    ensures Inv(c, DataBit(c, t).0)
    ensures forall p :: p in DataBit(c, t).1 ==> Justified(c, p)
  {
    hide LowBit, ByteAllowed, Justified;
    if t.bits + 1 == 8 && |t.frame| + 1 >= c.maxFrameLen {
      FailedJustified(c, (t.frame + [t.decB])[..c.maxFrameLen]);
    }
  }

  lemma FailedJustified(c: Config, bytes: seq<bv8>)
    requires |bytes| <= c.maxFrameLen
    ensures Justified(c, FailedPdu(bytes))
  {}

  // Safety on arbitrary input: the invariant holds in every reachable state and every
  // publication is justified.
  lemma {:induction false} RunSafe(c: Config, s: State, symbols: seq<bv8>)
    requires Inv(c, s)
    ensures Inv(c, Run(c, s, symbols).0)
    ensures forall p :: p in Run(c, s, symbols).1 ==> Justified(c, p)
    decreases |symbols|
  {
    hide Step, Inv, Justified;
    if |symbols| > 0 {
      StepInv(c, s, symbols[0]);
      RunSafe(c, Step(c, s, symbols[0]).0, symbols[1..]);
    }
  }

  lemma RunOne(c: Config, s: State, symbols: seq<bv8>, i: nat)
    requires i < |symbols|
    ensures Run(c, s, symbols[..i + 1])
         == (Step(c, Run(c, s, symbols[..i]).0, symbols[i]).0,
             Run(c, s, symbols[..i]).1 + Step(c, Run(c, s, symbols[..i]).0, symbols[i]).1)
  {
    hide Step;
    assert symbols[..i + 1] == symbols[..i] + [symbols[i]];
    RunConcat(c, s, symbols[..i], [symbols[i]]);
    var s1 := Run(c, s, symbols[..i]).0;
    var (s2, p2) := Step(c, s1, symbols[i]);
    assert [symbols[i]][1..] == [];
    assert Run(c, s1, [symbols[i]]) == (s2, p2 + []);
    assert p2 + [] == p2;
  }

  // ----- the block -----------------------------------------------------------------

  class Decoder {
    const maxFrameLen: nat
    const stripHeaders: bool
    var state: Phase
    var shiftReg: bv8
    var decB: bv8
    var prevBitNrzi: bv8
    var receivedBytes: nat
    var decodedBits: nat
    const frameBuffer: array<bv8>
    var published: seq<Publication>

    ghost function Cfg(): Config
    {
      Config(maxFrameLen, stripHeaders)
    }

    ghost predicate Fits()
      reads this
    {
      frameBuffer.Length == maxFrameLen + MAX_ADDR_LEN + 4 && receivedBytes <= frameBuffer.Length
    }

    ghost function Abs(): State
      requires Fits()
      reads this, frameBuffer
    {
      State(state, shiftReg, decB, prevBitNrzi, decodedBits, frameBuffer[..receivedBytes])
    }

    ghost predicate Valid()
      reads this, frameBuffer
    {
      Fits() && Inv(Cfg(), Abs())
    }

    constructor (maxLen: nat, strip: bool)
      ensures Valid() && fresh(frameBuffer) && Cfg() == Config(maxLen, strip)
      ensures Abs() == INITIAL && published == []
    {
      maxFrameLen, stripHeaders := maxLen, strip;
      state, shiftReg, decB, prevBitNrzi := NoSync, 0, 0, 0;
      receivedBytes, decodedBits := 0, 0;
      frameBuffer := new bv8[maxLen + MAX_ADDR_LEN + 4];
      published := [];
    }

    method ResetState()
      requires Fits()
      modifies this
      ensures Fits() && Abs() == INITIAL && published == old(published)
    {
      state, decB, shiftReg := NoSync, 0, 0;
      decodedBits, receivedBytes, prevBitNrzi := 0, 0, 0;
    }

    method DoDecode1b(symbol: bv8)
      requires Fits()
      modifies this
      ensures Fits() && Abs() == Decode1b(old(Abs()), symbol) && published == old(published)
    {
      var line := LowBit(symbol);
      var decBit: bv8 := if line == prevBitNrzi then 1 else 0;
      prevBitNrzi := line;
      shiftReg := ShiftTop(shiftReg, decBit);
      decB := ShiftTop(decB, decBit);
    }

    method ReplayRound(tmp: bv8, i: nat)
      requires i < 8
      modifies this`shiftReg, this`decB, this`decodedBits
      ensures Replayed(shiftReg, decB, decodedBits) == ReplayBit(tmp, i, old(Replayed(shiftReg, decB, decodedBits)))
    {
      hide ShiftTop, IsStuffed, DropBit;
      shiftReg := ShiftTop(shiftReg, (tmp >> i) & 1);
      decB := ShiftTop(decB, (tmp >> i) & 1);
      if IsStuffed(shiftReg) {
        decB := DropBit(decB);
      } else {
        decodedBits := decodedBits + 1;
      }
    }

    method DoEnterDecoding()
      requires Fits() && maxFrameLen + MAX_ADDR_LEN > 0
      modifies this, frameBuffer
      ensures Fits() && Abs() == EnterDecoding(old(Abs())) && published == old(published)
    {
      hide ReplayBit;
      state, decodedBits, shiftReg := Decoding, 0, 0;
      var tmp := decB;
      decB := 0;
      for i := 0 to 8
        invariant Fits() && state == Decoding && prevBitNrzi == old(prevBitNrzi) && published == old(published)
        invariant Replayed(shiftReg, decB, decodedBits) == Replay(tmp, i)
      {
        ReplayRound(tmp, i);
      }
      if decodedBits == 8 {
        frameBuffer[0] := decB;
        decodedBits, receivedBytes := 0, 1;
        assert frameBuffer[..1] == [decB];
      } else {
        receivedBytes := 0;
      }
    }

    // pmt::make_blob of the received bytes without the FCS, less the headers.
    method PublishGood()
      requires Valid() && receivedBytes >= 16 && GoodFcs(frameBuffer[..receivedBytes])
      modifies this`published
      ensures published == old(published) + FramePublications(Cfg(), frameBuffer[..receivedBytes])
    {
      hide GoodFcs, LowBit;
      HeaderIsSixteen(frameBuffer[..receivedBytes]);
      var offset := 0;
      if stripHeaders {
        offset := AddrLength(frameBuffer[..]);
        assert LowBit(frameBuffer[13]) == 1;
        assert offset == 14 by { AddrTerminated(frameBuffer[..]); }
        offset := offset + 2;
      }
      if offset + 2 <= receivedBytes {
        published := published + [Pdu(frameBuffer[offset..receivedBytes - 2])];
        assert frameBuffer[offset..receivedBytes - 2] == frameBuffer[..receivedBytes][offset..receivedBytes - 2];
      } else {
        published := published + [WrappedPdu];
      }
    }

    lemma AddrTerminated(buffer: seq<bv8>)
      requires MAX_ADDR_LEN <= |buffer| && LowBit(buffer[13]) == 1
      ensures AddrLength(buffer) == 14
    {}

    method DoEnterFrameEnd()
      requires Valid()
      modifies this
      ensures Fits() && Abs() == EnterFrameEnd(old(Abs()))
      ensures published == old(published) + FramePublications(Cfg(), old(frameBuffer[..receivedBytes]))
    {
      hide Fcs, RecvFcs, Inv, HeaderLength;
      if receivedBytes < MIN_ADDR_LEN + 2 {
        decB, shiftReg, decodedBits, receivedBytes, state := 0, 0, 0, 0, FrameEnd;
        return;
      }
      var fcs := ComputeFcs(frameBuffer, 0, receivedBytes - 2);
      assert frameBuffer[0..0 + (receivedBytes - 2)] == frameBuffer[..receivedBytes][..receivedBytes - 2];
      var recvFcs := RecvFcs(frameBuffer[receivedBytes - 1], frameBuffer[receivedBytes - 2]);
      if fcs == recvFcs {
        PublishGood();
      } else {
        published := published + [FailedPdu(frameBuffer[..receivedBytes - 2])];
        assert frameBuffer[..receivedBytes - 2] == frameBuffer[..receivedBytes][..receivedBytes - 2];
      }
      decB, shiftReg, decodedBits, receivedBytes, state := 0, 0, 0, 0, FrameEnd;
    }

    // One round of the loop of the DECODING case; done: the state was left.
    method DecodingRound(symbol: bv8) returns (done: bool)
      requires Valid() && state == Decoding
      modifies this, frameBuffer
      ensures Valid()
      ensures (Abs(), published) == (Step(Cfg(), old(Abs()), symbol).0, old(published) + Step(Cfg(), old(Abs()), symbol).1)
      ensures done <==> state != Decoding
    {
      hide ShiftTop, IsStuffed, SevenOnes, DropBit, LowBit, FramePublications, Justified, AddressChecked;
      StepInv(Cfg(), Abs(), symbol);
      assert published + [] == published;
      DoDecode1b(symbol);
      done := true;
      if shiftReg == SYNC_FLAG {
        assert Inv(Cfg(), Abs()) by { LowBitValues(symbol); }
        DoEnterFrameEnd();
      } else if IsStuffed(shiftReg) {
        decB := DropBit(decB);
        done := false;
      } else if SevenOnes(shiftReg) {
        ResetState();
      } else {
        done := DataBitRound();
      }
    }

    // The last branch: one more bit, and perhaps one more byte, of the frame.
    method DataBitRound() returns (done: bool)
      requires Fits() && state == Decoding && decodedBits < 8 && (receivedBytes < maxFrameLen || receivedBytes <= 1)
      modifies this, frameBuffer
      ensures Fits()
      ensures (Abs(), published) == (DataBit(Cfg(), old(Abs())).0, old(published) + DataBit(Cfg(), old(Abs())).1)
      ensures done <==> state != Decoding
    {
      hide LowBit, ByteAllowed;
      assert published + [] == published;
      done := false;
      decodedBits := decodedBits + 1;
      if decodedBits == 8 {
        if !ByteAllowed(decB, receivedBytes) {
          ResetState();
          return true;
        }
        ghost var before := frameBuffer[..receivedBytes];
        frameBuffer[receivedBytes] := decB;
        receivedBytes := receivedBytes + 1;
        assert frameBuffer[..receivedBytes] == before + [decB];
        decodedBits := 0;
        if receivedBytes >= maxFrameLen {
          published := published + [FailedPdu(frameBuffer[..maxFrameLen])];
          assert frameBuffer[..maxFrameLen] == frameBuffer[..receivedBytes][..maxFrameLen];
          ResetState();
          return true;
        }
      }
    }

    // decode: consumes symbols up to the next change of state, or all of them.
    method Decode(input: seq<bv8>) returns (consumed: nat)
      requires Valid()
      modifies this, frameBuffer
      ensures Valid() && consumed <= |input| && (|input| > 0 ==> consumed > 0)
      ensures (Abs(), published)
        == (Run(Cfg(), old(Abs()), input[..consumed]).0, old(published) + Run(Cfg(), old(Abs()), input[..consumed]).1)
      ensures consumed < |input| ==> state != old(state)
    {
      hide Step, Inv, Run, Justified;
      RunNothing(Cfg(), Abs(), input[..0]);
      assert published + [] == published;
      ghost var start := Abs();
      var i := 0;
      while i < |input|
        invariant 0 <= i <= |input| && Valid() && state == old(state)
        invariant (Abs(), published) == (Run(Cfg(), start, input[..i]).0, old(published) + Run(Cfg(), start, input[..i]).1)
      {
        RunOne(Cfg(), start, input, i);
        ghost var s, p := Abs(), published;
        var done;
        match state {
          case NoSync => done := NoSyncRound(input[i]);
          case InSync => done := InSyncRound(input[i]);
          case Decoding => done := DecodingRound(input[i]);
          case FrameEnd => done := FrameEndRound(input[i]);
        }
        assert p + Step(Cfg(), s, input[i]).1
            == old(published) + (Run(Cfg(), start, input[..i]).1 + Step(Cfg(), s, input[i]).1);
        i := i + 1;
        if done {
          return i;
        }
      }
      consumed := |input|;
    }

    method NoSyncRound(symbol: bv8) returns (done: bool)
      requires Valid() && state == NoSync
      modifies this, frameBuffer
      ensures Valid()
      ensures (Abs(), published) == (Step(Cfg(), old(Abs()), symbol).0, old(published) + Step(Cfg(), old(Abs()), symbol).1)
      ensures done <==> state != NoSync
    {
      hide ShiftTop, IsStuffed, SevenOnes, DropBit, LowBit, Justified, DataBit, EnterDecoding, FramePublications;
      StepInv(Cfg(), Abs(), symbol);
      assert published + [] == published;
      DoDecode1b(symbol);
      done := false;
      if shiftReg == SYNC_FLAG {
        state, decB, shiftReg, decodedBits, receivedBytes := InSync, 0, 0, 0, 0;
        done := true;
      }
    }

    method InSyncRound(symbol: bv8) returns (done: bool)
      requires Valid() && state == InSync
      modifies this, frameBuffer
      ensures Valid()
      ensures (Abs(), published) == (Step(Cfg(), old(Abs()), symbol).0, old(published) + Step(Cfg(), old(Abs()), symbol).1)
      ensures done <==> state != InSync
    {
      hide ShiftTop, IsStuffed, SevenOnes, DropBit, LowBit, Justified, DataBit, Replay, FramePublications;
      StepInv(Cfg(), Abs(), symbol);
      assert published + [] == published;
      DoDecode1b(symbol);
      done := false;
      decodedBits := decodedBits + 1;
      if decodedBits == 8 {
        if shiftReg != SYNC_FLAG {
          DoEnterDecoding();
          return true;
        }
        decodedBits := 0;
      }
    }

    method FrameEndRound(symbol: bv8) returns (done: bool)
      requires Valid() && state == FrameEnd
      modifies this, frameBuffer
      ensures Valid()
      ensures (Abs(), published) == (Step(Cfg(), old(Abs()), symbol).0, old(published) + Step(Cfg(), old(Abs()), symbol).1)
      ensures done <==> state != FrameEnd
    {
      hide ShiftTop, IsStuffed, SevenOnes, DropBit, LowBit, Justified, DataBit, EnterDecoding, FramePublications;
      StepInv(Cfg(), Abs(), symbol);
      assert published + [] == published;
      DoDecode1b(symbol);
      done := false;
      decodedBits := decodedBits + 1;
      if decodedBits == 8 {
        if shiftReg != SYNC_FLAG {
          ResetState();
          return true;
        }
        decodedBits := 0;
      }
    }

    // The scheduler offers the unconsumed rest again until nothing is left.
    method Feed(input: seq<bv8>)
      requires Valid()
      modifies this, frameBuffer
      ensures Valid()
      ensures (Abs(), published) == (Run(Cfg(), old(Abs()), input).0, old(published) + Run(Cfg(), old(Abs()), input).1)
    {
      hide Run, Inv;
      ghost var start := Abs();
      var i := 0;
      RunNothing(Cfg(), start, input[..0]);
      assert published + [] == published;
      while i < |input|
        invariant 0 <= i <= |input| && Valid()
        invariant (Abs(), published) == (Run(Cfg(), start, input[..i]).0, old(published) + Run(Cfg(), start, input[..i]).1)
      {
        ghost var s := Abs();
        var n := Decode(input[i..]);
        assert input[..i + n] == input[..i] + input[i..][..n];
        RunConcat(Cfg(), start, input[..i], input[i..][..n]);
        assert old(published) + Run(Cfg(), start, input[..i]).1 + Run(Cfg(), s, input[i..][..n]).1
            == old(published) + (Run(Cfg(), start, input[..i]).1 + Run(Cfg(), s, input[i..][..n]).1);
        i := i + n;
      }
      assert input[..i] == input;
    }
  }

  lemma RunNothing(c: Config, s: State, input: seq<bv8>)
    requires input == []
    ensures Run(c, s, input) == (s, [])
  {}
}
