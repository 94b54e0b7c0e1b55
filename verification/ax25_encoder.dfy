/** ax25_encoder_mb_impl: builds and stuffs one frame at a time and hands out its
    NRZI symbols in chunks of any size (the unscrambled branch). */
module Ax25Encoder {
  import opened Ax25Fcs
  import opened Ax25Frame

  // NRZI: a one keeps the line as it is, a zero inverts it.
  function Nrzi(level: bool, bits: seq<bool>): (r: seq<bool>)
    ensures |r| == |bits|
    decreases |bits|
  {
    if |bits| == 0 then []
    else
      var next := if bits[0] then level else !level;
      [next] + Nrzi(next, bits[1..])
  }

  // The level of the line after the bits.
  function Level(level: bool, bits: seq<bool>): bool
    decreases |bits|
  {
    if |bits| == 0 then level else Level(if bits[0] then level else !level, bits[1..])
  }

  lemma {:induction false} NrziConcat(level: bool, a: seq<bool>, b: seq<bool>)
    ensures Nrzi(level, a + b) == Nrzi(level, a) + Nrzi(Level(level, a), b)
    decreases |a|
  {
    if |a| == 0 {
      assert a + b == b;
    } else {
      var next := if a[0] then level else !level;
      assert (a + b)[1..] == a[1..] + b;
      NrziConcat(next, a[1..], b);
    }
  }

  function Zeros(n: nat): (r: seq<bool>)
    ensures |r| == n
  {
    seq(n, i => false)
  }

  // The bytes between the flags of a frame carrying info: control 0, protocol 0xF0.
  function FrameBytes(addr: seq<bv8>, info: seq<bv8>): seq<bv8>
  {
    WithFcs(Content(info, IFrame, addr, [0]))
  }

  // The bits of one frame on air, with the trailing zero byte.
  function FrameBits(pre: nat, post: nat, addr: seq<bv8>, info: seq<bv8>): seq<bool>
  {
    FlagBits(pre) + Stuff(0, Bits(FrameBytes(addr, info))) + FlagBits(post) + Zeros(8)
  }

  function FrameSymbols(pre: nat, post: nat, addr: seq<bv8>, info: seq<bv8>): seq<bool>
  {
    Nrzi(false, FrameBits(pre, post, addr, info))
  }

  function NrziBit(encoded: bv8, level: bv8): bv8
  {
    ((1 & !encoded) + level) % 2
  }

  lemma NrziBitIsNrzi(encoded: bv8, level: bv8)
    requires (encoded == 0 || encoded == 1) && (level == 0 || level == 1)
    ensures NrziBit(encoded, level) == 0 || NrziBit(encoded, level) == 1
    ensures NrziBit(encoded, level) == 1 <==> (if encoded == 1 then level == 1 else level != 1)
  {}

  lemma NrziFirst(level: bool, bits: seq<bool>)
    requires |bits| > 0
    ensures Nrzi(level, bits) == [if bits[0] then level else !level] + Nrzi(if bits[0] then level else !level, bits[1..])
  {}

  lemma HoldsMeans(bytes: seq<bv8>, s: seq<bool>)
    requires Holds(bytes, s)
    ensures ZeroOne(bytes) && AsBools(bytes) == s
  {}

  lemma FrameLength(addr: seq<bv8>, info: seq<bv8>)
    requires |addr| == MIN_ADDR_LEN
    ensures |FrameBytes(addr, info)| == |info| + 18
  {}

  lemma HoldsLength(bytes: seq<bv8>, s: seq<bool>)
    requires Holds(bytes, s)
    ensures |bytes| == |s|
  {}

  // memset of the zero byte, one bit to a byte.
  method AppendZeroByte(frame: array<bv8>, n: nat, ghost s: seq<bool>)
    requires n + 8 <= frame.Length && Holds(frame[..n], s)
    modifies frame
    ensures Holds(frame[..n + 8], s + Zeros(8))
  {
    hide Holds;
    assert s + Zeros(0) == s;
    for j := 0 to 8
      invariant Holds(frame[..n + j], s + Zeros(j))
    {
      ghost var q := frame[..n + j];
      frame[n + j] := 0;
      assert frame[..n + (j + 1)] == q + [0];
      OneBit(0);
      HoldsMore(q, s + Zeros(j), [0], [false]);
      assert s + Zeros(j + 1) == s + Zeros(j) + [false];
    }
  }

  lemma EmitStep(q: seq<bv8>, frame: seq<bv8>, i: nat, level: bv8, all: seq<bool>)
    requires i < |frame| && ZeroOne(frame) && ZeroOne(q) && (level == 0 || level == 1)
    requires AsBools(q) + Nrzi(level == 1, AsBools(frame)[i..]) == all
    ensures var b := NrziBit(frame[i], level);
      (b == 0 || b == 1) && ZeroOne(q + [b]) && AsBools(q + [b]) + Nrzi(b == 1, AsBools(frame)[i + 1..]) == all
  {
    hide Nrzi, NrziBit;
    var bits := AsBools(frame);
    NrziBitIsNrzi(frame[i], level);
    NrziFirst(level == 1, bits[i..]);
    var b := NrziBit(frame[i], level);
    assert AsBools(q + [b]) == AsBools(q) + [b == 1];
    assert bits[i..][1..] == bits[i + 1..];
  }

  class Encoder {
    const preambleLen: nat
    const postambleLen: nat
    const encodedFrame: array<bv8>
    const tmpBuf: array<bv8>
    const addrField: array<bv8>
    var remaining: nat
    var produced: nat
    var prevBit: bv8

    ghost predicate Valid()
      reads this, encodedFrame, tmpBuf, addrField
    {
      encodedFrame != tmpBuf && encodedFrame != addrField && tmpBuf != addrField &&
      encodedFrame.Length == 8 * (preambleLen + postambleLen + 2 * MAX_INFO_LEN) &&
      tmpBuf.Length == preambleLen + postambleLen + 2 * MAX_INFO_LEN &&
      addrField.Length == MAX_ADDR_LEN &&
      (prevBit == 0 || prevBit == 1) &&
      produced + remaining <= encodedFrame.Length &&
      ZeroOne(encodedFrame[produced..produced + remaining])
    }

    // The symbols of the current frame that have not been handed out.
    ghost function Pending(): seq<bool>
      requires Valid()
      reads this, encodedFrame, tmpBuf, addrField
    {
      Nrzi(prevBit == 1, AsBools(encodedFrame[produced..produced + remaining]))
    }

    constructor (dest: seq<bv8>, destSsid: bv8, src: seq<bv8>, srcSsid: bv8, pre: nat, post: nat)
      requires |dest| <= CALLSIGN_MAX_LEN && |src| <= CALLSIGN_MAX_LEN
      ensures Valid() && remaining == 0 && Pending() == []
      ensures fresh(encodedFrame) && fresh(tmpBuf) && fresh(addrField)
      ensures preambleLen == pre && postambleLen == post
      ensures addrField[..MIN_ADDR_LEN] == AddrField(dest, destSsid, src, srcSsid)
    {
      preambleLen, postambleLen := pre, post;
      remaining, produced, prevBit := 0, 0, 0;
      encodedFrame := new bv8[8 * (pre + post + 2 * MAX_INFO_LEN)];
      tmpBuf := new bv8[pre + post + 2 * MAX_INFO_LEN];
      var addr := new bv8[MAX_ADDR_LEN];
      addrField := addr;
      new;
      var _ := CreateAddrField(addr, dest, destSsid, src, srcSsid);
    }

    method Build(info: seq<bv8>, ghost s: seq<bool>) returns (n: nat)
      requires Valid() && |info| <= MAX_INFO_LEN
      requires s == FlagBits(preambleLen) + Stuff(0, Bits(FrameBytes(addrField[..MIN_ADDR_LEN], info))) + FlagBits(postambleLen)
      modifies encodedFrame, tmpBuf
      ensures n + 8 <= encodedFrame.Length && Holds(encodedFrame[..n], s)
    {
      hide Stuff, Bits, WithFcs, Content, ZeroOne, AsBools, Holds, Nrzi, FlagBits, Zeros, Flags;
      ghost var bytes := FrameBytes(addrField[..MIN_ADDR_LEN], info);
      FrameLength(addrField[..MIN_ADDR_LEN], info);
      var len := PrepareFrame(tmpBuf, info, IFrame, addrField[..MIN_ADDR_LEN], [0], preambleLen, postambleLen);
      assert tmpBuf[preambleLen..len - postambleLen] == bytes;
      n := BitStuffing(encodedFrame, tmpBuf, len, preambleLen, postambleLen);
      StuffLength(0, Bits(bytes));
      HoldsLength(encodedFrame[..n], s);
    }

    // The first half of work: take a message and encode it.
    method LoadFrame(info: seq<bv8>)
      requires Valid() && |info| <= MAX_INFO_LEN
      modifies this, encodedFrame, tmpBuf
      ensures Valid() && addrField[..] == old(addrField[..])
      ensures produced == 0 && remaining > 0
      ensures Pending() == FrameSymbols(preambleLen, postambleLen, addrField[..MIN_ADDR_LEN], info)
    {
      hide Stuff, Bits, FrameBytes, ZeroOne, AsBools, Holds, Nrzi, FlagBits, Zeros, Flags;
      ghost var s := FlagBits(preambleLen) + Stuff(0, Bits(FrameBytes(addrField[..MIN_ADDR_LEN], info))) + FlagBits(postambleLen);
      var n := Build(info, s);
      AppendZeroByte(encodedFrame, n, s);
      produced := 0;
      prevBit := 0;
      remaining := n + 8;
      assert encodedFrame[0..n + 8] == encodedFrame[..n + 8];
      HoldsMeans(encodedFrame[..n + 8], s + Zeros(8));
    }

    // One call of work. info is the message that a blocking read returns when the
    // previous frame has been handed out; otherwise it stays in the queue.
    method Work(noutputItems: nat, info: seq<bv8>, out: array<bv8>) returns (n: nat)
      requires Valid() && |info| <= MAX_INFO_LEN && noutputItems <= out.Length
      requires out != encodedFrame && out != tmpBuf && out != addrField
      modifies this, encodedFrame, tmpBuf, out
      ensures Valid() && addrField[..] == old(addrField[..])
      ensures n <= noutputItems && (noutputItems > 0 ==> n > 0) && ZeroOne(out[..n])
      ensures AsBools(out[..n]) + Pending()
        == if old(remaining) == 0 then FrameSymbols(preambleLen, postambleLen, addrField[..MIN_ADDR_LEN], info) else old(Pending())
      ensures remaining == 0 <==> Pending() == []
    {
      hide FrameSymbols, Nrzi;
      if remaining == 0 {
        LoadFrame(info);
      }
      var maxAvail := if remaining < noutputItems then remaining else noutputItems;
      Emit(maxAvail, out);
      n := maxAvail;
    }

    method EmitOne(i: nat, out: array<bv8>)
      requires i + produced < encodedFrame.Length && i < out.Length && out != encodedFrame
      modifies this`prevBit, out
      ensures prevBit == NrziBit(encodedFrame[i + produced], old(prevBit))
      ensures out[..i] == old(out[..i]) && out[i] == prevBit
    {
      out[i] := NrziBit(encodedFrame[i + produced], prevBit);
      prevBit := out[i];
    }

    method Emit(maxAvail: nat, out: array<bv8>)
      requires Valid() && maxAvail <= remaining && maxAvail <= out.Length
      requires out != encodedFrame && out != tmpBuf && out != addrField
      modifies this`remaining, this`produced, this`prevBit, out
      ensures Valid() && remaining == old(remaining) - maxAvail
      ensures ZeroOne(out[..maxAvail])
      ensures AsBools(out[..maxAvail]) + Pending() == old(Pending())
    {
      hide Nrzi, NrziBit, AsBools, ZeroOne;
      ghost var frame := encodedFrame[produced..produced + remaining];
      ghost var all := Pending();
      EmitNothing(out[..0], prevBit, frame);
      for i := 0 to maxAvail
        invariant produced == old(produced) && remaining == old(remaining)
        invariant encodedFrame[..] == old(encodedFrame[..])
        invariant prevBit == 0 || prevBit == 1
        invariant ZeroOne(out[..i])
        invariant AsBools(out[..i]) + Nrzi(prevBit == 1, AsBools(frame)[i..]) == all
      {
        assert encodedFrame[..][i + produced] == frame[i];
        ghost var q := out[..i];
        EmitStep(q, frame, i, prevBit, all);
        EmitOne(i, out);
        assert out[..i + 1] == q + [prevBit];
      }
      remaining := remaining - maxAvail;
      produced := produced + maxAvail;
      assert encodedFrame[produced..produced + remaining] == frame[maxAvail..];
      RestOfFrame(frame, maxAvail);
    }
  }

  lemma EmitNothing(q: seq<bv8>, level: bv8, frame: seq<bv8>)
    requires q == []
    ensures ZeroOne(q) && AsBools(q) + Nrzi(level == 1, AsBools(frame)[0..]) == Nrzi(level == 1, AsBools(frame))
  {
    hide Nrzi;
    assert AsBools(frame)[0..] == AsBools(frame);
  }

  lemma RestOfFrame(frame: seq<bv8>, n: nat)
    requires n <= |frame|
    ensures AsBools(frame[n..]) == AsBools(frame)[n..]
    ensures ZeroOne(frame) ==> ZeroOne(frame[n..])
  {}
}
