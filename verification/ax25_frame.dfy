/** The sending side of ax25.h: address field, frame layout and bit stuffing. */
module Ax25Frame {
  import opened Ax25Fcs

  const SYNC_FLAG: bv8 := 0x7E
  const SYNC_FLAG_MAP: seq<bv8> := [0, 1, 1, 1, 1, 1, 1, 0]
  const MIN_ADDR_LEN: nat := 14
  const MAX_ADDR_LEN: nat := 28
  const MAX_INFO_LEN: nat := 256
  const CALLSIGN_MAX_LEN: nat := 6

  datatype FrameType = IFrame | SFrame | UFrame | UIFrame

  // ----- bits in byte arrays ------------------------------------------------------

  // One bit to a byte, as the stuffed frame and the symbol stream are kept.
  function AsBools(bytes: seq<bv8>): (r: seq<bool>)
    ensures |r| == |bytes|
  {
    seq(|bytes|, i requires 0 <= i < |bytes| => bytes[i] == 1)
  }

  predicate ZeroOne(bytes: seq<bv8>)
  {
    forall i :: 0 <= i < |bytes| ==> bytes[i] == 0 || bytes[i] == 1
  }

  function FlagBits(n: nat): (r: seq<bool>)
    ensures |r| == 8 * n
  {
    if n == 0 then [] else FlagBits(n - 1) + [false, true, true, true, true, true, true, false]
  }

  lemma {:induction false} FlagBitsFront(n: nat)
    requires n > 0
    ensures FlagBits(n) == [false, true, true, true, true, true, true, false] + FlagBits(n - 1)
  {
    if n > 1 {
      FlagBitsFront(n - 1);
    } else {
      assert FlagBits(1) == FlagBits(0) + [false, true, true, true, true, true, true, false];
    }
  }

  function Flags(n: nat): (r: seq<bv8>)
    ensures |r| == n
  {
    seq(n, i => SYNC_FLAG)
  }

  // ----- stuffing --------------------------------------------------------------------

  // A zero after every five consecutive ones; k ones have just been sent.
  function Stuff(k: nat, bits: seq<bool>): (r: seq<bool>)
    requires k <= 4
    decreases |bits|
  {
    if |bits| == 0 then []
    else if !bits[0] then [false] + Stuff(0, bits[1..])
    else if k == 4 then [true, false] + Stuff(0, bits[1..])
    else [true] + Stuff(k + 1, bits[1..])
  }

  // The number of ones at the end of the stuffed bits.
  function OnesAfter(k: nat, bits: seq<bool>): (m: nat)
    requires k <= 4
    ensures m <= 4
    decreases |bits|
  {
    if |bits| == 0 then k
    else if !bits[0] || k == 4 then OnesAfter(0, bits[1..])
    else OnesAfter(k + 1, bits[1..])
  }

  // The receiver's inverse: the bit after five ones is dropped.
  function Destuff(k: nat, bits: seq<bool>): (r: seq<bool>)
    requires k <= 5
    decreases |bits|
  {
    if |bits| == 0 then []
    else if k == 5 then Destuff(0, bits[1..])
    else [bits[0]] + Destuff(if bits[0] then k + 1 else 0, bits[1..])
  }

  lemma DestuffFirst(k: nat, b: bool, s: seq<bool>)
    requires k <= 5
    ensures Destuff(k, [b] + s) == if k == 5 then Destuff(0, s) else [b] + Destuff(if b then k + 1 else 0, s)
  {
    assert ([b] + s)[1..] == s;
  }

  lemma {:induction false} DestuffStuff(k: nat, bits: seq<bool>)
    requires k <= 4
    ensures Destuff(k, Stuff(k, bits)) == bits
    decreases |bits|
  {
    hide Destuff;
    if |bits| == 0 {
      DestuffNothing(k);
    } else {
      var rest := bits[1..];
      assert bits == [bits[0]] + rest;
      if !bits[0] || k < 4 {
        var k1 := if bits[0] then k + 1 else 0;
        DestuffStuff(k1, rest);
        DestuffFirst(k, bits[0], Stuff(k1, rest));
      } else {
        DestuffStuff(0, rest);
        DestuffFirst(5, false, Stuff(0, rest));
        DestuffFirst(k, true, [false] + Stuff(0, rest));
        assert Stuff(k, bits) == [true] + ([false] + Stuff(0, rest));
      }
    }
  }

  lemma DestuffNothing(k: nat)
    requires k <= 5
    ensures Destuff(k, []) == []
  {}

  lemma {:induction false} StuffLength(k: nat, bits: seq<bool>)
    requires k <= 4
    ensures |bits| <= |Stuff(k, bits)|
    ensures 5 * (|Stuff(k, bits)| - |bits|) <= |bits| + k
    decreases |bits|
  {
    if |bits| > 0 {
      if !bits[0] || k == 4 {
        StuffLength(0, bits[1..]);
      } else {
        StuffLength(k + 1, bits[1..]);
      }
    }
  }

  // No run of ones, counting k before the start, is longer than five.
  predicate ShortRuns(k: nat, bits: seq<bool>)
    decreases |bits|
  {
    k <= 5 && (|bits| == 0 || ShortRuns(if bits[0] then k + 1 else 0, bits[1..]))
  }

  lemma {:induction false} StuffShortRuns(k: nat, bits: seq<bool>)
    requires k <= 4
    ensures ShortRuns(k, Stuff(k, bits))
    decreases |bits|
  {
    if |bits| > 0 {
      var rest := bits[1..];
      var s := Stuff(k, bits);
      if !bits[0] {
        StuffShortRuns(0, rest);
        assert s[1..] == Stuff(0, rest);
      } else if k == 4 {
        StuffShortRuns(0, rest);
        assert s[1..] == [false] + Stuff(0, rest);
        assert s[1..][1..] == Stuff(0, rest);
      } else {
        StuffShortRuns(k + 1, rest);
        assert s[1..] == Stuff(k + 1, rest);
      }
    }
  }

  predicate SixOnes(bits: seq<bool>, i: nat)
    requires i + 6 <= |bits|
  {
    bits[i] && bits[i + 1] && bits[i + 2] && bits[i + 3] && bits[i + 4] && bits[i + 5]
  }

  lemma {:induction false} LeadingOnes(k: nat, bits: seq<bool>, m: nat)
    requires ShortRuns(k, bits) && m <= |bits|
    requires forall j :: 0 <= j < m ==> bits[j]
    ensures k + m <= 5
    decreases m
  {
    if m > 0 {
      assert bits[0];
      LeadingOnes(k + 1, bits[1..], m - 1);
    }
  }

  lemma {:induction false} ShortRunsSuffix(k: nat, bits: seq<bool>, i: nat) returns (m: nat)
    requires ShortRuns(k, bits) && i <= |bits|
    ensures ShortRuns(m, bits[i..])
    decreases i
  {
    m := k;
    if i == 0 {
      assert bits[0..] == bits;
    } else {
      m := ShortRunsSuffix(if bits[0] then k + 1 else 0, bits[1..], i - 1);
      assert bits[1..][i - 1..] == bits[i..];
    }
  }

  lemma ShortRunsNoSixOnes(k: nat, bits: seq<bool>, i: nat)
    requires ShortRuns(k, bits) && i + 6 <= |bits|
    ensures !SixOnes(bits, i)
  {
    hide ShortRuns;
    var m := ShortRunsSuffix(k, bits, i);
    if SixOnes(bits, i) {
      LeadingOnes(m, bits[i..], 6);
    }
  }

  // The stuffed bits of a frame never show the six ones of a flag.
  lemma NoFlagInside(bits: seq<bool>)
    ensures forall i :: 0 <= i && i + 6 <= |Stuff(0, bits)| ==> !SixOnes(Stuff(0, bits), i)
  {
    StuffShortRuns(0, bits);
    forall i | 0 <= i && i + 6 <= |Stuff(0, bits)|
      ensures !SixOnes(Stuff(0, bits), i)
    {
      ShortRunsNoSixOnes(0, Stuff(0, bits), i);
    }
  }

  lemma {:induction false} StuffMore(k: nat, bits: seq<bool>, b: bool)
    requires k <= 4
    ensures Stuff(k, bits + [b]) == Stuff(k, bits) +
      (if b then (if OnesAfter(k, bits) == 4 then [true, false] else [true]) else [false])
    ensures OnesAfter(k, bits + [b]) == if b && OnesAfter(k, bits) < 4 then OnesAfter(k, bits) + 1 else 0
    decreases |bits|
  {
    var more := bits + [b];
    if |bits| == 0 {
      assert more[1..] == [];
    } else {
      assert more[0] == bits[0] && more[1..] == bits[1..] + [b];
      StuffMore(if !bits[0] || k == 4 then 0 else k + 1, bits[1..], b);
    }
  }

  // ----- ax25_bit_stuffing --------------------------------------------------------------

  // The register's low bits are k ones below a zero.
  predicate EndsIn(reg: bv8, k: nat)
  {
    (k == 0 && reg & 0x01 == 0x00) || (k == 1 && reg & 0x03 == 0x01) || (k == 2 && reg & 0x07 == 0x03) ||
    (k == 3 && reg & 0x0F == 0x07) || (k == 4 && reg & 0x1F == 0x0F)
  }

  function ShiftIn(reg: bv8, bit: bv8): bv8
  {
    (reg << 1) | bit
  }

  lemma RegisterStep(reg: bv8, k: nat, bit: bv8)
    requires EndsIn(reg, k) && (bit == 0 || bit == 1)
    ensures ShiftIn(reg, bit) & 0x1F == 0x1F <==> bit == 1 && k == 4
    ensures bit == 0 ==> EndsIn(ShiftIn(reg, bit), 0)
    ensures bit == 1 && k < 4 ==> EndsIn(ShiftIn(reg, bit), k + 1)
    ensures EndsIn(ShiftIn(reg, bit) << 1, 0)
  {}

  lemma BitOfByte(b: bv8, i: nat)
    requires i < 8
    ensures ByteBits(b)[i] <==> (b >> i) & 1 == 1
    ensures (b >> i) & 1 == 0 || (b >> i) & 1 == 1
  {
    if i == 0 {} else if i == 1 {} else if i == 2 {} else if i == 3 {}
    else if i == 4 {} else if i == 5 {} else if i == 6 {} else {}
  }

  lemma {:induction false} BitOfBytes(bytes: seq<bv8>, i: nat)
    requires i < 8 * |bytes|
    ensures Bits(bytes)[i] == ByteBits(bytes[i / 8])[i % 8]
    decreases |bytes|
  {
    hide ByteBits;
    if i >= 8 {
      BitOfBytes(bytes[1..], i - 8);
    }
  }

  // The bytes of a buffer stand for the bits s.
  predicate Holds(bytes: seq<bv8>, s: seq<bool>)
  {
    ZeroOne(bytes) && AsBools(bytes) == s
  }

  lemma HoldsMore(bytes: seq<bv8>, s: seq<bool>, more: seq<bv8>, t: seq<bool>)
    requires Holds(bytes, s) && Holds(more, t)
    ensures Holds(bytes + more, s + t)
  {
    assert AsBools(bytes + more) == AsBools(bytes) + AsBools(more);
  }

  lemma OneFlag()
    ensures Holds(SYNC_FLAG_MAP, [false, true, true, true, true, true, true, false])
  {}

  lemma OneBit(bit: bv8)
    requires bit == 0 || bit == 1
    ensures Holds([bit], [bit == 1])
  {}

  // memcpy of AX25_SYNC_FLAG_MAP_BIN.
  method WriteFlag(out: array<bv8>, k: nat)
    requires k + 8 <= out.Length
    modifies out
    ensures out[..k + 8] == old(out[..k]) + SYNC_FLAG_MAP
  {
    for j := 0 to 8
      invariant out[..k] == old(out[..k])
      invariant forall q :: k <= q < k + j ==> out[q] == SYNC_FLAG_MAP[q - k]
    {
      out[k + j] := SYNC_FLAG_MAP[j];
    }
  }

  method WriteFlags(out: array<bv8>, start: nat, n: nat, ghost s: seq<bool>) returns (outIdx: nat)
    requires start + 8 * n <= out.Length && Holds(out[..start], s)
    modifies out
    ensures outIdx == start + 8 * n
    ensures Holds(out[..outIdx], s + FlagBits(n))
  {
    hide Holds;
    outIdx := start;
    assert s + FlagBits(0) == s;
    for i := 0 to n
      invariant outIdx == start + 8 * i
      invariant Holds(out[..outIdx], s + FlagBits(i))
    {
      ghost var before := out[..outIdx];
      WriteFlag(out, outIdx);
      OneFlag();
      HoldsMore(before, s + FlagBits(i), SYNC_FLAG_MAP, [false, true, true, true, true, true, true, false]);
      assert s + FlagBits(i + 1) == s + FlagBits(i) + [false, true, true, true, true, true, true, false];
      outIdx := outIdx + 8;
    }
  }

  // One round of the loop: put the bit out, and the stuffed zero if it is due.
  method StuffOneBit(out: array<bv8>, outIdx: nat, shiftReg: bv8, bit: bv8, ghost flags: seq<bool>, ghost done: seq<bool>)
    returns (outIdx1: nat, shiftReg1: bv8)
    requires bit == 0 || bit == 1
    requires outIdx + 2 <= out.Length || (outIdx + 1 == out.Length && (bit == 0 || OnesAfter(0, done) < 4))
    requires Holds(out[..outIdx], flags + Stuff(0, done)) && EndsIn(shiftReg, OnesAfter(0, done))
    modifies out
    ensures outIdx1 == outIdx + |Stuff(0, done + [bit == 1])| - |Stuff(0, done)| && outIdx1 <= out.Length
    ensures Holds(out[..outIdx1], flags + Stuff(0, done + [bit == 1]))
    ensures EndsIn(shiftReg1, OnesAfter(0, done + [bit == 1]))
  {
    hide Holds, EndsIn, ShiftIn;
    RegisterStep(shiftReg, OnesAfter(0, done), bit);
    StuffMore(0, done, bit == 1);
    OneBit(bit);
    OneBit(0);
    ghost var q, s := out[..outIdx], flags + Stuff(0, done);
    HoldsMore(q, s, [bit], [bit == 1]);
    HoldsMore(q + [bit], s + [bit == 1], [0], [false]);
    outIdx1, shiftReg1 := outIdx, ShiftIn(shiftReg, bit);
    out[outIdx1] := bit;
    outIdx1 := outIdx1 + 1;
    assert out[..outIdx1] == q + [bit];
    if shiftReg1 & 0x1F == 0x1F {
      out[outIdx1] := 0;
      outIdx1 := outIdx1 + 1;
      assert out[..outIdx1] == q + [bit] + [0];
      shiftReg1 := shiftReg1 << 1;
      assert flags + Stuff(0, done + [bit == 1]) == s + [bit == 1] + [false];
    } else {
      assert flags + Stuff(0, done + [bit == 1]) == s + [bit == 1];
    }
  }

  // Bit i of the bytes from start on, least significant bit first.
  method ReadBit(buffer: array<bv8>, start: nat, i: nat, ghost body: seq<bv8>) returns (bit: bv8)
    requires start + |body| <= buffer.Length && buffer[start..start + |body|] == body && i < 8 * |body|
    ensures bit == 0 || bit == 1
    ensures bit == 1 <==> Bits(body)[i]
  {
    hide Bits, ByteBits;
    BitOfBytes(body, i);
    BitOfByte(body[i / 8], i % 8);
    assert body[i / 8] == buffer[start + i / 8];
    bit := (buffer[start + i / 8] >> (i % 8)) & 1;
  }

  method BitStuffing(out: array<bv8>, buffer: array<bv8>, bufferLen: nat, preambleLen: nat, postambleLen: nat)
    returns (outLen: nat)
    requires out != buffer && preambleLen + postambleLen <= bufferLen <= buffer.Length
    requires var n := 8 * (bufferLen - preambleLen - postambleLen);
      8 * (preambleLen + postambleLen) + n + n / 5 <= out.Length
    modifies out
    ensures outLen <= out.Length
    ensures Holds(out[..outLen], FlagBits(preambleLen)
      + Stuff(0, Bits(buffer[preambleLen..bufferLen - postambleLen])) + FlagBits(postambleLen))
  {
    hide Bits, ByteBits, EndsIn, Holds, Stuff, OnesAfter;
    ghost var body := buffer[preambleLen..bufferLen - postambleLen];
    ghost var bits, flags := Bits(body), FlagBits(preambleLen);
    assert Holds(out[..0], []) by { HoldsNothing(out[..0]); }
    var outIdx := WriteFlags(out, 0, preambleLen, []);
    StuffNothing();
    assert bits[..0] == [] && [] + flags == flags + [];
    var shiftReg: bv8 := 0;
    var i := 0;
    while i < 8 * (bufferLen - preambleLen - postambleLen)
      invariant 0 <= i <= |bits|
      invariant buffer[preambleLen..bufferLen - postambleLen] == body
      invariant EndsIn(shiftReg, OnesAfter(0, bits[..i]))
      invariant outIdx == 8 * preambleLen + |Stuff(0, bits[..i])| && outIdx <= out.Length
      invariant Holds(out[..outIdx], flags + Stuff(0, bits[..i]))
    {
      var bit := ReadBit(buffer, preambleLen, i, body);
      assert bits[..i] + [bit == 1] == bits[..i + 1];
      StuffMore(0, bits[..i], bit == 1);
      StuffLength(0, bits[..i + 1]);
      outIdx, shiftReg := StuffOneBit(out, outIdx, shiftReg, bit, flags, bits[..i]);
      i := i + 1;
    }
    assert bits[..i] == bits;
    StuffLength(0, bits);
    outLen := WriteFlags(out, outIdx, postambleLen, flags + Stuff(0, bits));
  }

  lemma HoldsNothing(q: seq<bv8>)
    requires q == []
    ensures Holds(q, [])
  {}

  lemma StuffNothing()
    ensures Stuff(0, []) == [] && OnesAfter(0, []) == 0 && EndsIn(0, 0)
  {}

  // ----- ax25_create_addr_field --------------------------------------------------------

  function SentChar(c: bv8): bv8
  {
    c << 1
  }

  // A callsign as sent: one character to a byte, shifted, filled up with spaces.
  function Padded(callsign: seq<bv8>): (r: seq<bv8>)
    requires |callsign| <= CALLSIGN_MAX_LEN
    ensures |r| == CALLSIGN_MAX_LEN
  {
    seq(CALLSIGN_MAX_LEN, i requires 0 <= i < CALLSIGN_MAX_LEN => if i < |callsign| then SentChar(callsign[i]) else 0x40)
  }

  function SsidByte(ssid: bv8, flags: bv8): bv8
  {
    ((0x0F & ssid) << 1) | flags
  }

  function AddrField(dest: seq<bv8>, destSsid: bv8, src: seq<bv8>, srcSsid: bv8): (r: seq<bv8>)
    requires |dest| <= CALLSIGN_MAX_LEN && |src| <= CALLSIGN_MAX_LEN
    ensures |r| == MIN_ADDR_LEN
  {
    Padded(dest) + [SsidByte(destSsid, 0x60)] + Padded(src) + [SsidByte(srcSsid, 0x61)]
  }

  // Only the last byte of the address has its lowest bit set.
  lemma AddrFieldEnds(dest: seq<bv8>, destSsid: bv8, src: seq<bv8>, srcSsid: bv8)
    requires |dest| <= CALLSIGN_MAX_LEN && |src| <= CALLSIGN_MAX_LEN
    ensures forall i :: 0 <= i < MIN_ADDR_LEN ==>
      (AddrField(dest, destSsid, src, srcSsid)[i] & 1 == 1 <==> i == MIN_ADDR_LEN - 1)
  {
    hide SsidByte;
    var f := AddrField(dest, destSsid, src, srcSsid);
    SsidBytes(destSsid);
    SsidBytes(srcSsid);
    forall i | 0 <= i < MIN_ADDR_LEN
      ensures f[i] & 1 == 1 <==> i == MIN_ADDR_LEN - 1
    {
      Space();
      if i < 6 {
        assert f[i] == Padded(dest)[i];
        if i < |dest| { Even(dest[i]); }
      } else if 7 <= i < 13 {
        assert f[i] == Padded(src)[i - 7];
        if i - 7 < |src| { Even(src[i - 7]); }
      }
    }
  }

  lemma Space()
    ensures (0x40 as bv8) & 1 == 0
  {}

  lemma Even(b: bv8)
    ensures SentChar(b) & 1 == 0
  {}

  lemma SsidBytes(ssid: bv8)
    ensures SsidByte(ssid, 0x60) & 1 == 0 && SsidByte(ssid, 0x61) & 1 == 1
    ensures (SsidByte(ssid, 0x60) >> 1) & 0x0F == ssid & 0x0F
  {}

  // memcpy
  method CopyBytes(out: array<bv8>, at: nat, bytes: seq<bv8>) returns (i: nat)
    requires at + |bytes| <= out.Length
    modifies out
    ensures i == at + |bytes|
    ensures out[..i] == old(out[..at]) + bytes
  {
    for j := 0 to |bytes|
      invariant out[..at + j] == old(out[..at]) + bytes[..j]
    {
      out[at + j] := bytes[j];
    }
    i := at + |bytes|;
  }

  method WriteCallsign(out: array<bv8>, at: nat, callsign: seq<bv8>) returns (k: nat)
    requires |callsign| <= CALLSIGN_MAX_LEN && at + CALLSIGN_MAX_LEN <= out.Length
    modifies out
    ensures k == at + CALLSIGN_MAX_LEN
    ensures out[..k] == old(out[..at]) + Padded(callsign)
  {
    ghost var p := Padded(callsign);
    k := at;
    var i := 0;
    while i < |callsign|
      invariant 0 <= i <= |callsign| && k == at + i
      invariant out[..k] == old(out[..at]) + p[..i]
    {
      out[k] := SentChar(callsign[i]);
      k := k + 1;
      i := i + 1;
    }
    while i < CALLSIGN_MAX_LEN
      invariant |callsign| <= i <= CALLSIGN_MAX_LEN && k == at + i
      invariant out[..k] == old(out[..at]) + p[..i]
    {
      out[k] := 0x40;
      k := k + 1;
      i := i + 1;
    }
  }

  method CreateAddrField(out: array<bv8>, dest: seq<bv8>, destSsid: bv8, src: seq<bv8>, srcSsid: bv8) returns (len: nat)
    requires |dest| <= CALLSIGN_MAX_LEN && |src| <= CALLSIGN_MAX_LEN && MIN_ADDR_LEN <= out.Length
    modifies out
    ensures len == MIN_ADDR_LEN
    ensures out[..len] == AddrField(dest, destSsid, src, srcSsid)
  {
    hide Padded, SsidByte;
    var k := WriteCallsign(out, 0, dest);
    k := CopyBytes(out, k, [SsidByte(destSsid, 0x60)]);
    k := WriteCallsign(out, k, src);
    k := CopyBytes(out, k, [SsidByte(srcSsid, 0x61)]);
    len := MIN_ADDR_LEN;
  }

  // ax25_get_addr_length: the first terminated address ends the field.
  function AddrLength(frame: seq<bv8>): (n: nat)
    requires MAX_ADDR_LEN <= |frame|
    ensures n == 14 || n == 21 || n == 28
    ensures forall i :: 0 <= i && 7 * i + 13 < n - 1 ==> frame[7 * i + 13] & 1 != 1
    ensures frame[n - 1] & 1 == 1 || n == MAX_ADDR_LEN
  {
    if frame[13] & 1 == 1 then 14 else if frame[20] & 1 == 1 then 21 else 28
  }

  // ----- ax25_prepare_frame -----------------------------------------------------------------

  function FcsBytes(fcs: bv16): (r: seq<bv8>)
    ensures |r| == 2
  {
    [(fcs & 0xFF) as bv8, ((fcs >> 8) & 0xFF) as bv8]
  }

  // The frame between the flags.
  function Content(info: seq<bv8>, kind: FrameType, addr: seq<bv8>, ctrl: seq<bv8>): seq<bv8>
  {
    addr + ctrl + (if kind == IFrame || kind == UIFrame then [0xF0] else []) + info
  }

  function WithFcs(content: seq<bv8>): (r: seq<bv8>)
    ensures |r| == |content| + 2
  {
    content + FcsBytes(Fcs(content))
  }

  // memcpy of one more field behind the flags and the fields so far.
  method CopyField(out: array<bv8>, at: nat, bytes: seq<bv8>, ghost head: seq<bv8>, ghost fields: seq<bv8>) returns (i: nat)
    requires at + |bytes| <= out.Length && out[..at] == head + fields
    modifies out
    ensures i == at + |bytes|
    ensures out[..i] == head + (fields + bytes)
  {
    i := CopyBytes(out, at, bytes);
    assert head + fields + bytes == head + (fields + bytes);
  }

  // addr, ctrl and info are the bytes the source copies from its pointers.
  method PrepareFrame(out: array<bv8>, info: seq<bv8>, kind: FrameType, addr: seq<bv8>, ctrl: seq<bv8>,
                      preambleLen: nat, postambleLen: nat) returns (len: nat)
    requires preambleLen + |addr| + |ctrl| + 3 + |info| + postambleLen <= out.Length
    modifies out
    ensures len == 0 <==> |info| > MAX_INFO_LEN || (|addr| != MIN_ADDR_LEN && |addr| != MAX_ADDR_LEN) || (|ctrl| != 1 && |ctrl| != 2)
    ensures len <= out.Length
    ensures len != 0 ==> out[..len] == Flags(preambleLen) + WithFcs(Content(info, kind, addr, ctrl)) + Flags(postambleLen)
  {
    hide Fcs, FcsBytes, Flags;
    if |info| > MAX_INFO_LEN {
      return 0;
    }
    ghost var flags := Flags(preambleLen);
    assert out[..0] == [] + [] && [] + ([] + flags) == flags && flags + [] == flags;
    var i := CopyField(out, 0, Flags(preambleLen), [], []);
    if |addr| == MIN_ADDR_LEN || |addr| == MAX_ADDR_LEN {
      i := CopyField(out, i, addr, flags, []);
      assert [] + addr == addr;
    } else {
      return 0;
    }
    if |ctrl| == 1 || |ctrl| == 2 {
      i := CopyField(out, i, ctrl, flags, addr);
    } else {
      return 0;
    }
    ghost var fields := addr + ctrl;
    if kind == IFrame || kind == UIFrame {
      i := CopyField(out, i, [0xF0], flags, fields);
      fields := fields + [0xF0];
    }
    assert fields == addr + ctrl + (if kind == IFrame || kind == UIFrame then [0xF0] else []);
    i := CopyField(out, i, info, flags, fields);
    fields := fields + info;
    var fcs := ComputeFcs(out, preambleLen, i - preambleLen);
    assert out[preambleLen..preambleLen + (i - preambleLen)] == fields;
    i := CopyField(out, i, FcsBytes(fcs), flags, fields);
    len := CopyBytes(out, i, Flags(postambleLen));
  }
}
