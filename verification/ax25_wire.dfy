/** The bits and numbers on the line: in which order bits and bytes go out, what NRZI does to
    them, and what the frame check sequence is by the marks of its standard. */
module Ax25Wire {
  import opened Ax25Fcs
  import opened Ax25Frame
  import opened Ax25Encoder
  import opened Ax25Decoder
  import opened Ax25Stream

  // ----- bits ---------------------------------------------------------------------------

  function Weighed(b: bool, w: nat): nat {
    if b then w else 0
  }

  lemma LowestFirst(b: bv8)
    ensures var x := ByteBits(b);
      b as int == Weighed(x[0], 1) + Weighed(x[1], 2) + Weighed(x[2], 4) + Weighed(x[3], 8) +
                  Weighed(x[4], 16) + Weighed(x[5], 32) + Weighed(x[6], 64) + Weighed(x[7], 128)
  {}

  // Byte k goes out in bits 8k to 8k + 7, its lowest bit first.
  lemma {:induction false} AirOrder(bytes: seq<bv8>, k: nat)
    requires k < |bytes|
    ensures var x := Bits(bytes)[8 * k..8 * k + 8];
      bytes[k] as int == Weighed(x[0], 1) + Weighed(x[1], 2) + Weighed(x[2], 4) + Weighed(x[3], 8) +
                         Weighed(x[4], 16) + Weighed(x[5], 32) + Weighed(x[6], 64) + Weighed(x[7], 128)
    decreases k
  {
    hide ByteBits, Weighed;
    assert Bits(bytes) == ByteBits(bytes[0]) + Bits(bytes[1..]);
    if k == 0 {
      LowestFirst(bytes[0]);
      assert Bits(bytes)[..8] == ByteBits(bytes[0]);
    } else {
      AirOrder(bytes[1..], k - 1);
      assert Bits(bytes)[8 * k..8 * k + 8] == Bits(bytes[1..])[8 * (k - 1)..8 * (k - 1) + 8];
    }
  }

  // A one leaves the line as it was, a zero changes it.
  lemma {:induction false} NrziChanges(level: bool, bits: seq<bool>, i: nat)
    requires i < |bits|
    ensures bits[i] <==> Nrzi(level, bits)[i] == (if i == 0 then level else Nrzi(level, bits)[i - 1])
    decreases i
  {
    if i > 0 {
      var next := if bits[0] then level else !level;
      NrziChanges(next, bits[1..], i - 1);
      assert Nrzi(level, bits) == [next] + Nrzi(next, bits[1..]);
    }
  }

  // ----- the check sequence -------------------------------------------------------------

  lemma OneByte(s: bv16, b: bv8, t: bv16, rest: seq<bv8>)
    requires Xor(Upper(s), Table(TableIndex(s, b))) == t && |rest| > 0 && rest[0] == b
    ensures Crc(s, Bits(rest)) == Crc(t, Bits(rest[1..]))
  {
    hide Table, TableIndex, Xor, Upper, ByteBits, Clock8, Wide;
    TableStep(s, b);
    ByteSteps(s, b);
    CrcConcat(s, ByteBits(b), Bits(rest[1..]));
  }

  // The check value of CRC-16/X-25: the sequence of the nine digits.
  lemma CheckValue()
    ensures Fcs([0x31, 0x32, 0x33, 0x34, 0x35, 0x36, 0x37, 0x38, 0x39]) == 0x906E
  {
    hide Crc, Bits;
    var all: seq<bv8> := [0x31, 0x32, 0x33, 0x34, 0x35, 0x36, 0x37, 0x38, 0x39];
    assert all[0..] == all && all[9..] == [];
    NineBytes(all);
  }

  lemma NineBytes(all: seq<bv8>)
    requires all == [0x31, 0x32, 0x33, 0x34, 0x35, 0x36, 0x37, 0x38, 0x39]
    ensures Crc(0xFFFF, Bits(all)) == 0x6F91
  {
    hide Crc, Bits;
    assert all[0..] == all && all[9..] == [];
    forall k | 0 <= k < 9
      ensures all[k..][1..] == all[k + 1..]
    {}
    OneByte(0xFFFF, 0x31, 0x2F8D, all[0..]);
    OneByte(0x2F8D, 0x32, 0x4D53, all[1..]);
    OneByte(0x4D53, 0x33, 0x634B, all[2..]);
    OneByte(0x634B, 0x34, 0x8B13, all[3..]);
    OneByte(0x8B13, 0x35, 0x44BF, all[4..]);
    OneByte(0x44BF, 0x36, 0x198D, all[5..]);
    OneByte(0x198D, 0x37, 0x1AC8, all[6..]);
    OneByte(0x1AC8, 0x38, 0xF795, all[7..]);
    OneByte(0xF795, 0x39, 0x6F91, all[8..]);
    CrcEnds(0x6F91);
  }

  lemma CrcEnds(s: bv16)
    ensures Crc(s, Bits([])) == s
  {
    assert Bits([]) == [];
  }

  lemma SentBytes(r: bv16)
    ensures var f := FcsBytes(Ax25Fcs.Xor(r, 0xFFFF));
      Ax25Fcs.Xor(r, Wide(f[0])) == Ax25Fcs.Xor(High(r), 0xFF) && Ax25Fcs.Xor(Ax25Fcs.Xor(Upper(r), 0x0F78), Wide(f[1])) == 0x0F87
  {}

  lemma ResidueClocks()
    ensures Clock8(0xFF) == 0x0F78 && Clock8(0x0F87) == 0xF0B8
  {
    hide Clock8, Table;
    TableIsClock8(0xFF);
    LastTable();
    LowHigh(0x0F87);
    TableIsClock8(0x87);
    ResidueTable();
  }

  lemma LastTable()
    ensures Table(0xFF) == 0x0F78
  {}

  lemma ResidueTable()
    ensures Ax25Fcs.Xor(Upper(0x0F87), Table(0x87)) == 0xF0B8 && Low(0x0F87) == 0x87
  {}

  // The register after a frame with its check sequence is always the same.
  lemma Residue(content: seq<bv8>)
    ensures Crc(0xFFFF, Bits(WithFcs(content))) == 0xF0B8
  {
    hide Crc, Bits, ByteBits, Clock8, Ax25Fcs.Xor, High, Upper, Wide, FcsBytes;
    var r := Crc(0xFFFF, Bits(content));
    var f := FcsBytes(Fcs(content));
    assert WithFcs(content) == content + [f[0]] + [f[1]];
    BitsMore(content, f[0]);
    BitsMore(content + [f[0]], f[1]);
    CrcConcat(0xFFFF, Bits(content), ByteBits(f[0]));
    CrcConcat(0xFFFF, Bits(content + [f[0]]), ByteBits(f[1]));
    SentBytes(r);
    ResidueClocks();
    ByteSteps(r, f[0]);
    Clock8Xor(High(r), 0xFF);
    ClockHigh(r);
    ByteSteps(Ax25Fcs.Xor(Upper(r), 0x0F78), f[1]);
  }

  // Sixteen bits more, from the same register, never lead to the same place twice.
  lemma LastBitsTell(s: bv16, a: seq<bool>, b: seq<bool>)
    requires |a| == |b| == 16 && Crc(s, a) == Crc(s, b)
    ensures a == b
  {
    hide Crc, Ax25Fcs.Xor;
    CrcXor(s, s, a, b);
    XorLaws(s, s);
    XorLaws(Crc(s, a), Crc(s, a));
    var e := XorBits(a, b);
    BurstRemains(e, 0, 16);
    forall i | 0 <= i < 16
      ensures a[i] == b[i]
    {
      XorBitsAt(a, b, i);
    }
  }

  // So a frame is good exactly if it leaves that register: the rule by which the standard checks.
  lemma GoodIsResidue(frame: seq<bv8>)
    requires |frame| >= 2
    ensures GoodFcs(frame) <==> Crc(0xFFFF, Bits(frame)) == 0xF0B8
  {
    hide Crc, Bits, FcsBytes, RecvFcs, Fcs;
    var n := |frame| - 2;
    var content, last := frame[..n], frame[n..];
    var sent := FcsBytes(Fcs(content));
    FcsBytesReceived(Fcs(content), frame[n + 1], frame[n]);
    assert frame == content + last && WithFcs(content) == content + sent && last == [frame[n], frame[n + 1]];
    Residue(content);
    BitsConcat(content, last);
    BitsConcat(content, sent);
    CrcConcat(0xFFFF, Bits(content), Bits(last));
    CrcConcat(0xFFFF, Bits(content), Bits(sent));
    if Crc(0xFFFF, Bits(frame)) == 0xF0B8 {
      LastBitsTell(Crc(0xFFFF, Bits(content)), Bits(last), Bits(sent));
      BitsInjective(last, sent);
    } else {
      assert last != sent;
    }
  }

  // ----- the address --------------------------------------------------------------------

  lemma SentCharIsDouble(c: bv8)
    requires c < 128
    ensures SentChar(c) as int == 2 * c as int
  {}

  lemma SsidIsRead(ssid: bv8)
    ensures SsidByte(ssid, 0x60) as int == 0x60 + 2 * (ssid as int % 16)
    ensures SsidByte(ssid, 0x61) as int == 0x61 + 2 * (ssid as int % 16)
  {}

  // Both callsigns and both SSIDs can be read back, the destination first.
  lemma AddressReadsBack(dest: seq<bv8>, destSsid: bv8, src: seq<bv8>, srcSsid: bv8)
    requires |dest| <= CALLSIGN_MAX_LEN && |src| <= CALLSIGN_MAX_LEN
    requires (forall i :: 0 <= i < |dest| ==> dest[i] < 128) && forall i :: 0 <= i < |src| ==> src[i] < 128
    ensures var f := AddrField(dest, destSsid, src, srcSsid);
      (forall i :: 0 <= i < 6 ==> f[i] as int == 2 * if i < |dest| then dest[i] as int else 32) &&
      f[6] as int == 0x60 + 2 * (destSsid as int % 16) &&
      (forall i :: 0 <= i < 6 ==> f[7 + i] as int == 2 * if i < |src| then src[i] as int else 32) &&
      f[13] as int == 0x61 + 2 * (srcSsid as int % 16)
  {
    hide SentChar, SsidByte;
    var f := AddrField(dest, destSsid, src, srcSsid);
    SsidIsRead(destSsid);
    SsidIsRead(srcSsid);
    forall i | 0 <= i < 6
      ensures f[i] as int == 2 * (if i < |dest| then dest[i] as int else 32) && f[7 + i] as int == 2 * if i < |src| then src[i] as int else 32
    {
      if i < |dest| { SentCharIsDouble(dest[i]); }
      if i < |src| { SentCharIsDouble(src[i]); }
      assert f[i] == Padded(dest)[i] && f[7 + i] == Padded(src)[i];
    }
  }
}
