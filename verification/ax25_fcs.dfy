/** The frame check sequence of ax25.h: the table-driven loop is the bit-at-a-time
    CRC of AX.25 (reflected polynomial 0x8408, register preset to ones, result
    complemented), and it detects every error burst of up to 16 bits. */
module Ax25Fcs {

  // crc16_ccitt_table_reverse, its entries in order, selected by the bits of the index.
  function Table(i: bv8): bv16
  {
    (if i & 128 == 0 then
     (if i & 64 == 0 then
      (if i & 32 == 0 then
       (if i & 16 == 0 then
        (if i & 8 == 0 then
         (if i & 4 == 0 then (if i & 2 == 0 then (if i & 1 == 0 then 0x0000 else 0x1189) else if i & 1 == 0 then 0x2312 else 0x329B)
          else if i & 2 == 0 then (if i & 1 == 0 then 0x4624 else 0x57AD) else if i & 1 == 0 then 0x6536 else 0x74BF)
        else
         (if i & 4 == 0 then (if i & 2 == 0 then (if i & 1 == 0 then 0x8C48 else 0x9DC1) else if i & 1 == 0 then 0xAF5A else 0xBED3)
          else if i & 2 == 0 then (if i & 1 == 0 then 0xCA6C else 0xDBE5) else if i & 1 == 0 then 0xE97E else 0xF8F7))
       else
        (if i & 8 == 0 then
         (if i & 4 == 0 then (if i & 2 == 0 then (if i & 1 == 0 then 0x1081 else 0x0108) else if i & 1 == 0 then 0x3393 else 0x221A)
          else if i & 2 == 0 then (if i & 1 == 0 then 0x56A5 else 0x472C) else if i & 1 == 0 then 0x75B7 else 0x643E)
        else
         (if i & 4 == 0 then (if i & 2 == 0 then (if i & 1 == 0 then 0x9CC9 else 0x8D40) else if i & 1 == 0 then 0xBFDB else 0xAE52)
          else if i & 2 == 0 then (if i & 1 == 0 then 0xDAED else 0xCB64) else if i & 1 == 0 then 0xF9FF else 0xE876)))
      else
       (if i & 16 == 0 then
        (if i & 8 == 0 then
         (if i & 4 == 0 then (if i & 2 == 0 then (if i & 1 == 0 then 0x2102 else 0x308B) else if i & 1 == 0 then 0x0210 else 0x1399)
          else if i & 2 == 0 then (if i & 1 == 0 then 0x6726 else 0x76AF) else if i & 1 == 0 then 0x4434 else 0x55BD)
        else
         (if i & 4 == 0 then (if i & 2 == 0 then (if i & 1 == 0 then 0xAD4A else 0xBCC3) else if i & 1 == 0 then 0x8E58 else 0x9FD1)
          else if i & 2 == 0 then (if i & 1 == 0 then 0xEB6E else 0xFAE7) else if i & 1 == 0 then 0xC87C else 0xD9F5))
       else
        (if i & 8 == 0 then
         (if i & 4 == 0 then (if i & 2 == 0 then (if i & 1 == 0 then 0x3183 else 0x200A) else if i & 1 == 0 then 0x1291 else 0x0318)
          else if i & 2 == 0 then (if i & 1 == 0 then 0x77A7 else 0x662E) else if i & 1 == 0 then 0x54B5 else 0x453C)
        else
         (if i & 4 == 0 then (if i & 2 == 0 then (if i & 1 == 0 then 0xBDCB else 0xAC42) else if i & 1 == 0 then 0x9ED9 else 0x8F50)
          else if i & 2 == 0 then (if i & 1 == 0 then 0xFBEF else 0xEA66) else if i & 1 == 0 then 0xD8FD else 0xC974))))
     else
      (if i & 32 == 0 then
       (if i & 16 == 0 then
        (if i & 8 == 0 then
         (if i & 4 == 0 then (if i & 2 == 0 then (if i & 1 == 0 then 0x4204 else 0x538D) else if i & 1 == 0 then 0x6116 else 0x709F)
          else if i & 2 == 0 then (if i & 1 == 0 then 0x0420 else 0x15A9) else if i & 1 == 0 then 0x2732 else 0x36BB)
        else
         (if i & 4 == 0 then (if i & 2 == 0 then (if i & 1 == 0 then 0xCE4C else 0xDFC5) else if i & 1 == 0 then 0xED5E else 0xFCD7)
          else if i & 2 == 0 then (if i & 1 == 0 then 0x8868 else 0x99E1) else if i & 1 == 0 then 0xAB7A else 0xBAF3))
       else
        (if i & 8 == 0 then
         (if i & 4 == 0 then (if i & 2 == 0 then (if i & 1 == 0 then 0x5285 else 0x430C) else if i & 1 == 0 then 0x7197 else 0x601E)
          else if i & 2 == 0 then (if i & 1 == 0 then 0x14A1 else 0x0528) else if i & 1 == 0 then 0x37B3 else 0x263A)
        else
         (if i & 4 == 0 then (if i & 2 == 0 then (if i & 1 == 0 then 0xDECD else 0xCF44) else if i & 1 == 0 then 0xFDDF else 0xEC56)
          else if i & 2 == 0 then (if i & 1 == 0 then 0x98E9 else 0x8960) else if i & 1 == 0 then 0xBBFB else 0xAA72)))
      else
       (if i & 16 == 0 then
        (if i & 8 == 0 then
         (if i & 4 == 0 then (if i & 2 == 0 then (if i & 1 == 0 then 0x6306 else 0x728F) else if i & 1 == 0 then 0x4014 else 0x519D)
          else if i & 2 == 0 then (if i & 1 == 0 then 0x2522 else 0x34AB) else if i & 1 == 0 then 0x0630 else 0x17B9)
        else
         (if i & 4 == 0 then (if i & 2 == 0 then (if i & 1 == 0 then 0xEF4E else 0xFEC7) else if i & 1 == 0 then 0xCC5C else 0xDDD5)
          else if i & 2 == 0 then (if i & 1 == 0 then 0xA96A else 0xB8E3) else if i & 1 == 0 then 0x8A78 else 0x9BF1))
       else
        (if i & 8 == 0 then
         (if i & 4 == 0 then (if i & 2 == 0 then (if i & 1 == 0 then 0x7387 else 0x620E) else if i & 1 == 0 then 0x5095 else 0x411C)
          else if i & 2 == 0 then (if i & 1 == 0 then 0x35A3 else 0x242A) else if i & 1 == 0 then 0x16B1 else 0x0738)
        else
         (if i & 4 == 0 then (if i & 2 == 0 then (if i & 1 == 0 then 0xFFCF else 0xEE46) else if i & 1 == 0 then 0xDCDD else 0xCD54)
          else if i & 2 == 0 then (if i & 1 == 0 then 0xB9EB else 0xA862) else if i & 1 == 0 then 0x9AF9 else 0x8B70)))))
    else
     (if i & 64 == 0 then
      (if i & 32 == 0 then
       (if i & 16 == 0 then
        (if i & 8 == 0 then
         (if i & 4 == 0 then (if i & 2 == 0 then (if i & 1 == 0 then 0x8408 else 0x9581) else if i & 1 == 0 then 0xA71A else 0xB693)
          else if i & 2 == 0 then (if i & 1 == 0 then 0xC22C else 0xD3A5) else if i & 1 == 0 then 0xE13E else 0xF0B7)
        else
         (if i & 4 == 0 then (if i & 2 == 0 then (if i & 1 == 0 then 0x0840 else 0x19C9) else if i & 1 == 0 then 0x2B52 else 0x3ADB)
          else if i & 2 == 0 then (if i & 1 == 0 then 0x4E64 else 0x5FED) else if i & 1 == 0 then 0x6D76 else 0x7CFF))
       else
        (if i & 8 == 0 then
         (if i & 4 == 0 then (if i & 2 == 0 then (if i & 1 == 0 then 0x9489 else 0x8500) else if i & 1 == 0 then 0xB79B else 0xA612)
          else if i & 2 == 0 then (if i & 1 == 0 then 0xD2AD else 0xC324) else if i & 1 == 0 then 0xF1BF else 0xE036)
        else
         (if i & 4 == 0 then (if i & 2 == 0 then (if i & 1 == 0 then 0x18C1 else 0x0948) else if i & 1 == 0 then 0x3BD3 else 0x2A5A)
          else if i & 2 == 0 then (if i & 1 == 0 then 0x5EE5 else 0x4F6C) else if i & 1 == 0 then 0x7DF7 else 0x6C7E)))
      else
       (if i & 16 == 0 then
        (if i & 8 == 0 then
         (if i & 4 == 0 then (if i & 2 == 0 then (if i & 1 == 0 then 0xA50A else 0xB483) else if i & 1 == 0 then 0x8618 else 0x9791)
          else if i & 2 == 0 then (if i & 1 == 0 then 0xE32E else 0xF2A7) else if i & 1 == 0 then 0xC03C else 0xD1B5)
        else
         (if i & 4 == 0 then (if i & 2 == 0 then (if i & 1 == 0 then 0x2942 else 0x38CB) else if i & 1 == 0 then 0x0A50 else 0x1BD9)
          else if i & 2 == 0 then (if i & 1 == 0 then 0x6F66 else 0x7EEF) else if i & 1 == 0 then 0x4C74 else 0x5DFD))
       else
        (if i & 8 == 0 then
         (if i & 4 == 0 then (if i & 2 == 0 then (if i & 1 == 0 then 0xB58B else 0xA402) else if i & 1 == 0 then 0x9699 else 0x8710)
          else if i & 2 == 0 then (if i & 1 == 0 then 0xF3AF else 0xE226) else if i & 1 == 0 then 0xD0BD else 0xC134)
        else
         (if i & 4 == 0 then (if i & 2 == 0 then (if i & 1 == 0 then 0x39C3 else 0x284A) else if i & 1 == 0 then 0x1AD1 else 0x0B58)
          else if i & 2 == 0 then (if i & 1 == 0 then 0x7FE7 else 0x6E6E) else if i & 1 == 0 then 0x5CF5 else 0x4D7C))))
     else
      (if i & 32 == 0 then
       (if i & 16 == 0 then
        (if i & 8 == 0 then
         (if i & 4 == 0 then (if i & 2 == 0 then (if i & 1 == 0 then 0xC60C else 0xD785) else if i & 1 == 0 then 0xE51E else 0xF497)
          else if i & 2 == 0 then (if i & 1 == 0 then 0x8028 else 0x91A1) else if i & 1 == 0 then 0xA33A else 0xB2B3)
        else
         (if i & 4 == 0 then (if i & 2 == 0 then (if i & 1 == 0 then 0x4A44 else 0x5BCD) else if i & 1 == 0 then 0x6956 else 0x78DF)
          else if i & 2 == 0 then (if i & 1 == 0 then 0x0C60 else 0x1DE9) else if i & 1 == 0 then 0x2F72 else 0x3EFB))
       else
        (if i & 8 == 0 then
         (if i & 4 == 0 then (if i & 2 == 0 then (if i & 1 == 0 then 0xD68D else 0xC704) else if i & 1 == 0 then 0xF59F else 0xE416)
          else if i & 2 == 0 then (if i & 1 == 0 then 0x90A9 else 0x8120) else if i & 1 == 0 then 0xB3BB else 0xA232)
        else
         (if i & 4 == 0 then (if i & 2 == 0 then (if i & 1 == 0 then 0x5AC5 else 0x4B4C) else if i & 1 == 0 then 0x79D7 else 0x685E)
          else if i & 2 == 0 then (if i & 1 == 0 then 0x1CE1 else 0x0D68) else if i & 1 == 0 then 0x3FF3 else 0x2E7A)))
      else
       (if i & 16 == 0 then
        (if i & 8 == 0 then
         (if i & 4 == 0 then (if i & 2 == 0 then (if i & 1 == 0 then 0xE70E else 0xF687) else if i & 1 == 0 then 0xC41C else 0xD595)
          else if i & 2 == 0 then (if i & 1 == 0 then 0xA12A else 0xB0A3) else if i & 1 == 0 then 0x8238 else 0x93B1)
        else
         (if i & 4 == 0 then (if i & 2 == 0 then (if i & 1 == 0 then 0x6B46 else 0x7ACF) else if i & 1 == 0 then 0x4854 else 0x59DD)
          else if i & 2 == 0 then (if i & 1 == 0 then 0x2D62 else 0x3CEB) else if i & 1 == 0 then 0x0E70 else 0x1FF9))
       else
        (if i & 8 == 0 then
         (if i & 4 == 0 then (if i & 2 == 0 then (if i & 1 == 0 then 0xF78F else 0xE606) else if i & 1 == 0 then 0xD49D else 0xC514)
          else if i & 2 == 0 then (if i & 1 == 0 then 0xB1AB else 0xA022) else if i & 1 == 0 then 0x92B9 else 0x8330)
        else
         (if i & 4 == 0 then (if i & 2 == 0 then (if i & 1 == 0 then 0x7BC7 else 0x6A4E) else if i & 1 == 0 then 0x58D5 else 0x495C)
          else if i & 2 == 0 then (if i & 1 == 0 then 0x3DE3 else 0x2C6A) else if i & 1 == 0 then 0x1EF1 else 0x0F78))))))
  }

  function Xor(s: bv16, t: bv16): bv16
  {
    s ^ t
  }

  function Half(s: bv16): bv16
  {
    s >> 1
  }

  predicate Odd(s: bv16)
  {
    s & 1 == 1
  }

  // One clock of the reflected CRC register without input.
  function Clock(s: bv16): bv16
  {
    if Odd(s) then Xor(Half(s), 0x8408) else Half(s)
  }

  function BitWord(b: bool): bv16
  {
    if b then 1 else 0
  }

  function Feed(s: bv16, b: bool): bv16
  {
    Clock(Xor(s, BitWord(b)))
  }

  // The bits of a byte in transmission order, least significant first.
  function ByteBits(b: bv8): (r: seq<bool>)
    ensures |r| == 8
  {
    [b & 1 != 0, b & 2 != 0, b & 4 != 0, b & 8 != 0, b & 16 != 0, b & 32 != 0, b & 64 != 0, b & 128 != 0]
  }

  function Bits(bytes: seq<bv8>): (r: seq<bool>)
    ensures |r| == 8 * |bytes|
    decreases |bytes|
  {
    if |bytes| == 0 then [] else ByteBits(bytes[0]) + Bits(bytes[1..])
  }

  // The CRC register after a sequence of bits.
  function Crc(s: bv16, bits: seq<bool>): bv16
    decreases |bits|
  {
    if |bits| == 0 then s else Crc(Feed(s, bits[0]), bits[1..])
  }

  function Fcs(bytes: seq<bv8>): bv16
  {
    Xor(Crc(0xFFFF, Bits(bytes)), 0xFFFF)
  }

  // ----- words ------------------------------------------------------------------

  lemma XorLaws(s: bv16, t: bv16)
    ensures Xor(s, t) == Xor(t, s) && Xor(s, 0) == s && Xor(0, s) == s && Xor(s, s) == 0
    ensures Xor(Xor(s, t), t) == s
  {}

  lemma XorSwap(a: bv16, b: bv16, c: bv16, d: bv16)
    ensures Xor(Xor(a, b), Xor(c, d)) == Xor(Xor(a, c), Xor(b, d))
  {
    hide Xor;
    XorAssoc(a, b, Xor(c, d));
    XorAssoc(b, c, d);
    XorLaws(b, c);
    XorAssoc(c, b, d);
    XorAssoc(a, c, Xor(b, d));
  }

  lemma XorAssoc(a: bv16, b: bv16, c: bv16)
    ensures Xor(Xor(a, b), c) == Xor(a, Xor(b, c))
  {}

  lemma XorZero(s: bv16, t: bv16)
    ensures Xor(s, t) == 0 <==> s == t
  {}

  lemma HalfXor(s: bv16, t: bv16)
    ensures Half(Xor(s, t)) == Xor(Half(s), Half(t))
  {}

  lemma OddXor(s: bv16, t: bv16)
    ensures Odd(Xor(s, t)) <==> Odd(s) != Odd(t)
  {}

  lemma BitLaws(b: bool)
    ensures Half(BitWord(b)) == 0 && Odd(BitWord(b)) == b
    ensures Half(0) == 0 && !Odd(0)
  {}

  lemma ClockXor(s: bv16, t: bv16)
    ensures Clock(Xor(s, t)) == Xor(Clock(s), Clock(t))
  {
    hide Xor, Half, Odd;
    HalfXor(s, t);
    OddXor(s, t);
    var u, v, g := Half(s), Half(t), 0x8408;
    XorSwap(u, g, v, g);
    XorSwap(u, g, v, 0);
    XorSwap(u, 0, v, g);
    XorLaws(g, g);
    XorLaws(g, 0);
    XorLaws(u, 0);
    XorLaws(v, 0);
    XorLaws(Xor(u, v), 0);
  }

  // ----- the table ------------------------------------------------------------

  function Clock8(s: bv16): bv16
  {
    Clock(Clock(Clock(Clock(Clock(Clock(Clock(Clock(s))))))))
  }

  lemma LowTable(i: bv8, s: bv16)
    requires i < 128 && s == i as bv16
    ensures Table(i) == Clock8(s)
  {}

  lemma HighTable(i: bv8, s: bv16)
    requires i >= 128 && s == i as bv16
    ensures Table(i) == Clock8(s)
  {}

  lemma TableIsClock8(i: bv8)
    ensures Table(i) == Clock8(i as bv16)
  {
    hide Table, Clock8;
    if i < 128 {
      LowTable(i, i as bv16);
    } else {
      HighTable(i, i as bv16);
    }
  }

  lemma Clock8Xor(s: bv16, t: bv16)
    ensures Clock8(Xor(s, t)) == Xor(Clock8(s), Clock8(t))
  {
    hide Clock, Xor;
    ClockXor(s, t);
    var s1, t1 := Clock(s), Clock(t);
    ClockXor(s1, t1);
    var s2, t2 := Clock(s1), Clock(t1);
    ClockXor(s2, t2);
    var s3, t3 := Clock(s2), Clock(t2);
    ClockXor(s3, t3);
    var s4, t4 := Clock(s3), Clock(t3);
    ClockXor(s4, t4);
    var s5, t5 := Clock(s4), Clock(t4);
    ClockXor(s5, t5);
    var s6, t6 := Clock(s5), Clock(t5);
    ClockXor(s6, t6);
    var s7, t7 := Clock(s6), Clock(t6);
    ClockXor(s7, t7);
  }

  function Low(s: bv16): bv16
  {
    s & 0xFF
  }

  function High(s: bv16): bv16
  {
    s & 0xFF00
  }

  function Wide(b: bv8): bv16
  {
    b as bv16
  }

  // The index and the shifted register of one step of the table loop.
  function TableIndex(s: bv16, b: bv8): bv8
  {
    ((s ^ (b as bv16)) & 0xFF) as bv8
  }

  function Upper(s: bv16): bv16
  {
    s >> 8
  }

  lemma SplitWord(s: bv16, b: bv8)
    ensures Wide(TableIndex(s, b)) == Low(Xor(s, Wide(b)))
    ensures Upper(Xor(s, Wide(b))) == Upper(s)
  {}

  lemma LowHigh(x: bv16)
    ensures Xor(Upper(x), Clock8(Low(x))) == Clock8(x)
  {
    hide Clock8, Xor, Upper;
    Clock8Xor(Low(x), High(x));
    assert x == Xor(Low(x), High(x)) by { LowXorHigh(x); }
    ClockHigh(x);
    XorLaws(Upper(x), Clock8(Low(x)));
  }

  lemma LowXorHigh(x: bv16)
    ensures x == Xor(Low(x), High(x))
  {}

  // Eight clocks only shift bits that are above the low byte.
  lemma ClockHigh(x: bv16)
    ensures Clock8(High(x)) == Upper(x)
  {}

  // One step of the table loop is eight clocks of the register with the byte added.
  lemma TableStep(s: bv16, b: bv8)
    ensures Xor(Upper(s), Table(TableIndex(s, b))) == Clock8(Xor(s, Wide(b)))
  {
    hide Table, Clock8, Xor, Upper, TableIndex, Low;
    SplitWord(s, b);
    TableIsClock8(TableIndex(s, b));
    LowHigh(Xor(s, Wide(b)));
  }

  // ----- bit at a time ----------------------------------------------------------

  // Input bits that are not due yet just move down.
  lemma ClockLater(s: bv16, v: bv16)
    ensures Clock(Xor(s, v)) == Xor(Feed(s, Odd(v)), Half(v))
  {
    hide Xor, Half, Odd, BitWord;
    var b := BitWord(Odd(v));
    ClockXor(s, v);
    ClockXor(s, b);
    BitLaws(Odd(v));
    XorLaws(Half(v), 0x8408);
    XorLaws(Clock(s), 0);
    XorLaws(0x8408, 0);
    XorSwap(Clock(s), 0, Half(v), 0x8408);
    XorSwap(Clock(s), 0x8408, 0, Half(v));
    XorLaws(Half(v), 0);
    XorLaws(Clock(s), 0x8408);
  }

  lemma ByteHalves(b: bv8)
    ensures var v, r := Wide(b), ByteBits(b);
      Odd(v) == r[0] && Odd(Half(v)) == r[1] && Odd(Half(Half(v))) == r[2] && Odd(Half(Half(Half(v)))) == r[3]
  {}

  lemma ByteUpperHalves(b: bv8)
    ensures var v, r := Half(Half(Half(Half(Wide(b))))), ByteBits(b);
      Odd(v) == r[4] && Odd(Half(v)) == r[5] && Odd(Half(Half(v))) == r[6] && Odd(Half(Half(Half(v)))) == r[7] &&
      Half(Half(Half(Half(v)))) == 0
  {}

  lemma ByteSteps(s: bv16, b: bv8)
    ensures Crc(s, ByteBits(b)) == Clock8(Xor(s, Wide(b)))
  {
    hide Clock, Feed, Xor, Half, Odd, ByteBits, Wide;
    var r := ByteBits(b);
    var v := Wide(b);
    ByteHalves(b);
    ByteUpperHalves(b);
    CrcEight(s, r);
    ClockLater(s, v);
    var s1, v1 := Feed(s, r[0]), Half(v);
    ClockLater(s1, v1);
    var s2, v2 := Feed(s1, r[1]), Half(v1);
    ClockLater(s2, v2);
    var s3, v3 := Feed(s2, r[2]), Half(v2);
    ClockLater(s3, v3);
    var s4, v4 := Feed(s3, r[3]), Half(v3);
    ClockLater(s4, v4);
    var s5, v5 := Feed(s4, r[4]), Half(v4);
    ClockLater(s5, v5);
    var s6, v6 := Feed(s5, r[5]), Half(v5);
    ClockLater(s6, v6);
    var s7, v7 := Feed(s6, r[6]), Half(v6);
    ClockLater(s7, v7);
    XorLaws(Feed(s7, r[7]), 0);
  }

  lemma CrcEight(s: bv16, r: seq<bool>)
    requires |r| == 8
    ensures Crc(s, r)
         == Feed(Feed(Feed(Feed(Feed(Feed(Feed(Feed(s, r[0]), r[1]), r[2]), r[3]), r[4]), r[5]), r[6]), r[7])
  {
    hide Feed, Crc;
    CrcFour(s, r[..4]);
    CrcFour(Crc(s, r[..4]), r[4..]);
    CrcConcat(s, r[..4], r[4..]);
    assert r[..4] + r[4..] == r;
  }

  lemma CrcFour(s: bv16, r: seq<bool>)
    requires |r| == 4
    ensures Crc(s, r) == Feed(Feed(Feed(Feed(s, r[0]), r[1]), r[2]), r[3])
  {
    hide Feed;
    var s1 := Feed(s, r[0]);
    assert r[1..][1..] == r[2..] && r[2..][1..] == r[3..] && r[3..][1..] == [];
    assert Crc(s1, r[1..]) == Crc(Feed(s1, r[1]), r[2..]);
    var s3 := Feed(Feed(s1, r[1]), r[2]);
    assert Crc(Feed(s1, r[1]), r[2..]) == Crc(s3, r[3..]);
    assert Crc(s3, r[3..]) == Crc(Feed(s3, r[3]), []);
  }

  lemma {:induction false} CrcConcat(s: bv16, a: seq<bool>, b: seq<bool>)
    ensures Crc(s, a + b) == Crc(Crc(s, a), b)
    decreases |a|
  {
    hide Feed;
    if |a| == 0 {
      assert a + b == b;
    } else {
      assert (a + b)[1..] == a[1..] + b;
      CrcConcat(Feed(s, a[0]), a[1..], b);
    }
  }

  lemma {:induction false} BitsConcat(a: seq<bv8>, b: seq<bv8>)
    ensures Bits(a + b) == Bits(a) + Bits(b)
    decreases |a|
  {
    hide ByteBits;
    if |a| == 0 {
      assert a + b == b;
    } else {
      assert (a + b)[1..] == a[1..] + b;
      BitsConcat(a[1..], b);
    }
  }

  lemma BitsMore(a: seq<bv8>, b: bv8)
    ensures Bits(a + [b]) == Bits(a) + ByteBits(b)
  {
    hide ByteBits;
    BitsConcat(a, [b]);
    assert [b][1..] == [];
    assert Bits([b]) == ByteBits(b);
  }

  // ax25_fcs, on the len bytes from start on.
  method ComputeFcs(buffer: array<bv8>, start: nat, len: nat) returns (fcs: bv16)
    requires start + len <= buffer.Length
    ensures fcs == Fcs(buffer[start..start + len])
  {
    hide Table, Crc, Clock8, ByteBits, Bits, Xor, Upper, TableIndex, Wide;
    fcs := 0xFFFF;
    var i := 0;
    assert Crc(0xFFFF, Bits([])) == 0xFFFF by { CrcOfNothing(); }
    assert buffer[start..start + 0] == [];
    while i < len
      invariant 0 <= i <= len
      invariant fcs == Crc(0xFFFF, Bits(buffer[start..start + i]))
    {
      ghost var done, b := buffer[start..start + i], buffer[start + i];
      TableStep(fcs, b);
      ByteSteps(fcs, b);
      BitsMore(done, b);
      CrcConcat(0xFFFF, Bits(done), ByteBits(b));
      assert buffer[start..start + (i + 1)] == done + [b];
      fcs := Xor(Upper(fcs), Table(TableIndex(fcs, buffer[start + i])));
      i := i + 1;
    }
    fcs := Xor(fcs, 0xFFFF);
  }

  lemma CrcOfNothing()
    ensures Crc(0xFFFF, Bits([])) == 0xFFFF
  {}

  // ----- burst detection -------------------------------------------------------

  function XorBits(a: seq<bool>, b: seq<bool>): (r: seq<bool>)
    requires |a| == |b|
    ensures |r| == |a|
  {
    seq(|a|, i requires 0 <= i < |a| => a[i] != b[i])
  }

  lemma BitWordXor(a: bool, b: bool)
    ensures Xor(BitWord(a), BitWord(b)) == BitWord(a != b)
  {}

  lemma FeedXor(s: bv16, t: bv16, a: bool, b: bool)
    ensures Xor(Feed(s, a), Feed(t, b)) == Feed(Xor(s, t), a != b)
  {
    hide Clock, Xor, BitWord;
    ClockXor(Xor(s, BitWord(a)), Xor(t, BitWord(b)));
    XorSwap(s, BitWord(a), t, BitWord(b));
    BitWordXor(a, b);
  }

  // The CRC is linear: the difference of two registers runs on the difference of
  // the two inputs.
  lemma {:induction false} CrcXor(s: bv16, t: bv16, a: seq<bool>, b: seq<bool>)
    requires |a| == |b|
    ensures Xor(Crc(s, a), Crc(t, b)) == Crc(Xor(s, t), XorBits(a, b))
    decreases |a|
  {
    hide Feed, Xor;
    if |a| > 0 {
      FeedXor(s, t, a[0], b[0]);
      CrcXor(Feed(s, a[0]), Feed(t, b[0]), a[1..], b[1..]);
      assert XorBits(a, b)[1..] == XorBits(a[1..], b[1..]);
    }
  }

  lemma FeedZero(s: bv16)
    ensures Feed(s, false) == 0 <==> s == 0
  {}

  lemma {:induction false} ZerosKeep(s: bv16, a: seq<bool>)
    requires forall i :: 0 <= i < |a| ==> !a[i]
    ensures Crc(s, a) == 0 <==> s == 0
    decreases |a|
  {
    hide Feed;
    if |a| > 0 {
      FeedZero(s);
      ZerosKeep(Feed(s, false), a[1..]);
    }
  }

  // The word v shifted up by one place, with bit b at the bottom.
  function Append(v: bv16, b: bool): bv16
  {
    (v << 1) ^ BitWord(b)
  }

  // The word whose bits are a, the first bit lowest.
  function Word(a: seq<bool>): bv16
    decreases |a|
  {
    if |a| == 0 then 0 else Append(Word(a[1..]), a[0])
  }

  // No bit at or above position n.
  predicate Below(s: bv16, n: nat)
  {
    if n == 0 then s == 0 else Below(Half(s), n - 1)
  }

  lemma {:induction false} BelowMore(v: bv16, n: nat)
    requires Below(v, n)
    ensures Below(v, n + 1)
    decreases n
  {
    hide Half;
    if n == 0 {
      BitLaws(false);
    } else {
      BelowMore(Half(v), n - 1);
    }
  }

  lemma {:induction false} BelowUpTo(v: bv16, n: nat, m: nat)
    requires Below(v, n) && n <= m
    ensures Below(v, m)
    decreases m
  {
    if n < m {
      BelowUpTo(v, n, m - 1);
      BelowMore(v, m - 1);
    }
  }

  lemma BelowFive(v: bv16, n: nat)
    ensures Below(v, n + 5) == Below(v >> 5, n)
  {
    assert Half(Half(Half(Half(Half(v))))) == v >> 5;
    assert Below(v, n + 5) == Below(Half(v), n + 4) == Below(Half(Half(v)), n + 3) == Below(Half(Half(Half(v))), n + 2);
    assert Below(Half(Half(Half(v))), n + 2) == Below(Half(Half(Half(Half(v)))), n + 1) == Below(v >> 5, n);
  }

  lemma BelowTop(v: bv16, n: nat)
    requires Below(v, n) && n < 16
    ensures v & 0x8000 == 0
  {
    hide Half;
    BelowUpTo(v, n, 15);
    BelowFive(v, 10);
    BelowFive(v >> 5, 5);
    BelowFive((v >> 5) >> 5, 0);
    assert ((v >> 5) >> 5) >> 5 == v >> 15;
    TopBit(v);
  }

  lemma TopBit(v: bv16)
    requires v >> 15 == 0
    ensures v & 0x8000 == 0
  {}

  lemma HalfOfAppend(v: bv16, b: bool)
    requires v & 0x8000 == 0
    ensures Half(Append(v, b)) == v
    ensures Append(v, b) == 0 <==> v == 0 && !b
  {}

  // A register that a step leaves below 2^15 was not fed back into.
  lemma FeedBack(s: bv16, b: bool)
    requires Feed(s, b) & 0x8000 == 0
    ensures s == Append(Feed(s, b), b)
  {}

  // At most 16 bits bring the register to zero only if they repeat its content.
  lemma {:induction false} BackFromZero(s: bv16, a: seq<bool>)
    requires |a| <= 16 && Crc(s, a) == 0
    ensures s == Word(a) && Below(s, |a|)
    decreases |a|
  {
    hide Feed, Append, Half;
    if |a| > 0 {
      var v := Feed(s, a[0]);
      BackFromZero(v, a[1..]);
      BelowTop(v, |a| - 1);
      FeedBack(s, a[0]);
      HalfOfAppend(v, a[0]);
    }
  }

  lemma {:induction false} WordZero(a: seq<bool>)
    requires |a| <= 16
    ensures Below(Word(a), |a|)
    ensures Word(a) == 0 ==> forall i :: 0 <= i < |a| ==> !a[i]
    decreases |a|
  {
    hide Append, Half;
    if |a| > 0 {
      WordZero(a[1..]);
      BelowTop(Word(a[1..]), |a| - 1);
      HalfOfAppend(Word(a[1..]), a[0]);
      if Word(a) == 0 {
        forall i | 0 <= i < |a|
          ensures !a[i]
        {
          if i > 0 {
            assert a[i] == a[1..][i - 1];
          }
        }
      }
    }
  }

  lemma XorBitsAt(a: seq<bool>, b: seq<bool>, i: nat)
    requires |a| == |b| && i < |a|
    ensures XorBits(a, b)[i] == (a[i] != b[i])
  {}

  // A nonzero input confined to 16 consecutive bits leaves a nonzero register.
  lemma BurstRemains(e: seq<bool>, first: nat, len: nat)
    requires len <= 16 && first + len <= |e|
    requires forall i :: 0 <= i < |e| && !(first <= i < first + len) ==> !e[i]
    requires Crc(0, e) == 0
    ensures forall i :: 0 <= i < |e| ==> !e[i]
  {
    hide *;
    var a, r := e[..first], e[first..];
    var m, z := r[..len], r[len..];
    assert e == a + r && r == m + z;
    CrcConcat(0, a, r);
    ZerosKeep(0, a);
    CrcConcat(0, m, z);
    ZerosKeep(Crc(0, m), z);
    BackFromZero(0, m);
    WordZero(m);
    forall i | 0 <= i < |e|
      ensures !e[i]
    {
      if first <= i < first + len {
        assert !m[i - first];
      }
    }
  }

  // Two frames of equal length whose transmitted bits differ, but only inside a
  // window of at most 16 bits, never have the same FCS.
  lemma BurstDetected(x: seq<bv8>, y: seq<bv8>, first: nat, len: nat)
    requires |x| == |y| && len <= 16 && first + len <= 8 * |x|
    requires Bits(x) != Bits(y)
    requires forall i :: 0 <= i < 8 * |x| && !(first <= i < first + len) ==> Bits(x)[i] == Bits(y)[i]
    ensures Fcs(x) != Fcs(y)
  {
    hide Crc, Bits, Xor, XorBits;
    var u, v := Bits(x), Bits(y);
    var e := XorBits(u, v);
    XorLaws(Crc(0xFFFF, u), 0xFFFF);
    XorLaws(Crc(0xFFFF, v), 0xFFFF);
    if Fcs(x) == Fcs(y) {
      CrcXor(0xFFFF, 0xFFFF, u, v);
      XorLaws(0xFFFF, 0xFFFF);
      XorZero(Crc(0xFFFF, u), Crc(0xFFFF, v));
      forall i | 0 <= i < |e|
        ensures e[i] == (u[i] != v[i])
      {
        XorBitsAt(u, v, i);
      }
      BurstRemains(e, first, len);
    }
  }
}
