// The tables of meteor_image.cc: the AC table T_AC_0 as canonical codes with their run and size
// symbols, the DC categories, and the lookup of either from the next sixteen bits.
module JpegTables {
  import opened Huffman

  // ----- the tables as given ------------------------------------------------------------

  // How many AC codes there are of each length.
  function AcCounts(): (c: seq<nat>)
    ensures |c| == MAX_LEN
  {
    [0, 2, 1, 3, 3, 2, 4, 3, 5, 5, 4, 4, 0, 0, 1, 125]
  }

  // The DC categories 0 to 11 have canonical codes of two to nine bits.
  function DcCounts(): (c: seq<nat>)
    ensures |c| == MAX_LEN
  {
    [0, 1, 5, 1, 1, 1, 1, 1, 1, 0, 0, 0, 0, 0, 0, 0]
  }

  const AC_CODES := 162
  const DC_CODES := 12

  // The symbols of T_AC_0, in the order of their codes: run length and size, four bits each.
  function Symbols0(i: nat): nat {
    if i == 0 then 1 else if i == 1 then 2 else if i == 2 then 3 else if i == 3 then 0 else if i == 4 then 4
    else if i == 5 then 17 else if i == 6 then 5 else if i == 7 then 18 else if i == 8 then 33
    else if i == 9 then 49 else if i == 10 then 65 else if i == 11 then 6 else if i == 12 then 19
    else if i == 13 then 81 else if i == 14 then 97 else 7
  }

  function Symbols1(i: nat): nat {
    if i == 0 then 34 else if i == 1 then 113 else if i == 2 then 20 else if i == 3 then 50 else if i == 4 then 129
    else if i == 5 then 145 else if i == 6 then 161 else if i == 7 then 8 else if i == 8 then 35
    else if i == 9 then 66 else if i == 10 then 177 else if i == 11 then 193 else if i == 12 then 21
    else if i == 13 then 82 else if i == 14 then 209 else 240
  }

  function Symbols2(i: nat): nat {
    if i == 0 then 36 else if i == 1 then 51 else if i == 2 then 98 else if i == 3 then 114 else if i == 4 then 130
    else if i == 5 then 9 else if i == 6 then 10 else if i == 7 then 22 else if i == 8 then 23
    else if i == 9 then 24 else if i == 10 then 25 else if i == 11 then 26 else if i == 12 then 37
    else if i == 13 then 38 else if i == 14 then 39 else 40
  }

  function Symbols3(i: nat): nat {
    if i == 0 then 41 else if i == 1 then 42 else if i == 2 then 52 else if i == 3 then 53 else if i == 4 then 54
    else if i == 5 then 55 else if i == 6 then 56 else if i == 7 then 57 else if i == 8 then 58
    else if i == 9 then 67 else if i == 10 then 68 else if i == 11 then 69 else if i == 12 then 70
    else if i == 13 then 71 else if i == 14 then 72 else 73
  }

  function Symbols4(i: nat): nat {
    if i == 0 then 74 else if i == 1 then 83 else if i == 2 then 84 else if i == 3 then 85 else if i == 4 then 86
    else if i == 5 then 87 else if i == 6 then 88 else if i == 7 then 89 else if i == 8 then 90
    else if i == 9 then 99 else if i == 10 then 100 else if i == 11 then 101 else if i == 12 then 102
    else if i == 13 then 103 else if i == 14 then 104 else 105
  }

  function Symbols5(i: nat): nat {
    if i == 0 then 106 else if i == 1 then 115 else if i == 2 then 116 else if i == 3 then 117
    else if i == 4 then 118 else if i == 5 then 119 else if i == 6 then 120 else if i == 7 then 121
    else if i == 8 then 122 else if i == 9 then 131 else if i == 10 then 132 else if i == 11 then 133
    else if i == 12 then 134 else if i == 13 then 135 else if i == 14 then 136 else 137
  }

  function Symbols6(i: nat): nat {
    if i == 0 then 138 else if i == 1 then 146 else if i == 2 then 147 else if i == 3 then 148
    else if i == 4 then 149 else if i == 5 then 150 else if i == 6 then 151 else if i == 7 then 152
    else if i == 8 then 153 else if i == 9 then 154 else if i == 10 then 162 else if i == 11 then 163
    else if i == 12 then 164 else if i == 13 then 165 else if i == 14 then 166 else 167
  }

  function Symbols7(i: nat): nat {
    if i == 0 then 168 else if i == 1 then 169 else if i == 2 then 170 else if i == 3 then 178
    else if i == 4 then 179 else if i == 5 then 180 else if i == 6 then 181 else if i == 7 then 182
    else if i == 8 then 183 else if i == 9 then 184 else if i == 10 then 185 else if i == 11 then 186
    else if i == 12 then 194 else if i == 13 then 195 else if i == 14 then 196 else 197
  }

  function Symbols8(i: nat): nat {
    if i == 0 then 198 else if i == 1 then 199 else if i == 2 then 200 else if i == 3 then 201
    else if i == 4 then 202 else if i == 5 then 210 else if i == 6 then 211 else if i == 7 then 212
    else if i == 8 then 213 else if i == 9 then 214 else if i == 10 then 215 else if i == 11 then 216
    else if i == 12 then 217 else if i == 13 then 218 else if i == 14 then 225 else 226
  }

  function Symbols9(i: nat): nat {
    if i == 0 then 227 else if i == 1 then 228 else if i == 2 then 229 else if i == 3 then 230
    else if i == 4 then 231 else if i == 5 then 232 else if i == 6 then 233 else if i == 7 then 234
    else if i == 8 then 241 else if i == 9 then 242 else if i == 10 then 243 else if i == 11 then 244
    else if i == 12 then 245 else if i == 13 then 246 else if i == 14 then 247 else 248
  }

  function Symbols10(i: nat): nat {
    if i == 0 then 249 else 250
  }

  function Symbol(n: nat): nat {
    var i := n % 16;
    if n < 16 then Symbols0(i)
    else if n < 32 then Symbols1(i)
    else if n < 48 then Symbols2(i)
    else if n < 64 then Symbols3(i)
    else if n < 80 then Symbols4(i)
    else if n < 96 then Symbols5(i)
    else if n < 112 then Symbols6(i)
    else if n < 128 then Symbols7(i)
    else if n < 144 then Symbols8(i)
    else if n < 160 then Symbols9(i)
    else Symbols10(i)
  }

  // Where the symbol for a run of zeros and a size stands.
  function Index0(i: nat): nat {
    if i == 0 then 3 else if i == 1 then 0 else if i == 2 then 1 else if i == 3 then 2 else if i == 4 then 4
    else if i == 5 then 6 else if i == 6 then 11 else if i == 7 then 15 else if i == 8 then 23
    else if i == 9 then 37 else 38
  }

  function Index1(i: nat): nat {
    if i == 0 then 0 else if i == 1 then 5 else if i == 2 then 7 else if i == 3 then 12 else if i == 4 then 18
    else if i == 5 then 28 else if i == 6 then 39 else if i == 7 then 40 else if i == 8 then 41
    else if i == 9 then 42 else 43
  }

  function Index2(i: nat): nat {
    if i == 0 then 0 else if i == 1 then 8 else if i == 2 then 16 else if i == 3 then 24 else if i == 4 then 32
    else if i == 5 then 44 else if i == 6 then 45 else if i == 7 then 46 else if i == 8 then 47
    else if i == 9 then 48 else 49
  }

  function Index3(i: nat): nat {
    if i == 0 then 0 else if i == 1 then 9 else if i == 2 then 19 else if i == 3 then 33 else if i == 4 then 50
    else if i == 5 then 51 else if i == 6 then 52 else if i == 7 then 53 else if i == 8 then 54
    else if i == 9 then 55 else 56
  }

  function Index4(i: nat): nat {
    if i == 0 then 0 else if i == 1 then 10 else if i == 2 then 25 else if i == 3 then 57 else if i == 4 then 58
    else if i == 5 then 59 else if i == 6 then 60 else if i == 7 then 61 else if i == 8 then 62
    else if i == 9 then 63 else 64
  }

  function Index5(i: nat): nat {
    if i == 0 then 0 else if i == 1 then 13 else if i == 2 then 29 else if i == 3 then 65 else if i == 4 then 66
    else if i == 5 then 67 else if i == 6 then 68 else if i == 7 then 69 else if i == 8 then 70
    else if i == 9 then 71 else 72
  }

  function Index6(i: nat): nat {
    if i == 0 then 0 else if i == 1 then 14 else if i == 2 then 34 else if i == 3 then 73 else if i == 4 then 74
    else if i == 5 then 75 else if i == 6 then 76 else if i == 7 then 77 else if i == 8 then 78
    else if i == 9 then 79 else 80
  }

  function Index7(i: nat): nat {
    if i == 0 then 0 else if i == 1 then 17 else if i == 2 then 35 else if i == 3 then 81 else if i == 4 then 82
    else if i == 5 then 83 else if i == 6 then 84 else if i == 7 then 85 else if i == 8 then 86
    else if i == 9 then 87 else 88
  }

  function Index8(i: nat): nat {
    if i == 0 then 0 else if i == 1 then 20 else if i == 2 then 36 else if i == 3 then 89 else if i == 4 then 90
    else if i == 5 then 91 else if i == 6 then 92 else if i == 7 then 93 else if i == 8 then 94
    else if i == 9 then 95 else 96
  }

  function Index9(i: nat): nat {
    if i == 0 then 0 else if i == 1 then 21 else if i == 2 then 97 else if i == 3 then 98 else if i == 4 then 99
    else if i == 5 then 100 else if i == 6 then 101 else if i == 7 then 102 else if i == 8 then 103
    else if i == 9 then 104 else 105
  }

  function Index10(i: nat): nat {
    if i == 0 then 0 else if i == 1 then 22 else if i == 2 then 106 else if i == 3 then 107 else if i == 4 then 108
    else if i == 5 then 109 else if i == 6 then 110 else if i == 7 then 111 else if i == 8 then 112
    else if i == 9 then 113 else 114
  }

  function Index11(i: nat): nat {
    if i == 0 then 0 else if i == 1 then 26 else if i == 2 then 115 else if i == 3 then 116 else if i == 4 then 117
    else if i == 5 then 118 else if i == 6 then 119 else if i == 7 then 120 else if i == 8 then 121
    else if i == 9 then 122 else 123
  }

  function Index12(i: nat): nat {
    if i == 0 then 0 else if i == 1 then 27 else if i == 2 then 124 else if i == 3 then 125 else if i == 4 then 126
    else if i == 5 then 127 else if i == 6 then 128 else if i == 7 then 129 else if i == 8 then 130
    else if i == 9 then 131 else 132
  }

  function Index13(i: nat): nat {
    if i == 0 then 0 else if i == 1 then 30 else if i == 2 then 133 else if i == 3 then 134 else if i == 4 then 135
    else if i == 5 then 136 else if i == 6 then 137 else if i == 7 then 138 else if i == 8 then 139
    else if i == 9 then 140 else 141
  }

  function Index14(i: nat): nat {
    if i == 0 then 0 else if i == 1 then 142 else if i == 2 then 143 else if i == 3 then 144 else if i == 4 then 145
    else if i == 5 then 146 else if i == 6 then 147 else if i == 7 then 148 else if i == 8 then 149
    else if i == 9 then 150 else 151
  }

  function Index15(i: nat): nat {
    if i == 0 then 31 else if i == 1 then 152 else if i == 2 then 153 else if i == 3 then 154
    else if i == 4 then 155 else if i == 5 then 156 else if i == 6 then 157 else if i == 7 then 158
    else if i == 8 then 159 else if i == 9 then 160 else 161
  }

  function Index(run: nat, size: nat): nat {
    if run == 0 then Index0(size)
    else if run == 1 then Index1(size)
    else if run == 2 then Index2(size)
    else if run == 3 then Index3(size)
    else if run == 4 then Index4(size)
    else if run == 5 then Index5(size)
    else if run == 6 then Index6(size)
    else if run == 7 then Index7(size)
    else if run == 8 then Index8(size)
    else if run == 9 then Index9(size)
    else if run == 10 then Index10(size)
    else if run == 11 then Index11(size)
    else if run == 12 then Index12(size)
    else if run == 13 then Index13(size)
    else if run == 14 then Index14(size)
    else Index15(size)
  }

  predicate Coded(run: nat, size: nat) {
    run <= 15 && size <= 10 && (size > 0 || run == 0 || run == 15)
  }

  lemma IndexFinds0(size: nat)
    requires size <= 10
    ensures Index0(size) < AC_CODES && Symbol(Index0(size)) == 0 + size
  {}

  lemma IndexFinds1(size: nat)
    requires 1 <= size <= 10
    ensures Index1(size) < AC_CODES && Symbol(Index1(size)) == 16 + size
  {}

  lemma IndexFinds2(size: nat)
    requires 1 <= size <= 10
    ensures Index2(size) < AC_CODES && Symbol(Index2(size)) == 32 + size
  {}

  lemma IndexFinds3(size: nat)
    requires 1 <= size <= 10
    ensures Index3(size) < AC_CODES && Symbol(Index3(size)) == 48 + size
  {}

  lemma IndexFinds4(size: nat)
    requires 1 <= size <= 10
    ensures Index4(size) < AC_CODES && Symbol(Index4(size)) == 64 + size
  {}

  lemma IndexFinds5(size: nat)
    requires 1 <= size <= 10
    ensures Index5(size) < AC_CODES && Symbol(Index5(size)) == 80 + size
  {}

  lemma IndexFinds6(size: nat)
    requires 1 <= size <= 10
    ensures Index6(size) < AC_CODES && Symbol(Index6(size)) == 96 + size
  {}

  lemma IndexFinds7(size: nat)
    requires 1 <= size <= 10
    ensures Index7(size) < AC_CODES && Symbol(Index7(size)) == 112 + size
  {}

  lemma IndexFinds8(size: nat)
    requires 1 <= size <= 10
    ensures Index8(size) < AC_CODES && Symbol(Index8(size)) == 128 + size
  {}

  lemma IndexFinds9(size: nat)
    requires 1 <= size <= 10
    ensures Index9(size) < AC_CODES && Symbol(Index9(size)) == 144 + size
  {}

  lemma IndexFinds10(size: nat)
    requires 1 <= size <= 10
    ensures Index10(size) < AC_CODES && Symbol(Index10(size)) == 160 + size
  {}

  lemma IndexFinds11(size: nat)
    requires 1 <= size <= 10
    ensures Index11(size) < AC_CODES && Symbol(Index11(size)) == 176 + size
  {}

  lemma IndexFinds12(size: nat)
    requires 1 <= size <= 10
    ensures Index12(size) < AC_CODES && Symbol(Index12(size)) == 192 + size
  {}

  lemma IndexFinds13(size: nat)
    requires 1 <= size <= 10
    ensures Index13(size) < AC_CODES && Symbol(Index13(size)) == 208 + size
  {}

  lemma IndexFinds14(size: nat)
    requires 1 <= size <= 10
    ensures Index14(size) < AC_CODES && Symbol(Index14(size)) == 224 + size
  {}

  lemma IndexFinds15(size: nat)
    requires size <= 10
    ensures Index15(size) < AC_CODES && Symbol(Index15(size)) == 240 + size
  {}

  // Every run and size that can occur has a code.
  lemma IndexFinds(run: nat, size: nat)
    requires Coded(run, size)
    ensures Index(run, size) < AC_CODES && Symbol(Index(run, size)) == 16 * run + size
  {
    hide Symbol;
    if run == 0 { IndexFinds0(size); }
    else if run == 1 { IndexFinds1(size); }
    else if run == 2 { IndexFinds2(size); }
    else if run == 3 { IndexFinds3(size); }
    else if run == 4 { IndexFinds4(size); }
    else if run == 5 { IndexFinds5(size); }
    else if run == 6 { IndexFinds6(size); }
    else if run == 7 { IndexFinds7(size); }
    else if run == 8 { IndexFinds8(size); }
    else if run == 9 { IndexFinds9(size); }
    else if run == 10 { IndexFinds10(size); }
    else if run == 11 { IndexFinds11(size); }
    else if run == 12 { IndexFinds12(size); }
    else if run == 13 { IndexFinds13(size); }
    else if run == 14 { IndexFinds14(size); }
    else { IndexFinds15(size); }
  }

  lemma PowersOfTwo()
    ensures Power2(1) == 2 && Power2(2) == 4 && Power2(3) == 8 && Power2(4) == 16 && Power2(5) == 32 && Power2(6) == 64
    ensures Power2(7) == 128 && Power2(8) == 256 && Power2(9) == 512 && Power2(10) == 1024 && Power2(11) == 2048
    ensures Power2(12) == 4096 && Power2(13) == 8192 && Power2(14) == 16384 && Power2(15) == 32768 && Power2(16) == 65536
  {}

  lemma AcFirsts()
    ensures var c := AcCounts();
      First(c, 1) == 0 && First(c, 2) == 0 && First(c, 3) == 4 && First(c, 4) == 10 && First(c, 5) == 26 && First(c, 6) == 58 &&
      First(c, 7) == 120 && First(c, 8) == 248 && First(c, 9) == 502 && First(c, 10) == 1014 && First(c, 11) == 2038 &&
      First(c, 12) == 4084 && First(c, 13) == 8176 && First(c, 14) == 16352 && First(c, 15) == 32704 && First(c, 16) == 65410
  {}

  lemma DcFirsts()
    ensures var c := DcCounts();
      First(c, 1) == 0 && First(c, 2) == 0 && First(c, 3) == 2 && First(c, 4) == 14 && First(c, 5) == 30 && First(c, 6) == 62 &&
      First(c, 7) == 126 && First(c, 8) == 254 && First(c, 9) == 510 && First(c, 10) == 1022 && First(c, 11) == 2044 &&
      First(c, 12) == 4088 && First(c, 13) == 8176 && First(c, 14) == 16352 && First(c, 15) == 32704 && First(c, 16) == 65408
  {}

  lemma AcRoom(k: nat)
    requires 1 <= k <= MAX_LEN
    ensures First(AcCounts(), k) + AcCounts()[k - 1] <= Power2(k)
  {
    var c := AcCounts();
    assert c[0] == 0 && c[1] == 2 && c[2] == 1 && c[3] == 3 && c[4] == 3 && c[5] == 2 && c[6] == 4 && c[7] == 3 && c[8] == 5 && c[9] == 5 && c[10] == 4 && c[11] == 4 && c[12] == 0 && c[13] == 0 && c[14] == 1 && c[15] == 125;
    hide First, Power2, AcCounts;
    PowersOfTwo();
    AcFirsts();
  }

  lemma AcTotal()
    ensures Total(AcCounts(), 1) == AC_CODES
  {
    var c := AcCounts();
    assert Total(c, 16) == 125;
    assert Total(c, 15) == 126;
    assert Total(c, 14) == 126;
    assert Total(c, 13) == 126;
    assert Total(c, 12) == 130;
    assert Total(c, 11) == 134;
    assert Total(c, 10) == 139;
    assert Total(c, 9) == 144;
    assert Total(c, 8) == 147;
    assert Total(c, 7) == 151;
    assert Total(c, 6) == 153;
    assert Total(c, 5) == 156;
    assert Total(c, 4) == 159;
    assert Total(c, 3) == 160;
    assert Total(c, 2) == 162;
    assert Total(c, 1) == 162;
  }

  lemma DcRoom(k: nat)
    requires 1 <= k <= MAX_LEN
    ensures First(DcCounts(), k) + DcCounts()[k - 1] <= Power2(k)
  {
    var c := DcCounts();
    assert c[0] == 0 && c[1] == 1 && c[2] == 5 && c[3] == 1 && c[4] == 1 && c[5] == 1 && c[6] == 1 && c[7] == 1 && c[8] == 1 && c[9] == 0 && c[10] == 0 && c[11] == 0 && c[12] == 0 && c[13] == 0 && c[14] == 0 && c[15] == 0;
    hide First, Power2, DcCounts;
    PowersOfTwo();
    DcFirsts();
  }

  lemma DcTotal()
    ensures Total(DcCounts(), 1) == DC_CODES
  {
    var c := DcCounts();
    assert Total(c, 16) == 0;
    assert Total(c, 15) == 0;
    assert Total(c, 14) == 0;
    assert Total(c, 13) == 0;
    assert Total(c, 12) == 0;
    assert Total(c, 11) == 0;
    assert Total(c, 10) == 0;
    assert Total(c, 9) == 1;
    assert Total(c, 8) == 2;
    assert Total(c, 7) == 3;
    assert Total(c, 6) == 4;
    assert Total(c, 5) == 5;
    assert Total(c, 4) == 6;
    assert Total(c, 3) == 11;
    assert Total(c, 2) == 12;
    assert Total(c, 1) == 12;
  }

  // Both tables leave room for all their codes.
  lemma TablesFit()
    ensures Fits(AcCounts()) && Fits(DcCounts()) && Total(AcCounts(), 1) == AC_CODES && Total(DcCounts(), 1) == DC_CODES
  {
    hide First, Power2, AcCounts, DcCounts, Total;
    forall k | 1 <= k <= MAX_LEN
      ensures First(AcCounts(), k) + AcCounts()[k - 1] <= Power2(k)
      ensures First(DcCounts(), k) + DcCounts()[k - 1] <= Power2(k)
    {
      AcRoom(k);
      DcRoom(k);
    }
    AcTotal();
    DcTotal();
  }

  // ----- building the AC table ----------------------------------------------------------

  datatype AcEntry = AcEntry(run: nat, size: nat, len: nat, mask: nat, code: nat)

  // What the table holds for code number n.
  function Entry(n: nat): AcEntry {
    var len := Length(AcCounts(), n);
    AcEntry(Symbol(n) / 16, Symbol(n) % 16, len, Power2(len) - 1, Code(AcCounts(), n))
  }

  // The table as stored: sixteen counts, then the symbols.
  function T_AC_0(p: nat): nat
    requires p < 16 + AC_CODES
  {
    if p < 16 then AcCounts()[p] else Symbol(p - 16)
  }

  // The number of codes shorter than k.
  function Shorter(k: nat): nat
    requires 1 <= k <= MAX_LEN + 1
  {
    if k == 1 then 0 else Shorter(k - 1) + AcCounts()[k - 2]
  }

  lemma {:induction false} ShorterAndTotal(k: nat)
    requires 1 <= k <= MAX_LEN + 1
    ensures Shorter(k) + Total(AcCounts(), k) == AC_CODES
    decreases k
  {
    hide AcCounts;
    if k == 1 {
      AcTotal();
    } else {
      ShorterAndTotal(k - 1);
    }
  }

  lemma {:induction false} LocateFrom(counts: seq<nat>, j: nat, k: nat, r: nat)
    requires |counts| == MAX_LEN && 1 <= j <= k <= MAX_LEN && r < counts[k - 1]
    ensures Total(counts, k) <= Total(counts, j)
    ensures LengthFrom(counts, Total(counts, j) - Total(counts, k) + r, j) == k
    ensures RankFrom(counts, Total(counts, j) - Total(counts, k) + r, j) == r
    decreases k - j
  {
    if j < k {
      LocateFrom(counts, j + 1, k, r);
    }
  }

  // Code number r of length k.
  lemma Locate(k: nat, r: nat)
    requires 1 <= k <= MAX_LEN && r < AcCounts()[k - 1]
    ensures Shorter(k) + r < AC_CODES
    ensures Length(AcCounts(), Shorter(k) + r) == k && Code(AcCounts(), Shorter(k) + r) == First(AcCounts(), k) + r
  {
    hide AcCounts, First, Total, Shorter, LengthFrom, RankFrom;
    ShorterAndTotal(k);
    AcTotal();
    TotalStep(k);
    LocateFrom(AcCounts(), 1, k, r);
  }

  lemma SmallCounts(k: nat)
    requires 1 <= k <= MAX_LEN
    ensures AcCounts()[k - 1] <= 125
  {}

  // Where the i-th symbol of length k is kept.
  function Slot(k: nat, i: nat): nat {
    256 * k + i
  }

  // The symbols of length k are in their slots.
  predicate Filled(v: array<nat>, k: nat)
    requires v.Length == 0x1_0000 && 1 <= k <= MAX_LEN
    reads v
  {
    forall i: nat :: i < AcCounts()[k - 1] ==> Slot(k, i) < v.Length && v[Slot(k, i)] == Symbol(Shorter(k) + i)
  }

  // Puts the symbols of length k in their slots.
  method FillOne(v: array<nat>, k: nat, p0: nat) returns (p: nat)
    requires v.Length == 0x1_0000 && 1 <= k <= MAX_LEN && p0 == 16 + Shorter(k)
    modifies v
    ensures Filled(v, k) && p == p0 + AcCounts()[k - 1]
    ensures forall x :: 0 <= x < 256 * k ==> v[x] == old(v[x])
  {
    hide AcCounts, Symbol, Shorter;
    SmallCounts(k);
    p := p0;
    var count := T_AC_0(k - 1);
    for i := 0 to count
      invariant p == p0 + i
      invariant forall j: nat :: j < i ==> v[Slot(k, j)] == Symbol(Shorter(k) + j)
      invariant forall x :: 0 <= x < 256 * k ==> v[x] == old(v[x])
    {
      Locate(k, i);
      v[256 * k + i] := T_AC_0(p);
      p := p + 1;
    }
  }

  // Sorts the symbols by the length of their codes.
  method FillValues() returns (v: array<nat>)
    ensures v.Length == 0x1_0000 && fresh(v) && forall k :: 1 <= k <= MAX_LEN ==> Filled(v, k)
  {
    hide AcCounts, Symbol;
    v := new nat[0x1_0000](_ => 0);
    var p := 16;
    for k := 1 to 17
      invariant p == 16 + Shorter(k) && forall l :: 1 <= l < k ==> Filled(v, l)
    {
      label before:
      p := FillOne(v, k, p);
      forall l | 1 <= l < k
        ensures Filled(v, l)
      {
        SmallCounts(l);
        assert old@before(Filled(v, l));
        forall i: nat | i < AcCounts()[l - 1]
          ensures Slot(l, i) < v.Length && v[Slot(l, i)] == Symbol(Shorter(l) + i)
        {
          assert Slot(l, i) < 256 * k;
        }
      }
    }
  }

  // The first and last code of each length; an empty range where there is none.
  predicate IsRange(minVal: nat, maxVal: nat, k: nat)
    requires 1 <= k <= MAX_LEN
  {
    if AcCounts()[k - 1] == 0 then minVal == 0xFFFF && maxVal == 0
    else minVal == First(AcCounts(), k) && maxVal == First(AcCounts(), k) + AcCounts()[k - 1] - 1
  }

  method CodeRanges() returns (minCode: array<nat>, majCode: array<nat>)
    ensures minCode.Length == 17 && majCode.Length == 17 && forall k :: 1 <= k <= MAX_LEN ==> IsRange(minCode[k], majCode[k], k)
    ensures fresh(minCode) && fresh(majCode)
  {
    hide AcCounts;
    minCode, majCode := new nat[17](_ => 0), new nat[17](_ => 0);
    var code := 0;
    for k := 1 to 17
      invariant k <= MAX_LEN ==> code == First(AcCounts(), k)
      invariant forall l :: 1 <= l < k ==> IsRange(minCode[l], majCode[l], l)
    {
      minCode[k] := code;
      code := code + T_AC_0(k - 1);
      majCode[k] := if code != 0 then code - 1 else 0;
      code := code * 2;
      if T_AC_0(k - 1) == 0 {
        minCode[k] := 0xFFFF;
        majCode[k] := 0;
      }
    }
  }

  // How many codes of length k are below i.
  function Reached(k: nat, i: nat): nat
    requires 1 <= k <= MAX_LEN
  {
    var first, count := First(AcCounts(), k), AcCounts()[k - 1];
    if i <= first then 0 else if i >= first + count then count else i - first
  }

  lemma ReachedMore(k: nat, i: nat, minVal: nat, maxVal: nat)
    requires 1 <= k <= MAX_LEN && IsRange(minVal, maxVal, k)
    ensures Reached(k, 0) == 0 && Reached(k, Power2(k)) == AcCounts()[k - 1]
    ensures if minVal <= i <= maxVal
      then Reached(k, i + 1) == Reached(k, i) + 1 && Reached(k, i) == i - minVal < AcCounts()[k - 1] && minVal == First(AcCounts(), k)
      else Reached(k, i + 1) == Reached(k, i)
  {
    hide AcCounts, First, Power2;
    AcRoom(k);
  }

  lemma EntryHere(k: nat, i: nat)
    requires 1 <= k <= MAX_LEN && First(AcCounts(), k) <= i < First(AcCounts(), k) + AcCounts()[k - 1]
    ensures var n := Shorter(k) + i - First(AcCounts(), k);
      n < AC_CODES && Entry(n) == AcEntry(Symbol(n) / 16, Symbol(n) % 16, k, Power2(k) - 1, i)
  {
    hide AcCounts, First, Power2, Symbol, Length, Code;
    Locate(k, i - First(AcCounts(), k));
  }

  // Lists the codes of one length.
  method FillLength(v: array<nat>, minVal: nat, maxVal: nat, table: array<AcEntry>, k: nat, n0: nat) returns (n: nat)
    requires v.Length == 0x1_0000 && table.Length == AC_CODES && v as object != table && 1 <= k <= MAX_LEN && n0 == Shorter(k) && IsRange(minVal, maxVal, k)
    requires Filled(v, k)
    requires forall m :: 0 <= m < n0 && m < AC_CODES ==> table[m] == Entry(m)
    modifies table
    ensures n == Shorter(k) + AcCounts()[k - 1] <= AC_CODES && forall m :: 0 <= m < n ==> table[m] == Entry(m)
  {
    hide AcCounts, Symbol, First, Power2, IsRange, Entry, Shorter, Reached;
    n := n0;
    ReachedMore(k, 0, minVal, maxVal);
    SmallCounts(k);
    ShorterAndTotal(k);
    TotalStep(k);
    for i := 0 to Power2(k)
      invariant n == Shorter(k) + Reached(k, i)
      invariant Reached(k, i) <= AcCounts()[k - 1]
      invariant forall m :: 0 <= m < n ==> table[m] == Entry(m)
    {
      ReachedMore(k, i, minVal, maxVal);
      if i <= maxVal && i >= minVal {
        EntryHere(k, i);
        assert v[Slot(k, i - minVal)] == Symbol(Shorter(k) + (i - minVal));
        var sizeVal := v[256 * k + i - minVal];
        var run := sizeVal / 16;
        var size := sizeVal % 16;
        table[n] := AcEntry(run, size, k, Power2(k) - 1, i);
        n := n + 1;
      }
    }
  }

  lemma TotalStep(k: nat)
    requires 1 <= k <= MAX_LEN
    ensures Total(AcCounts(), k) >= AcCounts()[k - 1]
  {}

  // Lists the codes in order.
  method FillTable(v: array<nat>, minCode: array<nat>, majCode: array<nat>) returns (table: array<AcEntry>)
    requires v.Length == 0x1_0000 && minCode.Length == 17 && majCode.Length == 17
    requires forall k :: 1 <= k <= MAX_LEN ==> Filled(v, k)
    requires forall k :: 1 <= k <= MAX_LEN ==> IsRange(minCode[k], majCode[k], k)
    ensures table.Length == AC_CODES && forall n :: 0 <= n < AC_CODES ==> table[n] == Entry(n)
  {
    hide AcCounts, Symbol, First, Power2, IsRange, Entry;
    table := new AcEntry[AC_CODES](_ => AcEntry(0, 0, 0, 0, 0));
    var n := 0;
    for k := 1 to 17
      invariant n == Shorter(k) <= AC_CODES && forall m :: 0 <= m < n ==> table[m] == Entry(m)
    {
      n := FillLength(v, minCode[k], majCode[k], table, k, n);
    }
    ShorterAndTotal(17);
  }

  // ----- looking codes up ---------------------------------------------------------------

  predicate AcTable(table: seq<AcEntry>) {
    |table| == AC_CODES && forall n :: 0 <= n < AC_CODES ==> table[n] == Entry(n)
  }

  // The number of the AC code that a word starts with, or -1.
  function AcLookup(word: nat): (r: int)
    ensures r == -1 || 0 <= r < AC_CODES
  {
    AcTotal();
    Lookup(AcCounts(), word, 0)
  }

  // The first table entry whose code the word starts with.
  method GetAcReal(table: seq<AcEntry>, word: nat) returns (r: int)
    requires AcTable(table)
    ensures r == AcLookup(word)
  {
    hide AcCounts, Symbol, Code, Power2;
    AcTotal();
    r := -1;
    for i := 0 to AC_CODES
      invariant Lookup(AcCounts(), word, 0) == Lookup(AcCounts(), word, i)
    {
      assert table[i] == Entry(i);
      if word / Power2(16 - table[i].len) % (table[i].mask + 1) == table[i].code {
        return i;
      }
    }
  }

  // The DC category whose code the word starts with.
  function GetDcReal(word: nat): int {
    if word / 0x4000 == 0 then 0
    else if word / 0x2000 == 2 then 1
    else if word / 0x2000 == 3 then 2
    else if word / 0x2000 == 4 then 3
    else if word / 0x2000 == 5 then 4
    else if word / 0x2000 == 6 then 5
    else if word / 0x1000 == 0x00E then 6
    else if word / 0x0800 == 0x01E then 7
    else if word / 0x0400 == 0x03E then 8
    else if word / 0x0200 == 0x07E then 9
    else if word / 0x0100 == 0x0FE then 10
    else if word / 0x0080 == 0x1FE then 11
    else -1
  }

  // The length of the code of each DC category.
  function DcCatOff(cat: nat): nat
    requires cat < DC_CODES
  {
    if cat == 0 then 2 else if cat <= 5 then 3 else cat - 2
  }

  lemma DcCode(n: nat)
    requires n < DC_CODES
    ensures Length(DcCounts(), n) == DcCatOff(n)
    ensures Code(DcCounts(), n) == if n == 0 then 0 else if n <= 5 then n + 1 else if n == 6 then 0x00E else if n == 7 then 0x01E
      else if n == 8 then 0x03E else if n == 9 then 0x07E else if n == 10 then 0x0FE else 0x1FE
  {
    DcLocate(n);
    hide First;
    DcFirsts();
  }

  lemma DcTotals()
    ensures var c := DcCounts();
      Total(c, 1) == 12 && Total(c, 2) == 12 && Total(c, 3) == 11 && Total(c, 4) == 6 && Total(c, 5) == 5 && Total(c, 6) == 4 &&
      Total(c, 7) == 3 && Total(c, 8) == 2 && Total(c, 9) == 1
  {
    var c := DcCounts();
    assert Total(c, 12) == 0;
    assert Total(c, 9) == 1;
    assert Total(c, 6) == 4;
  }

  lemma DcLocate(n: nat)
    requires n < DC_CODES
    ensures LengthFrom(DcCounts(), n, 1) == DcCatOff(n)
    ensures RankFrom(DcCounts(), n, 1) == if 1 <= n <= 5 then n - 1 else 0
  {
    hide Total, LengthFrom, RankFrom;
    DcTotals();
    var k := DcCatOff(n);
    LocateFrom(DcCounts(), 1, k, if 1 <= n <= 5 then n - 1 else 0);
  }

  // The test for one category.
  predicate DcTest(n: nat, word: nat)
    requires n < DC_CODES
  {
    if n == 0 then word / 0x4000 == 0 else if n <= 5 then word / 0x2000 == n + 1
    else if n == 6 then word / 0x1000 == 0x00E else if n == 7 then word / 0x0800 == 0x01E else if n == 8 then word / 0x0400 == 0x03E
    else if n == 9 then word / 0x0200 == 0x07E else if n == 10 then word / 0x0100 == 0x0FE else word / 0x0080 == 0x1FE
  }

  lemma DcMatches(n: nat, word: nat)
    requires n < DC_CODES && word < 0x1_0000
    ensures Matches(DcCounts(), n, word) <==> DcTest(n, word)
  {
    DcCode(n);
    hide DcCounts, Length, Code, Power2;
    Whole(word, DcCatOff(n));
    PowersOfTwo();
  }

  // A word shifted down to its first l bits needs no mask.
  lemma Whole(word: nat, l: nat)
    requires word < 0x1_0000 && l <= 16
    ensures word / Power2(16 - l) % Power2(l) == word / Power2(16 - l)
  {
    hide Power2;
    PowerProduct(16 - l, l);
    PowersOfTwo();
    QuotientSmall(word, Power2(16 - l), Power2(l));
  }

  lemma {:induction false} PowerProduct(a: nat, b: nat)
    ensures Power2(a) * Power2(b) == Power2(a + b)
    decreases a
  {
    if a > 0 {
      PowerProduct(a - 1, b);
      assert Power2(a) * Power2(b) == 2 * (Power2(a - 1) * Power2(b));
    }
  }

  lemma QuotientSmall(x: nat, p: nat, q: nat)
    requires p >= 1 && x < p * q
    ensures x / p < q && x / p % q == x / p
  {
    QuotientRange(x, p, q);
    Small(x / p, q);
  }

  lemma QuotientRange(x: nat, p: nat, q: nat)
    requires p >= 1 && x < p * q
    ensures x / p < q
  {
    var k := x / p;
    var m := x - k * p;
    assert 0 <= m;
    assert q * p == p * q;
    if k >= q {
      Spread(p, q, k);
    }
  }

  // The nested tests find the same category as the search through the canonical codes.
  lemma DcLookup(word: nat)
    requires word < 0x1_0000
    ensures GetDcReal(word) == Lookup(DcCounts(), word, 0)
  {
    hide DcCounts, First, Matches, Lookup;
    DcTotal();
    var r := Lookup(DcCounts(), word, 0);
    if r == -1 {
      forall n | 0 <= n < DC_CODES
        ensures !DcTest(n, word)
      {
        DcMatches(n, word);
      }
      NoTest(word);
    } else {
      DcMatches(r, word);
      SomeTest(r, word);
    }
  }

  lemma NoTest(word: nat)
    requires forall n :: 0 <= n < DC_CODES ==> !DcTest(n, word)
    ensures GetDcReal(word) == -1
  {
    assert !DcTest(0, word) && !DcTest(1, word) && !DcTest(2, word) && !DcTest(3, word) && !DcTest(4, word) && !DcTest(5, word);
    assert !DcTest(6, word) && !DcTest(7, word) && !DcTest(8, word) && !DcTest(9, word) && !DcTest(10, word) && !DcTest(11, word);
  }

  lemma SomeTest(n: nat, word: nat)
    requires n < DC_CODES && DcTest(n, word) && word < 0x1_0000
    ensures GetDcReal(word) == n
  {}

  method FillAcLookup(table: seq<AcEntry>) returns (lookup: seq<int>)
    requires AcTable(table)
    ensures |lookup| == 0x1_0000 && forall w :: 0 <= w < 0x1_0000 ==> lookup[w] == AcLookup(w)
  {
    hide AcTable, AcLookup;
    var ac := new int[0x1_0000](_ => 0);
    for i := 0 to 0x1_0000
      invariant forall w :: 0 <= w < i ==> ac[w] == AcLookup(w)
    {
      ac[i] := GetAcReal(table, i);
    }
    lookup := ac[..];
  }

  method FillDcLookup() returns (lookup: seq<int>)
    ensures |lookup| == 0x1_0000 && forall w :: 0 <= w < 0x1_0000 ==> lookup[w] == GetDcReal(w)
  {
    hide GetDcReal;
    var dc := new int[0x1_0000](_ => 0);
    for i := 0 to 0x1_0000
      invariant forall w :: 0 <= w < i ==> dc[w] == GetDcReal(w)
    {
      dc[i] := GetDcReal(i);
    }
    lookup := dc[..];
  }

  // Builds the table and both lookups.
  method InitHuffmanTable() returns (acTable: seq<AcEntry>, acLookup: seq<int>, dcLookup: seq<int>)
    ensures AcTable(acTable) && |acLookup| == 0x1_0000 && |dcLookup| == 0x1_0000
    ensures forall w :: 0 <= w < 0x1_0000 ==> acLookup[w] == AcLookup(w) && dcLookup[w] == GetDcReal(w)
  {
    hide AcCounts, Entry, GetDcReal, Filled, IsRange, AcLookup;
    var v := FillValues();
    var minCode, majCode := CodeRanges();
    var table := FillTable(v, minCode, majCode);
    acTable := table[..];
    acLookup := FillAcLookup(acTable);
    dcLookup := FillDcLookup();
  }
}
