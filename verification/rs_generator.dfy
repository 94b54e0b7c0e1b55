/** The generator polynomial of the (255,223) code: its 32 roots are the powers
    11*112 to 11*143 of the primitive element, which are the points where
    ecc_decode evaluates its syndromes. */
module RsGenerator {
  import opened Gf256

  // POLY_ARR: the logs of the coefficients, which read the same from both ends.
  function Poly(k: int): (e: int)
    ensures 0 <= e < 255
  {
    if k < 9 then
      match k
      case 1 => 249 case 2 => 59 case 3 => 66 case 4 => 4 case 5 => 43 case 6 => 126 case 7 => 251 case 8 => 97
      case _ => 0
    else if k < 17 then
      match k
      case 9 => 30 case 10 => 3 case 11 => 213 case 12 => 50 case 13 => 66 case 14 => 170 case 15 => 5 case _ => 24
    else if k < 25 then
      match k
      case 17 => 5 case 18 => 170 case 19 => 66 case 20 => 50 case 21 => 213 case 22 => 3 case 23 => 30 case _ => 97
    else
      match k
      case 25 => 251 case 26 => 126 case 27 => 43 case 28 => 4 case 29 => 66 case 30 => 59 case 31 => 249 case _ => 0
  }

  // The log of coefficient k times the k-th power of root r.
  ghost function TermLog(r: nat, k: nat): nat
  {
    Poly(k) + 11 * r * k
  }

  // The first n terms of the generator polynomial at root r.
  ghost function GenSum(r: nat, n: nat): bv8
  {
    if n == 0 then 0 else Xor(GenSum(r, n - 1), Pow(TermLog(r, n - 1)))
  }

  // ----- the roots 112 to 127, by the tables -----------------------------------

  ghost function Xor8(s: bv8, a: nat, b: nat, c: nat, d: nat, e: nat, f: nat, g: nat, h: nat): bv8
  {
    Xor(Xor(Xor(Xor(Xor(Xor(Xor(Xor(s, Alpha(a % 255)), Alpha(b % 255)), Alpha(c % 255)), Alpha(d % 255)),
                    Alpha(e % 255)), Alpha(f % 255)), Alpha(g % 255)), Alpha(h % 255))
  }

  lemma EightTerms(r: nat, n: nat, a: nat, b: nat, c: nat, d: nat, e: nat, f: nat, g: nat, h: nat)
    requires a == TermLog(r, n) && b == TermLog(r, n + 1) && c == TermLog(r, n + 2) && d == TermLog(r, n + 3)
    requires e == TermLog(r, n + 4) && f == TermLog(r, n + 5) && g == TermLog(r, n + 6) && h == TermLog(r, n + 7)
    ensures GenSum(r, n + 8) == Xor8(GenSum(r, n), a, b, c, d, e, f, g, h)
  {
    hide Alpha, Idx, Pow, Xor, TermLog;
    AlphaMod(a); AlphaMod(b); AlphaMod(c); AlphaMod(d);
    AlphaMod(e); AlphaMod(f); AlphaMod(g); AlphaMod(h);
    assert GenSum(r, n + 2) == Xor(Xor(GenSum(r, n), Pow(a)), Pow(b));
    assert GenSum(r, n + 4) == Xor(Xor(GenSum(r, n + 2), Pow(c)), Pow(d));
    assert GenSum(r, n + 6) == Xor(Xor(GenSum(r, n + 4), Pow(e)), Pow(f));
    assert GenSum(r, n + 8) == Xor(Xor(GenSum(r, n + 6), Pow(g)), Pow(h));
  }

  lemma AllTerms(r: nat,
      a0: nat, a1: nat, a2: nat, a3: nat, a4: nat, a5: nat, a6: nat, a7: nat, a8: nat, a9: nat, a10: nat,
      a11: nat, a12: nat, a13: nat, a14: nat, a15: nat, a16: nat, a17: nat, a18: nat, a19: nat, a20: nat,
      a21: nat, a22: nat, a23: nat, a24: nat, a25: nat, a26: nat, a27: nat, a28: nat, a29: nat, a30: nat,
      a31: nat, a32: nat)
    requires a0 == TermLog(r, 0) && a1 == TermLog(r, 1) && a2 == TermLog(r, 2)
    requires a3 == TermLog(r, 3) && a4 == TermLog(r, 4) && a5 == TermLog(r, 5)
    requires a6 == TermLog(r, 6) && a7 == TermLog(r, 7) && a8 == TermLog(r, 8)
    requires a9 == TermLog(r, 9) && a10 == TermLog(r, 10) && a11 == TermLog(r, 11)
    requires a12 == TermLog(r, 12) && a13 == TermLog(r, 13) && a14 == TermLog(r, 14)
    requires a15 == TermLog(r, 15) && a16 == TermLog(r, 16) && a17 == TermLog(r, 17)
    requires a18 == TermLog(r, 18) && a19 == TermLog(r, 19) && a20 == TermLog(r, 20)
    requires a21 == TermLog(r, 21) && a22 == TermLog(r, 22) && a23 == TermLog(r, 23)
    requires a24 == TermLog(r, 24) && a25 == TermLog(r, 25) && a26 == TermLog(r, 26)
    requires a27 == TermLog(r, 27) && a28 == TermLog(r, 28) && a29 == TermLog(r, 29)
    requires a30 == TermLog(r, 30) && a31 == TermLog(r, 31) && a32 == TermLog(r, 32)
    ensures GenSum(r, 33) ==
        Xor8(Xor8(Xor8(Xor8(Alpha(a0 % 255), a1, a2, a3, a4, a5, a6, a7, a8),
             a9, a10, a11, a12, a13, a14, a15, a16),
             a17, a18, a19, a20, a21, a22, a23, a24),
             a25, a26, a27, a28, a29, a30, a31, a32)
  {
    hide Alpha, Idx, Pow, Xor, Xor8, Poly, TermLog;
    XorLaws(Pow(a0), 0);
    AlphaMod(a0);
    assert GenSum(r, 1) == Alpha(a0 % 255);
    EightTerms(r, 1, a1, a2, a3, a4, a5, a6, a7, a8);
    EightTerms(r, 9, a9, a10, a11, a12, a13, a14, a15, a16);
    EightTerms(r, 17, a17, a18, a19, a20, a21, a22, a23, a24);
    EightTerms(r, 25, a25, a26, a27, a28, a29, a30, a31, a32);
  }

  lemma Cancel112()
    ensures Xor8(Xor8(Xor8(Xor8(Alpha(0 % 255), 1481, 2523, 3762, 4932, 6203, 7518, 8875, 9953),
                 11118, 12323, 13765, 14834, 16082, 17418, 18485, 19736),
                 20949, 22346, 23474, 24690, 26085, 27107, 28366, 29665),
                 31051, 32158, 33307, 34500, 35794, 37019, 38441, 39424) == 0
  {}

  lemma Root112()
    ensures GenSum(112, 33) == 0
  {
    hide Alpha, Xor8, GenSum;
    Cancel112();
    AllTerms(112,
      0, 1481, 2523, 3762, 4932, 6203, 7518, 8875, 9953, 11118, 12323, 13765, 14834, 16082, 17418, 18485,
      19736, 20949, 22346, 23474, 24690, 26085, 27107, 28366, 29665, 31051, 32158, 33307, 34500, 35794, 37019,
      38441, 39424);
  }

  lemma Cancel113()
    ensures Xor8(Xor8(Xor8(Xor8(Alpha(0 % 255), 1492, 2545, 3795, 4976, 6258, 7584, 8952, 10041),
                 11217, 12433, 13886, 14966, 16225, 17572, 18650, 19912),
                 21136, 22544, 23683, 24910, 26316, 27349, 28619, 29929),
                 31326, 32444, 33604, 34808, 36113, 37349, 38782, 39776) == 0
  {}

  lemma Root113()
    ensures GenSum(113, 33) == 0
  {
    hide Alpha, Xor8, GenSum;
    Cancel113();
    AllTerms(113,
      0, 1492, 2545, 3795, 4976, 6258, 7584, 8952, 10041, 11217, 12433, 13886, 14966, 16225, 17572, 18650,
      19912, 21136, 22544, 23683, 24910, 26316, 27349, 28619, 29929, 31326, 32444, 33604, 34808, 36113, 37349,
      38782, 39776);
  }

  lemma Cancel114()
    ensures Xor8(Xor8(Xor8(Xor8(Alpha(0 % 255), 1503, 2567, 3828, 5020, 6313, 7650, 9029, 10129),
                 11316, 12543, 14007, 15098, 16368, 17726, 18815, 20088),
                 21323, 22742, 23892, 25130, 26547, 27591, 28872, 30193),
                 31601, 32730, 33901, 35116, 36432, 37679, 39123, 40128) == 0
  {}

  lemma Root114()
    ensures GenSum(114, 33) == 0
  {
    hide Alpha, Xor8, GenSum;
    Cancel114();
    AllTerms(114,
      0, 1503, 2567, 3828, 5020, 6313, 7650, 9029, 10129, 11316, 12543, 14007, 15098, 16368, 17726, 18815,
      20088, 21323, 22742, 23892, 25130, 26547, 27591, 28872, 30193, 31601, 32730, 33901, 35116, 36432, 37679,
      39123, 40128);
  }

  lemma Cancel115()
    ensures Xor8(Xor8(Xor8(Xor8(Alpha(0 % 255), 1514, 2589, 3861, 5064, 6368, 7716, 9106, 10217),
                 11415, 12653, 14128, 15230, 16511, 17880, 18980, 20264),
                 21510, 22940, 24101, 25350, 26778, 27833, 29125, 30457),
                 31876, 33016, 34198, 35424, 36751, 38009, 39464, 40480) == 0
  {}

  lemma Root115()
    ensures GenSum(115, 33) == 0
  {
    hide Alpha, Xor8, GenSum;
    Cancel115();
    AllTerms(115,
      0, 1514, 2589, 3861, 5064, 6368, 7716, 9106, 10217, 11415, 12653, 14128, 15230, 16511, 17880, 18980,
      20264, 21510, 22940, 24101, 25350, 26778, 27833, 29125, 30457, 31876, 33016, 34198, 35424, 36751, 38009,
      39464, 40480);
  }

  lemma Cancel116()
    ensures Xor8(Xor8(Xor8(Xor8(Alpha(0 % 255), 1525, 2611, 3894, 5108, 6423, 7782, 9183, 10305),
                 11514, 12763, 14249, 15362, 16654, 18034, 19145, 20440),
                 21697, 23138, 24310, 25570, 27009, 28075, 29378, 30721),
                 32151, 33302, 34495, 35732, 37070, 38339, 39805, 40832) == 0
  {}

  lemma Root116()
    ensures GenSum(116, 33) == 0
  {
    hide Alpha, Xor8, GenSum;
    Cancel116();
    AllTerms(116,
      0, 1525, 2611, 3894, 5108, 6423, 7782, 9183, 10305, 11514, 12763, 14249, 15362, 16654, 18034, 19145,
      20440, 21697, 23138, 24310, 25570, 27009, 28075, 29378, 30721, 32151, 33302, 34495, 35732, 37070, 38339,
      39805, 40832);
  }

  lemma Cancel117()
    ensures Xor8(Xor8(Xor8(Xor8(Alpha(0 % 255), 1536, 2633, 3927, 5152, 6478, 7848, 9260, 10393),
                 11613, 12873, 14370, 15494, 16797, 18188, 19310, 20616),
                 21884, 23336, 24519, 25790, 27240, 28317, 29631, 30985),
                 32426, 33588, 34792, 36040, 37389, 38669, 40146, 41184) == 0
  {}

  lemma Root117()
    ensures GenSum(117, 33) == 0
  {
    hide Alpha, Xor8, GenSum;
    Cancel117();
    AllTerms(117,
      0, 1536, 2633, 3927, 5152, 6478, 7848, 9260, 10393, 11613, 12873, 14370, 15494, 16797, 18188, 19310,
      20616, 21884, 23336, 24519, 25790, 27240, 28317, 29631, 30985, 32426, 33588, 34792, 36040, 37389, 38669,
      40146, 41184);
  }

  lemma Cancel118()
    ensures Xor8(Xor8(Xor8(Xor8(Alpha(0 % 255), 1547, 2655, 3960, 5196, 6533, 7914, 9337, 10481),
                 11712, 12983, 14491, 15626, 16940, 18342, 19475, 20792),
                 22071, 23534, 24728, 26010, 27471, 28559, 29884, 31249),
                 32701, 33874, 35089, 36348, 37708, 38999, 40487, 41536) == 0
  {}

  lemma Root118()
    ensures GenSum(118, 33) == 0
  {
    hide Alpha, Xor8, GenSum;
    Cancel118();
    AllTerms(118,
      0, 1547, 2655, 3960, 5196, 6533, 7914, 9337, 10481, 11712, 12983, 14491, 15626, 16940, 18342, 19475,
      20792, 22071, 23534, 24728, 26010, 27471, 28559, 29884, 31249, 32701, 33874, 35089, 36348, 37708, 38999,
      40487, 41536);
  }

  lemma Cancel119()
    ensures Xor8(Xor8(Xor8(Xor8(Alpha(0 % 255), 1558, 2677, 3993, 5240, 6588, 7980, 9414, 10569),
                 11811, 13093, 14612, 15758, 17083, 18496, 19640, 20968),
                 22258, 23732, 24937, 26230, 27702, 28801, 30137, 31513),
                 32976, 34160, 35386, 36656, 38027, 39329, 40828, 41888) == 0
  {}

  lemma Root119()
    ensures GenSum(119, 33) == 0
  {
    hide Alpha, Xor8, GenSum;
    Cancel119();
    AllTerms(119,
      0, 1558, 2677, 3993, 5240, 6588, 7980, 9414, 10569, 11811, 13093, 14612, 15758, 17083, 18496, 19640,
      20968, 22258, 23732, 24937, 26230, 27702, 28801, 30137, 31513, 32976, 34160, 35386, 36656, 38027, 39329,
      40828, 41888);
  }

  lemma Cancel120()
    ensures Xor8(Xor8(Xor8(Xor8(Alpha(0 % 255), 1569, 2699, 4026, 5284, 6643, 8046, 9491, 10657),
                 11910, 13203, 14733, 15890, 17226, 18650, 19805, 21144),
                 22445, 23930, 25146, 26450, 27933, 29043, 30390, 31777),
                 33251, 34446, 35683, 36964, 38346, 39659, 41169, 42240) == 0
  {}

  lemma Root120()
    ensures GenSum(120, 33) == 0
  {
    hide Alpha, Xor8, GenSum;
    Cancel120();
    AllTerms(120,
      0, 1569, 2699, 4026, 5284, 6643, 8046, 9491, 10657, 11910, 13203, 14733, 15890, 17226, 18650, 19805,
      21144, 22445, 23930, 25146, 26450, 27933, 29043, 30390, 31777, 33251, 34446, 35683, 36964, 38346, 39659,
      41169, 42240);
  }

  lemma Cancel121()
    ensures Xor8(Xor8(Xor8(Xor8(Alpha(0 % 255), 1580, 2721, 4059, 5328, 6698, 8112, 9568, 10745),
                 12009, 13313, 14854, 16022, 17369, 18804, 19970, 21320),
                 22632, 24128, 25355, 26670, 28164, 29285, 30643, 32041),
                 33526, 34732, 35980, 37272, 38665, 39989, 41510, 42592) == 0
  {}

  lemma Root121()
    ensures GenSum(121, 33) == 0
  {
    hide Alpha, Xor8, GenSum;
    Cancel121();
    AllTerms(121,
      0, 1580, 2721, 4059, 5328, 6698, 8112, 9568, 10745, 12009, 13313, 14854, 16022, 17369, 18804, 19970,
      21320, 22632, 24128, 25355, 26670, 28164, 29285, 30643, 32041, 33526, 34732, 35980, 37272, 38665, 39989,
      41510, 42592);
  }

  lemma Cancel122()
    ensures Xor8(Xor8(Xor8(Xor8(Alpha(0 % 255), 1591, 2743, 4092, 5372, 6753, 8178, 9645, 10833),
                 12108, 13423, 14975, 16154, 17512, 18958, 20135, 21496),
                 22819, 24326, 25564, 26890, 28395, 29527, 30896, 32305),
                 33801, 35018, 36277, 37580, 38984, 40319, 41851, 42944) == 0
  {}

  lemma Root122()
    ensures GenSum(122, 33) == 0
  {
    hide Alpha, Xor8, GenSum;
    Cancel122();
    AllTerms(122,
      0, 1591, 2743, 4092, 5372, 6753, 8178, 9645, 10833, 12108, 13423, 14975, 16154, 17512, 18958, 20135,
      21496, 22819, 24326, 25564, 26890, 28395, 29527, 30896, 32305, 33801, 35018, 36277, 37580, 38984, 40319,
      41851, 42944);
  }

  lemma Cancel123()
    ensures Xor8(Xor8(Xor8(Xor8(Alpha(0 % 255), 1602, 2765, 4125, 5416, 6808, 8244, 9722, 10921),
                 12207, 13533, 15096, 16286, 17655, 19112, 20300, 21672),
                 23006, 24524, 25773, 27110, 28626, 29769, 31149, 32569),
                 34076, 35304, 36574, 37888, 39303, 40649, 42192, 43296) == 0
  {}

  lemma Root123()
    ensures GenSum(123, 33) == 0
  {
    hide Alpha, Xor8, GenSum;
    Cancel123();
    AllTerms(123,
      0, 1602, 2765, 4125, 5416, 6808, 8244, 9722, 10921, 12207, 13533, 15096, 16286, 17655, 19112, 20300,
      21672, 23006, 24524, 25773, 27110, 28626, 29769, 31149, 32569, 34076, 35304, 36574, 37888, 39303, 40649,
      42192, 43296);
  }

  lemma Cancel124()
    ensures Xor8(Xor8(Xor8(Xor8(Alpha(0 % 255), 1613, 2787, 4158, 5460, 6863, 8310, 9799, 11009),
                 12306, 13643, 15217, 16418, 17798, 19266, 20465, 21848),
                 23193, 24722, 25982, 27330, 28857, 30011, 31402, 32833),
                 34351, 35590, 36871, 38196, 39622, 40979, 42533, 43648) == 0
  {}

  lemma Root124()
    ensures GenSum(124, 33) == 0
  {
    hide Alpha, Xor8, GenSum;
    Cancel124();
    AllTerms(124,
      0, 1613, 2787, 4158, 5460, 6863, 8310, 9799, 11009, 12306, 13643, 15217, 16418, 17798, 19266, 20465,
      21848, 23193, 24722, 25982, 27330, 28857, 30011, 31402, 32833, 34351, 35590, 36871, 38196, 39622, 40979,
      42533, 43648);
  }

  lemma Cancel125()
    ensures Xor8(Xor8(Xor8(Xor8(Alpha(0 % 255), 1624, 2809, 4191, 5504, 6918, 8376, 9876, 11097),
                 12405, 13753, 15338, 16550, 17941, 19420, 20630, 22024),
                 23380, 24920, 26191, 27550, 29088, 30253, 31655, 33097),
                 34626, 35876, 37168, 38504, 39941, 41309, 42874, 44000) == 0
  {}

  lemma Root125()
    ensures GenSum(125, 33) == 0
  {
    hide Alpha, Xor8, GenSum;
    Cancel125();
    AllTerms(125,
      0, 1624, 2809, 4191, 5504, 6918, 8376, 9876, 11097, 12405, 13753, 15338, 16550, 17941, 19420, 20630,
      22024, 23380, 24920, 26191, 27550, 29088, 30253, 31655, 33097, 34626, 35876, 37168, 38504, 39941, 41309,
      42874, 44000);
  }

  lemma Cancel126()
    ensures Xor8(Xor8(Xor8(Xor8(Alpha(0 % 255), 1635, 2831, 4224, 5548, 6973, 8442, 9953, 11185),
                 12504, 13863, 15459, 16682, 18084, 19574, 20795, 22200),
                 23567, 25118, 26400, 27770, 29319, 30495, 31908, 33361),
                 34901, 36162, 37465, 38812, 40260, 41639, 43215, 44352) == 0
  {}

  lemma Root126()
    ensures GenSum(126, 33) == 0
  {
    hide Alpha, Xor8, GenSum;
    Cancel126();
    AllTerms(126,
      0, 1635, 2831, 4224, 5548, 6973, 8442, 9953, 11185, 12504, 13863, 15459, 16682, 18084, 19574, 20795,
      22200, 23567, 25118, 26400, 27770, 29319, 30495, 31908, 33361, 34901, 36162, 37465, 38812, 40260, 41639,
      43215, 44352);
  }

  lemma Cancel127()
    ensures Xor8(Xor8(Xor8(Xor8(Alpha(0 % 255), 1646, 2853, 4257, 5592, 7028, 8508, 10030, 11273),
                 12603, 13973, 15580, 16814, 18227, 19728, 20960, 22376),
                 23754, 25316, 26609, 27990, 29550, 30737, 32161, 33625),
                 35176, 36448, 37762, 39120, 40579, 41969, 43556, 44704) == 0
  {}

  lemma Root127()
    ensures GenSum(127, 33) == 0
  {
    hide Alpha, Xor8, GenSum;
    Cancel127();
    AllTerms(127,
      0, 1646, 2853, 4257, 5592, 7028, 8508, 10030, 11273, 12603, 13973, 15580, 16814, 18227, 19728, 20960,
      22376, 23754, 25316, 26609, 27990, 29550, 30737, 32161, 33625, 35176, 36448, 37762, 39120, 40579, 41969,
      43556, 44704);
  }

  // ----- the roots 128 to 143, by symmetry ------------------------------------

  // The first n terms from the other end.
  ghost function GenTail(r: nat, n: nat): bv8
    requires n <= 33
  {
    if n == 0 then 0 else Xor(GenTail(r, n - 1), Pow(TermLog(r, 33 - n)))
  }

  lemma {:induction false} TailMeetsSum(r: nat, n: nat)
    requires n <= 33
    ensures Xor(GenSum(r, 33 - n), GenTail(r, n)) == GenSum(r, 33)
  {
    hide Xor, Pow, TermLog;
    if n == 0 {
      XorLaws(GenSum(r, 33), 0);
    } else {
      TailMeetsSum(r, n - 1);
      var s, t, u := GenSum(r, 33 - n), Pow(TermLog(r, 33 - n)), GenTail(r, n - 1);
      XorAssoc(s, t, u);
      XorLaws(t, u);
    }
  }

  lemma Palindrome(k: nat)
    requires k <= 32
    ensures Poly(32 - k) == Poly(k)
  {}

  lemma MirrorTerm(r: nat, k: nat)
    requires r <= 255 && k <= 32
    ensures Mul(Pow(11 * r * 32), Pow(TermLog(255 - r, 32 - k))) == Pow(TermLog(r, k))
  {
    hide Pow, Mul, Poly;
    var a, b := 11 * r * 32, TermLog(255 - r, 32 - k);
    MulPowPow(a, b);
    Palindrome(k);
    assert a + b == TermLog(r, k) + 255 * (11 * (32 - k)) by {
      assert 11 * (255 - r) * (32 - k) == 255 * (11 * (32 - k)) - 11 * r * 32 + 11 * r * k;
    }
    PowPeriods(TermLog(r, k), 11 * (32 - k));
  }

  lemma {:induction false} PowPeriods(n: nat, m: nat)
    ensures Pow(n + 255 * m) == Pow(n)
  {
    hide Pow;
    if m > 0 {
      PowPeriods(n, m - 1);
      PowPeriod(n + 255 * (m - 1));
    }
  }

  lemma {:induction false} Mirror(r: nat, n: nat)
    requires r <= 255 && n <= 33
    ensures Mul(Pow(11 * r * 32), GenTail(255 - r, n)) == GenSum(r, n)
  {
    hide Xor, Pow, Mul, TermLog;
    var a := Pow(11 * r * 32);
    if n == 0 {
      MulZero(a);
    } else {
      Mirror(r, n - 1);
      MirrorTerm(r, n - 1);
      MulRightXor(a, GenTail(255 - r, n - 1), Pow(TermLog(255 - r, 33 - n)));
    }
  }

  lemma MirrorRoot(r: nat)
    requires r <= 255 && GenSum(r, 33) == 0
    ensures GenSum(255 - r, 33) == 0
  {
    hide Xor, Pow, Mul, GenSum, GenTail;
    Mirror(r, 33);
    TailMeetsSum(255 - r, 33);
    assert GenSum(255 - r, 0) == 0 by { EmptySum(255 - r); }
    XorLaws(GenTail(255 - r, 33), 0);
    PowNonZero(11 * r * 32);
    if GenTail(255 - r, 33) != 0 {
      MulNonZero(Pow(11 * r * 32), GenTail(255 - r, 33));
    }
  }

  lemma EmptySum(r: nat)
    ensures GenSum(r, 0) == 0
  {}

  // The generator polynomial vanishes at all 32 roots.
  lemma GeneratorRoots(r: nat)
    requires 112 <= r < 144
    ensures GenSum(r, 33) == 0
  {
    hide GenSum;
    var q := if r < 128 then r else 255 - r;
    if q == 112 { Root112(); }
    else if q == 113 { Root113(); }
    else if q == 114 { Root114(); }
    else if q == 115 { Root115(); }
    else if q == 116 { Root116(); }
    else if q == 117 { Root117(); }
    else if q == 118 { Root118(); }
    else if q == 119 { Root119(); }
    else if q == 120 { Root120(); }
    else if q == 121 { Root121(); }
    else if q == 122 { Root122(); }
    else if q == 123 { Root123(); }
    else if q == 124 { Root124(); }
    else if q == 125 { Root125(); }
    else if q == 126 { Root126(); }
    else { Root127(); }
    if r >= 128 {
      MirrorRoot(q);
    }
  }
}
