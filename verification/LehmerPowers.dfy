/**
 Powers of the multiplier modulo M, and the particular ones that decide its order.
 */
module LehmerPowers {
  import opened Lehmer

  function Power(n: nat): int {
    if n == 0 then 1 else Power(n - 1) * A % M
  }

  lemma {:induction false} PowerInRange(n: nat)
    ensures 1 <= Power(n) < M
  {
    if n > 0 {
      PowerInRange(n - 1);
      StepStaysInRange(Power(n - 1));
    }
  }

  lemma {:induction false} MulModTwice(a: int, b: int, c: int)
    ensures (a * b % M) * c % M == a * (b * c % M) % M
  {
    MulMod(a * b, c);
    MulMod(b * c, a);
    assert a * b * c == b * c * a;
    assert a * (b * c % M) == (b * c % M) * a;
  }

  lemma {:induction false} PowerAdds(a: nat, b: nat)
    ensures Power(a + b) == Power(a) * Power(b) % M
  {
    PowerInRange(a);
    if b > 0 {
      PowerAdds(a, b - 1);
      MulModTwice(Power(a), Power(b - 1), A);
    }
  }

  // ----- computed powers -----

  lemma {:induction false} PowerSum(i: nat, j: nat, u: int, v: int, w: int)
    requires Power(i) == u && Power(j) == v && u * v % M == w
    ensures Power(i + j) == w
  {
    PowerAdds(i, j);
  }

  lemma {:induction false} FirstPower()
    ensures Power(1) == 16807
  {
    assert Power(0) == 1;
  }

  lemma {:induction false} PowerR()
    ensures Power(1386) == 1179617774
  {
    hide Power;
    FirstPower();
    PowerSum(1, 1, 16807, 16807, 282475249);
    PowerSum(2, 2, 282475249, 282475249, 984943658);
    PowerSum(4, 1, 984943658, 16807, 1144108930);
    PowerSum(5, 5, 1144108930, 1144108930, 2007237709);
    PowerSum(10, 10, 2007237709, 2007237709, 143542612);
    PowerSum(20, 1, 143542612, 16807, 896544303);
    PowerSum(21, 21, 896544303, 896544303, 2110010672);
    PowerSum(42, 1, 2110010672, 16807, 1551901393);
    PowerSum(43, 43, 1551901393, 1551901393, 1351934195);
    PowerSum(86, 86, 1351934195, 1351934195, 1901915394);
    PowerSum(172, 1, 1901915394, 16807, 197941363);
    PowerSum(173, 173, 197941363, 197941363, 2028841238);
    PowerSum(346, 346, 2028841238, 2028841238, 346645555);
    PowerSum(692, 1, 346645555, 16807, 2096192221);
    PowerSum(693, 693, 2096192221, 2096192221, 1179617774);
  }

  lemma {:induction false} PowerR331()
    ensures Power(458766) == 503913307
  {
    hide Power;
    PowerR();
    PowerSum(1386, 1386, 1179617774, 1179617774, 970181005);
    PowerSum(2772, 2772, 970181005, 970181005, 1094497686);
    PowerSum(5544, 1386, 1094497686, 1179617774, 1421726854);
    PowerSum(6930, 6930, 1421726854, 1421726854, 644118171);
    PowerSum(13860, 13860, 644118171, 644118171, 1871656734);
    PowerSum(27720, 27720, 1871656734, 1871656734, 77392730);
    PowerSum(55440, 1386, 77392730, 1179617774, 52733491);
    PowerSum(56826, 56826, 52733491, 52733491, 1548873841);
    PowerSum(113652, 113652, 1548873841, 1548873841, 65802232);
    PowerSum(227304, 1386, 65802232, 1179617774, 967973175);
    PowerSum(228690, 228690, 967973175, 967973175, 720986132);
    PowerSum(457380, 1386, 720986132, 1179617774, 503913307);
  }

  lemma {:induction false} PowerOver31()
    ensures Power(69273666) == 16384
  {
    hide Power;
    PowerR331();
    PowerSum(458766, 458766, 503913307, 503913307, 1247713233);
    PowerSum(917532, 917532, 1247713233, 1247713233, 1455021586);
    PowerSum(1835064, 1835064, 1455021586, 1455021586, 157944210);
    PowerSum(3670128, 458766, 157944210, 503913307, 2081116827);
    PowerSum(4128894, 4128894, 2081116827, 2081116827, 1412405990);
    PowerSum(8257788, 8257788, 1412405990, 1412405990, 1703678886);
    PowerSum(16515576, 458766, 1703678886, 503913307, 461868074);
    PowerSum(16974342, 16974342, 461868074, 461868074, 49657232);
    PowerSum(33948684, 458766, 49657232, 503913307, 977241766);
    PowerSum(34407450, 34407450, 977241766, 977241766, 1594352945);
    PowerSum(68814900, 458766, 1594352945, 503913307, 16384);
  }

  lemma {:induction false} PowerOver151()
    ensures Power(14221746) == 1013763951
  {
    hide Power;
    PowerR331();
    PowerSum(458766, 458766, 503913307, 503913307, 1247713233);
    PowerSum(917532, 458766, 1247713233, 503913307, 1332705387);
    PowerSum(1376298, 1376298, 1332705387, 1332705387, 1622832752);
    PowerSum(2752596, 458766, 1622832752, 503913307, 1835564890);
    PowerSum(3211362, 3211362, 1835564890, 1835564890, 972995033);
    PowerSum(6422724, 458766, 972995033, 503913307, 2137179903);
    PowerSum(6881490, 6881490, 2137179903, 2137179903, 1991360797);
    PowerSum(13762980, 458766, 1991360797, 503913307, 1013763951);
  }

  lemma {:induction false} PowerOver331()
    ensures Power(6487866) == 759513457
  {
    hide Power;
    PowerR();
    PowerSum(1386, 1386, 1179617774, 1179617774, 970181005);
    PowerSum(2772, 2772, 970181005, 970181005, 1094497686);
    PowerSum(5544, 5544, 1094497686, 1094497686, 1818048795);
    PowerSum(11088, 1386, 1818048795, 1179617774, 1595268003);
    PowerSum(12474, 12474, 1595268003, 1595268003, 97566603);
    PowerSum(24948, 24948, 97566603, 97566603, 1064589535);
    PowerSum(49896, 49896, 1064589535, 1064589535, 174523262);
    PowerSum(99792, 1386, 174523262, 1179617774, 1513912790);
    PowerSum(101178, 101178, 1513912790, 1513912790, 233383628);
    PowerSum(202356, 202356, 233383628, 233383628, 1589393184);
    PowerSum(404712, 404712, 1589393184, 1589393184, 1224493497);
    PowerSum(809424, 1386, 1224493497, 1179617774, 1546575274);
    PowerSum(810810, 810810, 1546575274, 1546575274, 1533699249);
    PowerSum(1621620, 1621620, 1533699249, 1533699249, 561537532);
    PowerSum(3243240, 3243240, 561537532, 561537532, 42038222);
    PowerSum(6486480, 1386, 42038222, 1179617774, 759513457);
  }

  lemma {:induction false} Power331()
    ensures Power(331) == 555860589
  {
    hide Power;
    FirstPower();
    PowerSum(1, 1, 16807, 16807, 282475249);
    PowerSum(2, 2, 282475249, 282475249, 984943658);
    PowerSum(4, 1, 984943658, 16807, 1144108930);
    PowerSum(5, 5, 1144108930, 1144108930, 2007237709);
    PowerSum(10, 10, 2007237709, 2007237709, 143542612);
    PowerSum(20, 20, 143542612, 143542612, 784558821);
    PowerSum(40, 1, 784558821, 16807, 530511967);
    PowerSum(41, 41, 530511967, 530511967, 269220094);
    PowerSum(82, 82, 269220094, 269220094, 436476770);
    PowerSum(164, 1, 436476770, 16807, 60935238);
    PowerSum(165, 165, 60935238, 60935238, 925238588);
    PowerSum(330, 1, 925238588, 16807, 555860589);
  }

  lemma {:induction false} Power331x151()
    ensures Power(49981) == 560223525
  {
    hide Power;
    Power331();
    PowerSum(331, 331, 555860589, 555860589, 1448530832);
    PowerSum(662, 662, 1448530832, 1448530832, 1305712687);
    PowerSum(1324, 1324, 1305712687, 1305712687, 759417218);
    PowerSum(2648, 331, 759417218, 555860589, 1812642440);
    PowerSum(2979, 2979, 1812642440, 1812642440, 901514220);
    PowerSum(5958, 5958, 901514220, 901514220, 289286395);
    PowerSum(11916, 331, 289286395, 555860589, 441924519);
    PowerSum(12247, 12247, 441924519, 441924519, 181670560);
    PowerSum(24494, 331, 181670560, 555860589, 1540797964);
    PowerSum(24825, 24825, 1540797964, 1540797964, 661242771);
    PowerSum(49650, 331, 661242771, 555860589, 560223525);
  }

  lemma {:induction false} PowerL()
    ensures Power(1549411) == 942143378
  {
    hide Power;
    Power331x151();
    PowerSum(49981, 49981, 560223525, 560223525, 871342565);
    PowerSum(99962, 49981, 871342565, 560223525, 1650715800);
    PowerSum(149943, 149943, 1650715800, 1650715800, 64613003);
    PowerSum(299886, 49981, 64613003, 560223525, 1940668509);
    PowerSum(349867, 349867, 1940668509, 1940668509, 61803838);
    PowerSum(699734, 49981, 61803838, 560223525, 1390445717);
    PowerSum(749715, 749715, 1390445717, 1390445717, 1930637928);
    PowerSum(1499430, 49981, 1930637928, 560223525, 942143378);
  }

  lemma {:induction false} PowerOver7()
    ensures Power(4648233) == 1689239032
    ensures Power(18592932) == 494294169
    ensures Power(306783378) == 1600955193
  {
    hide Power;
    PowerL();
    PowerSum(1549411, 1549411, 942143378, 942143378, 1451889758);
    PowerSum(3098822, 1549411, 1451889758, 942143378, 1689239032);
    PowerSum(4648233, 4648233, 1689239032, 1689239032, 1429973598);
    PowerSum(9296466, 9296466, 1429973598, 1429973598, 494294169);
    PowerSum(18592932, 18592932, 494294169, 494294169, 1237897002);
    PowerSum(37185864, 37185864, 1237897002, 1237897002, 2009938488);
    PowerSum(74371728, 74371728, 2009938488, 2009938488, 1259228557);
    PowerSum(148743456, 4648233, 1259228557, 1689239032, 394883873);
    PowerSum(153391689, 153391689, 394883873, 394883873, 1600955193);
  }

  lemma {:induction false} PowerOver11()
    ensures Power(4648233) == 1689239032
    ensures Power(97612893) == 1819912402
    ensures Power(195225786) == 298192073
    ensures Power(306783378) == 1600955193
    ensures Power(46482330) == 1394455490
  {
    hide Power;
    PowerOver7();
    PowerSum(18592932, 4648233, 494294169, 1689239032, 383438545);
    PowerSum(23241165, 23241165, 383438545, 383438545, 1394455490);
    PowerSum(46482330, 46482330, 1394455490, 1394455490, 975530760);
    PowerSum(92964660, 4648233, 975530760, 1689239032, 1819912402);
    PowerSum(97612893, 97612893, 1819912402, 1819912402, 298192073);
  }

  lemma {:induction false} PowerOver3()
    ensures Power(715827882) == 634005911
    ensures Power(4648233) == 1689239032
    ensures Power(46482330) == 1394455490
    ensures Power(306783378) == 1600955193
  {
    hide Power;
    PowerOver11();
    PowerSum(97612893, 4648233, 1819912402, 1689239032, 744525991);
    PowerSum(306783378, 306783378, 1600955193, 1600955193, 894255406);
    PowerSum(613566756, 102261126, 894255406, 744525991, 634005911);
  }

  lemma {:induction false} PowerOver2()
    ensures Power(1073741823) == 2147483646
    ensures Power(2147483646) == 1
  {
    hide Power;
    PowerOver3();
    PowerSum(46482330, 4648233, 1394455490, 1689239032, 1568387158);
    PowerSum(715827882, 306783378, 634005911, 1600955193, 1398703424);
    PowerSum(1022611260, 51130563, 1398703424, 1568387158, 2147483646);
    PowerSum(1073741823, 1073741823, 2147483646, 2147483646, 1);
  }

}
