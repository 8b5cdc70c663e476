/**
 How many multiplications the power tree takes: the exact number for each
 exponent below 256, and the bound it stays within.
 */
module PowerTreeCost {
  import opened PowerTree

  function Cost0(n: nat): nat
    requires 0 <= n < 64
  {
    if n < 8 then [0, 0, 1, 2, 2, 3, 3, 4][n - 0] else
    if n < 16 then [3, 4, 4, 5, 4, 5, 5, 5][n - 8] else
    if n < 24 then [4, 5, 5, 6, 5, 6, 6, 6][n - 16] else
    if n < 32 then [5, 6, 6, 6, 6, 7, 6, 7][n - 24] else
    if n < 40 then [5, 6, 6, 7, 6, 7, 7, 7][n - 32] else
    if n < 48 then [6, 7, 7, 7, 7, 7, 7, 8][n - 40] else
    if n < 56 then [6, 7, 7, 7, 7, 8, 7, 8][n - 48] else
    [7, 8, 8, 8, 7, 8, 8, 8][n - 56]
  }

  function Cost1(n: nat): nat
    requires 64 <= n < 128
  {
    if n < 72 then [6, 7, 7, 8, 7, 8, 8, 9][n - 64] else
    if n < 80 then [7, 8, 8, 8, 8, 9, 8, 9][n - 72] else
    if n < 88 then [7, 8, 8, 8, 8, 8, 8, 9][n - 80] else
    if n < 96 then [8, 9, 8, 9, 8, 9, 9, 9][n - 88] else
    if n < 104 then [7, 8, 8, 8, 8, 9, 8, 9][n - 96] else
    if n < 112 then [8, 9, 9, 9, 8, 9, 9, 9][n - 104] else
    if n < 120 then [8, 9, 9, 9, 9, 9, 9, 9][n - 112] else
    [8, 9, 9, 9, 9, 9, 9, 10][n - 120]
  }

  function Cost2(n: nat): nat
    requires 128 <= n < 192
  {
    if n < 136 then [7, 8, 8, 9, 8, 9, 9, 9][n - 128] else
    if n < 144 then [8, 9, 9, 10, 9, 10, 10, 10][n - 136] else
    if n < 152 then [8, 9, 9, 9, 9, 9, 9, 10][n - 144] else
    if n < 160 then [9, 9, 10, 10, 9, 10, 10, 10][n - 152] else
    if n < 168 then [8, 9, 9, 9, 9, 9, 9, 10][n - 160] else
    if n < 176 then [9, 10, 9, 10, 9, 10, 10, 10][n - 168] else
    if n < 184 then [9, 10, 10, 10, 9, 10, 10, 10][n - 176] else
    [9, 10, 10, 10, 10, 10, 10, 11][n - 184]
  }

  function Cost3(n: nat): nat
    requires 192 <= n < 256
  {
    if n < 200 then [8, 9, 9, 9, 9, 10, 9, 10][n - 192] else
    if n < 208 then [9, 10, 10, 10, 9, 10, 10, 10][n - 200] else
    if n < 216 then [9, 10, 10, 10, 10, 10, 10, 10][n - 208] else
    if n < 224 then [9, 10, 10, 10, 10, 10, 10, 11][n - 216] else
    if n < 232 then [9, 10, 10, 10, 10, 11, 10, 10][n - 224] else
    if n < 240 then [10, 11, 10, 11, 10, 11, 10, 11][n - 232] else
    if n < 248 then [9, 10, 10, 10, 10, 10, 10, 11][n - 240] else
    [10, 10, 10, 11, 10, 11, 11, 10][n - 248]
  }

  /** The multiplications the table takes for `x**n`. */
  function TreeCost(n: nat): nat
    requires n < TABLE_SIZE
  {
    if n < 64 then Cost0(n) else if n < 128 then Cost1(n) else if n < 192 then Cost2(n) else Cost3(n)
  }

  lemma Entries0()
    ensures Table(0) == 0 && Table(1) == 1 && Table(2) == 1 && Table(3) == 2 && Table(4) == 2 && Table(5) == 3
            && Table(6) == 3 && Table(7) == 4
    ensures Table(8) == 4 && Table(9) == 6 && Table(10) == 5 && Table(11) == 6 && Table(12) == 6 && Table(13) == 10
            && Table(14) == 7 && Table(15) == 9
    ensures TreeCost(0) == 0 && TreeCost(1) == 0 && TreeCost(2) == 1 && TreeCost(3) == 2 && TreeCost(4) == 2
            && TreeCost(5) == 3 && TreeCost(6) == 3 && TreeCost(7) == 4
    ensures TreeCost(8) == 3 && TreeCost(9) == 4 && TreeCost(10) == 4 && TreeCost(11) == 5 && TreeCost(12) == 4
            && TreeCost(13) == 5 && TreeCost(14) == 5 && TreeCost(15) == 5
  {
  }

  lemma Entries16()
    ensures Table(16) == 8 && Table(17) == 16 && Table(18) == 9 && Table(19) == 16 && Table(20) == 10 && Table(21) == 12
            && Table(22) == 11 && Table(23) == 13
    ensures Table(24) == 12 && Table(25) == 17 && Table(26) == 13 && Table(27) == 18 && Table(28) == 14
            && Table(29) == 24 && Table(30) == 15 && Table(31) == 26
    ensures TreeCost(16) == 4 && TreeCost(17) == 5 && TreeCost(18) == 5 && TreeCost(19) == 6 && TreeCost(20) == 5
            && TreeCost(21) == 6 && TreeCost(22) == 6 && TreeCost(23) == 6
    ensures TreeCost(24) == 5 && TreeCost(25) == 6 && TreeCost(26) == 6 && TreeCost(27) == 6 && TreeCost(28) == 6
            && TreeCost(29) == 7 && TreeCost(30) == 6 && TreeCost(31) == 7
  {
  }

  lemma Entries32()
    ensures Table(32) == 16 && Table(33) == 17 && Table(34) == 17 && Table(35) == 19 && Table(36) == 18
            && Table(37) == 33 && Table(38) == 19 && Table(39) == 26
    ensures Table(40) == 20 && Table(41) == 25 && Table(42) == 21 && Table(43) == 40 && Table(44) == 22
            && Table(45) == 27 && Table(46) == 23 && Table(47) == 44
    ensures TreeCost(32) == 5 && TreeCost(33) == 6 && TreeCost(34) == 6 && TreeCost(35) == 7 && TreeCost(36) == 6
            && TreeCost(37) == 7 && TreeCost(38) == 7 && TreeCost(39) == 7
    ensures TreeCost(40) == 6 && TreeCost(41) == 7 && TreeCost(42) == 7 && TreeCost(43) == 7 && TreeCost(44) == 7
            && TreeCost(45) == 7 && TreeCost(46) == 7 && TreeCost(47) == 8
  {
  }

  lemma Entries48()
    ensures Table(48) == 24 && Table(49) == 32 && Table(50) == 25 && Table(51) == 34 && Table(52) == 26
            && Table(53) == 29 && Table(54) == 27 && Table(55) == 44
    ensures Table(56) == 28 && Table(57) == 31 && Table(58) == 29 && Table(59) == 34 && Table(60) == 30
            && Table(61) == 60 && Table(62) == 31 && Table(63) == 36
    ensures TreeCost(48) == 6 && TreeCost(49) == 7 && TreeCost(50) == 7 && TreeCost(51) == 7 && TreeCost(52) == 7
            && TreeCost(53) == 8 && TreeCost(54) == 7 && TreeCost(55) == 8
    ensures TreeCost(56) == 7 && TreeCost(57) == 8 && TreeCost(58) == 8 && TreeCost(59) == 8 && TreeCost(60) == 7
            && TreeCost(61) == 8 && TreeCost(62) == 8 && TreeCost(63) == 8
  {
  }

  lemma Entries64()
    ensures Table(64) == 32 && Table(65) == 64 && Table(66) == 33 && Table(67) == 34 && Table(68) == 34
            && Table(69) == 46 && Table(70) == 35 && Table(71) == 37
    ensures Table(72) == 36 && Table(73) == 65 && Table(74) == 37 && Table(75) == 50 && Table(76) == 38
            && Table(77) == 48 && Table(78) == 39 && Table(79) == 69
    ensures TreeCost(64) == 6 && TreeCost(65) == 7 && TreeCost(66) == 7 && TreeCost(67) == 8 && TreeCost(68) == 7
            && TreeCost(69) == 8 && TreeCost(70) == 8 && TreeCost(71) == 9
    ensures TreeCost(72) == 7 && TreeCost(73) == 8 && TreeCost(74) == 8 && TreeCost(75) == 8 && TreeCost(76) == 8
            && TreeCost(77) == 9 && TreeCost(78) == 8 && TreeCost(79) == 9
  {
  }

  lemma Entries80()
    ensures Table(80) == 40 && Table(81) == 49 && Table(82) == 41 && Table(83) == 43 && Table(84) == 42
            && Table(85) == 51 && Table(86) == 43 && Table(87) == 58
    ensures Table(88) == 44 && Table(89) == 64 && Table(90) == 45 && Table(91) == 47 && Table(92) == 46
            && Table(93) == 59 && Table(94) == 47 && Table(95) == 76
    ensures TreeCost(80) == 7 && TreeCost(81) == 8 && TreeCost(82) == 8 && TreeCost(83) == 8 && TreeCost(84) == 8
            && TreeCost(85) == 8 && TreeCost(86) == 8 && TreeCost(87) == 9
    ensures TreeCost(88) == 8 && TreeCost(89) == 9 && TreeCost(90) == 8 && TreeCost(91) == 9 && TreeCost(92) == 8
            && TreeCost(93) == 9 && TreeCost(94) == 9 && TreeCost(95) == 9
  {
  }

  lemma Entries96()
    ensures Table(96) == 48 && Table(97) == 65 && Table(98) == 49 && Table(99) == 66 && Table(100) == 50
            && Table(101) == 67 && Table(102) == 51 && Table(103) == 66
    ensures Table(104) == 52 && Table(105) == 70 && Table(106) == 53 && Table(107) == 74 && Table(108) == 54
            && Table(109) == 104 && Table(110) == 55 && Table(111) == 74
    ensures TreeCost(96) == 7 && TreeCost(97) == 8 && TreeCost(98) == 8 && TreeCost(99) == 8 && TreeCost(100) == 8
            && TreeCost(101) == 9 && TreeCost(102) == 8 && TreeCost(103) == 9
    ensures TreeCost(104) == 8 && TreeCost(105) == 9 && TreeCost(106) == 9 && TreeCost(107) == 9 && TreeCost(108) == 8
            && TreeCost(109) == 9 && TreeCost(110) == 9 && TreeCost(111) == 9
  {
  }

  lemma Entries112()
    ensures Table(112) == 56 && Table(113) == 64 && Table(114) == 57 && Table(115) == 69 && Table(116) == 58
            && Table(117) == 78 && Table(118) == 59 && Table(119) == 68
    ensures Table(120) == 60 && Table(121) == 61 && Table(122) == 61 && Table(123) == 80 && Table(124) == 62
            && Table(125) == 75 && Table(126) == 63 && Table(127) == 68
    ensures TreeCost(112) == 8 && TreeCost(113) == 9 && TreeCost(114) == 9 && TreeCost(115) == 9 && TreeCost(116) == 9
            && TreeCost(117) == 9 && TreeCost(118) == 9 && TreeCost(119) == 9
    ensures TreeCost(120) == 8 && TreeCost(121) == 9 && TreeCost(122) == 9 && TreeCost(123) == 9 && TreeCost(124) == 9
            && TreeCost(125) == 9 && TreeCost(126) == 9 && TreeCost(127) == 10
  {
  }

  lemma Entries128()
    ensures Table(128) == 64 && Table(129) == 65 && Table(130) == 65 && Table(131) == 128 && Table(132) == 66
            && Table(133) == 129 && Table(134) == 67 && Table(135) == 90
    ensures Table(136) == 68 && Table(137) == 73 && Table(138) == 69 && Table(139) == 131 && Table(140) == 70
            && Table(141) == 94 && Table(142) == 71 && Table(143) == 88
    ensures TreeCost(128) == 7 && TreeCost(129) == 8 && TreeCost(130) == 8 && TreeCost(131) == 9 && TreeCost(132) == 8
            && TreeCost(133) == 9 && TreeCost(134) == 9 && TreeCost(135) == 9
    ensures TreeCost(136) == 8 && TreeCost(137) == 9 && TreeCost(138) == 9 && TreeCost(139) == 10 && TreeCost(140) == 9
            && TreeCost(141) == 10 && TreeCost(142) == 10 && TreeCost(143) == 10
  {
  }

  lemma Entries144()
    ensures Table(144) == 72 && Table(145) == 128 && Table(146) == 73 && Table(147) == 98 && Table(148) == 74
            && Table(149) == 132 && Table(150) == 75 && Table(151) == 121
    ensures Table(152) == 76 && Table(153) == 102 && Table(154) == 77 && Table(155) == 124 && Table(156) == 78
            && Table(157) == 132 && Table(158) == 79 && Table(159) == 106
    ensures TreeCost(144) == 8 && TreeCost(145) == 9 && TreeCost(146) == 9 && TreeCost(147) == 9 && TreeCost(148) == 9
            && TreeCost(149) == 9 && TreeCost(150) == 9 && TreeCost(151) == 10
    ensures TreeCost(152) == 9 && TreeCost(153) == 9 && TreeCost(154) == 10 && TreeCost(155) == 10 && TreeCost(156) == 9
            && TreeCost(157) == 10 && TreeCost(158) == 10 && TreeCost(159) == 10
  {
  }

  lemma Entries160()
    ensures Table(160) == 80 && Table(161) == 97 && Table(162) == 81 && Table(163) == 160 && Table(164) == 82
            && Table(165) == 99 && Table(166) == 83 && Table(167) == 134
    ensures Table(168) == 84 && Table(169) == 86 && Table(170) == 85 && Table(171) == 95 && Table(172) == 86
            && Table(173) == 160 && Table(174) == 87 && Table(175) == 100
    ensures TreeCost(160) == 8 && TreeCost(161) == 9 && TreeCost(162) == 9 && TreeCost(163) == 9 && TreeCost(164) == 9
            && TreeCost(165) == 9 && TreeCost(166) == 9 && TreeCost(167) == 10
    ensures TreeCost(168) == 9 && TreeCost(169) == 10 && TreeCost(170) == 9 && TreeCost(171) == 10 && TreeCost(172) == 9
            && TreeCost(173) == 10 && TreeCost(174) == 10 && TreeCost(175) == 10
  {
  }

  lemma Entries176()
    ensures Table(176) == 88 && Table(177) == 113 && Table(178) == 89 && Table(179) == 98 && Table(180) == 90
            && Table(181) == 107 && Table(182) == 91 && Table(183) == 122
    ensures Table(184) == 92 && Table(185) == 111 && Table(186) == 93 && Table(187) == 102 && Table(188) == 94
            && Table(189) == 126 && Table(190) == 95 && Table(191) == 150
    ensures TreeCost(176) == 9 && TreeCost(177) == 10 && TreeCost(178) == 10 && TreeCost(179) == 10
            && TreeCost(180) == 9 && TreeCost(181) == 10 && TreeCost(182) == 10 && TreeCost(183) == 10
    ensures TreeCost(184) == 9 && TreeCost(185) == 10 && TreeCost(186) == 10 && TreeCost(187) == 10
            && TreeCost(188) == 10 && TreeCost(189) == 10 && TreeCost(190) == 10 && TreeCost(191) == 11
  {
  }

  lemma Entries192()
    ensures Table(192) == 96 && Table(193) == 128 && Table(194) == 97 && Table(195) == 130 && Table(196) == 98
            && Table(197) == 133 && Table(198) == 99 && Table(199) == 195
    ensures Table(200) == 100 && Table(201) == 128 && Table(202) == 101 && Table(203) == 123 && Table(204) == 102
            && Table(205) == 164 && Table(206) == 103 && Table(207) == 138
    ensures TreeCost(192) == 8 && TreeCost(193) == 9 && TreeCost(194) == 9 && TreeCost(195) == 9 && TreeCost(196) == 9
            && TreeCost(197) == 10 && TreeCost(198) == 9 && TreeCost(199) == 10
    ensures TreeCost(200) == 9 && TreeCost(201) == 10 && TreeCost(202) == 10 && TreeCost(203) == 10
            && TreeCost(204) == 9 && TreeCost(205) == 10 && TreeCost(206) == 10 && TreeCost(207) == 10
  {
  }

  lemma Entries208()
    ensures Table(208) == 104 && Table(209) == 145 && Table(210) == 105 && Table(211) == 146 && Table(212) == 106
            && Table(213) == 109 && Table(214) == 107 && Table(215) == 149
    ensures Table(216) == 108 && Table(217) == 200 && Table(218) == 109 && Table(219) == 146 && Table(220) == 110
            && Table(221) == 170 && Table(222) == 111 && Table(223) == 157
    ensures TreeCost(208) == 9 && TreeCost(209) == 10 && TreeCost(210) == 10 && TreeCost(211) == 10
            && TreeCost(212) == 10 && TreeCost(213) == 10 && TreeCost(214) == 10 && TreeCost(215) == 10
    ensures TreeCost(216) == 9 && TreeCost(217) == 10 && TreeCost(218) == 10 && TreeCost(219) == 10
            && TreeCost(220) == 10 && TreeCost(221) == 10 && TreeCost(222) == 10 && TreeCost(223) == 11
  {
  }

  lemma Entries224()
    ensures Table(224) == 112 && Table(225) == 128 && Table(226) == 113 && Table(227) == 130 && Table(228) == 114
            && Table(229) == 182 && Table(230) == 115 && Table(231) == 132
    ensures Table(232) == 116 && Table(233) == 200 && Table(234) == 117 && Table(235) == 132 && Table(236) == 118
            && Table(237) == 158 && Table(238) == 119 && Table(239) == 206
    ensures TreeCost(224) == 9 && TreeCost(225) == 10 && TreeCost(226) == 10 && TreeCost(227) == 10
            && TreeCost(228) == 10 && TreeCost(229) == 11 && TreeCost(230) == 10 && TreeCost(231) == 10
    ensures TreeCost(232) == 10 && TreeCost(233) == 11 && TreeCost(234) == 10 && TreeCost(235) == 11
            && TreeCost(236) == 10 && TreeCost(237) == 11 && TreeCost(238) == 10 && TreeCost(239) == 11
  {
  }

  lemma Entries240()
    ensures Table(240) == 120 && Table(241) == 240 && Table(242) == 121 && Table(243) == 162 && Table(244) == 122
            && Table(245) == 147 && Table(246) == 123 && Table(247) == 152
    ensures Table(248) == 124 && Table(249) == 166 && Table(250) == 125 && Table(251) == 214 && Table(252) == 126
            && Table(253) == 138 && Table(254) == 127 && Table(255) == 153
    ensures TreeCost(240) == 9 && TreeCost(241) == 10 && TreeCost(242) == 10 && TreeCost(243) == 10
            && TreeCost(244) == 10 && TreeCost(245) == 10 && TreeCost(246) == 10 && TreeCost(247) == 11
    ensures TreeCost(248) == 10 && TreeCost(249) == 10 && TreeCost(250) == 10 && TreeCost(251) == 11
            && TreeCost(252) == 10 && TreeCost(253) == 11 && TreeCost(254) == 11 && TreeCost(255) == 10
  {
  }

  lemma OneTakes()
    ensures Takes(1, TreeCost(1))
  {
    assert Closure(1) == {1};
  }

  /** Each entry takes exactly what the cost table says. */
  lemma {:induction false} TreeTakes(n: nat)
    requires 0 < n < TABLE_SIZE
    ensures Takes(n, TreeCost(n))
    decreases n, 1
  {
    hide Table, Closure, TreeCost, Takes;
    if n == 1 {
      OneTakes();
    } else if n % 2 == 0 {
      TreeTakes(n / 2);
      EvenTakes(n / 2);
    }
    else if n < 32 { Odd0(n); }
    else if n < 64 { Odd32(n); }
    else if n < 96 { Odd64(n); }
    else if n < 128 { Odd96(n); }
    else if n < 160 { Odd128(n); }
    else if n < 192 { Odd160(n); }
    else if n < 224 { Odd192(n); }
    else { Odd224(n); }
  }

  lemma {:induction false} Odd0(n: nat)
    requires 2 < n < 32 && n % 2 == 1
    ensures Takes(n, TreeCost(n))
    decreases n, 0
  {
    hide Closure, Takes, Table, TreeCost;
    Entries0();
    Entries16();
    if n == 3 { TreeTakes(2); Hop(3, 3, 1); }
    if n == 5 { TreeTakes(3); Hop(5, 3, 2); }
    if n == 7 { TreeTakes(4); Hop2(7, 4, 3, 7, {4}, 2); }
    if n == 9 { TreeTakes(6); Hop(9, 3, 3); }
    if n == 11 { TreeTakes(6); Hop2(11, 6, 3, 7, {6}, 3); }
    if n == 13 { TreeTakes(10); Hop(13, 7, 4); }
    if n == 15 { TreeTakes(9); Hop(15, 3, 4); }
    if n == 17 { TreeTakes(16); Hop(17, 31, 4); }
    if n == 19 { TreeTakes(16); Hop2(19, 16, 15, 31, {4, 8, 16}, 4); }
    if n == 21 { TreeTakes(12); Hop2(21, 12, 3, 7, {12}, 4); }
    if n == 23 { TreeTakes(13); Hop(23, 3, 5); }
    if n == 25 { TreeTakes(17); Hop(25, 7, 5); }
    if n == 27 { TreeTakes(18); Hop(27, 3, 5); }
    if n == 29 { TreeTakes(24); Hop2(29, 24, 15, 31, {6, 12, 24}, 5); }
    if n == 31 { TreeTakes(26); Hop(31, 15, 6); }
  }

  lemma {:induction false} Odd32(n: nat)
    requires 32 < n < 64 && n % 2 == 1
    ensures Takes(n, TreeCost(n))
    decreases n, 0
  {
    hide Closure, Takes, Table, TreeCost;
    Entries0();
    Entries16();
    Entries32();
    Entries48();
    if n == 33 { TreeTakes(17); Hop(33, 3, 5); }
    if n == 35 { TreeTakes(19); Hop(35, 3, 6); }
    if n == 37 { TreeTakes(33); Hop(37, 14, 6); }
    if n == 39 { TreeTakes(26); Hop(39, 3, 6); }
    if n == 41 { TreeTakes(25); Hop(41, 7, 6); }
    if n == 43 { TreeTakes(40); Hop(43, 31, 6); }
    if n == 45 { TreeTakes(27); Hop(45, 3, 6); }
    if n == 47 { TreeTakes(44); Hop(47, 31, 7); }
    if n == 49 { TreeTakes(32); Hop2(49, 32, 3, 63, {32}, 5); }
    if n == 51 { TreeTakes(34); Hop(51, 3, 6); }
    if n == 53 { TreeTakes(29); Hop(53, 3, 7); }
    if n == 55 { TreeTakes(44); Hop(55, 7, 7); }
    if n == 57 { TreeTakes(31); Hop(57, 3, 7); }
    if n == 59 { TreeTakes(34); Hop2(59, 34, 3, 15, {34}, 6); }
    if n == 61 { TreeTakes(60); Hop(61, 39, 7); }
    if n == 63 { TreeTakes(36); Hop2(63, 36, 3, 7, {36}, 6); }
  }

  lemma {:induction false} Odd64(n: nat)
    requires 64 < n < 96 && n % 2 == 1
    ensures Takes(n, TreeCost(n))
    decreases n, 0
  {
    hide Closure, Takes, Table, TreeCost;
    Entries0();
    Entries16();
    Entries32();
    Entries48();
    Entries64();
    Entries80();
    if n == 65 { TreeTakes(64); Hop(65, 127, 6); }
    if n == 67 { TreeTakes(34); Hop2(67, 34, 3, 7, {34}, 6); }
    if n == 69 { TreeTakes(46); Hop(69, 3, 7); }
    if n == 71 { TreeTakes(37); Hop2(71, 37, 7, 7, {37}, 7); }
    if n == 73 { TreeTakes(65); Hop(73, 31, 7); }
    if n == 75 { TreeTakes(50); Hop(75, 3, 7); }
    if n == 77 { TreeTakes(29); Hop2(77, 29, 3, 3, {}, 7); }
    if n == 79 { TreeTakes(69); Hop(79, 4, 8); }
    if n == 81 { TreeTakes(49); Hop(81, 3, 7); }
    if n == 83 { TreeTakes(43); Hop(83, 3, 7); }
    if n == 85 { TreeTakes(51); Hop(85, 3, 7); }
    if n == 87 { TreeTakes(58); Hop(87, 3, 8); }
    if n == 89 { TreeTakes(64); Entry89(); }
    if n == 91 { TreeTakes(47); Hop(91, 3, 8); }
    if n == 93 { TreeTakes(59); Hop(93, 3, 8); }
    if n == 95 { TreeTakes(76); Hop(95, 7, 8); }
  }

  lemma {:induction false} Odd96(n: nat)
    requires 96 < n < 128 && n % 2 == 1
    ensures Takes(n, TreeCost(n))
    decreases n, 0
  {
    hide Closure, Takes, Table, TreeCost;
    Entries0();
    Entries16();
    Entries32();
    Entries48();
    Entries64();
    Entries80();
    Entries96();
    Entries112();
    if n == 97 { TreeTakes(65); Hop(97, 7, 7); }
    if n == 99 { TreeTakes(66); Hop(99, 3, 7); }
    if n == 101 { TreeTakes(67); Hop(101, 3, 8); }
    if n == 103 { TreeTakes(66); Hop2(103, 66, 3, 29, {66}, 7); }
    if n == 105 { TreeTakes(70); Hop(105, 3, 8); }
    if n == 107 { TreeTakes(74); Hop(107, 7, 8); }
    if n == 109 { TreeTakes(104); Hop(109, 63, 8); }
    if n == 111 { TreeTakes(74); Hop(111, 3, 8); }
    if n == 113 { TreeTakes(49); Hop2(113, 49, 3, 3, {}, 7); }
    if n == 115 { TreeTakes(69); Hop(115, 3, 8); }
    if n == 117 { TreeTakes(78); Hop(117, 3, 8); }
    if n == 119 { TreeTakes(68); Hop2(119, 68, 3, 7, {68}, 7); }
    if n == 121 { TreeTakes(61); Hop(121, 3, 8); }
    if n == 123 { TreeTakes(80); Hop2(123, 80, 3, 63, {80}, 7); }
    if n == 125 { TreeTakes(75); Hop(125, 3, 8); }
    if n == 127 { TreeTakes(59); Hop2(127, 59, 3, 3, {}, 8); }
  }

  lemma {:induction false} Odd128(n: nat)
    requires 128 < n < 160 && n % 2 == 1
    ensures Takes(n, TreeCost(n))
    decreases n, 0
  {
    hide Closure, Takes, Table, TreeCost;
    Entries0();
    Entries16();
    Entries32();
    Entries48();
    Entries64();
    Entries80();
    Entries96();
    Entries112();
    Entries128();
    Entries144();
    if n == 129 { TreeTakes(65); Hop(129, 3, 7); }
    if n == 131 { TreeTakes(128); Hop2(131, 128, 127, 255, {4, 8, 16, 32, 64, 128}, 7); }
    if n == 133 { TreeTakes(129); Hop(133, 62, 8); }
    if n == 135 { TreeTakes(90); Hop(135, 3, 8); }
    if n == 137 { TreeTakes(73); Hop(137, 7, 8); }
    if n == 139 { TreeTakes(131); Hop(139, 63, 9); }
    if n == 141 { TreeTakes(94); Hop(141, 3, 9); }
    if n == 143 { TreeTakes(88); Hop2(143, 88, 3, 15, {88}, 8); }
    if n == 145 { TreeTakes(128); Hop2(145, 128, 15, 255, {32, 64, 128}, 7); }
    if n == 147 { TreeTakes(98); Hop(147, 3, 8); }
    if n == 149 { TreeTakes(132); Hop(149, 15, 8); }
    if n == 151 { TreeTakes(121); Hop(151, 6, 9); }
    if n == 153 { TreeTakes(102); Hop(153, 3, 8); }
    if n == 155 { TreeTakes(124); Hop(155, 7, 9); }
    if n == 157 { TreeTakes(132); Hop2(157, 132, 15, 27, {33, 66, 132}, 8); }
    if n == 159 { TreeTakes(106); Hop(159, 3, 9); }
  }

  lemma {:induction false} Odd160(n: nat)
    requires 160 < n < 192 && n % 2 == 1
    ensures Takes(n, TreeCost(n))
    decreases n, 0
  {
    hide Closure, Takes, Table, TreeCost;
    Entries0();
    Entries16();
    Entries32();
    Entries48();
    Entries64();
    Entries80();
    Entries96();
    Entries112();
    Entries128();
    Entries144();
    Entries160();
    Entries176();
    if n == 161 { TreeTakes(97); Hop(161, 7, 8); }
    if n == 163 { TreeTakes(160); Hop(163, 127, 8); }
    if n == 165 { TreeTakes(99); Hop(165, 3, 8); }
    if n == 167 { TreeTakes(134); Hop(167, 5, 9); }
    if n == 169 { TreeTakes(86); Hop2(169, 86, 3, 7, {86}, 8); }
    if n == 171 { TreeTakes(95); Hop(171, 3, 9); }
    if n == 173 { TreeTakes(160); Hop2(173, 160, 31, 127, {20, 40, 80, 160}, 8); }
    if n == 175 { TreeTakes(100); Hop2(175, 100, 3, 7, {100}, 8); }
    if n == 177 { TreeTakes(113); Hop(177, 3, 9); }
    if n == 179 { TreeTakes(98); Hop2(179, 98, 3, 7, {98}, 8); }
    if n == 181 { TreeTakes(107); Hop(181, 3, 9); }
    if n == 183 { TreeTakes(122); Hop(183, 3, 9); }
    if n == 185 { TreeTakes(111); Hop(185, 3, 9); }
    if n == 187 { TreeTakes(102); Hop2(187, 102, 3, 7, {102}, 8); }
    if n == 189 { TreeTakes(126); Hop(189, 3, 9); }
    if n == 191 { TreeTakes(150); Hop2(191, 150, 5, 29, {50, 75, 150}, 9); }
  }

  lemma {:induction false} Odd192(n: nat)
    requires 192 < n < 224 && n % 2 == 1
    ensures Takes(n, TreeCost(n))
    decreases n, 0
  {
    hide Closure, Takes, Table, TreeCost;
    Entries0();
    Entries16();
    Entries32();
    Entries48();
    Entries64();
    Entries80();
    Entries96();
    Entries112();
    Entries128();
    Entries144();
    Entries160();
    Entries192();
    Entries208();
    if n == 193 { TreeTakes(128); Hop2(193, 128, 3, 255, {128}, 7); }
    if n == 195 { TreeTakes(130); Hop(195, 3, 8); }
    if n == 197 { TreeTakes(133); Hop(197, 5, 9); }
    if n == 199 { TreeTakes(195); Hop(199, 126, 9); }
    if n == 201 { TreeTakes(73); Hop2(201, 73, 7, 7, {}, 8); }
    if n == 203 { TreeTakes(123); Hop(203, 3, 9); }
    if n == 205 { TreeTakes(164); Hop(205, 7, 9); }
    if n == 207 { TreeTakes(138); Hop(207, 3, 9); }
    if n == 209 { TreeTakes(145); Hop(209, 7, 9); }
    if n == 211 { TreeTakes(146); Hop(211, 7, 9); }
    if n == 213 { TreeTakes(109); Hop(213, 3, 9); }
    if n == 215 { TreeTakes(149); Hop(215, 7, 9); }
    if n == 217 { TreeTakes(200); Hop(217, 31, 9); }
    if n == 219 { TreeTakes(146); Hop(219, 3, 9); }
    if n == 221 { TreeTakes(170); Hop(221, 7, 9); }
    if n == 223 { TreeTakes(157); Hop(223, 7, 10); }
  }

  lemma {:induction false} Odd224(n: nat)
    requires 224 < n < 256 && n % 2 == 1
    ensures Takes(n, TreeCost(n))
    decreases n, 0
  {
    hide Closure, Takes, Table, TreeCost;
    Entries0();
    Entries16();
    Entries32();
    Entries48();
    Entries64();
    Entries80();
    Entries96();
    Entries112();
    Entries128();
    Entries144();
    Entries160();
    Entries176();
    Entries192();
    Entries208();
    Entries224();
    Entries240();
    if n == 225 { TreeTakes(97); Hop2(225, 97, 7, 7, {}, 8); }
    if n == 227 { TreeTakes(130); Hop2(227, 130, 3, 15, {130}, 8); }
    if n == 229 { TreeTakes(182); Hop(229, 7, 10); }
    if n == 231 { TreeTakes(132); Hop2(231, 132, 3, 7, {132}, 8); }
    if n == 233 { TreeTakes(200); Hop2(233, 200, 31, 63, {50, 100, 200}, 9); }
    if n == 235 { TreeTakes(103); Hop2(235, 103, 3, 3, {}, 9); }
    if n == 237 { TreeTakes(158); Hop(237, 3, 10); }
    if n == 239 { TreeTakes(206); Hop(239, 15, 10); }
    if n == 241 { TreeTakes(240); Hop(241, 159, 9); }
    if n == 243 { TreeTakes(162); Hop(243, 3, 9); }
    if n == 245 { TreeTakes(147); Hop(245, 3, 9); }
    if n == 247 { TreeTakes(152); Hop2(247, 152, 3, 15, {152}, 9); }
    if n == 249 { TreeTakes(166); Hop(249, 3, 9); }
    if n == 251 { TreeTakes(214); Hop(251, 15, 10); }
    if n == 253 { TreeTakes(138); Hop2(253, 138, 3, 7, {138}, 9); }
    if n == 255 { TreeTakes(153); Hop(255, 3, 9); }
  }

  lemma EvenTakes(n: nat)
    requires 0 < n && 2 * n < TABLE_SIZE && Takes(n, TreeCost(n))
    ensures Takes(2 * n, TreeCost(2 * n))
  {
    hide Table, Closure;
    DoubleClosure(n);
    if n < 32 { Even0(n); } else if n < 64 { Even1(n); } else if n < 96 { Even2(n); } else { Even3(n); }
  }

  /** 89 == 64 + 25 and 25 == 17 + 8: neither 25 nor 17 comes from 64. */
  lemma Entry89()
    requires Takes(64, 6)
    ensures Takes(89, TreeCost(89))
  {
    hide Closure;
    ClosureClosed(64);
    FollowIn(64, 7);
    FollowIn(64, 15);
    FollowIn(64, 127);
    var c := Closure(64);
    assert 16 in c && 8 in c && 1 in c;
    assert Passes(64, 17, {32, 64}) && Passes(64, 25, {32, 64});
    PassedBy(64, 17, {32, 64});
    PassedBy(64, 25, {32, 64});
    PartsIn(89);
    PartsIn(25);
    ExtendClosed(17, c);
    ExtendClosed(25, c + {17});
    Extend(89, c + {17} + {25});
  }

  lemma Even0(n: nat)
    requires 0 < n && 0 <= n < 32
    ensures TreeCost(2 * n) == TreeCost(n) + 1
  {
  }

  lemma Even1(n: nat)
    requires 0 < n && 32 <= n < 64
    ensures TreeCost(2 * n) == TreeCost(n) + 1
  {
  }

  lemma Even2(n: nat)
    requires 0 < n && 64 <= n < 96
    ensures TreeCost(2 * n) == TreeCost(n) + 1
  {
  }

  lemma Even3(n: nat)
    requires 0 < n && 96 <= n < 128
    ensures TreeCost(2 * n) == TreeCost(n) + 1
  {
  }

  // ----- the bound -----

  /** The number of binary digits. */
  function Bits(n: nat): nat {
    if n == 0 then 0 else 1 + Bits(n / 2)
  }

  /** A bound on the multiplications for table exponents of `b` binary digits. */
  function TableBound(b: nat): int {
    if b <= 4 then 2 * b - 2 else if b == 5 then 7 else 2 * b - 4
  }

  lemma BitsRange(n: nat)
    requires 0 < n < TABLE_SIZE
    ensures Bits(n) == if n < 2 then 1 else if n < 4 then 2 else if n < 8 then 3 else if n < 16 then 4
                       else if n < 32 then 5 else if n < 64 then 6 else if n < 128 then 7 else 8
  {
    assert Bits(n) == if n < 2 then 1 else if n < 4 then 1 + Bits(n / 2) else 2 + Bits(n / 4);
    assert n / 4 > 0 ==> Bits(n / 4) == if n / 4 < 2 then 1 else if n / 4 < 4 then 1 + Bits(n / 8)
        else 2 + Bits(n / 16);
    assert n / 16 > 0 ==> Bits(n / 16) == if n / 16 < 2 then 1 else if n / 16 < 4 then 1 + Bits(n / 32)
        else 2 + Bits(n / 64);
  }

  lemma TreeBound(n: nat)
    requires 0 < n < TABLE_SIZE
    ensures TreeCost(n) <= TableBound(Bits(n)) <= 2 * Bits(n) - 2
  {
    hide TreeCost;
    BitsRange(n);
    if n < 64 { Bound0(n); } else if n < 128 { Bound1(n); } else if n < 192 { Bound2(n); } else { Bound3(n); }
  }

  lemma Bound0(n: nat)
    requires 0 < n < 64
    ensures TreeCost(n) <= if n < 2 then 0 else if n < 4 then 2 else if n < 8 then 4 else if n < 16 then 6
              else if n < 32 then 7 else 8
  {
  }

  lemma Bound1(n: nat)
    requires 64 <= n < 128
    ensures TreeCost(n) <= 10
  {
  }

  lemma Bound2(n: nat)
    requires 128 <= n < 192
    ensures TreeCost(n) <= 12
  {
  }

  lemma Bound3(n: nat)
    requires 192 <= n < 256
    ensures TreeCost(n) <= 12
  {
  }
}
