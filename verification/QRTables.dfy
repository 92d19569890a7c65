/** The capacity tables of the QR coder, by version (1 to 40) and error correction level (0 to 3). */
module QRTables {
  import opened Arithmetic

  /** Error correction codewords in all, and the numbers of blocks of the two lengths; the second
      number is 0 where the source's table has only one. */
  datatype Level = Level(ec: nat, first: nat, second: nat)

  function Pick(level: nat, m: Level, l: Level, h: Level, q: Level): Level {
    if level == 0 then m else if level == 1 then l else if level == 2 then h else q
  }

  function NCodewords(version: nat): nat {
    match version
    case 1 => 26
    case 2 => 44
    case 3 => 70
    case 4 => 100
    case 5 => 134
    case 6 => 172
    case 7 => 196
    case 8 => 242
    case 9 => 292
    case 10 => 346
    case 11 => 404
    case 12 => 466
    case 13 => 532
    case 14 => 581
    case 15 => 655
    case 16 => 733
    case 17 => 815
    case 18 => 901
    case 19 => 991
    case 20 => 1085
    case 21 => 1156
    case 22 => 1258
    case 23 => 1364
    case 24 => 1474
    case 25 => 1588
    case 26 => 1706
    case 27 => 1828
    case 28 => 1921
    case 29 => 2051
    case 30 => 2185
    case 31 => 2323
    case 32 => 2465
    case 33 => 2611
    case 34 => 2761
    case 35 => 2876
    case 36 => 3034
    case 37 => 3196
    case 38 => 3362
    case 39 => 3532
    case 40 => 3706
    case _ => 0
  }

  function EcLevel(version: nat, level: nat): Level {
    match version
    case 1 => Pick(level, Level(10, 1, 0), Level(7, 1, 0), Level(17, 1, 0), Level(13, 1, 0))
    case 2 => Pick(level, Level(16, 1, 0), Level(10, 1, 0), Level(28, 1, 0), Level(22, 1, 0))
    case 3 => Pick(level, Level(26, 1, 0), Level(15, 1, 0), Level(44, 2, 0), Level(36, 2, 0))
    case 4 => Pick(level, Level(36, 2, 0), Level(20, 1, 0), Level(64, 4, 0), Level(52, 2, 0))
    case 5 => Pick(level, Level(48, 2, 0), Level(26, 1, 0), Level(88, 2, 2), Level(72, 2, 2))
    case 6 => Pick(level, Level(64, 4, 0), Level(36, 2, 0), Level(112, 4, 0), Level(96, 4, 0))
    case 7 => Pick(level, Level(72, 4, 0), Level(40, 2, 0), Level(130, 4, 1), Level(108, 2, 4))
    case 8 => Pick(level, Level(88, 2, 2), Level(48, 2, 0), Level(156, 4, 2), Level(132, 4, 2))
    case 9 => Pick(level, Level(110, 3, 2), Level(60, 2, 0), Level(192, 4, 4), Level(160, 4, 4))
    case 10 => Pick(level, Level(130, 4, 1), Level(72, 2, 2), Level(224, 6, 2), Level(192, 6, 2))
    case 11 => Pick(level, Level(150, 1, 4), Level(80, 4, 0), Level(264, 3, 8), Level(224, 4, 4))
    case 12 => Pick(level, Level(176, 6, 2), Level(96, 2, 2), Level(308, 7, 4), Level(260, 4, 6))
    case 13 => Pick(level, Level(198, 8, 1), Level(104, 4, 0), Level(352, 12, 4), Level(288, 8, 4))
    case 14 => Pick(level, Level(216, 4, 5), Level(120, 3, 1), Level(384, 11, 5), Level(320, 11, 5))
    case 15 => Pick(level, Level(240, 5, 5), Level(132, 5, 1), Level(432, 11, 7), Level(360, 5, 7))
    case 16 => Pick(level, Level(280, 7, 3), Level(144, 5, 1), Level(480, 3, 13), Level(408, 15, 2))
    case 17 => Pick(level, Level(308, 10, 1), Level(168, 1, 5), Level(532, 2, 17), Level(448, 1, 15))
    case 18 => Pick(level, Level(338, 9, 4), Level(180, 5, 1), Level(588, 2, 19), Level(504, 17, 1))
    case 19 => Pick(level, Level(364, 3, 11), Level(196, 3, 4), Level(650, 9, 16), Level(546, 17, 4))
    case 20 => Pick(level, Level(416, 3, 13), Level(224, 3, 5), Level(700, 15, 10), Level(600, 15, 5))
    case 21 => Pick(level, Level(442, 17, 0), Level(224, 4, 4), Level(750, 19, 6), Level(644, 17, 6))
    case 22 => Pick(level, Level(476, 17, 0), Level(252, 2, 7), Level(816, 34, 0), Level(690, 7, 16))
    case 23 => Pick(level, Level(504, 4, 14), Level(270, 4, 5), Level(900, 16, 14), Level(750, 11, 14))
    case 24 => Pick(level, Level(560, 6, 14), Level(300, 6, 4), Level(960, 30, 2), Level(810, 11, 16))
    case 25 => Pick(level, Level(588, 8, 13), Level(312, 8, 4), Level(1050, 22, 13), Level(870, 7, 22))
    case 26 => Pick(level, Level(644, 19, 4), Level(336, 10, 2), Level(1110, 33, 4), Level(952, 28, 6))
    case 27 => Pick(level, Level(700, 22, 3), Level(360, 8, 4), Level(1200, 12, 28), Level(1020, 8, 26))
    case 28 => Pick(level, Level(728, 3, 23), Level(390, 3, 10), Level(1260, 11, 31), Level(1050, 4, 31))
    case 29 => Pick(level, Level(784, 21, 7), Level(420, 7, 7), Level(1350, 19, 26), Level(1140, 1, 37))
    case 30 => Pick(level, Level(812, 19, 10), Level(450, 5, 10), Level(1440, 23, 25), Level(1200, 15, 25))
    case 31 => Pick(level, Level(868, 2, 29), Level(480, 13, 3), Level(1530, 23, 28), Level(1290, 42, 1))
    case 32 => Pick(level, Level(924, 10, 23), Level(510, 17, 0), Level(1620, 19, 35), Level(1350, 10, 35))
    case 33 => Pick(level, Level(980, 14, 21), Level(540, 17, 1), Level(1710, 11, 46), Level(1440, 29, 19))
    case 34 => Pick(level, Level(1036, 14, 23), Level(570, 13, 6), Level(1800, 59, 1), Level(1530, 44, 7))
    case 35 => Pick(level, Level(1064, 12, 26), Level(570, 12, 7), Level(1890, 22, 41), Level(1590, 39, 14))
    case 36 => Pick(level, Level(1120, 6, 34), Level(600, 6, 14), Level(1980, 2, 64), Level(1680, 46, 10))
    case 37 => Pick(level, Level(1204, 29, 14), Level(630, 17, 4), Level(2100, 24, 46), Level(1770, 49, 10))
    case 38 => Pick(level, Level(1260, 13, 32), Level(660, 4, 18), Level(2220, 42, 32), Level(1860, 48, 14))
    case 39 => Pick(level, Level(1316, 40, 7), Level(720, 20, 4), Level(2310, 10, 67), Level(1950, 43, 22))
    case 40 => Pick(level, Level(1372, 18, 31), Level(750, 19, 6), Level(2430, 20, 61), Level(2040, 34, 34))
    case _ => Level(0, 0, 0)
  }

  /** Centre coordinates of the alignment patterns. */
  function AlignmentPatterns(version: nat): seq<nat> {
    match version
    case 1 => []
    case 2 => [6, 18]
    case 3 => [6, 22]
    case 4 => [6, 26]
    case 5 => [6, 30]
    case 6 => [6, 34]
    case 7 => [6, 22, 38]
    case 8 => [6, 24, 42]
    case 9 => [6, 26, 46]
    case 10 => [6, 28, 50]
    case 11 => [6, 30, 54]
    case 12 => [6, 32, 58]
    case 13 => [6, 34, 62]
    case 14 => [6, 26, 46, 66]
    case 15 => [6, 26, 48, 70]
    case 16 => [6, 26, 50, 74]
    case 17 => [6, 30, 54, 78]
    case 18 => [6, 30, 56, 82]
    case 19 => [6, 30, 58, 86]
    case 20 => [6, 34, 62, 90]
    case 21 => [6, 28, 50, 72, 94]
    case 22 => [6, 26, 50, 74, 98]
    case 23 => [6, 30, 54, 78, 102]
    case 24 => [6, 28, 54, 80, 106]
    case 25 => [6, 32, 58, 84, 110]
    case 26 => [6, 30, 58, 86, 114]
    case 27 => [6, 34, 62, 90, 118]
    case 28 => [6, 26, 50, 74, 98, 122]
    case 29 => [6, 30, 54, 78, 102, 126]
    case 30 => [6, 26, 52, 78, 104, 130]
    case 31 => [6, 30, 56, 82, 108, 134]
    case 32 => [6, 34, 60, 86, 112, 138]
    case 33 => [6, 30, 58, 86, 114, 142]
    case 34 => [6, 34, 62, 90, 118, 146]
    case 35 => [6, 30, 54, 78, 102, 126, 150]
    case 36 => [6, 24, 50, 76, 102, 128, 154]
    case 37 => [6, 28, 54, 80, 106, 132, 158]
    case 38 => [6, 32, 58, 84, 110, 136, 162]
    case 39 => [6, 26, 54, 82, 110, 138, 166]
    case 40 => [6, 30, 58, 86, 114, 142, 170]
    case _ => []
  }

  predicate IsSymbol(version: nat, level: nat) {
    1 <= version <= 40 && level < 4
  }

  /** The number of entries in i rows of n. */
  function Rows(i: nat, n: nat): nat {
    if i == 0 then 0 else Rows(i - 1, n) + n
  }

  lemma {:induction false} RowsIsProduct(i: nat, n: nat)
    ensures Rows(i, n) == n * i
  {
    if i > 0 {
      RowsIsProduct(i - 1, n);
      assert n * i == n * (i - 1) + n;
    }
  }

  /** Blocks in one symbol: first blocks of words data words, then second ones of words + 1,
      each followed by ec error correction words. */
  datatype Shape = Shape(first: nat, second: nat, words: nat, ec: nat)
  {
    function Blocks(): nat { first + second }
    function DataWords(): nat { Rows(words, Blocks()) + second }
    function Codewords(): nat { DataWords() + Rows(ec, Blocks()) }

    ghost predicate Valid() {
      0 < Blocks() && 0 < words && 2 <= ec && words + 1 + ec <= 255
    }
  }

  /** The shape setBlocks works out, by its divisions, from the codewords and the level entry. */
  function ShapeOf(codewords: nat, lv: Level): Shape {
    var data := if codewords >= lv.ec then codewords - lv.ec else 0;
    var n := lv.first + lv.second;
    if n == 0 then Shape(0, 0, 0, 0) else Shape(lv.first, lv.second, data / n, lv.ec / n)
  }

  function SymbolShape(version: nat, level: nat): Shape {
    ShapeOf(NCodewords(version), EcLevel(version, level))
  }

  /** Largest number of data codewords among the versions that share count field widths. */
  function DataBound(version: nat): nat {
    if version < 10 then 232 else if version < 27 then 1370 else 2956
  }

  /** words and ecWords are the exact quotients of the entry, and its blocks fit the coder. */
  predicate Divides(codewords: nat, ec: nat, first: nat, second: nat, words: nat, ecWords: nat, bound: nat) {
    var n := first + second;
    && 0 < n && second < n && ec + 9 <= codewords <= bound + ec
    && codewords - ec == n * words + second && ec == n * ecWords
    && 0 < words && 2 <= ecWords && words + 1 + ecWords <= 255
  }

  ghost predicate EntryOk(codewords: nat, lv: Level, bound: nat) {
    exists words, ecWords :: Divides(codewords, lv.ec, lv.first, lv.second, words, ecWords, bound)
  }

  /** The entry's blocks add up to its codewords: no division leaves a remainder unused. */
  lemma EntryShape(codewords: nat, lv: Level, bound: nat)
    requires EntryOk(codewords, lv, bound)
    ensures var s := ShapeOf(codewords, lv);
      && s.Valid() && s.Codewords() == codewords
      && s.DataWords() + lv.ec == codewords && 9 <= s.DataWords() <= bound
  {
    var words, ecWords :| Divides(codewords, lv.ec, lv.first, lv.second, words, ecWords, bound);
    DivisionIs(codewords - lv.ec, lv.first + lv.second, words, lv.second);
    DivisionIs(lv.ec, lv.first + lv.second, ecWords, 0);
    RowsIsProduct(words, lv.first + lv.second);
    RowsIsProduct(ecWords, lv.first + lv.second);
  }

  lemma Four(level: nat, codewords: nat, bound: nat, m: Level, l: Level, h: Level, q: Level,
             mw: nat, me: nat, lw: nat, le: nat, hw: nat, he: nat, qw: nat, qe: nat)
    requires Divides(codewords, m.ec, m.first, m.second, mw, me, bound)
    requires Divides(codewords, l.ec, l.first, l.second, lw, le, bound)
    requires Divides(codewords, h.ec, h.first, h.second, hw, he, bound)
    requires Divides(codewords, q.ec, q.first, q.second, qw, qe, bound)
    ensures EntryOk(codewords, Pick(level, m, l, h, q), bound)
  {}

  lemma Versions1to9(version: nat, level: nat)
    requires 1 <= version <= 9
    ensures EntryOk(NCodewords(version), EcLevel(version, level), DataBound(version))
  {
    match version {
      case 1 => Four(level, 26, 232, Level(10, 1, 0), Level(7, 1, 0), Level(17, 1, 0), Level(13, 1, 0),
                     16, 10, 19, 7, 9, 17, 13, 13);
      case 2 => Four(level, 44, 232, Level(16, 1, 0), Level(10, 1, 0), Level(28, 1, 0), Level(22, 1, 0),
                     28, 16, 34, 10, 16, 28, 22, 22);
      case 3 => Four(level, 70, 232, Level(26, 1, 0), Level(15, 1, 0), Level(44, 2, 0), Level(36, 2, 0),
                     44, 26, 55, 15, 13, 22, 17, 18);
      case 4 => Four(level, 100, 232, Level(36, 2, 0), Level(20, 1, 0), Level(64, 4, 0), Level(52, 2, 0),
                     32, 18, 80, 20, 9, 16, 24, 26);
      case 5 => Four(level, 134, 232, Level(48, 2, 0), Level(26, 1, 0), Level(88, 2, 2), Level(72, 2, 2),
                     43, 24, 108, 26, 11, 22, 15, 18);
      case 6 => Four(level, 172, 232, Level(64, 4, 0), Level(36, 2, 0), Level(112, 4, 0), Level(96, 4, 0),
                     27, 16, 68, 18, 15, 28, 19, 24);
      case 7 => Four(level, 196, 232, Level(72, 4, 0), Level(40, 2, 0), Level(130, 4, 1), Level(108, 2, 4),
                     31, 18, 78, 20, 13, 26, 14, 18);
      case 8 => Four(level, 242, 232, Level(88, 2, 2), Level(48, 2, 0), Level(156, 4, 2), Level(132, 4, 2),
                     38, 22, 97, 24, 14, 26, 18, 22);
      case 9 => Four(level, 292, 232, Level(110, 3, 2), Level(60, 2, 0), Level(192, 4, 4), Level(160, 4, 4),
                     36, 22, 116, 30, 12, 24, 16, 20);
    }
  }

  lemma Versions10to18(version: nat, level: nat)
    requires 10 <= version <= 18
    ensures EntryOk(NCodewords(version), EcLevel(version, level), DataBound(version))
  {
    match version {
      case 10 => Four(level, 346, 1370, Level(130, 4, 1), Level(72, 2, 2), Level(224, 6, 2), Level(192, 6, 2),
                     43, 26, 68, 18, 15, 28, 19, 24);
      case 11 => Four(level, 404, 1370, Level(150, 1, 4), Level(80, 4, 0), Level(264, 3, 8), Level(224, 4, 4),
                     50, 30, 81, 20, 12, 24, 22, 28);
      case 12 => Four(level, 466, 1370, Level(176, 6, 2), Level(96, 2, 2), Level(308, 7, 4), Level(260, 4, 6),
                     36, 22, 92, 24, 14, 28, 20, 26);
      case 13 => Four(level, 532, 1370, Level(198, 8, 1), Level(104, 4, 0), Level(352, 12, 4), Level(288, 8, 4),
                     37, 22, 107, 26, 11, 22, 20, 24);
      case 14 => Four(level, 581, 1370, Level(216, 4, 5), Level(120, 3, 1), Level(384, 11, 5), Level(320, 11, 5),
                     40, 24, 115, 30, 12, 24, 16, 20);
      case 15 => Four(level, 655, 1370, Level(240, 5, 5), Level(132, 5, 1), Level(432, 11, 7), Level(360, 5, 7),
                     41, 24, 87, 22, 12, 24, 24, 30);
      case 16 => Four(level, 733, 1370, Level(280, 7, 3), Level(144, 5, 1), Level(480, 3, 13), Level(408, 15, 2),
                     45, 28, 98, 24, 15, 30, 19, 24);
      case 17 => Four(level, 815, 1370, Level(308, 10, 1), Level(168, 1, 5), Level(532, 2, 17), Level(448, 1, 15),
                     46, 28, 107, 28, 14, 28, 22, 28);
      case 18 => Four(level, 901, 1370, Level(338, 9, 4), Level(180, 5, 1), Level(588, 2, 19), Level(504, 17, 1),
                     43, 26, 120, 30, 14, 28, 22, 28);
    }
  }

  lemma Versions19to26(version: nat, level: nat)
    requires 19 <= version <= 26
    ensures EntryOk(NCodewords(version), EcLevel(version, level), DataBound(version))
  {
    match version {
      case 19 => Four(level, 991, 1370, Level(364, 3, 11), Level(196, 3, 4), Level(650, 9, 16), Level(546, 17, 4),
                     44, 26, 113, 28, 13, 26, 21, 26);
      case 20 => Four(level, 1085, 1370, Level(416, 3, 13), Level(224, 3, 5), Level(700, 15, 10), Level(600, 15, 5),
                     41, 26, 107, 28, 15, 28, 24, 30);
      case 21 => Four(level, 1156, 1370, Level(442, 17, 0), Level(224, 4, 4), Level(750, 19, 6), Level(644, 17, 6),
                     42, 26, 116, 28, 16, 30, 22, 28);
      case 22 => Four(level, 1258, 1370, Level(476, 17, 0), Level(252, 2, 7), Level(816, 34, 0), Level(690, 7, 16),
                     46, 28, 111, 28, 13, 24, 24, 30);
      case 23 => Four(level, 1364, 1370, Level(504, 4, 14), Level(270, 4, 5), Level(900, 16, 14), Level(750, 11, 14),
                     47, 28, 121, 30, 15, 30, 24, 30);
      case 24 => Four(level, 1474, 1370, Level(560, 6, 14), Level(300, 6, 4), Level(960, 30, 2), Level(810, 11, 16),
                     45, 28, 117, 30, 16, 30, 24, 30);
      case 25 => Four(level, 1588, 1370, Level(588, 8, 13), Level(312, 8, 4), Level(1050, 22, 13), Level(870, 7, 22),
                     47, 28, 106, 26, 15, 30, 24, 30);
      case 26 => Four(level, 1706, 1370, Level(644, 19, 4), Level(336, 10, 2), Level(1110, 33, 4), Level(952, 28, 6),
                     46, 28, 114, 28, 16, 30, 22, 28);
    }
  }

  lemma Versions27to33(version: nat, level: nat)
    requires 27 <= version <= 33
    ensures EntryOk(NCodewords(version), EcLevel(version, level), DataBound(version))
  {
    match version {
      case 27 => Four(level, 1828, 2956, Level(700, 22, 3), Level(360, 8, 4), Level(1200, 12, 28), Level(1020, 8, 26),
                     45, 28, 122, 30, 15, 30, 23, 30);
      case 28 => Four(level, 1921, 2956, Level(728, 3, 23), Level(390, 3, 10), Level(1260, 11, 31), Level(1050, 4, 31),
                     45, 28, 117, 30, 15, 30, 24, 30);
      case 29 => Four(level, 2051, 2956, Level(784, 21, 7), Level(420, 7, 7), Level(1350, 19, 26), Level(1140, 1, 37),
                     45, 28, 116, 30, 15, 30, 23, 30);
      case 30 => Four(level, 2185, 2956, Level(812, 19, 10), Level(450, 5, 10), Level(1440, 23, 25),
                     Level(1200, 15, 25), 47, 28, 115, 30, 15, 30, 24, 30);
      case 31 => Four(level, 2323, 2956, Level(868, 2, 29), Level(480, 13, 3), Level(1530, 23, 28), Level(1290, 42, 1),
                     46, 28, 115, 30, 15, 30, 24, 30);
      case 32 => Four(level, 2465, 2956, Level(924, 10, 23), Level(510, 17, 0), Level(1620, 19, 35),
                     Level(1350, 10, 35), 46, 28, 115, 30, 15, 30, 24, 30);
      case 33 => Four(level, 2611, 2956, Level(980, 14, 21), Level(540, 17, 1), Level(1710, 11, 46),
                     Level(1440, 29, 19), 46, 28, 115, 30, 15, 30, 24, 30);
    }
  }

  lemma Versions34to40(version: nat, level: nat)
    requires 34 <= version <= 40
    ensures EntryOk(NCodewords(version), EcLevel(version, level), DataBound(version))
  {
    match version {
      case 34 => Four(level, 2761, 2956, Level(1036, 14, 23), Level(570, 13, 6), Level(1800, 59, 1), Level(1530, 44, 7),
                     46, 28, 115, 30, 16, 30, 24, 30);
      case 35 => Four(level, 2876, 2956, Level(1064, 12, 26), Level(570, 12, 7), Level(1890, 22, 41),
                     Level(1590, 39, 14), 47, 28, 121, 30, 15, 30, 24, 30);
      case 36 => Four(level, 3034, 2956, Level(1120, 6, 34), Level(600, 6, 14), Level(1980, 2, 64), Level(1680, 46, 10),
                     47, 28, 121, 30, 15, 30, 24, 30);
      case 37 => Four(level, 3196, 2956, Level(1204, 29, 14), Level(630, 17, 4), Level(2100, 24, 46),
                     Level(1770, 49, 10), 46, 28, 122, 30, 15, 30, 24, 30);
      case 38 => Four(level, 3362, 2956, Level(1260, 13, 32), Level(660, 4, 18), Level(2220, 42, 32),
                     Level(1860, 48, 14), 46, 28, 122, 30, 15, 30, 24, 30);
      case 39 => Four(level, 3532, 2956, Level(1316, 40, 7), Level(720, 20, 4), Level(2310, 10, 67),
                     Level(1950, 43, 22), 47, 28, 117, 30, 15, 30, 24, 30);
      case 40 => Four(level, 3706, 2956, Level(1372, 18, 31), Level(750, 19, 6), Level(2430, 20, 61),
                     Level(2040, 34, 34), 47, 28, 118, 30, 15, 30, 24, 30);
    }
  }

  /** Every entry of the tables describes a valid block shape that uses all its codewords. */
  lemma AllShapes(version: nat, level: nat)
    requires IsSymbol(version, level)
    ensures var s := SymbolShape(version, level);
      && s.Valid() && s.Codewords() == NCodewords(version)
      && s.DataWords() + EcLevel(version, level).ec == NCodewords(version)
      && 9 <= s.DataWords() <= DataBound(version)
  {
    if version <= 9 {
      Versions1to9(version, level);
    } else if version <= 18 {
      Versions10to18(version, level);
    } else if version <= 26 {
      Versions19to26(version, level);
    } else if version <= 33 {
      Versions27to33(version, level);
    } else if version <= 40 {
      Versions34to40(version, level);
    }
    EntryShape(NCodewords(version), EcLevel(version, level), DataBound(version));
  }
}
