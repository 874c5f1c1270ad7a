/** Two tables of ISO/IEC 18004: table 7, the data code words of every version and level, and table 9, the number of
    blocks they are cut into. */
module QrTables {
  datatype Level = L | M | Q | H

  function ByLevel<T>(level: Level, l: T, m: T, q: T, h: T): T {
    match level case L => l case M => m case Q => q case H => h
  }

  /** How many data code words, in how many blocks. */
  datatype Sizes = Sizes(data: nat, blocks: nat)

  function Standard(version: nat, level: Level): Sizes
    requires 1 <= version <= 40
  {
    if version <= 8 then Sizes1(version, level)
    else if version <= 16 then Sizes9(version, level)
    else if version <= 24 then Sizes17(version, level)
    else if version <= 32 then Sizes25(version, level)
    else Sizes33(version, level)
  }

  function Sizes1(version: nat, level: Level): Sizes {
    match version
    case 1 => ByLevel(level, Sizes(19, 1), Sizes(16, 1), Sizes(13, 1), Sizes(9, 1))
    case 2 => ByLevel(level, Sizes(34, 1), Sizes(28, 1), Sizes(22, 1), Sizes(16, 1))
    case 3 => ByLevel(level, Sizes(55, 1), Sizes(44, 1), Sizes(34, 2), Sizes(26, 2))
    case 4 => ByLevel(level, Sizes(80, 1), Sizes(64, 2), Sizes(48, 2), Sizes(36, 4))
    case 5 => ByLevel(level, Sizes(108, 1), Sizes(86, 2), Sizes(62, 4), Sizes(46, 4))
    case 6 => ByLevel(level, Sizes(136, 2), Sizes(108, 4), Sizes(76, 4), Sizes(60, 4))
    case 7 => ByLevel(level, Sizes(156, 2), Sizes(124, 4), Sizes(88, 6), Sizes(66, 5))
    case _ => ByLevel(level, Sizes(194, 2), Sizes(154, 4), Sizes(110, 6), Sizes(86, 6))
  }

  function Sizes9(version: nat, level: Level): Sizes {
    match version
    case 9 => ByLevel(level, Sizes(232, 2), Sizes(182, 5), Sizes(132, 8), Sizes(100, 8))
    case 10 => ByLevel(level, Sizes(274, 4), Sizes(216, 5), Sizes(154, 8), Sizes(122, 8))
    case 11 => ByLevel(level, Sizes(324, 4), Sizes(254, 5), Sizes(180, 8), Sizes(140, 11))
    case 12 => ByLevel(level, Sizes(370, 4), Sizes(290, 8), Sizes(206, 10), Sizes(158, 11))
    case 13 => ByLevel(level, Sizes(428, 4), Sizes(334, 9), Sizes(244, 12), Sizes(180, 16))
    case 14 => ByLevel(level, Sizes(461, 4), Sizes(365, 9), Sizes(261, 16), Sizes(197, 16))
    case 15 => ByLevel(level, Sizes(523, 6), Sizes(415, 10), Sizes(295, 12), Sizes(223, 18))
    case _ => ByLevel(level, Sizes(589, 6), Sizes(453, 10), Sizes(325, 17), Sizes(253, 16))
  }

  function Sizes17(version: nat, level: Level): Sizes {
    match version
    case 17 => ByLevel(level, Sizes(647, 6), Sizes(507, 11), Sizes(367, 16), Sizes(283, 19))
    case 18 => ByLevel(level, Sizes(721, 6), Sizes(563, 13), Sizes(397, 18), Sizes(313, 21))
    case 19 => ByLevel(level, Sizes(795, 7), Sizes(627, 14), Sizes(445, 21), Sizes(341, 25))
    case 20 => ByLevel(level, Sizes(861, 8), Sizes(669, 16), Sizes(485, 20), Sizes(385, 25))
    case 21 => ByLevel(level, Sizes(932, 8), Sizes(714, 17), Sizes(512, 23), Sizes(406, 25))
    case 22 => ByLevel(level, Sizes(1006, 9), Sizes(782, 17), Sizes(568, 23), Sizes(442, 34))
    case 23 => ByLevel(level, Sizes(1094, 9), Sizes(860, 18), Sizes(614, 25), Sizes(464, 30))
    case _ => ByLevel(level, Sizes(1174, 10), Sizes(914, 20), Sizes(664, 27), Sizes(514, 32))
  }

  function Sizes25(version: nat, level: Level): Sizes {
    match version
    case 25 => ByLevel(level, Sizes(1276, 12), Sizes(1000, 21), Sizes(718, 29), Sizes(538, 35))
    case 26 => ByLevel(level, Sizes(1370, 12), Sizes(1062, 23), Sizes(754, 34), Sizes(596, 37))
    case 27 => ByLevel(level, Sizes(1468, 12), Sizes(1128, 25), Sizes(808, 34), Sizes(628, 40))
    case 28 => ByLevel(level, Sizes(1531, 13), Sizes(1193, 26), Sizes(871, 35), Sizes(661, 42))
    case 29 => ByLevel(level, Sizes(1631, 14), Sizes(1267, 28), Sizes(911, 38), Sizes(701, 45))
    case 30 => ByLevel(level, Sizes(1735, 15), Sizes(1373, 29), Sizes(985, 40), Sizes(745, 48))
    case 31 => ByLevel(level, Sizes(1843, 16), Sizes(1455, 31), Sizes(1033, 43), Sizes(793, 51))
    case _ => ByLevel(level, Sizes(1955, 17), Sizes(1541, 33), Sizes(1115, 45), Sizes(845, 54))
  }

  function Sizes33(version: nat, level: Level): Sizes {
    match version
    case 33 => ByLevel(level, Sizes(2071, 18), Sizes(1631, 35), Sizes(1171, 48), Sizes(901, 57))
    case 34 => ByLevel(level, Sizes(2191, 19), Sizes(1725, 37), Sizes(1231, 51), Sizes(961, 60))
    case 35 => ByLevel(level, Sizes(2306, 19), Sizes(1812, 38), Sizes(1286, 53), Sizes(986, 63))
    case 36 => ByLevel(level, Sizes(2434, 20), Sizes(1914, 40), Sizes(1354, 56), Sizes(1054, 66))
    case 37 => ByLevel(level, Sizes(2566, 21), Sizes(1992, 43), Sizes(1426, 59), Sizes(1096, 70))
    case 38 => ByLevel(level, Sizes(2702, 22), Sizes(2102, 45), Sizes(1502, 62), Sizes(1142, 74))
    case 39 => ByLevel(level, Sizes(2812, 24), Sizes(2216, 47), Sizes(1582, 65), Sizes(1222, 77))
    case _ => ByLevel(level, Sizes(2956, 25), Sizes(2334, 49), Sizes(1666, 68), Sizes(1276, 81))
  }

  /** The most data code words of the versions for which a count field has one width. */
  function MaxData(version: nat): nat {
    if version < 10 then 232 else if version < 27 then 1370 else 2956
  }

  lemma DataBound(version: nat, level: Level)
    requires 1 <= version <= 40
    ensures Standard(version, level).data <= MaxData(version)
  {
  }
}
