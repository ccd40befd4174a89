/** The EBU Latin table of lib/charset/charset.cpp (Annex C of ETSI TS 101 756): the code points
    of its 255 string literals, row by row as they stand there.  The literals are the UTF-8
    encodings of these code points. */
module EbuTable {

  import opened Rfc3629
  import opened Charset
  import CharsetRoundTrip

  function Row0(k: nat): (cp: bv32)
    ensures cp < 0xD800
  {
    match k
    case 1 => 0x118 case 2 => 0x12e case 3 => 0x172 case 4 => 0x102 case 5 => 0x116 case 6 => 0x10e
    case 7 => 0x218 case 8 => 0x21a case 9 => 0x10a case 10 => 0x0a case 11 => 0x0b case 12 => 0x120
    case 13 => 0x139 case 14 => 0x17b case _ => 0x143
  }

  function Row1(k: nat): (cp: bv32)
    ensures cp < 0xD800
  {
    match k
    case 0 => 0x105 case 1 => 0x119 case 2 => 0x12f case 3 => 0x173 case 4 => 0x103 case 5 => 0x117
    case 6 => 0x10f case 7 => 0x219 case 8 => 0x21b case 9 => 0x10b case 10 => 0x147 case 11 => 0x11a
    case 12 => 0x121 case 13 => 0x13a case 14 => 0x17c case _ => 0x82
  }

  function Row2(k: nat): (cp: bv32)
    ensures cp < 0xD800
  {
    match k
    case 0 => 0x20 case 1 => 0x21 case 2 => 0x22 case 3 => 0x23 case 4 => 0x142 case 5 => 0x25 case 6 => 0x26
    case 7 => 0x27 case 8 => 0x28 case 9 => 0x29 case 10 => 0x2a case 11 => 0x2b case 12 => 0x2c case 13 => 0x2d
    case 14 => 0x2e case _ => 0x2f
  }

  function Row3(k: nat): (cp: bv32)
    ensures cp < 0xD800
  {
    match k
    case 0 => 0x30 case 1 => 0x31 case 2 => 0x32 case 3 => 0x33 case 4 => 0x34 case 5 => 0x35 case 6 => 0x36
    case 7 => 0x37 case 8 => 0x38 case 9 => 0x39 case 10 => 0x3a case 11 => 0x3b case 12 => 0x3c case 13 => 0x3d
    case 14 => 0x3e case _ => 0x3f
  }

  function Row4(k: nat): (cp: bv32)
    ensures cp < 0xD800
  {
    match k
    case 0 => 0x40 case 1 => 0x41 case 2 => 0x42 case 3 => 0x43 case 4 => 0x44 case 5 => 0x45 case 6 => 0x46
    case 7 => 0x47 case 8 => 0x48 case 9 => 0x49 case 10 => 0x4a case 11 => 0x4b case 12 => 0x4c case 13 => 0x4d
    case 14 => 0x4e case _ => 0x4f
  }

  function Row5(k: nat): (cp: bv32)
    ensures cp < 0xD800
  {
    match k
    case 0 => 0x50 case 1 => 0x51 case 2 => 0x52 case 3 => 0x53 case 4 => 0x54 case 5 => 0x55 case 6 => 0x56
    case 7 => 0x57 case 8 => 0x58 case 9 => 0x59 case 10 => 0x5a case 11 => 0x5b case 12 => 0x16e case 13 => 0x5d
    case 14 => 0x141 case _ => 0x5f
  }

  function Row6(k: nat): (cp: bv32)
    ensures cp < 0xD800
  {
    match k
    case 0 => 0x104 case 1 => 0x61 case 2 => 0x62 case 3 => 0x63 case 4 => 0x64 case 5 => 0x65 case 6 => 0x66
    case 7 => 0x67 case 8 => 0x68 case 9 => 0x69 case 10 => 0x6a case 11 => 0x6b case 12 => 0x6c case 13 => 0x6d
    case 14 => 0x6e case _ => 0x6f
  }

  function Row7(k: nat): (cp: bv32)
    ensures cp < 0xD800
  {
    match k
    case 0 => 0x70 case 1 => 0x71 case 2 => 0x72 case 3 => 0x73 case 4 => 0x74 case 5 => 0x75 case 6 => 0x76
    case 7 => 0x77 case 8 => 0x78 case 9 => 0x79 case 10 => 0x7a case 11 => 0xab case 12 => 0x16f case 13 => 0xbb
    case 14 => 0x13d case _ => 0x126
  }

  function Row8(k: nat): (cp: bv32)
    ensures cp < 0xD800
  {
    match k
    case 0 => 0xe1 case 1 => 0xe0 case 2 => 0xe9 case 3 => 0xe8 case 4 => 0xed case 5 => 0xec case 6 => 0xf3
    case 7 => 0xf2 case 8 => 0xfa case 9 => 0xf9 case 10 => 0xd1 case 11 => 0xc7 case 12 => 0x15e case 13 => 0xdf
    case 14 => 0xa1 case _ => 0x178
  }

  function Row9(k: nat): (cp: bv32)
    ensures cp < 0xD800
  {
    match k
    case 0 => 0xe2 case 1 => 0xe4 case 2 => 0xea case 3 => 0xeb case 4 => 0xee case 5 => 0xef case 6 => 0xf4
    case 7 => 0xf6 case 8 => 0xfb case 9 => 0xfc case 10 => 0xf1 case 11 => 0xe7 case 12 => 0x15f case 13 => 0x11f
    case 14 => 0x131 case _ => 0xff
  }

  function RowA(k: nat): (cp: bv32)
    ensures cp < 0xD800
  {
    match k
    case 0 => 0x136 case 1 => 0x145 case 2 => 0xa9 case 3 => 0x122 case 4 => 0x11e case 5 => 0x11b case 6 => 0x148
    case 7 => 0x151 case 8 => 0x150 case 9 => 0x20ac case 10 => 0xa3 case 11 => 0x24 case 12 => 0x100
    case 13 => 0x112 case 14 => 0x12a case _ => 0x16a
  }

  function RowB(k: nat): (cp: bv32)
    ensures cp < 0xD800
  {
    match k
    case 0 => 0x137 case 1 => 0x146 case 2 => 0x13b case 3 => 0x123 case 4 => 0x13c case 5 => 0x130
    case 6 => 0x144 case 7 => 0x171 case 8 => 0x170 case 9 => 0xbf case 10 => 0x13e case 11 => 0xb0
    case 12 => 0x101 case 13 => 0x113 case 14 => 0x12b case _ => 0x16b
  }

  function RowC(k: nat): (cp: bv32)
    ensures cp < 0xD800
  {
    match k
    case 0 => 0xc1 case 1 => 0xc0 case 2 => 0xc9 case 3 => 0xc8 case 4 => 0xcd case 5 => 0xcc case 6 => 0xd3
    case 7 => 0xd2 case 8 => 0xda case 9 => 0xd9 case 10 => 0x158 case 11 => 0x10c case 12 => 0x160
    case 13 => 0x17d case 14 => 0xd0 case _ => 0x13f
  }

  function RowD(k: nat): (cp: bv32)
    ensures cp < 0xD800
  {
    match k
    case 0 => 0xc2 case 1 => 0xc4 case 2 => 0xca case 3 => 0xcb case 4 => 0xce case 5 => 0xcf case 6 => 0xd4
    case 7 => 0xd6 case 8 => 0xdb case 9 => 0xdc case 10 => 0x159 case 11 => 0x10d case 12 => 0x161
    case 13 => 0x17e case 14 => 0x111 case _ => 0x140
  }

  function RowE(k: nat): (cp: bv32)
    ensures cp < 0xD800
  {
    match k
    case 0 => 0xc3 case 1 => 0xc5 case 2 => 0xc6 case 3 => 0x152 case 4 => 0x177 case 5 => 0xdd case 6 => 0xd5
    case 7 => 0xd8 case 8 => 0xde case 9 => 0x14a case 10 => 0x154 case 11 => 0x106 case 12 => 0x15a
    case 13 => 0x179 case 14 => 0x164 case _ => 0xf0
  }

  function RowF(k: nat): (cp: bv32)
    ensures cp < 0xD800
  {
    match k
    case 0 => 0xe3 case 1 => 0xe5 case 2 => 0xe6 case 3 => 0x153 case 4 => 0x175 case 5 => 0xfd case 6 => 0xf5
    case 7 => 0xf8 case 8 => 0xfe case 9 => 0x14b case 10 => 0x155 case 11 => 0x107 case 12 => 0x15b
    case 13 => 0x17a case 14 => 0x165 case _ => 0x127
  }

  /** NUL is not in the table. */
  function CodePointOf(c: nat): bv32
    requires 1 <= c <= 255
  {
    match c / 16
    case 0 => Row0(c % 16)
    case 1 => Row1(c % 16)
    case 2 => Row2(c % 16)
    case 3 => Row3(c % 16)
    case 4 => Row4(c % 16)
    case 5 => Row5(c % 16)
    case 6 => Row6(c % 16)
    case 7 => Row7(c % 16)
    case 8 => Row8(c % 16)
    case 9 => Row9(c % 16)
    case 10 => RowA(c % 16)
    case 11 => RowB(c % 16)
    case 12 => RowC(c % 16)
    case 13 => RowD(c % 16)
    case 14 => RowE(c % 16)
    case _ => RowF(c % 16)
  }

  const UTF8_ENCODED_EBU_LATIN: seq<seq<Octet>> :=
    seq(TABLE_ENTRIES, i requires 0 <= i < TABLE_ENTRIES => Encode(CodePointOf(i + TABLE_OFFSET)))

  // The EBU Latin character of a code point, 0 if there is none: the witness that no two
  // entries of the table are equal.

  function Block000(low: bv32): nat {
    match low
    case 0xa => 10 case 0xb => 11 case _ => 0
  }

  function Block002(low: bv32): nat {
    match low
    case 0x0 => 32 case 0x1 => 33 case 0x2 => 34 case 0x3 => 35 case 0x4 => 171 case 0x5 => 37 case 0x6 => 38
    case 0x7 => 39 case 0x8 => 40 case 0x9 => 41 case 0xa => 42 case 0xb => 43 case 0xc => 44 case 0xd => 45
    case 0xe => 46 case 0xf => 47 case _ => 0
  }

  function Block003(low: bv32): nat {
    match low
    case 0x0 => 48 case 0x1 => 49 case 0x2 => 50 case 0x3 => 51 case 0x4 => 52 case 0x5 => 53 case 0x6 => 54
    case 0x7 => 55 case 0x8 => 56 case 0x9 => 57 case 0xa => 58 case 0xb => 59 case 0xc => 60 case 0xd => 61
    case 0xe => 62 case 0xf => 63 case _ => 0
  }

  function Block004(low: bv32): nat {
    match low
    case 0x0 => 64 case 0x1 => 65 case 0x2 => 66 case 0x3 => 67 case 0x4 => 68 case 0x5 => 69 case 0x6 => 70
    case 0x7 => 71 case 0x8 => 72 case 0x9 => 73 case 0xa => 74 case 0xb => 75 case 0xc => 76 case 0xd => 77
    case 0xe => 78 case 0xf => 79 case _ => 0
  }

  function Block005(low: bv32): nat {
    match low
    case 0x0 => 80 case 0x1 => 81 case 0x2 => 82 case 0x3 => 83 case 0x4 => 84 case 0x5 => 85 case 0x6 => 86
    case 0x7 => 87 case 0x8 => 88 case 0x9 => 89 case 0xa => 90 case 0xb => 91 case 0xd => 93 case 0xf => 95
    case _ => 0
  }

  function Block006(low: bv32): nat {
    match low
    case 0x1 => 97 case 0x2 => 98 case 0x3 => 99 case 0x4 => 100 case 0x5 => 101 case 0x6 => 102 case 0x7 => 103
    case 0x8 => 104 case 0x9 => 105 case 0xa => 106 case 0xb => 107 case 0xc => 108 case 0xd => 109
    case 0xe => 110 case 0xf => 111 case _ => 0
  }

  function Block007(low: bv32): nat {
    match low
    case 0x0 => 112 case 0x1 => 113 case 0x2 => 114 case 0x3 => 115 case 0x4 => 116 case 0x5 => 117
    case 0x6 => 118 case 0x7 => 119 case 0x8 => 120 case 0x9 => 121 case 0xa => 122 case _ => 0
  }

  function Block008(low: bv32): nat {
    match low
    case 0x2 => 31 case _ => 0
  }

  function Block00A(low: bv32): nat {
    match low
    case 0x1 => 142 case 0x3 => 170 case 0x9 => 162 case 0xb => 123 case _ => 0
  }

  function Block00B(low: bv32): nat {
    match low
    case 0x0 => 187 case 0xb => 125 case 0xf => 185 case _ => 0
  }

  function Block00C(low: bv32): nat {
    match low
    case 0x0 => 193 case 0x1 => 192 case 0x2 => 208 case 0x3 => 224 case 0x4 => 209 case 0x5 => 225
    case 0x6 => 226 case 0x7 => 139 case 0x8 => 195 case 0x9 => 194 case 0xa => 210 case 0xb => 211
    case 0xc => 197 case 0xd => 196 case 0xe => 212 case 0xf => 213 case _ => 0
  }

  function Block00D(low: bv32): nat {
    match low
    case 0x0 => 206 case 0x1 => 138 case 0x2 => 199 case 0x3 => 198 case 0x4 => 214 case 0x5 => 230
    case 0x6 => 215 case 0x8 => 231 case 0x9 => 201 case 0xa => 200 case 0xb => 216 case 0xc => 217
    case 0xd => 229 case 0xe => 232 case 0xf => 141 case _ => 0
  }

  function Block00E(low: bv32): nat {
    match low
    case 0x0 => 129 case 0x1 => 128 case 0x2 => 144 case 0x3 => 240 case 0x4 => 145 case 0x5 => 241
    case 0x6 => 242 case 0x7 => 155 case 0x8 => 131 case 0x9 => 130 case 0xa => 146 case 0xb => 147
    case 0xc => 133 case 0xd => 132 case 0xe => 148 case 0xf => 149 case _ => 0
  }

  function Block00F(low: bv32): nat {
    match low
    case 0x0 => 239 case 0x1 => 154 case 0x2 => 135 case 0x3 => 134 case 0x4 => 150 case 0x5 => 246
    case 0x6 => 151 case 0x8 => 247 case 0x9 => 137 case 0xa => 136 case 0xb => 152 case 0xc => 153
    case 0xd => 245 case 0xe => 248 case 0xf => 159 case _ => 0
  }

  function Block010(low: bv32): nat {
    match low
    case 0x0 => 172 case 0x1 => 188 case 0x2 => 4 case 0x3 => 20 case 0x4 => 96 case 0x5 => 16 case 0x6 => 235
    case 0x7 => 251 case 0xa => 9 case 0xb => 25 case 0xc => 203 case 0xd => 219 case 0xe => 6 case 0xf => 22
    case _ => 0
  }

  function Block011(low: bv32): nat {
    match low
    case 0x1 => 222 case 0x2 => 173 case 0x3 => 189 case 0x6 => 5 case 0x7 => 21 case 0x8 => 1 case 0x9 => 17
    case 0xa => 27 case 0xb => 165 case 0xe => 164 case 0xf => 157 case _ => 0
  }

  function Block012(low: bv32): nat {
    match low
    case 0x0 => 12 case 0x1 => 28 case 0x2 => 163 case 0x3 => 179 case 0x6 => 127 case 0x7 => 255 case 0xa => 174
    case 0xb => 190 case 0xe => 2 case 0xf => 18 case _ => 0
  }

  function Block013(low: bv32): nat {
    match low
    case 0x0 => 181 case 0x1 => 158 case 0x6 => 160 case 0x7 => 176 case 0x9 => 13 case 0xa => 29 case 0xb => 178
    case 0xc => 180 case 0xd => 126 case 0xe => 186 case 0xf => 207 case _ => 0
  }

  function Block014(low: bv32): nat {
    match low
    case 0x0 => 223 case 0x1 => 94 case 0x2 => 36 case 0x3 => 15 case 0x4 => 182 case 0x5 => 161 case 0x6 => 177
    case 0x7 => 26 case 0x8 => 166 case 0xa => 233 case 0xb => 249 case _ => 0
  }

  function Block015(low: bv32): nat {
    match low
    case 0x0 => 168 case 0x1 => 167 case 0x2 => 227 case 0x3 => 243 case 0x4 => 234 case 0x5 => 250
    case 0x8 => 202 case 0x9 => 218 case 0xa => 236 case 0xb => 252 case 0xe => 140 case 0xf => 156 case _ => 0
  }

  function Block016(low: bv32): nat {
    match low
    case 0x0 => 204 case 0x1 => 220 case 0x4 => 238 case 0x5 => 254 case 0xa => 175 case 0xb => 191 case 0xe => 92
    case 0xf => 124 case _ => 0
  }

  function Block017(low: bv32): nat {
    match low
    case 0x0 => 184 case 0x1 => 183 case 0x2 => 3 case 0x3 => 19 case 0x5 => 244 case 0x7 => 228 case 0x8 => 143
    case 0x9 => 237 case 0xa => 253 case 0xb => 14 case 0xc => 30 case 0xd => 205 case 0xe => 221 case _ => 0
  }

  function Block021(low: bv32): nat {
    match low
    case 0x8 => 7 case 0x9 => 23 case 0xa => 8 case 0xb => 24 case _ => 0
  }

  function Block20A(low: bv32): nat {
    match low
    case 0xc => 169 case _ => 0
  }

  function Position(cp: bv32): nat {
    match cp >> 4
    case 0x000 => Block000(cp & 0xf)
    case 0x002 => Block002(cp & 0xf)
    case 0x003 => Block003(cp & 0xf)
    case 0x004 => Block004(cp & 0xf)
    case 0x005 => Block005(cp & 0xf)
    case 0x006 => Block006(cp & 0xf)
    case 0x007 => Block007(cp & 0xf)
    case 0x008 => Block008(cp & 0xf)
    case 0x00a => Block00A(cp & 0xf)
    case 0x00b => Block00B(cp & 0xf)
    case 0x00c => Block00C(cp & 0xf)
    case 0x00d => Block00D(cp & 0xf)
    case 0x00e => Block00E(cp & 0xf)
    case 0x00f => Block00F(cp & 0xf)
    case 0x010 => Block010(cp & 0xf)
    case 0x011 => Block011(cp & 0xf)
    case 0x012 => Block012(cp & 0xf)
    case 0x013 => Block013(cp & 0xf)
    case 0x014 => Block014(cp & 0xf)
    case 0x015 => Block015(cp & 0xf)
    case 0x016 => Block016(cp & 0xf)
    case 0x017 => Block017(cp & 0xf)
    case 0x021 => Block021(cp & 0xf)
    case 0x20a => Block20A(cp & 0xf)
    case _ => 0
  }

  lemma LowPositions0()
    ensures Position(0x118) == 1 && Position(0x12e) == 2 && Position(0x172) == 3 && Position(0x102) == 4
    ensures Position(0x116) == 5 && Position(0x10e) == 6 && Position(0x218) == 7
  {}

  lemma HighPositions0()
    ensures Position(0x21a) == 8 && Position(0x10a) == 9 && Position(0x0a) == 10 && Position(0x0b) == 11
    ensures Position(0x120) == 12 && Position(0x139) == 13 && Position(0x17b) == 14 && Position(0x143) == 15
  {}

  lemma Distinct0(k: nat)
    requires 1 <= k < 16
    ensures Position(Row0(k)) == k
  {
    hide Position;
    LowPositions0();
    HighPositions0();
  }

  lemma LowPositions1()
    ensures Position(0x105) == 16 && Position(0x119) == 17 && Position(0x12f) == 18 && Position(0x173) == 19
    ensures Position(0x103) == 20 && Position(0x117) == 21 && Position(0x10f) == 22 && Position(0x219) == 23
  {}

  lemma HighPositions1()
    ensures Position(0x21b) == 24 && Position(0x10b) == 25 && Position(0x147) == 26 && Position(0x11a) == 27
    ensures Position(0x121) == 28 && Position(0x13a) == 29 && Position(0x17c) == 30 && Position(0x82) == 31
  {}

  lemma Distinct1(k: nat)
    requires 0 <= k < 16
    ensures Position(Row1(k)) == 16 + k
  {
    hide Position;
    LowPositions1();
    HighPositions1();
  }

  lemma LowPositions2()
    ensures Position(0x20) == 32 && Position(0x21) == 33 && Position(0x22) == 34 && Position(0x23) == 35
    ensures Position(0x142) == 36 && Position(0x25) == 37 && Position(0x26) == 38 && Position(0x27) == 39
  {}

  lemma HighPositions2()
    ensures Position(0x28) == 40 && Position(0x29) == 41 && Position(0x2a) == 42 && Position(0x2b) == 43
    ensures Position(0x2c) == 44 && Position(0x2d) == 45 && Position(0x2e) == 46 && Position(0x2f) == 47
  {}

  lemma Distinct2(k: nat)
    requires 0 <= k < 16
    ensures Position(Row2(k)) == 32 + k
  {
    hide Position;
    LowPositions2();
    HighPositions2();
  }

  lemma LowPositions3()
    ensures Position(0x30) == 48 && Position(0x31) == 49 && Position(0x32) == 50 && Position(0x33) == 51
    ensures Position(0x34) == 52 && Position(0x35) == 53 && Position(0x36) == 54 && Position(0x37) == 55
  {}

  lemma HighPositions3()
    ensures Position(0x38) == 56 && Position(0x39) == 57 && Position(0x3a) == 58 && Position(0x3b) == 59
    ensures Position(0x3c) == 60 && Position(0x3d) == 61 && Position(0x3e) == 62 && Position(0x3f) == 63
  {}

  lemma Distinct3(k: nat)
    requires 0 <= k < 16
    ensures Position(Row3(k)) == 48 + k
  {
    hide Position;
    LowPositions3();
    HighPositions3();
  }

  lemma LowPositions4()
    ensures Position(0x40) == 64 && Position(0x41) == 65 && Position(0x42) == 66 && Position(0x43) == 67
    ensures Position(0x44) == 68 && Position(0x45) == 69 && Position(0x46) == 70 && Position(0x47) == 71
  {}

  lemma HighPositions4()
    ensures Position(0x48) == 72 && Position(0x49) == 73 && Position(0x4a) == 74 && Position(0x4b) == 75
    ensures Position(0x4c) == 76 && Position(0x4d) == 77 && Position(0x4e) == 78 && Position(0x4f) == 79
  {}

  lemma Distinct4(k: nat)
    requires 0 <= k < 16
    ensures Position(Row4(k)) == 64 + k
  {
    hide Position;
    LowPositions4();
    HighPositions4();
  }

  lemma LowPositions5()
    ensures Position(0x50) == 80 && Position(0x51) == 81 && Position(0x52) == 82 && Position(0x53) == 83
    ensures Position(0x54) == 84 && Position(0x55) == 85 && Position(0x56) == 86 && Position(0x57) == 87
  {}

  lemma HighPositions5()
    ensures Position(0x58) == 88 && Position(0x59) == 89 && Position(0x5a) == 90 && Position(0x5b) == 91
    ensures Position(0x16e) == 92 && Position(0x5d) == 93 && Position(0x141) == 94 && Position(0x5f) == 95
  {}

  lemma Distinct5(k: nat)
    requires 0 <= k < 16
    ensures Position(Row5(k)) == 80 + k
  {
    hide Position;
    LowPositions5();
    HighPositions5();
  }

  lemma LowPositions6()
    ensures Position(0x104) == 96 && Position(0x61) == 97 && Position(0x62) == 98 && Position(0x63) == 99
    ensures Position(0x64) == 100 && Position(0x65) == 101 && Position(0x66) == 102 && Position(0x67) == 103
  {}

  lemma HighPositions6()
    ensures Position(0x68) == 104 && Position(0x69) == 105 && Position(0x6a) == 106 && Position(0x6b) == 107
    ensures Position(0x6c) == 108 && Position(0x6d) == 109 && Position(0x6e) == 110 && Position(0x6f) == 111
  {}

  lemma Distinct6(k: nat)
    requires 0 <= k < 16
    ensures Position(Row6(k)) == 96 + k
  {
    hide Position;
    LowPositions6();
    HighPositions6();
  }

  lemma LowPositions7()
    ensures Position(0x70) == 112 && Position(0x71) == 113 && Position(0x72) == 114 && Position(0x73) == 115
    ensures Position(0x74) == 116 && Position(0x75) == 117 && Position(0x76) == 118 && Position(0x77) == 119
  {}

  lemma HighPositions7()
    ensures Position(0x78) == 120 && Position(0x79) == 121 && Position(0x7a) == 122 && Position(0xab) == 123
    ensures Position(0x16f) == 124 && Position(0xbb) == 125 && Position(0x13d) == 126 && Position(0x126) == 127
  {}

  lemma Distinct7(k: nat)
    requires 0 <= k < 16
    ensures Position(Row7(k)) == 112 + k
  {
    hide Position;
    LowPositions7();
    HighPositions7();
  }

  lemma LowPositions8()
    ensures Position(0xe1) == 128 && Position(0xe0) == 129 && Position(0xe9) == 130 && Position(0xe8) == 131
    ensures Position(0xed) == 132 && Position(0xec) == 133 && Position(0xf3) == 134 && Position(0xf2) == 135
  {}

  lemma HighPositions8()
    ensures Position(0xfa) == 136 && Position(0xf9) == 137 && Position(0xd1) == 138 && Position(0xc7) == 139
    ensures Position(0x15e) == 140 && Position(0xdf) == 141 && Position(0xa1) == 142 && Position(0x178) == 143
  {}

  lemma Distinct8(k: nat)
    requires 0 <= k < 16
    ensures Position(Row8(k)) == 128 + k
  {
    hide Position;
    LowPositions8();
    HighPositions8();
  }

  lemma LowPositions9()
    ensures Position(0xe2) == 144 && Position(0xe4) == 145 && Position(0xea) == 146 && Position(0xeb) == 147
    ensures Position(0xee) == 148 && Position(0xef) == 149 && Position(0xf4) == 150 && Position(0xf6) == 151
  {}

  lemma HighPositions9()
    ensures Position(0xfb) == 152 && Position(0xfc) == 153 && Position(0xf1) == 154 && Position(0xe7) == 155
    ensures Position(0x15f) == 156 && Position(0x11f) == 157 && Position(0x131) == 158 && Position(0xff) == 159
  {}

  lemma Distinct9(k: nat)
    requires 0 <= k < 16
    ensures Position(Row9(k)) == 144 + k
  {
    hide Position;
    LowPositions9();
    HighPositions9();
  }

  lemma LowPositionsA()
    ensures Position(0x136) == 160 && Position(0x145) == 161 && Position(0xa9) == 162 && Position(0x122) == 163
    ensures Position(0x11e) == 164 && Position(0x11b) == 165 && Position(0x148) == 166 && Position(0x151) == 167
  {}

  lemma HighPositionsA()
    ensures Position(0x150) == 168 && Position(0x20ac) == 169 && Position(0xa3) == 170 && Position(0x24) == 171
    ensures Position(0x100) == 172 && Position(0x112) == 173 && Position(0x12a) == 174 && Position(0x16a) == 175
  {}

  lemma DistinctA(k: nat)
    requires 0 <= k < 16
    ensures Position(RowA(k)) == 160 + k
  {
    hide Position;
    LowPositionsA();
    HighPositionsA();
  }

  lemma LowPositionsB()
    ensures Position(0x137) == 176 && Position(0x146) == 177 && Position(0x13b) == 178 && Position(0x123) == 179
    ensures Position(0x13c) == 180 && Position(0x130) == 181 && Position(0x144) == 182 && Position(0x171) == 183
  {}

  lemma HighPositionsB()
    ensures Position(0x170) == 184 && Position(0xbf) == 185 && Position(0x13e) == 186 && Position(0xb0) == 187
    ensures Position(0x101) == 188 && Position(0x113) == 189 && Position(0x12b) == 190 && Position(0x16b) == 191
  {}

  lemma DistinctB(k: nat)
    requires 0 <= k < 16
    ensures Position(RowB(k)) == 176 + k
  {
    hide Position;
    LowPositionsB();
    HighPositionsB();
  }

  lemma LowPositionsC()
    ensures Position(0xc1) == 192 && Position(0xc0) == 193 && Position(0xc9) == 194 && Position(0xc8) == 195
    ensures Position(0xcd) == 196 && Position(0xcc) == 197 && Position(0xd3) == 198 && Position(0xd2) == 199
  {}

  lemma HighPositionsC()
    ensures Position(0xda) == 200 && Position(0xd9) == 201 && Position(0x158) == 202 && Position(0x10c) == 203
    ensures Position(0x160) == 204 && Position(0x17d) == 205 && Position(0xd0) == 206 && Position(0x13f) == 207
  {}

  lemma DistinctC(k: nat)
    requires 0 <= k < 16
    ensures Position(RowC(k)) == 192 + k
  {
    hide Position;
    LowPositionsC();
    HighPositionsC();
  }

  lemma LowPositionsD()
    ensures Position(0xc2) == 208 && Position(0xc4) == 209 && Position(0xca) == 210 && Position(0xcb) == 211
    ensures Position(0xce) == 212 && Position(0xcf) == 213 && Position(0xd4) == 214 && Position(0xd6) == 215
  {}

  lemma HighPositionsD()
    ensures Position(0xdb) == 216 && Position(0xdc) == 217 && Position(0x159) == 218 && Position(0x10d) == 219
    ensures Position(0x161) == 220 && Position(0x17e) == 221 && Position(0x111) == 222 && Position(0x140) == 223
  {}

  lemma DistinctD(k: nat)
    requires 0 <= k < 16
    ensures Position(RowD(k)) == 208 + k
  {
    hide Position;
    LowPositionsD();
    HighPositionsD();
  }

  lemma LowPositionsE()
    ensures Position(0xc3) == 224 && Position(0xc5) == 225 && Position(0xc6) == 226 && Position(0x152) == 227
    ensures Position(0x177) == 228 && Position(0xdd) == 229 && Position(0xd5) == 230 && Position(0xd8) == 231
  {}

  lemma HighPositionsE()
    ensures Position(0xde) == 232 && Position(0x14a) == 233 && Position(0x154) == 234 && Position(0x106) == 235
    ensures Position(0x15a) == 236 && Position(0x179) == 237 && Position(0x164) == 238 && Position(0xf0) == 239
  {}

  lemma DistinctE(k: nat)
    requires 0 <= k < 16
    ensures Position(RowE(k)) == 224 + k
  {
    hide Position;
    LowPositionsE();
    HighPositionsE();
  }

  lemma LowPositionsF()
    ensures Position(0xe3) == 240 && Position(0xe5) == 241 && Position(0xe6) == 242 && Position(0x153) == 243
    ensures Position(0x175) == 244 && Position(0xfd) == 245 && Position(0xf5) == 246 && Position(0xf8) == 247
  {}

  lemma HighPositionsF()
    ensures Position(0xfe) == 248 && Position(0x14b) == 249 && Position(0x155) == 250 && Position(0x107) == 251
    ensures Position(0x15b) == 252 && Position(0x17a) == 253 && Position(0x165) == 254 && Position(0x127) == 255
  {}

  lemma DistinctF(k: nat)
    requires 0 <= k < 16
    ensures Position(RowF(k)) == 240 + k
  {
    hide Position;
    LowPositionsF();
    HighPositionsF();
  }

  lemma Distinct(c: nat)
    requires 1 <= c <= 255
    ensures Position(CodePointOf(c)) == c && CodePointOf(c) < 0xD800
  {
    hide Position, Row0, Row1, Row2, Row3, Row4, Row5, Row6, Row7, Row8, Row9, RowA, RowB, RowC, RowD, RowE, RowF;
    match c / 16 {
      case 0 => Distinct0(c % 16);
      case 1 => Distinct1(c % 16);
      case 2 => Distinct2(c % 16);
      case 3 => Distinct3(c % 16);
      case 4 => Distinct4(c % 16);
      case 5 => Distinct5(c % 16);
      case 6 => Distinct6(c % 16);
      case 7 => Distinct7(c % 16);
      case 8 => Distinct8(c % 16);
      case 9 => Distinct9(c % 16);
      case 10 => DistinctA(c % 16);
      case 11 => DistinctB(c % 16);
      case 12 => DistinctC(c % 16);
      case 13 => DistinctD(c % 16);
      case 14 => DistinctE(c % 16);
      case _ => DistinctF(c % 16);
    }
  }

  /** The places where the table agrees with ASCII: line feed, vertical tab, and 20 to 7A except for
      four letters. */
  predicate IsAsciiPlace(c: nat) {
    c == 0x0A || c == 0x0B || (0x20 <= c <= 0x7A && c != 0x24 && c != 0x5C && c != 0x5E && c != 0x60)
  }

  /** An ASCII character as a number, -1 for every other one. */
  function Ascii(cp: bv32): int {
    if cp < 0x80 then cp as int else -1
  }

  lemma AsciiOfRow0(k: nat)
    requires 1 <= k < 16
    ensures Ascii(Row0(k)) == if k == 10 || k == 11 then k else -1
  {}

  lemma AsciiOfRow2(k: nat)
    requires k < 16
    ensures Ascii(Row2(k)) == if k != 4 then 0x20 + k else -1
  {}

  lemma AsciiOfRow3(k: nat)
    requires k < 16
    ensures Ascii(Row3(k)) == 0x30 + k
  {}

  lemma AsciiOfRow4(k: nat)
    requires k < 16
    ensures Ascii(Row4(k)) == 0x40 + k
  {}

  lemma AsciiOfRow5(k: nat)
    requires k < 16
    ensures Ascii(Row5(k)) == if k != 12 && k != 14 then 0x50 + k else -1
  {}

  lemma AsciiOfRow6(k: nat)
    requires k < 16
    ensures Ascii(Row6(k)) == if k != 0 then 0x60 + k else -1
  {}

  lemma AsciiOfRow7(k: nat)
    requires k < 16
    ensures Ascii(Row7(k)) == if k <= 10 then 0x70 + k else -1
  {}

  lemma NoAsciiElsewhere(k: nat)
    requires k < 16
    ensures Ascii(Row1(k)) == Ascii(Row8(k)) == Ascii(Row9(k)) == Ascii(RowB(k)) == Ascii(RowC(k)) == -1
    ensures Ascii(RowD(k)) == Ascii(RowE(k)) == Ascii(RowF(k)) == -1
    ensures Ascii(RowA(k)) == if k == 11 then 0x24 else -1
  {}

  /** ASCII characters stand at their own places, all of these and no other; only the dollar sign has
      moved. */
  lemma AsciiPlaces(c: nat)
    requires 1 <= c <= 255
    ensures Ascii(CodePointOf(c)) == if IsAsciiPlace(c) then c else if c == 0xAB then 0x24 else -1
  {
    hide Ascii, Row0, Row1, Row2, Row3, Row4, Row5, Row6, Row7, Row8, Row9, RowA, RowB, RowC, RowD, RowE, RowF;
    var q, k := c / 16, c % 16;
    assert c == 16 * q + k;
    match q {
      case 0 => AsciiOfRow0(k);
      case 2 => AsciiOfRow2(k);
      case 3 => AsciiOfRow3(k);
      case 4 => AsciiOfRow4(k);
      case 5 => AsciiOfRow5(k);
      case 6 => AsciiOfRow6(k);
      case 7 => AsciiOfRow7(k);
      case _ => NoAsciiElsewhere(k);
    }
  }

  lemma SmallOfRow0(k: nat)
    requires 1 <= k <= 9 || 12 <= k <= 14
    ensures Row1(k) == Row0(k) + 1
  {}

  lemma SmallOfRowA(k: nat)
    requires k < 16 && k in {0, 1, 3, 12, 13, 14, 15}
    ensures RowB(k) == RowA(k) + 1
  {}

  lemma SmallOfRowsCAndD(k: nat)
    requires k <= 13
    ensures k <= 9 ==> Row8(k) == RowC(k) + 0x20 && Row9(k) == RowD(k) + 0x20
    ensures k >= 10 ==> RowD(k) == RowC(k) + 1
  {}

  lemma SmallOfRowE(k: nat)
    requires k < 15 && k != 4
    ensures RowF(k) == if k == 3 || k >= 9 then RowE(k) + 1 else RowE(k) + 0x20
  {}

  /** Capital and small letters stand in one column of two rows, and their code points differ as they
      do in the blocks of the code points: by one above FF, by 20 below. */
  lemma SmallLetters(k: nat)
    requires k < 16
    ensures 1 <= k <= 9 || 12 <= k <= 14 ==> Row1(k) == Row0(k) + 1
    ensures k in {0, 1, 3, 12, 13, 14, 15} ==> RowB(k) == RowA(k) + 1
    ensures k <= 9 ==> Row8(k) == RowC(k) + 0x20 && Row9(k) == RowD(k) + 0x20
    ensures 10 <= k <= 13 ==> RowD(k) == RowC(k) + 1
    ensures k < 15 && k != 4 ==> RowF(k) == if k == 3 || k >= 9 then RowE(k) + 1 else RowE(k) + 0x20
  {
    hide Row0, Row1, Row8, Row9, RowA, RowB, RowC, RowD, RowE, RowF;
    if 1 <= k <= 9 || 12 <= k <= 14 {
      SmallOfRow0(k);
    }
    if k in {0, 1, 3, 12, 13, 14, 15} {
      SmallOfRowA(k);
    }
    if k <= 13 {
      SmallOfRowsCAndD(k);
    }
    if k < 15 && k != 4 {
      SmallOfRowE(k);
    }
  }

  /** The real table meets every demand of the converter: single valid characters, no two
      equal, the space at its place and the sign for NUL not among them. */
  lemma EbuLatinIsTable()
    ensures IsTable(UTF8_ENCODED_EBU_LATIN)
  {
    hide Position, Encode, Payload, CodePointOf, Char1, Char2, Char3, Char4;
    var t := UTF8_ENCODED_EBU_LATIN;
    forall i | 0 <= i < TABLE_ENTRIES
      ensures 1 <= |t[i]| <= 4 && IsChar(t[i]) && Position(Payload(t[i])) == i + TABLE_OFFSET
    {
      Distinct(i + TABLE_OFFSET);
      EncodeIsChar(CodePointOf(i + TABLE_OFFSET));
    }
    assert t[EBU_SPACE - TABLE_OFFSET] == SPACE && UNKNOWN !in t by {
      SpaceAndUnknown();
    }
  }

  lemma SpaceAndUnknown()
    ensures Encode(CodePointOf(0x20)) == SPACE
    ensures Position(Payload(UNKNOWN)) == 0
  {
    assert Bits3(0xe2, 0x81, 0x87) == 0x2047;
  }

  /** So both round trips hold of the real table, for every EBU Latin string and every line of
      octets. */
  lemma RoundTripsOfRealTable(str: seq<EbuChar>, line: seq<Octet>)
    ensures IsTable(UTF8_ENCODED_EBU_LATIN)
    ensures
      var table, t := UTF8_ENCODED_EBU_LATIN, Decoded(UTF8_ENCODED_EBU_LATIN);
      && ToEbu(t, CodePoints(FromEbu(table, str))) == CharsetRoundTrip.NulToSpace(str)
      && FromEbu(table, ToEbu(t, CodePoints(line))) == EncodeAll(CharsetRoundTrip.OnlyKnown(t, CodePoints(line)))
  {
    hide *;
    EbuLatinIsTable();
    CharsetRoundTrip.EbuRoundTrip(UTF8_ENCODED_EBU_LATIN, str);
    CharsetRoundTrip.Utf8RoundTrip(UTF8_ENCODED_EBU_LATIN, line);
  }
}
