/** The three static tables of lib/crc.c, sixteen entries to a group, and the proof that they
    are the tables of the polynomials 0x07, 0x1021 and 0x04c11db7. */
module CrcTables {

  import opened CrcEngine
  import opened Crc

  const CODE8: bv8 := 0x07
  const CODE16: bv16 := 0x1021

  /** The generator of Annex A of ISO/IEC 13818-1, without its leading term. */
  const CODE32: bv32 := 0x04c1_1db7

  function Pick8(k: bv8, e0: bv8, e1: bv8, e2: bv8, e3: bv8, e4: bv8, e5: bv8, e6: bv8, e7: bv8,
                  e8: bv8, e9: bv8, ea: bv8, eb: bv8, ec: bv8, ed: bv8, ee: bv8, ef: bv8): bv8 {
    if k == 0 then e0 else if k == 1 then e1 else if k == 2 then e2 else if k == 3 then e3 else if k == 4 then e4 else if k == 5 then e5
    else if k == 6 then e6 else if k == 7 then e7 else if k == 8 then e8 else if k == 9 then e9 else if k == 10 then ea
    else if k == 11 then eb else if k == 12 then ec else if k == 13 then ed else if k == 14 then ee else ef
  }

  function Entries8_0(i: bv8): bv8 {
    var k := i & 0x0f;
    if i < 0x10 then
      Pick8(k, 0x00, 0x07, 0x0e, 0x09, 0x1c, 0x1b, 0x12, 0x15, 0x38, 0x3f, 0x36, 0x31, 0x24, 0x23, 0x2a, 0x2d)
    else
      Pick8(k, 0x70, 0x77, 0x7e, 0x79, 0x6c, 0x6b, 0x62, 0x65, 0x48, 0x4f, 0x46, 0x41, 0x54, 0x53, 0x5a, 0x5d)
  }

  function Entries8_1(i: bv8): bv8 {
    var k := i & 0x0f;
    if i < 0x30 then
      Pick8(k, 0xe0, 0xe7, 0xee, 0xe9, 0xfc, 0xfb, 0xf2, 0xf5, 0xd8, 0xdf, 0xd6, 0xd1, 0xc4, 0xc3, 0xca, 0xcd)
    else
      Pick8(k, 0x90, 0x97, 0x9e, 0x99, 0x8c, 0x8b, 0x82, 0x85, 0xa8, 0xaf, 0xa6, 0xa1, 0xb4, 0xb3, 0xba, 0xbd)
  }

  function Entries8_2(i: bv8): bv8 {
    var k := i & 0x0f;
    if i < 0x50 then
      Pick8(k, 0xc7, 0xc0, 0xc9, 0xce, 0xdb, 0xdc, 0xd5, 0xd2, 0xff, 0xf8, 0xf1, 0xf6, 0xe3, 0xe4, 0xed, 0xea)
    else
      Pick8(k, 0xb7, 0xb0, 0xb9, 0xbe, 0xab, 0xac, 0xa5, 0xa2, 0x8f, 0x88, 0x81, 0x86, 0x93, 0x94, 0x9d, 0x9a)
  }

  function Entries8_3(i: bv8): bv8 {
    var k := i & 0x0f;
    if i < 0x70 then
      Pick8(k, 0x27, 0x20, 0x29, 0x2e, 0x3b, 0x3c, 0x35, 0x32, 0x1f, 0x18, 0x11, 0x16, 0x03, 0x04, 0x0d, 0x0a)
    else
      Pick8(k, 0x57, 0x50, 0x59, 0x5e, 0x4b, 0x4c, 0x45, 0x42, 0x6f, 0x68, 0x61, 0x66, 0x73, 0x74, 0x7d, 0x7a)
  }

  function Entries8_4(i: bv8): bv8 {
    var k := i & 0x0f;
    if i < 0x90 then
      Pick8(k, 0x89, 0x8e, 0x87, 0x80, 0x95, 0x92, 0x9b, 0x9c, 0xb1, 0xb6, 0xbf, 0xb8, 0xad, 0xaa, 0xa3, 0xa4)
    else
      Pick8(k, 0xf9, 0xfe, 0xf7, 0xf0, 0xe5, 0xe2, 0xeb, 0xec, 0xc1, 0xc6, 0xcf, 0xc8, 0xdd, 0xda, 0xd3, 0xd4)
  }

  function Entries8_5(i: bv8): bv8 {
    var k := i & 0x0f;
    if i < 0xb0 then
      Pick8(k, 0x69, 0x6e, 0x67, 0x60, 0x75, 0x72, 0x7b, 0x7c, 0x51, 0x56, 0x5f, 0x58, 0x4d, 0x4a, 0x43, 0x44)
    else
      Pick8(k, 0x19, 0x1e, 0x17, 0x10, 0x05, 0x02, 0x0b, 0x0c, 0x21, 0x26, 0x2f, 0x28, 0x3d, 0x3a, 0x33, 0x34)
  }

  function Entries8_6(i: bv8): bv8 {
    var k := i & 0x0f;
    if i < 0xd0 then
      Pick8(k, 0x4e, 0x49, 0x40, 0x47, 0x52, 0x55, 0x5c, 0x5b, 0x76, 0x71, 0x78, 0x7f, 0x6a, 0x6d, 0x64, 0x63)
    else
      Pick8(k, 0x3e, 0x39, 0x30, 0x37, 0x22, 0x25, 0x2c, 0x2b, 0x06, 0x01, 0x08, 0x0f, 0x1a, 0x1d, 0x14, 0x13)
  }

  function Entries8_7(i: bv8): bv8 {
    var k := i & 0x0f;
    if i < 0xf0 then
      Pick8(k, 0xae, 0xa9, 0xa0, 0xa7, 0xb2, 0xb5, 0xbc, 0xbb, 0x96, 0x91, 0x98, 0x9f, 0x8a, 0x8d, 0x84, 0x83)
    else
      Pick8(k, 0xde, 0xd9, 0xd0, 0xd7, 0xc2, 0xc5, 0xcc, 0xcb, 0xe6, 0xe1, 0xe8, 0xef, 0xfa, 0xfd, 0xf4, 0xf3)
  }

  function Entry8(i: bv8): bv8 {
    if i < 0x20 then Entries8_0(i)
    else if i < 0x40 then Entries8_1(i)
    else if i < 0x60 then Entries8_2(i)
    else if i < 0x80 then Entries8_3(i)
    else if i < 0xa0 then Entries8_4(i)
    else if i < 0xc0 then Entries8_5(i)
    else if i < 0xe0 then Entries8_6(i)
    else Entries8_7(i)
  }

  function Pick16(k: bv8, e0: bv16, e1: bv16, e2: bv16, e3: bv16, e4: bv16, e5: bv16, e6: bv16, e7: bv16,
                  e8: bv16, e9: bv16, ea: bv16, eb: bv16, ec: bv16, ed: bv16, ee: bv16, ef: bv16): bv16 {
    if k == 0 then e0 else if k == 1 then e1 else if k == 2 then e2 else if k == 3 then e3 else if k == 4 then e4 else if k == 5 then e5
    else if k == 6 then e6 else if k == 7 then e7 else if k == 8 then e8 else if k == 9 then e9 else if k == 10 then ea
    else if k == 11 then eb else if k == 12 then ec else if k == 13 then ed else if k == 14 then ee else ef
  }

  function Entries16_0(i: bv8): bv16 {
    var k := i & 0x0f;
    if i < 0x10 then
      Pick16(k, 0x0000, 0x1021, 0x2042, 0x3063, 0x4084, 0x50a5, 0x60c6, 0x70e7,
             0x8108, 0x9129, 0xa14a, 0xb16b, 0xc18c, 0xd1ad, 0xe1ce, 0xf1ef)
    else
      Pick16(k, 0x1231, 0x0210, 0x3273, 0x2252, 0x52b5, 0x4294, 0x72f7, 0x62d6,
             0x9339, 0x8318, 0xb37b, 0xa35a, 0xd3bd, 0xc39c, 0xf3ff, 0xe3de)
  }

  function Entries16_1(i: bv8): bv16 {
    var k := i & 0x0f;
    if i < 0x30 then
      Pick16(k, 0x2462, 0x3443, 0x0420, 0x1401, 0x64e6, 0x74c7, 0x44a4, 0x5485,
             0xa56a, 0xb54b, 0x8528, 0x9509, 0xe5ee, 0xf5cf, 0xc5ac, 0xd58d)
    else
      Pick16(k, 0x3653, 0x2672, 0x1611, 0x0630, 0x76d7, 0x66f6, 0x5695, 0x46b4,
             0xb75b, 0xa77a, 0x9719, 0x8738, 0xf7df, 0xe7fe, 0xd79d, 0xc7bc)
  }

  function Entries16_2(i: bv8): bv16 {
    var k := i & 0x0f;
    if i < 0x50 then
      Pick16(k, 0x48c4, 0x58e5, 0x6886, 0x78a7, 0x0840, 0x1861, 0x2802, 0x3823,
             0xc9cc, 0xd9ed, 0xe98e, 0xf9af, 0x8948, 0x9969, 0xa90a, 0xb92b)
    else
      Pick16(k, 0x5af5, 0x4ad4, 0x7ab7, 0x6a96, 0x1a71, 0x0a50, 0x3a33, 0x2a12,
             0xdbfd, 0xcbdc, 0xfbbf, 0xeb9e, 0x9b79, 0x8b58, 0xbb3b, 0xab1a)
  }

  function Entries16_3(i: bv8): bv16 {
    var k := i & 0x0f;
    if i < 0x70 then
      Pick16(k, 0x6ca6, 0x7c87, 0x4ce4, 0x5cc5, 0x2c22, 0x3c03, 0x0c60, 0x1c41,
             0xedae, 0xfd8f, 0xcdec, 0xddcd, 0xad2a, 0xbd0b, 0x8d68, 0x9d49)
    else
      Pick16(k, 0x7e97, 0x6eb6, 0x5ed5, 0x4ef4, 0x3e13, 0x2e32, 0x1e51, 0x0e70,
             0xff9f, 0xefbe, 0xdfdd, 0xcffc, 0xbf1b, 0xaf3a, 0x9f59, 0x8f78)
  }

  function Entries16_4(i: bv8): bv16 {
    var k := i & 0x0f;
    if i < 0x90 then
      Pick16(k, 0x9188, 0x81a9, 0xb1ca, 0xa1eb, 0xd10c, 0xc12d, 0xf14e, 0xe16f,
             0x1080, 0x00a1, 0x30c2, 0x20e3, 0x5004, 0x4025, 0x7046, 0x6067)
    else
      Pick16(k, 0x83b9, 0x9398, 0xa3fb, 0xb3da, 0xc33d, 0xd31c, 0xe37f, 0xf35e,
             0x02b1, 0x1290, 0x22f3, 0x32d2, 0x4235, 0x5214, 0x6277, 0x7256)
  }

  function Entries16_5(i: bv8): bv16 {
    var k := i & 0x0f;
    if i < 0xb0 then
      Pick16(k, 0xb5ea, 0xa5cb, 0x95a8, 0x8589, 0xf56e, 0xe54f, 0xd52c, 0xc50d,
             0x34e2, 0x24c3, 0x14a0, 0x0481, 0x7466, 0x6447, 0x5424, 0x4405)
    else
      Pick16(k, 0xa7db, 0xb7fa, 0x8799, 0x97b8, 0xe75f, 0xf77e, 0xc71d, 0xd73c,
             0x26d3, 0x36f2, 0x0691, 0x16b0, 0x6657, 0x7676, 0x4615, 0x5634)
  }

  function Entries16_6(i: bv8): bv16 {
    var k := i & 0x0f;
    if i < 0xd0 then
      Pick16(k, 0xd94c, 0xc96d, 0xf90e, 0xe92f, 0x99c8, 0x89e9, 0xb98a, 0xa9ab,
             0x5844, 0x4865, 0x7806, 0x6827, 0x18c0, 0x08e1, 0x3882, 0x28a3)
    else
      Pick16(k, 0xcb7d, 0xdb5c, 0xeb3f, 0xfb1e, 0x8bf9, 0x9bd8, 0xabbb, 0xbb9a,
             0x4a75, 0x5a54, 0x6a37, 0x7a16, 0x0af1, 0x1ad0, 0x2ab3, 0x3a92)
  }

  function Entries16_7(i: bv8): bv16 {
    var k := i & 0x0f;
    if i < 0xf0 then
      Pick16(k, 0xfd2e, 0xed0f, 0xdd6c, 0xcd4d, 0xbdaa, 0xad8b, 0x9de8, 0x8dc9,
             0x7c26, 0x6c07, 0x5c64, 0x4c45, 0x3ca2, 0x2c83, 0x1ce0, 0x0cc1)
    else
      Pick16(k, 0xef1f, 0xff3e, 0xcf5d, 0xdf7c, 0xaf9b, 0xbfba, 0x8fd9, 0x9ff8,
             0x6e17, 0x7e36, 0x4e55, 0x5e74, 0x2e93, 0x3eb2, 0x0ed1, 0x1ef0)
  }

  function Entry16(i: bv8): bv16 {
    if i < 0x20 then Entries16_0(i)
    else if i < 0x40 then Entries16_1(i)
    else if i < 0x60 then Entries16_2(i)
    else if i < 0x80 then Entries16_3(i)
    else if i < 0xa0 then Entries16_4(i)
    else if i < 0xc0 then Entries16_5(i)
    else if i < 0xe0 then Entries16_6(i)
    else Entries16_7(i)
  }

  function Pick32(k: bv8, e0: bv32, e1: bv32, e2: bv32, e3: bv32, e4: bv32, e5: bv32, e6: bv32, e7: bv32,
                  e8: bv32, e9: bv32, ea: bv32, eb: bv32, ec: bv32, ed: bv32, ee: bv32, ef: bv32): bv32 {
    if k == 0 then e0 else if k == 1 then e1 else if k == 2 then e2 else if k == 3 then e3 else if k == 4 then e4 else if k == 5 then e5
    else if k == 6 then e6 else if k == 7 then e7 else if k == 8 then e8 else if k == 9 then e9 else if k == 10 then ea
    else if k == 11 then eb else if k == 12 then ec else if k == 13 then ed else if k == 14 then ee else ef
  }

  function Entries32_0(i: bv8): bv32 {
    var k := i & 0x0f;
    if i < 0x10 then
      Pick32(k, 0x00000000, 0x04c11db7, 0x09823b6e, 0x0d4326d9, 0x130476dc, 0x17c56b6b, 0x1a864db2, 0x1e475005,
             0x2608edb8, 0x22c9f00f, 0x2f8ad6d6, 0x2b4bcb61, 0x350c9b64, 0x31cd86d3, 0x3c8ea00a, 0x384fbdbd)
    else
      Pick32(k, 0x4c11db70, 0x48d0c6c7, 0x4593e01e, 0x4152fda9, 0x5f15adac, 0x5bd4b01b, 0x569796c2, 0x52568b75,
             0x6a1936c8, 0x6ed82b7f, 0x639b0da6, 0x675a1011, 0x791d4014, 0x7ddc5da3, 0x709f7b7a, 0x745e66cd)
  }

  function Entries32_1(i: bv8): bv32 {
    var k := i & 0x0f;
    if i < 0x30 then
      Pick32(k, 0x9823b6e0, 0x9ce2ab57, 0x91a18d8e, 0x95609039, 0x8b27c03c, 0x8fe6dd8b, 0x82a5fb52, 0x8664e6e5,
             0xbe2b5b58, 0xbaea46ef, 0xb7a96036, 0xb3687d81, 0xad2f2d84, 0xa9ee3033, 0xa4ad16ea, 0xa06c0b5d)
    else
      Pick32(k, 0xd4326d90, 0xd0f37027, 0xddb056fe, 0xd9714b49, 0xc7361b4c, 0xc3f706fb, 0xceb42022, 0xca753d95,
             0xf23a8028, 0xf6fb9d9f, 0xfbb8bb46, 0xff79a6f1, 0xe13ef6f4, 0xe5ffeb43, 0xe8bccd9a, 0xec7dd02d)
  }

  function Entries32_2(i: bv8): bv32 {
    var k := i & 0x0f;
    if i < 0x50 then
      Pick32(k, 0x34867077, 0x30476dc0, 0x3d044b19, 0x39c556ae, 0x278206ab, 0x23431b1c, 0x2e003dc5, 0x2ac12072,
             0x128e9dcf, 0x164f8078, 0x1b0ca6a1, 0x1fcdbb16, 0x018aeb13, 0x054bf6a4, 0x0808d07d, 0x0cc9cdca)
    else
      Pick32(k, 0x7897ab07, 0x7c56b6b0, 0x71159069, 0x75d48dde, 0x6b93dddb, 0x6f52c06c, 0x6211e6b5, 0x66d0fb02,
             0x5e9f46bf, 0x5a5e5b08, 0x571d7dd1, 0x53dc6066, 0x4d9b3063, 0x495a2dd4, 0x44190b0d, 0x40d816ba)
  }

  function Entries32_3(i: bv8): bv32 {
    var k := i & 0x0f;
    if i < 0x70 then
      Pick32(k, 0xaca5c697, 0xa864db20, 0xa527fdf9, 0xa1e6e04e, 0xbfa1b04b, 0xbb60adfc, 0xb6238b25, 0xb2e29692,
             0x8aad2b2f, 0x8e6c3698, 0x832f1041, 0x87ee0df6, 0x99a95df3, 0x9d684044, 0x902b669d, 0x94ea7b2a)
    else
      Pick32(k, 0xe0b41de7, 0xe4750050, 0xe9362689, 0xedf73b3e, 0xf3b06b3b, 0xf771768c, 0xfa325055, 0xfef34de2,
             0xc6bcf05f, 0xc27dede8, 0xcf3ecb31, 0xcbffd686, 0xd5b88683, 0xd1799b34, 0xdc3abded, 0xd8fba05a)
  }

  function Entries32_4(i: bv8): bv32 {
    var k := i & 0x0f;
    if i < 0x90 then
      Pick32(k, 0x690ce0ee, 0x6dcdfd59, 0x608edb80, 0x644fc637, 0x7a089632, 0x7ec98b85, 0x738aad5c, 0x774bb0eb,
             0x4f040d56, 0x4bc510e1, 0x46863638, 0x42472b8f, 0x5c007b8a, 0x58c1663d, 0x558240e4, 0x51435d53)
    else
      Pick32(k, 0x251d3b9e, 0x21dc2629, 0x2c9f00f0, 0x285e1d47, 0x36194d42, 0x32d850f5, 0x3f9b762c, 0x3b5a6b9b,
             0x0315d626, 0x07d4cb91, 0x0a97ed48, 0x0e56f0ff, 0x1011a0fa, 0x14d0bd4d, 0x19939b94, 0x1d528623)
  }

  function Entries32_5(i: bv8): bv32 {
    var k := i & 0x0f;
    if i < 0xb0 then
      Pick32(k, 0xf12f560e, 0xf5ee4bb9, 0xf8ad6d60, 0xfc6c70d7, 0xe22b20d2, 0xe6ea3d65, 0xeba91bbc, 0xef68060b,
             0xd727bbb6, 0xd3e6a601, 0xdea580d8, 0xda649d6f, 0xc423cd6a, 0xc0e2d0dd, 0xcda1f604, 0xc960ebb3)
    else
      Pick32(k, 0xbd3e8d7e, 0xb9ff90c9, 0xb4bcb610, 0xb07daba7, 0xae3afba2, 0xaafbe615, 0xa7b8c0cc, 0xa379dd7b,
             0x9b3660c6, 0x9ff77d71, 0x92b45ba8, 0x9675461f, 0x8832161a, 0x8cf30bad, 0x81b02d74, 0x857130c3)
  }

  function Entries32_6(i: bv8): bv32 {
    var k := i & 0x0f;
    if i < 0xd0 then
      Pick32(k, 0x5d8a9099, 0x594b8d2e, 0x5408abf7, 0x50c9b640, 0x4e8ee645, 0x4a4ffbf2, 0x470cdd2b, 0x43cdc09c,
             0x7b827d21, 0x7f436096, 0x7200464f, 0x76c15bf8, 0x68860bfd, 0x6c47164a, 0x61043093, 0x65c52d24)
    else
      Pick32(k, 0x119b4be9, 0x155a565e, 0x18197087, 0x1cd86d30, 0x029f3d35, 0x065e2082, 0x0b1d065b, 0x0fdc1bec,
             0x3793a651, 0x3352bbe6, 0x3e119d3f, 0x3ad08088, 0x2497d08d, 0x2056cd3a, 0x2d15ebe3, 0x29d4f654)
  }

  function Entries32_7(i: bv8): bv32 {
    var k := i & 0x0f;
    if i < 0xf0 then
      Pick32(k, 0xc5a92679, 0xc1683bce, 0xcc2b1d17, 0xc8ea00a0, 0xd6ad50a5, 0xd26c4d12, 0xdf2f6bcb, 0xdbee767c,
             0xe3a1cbc1, 0xe760d676, 0xea23f0af, 0xeee2ed18, 0xf0a5bd1d, 0xf464a0aa, 0xf9278673, 0xfde69bc4)
    else
      Pick32(k, 0x89b8fd09, 0x8d79e0be, 0x803ac667, 0x84fbdbd0, 0x9abc8bd5, 0x9e7d9662, 0x933eb0bb, 0x97ffad0c,
             0xafb010b1, 0xab710d06, 0xa6322bdf, 0xa2f33668, 0xbcb4666d, 0xb8757bda, 0xb5365d03, 0xb1f740b4)
  }

  function Entry32(i: bv8): bv32 {
    if i < 0x20 then Entries32_0(i)
    else if i < 0x40 then Entries32_1(i)
    else if i < 0x60 then Entries32_2(i)
    else if i < 0x80 then Entries32_3(i)
    else if i < 0xa0 then Entries32_4(i)
    else if i < 0xc0 then Entries32_5(i)
    else if i < 0xe0 then Entries32_6(i)
    else Entries32_7(i)
  }

  // ------------------------------------------------------------ entries add up, bit by bit

  /** The sum of those of the eight words whose bit is set in `i`. */
  function Sum(i: bv8, c0: bv32, c1: bv32, c2: bv32, c3: bv32, c4: bv32, c5: bv32, c6: bv32, c7: bv32): bv32 {
    Add(Add(Add(If(i, 0x01, c0), If(i, 0x02, c1)), Add(If(i, 0x04, c2), If(i, 0x08, c3))),
        Add(Add(If(i, 0x10, c4), If(i, 0x20, c5)), Add(If(i, 0x40, c6), If(i, 0x80, c7))))
  }

  function If(i: bv8, m: bv8, c: bv32): bv32 {
    if i & m == 0 then 0 else c
  }

  function Plus(a: bv8, b: bv8): bv8 {
    a ^ b
  }

  function Bit(i: bv8, m: bv8): bv8 {
    i & m
  }

  lemma OctetSums(a: bv8, b: bv8)
    ensures AtTop(Plus(a, b)) == Add(AtTop(a), AtTop(b))
  {}

  lemma EntrySums(p: bv32, a: bv8, b: bv8)
    ensures Entry(p, Plus(a, b)) == Add(Entry(p, a), Entry(p, b))
  {
    hide Steps, AtTop, Add, Plus;
    OctetSums(a, b);
    StepsOfSum(p, AtTop(a), AtTop(b), 8);
  }

  lemma {:induction false} ZeroSteps(p: bv32, n: nat)
    ensures Steps(p, 0, n) == 0
  {
    if n > 0 {
      ZeroSteps(p, n - 1);
    }
  }

  lemma EntryOfBit(p: bv32, i: bv8, m: bv8)
    requires m == 0x01 || m == 0x02 || m == 0x04 || m == 0x08 || m == 0x10 || m == 0x20 || m == 0x40 || m == 0x80
    ensures Entry(p, Bit(i, m)) == If(i, m, Entry(p, m))
  {
    hide Steps;
    ZeroSteps(p, 8);
  }

  lemma SplitOctet(i: bv8)
    ensures i == Plus(Plus(Plus(Bit(i, 0x01), Bit(i, 0x02)), Plus(Bit(i, 0x04), Bit(i, 0x08))),
                      Plus(Plus(Bit(i, 0x10), Bit(i, 0x20)), Plus(Bit(i, 0x40), Bit(i, 0x80))))
  {}

  lemma EntryIsSum(p: bv32, i: bv8)
    ensures Entry(p, i) == Sum(i, Entry(p, 0x01), Entry(p, 0x02), Entry(p, 0x04), Entry(p, 0x08),
                               Entry(p, 0x10), Entry(p, 0x20), Entry(p, 0x40), Entry(p, 0x80))
  {
    hide Entry, If, Plus, Bit, Add;
    SplitOctet(i);
    var b0, b1, b2, b3 := Bit(i, 0x01), Bit(i, 0x02), Bit(i, 0x04), Bit(i, 0x08);
    var b4, b5, b6, b7 := Bit(i, 0x10), Bit(i, 0x20), Bit(i, 0x40), Bit(i, 0x80);
    EntrySums(p, Plus(Plus(b0, b1), Plus(b2, b3)), Plus(Plus(b4, b5), Plus(b6, b7)));
    EntrySums(p, Plus(b0, b1), Plus(b2, b3));
    EntrySums(p, Plus(b4, b5), Plus(b6, b7));
    EntrySums(p, b0, b1);
    EntrySums(p, b2, b3);
    EntrySums(p, b4, b5);
    EntrySums(p, b6, b7);
    EntryOfBit(p, i, 0x01);
    EntryOfBit(p, i, 0x02);
    EntryOfBit(p, i, 0x04);
    EntryOfBit(p, i, 0x08);
    EntryOfBit(p, i, 0x10);
    EntryOfBit(p, i, 0x20);
    EntryOfBit(p, i, 0x40);
    EntryOfBit(p, i, 0x80);
  }

  lemma LowBits8()
    ensures Entry(0x0700_0000, 0x01) == 0x07000000 && Entry(0x0700_0000, 0x02) == 0x0e000000
    ensures Entry(0x0700_0000, 0x04) == 0x1c000000 && Entry(0x0700_0000, 0x08) == 0x38000000
  {}

  lemma HighBits8()
    ensures Entry(0x0700_0000, 0x10) == 0x70000000 && Entry(0x0700_0000, 0x20) == 0xe0000000
    ensures Entry(0x0700_0000, 0x40) == 0xc7000000 && Entry(0x0700_0000, 0x80) == 0x89000000
  {
    assert AtTop(0x40) == 0x4000_0000 && Steps(0x0700_0000, 0x4000_0000, 8) == Steps(0x0700_0000, 0x8000_0000, 7);
  }

  lemma Eighth8_0(i: bv8)
    requires i < 0x20
    ensures Top8(Entries8_0(i)) == Sum(i, 0x07000000, 0x0e000000, 0x1c000000, 0x38000000,
                         0x70000000, 0xe0000000, 0xc7000000, 0x89000000)
  {}

  lemma Eighth8_1(i: bv8)
    requires 0x20 <= i < 0x40
    ensures Top8(Entries8_1(i)) == Sum(i, 0x07000000, 0x0e000000, 0x1c000000, 0x38000000,
                         0x70000000, 0xe0000000, 0xc7000000, 0x89000000)
  {}

  lemma Eighth8_2(i: bv8)
    requires 0x40 <= i < 0x60
    ensures Top8(Entries8_2(i)) == Sum(i, 0x07000000, 0x0e000000, 0x1c000000, 0x38000000,
                         0x70000000, 0xe0000000, 0xc7000000, 0x89000000)
  {}

  lemma Eighth8_3(i: bv8)
    requires 0x60 <= i < 0x80
    ensures Top8(Entries8_3(i)) == Sum(i, 0x07000000, 0x0e000000, 0x1c000000, 0x38000000,
                         0x70000000, 0xe0000000, 0xc7000000, 0x89000000)
  {}

  lemma Eighth8_4(i: bv8)
    requires 0x80 <= i < 0xa0
    ensures Top8(Entries8_4(i)) == Sum(i, 0x07000000, 0x0e000000, 0x1c000000, 0x38000000,
                         0x70000000, 0xe0000000, 0xc7000000, 0x89000000)
  {}

  lemma Eighth8_5(i: bv8)
    requires 0xa0 <= i < 0xc0
    ensures Top8(Entries8_5(i)) == Sum(i, 0x07000000, 0x0e000000, 0x1c000000, 0x38000000,
                         0x70000000, 0xe0000000, 0xc7000000, 0x89000000)
  {}

  lemma Eighth8_6(i: bv8)
    requires 0xc0 <= i < 0xe0
    ensures Top8(Entries8_6(i)) == Sum(i, 0x07000000, 0x0e000000, 0x1c000000, 0x38000000,
                         0x70000000, 0xe0000000, 0xc7000000, 0x89000000)
  {}

  lemma Eighth8_7(i: bv8)
    requires 0xe0 <= i
    ensures Top8(Entries8_7(i)) == Sum(i, 0x07000000, 0x0e000000, 0x1c000000, 0x38000000,
                         0x70000000, 0xe0000000, 0xc7000000, 0x89000000)
  {}

  lemma Static8(i: bv8)
    ensures Top8(Entry8(i)) == Entry(0x0700_0000, i)
  {
    hide Entry, Sum, Top8, Top16, Entries8_0, Entries8_1, Entries8_2, Entries8_3,
      Entries8_4, Entries8_5, Entries8_6, Entries8_7;
    EntryIsSum(0x0700_0000, i);
    LowBits8();
    HighBits8();
    if i < 0x20 {
      Eighth8_0(i);
    } else if i < 0x40 {
      Eighth8_1(i);
    } else if i < 0x60 {
      Eighth8_2(i);
    } else if i < 0x80 {
      Eighth8_3(i);
    } else if i < 0xa0 {
      Eighth8_4(i);
    } else if i < 0xc0 {
      Eighth8_5(i);
    } else if i < 0xe0 {
      Eighth8_6(i);
    } else {
      Eighth8_7(i);
    }
  }

  lemma LowBits16()
    ensures Entry(0x1021_0000, 0x01) == 0x10210000 && Entry(0x1021_0000, 0x02) == 0x20420000
    ensures Entry(0x1021_0000, 0x04) == 0x40840000 && Entry(0x1021_0000, 0x08) == 0x81080000
  {}

  lemma HighBits16()
    ensures Entry(0x1021_0000, 0x10) == 0x12310000 && Entry(0x1021_0000, 0x20) == 0x24620000
    ensures Entry(0x1021_0000, 0x40) == 0x48c40000 && Entry(0x1021_0000, 0x80) == 0x91880000
  {
    assert AtTop(0x40) == 0x4000_0000 && Steps(0x1021_0000, 0x4000_0000, 8) == Steps(0x1021_0000, 0x8000_0000, 7);
  }

  function Xor16(x: bv16, y: bv16): bv16 {
    x ^ y
  }

  function If16(i: bv8, m: bv8, c: bv16): bv16 {
    if i & m == 0 then 0 else c
  }

  /** The sum of the entries of the bits of `i`, on 16-bit words. */
  function Basis16(i: bv8): bv16 {
    Xor16(Xor16(Xor16(If16(i, 0x01, 0x1021), If16(i, 0x02, 0x2042)), Xor16(If16(i, 0x04, 0x4084), If16(i, 0x08, 0x8108))),
          Xor16(Xor16(If16(i, 0x10, 0x1231), If16(i, 0x20, 0x2462)), Xor16(If16(i, 0x40, 0x48c4), If16(i, 0x80, 0x9188))))
  }

  lemma TopOfXor16(x: bv16, y: bv16)
    ensures Top16(Xor16(x, y)) == Add(Top16(x), Top16(y))
  {}

  lemma TopOfIf16(i: bv8, m: bv8, c: bv16)
    ensures Top16(If16(i, m, c)) == If(i, m, Top16(c))
  {}

  lemma TopsOfBasis16()
    ensures Top16(0x1021) == 0x10210000 && Top16(0x2042) == 0x20420000 && Top16(0x4084) == 0x40840000 && Top16(0x8108) == 0x81080000
    ensures Top16(0x1231) == 0x12310000 && Top16(0x2462) == 0x24620000 && Top16(0x48c4) == 0x48c40000 && Top16(0x9188) == 0x91880000
  {}

  lemma TopOfBasis16(i: bv8)
    ensures Top16(Basis16(i)) == Sum(i, 0x10210000, 0x20420000, 0x40840000, 0x81080000,
                         0x12310000, 0x24620000, 0x48c40000, 0x91880000)
  {
    TopsOfBasis16();
    hide Xor16, If16, If, Add, Top16;
    TopOfIf16(i, 0x01, 0x1021);
    TopOfIf16(i, 0x02, 0x2042);
    TopOfIf16(i, 0x04, 0x4084);
    TopOfIf16(i, 0x08, 0x8108);
    TopOfIf16(i, 0x10, 0x1231);
    TopOfIf16(i, 0x20, 0x2462);
    TopOfIf16(i, 0x40, 0x48c4);
    TopOfIf16(i, 0x80, 0x9188);
    var s0, s1 := Xor16(If16(i, 0x01, 0x1021), If16(i, 0x02, 0x2042)), Xor16(If16(i, 0x04, 0x4084), If16(i, 0x08, 0x8108));
    var s2, s3 := Xor16(If16(i, 0x10, 0x1231), If16(i, 0x20, 0x2462)), Xor16(If16(i, 0x40, 0x48c4), If16(i, 0x80, 0x9188));
    TopOfXor16(If16(i, 0x01, 0x1021), If16(i, 0x02, 0x2042));
    TopOfXor16(If16(i, 0x04, 0x4084), If16(i, 0x08, 0x8108));
    TopOfXor16(If16(i, 0x10, 0x1231), If16(i, 0x20, 0x2462));
    TopOfXor16(If16(i, 0x40, 0x48c4), If16(i, 0x80, 0x9188));
    TopOfXor16(s0, s1);
    TopOfXor16(s2, s3);
    TopOfXor16(Xor16(s0, s1), Xor16(s2, s3));
  }

  lemma Eighth16_0(i: bv8)
    requires i < 0x20
    ensures Entries16_0(i) == Basis16(i)
  {}

  lemma Eighth16_1(i: bv8)
    requires 0x20 <= i < 0x40
    ensures Entries16_1(i) == Basis16(i)
  {}

  lemma Eighth16_2(i: bv8)
    requires 0x40 <= i < 0x60
    ensures Entries16_2(i) == Basis16(i)
  {}

  lemma Eighth16_3(i: bv8)
    requires 0x60 <= i < 0x80
    ensures Entries16_3(i) == Basis16(i)
  {}

  lemma Eighth16_4(i: bv8)
    requires 0x80 <= i < 0xa0
    ensures Entries16_4(i) == Basis16(i)
  {}

  lemma Eighth16_5(i: bv8)
    requires 0xa0 <= i < 0xc0
    ensures Entries16_5(i) == Basis16(i)
  {}

  lemma Eighth16_6(i: bv8)
    requires 0xc0 <= i < 0xe0
    ensures Entries16_6(i) == Basis16(i)
  {}

  lemma Eighth16_7(i: bv8)
    requires 0xe0 <= i
    ensures Entries16_7(i) == Basis16(i)
  {}

  lemma Static16(i: bv8)
    ensures Top16(Entry16(i)) == Entry(0x1021_0000, i)
  {
    hide Entry, Sum, Top8, Top16, Basis16, Entries16_0, Entries16_1, Entries16_2, Entries16_3,
      Entries16_4, Entries16_5, Entries16_6, Entries16_7;
    EntryIsSum(0x1021_0000, i);
    LowBits16();
    HighBits16();
    TopOfBasis16(i);
    if i < 0x20 {
      Eighth16_0(i);
    } else if i < 0x40 {
      Eighth16_1(i);
    } else if i < 0x60 {
      Eighth16_2(i);
    } else if i < 0x80 {
      Eighth16_3(i);
    } else if i < 0xa0 {
      Eighth16_4(i);
    } else if i < 0xc0 {
      Eighth16_5(i);
    } else if i < 0xe0 {
      Eighth16_6(i);
    } else {
      Eighth16_7(i);
    }
  }

  lemma LowBits32()
    ensures Entry(0x04c1_1db7, 0x01) == 0x04c11db7 && Entry(0x04c1_1db7, 0x02) == 0x09823b6e
    ensures Entry(0x04c1_1db7, 0x04) == 0x130476dc && Entry(0x04c1_1db7, 0x08) == 0x2608edb8
  {}

  lemma HighBits32()
    ensures Entry(0x04c1_1db7, 0x10) == 0x4c11db70 && Entry(0x04c1_1db7, 0x20) == 0x9823b6e0
    ensures Entry(0x04c1_1db7, 0x40) == 0x34867077 && Entry(0x04c1_1db7, 0x80) == 0x690ce0ee
  {
    assert AtTop(0x40) == 0x4000_0000 && Steps(0x04c1_1db7, 0x4000_0000, 8) == Steps(0x04c1_1db7, 0x8000_0000, 7);
  }

  lemma Eighth32_0(i: bv8)
    requires i < 0x20
    ensures Entries32_0(i) == Sum(i, 0x04c11db7, 0x09823b6e, 0x130476dc, 0x2608edb8,
                         0x4c11db70, 0x9823b6e0, 0x34867077, 0x690ce0ee)
  {}

  lemma Eighth32_1(i: bv8)
    requires 0x20 <= i < 0x40
    ensures Entries32_1(i) == Sum(i, 0x04c11db7, 0x09823b6e, 0x130476dc, 0x2608edb8,
                         0x4c11db70, 0x9823b6e0, 0x34867077, 0x690ce0ee)
  {}

  lemma Eighth32_2(i: bv8)
    requires 0x40 <= i < 0x60
    ensures Entries32_2(i) == Sum(i, 0x04c11db7, 0x09823b6e, 0x130476dc, 0x2608edb8,
                         0x4c11db70, 0x9823b6e0, 0x34867077, 0x690ce0ee)
  {}

  lemma Eighth32_3(i: bv8)
    requires 0x60 <= i < 0x80
    ensures Entries32_3(i) == Sum(i, 0x04c11db7, 0x09823b6e, 0x130476dc, 0x2608edb8,
                         0x4c11db70, 0x9823b6e0, 0x34867077, 0x690ce0ee)
  {}

  lemma Eighth32_4(i: bv8)
    requires 0x80 <= i < 0xa0
    ensures Entries32_4(i) == Sum(i, 0x04c11db7, 0x09823b6e, 0x130476dc, 0x2608edb8,
                         0x4c11db70, 0x9823b6e0, 0x34867077, 0x690ce0ee)
  {}

  lemma Eighth32_5(i: bv8)
    requires 0xa0 <= i < 0xc0
    ensures Entries32_5(i) == Sum(i, 0x04c11db7, 0x09823b6e, 0x130476dc, 0x2608edb8,
                         0x4c11db70, 0x9823b6e0, 0x34867077, 0x690ce0ee)
  {}

  lemma Eighth32_6(i: bv8)
    requires 0xc0 <= i < 0xe0
    ensures Entries32_6(i) == Sum(i, 0x04c11db7, 0x09823b6e, 0x130476dc, 0x2608edb8,
                         0x4c11db70, 0x9823b6e0, 0x34867077, 0x690ce0ee)
  {}

  lemma Eighth32_7(i: bv8)
    requires 0xe0 <= i
    ensures Entries32_7(i) == Sum(i, 0x04c11db7, 0x09823b6e, 0x130476dc, 0x2608edb8,
                         0x4c11db70, 0x9823b6e0, 0x34867077, 0x690ce0ee)
  {}

  lemma Static32(i: bv8)
    ensures Entry32(i) == Entry(0x04c1_1db7, i)
  {
    hide Entry, Sum, Top8, Top16, Entries32_0, Entries32_1, Entries32_2, Entries32_3,
      Entries32_4, Entries32_5, Entries32_6, Entries32_7;
    EntryIsSum(0x04c1_1db7, i);
    LowBits32();
    HighBits32();
    if i < 0x20 {
      Eighth32_0(i);
    } else if i < 0x40 {
      Eighth32_1(i);
    } else if i < 0x60 {
      Eighth32_2(i);
    } else if i < 0x80 {
      Eighth32_3(i);
    } else if i < 0xa0 {
      Eighth32_4(i);
    } else if i < 0xc0 {
      Eighth32_5(i);
    } else if i < 0xe0 {
      Eighth32_6(i);
    } else {
      Eighth32_7(i);
    }
  }

  // ------------------------------------------------------------------------- whole tables

  function Table8(): (tab: seq<bv8>)
    ensures |tab| == 256
  {
    seq(256, i requires 0 <= i < 256 => Entry8(i as bv8))
  }

  function Table16(): (tab: seq<bv16>)
    ensures |tab| == 256
  {
    seq(256, i requires 0 <= i < 256 => Entry16(i as bv8))
  }

  function Table32(): (tab: seq<bv32>)
    ensures |tab| == 256
  {
    seq(256, i requires 0 <= i < 256 => Entry32(i as bv8))
  }

  /** A polynomial has one table. */
  lemma TablesUnique(t8: seq<bv8>, u8: seq<bv8>, c8: bv8, t16: seq<bv16>, u16: seq<bv16>, c16: bv16,
                     t32: seq<bv32>, u32: seq<bv32>, c32: bv32)
    ensures IsTable8(t8, c8) && IsTable8(u8, c8) ==> t8 == u8
    ensures IsTable16(t16, c16) && IsTable16(u16, c16) ==> t16 == u16
    ensures IsTable32(t32, c32) && IsTable32(u32, c32) ==> t32 == u32
  {
    hide Entry, Top8, Top16;
    if IsTable8(t8, c8) && IsTable8(u8, c8) {
      forall k | 0 <= k < 256 ensures t8[k] == u8[k] {
        var i := OctetIndex(k);
        assert Top8(t8[i as int]) == Entry(Top8(c8), i) == Top8(u8[i as int]);
        TopsInjective(t8[k], u8[k], 0, 0);
      }
    }
    if IsTable16(t16, c16) && IsTable16(u16, c16) {
      forall k | 0 <= k < 256 ensures t16[k] == u16[k] {
        var i := OctetIndex(k);
        assert Top16(t16[i as int]) == Entry(Top16(c16), i) == Top16(u16[i as int]);
        TopsInjective(0, 0, t16[k], u16[k]);
      }
    }
    if IsTable32(t32, c32) && IsTable32(u32, c32) {
      forall k | 0 <= k < 256 ensures t32[k] == u32[k] {
        var i := OctetIndex(k);
        assert t32[i as int] == Entry(c32, i) == u32[i as int];
      }
    }
  }

  /** Every index below 256 is an octet. */
  lemma {:induction false} OctetIndex(k: nat) returns (i: bv8)
    requires k < 256
    ensures i as int == k
  {
    if k == 0 {
      i := 0;
    } else {
      var j := OctetIndex(k - 1);
      NextOctet(j);
      i := j + 1;
    }
  }

  lemma NextOctet(i: bv8)
    requires i as int < 255
    ensures (i + 1) as int == i as int + 1
  {}

  lemma SameOctet(i: bv8)
    ensures (i as int) as bv8 == i && i as int < 256
  {}

  lemma TopCodes()
    ensures Top8(CODE8) == 0x0700_0000 && Top16(CODE16) == 0x1021_0000 && CODE32 == 0x04c1_1db7
  {}

  /** The static tables are those of the three polynomials. */
  lemma StaticTables()
    ensures IsTable8(Table8(), CODE8) && IsTable16(Table16(), CODE16) && IsTable32(Table32(), CODE32)
  {
    hide Entry, Entry8, Entry16, Entry32, Top8, Top16;
    TopCodes();
    forall i: bv8
      ensures Top8(Table8()[i as int]) == Entry(Top8(CODE8), i)
      ensures Top16(Table16()[i as int]) == Entry(Top16(CODE16), i)
      ensures Table32()[i as int] == Entry(CODE32, i)
    {
      SameOctet(i);
      Static8(i);
      Static16(i);
      Static32(i);
    }
  }
}
