/** The lookup table of mkpimage.c for its CRC, entry by entry, sixteen to a row. */
module CrcTable {

  /** The generator polynomial of section 3.2.9 of IEEE 802.3, without its leading term. */
  const GENERATOR: bv32 := 0x04c1_1db7

  predicate TopBit(c: bv32) {
    c & 0x8000_0000 != 0
  }

  /** One step of the division: the register moves left by one bit, and its leading bit leaves. */
  function Step(c: bv32): bv32 {
    if TopBit(c) then (c + c) ^ GENERATOR else c + c
  }

  function Steps(c: bv32, n: nat): bv32
    decreases n, c
  {
    if n == 0 then c else Step(Steps(c, n - 1))
  }

  function Row0(i: bv8): bv32 {
    match i
    case 0x00 => 0x00000000 case 0x01 => 0x04c11db7 case 0x02 => 0x09823b6e case 0x03 => 0x0d4326d9
    case 0x04 => 0x130476dc case 0x05 => 0x17c56b6b case 0x06 => 0x1a864db2 case 0x07 => 0x1e475005
    case 0x08 => 0x2608edb8 case 0x09 => 0x22c9f00f case 0x0a => 0x2f8ad6d6 case 0x0b => 0x2b4bcb61
    case 0x0c => 0x350c9b64 case 0x0d => 0x31cd86d3 case 0x0e => 0x3c8ea00a case 0x0f => 0x384fbdbd
    case _ => 0
  }

  function Row1(i: bv8): bv32 {
    match i
    case 0x10 => 0x4c11db70 case 0x11 => 0x48d0c6c7 case 0x12 => 0x4593e01e case 0x13 => 0x4152fda9
    case 0x14 => 0x5f15adac case 0x15 => 0x5bd4b01b case 0x16 => 0x569796c2 case 0x17 => 0x52568b75
    case 0x18 => 0x6a1936c8 case 0x19 => 0x6ed82b7f case 0x1a => 0x639b0da6 case 0x1b => 0x675a1011
    case 0x1c => 0x791d4014 case 0x1d => 0x7ddc5da3 case 0x1e => 0x709f7b7a case 0x1f => 0x745e66cd
    case _ => 0
  }

  function Row2(i: bv8): bv32 {
    match i
    case 0x20 => 0x9823b6e0 case 0x21 => 0x9ce2ab57 case 0x22 => 0x91a18d8e case 0x23 => 0x95609039
    case 0x24 => 0x8b27c03c case 0x25 => 0x8fe6dd8b case 0x26 => 0x82a5fb52 case 0x27 => 0x8664e6e5
    case 0x28 => 0xbe2b5b58 case 0x29 => 0xbaea46ef case 0x2a => 0xb7a96036 case 0x2b => 0xb3687d81
    case 0x2c => 0xad2f2d84 case 0x2d => 0xa9ee3033 case 0x2e => 0xa4ad16ea case 0x2f => 0xa06c0b5d
    case _ => 0
  }

  function Row3(i: bv8): bv32 {
    match i
    case 0x30 => 0xd4326d90 case 0x31 => 0xd0f37027 case 0x32 => 0xddb056fe case 0x33 => 0xd9714b49
    case 0x34 => 0xc7361b4c case 0x35 => 0xc3f706fb case 0x36 => 0xceb42022 case 0x37 => 0xca753d95
    case 0x38 => 0xf23a8028 case 0x39 => 0xf6fb9d9f case 0x3a => 0xfbb8bb46 case 0x3b => 0xff79a6f1
    case 0x3c => 0xe13ef6f4 case 0x3d => 0xe5ffeb43 case 0x3e => 0xe8bccd9a case 0x3f => 0xec7dd02d
    case _ => 0
  }

  function Row4(i: bv8): bv32 {
    match i
    case 0x40 => 0x34867077 case 0x41 => 0x30476dc0 case 0x42 => 0x3d044b19 case 0x43 => 0x39c556ae
    case 0x44 => 0x278206ab case 0x45 => 0x23431b1c case 0x46 => 0x2e003dc5 case 0x47 => 0x2ac12072
    case 0x48 => 0x128e9dcf case 0x49 => 0x164f8078 case 0x4a => 0x1b0ca6a1 case 0x4b => 0x1fcdbb16
    case 0x4c => 0x018aeb13 case 0x4d => 0x054bf6a4 case 0x4e => 0x0808d07d case 0x4f => 0x0cc9cdca
    case _ => 0
  }

  function Row5(i: bv8): bv32 {
    match i
    case 0x50 => 0x7897ab07 case 0x51 => 0x7c56b6b0 case 0x52 => 0x71159069 case 0x53 => 0x75d48dde
    case 0x54 => 0x6b93dddb case 0x55 => 0x6f52c06c case 0x56 => 0x6211e6b5 case 0x57 => 0x66d0fb02
    case 0x58 => 0x5e9f46bf case 0x59 => 0x5a5e5b08 case 0x5a => 0x571d7dd1 case 0x5b => 0x53dc6066
    case 0x5c => 0x4d9b3063 case 0x5d => 0x495a2dd4 case 0x5e => 0x44190b0d case 0x5f => 0x40d816ba
    case _ => 0
  }

  function Row6(i: bv8): bv32 {
    match i
    case 0x60 => 0xaca5c697 case 0x61 => 0xa864db20 case 0x62 => 0xa527fdf9 case 0x63 => 0xa1e6e04e
    case 0x64 => 0xbfa1b04b case 0x65 => 0xbb60adfc case 0x66 => 0xb6238b25 case 0x67 => 0xb2e29692
    case 0x68 => 0x8aad2b2f case 0x69 => 0x8e6c3698 case 0x6a => 0x832f1041 case 0x6b => 0x87ee0df6
    case 0x6c => 0x99a95df3 case 0x6d => 0x9d684044 case 0x6e => 0x902b669d case 0x6f => 0x94ea7b2a
    case _ => 0
  }

  function Row7(i: bv8): bv32 {
    match i
    case 0x70 => 0xe0b41de7 case 0x71 => 0xe4750050 case 0x72 => 0xe9362689 case 0x73 => 0xedf73b3e
    case 0x74 => 0xf3b06b3b case 0x75 => 0xf771768c case 0x76 => 0xfa325055 case 0x77 => 0xfef34de2
    case 0x78 => 0xc6bcf05f case 0x79 => 0xc27dede8 case 0x7a => 0xcf3ecb31 case 0x7b => 0xcbffd686
    case 0x7c => 0xd5b88683 case 0x7d => 0xd1799b34 case 0x7e => 0xdc3abded case 0x7f => 0xd8fba05a
    case _ => 0
  }

  function Row8(i: bv8): bv32 {
    match i
    case 0x80 => 0x690ce0ee case 0x81 => 0x6dcdfd59 case 0x82 => 0x608edb80 case 0x83 => 0x644fc637
    case 0x84 => 0x7a089632 case 0x85 => 0x7ec98b85 case 0x86 => 0x738aad5c case 0x87 => 0x774bb0eb
    case 0x88 => 0x4f040d56 case 0x89 => 0x4bc510e1 case 0x8a => 0x46863638 case 0x8b => 0x42472b8f
    case 0x8c => 0x5c007b8a case 0x8d => 0x58c1663d case 0x8e => 0x558240e4 case 0x8f => 0x51435d53
    case _ => 0
  }

  function Row9(i: bv8): bv32 {
    match i
    case 0x90 => 0x251d3b9e case 0x91 => 0x21dc2629 case 0x92 => 0x2c9f00f0 case 0x93 => 0x285e1d47
    case 0x94 => 0x36194d42 case 0x95 => 0x32d850f5 case 0x96 => 0x3f9b762c case 0x97 => 0x3b5a6b9b
    case 0x98 => 0x0315d626 case 0x99 => 0x07d4cb91 case 0x9a => 0x0a97ed48 case 0x9b => 0x0e56f0ff
    case 0x9c => 0x1011a0fa case 0x9d => 0x14d0bd4d case 0x9e => 0x19939b94 case 0x9f => 0x1d528623
    case _ => 0
  }

  function Row10(i: bv8): bv32 {
    match i
    case 0xa0 => 0xf12f560e case 0xa1 => 0xf5ee4bb9 case 0xa2 => 0xf8ad6d60 case 0xa3 => 0xfc6c70d7
    case 0xa4 => 0xe22b20d2 case 0xa5 => 0xe6ea3d65 case 0xa6 => 0xeba91bbc case 0xa7 => 0xef68060b
    case 0xa8 => 0xd727bbb6 case 0xa9 => 0xd3e6a601 case 0xaa => 0xdea580d8 case 0xab => 0xda649d6f
    case 0xac => 0xc423cd6a case 0xad => 0xc0e2d0dd case 0xae => 0xcda1f604 case 0xaf => 0xc960ebb3
    case _ => 0
  }

  function Row11(i: bv8): bv32 {
    match i
    case 0xb0 => 0xbd3e8d7e case 0xb1 => 0xb9ff90c9 case 0xb2 => 0xb4bcb610 case 0xb3 => 0xb07daba7
    case 0xb4 => 0xae3afba2 case 0xb5 => 0xaafbe615 case 0xb6 => 0xa7b8c0cc case 0xb7 => 0xa379dd7b
    case 0xb8 => 0x9b3660c6 case 0xb9 => 0x9ff77d71 case 0xba => 0x92b45ba8 case 0xbb => 0x9675461f
    case 0xbc => 0x8832161a case 0xbd => 0x8cf30bad case 0xbe => 0x81b02d74 case 0xbf => 0x857130c3
    case _ => 0
  }

  function Row12(i: bv8): bv32 {
    match i
    case 0xc0 => 0x5d8a9099 case 0xc1 => 0x594b8d2e case 0xc2 => 0x5408abf7 case 0xc3 => 0x50c9b640
    case 0xc4 => 0x4e8ee645 case 0xc5 => 0x4a4ffbf2 case 0xc6 => 0x470cdd2b case 0xc7 => 0x43cdc09c
    case 0xc8 => 0x7b827d21 case 0xc9 => 0x7f436096 case 0xca => 0x7200464f case 0xcb => 0x76c15bf8
    case 0xcc => 0x68860bfd case 0xcd => 0x6c47164a case 0xce => 0x61043093 case 0xcf => 0x65c52d24
    case _ => 0
  }

  function Row13(i: bv8): bv32 {
    match i
    case 0xd0 => 0x119b4be9 case 0xd1 => 0x155a565e case 0xd2 => 0x18197087 case 0xd3 => 0x1cd86d30
    case 0xd4 => 0x029f3d35 case 0xd5 => 0x065e2082 case 0xd6 => 0x0b1d065b case 0xd7 => 0x0fdc1bec
    case 0xd8 => 0x3793a651 case 0xd9 => 0x3352bbe6 case 0xda => 0x3e119d3f case 0xdb => 0x3ad08088
    case 0xdc => 0x2497d08d case 0xdd => 0x2056cd3a case 0xde => 0x2d15ebe3 case 0xdf => 0x29d4f654
    case _ => 0
  }

  function Row14(i: bv8): bv32 {
    match i
    case 0xe0 => 0xc5a92679 case 0xe1 => 0xc1683bce case 0xe2 => 0xcc2b1d17 case 0xe3 => 0xc8ea00a0
    case 0xe4 => 0xd6ad50a5 case 0xe5 => 0xd26c4d12 case 0xe6 => 0xdf2f6bcb case 0xe7 => 0xdbee767c
    case 0xe8 => 0xe3a1cbc1 case 0xe9 => 0xe760d676 case 0xea => 0xea23f0af case 0xeb => 0xeee2ed18
    case 0xec => 0xf0a5bd1d case 0xed => 0xf464a0aa case 0xee => 0xf9278673 case 0xef => 0xfde69bc4
    case _ => 0
  }

  function Row15(i: bv8): bv32 {
    match i
    case 0xf0 => 0x89b8fd09 case 0xf1 => 0x8d79e0be case 0xf2 => 0x803ac667 case 0xf3 => 0x84fbdbd0
    case 0xf4 => 0x9abc8bd5 case 0xf5 => 0x9e7d9662 case 0xf6 => 0x933eb0bb case 0xf7 => 0x97ffad0c
    case 0xf8 => 0xafb010b1 case 0xf9 => 0xab710d06 case 0xfa => 0xa6322bdf case 0xfb => 0xa2f33668
    case 0xfc => 0xbcb4666d case 0xfd => 0xb8757bda case 0xfe => 0xb5365d03 case 0xff => 0xb1f740b4
    case _ => 0
  }

  function TopByte(i: bv8): bv32 {
    (i as bv32) << 24
  }

  /** crc_table */
  function Entry(i: bv8): bv32 {
    match i >> 4
    case 0 => Row0(i)
    case 1 => Row1(i)
    case 2 => Row2(i)
    case 3 => Row3(i)
    case 4 => Row4(i)
    case 5 => Row5(i)
    case 6 => Row6(i)
    case 7 => Row7(i)
    case 8 => Row8(i)
    case 9 => Row9(i)
    case 10 => Row10(i)
    case 11 => Row11(i)
    case 12 => Row12(i)
    case 13 => Row13(i)
    case 14 => Row14(i)
    case _ => Row15(i)
  }

  lemma Row0IsDivision(i: bv8)
    requires i >> 4 == 0
    ensures Row0(i) == Steps(TopByte(i), 8)
  {
    match i
    case 0x00 => assert Steps(0x0000_0000, 8) == 0x00000000;
    case 0x01 => assert Steps(0x0100_0000, 8) == 0x04c11db7;
    case 0x02 => assert Steps(0x0200_0000, 8) == 0x09823b6e;
    case 0x03 => assert Steps(0x0300_0000, 8) == 0x0d4326d9;
    case 0x04 => assert Steps(0x0400_0000, 8) == 0x130476dc;
    case 0x05 => assert Steps(0x0500_0000, 8) == 0x17c56b6b;
    case 0x06 => assert Steps(0x0600_0000, 8) == 0x1a864db2;
    case 0x07 => assert Steps(0x0700_0000, 8) == 0x1e475005;
    case 0x08 => assert Steps(0x0800_0000, 8) == 0x2608edb8;
    case 0x09 => assert Steps(0x0900_0000, 8) == 0x22c9f00f;
    case 0x0a => assert Steps(0x0a00_0000, 8) == 0x2f8ad6d6;
    case 0x0b => assert Steps(0x0b00_0000, 8) == 0x2b4bcb61;
    case 0x0c => assert Steps(0x0c00_0000, 8) == 0x350c9b64;
    case 0x0d => assert Steps(0x0d00_0000, 8) == 0x31cd86d3;
    case 0x0e => assert Steps(0x0e00_0000, 8) == 0x3c8ea00a;
    case 0x0f => assert Steps(0x0f00_0000, 8) == 0x384fbdbd;
    case _ =>
  }

  lemma Row1IsDivision(i: bv8)
    requires i >> 4 == 1
    ensures Row1(i) == Steps(TopByte(i), 8)
  {
    match i
    case 0x10 => assert Steps(0x1000_0000, 8) == 0x4c11db70;
    case 0x11 => assert Steps(0x1100_0000, 8) == 0x48d0c6c7;
    case 0x12 => assert Steps(0x1200_0000, 8) == 0x4593e01e;
    case 0x13 => assert Steps(0x1300_0000, 8) == 0x4152fda9;
    case 0x14 => assert Steps(0x1400_0000, 8) == 0x5f15adac;
    case 0x15 => assert Steps(0x1500_0000, 8) == 0x5bd4b01b;
    case 0x16 => assert Steps(0x1600_0000, 8) == 0x569796c2;
    case 0x17 => assert Steps(0x1700_0000, 8) == 0x52568b75;
    case 0x18 => assert Steps(0x1800_0000, 8) == 0x6a1936c8;
    case 0x19 => assert Steps(0x1900_0000, 8) == 0x6ed82b7f;
    case 0x1a => assert Steps(0x1a00_0000, 8) == 0x639b0da6;
    case 0x1b => assert Steps(0x1b00_0000, 8) == 0x675a1011;
    case 0x1c => assert Steps(0x1c00_0000, 8) == 0x791d4014;
    case 0x1d => assert Steps(0x1d00_0000, 8) == 0x7ddc5da3;
    case 0x1e => assert Steps(0x1e00_0000, 8) == 0x709f7b7a;
    case 0x1f => assert Steps(0x1f00_0000, 8) == 0x745e66cd;
    case _ =>
  }

  lemma Row2IsDivision(i: bv8)
    requires i >> 4 == 2
    ensures Row2(i) == Steps(TopByte(i), 8)
  {
    match i
    case 0x20 => assert Steps(0x2000_0000, 8) == 0x9823b6e0;
    case 0x21 => assert Steps(0x2100_0000, 8) == 0x9ce2ab57;
    case 0x22 => assert Steps(0x2200_0000, 8) == 0x91a18d8e;
    case 0x23 => assert Steps(0x2300_0000, 8) == 0x95609039;
    case 0x24 => assert Steps(0x2400_0000, 8) == 0x8b27c03c;
    case 0x25 => assert Steps(0x2500_0000, 8) == 0x8fe6dd8b;
    case 0x26 => assert Steps(0x2600_0000, 8) == 0x82a5fb52;
    case 0x27 => assert Steps(0x2700_0000, 8) == 0x8664e6e5;
    case 0x28 => assert Steps(0x2800_0000, 8) == 0xbe2b5b58;
    case 0x29 => assert Steps(0x2900_0000, 8) == 0xbaea46ef;
    case 0x2a => assert Steps(0x2a00_0000, 8) == 0xb7a96036;
    case 0x2b => assert Steps(0x2b00_0000, 8) == 0xb3687d81;
    case 0x2c => assert Steps(0x2c00_0000, 8) == 0xad2f2d84;
    case 0x2d => assert Steps(0x2d00_0000, 8) == 0xa9ee3033;
    case 0x2e => assert Steps(0x2e00_0000, 8) == 0xa4ad16ea;
    case 0x2f => assert Steps(0x2f00_0000, 8) == 0xa06c0b5d;
    case _ =>
  }

  lemma Row3IsDivision(i: bv8)
    requires i >> 4 == 3
    ensures Row3(i) == Steps(TopByte(i), 8)
  {
    match i
    case 0x30 => assert Steps(0x3000_0000, 8) == 0xd4326d90;
    case 0x31 => assert Steps(0x3100_0000, 8) == 0xd0f37027;
    case 0x32 => assert Steps(0x3200_0000, 8) == 0xddb056fe;
    case 0x33 => assert Steps(0x3300_0000, 8) == 0xd9714b49;
    case 0x34 => assert Steps(0x3400_0000, 8) == 0xc7361b4c;
    case 0x35 => assert Steps(0x3500_0000, 8) == 0xc3f706fb;
    case 0x36 => assert Steps(0x3600_0000, 8) == 0xceb42022;
    case 0x37 => assert Steps(0x3700_0000, 8) == 0xca753d95;
    case 0x38 => assert Steps(0x3800_0000, 8) == 0xf23a8028;
    case 0x39 => assert Steps(0x3900_0000, 8) == 0xf6fb9d9f;
    case 0x3a => assert Steps(0x3a00_0000, 8) == 0xfbb8bb46;
    case 0x3b => assert Steps(0x3b00_0000, 8) == 0xff79a6f1;
    case 0x3c => assert Steps(0x3c00_0000, 8) == 0xe13ef6f4;
    case 0x3d => assert Steps(0x3d00_0000, 8) == 0xe5ffeb43;
    case 0x3e => assert Steps(0x3e00_0000, 8) == 0xe8bccd9a;
    case 0x3f => assert Steps(0x3f00_0000, 8) == 0xec7dd02d;
    case _ =>
  }

  lemma Row4IsDivision(i: bv8)
    requires i >> 4 == 4
    ensures Row4(i) == Steps(TopByte(i), 8)
  {
    match i
    case 0x40 => assert Steps(0x4000_0000, 8) == 0x34867077;
    case 0x41 => assert Steps(0x4100_0000, 8) == 0x30476dc0;
    case 0x42 => assert Steps(0x4200_0000, 8) == 0x3d044b19;
    case 0x43 => assert Steps(0x4300_0000, 8) == 0x39c556ae;
    case 0x44 => assert Steps(0x4400_0000, 8) == 0x278206ab;
    case 0x45 => assert Steps(0x4500_0000, 8) == 0x23431b1c;
    case 0x46 => assert Steps(0x4600_0000, 8) == 0x2e003dc5;
    case 0x47 => assert Steps(0x4700_0000, 8) == 0x2ac12072;
    case 0x48 => assert Steps(0x4800_0000, 8) == 0x128e9dcf;
    case 0x49 => assert Steps(0x4900_0000, 8) == 0x164f8078;
    case 0x4a => assert Steps(0x4a00_0000, 8) == 0x1b0ca6a1;
    case 0x4b => assert Steps(0x4b00_0000, 8) == 0x1fcdbb16;
    case 0x4c => assert Steps(0x4c00_0000, 8) == 0x018aeb13;
    case 0x4d => assert Steps(0x4d00_0000, 8) == 0x054bf6a4;
    case 0x4e => assert Steps(0x4e00_0000, 8) == 0x0808d07d;
    case 0x4f => assert Steps(0x4f00_0000, 8) == 0x0cc9cdca;
    case _ =>
  }

  lemma Row5IsDivision(i: bv8)
    requires i >> 4 == 5
    ensures Row5(i) == Steps(TopByte(i), 8)
  {
    match i
    case 0x50 => assert Steps(0x5000_0000, 8) == 0x7897ab07;
    case 0x51 => assert Steps(0x5100_0000, 8) == 0x7c56b6b0;
    case 0x52 => assert Steps(0x5200_0000, 8) == 0x71159069;
    case 0x53 => assert Steps(0x5300_0000, 8) == 0x75d48dde;
    case 0x54 => assert Steps(0x5400_0000, 8) == 0x6b93dddb;
    case 0x55 => assert Steps(0x5500_0000, 8) == 0x6f52c06c;
    case 0x56 => assert Steps(0x5600_0000, 8) == 0x6211e6b5;
    case 0x57 => assert Steps(0x5700_0000, 8) == 0x66d0fb02;
    case 0x58 => assert Steps(0x5800_0000, 8) == 0x5e9f46bf;
    case 0x59 => assert Steps(0x5900_0000, 8) == 0x5a5e5b08;
    case 0x5a => assert Steps(0x5a00_0000, 8) == 0x571d7dd1;
    case 0x5b => assert Steps(0x5b00_0000, 8) == 0x53dc6066;
    case 0x5c => assert Steps(0x5c00_0000, 8) == 0x4d9b3063;
    case 0x5d => assert Steps(0x5d00_0000, 8) == 0x495a2dd4;
    case 0x5e => assert Steps(0x5e00_0000, 8) == 0x44190b0d;
    case 0x5f => assert Steps(0x5f00_0000, 8) == 0x40d816ba;
    case _ =>
  }

  lemma Row6IsDivision(i: bv8)
    requires i >> 4 == 6
    ensures Row6(i) == Steps(TopByte(i), 8)
  {
    match i
    case 0x60 => assert Steps(0x6000_0000, 8) == 0xaca5c697;
    case 0x61 => assert Steps(0x6100_0000, 8) == 0xa864db20;
    case 0x62 => assert Steps(0x6200_0000, 8) == 0xa527fdf9;
    case 0x63 => assert Steps(0x6300_0000, 8) == 0xa1e6e04e;
    case 0x64 => assert Steps(0x6400_0000, 8) == 0xbfa1b04b;
    case 0x65 => assert Steps(0x6500_0000, 8) == 0xbb60adfc;
    case 0x66 => assert Steps(0x6600_0000, 8) == 0xb6238b25;
    case 0x67 => assert Steps(0x6700_0000, 8) == 0xb2e29692;
    case 0x68 => assert Steps(0x6800_0000, 8) == 0x8aad2b2f;
    case 0x69 => assert Steps(0x6900_0000, 8) == 0x8e6c3698;
    case 0x6a => assert Steps(0x6a00_0000, 8) == 0x832f1041;
    case 0x6b => assert Steps(0x6b00_0000, 8) == 0x87ee0df6;
    case 0x6c => assert Steps(0x6c00_0000, 8) == 0x99a95df3;
    case 0x6d => assert Steps(0x6d00_0000, 8) == 0x9d684044;
    case 0x6e => assert Steps(0x6e00_0000, 8) == 0x902b669d;
    case 0x6f => assert Steps(0x6f00_0000, 8) == 0x94ea7b2a;
    case _ =>
  }

  lemma Row7IsDivision(i: bv8)
    requires i >> 4 == 7
    ensures Row7(i) == Steps(TopByte(i), 8)
  {
    match i
    case 0x70 => assert Steps(0x7000_0000, 8) == 0xe0b41de7;
    case 0x71 => assert Steps(0x7100_0000, 8) == 0xe4750050;
    case 0x72 => assert Steps(0x7200_0000, 8) == 0xe9362689;
    case 0x73 => assert Steps(0x7300_0000, 8) == 0xedf73b3e;
    case 0x74 => assert Steps(0x7400_0000, 8) == 0xf3b06b3b;
    case 0x75 => assert Steps(0x7500_0000, 8) == 0xf771768c;
    case 0x76 => assert Steps(0x7600_0000, 8) == 0xfa325055;
    case 0x77 => assert Steps(0x7700_0000, 8) == 0xfef34de2;
    case 0x78 => assert Steps(0x7800_0000, 8) == 0xc6bcf05f;
    case 0x79 => assert Steps(0x7900_0000, 8) == 0xc27dede8;
    case 0x7a => assert Steps(0x7a00_0000, 8) == 0xcf3ecb31;
    case 0x7b => assert Steps(0x7b00_0000, 8) == 0xcbffd686;
    case 0x7c => assert Steps(0x7c00_0000, 8) == 0xd5b88683;
    case 0x7d => assert Steps(0x7d00_0000, 8) == 0xd1799b34;
    case 0x7e => assert Steps(0x7e00_0000, 8) == 0xdc3abded;
    case 0x7f => assert Steps(0x7f00_0000, 8) == 0xd8fba05a;
    case _ =>
  }

  lemma Row8IsDivision(i: bv8)
    requires i >> 4 == 8
    ensures Row8(i) == Steps(TopByte(i), 8)
  {
    match i
    case 0x80 => assert Steps(0x8000_0000, 8) == 0x690ce0ee;
    case 0x81 => assert Steps(0x8100_0000, 8) == 0x6dcdfd59;
    case 0x82 => assert Steps(0x8200_0000, 8) == 0x608edb80;
    case 0x83 => assert Steps(0x8300_0000, 8) == 0x644fc637;
    case 0x84 => assert Steps(0x8400_0000, 8) == 0x7a089632;
    case 0x85 => assert Steps(0x8500_0000, 8) == 0x7ec98b85;
    case 0x86 => assert Steps(0x8600_0000, 8) == 0x738aad5c;
    case 0x87 => assert Steps(0x8700_0000, 8) == 0x774bb0eb;
    case 0x88 => assert Steps(0x8800_0000, 8) == 0x4f040d56;
    case 0x89 => assert Steps(0x8900_0000, 8) == 0x4bc510e1;
    case 0x8a => assert Steps(0x8a00_0000, 8) == 0x46863638;
    case 0x8b => assert Steps(0x8b00_0000, 8) == 0x42472b8f;
    case 0x8c => assert Steps(0x8c00_0000, 8) == 0x5c007b8a;
    case 0x8d => assert Steps(0x8d00_0000, 8) == 0x58c1663d;
    case 0x8e => assert Steps(0x8e00_0000, 8) == 0x558240e4;
    case 0x8f => assert Steps(0x8f00_0000, 8) == 0x51435d53;
    case _ =>
  }

  lemma Row9IsDivision(i: bv8)
    requires i >> 4 == 9
    ensures Row9(i) == Steps(TopByte(i), 8)
  {
    match i
    case 0x90 => assert Steps(0x9000_0000, 8) == 0x251d3b9e;
    case 0x91 => assert Steps(0x9100_0000, 8) == 0x21dc2629;
    case 0x92 => assert Steps(0x9200_0000, 8) == 0x2c9f00f0;
    case 0x93 => assert Steps(0x9300_0000, 8) == 0x285e1d47;
    case 0x94 => assert Steps(0x9400_0000, 8) == 0x36194d42;
    case 0x95 => assert Steps(0x9500_0000, 8) == 0x32d850f5;
    case 0x96 => assert Steps(0x9600_0000, 8) == 0x3f9b762c;
    case 0x97 => assert Steps(0x9700_0000, 8) == 0x3b5a6b9b;
    case 0x98 => assert Steps(0x9800_0000, 8) == 0x0315d626;
    case 0x99 => assert Steps(0x9900_0000, 8) == 0x07d4cb91;
    case 0x9a => assert Steps(0x9a00_0000, 8) == 0x0a97ed48;
    case 0x9b => assert Steps(0x9b00_0000, 8) == 0x0e56f0ff;
    case 0x9c => assert Steps(0x9c00_0000, 8) == 0x1011a0fa;
    case 0x9d => assert Steps(0x9d00_0000, 8) == 0x14d0bd4d;
    case 0x9e => assert Steps(0x9e00_0000, 8) == 0x19939b94;
    case 0x9f => assert Steps(0x9f00_0000, 8) == 0x1d528623;
    case _ =>
  }

  lemma Row10IsDivision(i: bv8)
    requires i >> 4 == 10
    ensures Row10(i) == Steps(TopByte(i), 8)
  {
    match i
    case 0xa0 => assert Steps(0xa000_0000, 8) == 0xf12f560e;
    case 0xa1 => assert Steps(0xa100_0000, 8) == 0xf5ee4bb9;
    case 0xa2 => assert Steps(0xa200_0000, 8) == 0xf8ad6d60;
    case 0xa3 => assert Steps(0xa300_0000, 8) == 0xfc6c70d7;
    case 0xa4 => assert Steps(0xa400_0000, 8) == 0xe22b20d2;
    case 0xa5 => assert Steps(0xa500_0000, 8) == 0xe6ea3d65;
    case 0xa6 => assert Steps(0xa600_0000, 8) == 0xeba91bbc;
    case 0xa7 => assert Steps(0xa700_0000, 8) == 0xef68060b;
    case 0xa8 => assert Steps(0xa800_0000, 8) == 0xd727bbb6;
    case 0xa9 => assert Steps(0xa900_0000, 8) == 0xd3e6a601;
    case 0xaa => assert Steps(0xaa00_0000, 8) == 0xdea580d8;
    case 0xab => assert Steps(0xab00_0000, 8) == 0xda649d6f;
    case 0xac => assert Steps(0xac00_0000, 8) == 0xc423cd6a;
    case 0xad => assert Steps(0xad00_0000, 8) == 0xc0e2d0dd;
    case 0xae => assert Steps(0xae00_0000, 8) == 0xcda1f604;
    case 0xaf => assert Steps(0xaf00_0000, 8) == 0xc960ebb3;
    case _ =>
  }

  lemma Row11IsDivision(i: bv8)
    requires i >> 4 == 11
    ensures Row11(i) == Steps(TopByte(i), 8)
  {
    match i
    case 0xb0 => assert Steps(0xb000_0000, 8) == 0xbd3e8d7e;
    case 0xb1 => assert Steps(0xb100_0000, 8) == 0xb9ff90c9;
    case 0xb2 => assert Steps(0xb200_0000, 8) == 0xb4bcb610;
    case 0xb3 => assert Steps(0xb300_0000, 8) == 0xb07daba7;
    case 0xb4 => assert Steps(0xb400_0000, 8) == 0xae3afba2;
    case 0xb5 => assert Steps(0xb500_0000, 8) == 0xaafbe615;
    case 0xb6 => assert Steps(0xb600_0000, 8) == 0xa7b8c0cc;
    case 0xb7 => assert Steps(0xb700_0000, 8) == 0xa379dd7b;
    case 0xb8 => assert Steps(0xb800_0000, 8) == 0x9b3660c6;
    case 0xb9 => assert Steps(0xb900_0000, 8) == 0x9ff77d71;
    case 0xba => assert Steps(0xba00_0000, 8) == 0x92b45ba8;
    case 0xbb => assert Steps(0xbb00_0000, 8) == 0x9675461f;
    case 0xbc => assert Steps(0xbc00_0000, 8) == 0x8832161a;
    case 0xbd => assert Steps(0xbd00_0000, 8) == 0x8cf30bad;
    case 0xbe => assert Steps(0xbe00_0000, 8) == 0x81b02d74;
    case 0xbf => assert Steps(0xbf00_0000, 8) == 0x857130c3;
    case _ =>
  }

  lemma Row12IsDivision(i: bv8)
    requires i >> 4 == 12
    ensures Row12(i) == Steps(TopByte(i), 8)
  {
    match i
    case 0xc0 => assert Steps(0xc000_0000, 8) == 0x5d8a9099;
    case 0xc1 => assert Steps(0xc100_0000, 8) == 0x594b8d2e;
    case 0xc2 => assert Steps(0xc200_0000, 8) == 0x5408abf7;
    case 0xc3 => assert Steps(0xc300_0000, 8) == 0x50c9b640;
    case 0xc4 => assert Steps(0xc400_0000, 8) == 0x4e8ee645;
    case 0xc5 => assert Steps(0xc500_0000, 8) == 0x4a4ffbf2;
    case 0xc6 => assert Steps(0xc600_0000, 8) == 0x470cdd2b;
    case 0xc7 => assert Steps(0xc700_0000, 8) == 0x43cdc09c;
    case 0xc8 => assert Steps(0xc800_0000, 8) == 0x7b827d21;
    case 0xc9 => assert Steps(0xc900_0000, 8) == 0x7f436096;
    case 0xca => assert Steps(0xca00_0000, 8) == 0x7200464f;
    case 0xcb => assert Steps(0xcb00_0000, 8) == 0x76c15bf8;
    case 0xcc => assert Steps(0xcc00_0000, 8) == 0x68860bfd;
    case 0xcd => assert Steps(0xcd00_0000, 8) == 0x6c47164a;
    case 0xce => assert Steps(0xce00_0000, 8) == 0x61043093;
    case 0xcf => assert Steps(0xcf00_0000, 8) == 0x65c52d24;
    case _ =>
  }

  lemma Row13IsDivision(i: bv8)
    requires i >> 4 == 13
    ensures Row13(i) == Steps(TopByte(i), 8)
  {
    match i
    case 0xd0 => assert Steps(0xd000_0000, 8) == 0x119b4be9;
    case 0xd1 => assert Steps(0xd100_0000, 8) == 0x155a565e;
    case 0xd2 => assert Steps(0xd200_0000, 8) == 0x18197087;
    case 0xd3 => assert Steps(0xd300_0000, 8) == 0x1cd86d30;
    case 0xd4 => assert Steps(0xd400_0000, 8) == 0x029f3d35;
    case 0xd5 => assert Steps(0xd500_0000, 8) == 0x065e2082;
    case 0xd6 => assert Steps(0xd600_0000, 8) == 0x0b1d065b;
    case 0xd7 => assert Steps(0xd700_0000, 8) == 0x0fdc1bec;
    case 0xd8 => assert Steps(0xd800_0000, 8) == 0x3793a651;
    case 0xd9 => assert Steps(0xd900_0000, 8) == 0x3352bbe6;
    case 0xda => assert Steps(0xda00_0000, 8) == 0x3e119d3f;
    case 0xdb => assert Steps(0xdb00_0000, 8) == 0x3ad08088;
    case 0xdc => assert Steps(0xdc00_0000, 8) == 0x2497d08d;
    case 0xdd => assert Steps(0xdd00_0000, 8) == 0x2056cd3a;
    case 0xde => assert Steps(0xde00_0000, 8) == 0x2d15ebe3;
    case 0xdf => assert Steps(0xdf00_0000, 8) == 0x29d4f654;
    case _ =>
  }

  lemma Row14IsDivision(i: bv8)
    requires i >> 4 == 14
    ensures Row14(i) == Steps(TopByte(i), 8)
  {
    match i
    case 0xe0 => assert Steps(0xe000_0000, 8) == 0xc5a92679;
    case 0xe1 => assert Steps(0xe100_0000, 8) == 0xc1683bce;
    case 0xe2 => assert Steps(0xe200_0000, 8) == 0xcc2b1d17;
    case 0xe3 => assert Steps(0xe300_0000, 8) == 0xc8ea00a0;
    case 0xe4 => assert Steps(0xe400_0000, 8) == 0xd6ad50a5;
    case 0xe5 => assert Steps(0xe500_0000, 8) == 0xd26c4d12;
    case 0xe6 => assert Steps(0xe600_0000, 8) == 0xdf2f6bcb;
    case 0xe7 => assert Steps(0xe700_0000, 8) == 0xdbee767c;
    case 0xe8 => assert Steps(0xe800_0000, 8) == 0xe3a1cbc1;
    case 0xe9 => assert Steps(0xe900_0000, 8) == 0xe760d676;
    case 0xea => assert Steps(0xea00_0000, 8) == 0xea23f0af;
    case 0xeb => assert Steps(0xeb00_0000, 8) == 0xeee2ed18;
    case 0xec => assert Steps(0xec00_0000, 8) == 0xf0a5bd1d;
    case 0xed => assert Steps(0xed00_0000, 8) == 0xf464a0aa;
    case 0xee => assert Steps(0xee00_0000, 8) == 0xf9278673;
    case 0xef => assert Steps(0xef00_0000, 8) == 0xfde69bc4;
    case _ =>
  }

  lemma Row15IsDivision(i: bv8)
    requires i >> 4 == 15
    ensures Row15(i) == Steps(TopByte(i), 8)
  {
    match i
    case 0xf0 => assert Steps(0xf000_0000, 8) == 0x89b8fd09;
    case 0xf1 => assert Steps(0xf100_0000, 8) == 0x8d79e0be;
    case 0xf2 => assert Steps(0xf200_0000, 8) == 0x803ac667;
    case 0xf3 => assert Steps(0xf300_0000, 8) == 0x84fbdbd0;
    case 0xf4 => assert Steps(0xf400_0000, 8) == 0x9abc8bd5;
    case 0xf5 => assert Steps(0xf500_0000, 8) == 0x9e7d9662;
    case 0xf6 => assert Steps(0xf600_0000, 8) == 0x933eb0bb;
    case 0xf7 => assert Steps(0xf700_0000, 8) == 0x97ffad0c;
    case 0xf8 => assert Steps(0xf800_0000, 8) == 0xafb010b1;
    case 0xf9 => assert Steps(0xf900_0000, 8) == 0xab710d06;
    case 0xfa => assert Steps(0xfa00_0000, 8) == 0xa6322bdf;
    case 0xfb => assert Steps(0xfb00_0000, 8) == 0xa2f33668;
    case 0xfc => assert Steps(0xfc00_0000, 8) == 0xbcb4666d;
    case 0xfd => assert Steps(0xfd00_0000, 8) == 0xb8757bda;
    case 0xfe => assert Steps(0xfe00_0000, 8) == 0xb5365d03;
    case 0xff => assert Steps(0xff00_0000, 8) == 0xb1f740b4;
    case _ =>
  }

  /** Each entry is what eight steps make of its index in the top byte. */
  lemma TableIsDivision(i: bv8)
    ensures Entry(i) == Steps(TopByte(i), 8)
  {
    match i >> 4
    case 0 => Row0IsDivision(i);
    case 1 => Row1IsDivision(i);
    case 2 => Row2IsDivision(i);
    case 3 => Row3IsDivision(i);
    case 4 => Row4IsDivision(i);
    case 5 => Row5IsDivision(i);
    case 6 => Row6IsDivision(i);
    case 7 => Row7IsDivision(i);
    case 8 => Row8IsDivision(i);
    case 9 => Row9IsDivision(i);
    case 10 => Row10IsDivision(i);
    case 11 => Row11IsDivision(i);
    case 12 => Row12IsDivision(i);
    case 13 => Row13IsDivision(i);
    case 14 => Row14IsDivision(i);
    case _ => Row15IsDivision(i);
  }
}
