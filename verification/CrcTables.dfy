/** The CRC tables, and that they hold the remainders they are named for. */
module CrcTables {

  // ----- One step of the division, and eight -----

  /** By the reflected polynomial 0xEDB88320. */
  function Bit32(v: bv32): bv32 { if v & 1 == 1 then (v >> 1) ^ 0xedb88320 else v >> 1 }

  /** By x^16 + x^12 + x^5 + 1. */
  function Bit16(v: bv16): bv16 { if v & 0x8000 == 0x8000 then (v << 1) ^ 0x1021 else v << 1 }

  function Eight32(v: bv32): bv32 { Bit32(Bit32(Bit32(Bit32(Bit32(Bit32(Bit32(Bit32(v)))))))) }

  function Eight16(v: bv16): bv16 { Bit16(Bit16(Bit16(Bit16(Bit16(Bit16(Bit16(Bit16(v)))))))) }

  /** The table of `local_crc32`. */
  function Table32(i: bv8): bv32 {
    var c := i & 0xf;
    match i >> 4
    case 0x0 => Table32Row0(c) case 0x1 => Table32Row1(c) case 0x2 => Table32Row2(c) case 0x3 => Table32Row3(c)
    case 0x4 => Table32Row4(c) case 0x5 => Table32Row5(c) case 0x6 => Table32Row6(c) case 0x7 => Table32Row7(c)
    case 0x8 => Table32Row8(c) case 0x9 => Table32Row9(c) case 0xa => Table32RowA(c) case 0xb => Table32RowB(c)
    case 0xc => Table32RowC(c) case 0xd => Table32RowD(c) case 0xe => Table32RowE(c) case _ => Table32RowF(c)
  }

  function Table32Row0(c: bv8): bv32 {
    match c
    case 0x0 => 0x00000000 case 0x1 => 0x77073096 case 0x2 => 0xee0e612c case 0x3 => 0x990951ba
    case 0x4 => 0x076dc419 case 0x5 => 0x706af48f case 0x6 => 0xe963a535 case 0x7 => 0x9e6495a3
    case 0x8 => 0x0edb8832 case 0x9 => 0x79dcb8a4 case 0xa => 0xe0d5e91e case 0xb => 0x97d2d988
    case 0xc => 0x09b64c2b case 0xd => 0x7eb17cbd case 0xe => 0xe7b82d07 case _ => 0x90bf1d91
  }

  function Table32Row1(c: bv8): bv32 {
    match c
    case 0x0 => 0x1db71064 case 0x1 => 0x6ab020f2 case 0x2 => 0xf3b97148 case 0x3 => 0x84be41de
    case 0x4 => 0x1adad47d case 0x5 => 0x6ddde4eb case 0x6 => 0xf4d4b551 case 0x7 => 0x83d385c7
    case 0x8 => 0x136c9856 case 0x9 => 0x646ba8c0 case 0xa => 0xfd62f97a case 0xb => 0x8a65c9ec
    case 0xc => 0x14015c4f case 0xd => 0x63066cd9 case 0xe => 0xfa0f3d63 case _ => 0x8d080df5
  }

  function Table32Row2(c: bv8): bv32 {
    match c
    case 0x0 => 0x3b6e20c8 case 0x1 => 0x4c69105e case 0x2 => 0xd56041e4 case 0x3 => 0xa2677172
    case 0x4 => 0x3c03e4d1 case 0x5 => 0x4b04d447 case 0x6 => 0xd20d85fd case 0x7 => 0xa50ab56b
    case 0x8 => 0x35b5a8fa case 0x9 => 0x42b2986c case 0xa => 0xdbbbc9d6 case 0xb => 0xacbcf940
    case 0xc => 0x32d86ce3 case 0xd => 0x45df5c75 case 0xe => 0xdcd60dcf case _ => 0xabd13d59
  }

  function Table32Row3(c: bv8): bv32 {
    match c
    case 0x0 => 0x26d930ac case 0x1 => 0x51de003a case 0x2 => 0xc8d75180 case 0x3 => 0xbfd06116
    case 0x4 => 0x21b4f4b5 case 0x5 => 0x56b3c423 case 0x6 => 0xcfba9599 case 0x7 => 0xb8bda50f
    case 0x8 => 0x2802b89e case 0x9 => 0x5f058808 case 0xa => 0xc60cd9b2 case 0xb => 0xb10be924
    case 0xc => 0x2f6f7c87 case 0xd => 0x58684c11 case 0xe => 0xc1611dab case _ => 0xb6662d3d
  }

  function Table32Row4(c: bv8): bv32 {
    match c
    case 0x0 => 0x76dc4190 case 0x1 => 0x01db7106 case 0x2 => 0x98d220bc case 0x3 => 0xefd5102a
    case 0x4 => 0x71b18589 case 0x5 => 0x06b6b51f case 0x6 => 0x9fbfe4a5 case 0x7 => 0xe8b8d433
    case 0x8 => 0x7807c9a2 case 0x9 => 0x0f00f934 case 0xa => 0x9609a88e case 0xb => 0xe10e9818
    case 0xc => 0x7f6a0dbb case 0xd => 0x086d3d2d case 0xe => 0x91646c97 case _ => 0xe6635c01
  }

  function Table32Row5(c: bv8): bv32 {
    match c
    case 0x0 => 0x6b6b51f4 case 0x1 => 0x1c6c6162 case 0x2 => 0x856530d8 case 0x3 => 0xf262004e
    case 0x4 => 0x6c0695ed case 0x5 => 0x1b01a57b case 0x6 => 0x8208f4c1 case 0x7 => 0xf50fc457
    case 0x8 => 0x65b0d9c6 case 0x9 => 0x12b7e950 case 0xa => 0x8bbeb8ea case 0xb => 0xfcb9887c
    case 0xc => 0x62dd1ddf case 0xd => 0x15da2d49 case 0xe => 0x8cd37cf3 case _ => 0xfbd44c65
  }

  function Table32Row6(c: bv8): bv32 {
    match c
    case 0x0 => 0x4db26158 case 0x1 => 0x3ab551ce case 0x2 => 0xa3bc0074 case 0x3 => 0xd4bb30e2
    case 0x4 => 0x4adfa541 case 0x5 => 0x3dd895d7 case 0x6 => 0xa4d1c46d case 0x7 => 0xd3d6f4fb
    case 0x8 => 0x4369e96a case 0x9 => 0x346ed9fc case 0xa => 0xad678846 case 0xb => 0xda60b8d0
    case 0xc => 0x44042d73 case 0xd => 0x33031de5 case 0xe => 0xaa0a4c5f case _ => 0xdd0d7cc9
  }

  function Table32Row7(c: bv8): bv32 {
    match c
    case 0x0 => 0x5005713c case 0x1 => 0x270241aa case 0x2 => 0xbe0b1010 case 0x3 => 0xc90c2086
    case 0x4 => 0x5768b525 case 0x5 => 0x206f85b3 case 0x6 => 0xb966d409 case 0x7 => 0xce61e49f
    case 0x8 => 0x5edef90e case 0x9 => 0x29d9c998 case 0xa => 0xb0d09822 case 0xb => 0xc7d7a8b4
    case 0xc => 0x59b33d17 case 0xd => 0x2eb40d81 case 0xe => 0xb7bd5c3b case _ => 0xc0ba6cad
  }

  function Table32Row8(c: bv8): bv32 {
    match c
    case 0x0 => 0xedb88320 case 0x1 => 0x9abfb3b6 case 0x2 => 0x03b6e20c case 0x3 => 0x74b1d29a
    case 0x4 => 0xead54739 case 0x5 => 0x9dd277af case 0x6 => 0x04db2615 case 0x7 => 0x73dc1683
    case 0x8 => 0xe3630b12 case 0x9 => 0x94643b84 case 0xa => 0x0d6d6a3e case 0xb => 0x7a6a5aa8
    case 0xc => 0xe40ecf0b case 0xd => 0x9309ff9d case 0xe => 0x0a00ae27 case _ => 0x7d079eb1
  }

  function Table32Row9(c: bv8): bv32 {
    match c
    case 0x0 => 0xf00f9344 case 0x1 => 0x8708a3d2 case 0x2 => 0x1e01f268 case 0x3 => 0x6906c2fe
    case 0x4 => 0xf762575d case 0x5 => 0x806567cb case 0x6 => 0x196c3671 case 0x7 => 0x6e6b06e7
    case 0x8 => 0xfed41b76 case 0x9 => 0x89d32be0 case 0xa => 0x10da7a5a case 0xb => 0x67dd4acc
    case 0xc => 0xf9b9df6f case 0xd => 0x8ebeeff9 case 0xe => 0x17b7be43 case _ => 0x60b08ed5
  }

  function Table32RowA(c: bv8): bv32 {
    match c
    case 0x0 => 0xd6d6a3e8 case 0x1 => 0xa1d1937e case 0x2 => 0x38d8c2c4 case 0x3 => 0x4fdff252
    case 0x4 => 0xd1bb67f1 case 0x5 => 0xa6bc5767 case 0x6 => 0x3fb506dd case 0x7 => 0x48b2364b
    case 0x8 => 0xd80d2bda case 0x9 => 0xaf0a1b4c case 0xa => 0x36034af6 case 0xb => 0x41047a60
    case 0xc => 0xdf60efc3 case 0xd => 0xa867df55 case 0xe => 0x316e8eef case _ => 0x4669be79
  }

  function Table32RowB(c: bv8): bv32 {
    match c
    case 0x0 => 0xcb61b38c case 0x1 => 0xbc66831a case 0x2 => 0x256fd2a0 case 0x3 => 0x5268e236
    case 0x4 => 0xcc0c7795 case 0x5 => 0xbb0b4703 case 0x6 => 0x220216b9 case 0x7 => 0x5505262f
    case 0x8 => 0xc5ba3bbe case 0x9 => 0xb2bd0b28 case 0xa => 0x2bb45a92 case 0xb => 0x5cb36a04
    case 0xc => 0xc2d7ffa7 case 0xd => 0xb5d0cf31 case 0xe => 0x2cd99e8b case _ => 0x5bdeae1d
  }

  function Table32RowC(c: bv8): bv32 {
    match c
    case 0x0 => 0x9b64c2b0 case 0x1 => 0xec63f226 case 0x2 => 0x756aa39c case 0x3 => 0x026d930a
    case 0x4 => 0x9c0906a9 case 0x5 => 0xeb0e363f case 0x6 => 0x72076785 case 0x7 => 0x05005713
    case 0x8 => 0x95bf4a82 case 0x9 => 0xe2b87a14 case 0xa => 0x7bb12bae case 0xb => 0x0cb61b38
    case 0xc => 0x92d28e9b case 0xd => 0xe5d5be0d case 0xe => 0x7cdcefb7 case _ => 0x0bdbdf21
  }

  function Table32RowD(c: bv8): bv32 {
    match c
    case 0x0 => 0x86d3d2d4 case 0x1 => 0xf1d4e242 case 0x2 => 0x68ddb3f8 case 0x3 => 0x1fda836e
    case 0x4 => 0x81be16cd case 0x5 => 0xf6b9265b case 0x6 => 0x6fb077e1 case 0x7 => 0x18b74777
    case 0x8 => 0x88085ae6 case 0x9 => 0xff0f6a70 case 0xa => 0x66063bca case 0xb => 0x11010b5c
    case 0xc => 0x8f659eff case 0xd => 0xf862ae69 case 0xe => 0x616bffd3 case _ => 0x166ccf45
  }

  function Table32RowE(c: bv8): bv32 {
    match c
    case 0x0 => 0xa00ae278 case 0x1 => 0xd70dd2ee case 0x2 => 0x4e048354 case 0x3 => 0x3903b3c2
    case 0x4 => 0xa7672661 case 0x5 => 0xd06016f7 case 0x6 => 0x4969474d case 0x7 => 0x3e6e77db
    case 0x8 => 0xaed16a4a case 0x9 => 0xd9d65adc case 0xa => 0x40df0b66 case 0xb => 0x37d83bf0
    case 0xc => 0xa9bcae53 case 0xd => 0xdebb9ec5 case 0xe => 0x47b2cf7f case _ => 0x30b5ffe9
  }

  function Table32RowF(c: bv8): bv32 {
    match c
    case 0x0 => 0xbdbdf21c case 0x1 => 0xcabac28a case 0x2 => 0x53b39330 case 0x3 => 0x24b4a3a6
    case 0x4 => 0xbad03605 case 0x5 => 0xcdd70693 case 0x6 => 0x54de5729 case 0x7 => 0x23d967bf
    case 0x8 => 0xb3667a2e case 0x9 => 0xc4614ab8 case 0xa => 0x5d681b02 case 0xb => 0x2a6f2b94
    case 0xc => 0xb40bbe37 case 0xd => 0xc30c8ea1 case 0xe => 0x5a05df1b case _ => 0x2d02ef8d
  }

  /** Every entry is what eight steps of the division make of its index. */
  lemma Table32Entry(i: bv8)
    ensures Table32(i) == Eight32(i as bv32)
  {
    hide Eight32;
    var c := i & 0xf;
    match i >> 4
    case 0x0 =>
      Table32Entries0(c);
      assert i == 0x00 | c;
    case 0x1 =>
      Table32Entries1(c);
      assert i == 0x10 | c;
    case 0x2 =>
      Table32Entries2(c);
      assert i == 0x20 | c;
    case 0x3 =>
      Table32Entries3(c);
      assert i == 0x30 | c;
    case 0x4 =>
      Table32Entries4(c);
      assert i == 0x40 | c;
    case 0x5 =>
      Table32Entries5(c);
      assert i == 0x50 | c;
    case 0x6 =>
      Table32Entries6(c);
      assert i == 0x60 | c;
    case 0x7 =>
      Table32Entries7(c);
      assert i == 0x70 | c;
    case 0x8 =>
      Table32Entries8(c);
      assert i == 0x80 | c;
    case 0x9 =>
      Table32Entries9(c);
      assert i == 0x90 | c;
    case 0xa =>
      Table32EntriesA(c);
      assert i == 0xa0 | c;
    case 0xb =>
      Table32EntriesB(c);
      assert i == 0xb0 | c;
    case 0xc =>
      Table32EntriesC(c);
      assert i == 0xc0 | c;
    case 0xd =>
      Table32EntriesD(c);
      assert i == 0xd0 | c;
    case 0xe =>
      Table32EntriesE(c);
      assert i == 0xe0 | c;
    case _ =>
      Table32EntriesF(c);
      assert i == 0xf0 | c;
  }

  lemma Table32Entries0(c: bv8)
    requires c < 0x10
    ensures Table32Row0(c) == Eight32((0x00 | c) as bv32)
  {
    match c
    case 0x0 => case 0x1 => case 0x2 => case 0x3 => case 0x4 => case 0x5 => case 0x6 => case 0x7 =>
    case 0x8 => case 0x9 => case 0xa => case 0xb => case 0xc => case 0xd => case 0xe => case _ =>
  }

  lemma Table32Entries1(c: bv8)
    requires c < 0x10
    ensures Table32Row1(c) == Eight32((0x10 | c) as bv32)
  {
    match c
    case 0x0 => case 0x1 => case 0x2 => case 0x3 => case 0x4 => case 0x5 => case 0x6 => case 0x7 =>
    case 0x8 => case 0x9 => case 0xa => case 0xb => case 0xc => case 0xd => case 0xe => case _ =>
  }

  lemma Table32Entries2(c: bv8)
    requires c < 0x10
    ensures Table32Row2(c) == Eight32((0x20 | c) as bv32)
  {
    match c
    case 0x0 => case 0x1 => case 0x2 => case 0x3 => case 0x4 => case 0x5 => case 0x6 => case 0x7 =>
    case 0x8 => case 0x9 => case 0xa => case 0xb => case 0xc => case 0xd => case 0xe => case _ =>
  }

  lemma Table32Entries3(c: bv8)
    requires c < 0x10
    ensures Table32Row3(c) == Eight32((0x30 | c) as bv32)
  {
    match c
    case 0x0 => case 0x1 => case 0x2 => case 0x3 => case 0x4 => case 0x5 => case 0x6 => case 0x7 =>
    case 0x8 => case 0x9 => case 0xa => case 0xb => case 0xc => case 0xd => case 0xe => case _ =>
  }

  lemma Table32Entries4(c: bv8)
    requires c < 0x10
    ensures Table32Row4(c) == Eight32((0x40 | c) as bv32)
  {
    match c
    case 0x0 => case 0x1 => case 0x2 => case 0x3 => case 0x4 => case 0x5 => case 0x6 => case 0x7 =>
    case 0x8 => case 0x9 => case 0xa => case 0xb => case 0xc => case 0xd => case 0xe => case _ =>
  }

  lemma Table32Entries5(c: bv8)
    requires c < 0x10
    ensures Table32Row5(c) == Eight32((0x50 | c) as bv32)
  {
    match c
    case 0x0 => case 0x1 => case 0x2 => case 0x3 => case 0x4 => case 0x5 => case 0x6 => case 0x7 =>
    case 0x8 => case 0x9 => case 0xa => case 0xb => case 0xc => case 0xd => case 0xe => case _ =>
  }

  lemma Table32Entries6(c: bv8)
    requires c < 0x10
    ensures Table32Row6(c) == Eight32((0x60 | c) as bv32)
  {
    match c
    case 0x0 => case 0x1 => case 0x2 => case 0x3 => case 0x4 => case 0x5 => case 0x6 => case 0x7 =>
    case 0x8 => case 0x9 => case 0xa => case 0xb => case 0xc => case 0xd => case 0xe => case _ =>
  }

  lemma Table32Entries7(c: bv8)
    requires c < 0x10
    ensures Table32Row7(c) == Eight32((0x70 | c) as bv32)
  {
    match c
    case 0x0 => case 0x1 => case 0x2 => case 0x3 => case 0x4 => case 0x5 => case 0x6 => case 0x7 =>
    case 0x8 => case 0x9 => case 0xa => case 0xb => case 0xc => case 0xd => case 0xe => case _ =>
  }

  lemma Table32Entries8(c: bv8)
    requires c < 0x10
    ensures Table32Row8(c) == Eight32((0x80 | c) as bv32)
  {
    match c
    case 0x0 => case 0x1 => case 0x2 => case 0x3 => case 0x4 => case 0x5 => case 0x6 => case 0x7 =>
    case 0x8 => case 0x9 => case 0xa => case 0xb => case 0xc => case 0xd => case 0xe => case _ =>
  }

  lemma Table32Entries9(c: bv8)
    requires c < 0x10
    ensures Table32Row9(c) == Eight32((0x90 | c) as bv32)
  {
    match c
    case 0x0 => case 0x1 => case 0x2 => case 0x3 => case 0x4 => case 0x5 => case 0x6 => case 0x7 =>
    case 0x8 => case 0x9 => case 0xa => case 0xb => case 0xc => case 0xd => case 0xe => case _ =>
  }

  lemma Table32EntriesA(c: bv8)
    requires c < 0x10
    ensures Table32RowA(c) == Eight32((0xa0 | c) as bv32)
  {
    match c
    case 0x0 => case 0x1 => case 0x2 => case 0x3 => case 0x4 => case 0x5 => case 0x6 => case 0x7 =>
    case 0x8 => case 0x9 => case 0xa => case 0xb => case 0xc => case 0xd => case 0xe => case _ =>
  }

  lemma Table32EntriesB(c: bv8)
    requires c < 0x10
    ensures Table32RowB(c) == Eight32((0xb0 | c) as bv32)
  {
    match c
    case 0x0 => case 0x1 => case 0x2 => case 0x3 => case 0x4 => case 0x5 => case 0x6 => case 0x7 =>
    case 0x8 => case 0x9 => case 0xa => case 0xb => case 0xc => case 0xd => case 0xe => case _ =>
  }

  lemma Table32EntriesC(c: bv8)
    requires c < 0x10
    ensures Table32RowC(c) == Eight32((0xc0 | c) as bv32)
  {
    match c
    case 0x0 => case 0x1 => case 0x2 => case 0x3 => case 0x4 => case 0x5 => case 0x6 => case 0x7 =>
    case 0x8 => case 0x9 => case 0xa => case 0xb => case 0xc => case 0xd => case 0xe => case _ =>
  }

  lemma Table32EntriesD(c: bv8)
    requires c < 0x10
    ensures Table32RowD(c) == Eight32((0xd0 | c) as bv32)
  {
    match c
    case 0x0 => case 0x1 => case 0x2 => case 0x3 => case 0x4 => case 0x5 => case 0x6 => case 0x7 =>
    case 0x8 => case 0x9 => case 0xa => case 0xb => case 0xc => case 0xd => case 0xe => case _ =>
  }

  lemma Table32EntriesE(c: bv8)
    requires c < 0x10
    ensures Table32RowE(c) == Eight32((0xe0 | c) as bv32)
  {
    match c
    case 0x0 => case 0x1 => case 0x2 => case 0x3 => case 0x4 => case 0x5 => case 0x6 => case 0x7 =>
    case 0x8 => case 0x9 => case 0xa => case 0xb => case 0xc => case 0xd => case 0xe => case _ =>
  }

  lemma Table32EntriesF(c: bv8)
    requires c < 0x10
    ensures Table32RowF(c) == Eight32((0xf0 | c) as bv32)
  {
    match c
    case 0x0 => case 0x1 => case 0x2 => case 0x3 => case 0x4 => case 0x5 => case 0x6 => case 0x7 =>
    case 0x8 => case 0x9 => case 0xa => case 0xb => case 0xc => case 0xd => case 0xe => case _ =>
  }

  /** The table of `local_crc16`. */
  function Table16(i: bv8): bv16 {
    var c := i & 0xf;
    match i >> 4
    case 0x0 => Table16Row0(c) case 0x1 => Table16Row1(c) case 0x2 => Table16Row2(c) case 0x3 => Table16Row3(c)
    case 0x4 => Table16Row4(c) case 0x5 => Table16Row5(c) case 0x6 => Table16Row6(c) case 0x7 => Table16Row7(c)
    case 0x8 => Table16Row8(c) case 0x9 => Table16Row9(c) case 0xa => Table16RowA(c) case 0xb => Table16RowB(c)
    case 0xc => Table16RowC(c) case 0xd => Table16RowD(c) case 0xe => Table16RowE(c) case _ => Table16RowF(c)
  }

  function Table16Row0(c: bv8): bv16 {
    match c
    case 0x0 => 0x0000 case 0x1 => 0x1021 case 0x2 => 0x2042 case 0x3 => 0x3063
    case 0x4 => 0x4084 case 0x5 => 0x50a5 case 0x6 => 0x60c6 case 0x7 => 0x70e7
    case 0x8 => 0x8108 case 0x9 => 0x9129 case 0xa => 0xa14a case 0xb => 0xb16b
    case 0xc => 0xc18c case 0xd => 0xd1ad case 0xe => 0xe1ce case _ => 0xf1ef
  }

  function Table16Row1(c: bv8): bv16 {
    match c
    case 0x0 => 0x1231 case 0x1 => 0x0210 case 0x2 => 0x3273 case 0x3 => 0x2252
    case 0x4 => 0x52b5 case 0x5 => 0x4294 case 0x6 => 0x72f7 case 0x7 => 0x62d6
    case 0x8 => 0x9339 case 0x9 => 0x8318 case 0xa => 0xb37b case 0xb => 0xa35a
    case 0xc => 0xd3bd case 0xd => 0xc39c case 0xe => 0xf3ff case _ => 0xe3de
  }

  function Table16Row2(c: bv8): bv16 {
    match c
    case 0x0 => 0x2462 case 0x1 => 0x3443 case 0x2 => 0x0420 case 0x3 => 0x1401
    case 0x4 => 0x64e6 case 0x5 => 0x74c7 case 0x6 => 0x44a4 case 0x7 => 0x5485
    case 0x8 => 0xa56a case 0x9 => 0xb54b case 0xa => 0x8528 case 0xb => 0x9509
    case 0xc => 0xe5ee case 0xd => 0xf5cf case 0xe => 0xc5ac case _ => 0xd58d
  }

  function Table16Row3(c: bv8): bv16 {
    match c
    case 0x0 => 0x3653 case 0x1 => 0x2672 case 0x2 => 0x1611 case 0x3 => 0x0630
    case 0x4 => 0x76d7 case 0x5 => 0x66f6 case 0x6 => 0x5695 case 0x7 => 0x46b4
    case 0x8 => 0xb75b case 0x9 => 0xa77a case 0xa => 0x9719 case 0xb => 0x8738
    case 0xc => 0xf7df case 0xd => 0xe7fe case 0xe => 0xd79d case _ => 0xc7bc
  }

  function Table16Row4(c: bv8): bv16 {
    match c
    case 0x0 => 0x48c4 case 0x1 => 0x58e5 case 0x2 => 0x6886 case 0x3 => 0x78a7
    case 0x4 => 0x0840 case 0x5 => 0x1861 case 0x6 => 0x2802 case 0x7 => 0x3823
    case 0x8 => 0xc9cc case 0x9 => 0xd9ed case 0xa => 0xe98e case 0xb => 0xf9af
    case 0xc => 0x8948 case 0xd => 0x9969 case 0xe => 0xa90a case _ => 0xb92b
  }

  function Table16Row5(c: bv8): bv16 {
    match c
    case 0x0 => 0x5af5 case 0x1 => 0x4ad4 case 0x2 => 0x7ab7 case 0x3 => 0x6a96
    case 0x4 => 0x1a71 case 0x5 => 0x0a50 case 0x6 => 0x3a33 case 0x7 => 0x2a12
    case 0x8 => 0xdbfd case 0x9 => 0xcbdc case 0xa => 0xfbbf case 0xb => 0xeb9e
    case 0xc => 0x9b79 case 0xd => 0x8b58 case 0xe => 0xbb3b case _ => 0xab1a
  }

  function Table16Row6(c: bv8): bv16 {
    match c
    case 0x0 => 0x6ca6 case 0x1 => 0x7c87 case 0x2 => 0x4ce4 case 0x3 => 0x5cc5
    case 0x4 => 0x2c22 case 0x5 => 0x3c03 case 0x6 => 0x0c60 case 0x7 => 0x1c41
    case 0x8 => 0xedae case 0x9 => 0xfd8f case 0xa => 0xcdec case 0xb => 0xddcd
    case 0xc => 0xad2a case 0xd => 0xbd0b case 0xe => 0x8d68 case _ => 0x9d49
  }

  function Table16Row7(c: bv8): bv16 {
    match c
    case 0x0 => 0x7e97 case 0x1 => 0x6eb6 case 0x2 => 0x5ed5 case 0x3 => 0x4ef4
    case 0x4 => 0x3e13 case 0x5 => 0x2e32 case 0x6 => 0x1e51 case 0x7 => 0x0e70
    case 0x8 => 0xff9f case 0x9 => 0xefbe case 0xa => 0xdfdd case 0xb => 0xcffc
    case 0xc => 0xbf1b case 0xd => 0xaf3a case 0xe => 0x9f59 case _ => 0x8f78
  }

  function Table16Row8(c: bv8): bv16 {
    match c
    case 0x0 => 0x9188 case 0x1 => 0x81a9 case 0x2 => 0xb1ca case 0x3 => 0xa1eb
    case 0x4 => 0xd10c case 0x5 => 0xc12d case 0x6 => 0xf14e case 0x7 => 0xe16f
    case 0x8 => 0x1080 case 0x9 => 0x00a1 case 0xa => 0x30c2 case 0xb => 0x20e3
    case 0xc => 0x5004 case 0xd => 0x4025 case 0xe => 0x7046 case _ => 0x6067
  }

  function Table16Row9(c: bv8): bv16 {
    match c
    case 0x0 => 0x83b9 case 0x1 => 0x9398 case 0x2 => 0xa3fb case 0x3 => 0xb3da
    case 0x4 => 0xc33d case 0x5 => 0xd31c case 0x6 => 0xe37f case 0x7 => 0xf35e
    case 0x8 => 0x02b1 case 0x9 => 0x1290 case 0xa => 0x22f3 case 0xb => 0x32d2
    case 0xc => 0x4235 case 0xd => 0x5214 case 0xe => 0x6277 case _ => 0x7256
  }

  function Table16RowA(c: bv8): bv16 {
    match c
    case 0x0 => 0xb5ea case 0x1 => 0xa5cb case 0x2 => 0x95a8 case 0x3 => 0x8589
    case 0x4 => 0xf56e case 0x5 => 0xe54f case 0x6 => 0xd52c case 0x7 => 0xc50d
    case 0x8 => 0x34e2 case 0x9 => 0x24c3 case 0xa => 0x14a0 case 0xb => 0x0481
    case 0xc => 0x7466 case 0xd => 0x6447 case 0xe => 0x5424 case _ => 0x4405
  }

  function Table16RowB(c: bv8): bv16 {
    match c
    case 0x0 => 0xa7db case 0x1 => 0xb7fa case 0x2 => 0x8799 case 0x3 => 0x97b8
    case 0x4 => 0xe75f case 0x5 => 0xf77e case 0x6 => 0xc71d case 0x7 => 0xd73c
    case 0x8 => 0x26d3 case 0x9 => 0x36f2 case 0xa => 0x0691 case 0xb => 0x16b0
    case 0xc => 0x6657 case 0xd => 0x7676 case 0xe => 0x4615 case _ => 0x5634
  }

  function Table16RowC(c: bv8): bv16 {
    match c
    case 0x0 => 0xd94c case 0x1 => 0xc96d case 0x2 => 0xf90e case 0x3 => 0xe92f
    case 0x4 => 0x99c8 case 0x5 => 0x89e9 case 0x6 => 0xb98a case 0x7 => 0xa9ab
    case 0x8 => 0x5844 case 0x9 => 0x4865 case 0xa => 0x7806 case 0xb => 0x6827
    case 0xc => 0x18c0 case 0xd => 0x08e1 case 0xe => 0x3882 case _ => 0x28a3
  }

  function Table16RowD(c: bv8): bv16 {
    match c
    case 0x0 => 0xcb7d case 0x1 => 0xdb5c case 0x2 => 0xeb3f case 0x3 => 0xfb1e
    case 0x4 => 0x8bf9 case 0x5 => 0x9bd8 case 0x6 => 0xabbb case 0x7 => 0xbb9a
    case 0x8 => 0x4a75 case 0x9 => 0x5a54 case 0xa => 0x6a37 case 0xb => 0x7a16
    case 0xc => 0x0af1 case 0xd => 0x1ad0 case 0xe => 0x2ab3 case _ => 0x3a92
  }

  function Table16RowE(c: bv8): bv16 {
    match c
    case 0x0 => 0xfd2e case 0x1 => 0xed0f case 0x2 => 0xdd6c case 0x3 => 0xcd4d
    case 0x4 => 0xbdaa case 0x5 => 0xad8b case 0x6 => 0x9de8 case 0x7 => 0x8dc9
    case 0x8 => 0x7c26 case 0x9 => 0x6c07 case 0xa => 0x5c64 case 0xb => 0x4c45
    case 0xc => 0x3ca2 case 0xd => 0x2c83 case 0xe => 0x1ce0 case _ => 0x0cc1
  }

  function Table16RowF(c: bv8): bv16 {
    match c
    case 0x0 => 0xef1f case 0x1 => 0xff3e case 0x2 => 0xcf5d case 0x3 => 0xdf7c
    case 0x4 => 0xaf9b case 0x5 => 0xbfba case 0x6 => 0x8fd9 case 0x7 => 0x9ff8
    case 0x8 => 0x6e17 case 0x9 => 0x7e36 case 0xa => 0x4e55 case 0xb => 0x5e74
    case 0xc => 0x2e93 case 0xd => 0x3eb2 case 0xe => 0x0ed1 case _ => 0x1ef0
  }

  /** Every entry is what eight steps of the division make of its index. */
  lemma Table16Entry(i: bv8)
    ensures Table16(i) == Eight16((i as bv16) << 8)
  {
    hide Eight16;
    var c := i & 0xf;
    match i >> 4
    case 0x0 =>
      Table16Entries0(c);
      assert i == 0x00 | c;
    case 0x1 =>
      Table16Entries1(c);
      assert i == 0x10 | c;
    case 0x2 =>
      Table16Entries2(c);
      assert i == 0x20 | c;
    case 0x3 =>
      Table16Entries3(c);
      assert i == 0x30 | c;
    case 0x4 =>
      Table16Entries4(c);
      assert i == 0x40 | c;
    case 0x5 =>
      Table16Entries5(c);
      assert i == 0x50 | c;
    case 0x6 =>
      Table16Entries6(c);
      assert i == 0x60 | c;
    case 0x7 =>
      Table16Entries7(c);
      assert i == 0x70 | c;
    case 0x8 =>
      Table16Entries8(c);
      assert i == 0x80 | c;
    case 0x9 =>
      Table16Entries9(c);
      assert i == 0x90 | c;
    case 0xa =>
      Table16EntriesA(c);
      assert i == 0xa0 | c;
    case 0xb =>
      Table16EntriesB(c);
      assert i == 0xb0 | c;
    case 0xc =>
      Table16EntriesC(c);
      assert i == 0xc0 | c;
    case 0xd =>
      Table16EntriesD(c);
      assert i == 0xd0 | c;
    case 0xe =>
      Table16EntriesE(c);
      assert i == 0xe0 | c;
    case _ =>
      Table16EntriesF(c);
      assert i == 0xf0 | c;
  }

  lemma Table16Entries0(c: bv8)
    requires c < 0x10
    ensures Table16Row0(c) == Eight16(((0x00 | c) as bv16) << 8)
  {
    match c
    case 0x0 => case 0x1 => case 0x2 => case 0x3 => case 0x4 => case 0x5 => case 0x6 => case 0x7 =>
    case 0x8 => case 0x9 => case 0xa => case 0xb => case 0xc => case 0xd => case 0xe => case _ =>
  }

  lemma Table16Entries1(c: bv8)
    requires c < 0x10
    ensures Table16Row1(c) == Eight16(((0x10 | c) as bv16) << 8)
  {
    match c
    case 0x0 => case 0x1 => case 0x2 => case 0x3 => case 0x4 => case 0x5 => case 0x6 => case 0x7 =>
    case 0x8 => case 0x9 => case 0xa => case 0xb => case 0xc => case 0xd => case 0xe => case _ =>
  }

  lemma Table16Entries2(c: bv8)
    requires c < 0x10
    ensures Table16Row2(c) == Eight16(((0x20 | c) as bv16) << 8)
  {
    match c
    case 0x0 => case 0x1 => case 0x2 => case 0x3 => case 0x4 => case 0x5 => case 0x6 => case 0x7 =>
    case 0x8 => case 0x9 => case 0xa => case 0xb => case 0xc => case 0xd => case 0xe => case _ =>
  }

  lemma Table16Entries3(c: bv8)
    requires c < 0x10
    ensures Table16Row3(c) == Eight16(((0x30 | c) as bv16) << 8)
  {
    match c
    case 0x0 => case 0x1 => case 0x2 => case 0x3 => case 0x4 => case 0x5 => case 0x6 => case 0x7 =>
    case 0x8 => case 0x9 => case 0xa => case 0xb => case 0xc => case 0xd => case 0xe => case _ =>
  }

  lemma Table16Entries4(c: bv8)
    requires c < 0x10
    ensures Table16Row4(c) == Eight16(((0x40 | c) as bv16) << 8)
  {
    match c
    case 0x0 => case 0x1 => case 0x2 => case 0x3 => case 0x4 => case 0x5 => case 0x6 => case 0x7 =>
    case 0x8 => case 0x9 => case 0xa => case 0xb => case 0xc => case 0xd => case 0xe => case _ =>
  }

  lemma Table16Entries5(c: bv8)
    requires c < 0x10
    ensures Table16Row5(c) == Eight16(((0x50 | c) as bv16) << 8)
  {
    match c
    case 0x0 => case 0x1 => case 0x2 => case 0x3 => case 0x4 => case 0x5 => case 0x6 => case 0x7 =>
    case 0x8 => case 0x9 => case 0xa => case 0xb => case 0xc => case 0xd => case 0xe => case _ =>
  }

  lemma Table16Entries6(c: bv8)
    requires c < 0x10
    ensures Table16Row6(c) == Eight16(((0x60 | c) as bv16) << 8)
  {
    match c
    case 0x0 => case 0x1 => case 0x2 => case 0x3 => case 0x4 => case 0x5 => case 0x6 => case 0x7 =>
    case 0x8 => case 0x9 => case 0xa => case 0xb => case 0xc => case 0xd => case 0xe => case _ =>
  }

  lemma Table16Entries7(c: bv8)
    requires c < 0x10
    ensures Table16Row7(c) == Eight16(((0x70 | c) as bv16) << 8)
  {
    match c
    case 0x0 => case 0x1 => case 0x2 => case 0x3 => case 0x4 => case 0x5 => case 0x6 => case 0x7 =>
    case 0x8 => case 0x9 => case 0xa => case 0xb => case 0xc => case 0xd => case 0xe => case _ =>
  }

  lemma Table16Entries8(c: bv8)
    requires c < 0x10
    ensures Table16Row8(c) == Eight16(((0x80 | c) as bv16) << 8)
  {
    match c
    case 0x0 => case 0x1 => case 0x2 => case 0x3 => case 0x4 => case 0x5 => case 0x6 => case 0x7 =>
    case 0x8 => case 0x9 => case 0xa => case 0xb => case 0xc => case 0xd => case 0xe => case _ =>
  }

  lemma Table16Entries9(c: bv8)
    requires c < 0x10
    ensures Table16Row9(c) == Eight16(((0x90 | c) as bv16) << 8)
  {
    match c
    case 0x0 => case 0x1 => case 0x2 => case 0x3 => case 0x4 => case 0x5 => case 0x6 => case 0x7 =>
    case 0x8 => case 0x9 => case 0xa => case 0xb => case 0xc => case 0xd => case 0xe => case _ =>
  }

  lemma Table16EntriesA(c: bv8)
    requires c < 0x10
    ensures Table16RowA(c) == Eight16(((0xa0 | c) as bv16) << 8)
  {
    match c
    case 0x0 => case 0x1 => case 0x2 => case 0x3 => case 0x4 => case 0x5 => case 0x6 => case 0x7 =>
    case 0x8 => case 0x9 => case 0xa => case 0xb => case 0xc => case 0xd => case 0xe => case _ =>
  }

  lemma Table16EntriesB(c: bv8)
    requires c < 0x10
    ensures Table16RowB(c) == Eight16(((0xb0 | c) as bv16) << 8)
  {
    match c
    case 0x0 => case 0x1 => case 0x2 => case 0x3 => case 0x4 => case 0x5 => case 0x6 => case 0x7 =>
    case 0x8 => case 0x9 => case 0xa => case 0xb => case 0xc => case 0xd => case 0xe => case _ =>
  }

  lemma Table16EntriesC(c: bv8)
    requires c < 0x10
    ensures Table16RowC(c) == Eight16(((0xc0 | c) as bv16) << 8)
  {
    match c
    case 0x0 => case 0x1 => case 0x2 => case 0x3 => case 0x4 => case 0x5 => case 0x6 => case 0x7 =>
    case 0x8 => case 0x9 => case 0xa => case 0xb => case 0xc => case 0xd => case 0xe => case _ =>
  }

  lemma Table16EntriesD(c: bv8)
    requires c < 0x10
    ensures Table16RowD(c) == Eight16(((0xd0 | c) as bv16) << 8)
  {
    match c
    case 0x0 => case 0x1 => case 0x2 => case 0x3 => case 0x4 => case 0x5 => case 0x6 => case 0x7 =>
    case 0x8 => case 0x9 => case 0xa => case 0xb => case 0xc => case 0xd => case 0xe => case _ =>
  }

  lemma Table16EntriesE(c: bv8)
    requires c < 0x10
    ensures Table16RowE(c) == Eight16(((0xe0 | c) as bv16) << 8)
  {
    match c
    case 0x0 => case 0x1 => case 0x2 => case 0x3 => case 0x4 => case 0x5 => case 0x6 => case 0x7 =>
    case 0x8 => case 0x9 => case 0xa => case 0xb => case 0xc => case 0xd => case 0xe => case _ =>
  }

  lemma Table16EntriesF(c: bv8)
    requires c < 0x10
    ensures Table16RowF(c) == Eight16(((0xf0 | c) as bv16) << 8)
  {
    match c
    case 0x0 => case 0x1 => case 0x2 => case 0x3 => case 0x4 => case 0x5 => case 0x6 => case 0x7 =>
    case 0x8 => case 0x9 => case 0xa => case 0xb => case 0xc => case 0xd => case 0xe => case _ =>
  }
}
