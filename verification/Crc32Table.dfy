/** The table of crc32.c and the shift register it abbreviates. */
module Crc32Table {
  /** The reflected polynomial: bit k is the coefficient of x^(31-k); x^32 is implicit. */
  const POLY: bv32 := 0xedb88320

  /** One turn of the shift register. */
  function BitStep(r: bv32): bv32 {
    if r & 1 == 1 then (r >> 1) ^ POLY else r >> 1
  }

  /** Eight turns. */
  function ByteSteps(r: bv32): bv32 {
    BitStep(BitStep(BitStep(BitStep(BitStep(BitStep(BitStep(BitStep(r))))))))
  }

  /** crc32tab */
  function Table(i: bv8): bv32 {
    if i <= 0x1f then Table00(i)
    else if i <= 0x3f then Table20(i)
    else if i <= 0x5f then Table40(i)
    else if i <= 0x7f then Table60(i)
    else if i <= 0x9f then Table80(i)
    else if i <= 0xbf then TableA0(i)
    else if i <= 0xdf then TableC0(i)
    else TableE0(i)
  }

  function Table00(i: bv8): bv32 {
    match i
    case 0x00 => 0x00000000 case 0x01 => 0x77073096 case 0x02 => 0xee0e612c case 0x03 => 0x990951ba
    case 0x04 => 0x076dc419 case 0x05 => 0x706af48f case 0x06 => 0xe963a535 case 0x07 => 0x9e6495a3
    case 0x08 => 0x0edb8832 case 0x09 => 0x79dcb8a4 case 0x0a => 0xe0d5e91e case 0x0b => 0x97d2d988
    case 0x0c => 0x09b64c2b case 0x0d => 0x7eb17cbd case 0x0e => 0xe7b82d07 case 0x0f => 0x90bf1d91
    case 0x10 => 0x1db71064 case 0x11 => 0x6ab020f2 case 0x12 => 0xf3b97148 case 0x13 => 0x84be41de
    case 0x14 => 0x1adad47d case 0x15 => 0x6ddde4eb case 0x16 => 0xf4d4b551 case 0x17 => 0x83d385c7
    case 0x18 => 0x136c9856 case 0x19 => 0x646ba8c0 case 0x1a => 0xfd62f97a case 0x1b => 0x8a65c9ec
    case 0x1c => 0x14015c4f case 0x1d => 0x63066cd9 case 0x1e => 0xfa0f3d63 case _ => 0x8d080df5
  }

  function Table20(i: bv8): bv32 {
    match i
    case 0x20 => 0x3b6e20c8 case 0x21 => 0x4c69105e case 0x22 => 0xd56041e4 case 0x23 => 0xa2677172
    case 0x24 => 0x3c03e4d1 case 0x25 => 0x4b04d447 case 0x26 => 0xd20d85fd case 0x27 => 0xa50ab56b
    case 0x28 => 0x35b5a8fa case 0x29 => 0x42b2986c case 0x2a => 0xdbbbc9d6 case 0x2b => 0xacbcf940
    case 0x2c => 0x32d86ce3 case 0x2d => 0x45df5c75 case 0x2e => 0xdcd60dcf case 0x2f => 0xabd13d59
    case 0x30 => 0x26d930ac case 0x31 => 0x51de003a case 0x32 => 0xc8d75180 case 0x33 => 0xbfd06116
    case 0x34 => 0x21b4f4b5 case 0x35 => 0x56b3c423 case 0x36 => 0xcfba9599 case 0x37 => 0xb8bda50f
    case 0x38 => 0x2802b89e case 0x39 => 0x5f058808 case 0x3a => 0xc60cd9b2 case 0x3b => 0xb10be924
    case 0x3c => 0x2f6f7c87 case 0x3d => 0x58684c11 case 0x3e => 0xc1611dab case _ => 0xb6662d3d
  }

  function Table40(i: bv8): bv32 {
    match i
    case 0x40 => 0x76dc4190 case 0x41 => 0x01db7106 case 0x42 => 0x98d220bc case 0x43 => 0xefd5102a
    case 0x44 => 0x71b18589 case 0x45 => 0x06b6b51f case 0x46 => 0x9fbfe4a5 case 0x47 => 0xe8b8d433
    case 0x48 => 0x7807c9a2 case 0x49 => 0x0f00f934 case 0x4a => 0x9609a88e case 0x4b => 0xe10e9818
    case 0x4c => 0x7f6a0dbb case 0x4d => 0x086d3d2d case 0x4e => 0x91646c97 case 0x4f => 0xe6635c01
    case 0x50 => 0x6b6b51f4 case 0x51 => 0x1c6c6162 case 0x52 => 0x856530d8 case 0x53 => 0xf262004e
    case 0x54 => 0x6c0695ed case 0x55 => 0x1b01a57b case 0x56 => 0x8208f4c1 case 0x57 => 0xf50fc457
    case 0x58 => 0x65b0d9c6 case 0x59 => 0x12b7e950 case 0x5a => 0x8bbeb8ea case 0x5b => 0xfcb9887c
    case 0x5c => 0x62dd1ddf case 0x5d => 0x15da2d49 case 0x5e => 0x8cd37cf3 case _ => 0xfbd44c65
  }

  function Table60(i: bv8): bv32 {
    match i
    case 0x60 => 0x4db26158 case 0x61 => 0x3ab551ce case 0x62 => 0xa3bc0074 case 0x63 => 0xd4bb30e2
    case 0x64 => 0x4adfa541 case 0x65 => 0x3dd895d7 case 0x66 => 0xa4d1c46d case 0x67 => 0xd3d6f4fb
    case 0x68 => 0x4369e96a case 0x69 => 0x346ed9fc case 0x6a => 0xad678846 case 0x6b => 0xda60b8d0
    case 0x6c => 0x44042d73 case 0x6d => 0x33031de5 case 0x6e => 0xaa0a4c5f case 0x6f => 0xdd0d7cc9
    case 0x70 => 0x5005713c case 0x71 => 0x270241aa case 0x72 => 0xbe0b1010 case 0x73 => 0xc90c2086
    case 0x74 => 0x5768b525 case 0x75 => 0x206f85b3 case 0x76 => 0xb966d409 case 0x77 => 0xce61e49f
    case 0x78 => 0x5edef90e case 0x79 => 0x29d9c998 case 0x7a => 0xb0d09822 case 0x7b => 0xc7d7a8b4
    case 0x7c => 0x59b33d17 case 0x7d => 0x2eb40d81 case 0x7e => 0xb7bd5c3b case _ => 0xc0ba6cad
  }

  function Table80(i: bv8): bv32 {
    match i
    case 0x80 => 0xedb88320 case 0x81 => 0x9abfb3b6 case 0x82 => 0x03b6e20c case 0x83 => 0x74b1d29a
    case 0x84 => 0xead54739 case 0x85 => 0x9dd277af case 0x86 => 0x04db2615 case 0x87 => 0x73dc1683
    case 0x88 => 0xe3630b12 case 0x89 => 0x94643b84 case 0x8a => 0x0d6d6a3e case 0x8b => 0x7a6a5aa8
    case 0x8c => 0xe40ecf0b case 0x8d => 0x9309ff9d case 0x8e => 0x0a00ae27 case 0x8f => 0x7d079eb1
    case 0x90 => 0xf00f9344 case 0x91 => 0x8708a3d2 case 0x92 => 0x1e01f268 case 0x93 => 0x6906c2fe
    case 0x94 => 0xf762575d case 0x95 => 0x806567cb case 0x96 => 0x196c3671 case 0x97 => 0x6e6b06e7
    case 0x98 => 0xfed41b76 case 0x99 => 0x89d32be0 case 0x9a => 0x10da7a5a case 0x9b => 0x67dd4acc
    case 0x9c => 0xf9b9df6f case 0x9d => 0x8ebeeff9 case 0x9e => 0x17b7be43 case _ => 0x60b08ed5
  }

  function TableA0(i: bv8): bv32 {
    match i
    case 0xa0 => 0xd6d6a3e8 case 0xa1 => 0xa1d1937e case 0xa2 => 0x38d8c2c4 case 0xa3 => 0x4fdff252
    case 0xa4 => 0xd1bb67f1 case 0xa5 => 0xa6bc5767 case 0xa6 => 0x3fb506dd case 0xa7 => 0x48b2364b
    case 0xa8 => 0xd80d2bda case 0xa9 => 0xaf0a1b4c case 0xaa => 0x36034af6 case 0xab => 0x41047a60
    case 0xac => 0xdf60efc3 case 0xad => 0xa867df55 case 0xae => 0x316e8eef case 0xaf => 0x4669be79
    case 0xb0 => 0xcb61b38c case 0xb1 => 0xbc66831a case 0xb2 => 0x256fd2a0 case 0xb3 => 0x5268e236
    case 0xb4 => 0xcc0c7795 case 0xb5 => 0xbb0b4703 case 0xb6 => 0x220216b9 case 0xb7 => 0x5505262f
    case 0xb8 => 0xc5ba3bbe case 0xb9 => 0xb2bd0b28 case 0xba => 0x2bb45a92 case 0xbb => 0x5cb36a04
    case 0xbc => 0xc2d7ffa7 case 0xbd => 0xb5d0cf31 case 0xbe => 0x2cd99e8b case _ => 0x5bdeae1d
  }

  function TableC0(i: bv8): bv32 {
    match i
    case 0xc0 => 0x9b64c2b0 case 0xc1 => 0xec63f226 case 0xc2 => 0x756aa39c case 0xc3 => 0x026d930a
    case 0xc4 => 0x9c0906a9 case 0xc5 => 0xeb0e363f case 0xc6 => 0x72076785 case 0xc7 => 0x05005713
    case 0xc8 => 0x95bf4a82 case 0xc9 => 0xe2b87a14 case 0xca => 0x7bb12bae case 0xcb => 0x0cb61b38
    case 0xcc => 0x92d28e9b case 0xcd => 0xe5d5be0d case 0xce => 0x7cdcefb7 case 0xcf => 0x0bdbdf21
    case 0xd0 => 0x86d3d2d4 case 0xd1 => 0xf1d4e242 case 0xd2 => 0x68ddb3f8 case 0xd3 => 0x1fda836e
    case 0xd4 => 0x81be16cd case 0xd5 => 0xf6b9265b case 0xd6 => 0x6fb077e1 case 0xd7 => 0x18b74777
    case 0xd8 => 0x88085ae6 case 0xd9 => 0xff0f6a70 case 0xda => 0x66063bca case 0xdb => 0x11010b5c
    case 0xdc => 0x8f659eff case 0xdd => 0xf862ae69 case 0xde => 0x616bffd3 case _ => 0x166ccf45
  }

  function TableE0(i: bv8): bv32 {
    match i
    case 0xe0 => 0xa00ae278 case 0xe1 => 0xd70dd2ee case 0xe2 => 0x4e048354 case 0xe3 => 0x3903b3c2
    case 0xe4 => 0xa7672661 case 0xe5 => 0xd06016f7 case 0xe6 => 0x4969474d case 0xe7 => 0x3e6e77db
    case 0xe8 => 0xaed16a4a case 0xe9 => 0xd9d65adc case 0xea => 0x40df0b66 case 0xeb => 0x37d83bf0
    case 0xec => 0xa9bcae53 case 0xed => 0xdebb9ec5 case 0xee => 0x47b2cf7f case 0xef => 0x30b5ffe9
    case 0xf0 => 0xbdbdf21c case 0xf1 => 0xcabac28a case 0xf2 => 0x53b39330 case 0xf3 => 0x24b4a3a6
    case 0xf4 => 0xbad03605 case 0xf5 => 0xcdd70693 case 0xf6 => 0x54de5729 case 0xf7 => 0x23d967bf
    case 0xf8 => 0xb3667a2e case 0xf9 => 0xc4614ab8 case 0xfa => 0x5d681b02 case 0xfb => 0x2a6f2b94
    case 0xfc => 0xb40bbe37 case 0xfd => 0xc30c8ea1 case 0xfe => 0x5a05df1b case _ => 0x2d02ef8d
  }

  /** Every entry of the table is its index after eight turns of the register. */
  lemma TableEntry(i: bv8)
    ensures Table(i) == ByteSteps(i as bv32)
  {
    hide ByteSteps, Table00, Table20, Table40, Table60, Table80, TableA0, TableC0, TableE0;
    if i <= 0x1f { Entries00(i); }
    else if i <= 0x3f { Entries20(i); }
    else if i <= 0x5f { Entries40(i); }
    else if i <= 0x7f { Entries60(i); }
    else if i <= 0x9f { Entries80(i); }
    else if i <= 0xbf { EntriesA0(i); }
    else if i <= 0xdf { EntriesC0(i); }
    else { EntriesE0(i); }
  }

  lemma Entries00(i: bv8)
    requires 0x00 <= i <= 0x1f
    ensures Table00(i) == ByteSteps(i as bv32)
  {
    if i == 0x00 {} else if i == 0x01 {} else if i == 0x02 {} else if i == 0x03 {} else if i == 0x04 {} else if i == 0x05 {} else if i == 0x06 {} else if i == 0x07 {} else
    if i == 0x08 {} else if i == 0x09 {} else if i == 0x0a {} else if i == 0x0b {} else if i == 0x0c {} else if i == 0x0d {} else if i == 0x0e {} else if i == 0x0f {} else
    if i == 0x10 {} else if i == 0x11 {} else if i == 0x12 {} else if i == 0x13 {} else if i == 0x14 {} else if i == 0x15 {} else if i == 0x16 {} else if i == 0x17 {} else
    if i == 0x18 {} else if i == 0x19 {} else if i == 0x1a {} else if i == 0x1b {} else if i == 0x1c {} else if i == 0x1d {} else if i == 0x1e {} else if i == 0x1f {}
  }

  lemma Entries20(i: bv8)
    requires 0x20 <= i <= 0x3f
    ensures Table20(i) == ByteSteps(i as bv32)
  {
    if i == 0x20 {} else if i == 0x21 {} else if i == 0x22 {} else if i == 0x23 {} else if i == 0x24 {} else if i == 0x25 {} else if i == 0x26 {} else if i == 0x27 {} else
    if i == 0x28 {} else if i == 0x29 {} else if i == 0x2a {} else if i == 0x2b {} else if i == 0x2c {} else if i == 0x2d {} else if i == 0x2e {} else if i == 0x2f {} else
    if i == 0x30 {} else if i == 0x31 {} else if i == 0x32 {} else if i == 0x33 {} else if i == 0x34 {} else if i == 0x35 {} else if i == 0x36 {} else if i == 0x37 {} else
    if i == 0x38 {} else if i == 0x39 {} else if i == 0x3a {} else if i == 0x3b {} else if i == 0x3c {} else if i == 0x3d {} else if i == 0x3e {} else if i == 0x3f {}
  }

  lemma Entries40(i: bv8)
    requires 0x40 <= i <= 0x5f
    ensures Table40(i) == ByteSteps(i as bv32)
  {
    if i == 0x40 {} else if i == 0x41 {} else if i == 0x42 {} else if i == 0x43 {} else if i == 0x44 {} else if i == 0x45 {} else if i == 0x46 {} else if i == 0x47 {} else
    if i == 0x48 {} else if i == 0x49 {} else if i == 0x4a {} else if i == 0x4b {} else if i == 0x4c {} else if i == 0x4d {} else if i == 0x4e {} else if i == 0x4f {} else
    if i == 0x50 {} else if i == 0x51 {} else if i == 0x52 {} else if i == 0x53 {} else if i == 0x54 {} else if i == 0x55 {} else if i == 0x56 {} else if i == 0x57 {} else
    if i == 0x58 {} else if i == 0x59 {} else if i == 0x5a {} else if i == 0x5b {} else if i == 0x5c {} else if i == 0x5d {} else if i == 0x5e {} else if i == 0x5f {}
  }

  lemma Entries60(i: bv8)
    requires 0x60 <= i <= 0x7f
    ensures Table60(i) == ByteSteps(i as bv32)
  {
    if i == 0x60 {} else if i == 0x61 {} else if i == 0x62 {} else if i == 0x63 {} else if i == 0x64 {} else if i == 0x65 {} else if i == 0x66 {} else if i == 0x67 {} else
    if i == 0x68 {} else if i == 0x69 {} else if i == 0x6a {} else if i == 0x6b {} else if i == 0x6c {} else if i == 0x6d {} else if i == 0x6e {} else if i == 0x6f {} else
    if i == 0x70 {} else if i == 0x71 {} else if i == 0x72 {} else if i == 0x73 {} else if i == 0x74 {} else if i == 0x75 {} else if i == 0x76 {} else if i == 0x77 {} else
    if i == 0x78 {} else if i == 0x79 {} else if i == 0x7a {} else if i == 0x7b {} else if i == 0x7c {} else if i == 0x7d {} else if i == 0x7e {} else if i == 0x7f {}
  }

  lemma Entries80(i: bv8)
    requires 0x80 <= i <= 0x9f
    ensures Table80(i) == ByteSteps(i as bv32)
  {
    if i == 0x80 {} else if i == 0x81 {} else if i == 0x82 {} else if i == 0x83 {} else if i == 0x84 {} else if i == 0x85 {} else if i == 0x86 {} else if i == 0x87 {} else
    if i == 0x88 {} else if i == 0x89 {} else if i == 0x8a {} else if i == 0x8b {} else if i == 0x8c {} else if i == 0x8d {} else if i == 0x8e {} else if i == 0x8f {} else
    if i == 0x90 {} else if i == 0x91 {} else if i == 0x92 {} else if i == 0x93 {} else if i == 0x94 {} else if i == 0x95 {} else if i == 0x96 {} else if i == 0x97 {} else
    if i == 0x98 {} else if i == 0x99 {} else if i == 0x9a {} else if i == 0x9b {} else if i == 0x9c {} else if i == 0x9d {} else if i == 0x9e {} else if i == 0x9f {}
  }

  lemma EntriesA0(i: bv8)
    requires 0xa0 <= i <= 0xbf
    ensures TableA0(i) == ByteSteps(i as bv32)
  {
    if i == 0xa0 {} else if i == 0xa1 {} else if i == 0xa2 {} else if i == 0xa3 {} else if i == 0xa4 {} else if i == 0xa5 {} else if i == 0xa6 {} else if i == 0xa7 {} else
    if i == 0xa8 {} else if i == 0xa9 {} else if i == 0xaa {} else if i == 0xab {} else if i == 0xac {} else if i == 0xad {} else if i == 0xae {} else if i == 0xaf {} else
    if i == 0xb0 {} else if i == 0xb1 {} else if i == 0xb2 {} else if i == 0xb3 {} else if i == 0xb4 {} else if i == 0xb5 {} else if i == 0xb6 {} else if i == 0xb7 {} else
    if i == 0xb8 {} else if i == 0xb9 {} else if i == 0xba {} else if i == 0xbb {} else if i == 0xbc {} else if i == 0xbd {} else if i == 0xbe {} else if i == 0xbf {}
  }

  lemma EntriesC0(i: bv8)
    requires 0xc0 <= i <= 0xdf
    ensures TableC0(i) == ByteSteps(i as bv32)
  {
    if i == 0xc0 {} else if i == 0xc1 {} else if i == 0xc2 {} else if i == 0xc3 {} else if i == 0xc4 {} else if i == 0xc5 {} else if i == 0xc6 {} else if i == 0xc7 {} else
    if i == 0xc8 {} else if i == 0xc9 {} else if i == 0xca {} else if i == 0xcb {} else if i == 0xcc {} else if i == 0xcd {} else if i == 0xce {} else if i == 0xcf {} else
    if i == 0xd0 {} else if i == 0xd1 {} else if i == 0xd2 {} else if i == 0xd3 {} else if i == 0xd4 {} else if i == 0xd5 {} else if i == 0xd6 {} else if i == 0xd7 {} else
    if i == 0xd8 {} else if i == 0xd9 {} else if i == 0xda {} else if i == 0xdb {} else if i == 0xdc {} else if i == 0xdd {} else if i == 0xde {} else if i == 0xdf {}
  }

  lemma EntriesE0(i: bv8)
    requires 0xe0 <= i <= 0xff
    ensures TableE0(i) == ByteSteps(i as bv32)
  {
    if i == 0xe0 {} else if i == 0xe1 {} else if i == 0xe2 {} else if i == 0xe3 {} else if i == 0xe4 {} else if i == 0xe5 {} else if i == 0xe6 {} else if i == 0xe7 {} else
    if i == 0xe8 {} else if i == 0xe9 {} else if i == 0xea {} else if i == 0xeb {} else if i == 0xec {} else if i == 0xed {} else if i == 0xee {} else if i == 0xef {} else
    if i == 0xf0 {} else if i == 0xf1 {} else if i == 0xf2 {} else if i == 0xf3 {} else if i == 0xf4 {} else if i == 0xf5 {} else if i == 0xf6 {} else if i == 0xf7 {} else
    if i == 0xf8 {} else if i == 0xf9 {} else if i == 0xfa {} else if i == 0xfb {} else if i == 0xfc {} else if i == 0xfd {} else if i == 0xfe {} else if i == 0xff {}
  }
}
