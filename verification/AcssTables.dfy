/** The tables of acss.c: two inverse S-boxes and bit reversal. */
module AcssTables {
  /** sboxdec */
  function SboxDec(i: bv8): bv8 {
    if i <= 0x0f then SboxDec00(i)
    else if i <= 0x1f then SboxDec10(i)
    else if i <= 0x2f then SboxDec20(i)
    else if i <= 0x3f then SboxDec30(i)
    else if i <= 0x4f then SboxDec40(i)
    else if i <= 0x5f then SboxDec50(i)
    else if i <= 0x6f then SboxDec60(i)
    else if i <= 0x7f then SboxDec70(i)
    else if i <= 0x8f then SboxDec80(i)
    else if i <= 0x9f then SboxDec90(i)
    else if i <= 0xaf then SboxDecA0(i)
    else if i <= 0xbf then SboxDecB0(i)
    else if i <= 0xcf then SboxDecC0(i)
    else if i <= 0xdf then SboxDecD0(i)
    else if i <= 0xef then SboxDecE0(i)
    else SboxDecF0(i)
  }

  function SboxDec00(i: bv8): bv8 {
    match i
    case 0x00 => 0x33 case 0x01 => 0x73 case 0x02 => 0x3b case 0x03 => 0x26 case 0x04 => 0x63 case 0x05 => 0x23 case 0x06 => 0x6b case 0x07 => 0x76
    case 0x08 => 0x3e case 0x09 => 0x7e case 0x0a => 0x36 case 0x0b => 0x2b case 0x0c => 0x6e case 0x0d => 0x2e case 0x0e => 0x66 case _ => 0x7b
  }

  function SboxDec10(i: bv8): bv8 {
    match i
    case 0x10 => 0xd3 case 0x11 => 0x93 case 0x12 => 0xdb case 0x13 => 0x06 case 0x14 => 0x43 case 0x15 => 0x03 case 0x16 => 0x4b case 0x17 => 0x96
    case 0x18 => 0xde case 0x19 => 0x9e case 0x1a => 0xd6 case 0x1b => 0x0b case 0x1c => 0x4e case 0x1d => 0x0e case 0x1e => 0x46 case _ => 0x9b
  }

  function SboxDec20(i: bv8): bv8 {
    match i
    case 0x20 => 0x57 case 0x21 => 0x17 case 0x22 => 0x5f case 0x23 => 0x82 case 0x24 => 0xc7 case 0x25 => 0x87 case 0x26 => 0xcf case 0x27 => 0x12
    case 0x28 => 0x5a case 0x29 => 0x1a case 0x2a => 0x52 case 0x2b => 0x8f case 0x2c => 0xca case 0x2d => 0x8a case 0x2e => 0xc2 case _ => 0x1f
  }

  function SboxDec30(i: bv8): bv8 {
    match i
    case 0x30 => 0xd9 case 0x31 => 0x99 case 0x32 => 0xd1 case 0x33 => 0x00 case 0x34 => 0x49 case 0x35 => 0x09 case 0x36 => 0x41 case 0x37 => 0x90
    case 0x38 => 0xd8 case 0x39 => 0x98 case 0x3a => 0xd0 case 0x3b => 0x01 case 0x3c => 0x48 case 0x3d => 0x08 case 0x3e => 0x40 case _ => 0x91
  }

  function SboxDec40(i: bv8): bv8 {
    match i
    case 0x40 => 0x3d case 0x41 => 0x7d case 0x42 => 0x35 case 0x43 => 0x24 case 0x44 => 0x6d case 0x45 => 0x2d case 0x46 => 0x65 case 0x47 => 0x74
    case 0x48 => 0x3c case 0x49 => 0x7c case 0x4a => 0x34 case 0x4b => 0x25 case 0x4c => 0x6c case 0x4d => 0x2c case 0x4e => 0x64 case _ => 0x75
  }

  function SboxDec50(i: bv8): bv8 {
    match i
    case 0x50 => 0xdd case 0x51 => 0x9d case 0x52 => 0xd5 case 0x53 => 0x04 case 0x54 => 0x4d case 0x55 => 0x0d case 0x56 => 0x45 case 0x57 => 0x94
    case 0x58 => 0xdc case 0x59 => 0x9c case 0x5a => 0xd4 case 0x5b => 0x05 case 0x5c => 0x4c case 0x5d => 0x0c case 0x5e => 0x44 case _ => 0x95
  }

  function SboxDec60(i: bv8): bv8 {
    match i
    case 0x60 => 0x59 case 0x61 => 0x19 case 0x62 => 0x51 case 0x63 => 0x80 case 0x64 => 0xc9 case 0x65 => 0x89 case 0x66 => 0xc1 case 0x67 => 0x10
    case 0x68 => 0x58 case 0x69 => 0x18 case 0x6a => 0x50 case 0x6b => 0x81 case 0x6c => 0xc8 case 0x6d => 0x88 case 0x6e => 0xc0 case _ => 0x11
  }

  function SboxDec70(i: bv8): bv8 {
    match i
    case 0x70 => 0xd7 case 0x71 => 0x97 case 0x72 => 0xdf case 0x73 => 0x02 case 0x74 => 0x47 case 0x75 => 0x07 case 0x76 => 0x4f case 0x77 => 0x92
    case 0x78 => 0xda case 0x79 => 0x9a case 0x7a => 0xd2 case 0x7b => 0x0f case 0x7c => 0x4a case 0x7d => 0x0a case 0x7e => 0x42 case _ => 0x9f
  }

  function SboxDec80(i: bv8): bv8 {
    match i
    case 0x80 => 0x53 case 0x81 => 0x13 case 0x82 => 0x5b case 0x83 => 0x86 case 0x84 => 0xc3 case 0x85 => 0x83 case 0x86 => 0xcb case 0x87 => 0x16
    case 0x88 => 0x5e case 0x89 => 0x1e case 0x8a => 0x56 case 0x8b => 0x8b case 0x8c => 0xce case 0x8d => 0x8e case 0x8e => 0xc6 case _ => 0x1b
  }

  function SboxDec90(i: bv8): bv8 {
    match i
    case 0x90 => 0xb3 case 0x91 => 0xf3 case 0x92 => 0xbb case 0x93 => 0xa6 case 0x94 => 0xe3 case 0x95 => 0xa3 case 0x96 => 0xeb case 0x97 => 0xf6
    case 0x98 => 0xbe case 0x99 => 0xfe case 0x9a => 0xb6 case 0x9b => 0xab case 0x9c => 0xee case 0x9d => 0xae case 0x9e => 0xe6 case _ => 0xfb
  }

  function SboxDecA0(i: bv8): bv8 {
    match i
    case 0xa0 => 0x37 case 0xa1 => 0x77 case 0xa2 => 0x3f case 0xa3 => 0x22 case 0xa4 => 0x67 case 0xa5 => 0x27 case 0xa6 => 0x6f case 0xa7 => 0x72
    case 0xa8 => 0x3a case 0xa9 => 0x7a case 0xaa => 0x32 case 0xab => 0x2f case 0xac => 0x6a case 0xad => 0x2a case 0xae => 0x62 case _ => 0x7f
  }

  function SboxDecB0(i: bv8): bv8 {
    match i
    case 0xb0 => 0xb9 case 0xb1 => 0xf9 case 0xb2 => 0xb1 case 0xb3 => 0xa0 case 0xb4 => 0xe9 case 0xb5 => 0xa9 case 0xb6 => 0xe1 case 0xb7 => 0xf0
    case 0xb8 => 0xb8 case 0xb9 => 0xf8 case 0xba => 0xb0 case 0xbb => 0xa1 case 0xbc => 0xe8 case 0xbd => 0xa8 case 0xbe => 0xe0 case _ => 0xf1
  }

  function SboxDecC0(i: bv8): bv8 {
    match i
    case 0xc0 => 0x5d case 0xc1 => 0x1d case 0xc2 => 0x55 case 0xc3 => 0x84 case 0xc4 => 0xcd case 0xc5 => 0x8d case 0xc6 => 0xc5 case 0xc7 => 0x14
    case 0xc8 => 0x5c case 0xc9 => 0x1c case 0xca => 0x54 case 0xcb => 0x85 case 0xcc => 0xcc case 0xcd => 0x8c case 0xce => 0xc4 case _ => 0x15
  }

  function SboxDecD0(i: bv8): bv8 {
    match i
    case 0xd0 => 0xbd case 0xd1 => 0xfd case 0xd2 => 0xb5 case 0xd3 => 0xa4 case 0xd4 => 0xed case 0xd5 => 0xad case 0xd6 => 0xe5 case 0xd7 => 0xf4
    case 0xd8 => 0xbc case 0xd9 => 0xfc case 0xda => 0xb4 case 0xdb => 0xa5 case 0xdc => 0xec case 0xdd => 0xac case 0xde => 0xe4 case _ => 0xf5
  }

  function SboxDecE0(i: bv8): bv8 {
    match i
    case 0xe0 => 0x39 case 0xe1 => 0x79 case 0xe2 => 0x31 case 0xe3 => 0x20 case 0xe4 => 0x69 case 0xe5 => 0x29 case 0xe6 => 0x61 case 0xe7 => 0x70
    case 0xe8 => 0x38 case 0xe9 => 0x78 case 0xea => 0x30 case 0xeb => 0x21 case 0xec => 0x68 case 0xed => 0x28 case 0xee => 0x60 case _ => 0x71
  }

  function SboxDecF0(i: bv8): bv8 {
    match i
    case 0xf0 => 0xb7 case 0xf1 => 0xf7 case 0xf2 => 0xbf case 0xf3 => 0xa2 case 0xf4 => 0xe7 case 0xf5 => 0xa7 case 0xf6 => 0xef case 0xf7 => 0xf2
    case 0xf8 => 0xba case 0xf9 => 0xfa case 0xfa => 0xb2 case 0xfb => 0xaf case 0xfc => 0xea case 0xfd => 0xaa case 0xfe => 0xe2 case _ => 0xff
  }

  /** sboxenc */
  function SboxEnc(i: bv8): bv8 {
    if i <= 0x0f then SboxEnc00(i)
    else if i <= 0x1f then SboxEnc10(i)
    else if i <= 0x2f then SboxEnc20(i)
    else if i <= 0x3f then SboxEnc30(i)
    else if i <= 0x4f then SboxEnc40(i)
    else if i <= 0x5f then SboxEnc50(i)
    else if i <= 0x6f then SboxEnc60(i)
    else if i <= 0x7f then SboxEnc70(i)
    else if i <= 0x8f then SboxEnc80(i)
    else if i <= 0x9f then SboxEnc90(i)
    else if i <= 0xaf then SboxEncA0(i)
    else if i <= 0xbf then SboxEncB0(i)
    else if i <= 0xcf then SboxEncC0(i)
    else if i <= 0xdf then SboxEncD0(i)
    else if i <= 0xef then SboxEncE0(i)
    else SboxEncF0(i)
  }

  function SboxEnc00(i: bv8): bv8 {
    match i
    case 0x00 => 0x33 case 0x01 => 0x3b case 0x02 => 0x73 case 0x03 => 0x15 case 0x04 => 0x53 case 0x05 => 0x5b case 0x06 => 0x13 case 0x07 => 0x75
    case 0x08 => 0x3d case 0x09 => 0x35 case 0x0a => 0x7d case 0x0b => 0x1b case 0x0c => 0x5d case 0x0d => 0x55 case 0x0e => 0x1d case _ => 0x7b
  }

  function SboxEnc10(i: bv8): bv8 {
    match i
    case 0x10 => 0x67 case 0x11 => 0x6f case 0x12 => 0x27 case 0x13 => 0x81 case 0x14 => 0xc7 case 0x15 => 0xcf case 0x16 => 0x87 case 0x17 => 0x21
    case 0x18 => 0x69 case 0x19 => 0x61 case 0x1a => 0x29 case 0x1b => 0x8f case 0x1c => 0xc9 case 0x1d => 0xc1 case 0x1e => 0x89 case _ => 0x2f
  }

  function SboxEnc20(i: bv8): bv8 {
    match i
    case 0x20 => 0xe3 case 0x21 => 0xeb case 0x22 => 0xa3 case 0x23 => 0x05 case 0x24 => 0x43 case 0x25 => 0x4b case 0x26 => 0x03 case 0x27 => 0xa5
    case 0x28 => 0xed case 0x29 => 0xe5 case 0x2a => 0xad case 0x2b => 0x0b case 0x2c => 0x4d case 0x2d => 0x45 case 0x2e => 0x0d case _ => 0xab
  }

  function SboxEnc30(i: bv8): bv8 {
    match i
    case 0x30 => 0xea case 0x31 => 0xe2 case 0x32 => 0xaa case 0x33 => 0x00 case 0x34 => 0x4a case 0x35 => 0x42 case 0x36 => 0x0a case 0x37 => 0xa0
    case 0x38 => 0xe8 case 0x39 => 0xe0 case 0x3a => 0xa8 case 0x3b => 0x02 case 0x3c => 0x48 case 0x3d => 0x40 case 0x3e => 0x08 case _ => 0xa2
  }

  function SboxEnc40(i: bv8): bv8 {
    match i
    case 0x40 => 0x3e case 0x41 => 0x36 case 0x42 => 0x7e case 0x43 => 0x14 case 0x44 => 0x5e case 0x45 => 0x56 case 0x46 => 0x1e case 0x47 => 0x74
    case 0x48 => 0x3c case 0x49 => 0x34 case 0x4a => 0x7c case 0x4b => 0x16 case 0x4c => 0x5c case 0x4d => 0x54 case 0x4e => 0x1c case _ => 0x76
  }

  function SboxEnc50(i: bv8): bv8 {
    match i
    case 0x50 => 0x6a case 0x51 => 0x62 case 0x52 => 0x2a case 0x53 => 0x80 case 0x54 => 0xca case 0x55 => 0xc2 case 0x56 => 0x8a case 0x57 => 0x20
    case 0x58 => 0x68 case 0x59 => 0x60 case 0x5a => 0x28 case 0x5b => 0x82 case 0x5c => 0xc8 case 0x5d => 0xc0 case 0x5e => 0x88 case _ => 0x22
  }

  function SboxEnc60(i: bv8): bv8 {
    match i
    case 0x60 => 0xee case 0x61 => 0xe6 case 0x62 => 0xae case 0x63 => 0x04 case 0x64 => 0x4e case 0x65 => 0x46 case 0x66 => 0x0e case 0x67 => 0xa4
    case 0x68 => 0xec case 0x69 => 0xe4 case 0x6a => 0xac case 0x6b => 0x06 case 0x6c => 0x4c case 0x6d => 0x44 case 0x6e => 0x0c case _ => 0xa6
  }

  function SboxEnc70(i: bv8): bv8 {
    match i
    case 0x70 => 0xe7 case 0x71 => 0xef case 0x72 => 0xa7 case 0x73 => 0x01 case 0x74 => 0x47 case 0x75 => 0x4f case 0x76 => 0x07 case 0x77 => 0xa1
    case 0x78 => 0xe9 case 0x79 => 0xe1 case 0x7a => 0xa9 case 0x7b => 0x0f case 0x7c => 0x49 case 0x7d => 0x41 case 0x7e => 0x09 case _ => 0xaf
  }

  function SboxEnc80(i: bv8): bv8 {
    match i
    case 0x80 => 0x63 case 0x81 => 0x6b case 0x82 => 0x23 case 0x83 => 0x85 case 0x84 => 0xc3 case 0x85 => 0xcb case 0x86 => 0x83 case 0x87 => 0x25
    case 0x88 => 0x6d case 0x89 => 0x65 case 0x8a => 0x2d case 0x8b => 0x8b case 0x8c => 0xcd case 0x8d => 0xc5 case 0x8e => 0x8d case _ => 0x2b
  }

  function SboxEnc90(i: bv8): bv8 {
    match i
    case 0x90 => 0x37 case 0x91 => 0x3f case 0x92 => 0x77 case 0x93 => 0x11 case 0x94 => 0x57 case 0x95 => 0x5f case 0x96 => 0x17 case 0x97 => 0x71
    case 0x98 => 0x39 case 0x99 => 0x31 case 0x9a => 0x79 case 0x9b => 0x1f case 0x9c => 0x59 case 0x9d => 0x51 case 0x9e => 0x19 case _ => 0x7f
  }

  function SboxEncA0(i: bv8): bv8 {
    match i
    case 0xa0 => 0xb3 case 0xa1 => 0xbb case 0xa2 => 0xf3 case 0xa3 => 0x95 case 0xa4 => 0xd3 case 0xa5 => 0xdb case 0xa6 => 0x93 case 0xa7 => 0xf5
    case 0xa8 => 0xbd case 0xa9 => 0xb5 case 0xaa => 0xfd case 0xab => 0x9b case 0xac => 0xdd case 0xad => 0xd5 case 0xae => 0x9d case _ => 0xfb
  }

  function SboxEncB0(i: bv8): bv8 {
    match i
    case 0xb0 => 0xba case 0xb1 => 0xb2 case 0xb2 => 0xfa case 0xb3 => 0x90 case 0xb4 => 0xda case 0xb5 => 0xd2 case 0xb6 => 0x9a case 0xb7 => 0xf0
    case 0xb8 => 0xb8 case 0xb9 => 0xb0 case 0xba => 0xf8 case 0xbb => 0x92 case 0xbc => 0xd8 case 0xbd => 0xd0 case 0xbe => 0x98 case _ => 0xf2
  }

  function SboxEncC0(i: bv8): bv8 {
    match i
    case 0xc0 => 0x6e case 0xc1 => 0x66 case 0xc2 => 0x2e case 0xc3 => 0x84 case 0xc4 => 0xce case 0xc5 => 0xc6 case 0xc6 => 0x8e case 0xc7 => 0x24
    case 0xc8 => 0x6c case 0xc9 => 0x64 case 0xca => 0x2c case 0xcb => 0x86 case 0xcc => 0xcc case 0xcd => 0xc4 case 0xce => 0x8c case _ => 0x26
  }

  function SboxEncD0(i: bv8): bv8 {
    match i
    case 0xd0 => 0x3a case 0xd1 => 0x32 case 0xd2 => 0x7a case 0xd3 => 0x10 case 0xd4 => 0x5a case 0xd5 => 0x52 case 0xd6 => 0x1a case 0xd7 => 0x70
    case 0xd8 => 0x38 case 0xd9 => 0x30 case 0xda => 0x78 case 0xdb => 0x12 case 0xdc => 0x58 case 0xdd => 0x50 case 0xde => 0x18 case _ => 0x72
  }

  function SboxEncE0(i: bv8): bv8 {
    match i
    case 0xe0 => 0xbe case 0xe1 => 0xb6 case 0xe2 => 0xfe case 0xe3 => 0x94 case 0xe4 => 0xde case 0xe5 => 0xd6 case 0xe6 => 0x9e case 0xe7 => 0xf4
    case 0xe8 => 0xbc case 0xe9 => 0xb4 case 0xea => 0xfc case 0xeb => 0x96 case 0xec => 0xdc case 0xed => 0xd4 case 0xee => 0x9c case _ => 0xf6
  }

  function SboxEncF0(i: bv8): bv8 {
    match i
    case 0xf0 => 0xb7 case 0xf1 => 0xbf case 0xf2 => 0xf7 case 0xf3 => 0x91 case 0xf4 => 0xd7 case 0xf5 => 0xdf case 0xf6 => 0x97 case 0xf7 => 0xf1
    case 0xf8 => 0xb9 case 0xf9 => 0xb1 case 0xfa => 0xf9 case 0xfb => 0x9f case 0xfc => 0xd9 case 0xfd => 0xd1 case 0xfe => 0x99 case _ => 0xff
  }

  /** reverse */
  function Reverse(i: bv8): bv8 {
    if i <= 0x0f then Reverse00(i)
    else if i <= 0x1f then Reverse10(i)
    else if i <= 0x2f then Reverse20(i)
    else if i <= 0x3f then Reverse30(i)
    else if i <= 0x4f then Reverse40(i)
    else if i <= 0x5f then Reverse50(i)
    else if i <= 0x6f then Reverse60(i)
    else if i <= 0x7f then Reverse70(i)
    else if i <= 0x8f then Reverse80(i)
    else if i <= 0x9f then Reverse90(i)
    else if i <= 0xaf then ReverseA0(i)
    else if i <= 0xbf then ReverseB0(i)
    else if i <= 0xcf then ReverseC0(i)
    else if i <= 0xdf then ReverseD0(i)
    else if i <= 0xef then ReverseE0(i)
    else ReverseF0(i)
  }

  function Reverse00(i: bv8): bv8 {
    match i
    case 0x00 => 0x00 case 0x01 => 0x80 case 0x02 => 0x40 case 0x03 => 0xc0 case 0x04 => 0x20 case 0x05 => 0xa0 case 0x06 => 0x60 case 0x07 => 0xe0
    case 0x08 => 0x10 case 0x09 => 0x90 case 0x0a => 0x50 case 0x0b => 0xd0 case 0x0c => 0x30 case 0x0d => 0xb0 case 0x0e => 0x70 case _ => 0xf0
  }

  function Reverse10(i: bv8): bv8 {
    match i
    case 0x10 => 0x08 case 0x11 => 0x88 case 0x12 => 0x48 case 0x13 => 0xc8 case 0x14 => 0x28 case 0x15 => 0xa8 case 0x16 => 0x68 case 0x17 => 0xe8
    case 0x18 => 0x18 case 0x19 => 0x98 case 0x1a => 0x58 case 0x1b => 0xd8 case 0x1c => 0x38 case 0x1d => 0xb8 case 0x1e => 0x78 case _ => 0xf8
  }

  function Reverse20(i: bv8): bv8 {
    match i
    case 0x20 => 0x04 case 0x21 => 0x84 case 0x22 => 0x44 case 0x23 => 0xc4 case 0x24 => 0x24 case 0x25 => 0xa4 case 0x26 => 0x64 case 0x27 => 0xe4
    case 0x28 => 0x14 case 0x29 => 0x94 case 0x2a => 0x54 case 0x2b => 0xd4 case 0x2c => 0x34 case 0x2d => 0xb4 case 0x2e => 0x74 case _ => 0xf4
  }

  function Reverse30(i: bv8): bv8 {
    match i
    case 0x30 => 0x0c case 0x31 => 0x8c case 0x32 => 0x4c case 0x33 => 0xcc case 0x34 => 0x2c case 0x35 => 0xac case 0x36 => 0x6c case 0x37 => 0xec
    case 0x38 => 0x1c case 0x39 => 0x9c case 0x3a => 0x5c case 0x3b => 0xdc case 0x3c => 0x3c case 0x3d => 0xbc case 0x3e => 0x7c case _ => 0xfc
  }

  function Reverse40(i: bv8): bv8 {
    match i
    case 0x40 => 0x02 case 0x41 => 0x82 case 0x42 => 0x42 case 0x43 => 0xc2 case 0x44 => 0x22 case 0x45 => 0xa2 case 0x46 => 0x62 case 0x47 => 0xe2
    case 0x48 => 0x12 case 0x49 => 0x92 case 0x4a => 0x52 case 0x4b => 0xd2 case 0x4c => 0x32 case 0x4d => 0xb2 case 0x4e => 0x72 case _ => 0xf2
  }

  function Reverse50(i: bv8): bv8 {
    match i
    case 0x50 => 0x0a case 0x51 => 0x8a case 0x52 => 0x4a case 0x53 => 0xca case 0x54 => 0x2a case 0x55 => 0xaa case 0x56 => 0x6a case 0x57 => 0xea
    case 0x58 => 0x1a case 0x59 => 0x9a case 0x5a => 0x5a case 0x5b => 0xda case 0x5c => 0x3a case 0x5d => 0xba case 0x5e => 0x7a case _ => 0xfa
  }

  function Reverse60(i: bv8): bv8 {
    match i
    case 0x60 => 0x06 case 0x61 => 0x86 case 0x62 => 0x46 case 0x63 => 0xc6 case 0x64 => 0x26 case 0x65 => 0xa6 case 0x66 => 0x66 case 0x67 => 0xe6
    case 0x68 => 0x16 case 0x69 => 0x96 case 0x6a => 0x56 case 0x6b => 0xd6 case 0x6c => 0x36 case 0x6d => 0xb6 case 0x6e => 0x76 case _ => 0xf6
  }

  function Reverse70(i: bv8): bv8 {
    match i
    case 0x70 => 0x0e case 0x71 => 0x8e case 0x72 => 0x4e case 0x73 => 0xce case 0x74 => 0x2e case 0x75 => 0xae case 0x76 => 0x6e case 0x77 => 0xee
    case 0x78 => 0x1e case 0x79 => 0x9e case 0x7a => 0x5e case 0x7b => 0xde case 0x7c => 0x3e case 0x7d => 0xbe case 0x7e => 0x7e case _ => 0xfe
  }

  function Reverse80(i: bv8): bv8 {
    match i
    case 0x80 => 0x01 case 0x81 => 0x81 case 0x82 => 0x41 case 0x83 => 0xc1 case 0x84 => 0x21 case 0x85 => 0xa1 case 0x86 => 0x61 case 0x87 => 0xe1
    case 0x88 => 0x11 case 0x89 => 0x91 case 0x8a => 0x51 case 0x8b => 0xd1 case 0x8c => 0x31 case 0x8d => 0xb1 case 0x8e => 0x71 case _ => 0xf1
  }

  function Reverse90(i: bv8): bv8 {
    match i
    case 0x90 => 0x09 case 0x91 => 0x89 case 0x92 => 0x49 case 0x93 => 0xc9 case 0x94 => 0x29 case 0x95 => 0xa9 case 0x96 => 0x69 case 0x97 => 0xe9
    case 0x98 => 0x19 case 0x99 => 0x99 case 0x9a => 0x59 case 0x9b => 0xd9 case 0x9c => 0x39 case 0x9d => 0xb9 case 0x9e => 0x79 case _ => 0xf9
  }

  function ReverseA0(i: bv8): bv8 {
    match i
    case 0xa0 => 0x05 case 0xa1 => 0x85 case 0xa2 => 0x45 case 0xa3 => 0xc5 case 0xa4 => 0x25 case 0xa5 => 0xa5 case 0xa6 => 0x65 case 0xa7 => 0xe5
    case 0xa8 => 0x15 case 0xa9 => 0x95 case 0xaa => 0x55 case 0xab => 0xd5 case 0xac => 0x35 case 0xad => 0xb5 case 0xae => 0x75 case _ => 0xf5
  }

  function ReverseB0(i: bv8): bv8 {
    match i
    case 0xb0 => 0x0d case 0xb1 => 0x8d case 0xb2 => 0x4d case 0xb3 => 0xcd case 0xb4 => 0x2d case 0xb5 => 0xad case 0xb6 => 0x6d case 0xb7 => 0xed
    case 0xb8 => 0x1d case 0xb9 => 0x9d case 0xba => 0x5d case 0xbb => 0xdd case 0xbc => 0x3d case 0xbd => 0xbd case 0xbe => 0x7d case _ => 0xfd
  }

  function ReverseC0(i: bv8): bv8 {
    match i
    case 0xc0 => 0x03 case 0xc1 => 0x83 case 0xc2 => 0x43 case 0xc3 => 0xc3 case 0xc4 => 0x23 case 0xc5 => 0xa3 case 0xc6 => 0x63 case 0xc7 => 0xe3
    case 0xc8 => 0x13 case 0xc9 => 0x93 case 0xca => 0x53 case 0xcb => 0xd3 case 0xcc => 0x33 case 0xcd => 0xb3 case 0xce => 0x73 case _ => 0xf3
  }

  function ReverseD0(i: bv8): bv8 {
    match i
    case 0xd0 => 0x0b case 0xd1 => 0x8b case 0xd2 => 0x4b case 0xd3 => 0xcb case 0xd4 => 0x2b case 0xd5 => 0xab case 0xd6 => 0x6b case 0xd7 => 0xeb
    case 0xd8 => 0x1b case 0xd9 => 0x9b case 0xda => 0x5b case 0xdb => 0xdb case 0xdc => 0x3b case 0xdd => 0xbb case 0xde => 0x7b case _ => 0xfb
  }

  function ReverseE0(i: bv8): bv8 {
    match i
    case 0xe0 => 0x07 case 0xe1 => 0x87 case 0xe2 => 0x47 case 0xe3 => 0xc7 case 0xe4 => 0x27 case 0xe5 => 0xa7 case 0xe6 => 0x67 case 0xe7 => 0xe7
    case 0xe8 => 0x17 case 0xe9 => 0x97 case 0xea => 0x57 case 0xeb => 0xd7 case 0xec => 0x37 case 0xed => 0xb7 case 0xee => 0x77 case _ => 0xf7
  }

  function ReverseF0(i: bv8): bv8 {
    match i
    case 0xf0 => 0x0f case 0xf1 => 0x8f case 0xf2 => 0x4f case 0xf3 => 0xcf case 0xf4 => 0x2f case 0xf5 => 0xaf case 0xf6 => 0x6f case 0xf7 => 0xef
    case 0xf8 => 0x1f case 0xf9 => 0x9f case 0xfa => 0x5f case 0xfb => 0xdf case 0xfc => 0x3f case 0xfd => 0xbf case 0xfe => 0x7f case _ => 0xff
  }

  /** The byte with its bits in the opposite order. */
  function ReversedBits(b: bv8): bv8 {
    (b << 7) | ((b & 0x02) << 5) | ((b & 0x04) << 3) | ((b & 0x08) << 1) |
    ((b & 0x10) >> 1) | ((b & 0x20) >> 3) | ((b & 0x40) >> 5) | (b >> 7)
  }

  /** The decryption S-box undoes the encryption S-box. */
  lemma DecOfEnc(i: bv8)
    ensures SboxDec(SboxEnc(i)) == i
  {
    hide SboxDec, SboxEnc;
    if i <= 0x0f { DecOfEnc00(i); }
    else if i <= 0x1f { DecOfEnc10(i); }
    else if i <= 0x2f { DecOfEnc20(i); }
    else if i <= 0x3f { DecOfEnc30(i); }
    else if i <= 0x4f { DecOfEnc40(i); }
    else if i <= 0x5f { DecOfEnc50(i); }
    else if i <= 0x6f { DecOfEnc60(i); }
    else if i <= 0x7f { DecOfEnc70(i); }
    else if i <= 0x8f { DecOfEnc80(i); }
    else if i <= 0x9f { DecOfEnc90(i); }
    else if i <= 0xaf { DecOfEncA0(i); }
    else if i <= 0xbf { DecOfEncB0(i); }
    else if i <= 0xcf { DecOfEncC0(i); }
    else if i <= 0xdf { DecOfEncD0(i); }
    else if i <= 0xef { DecOfEncE0(i); }
    else { DecOfEncF0(i); }
  }

  /** The table reverse is bit reversal. */
  lemma ReverseIsReversal(i: bv8)
    ensures Reverse(i) == ReversedBits(i)
  {
    hide Reverse, ReversedBits;
    if i <= 0x1f { ReverseIsReversal00(i); }
    else if i <= 0x3f { ReverseIsReversal20(i); }
    else if i <= 0x5f { ReverseIsReversal40(i); }
    else if i <= 0x7f { ReverseIsReversal60(i); }
    else if i <= 0x9f { ReverseIsReversal80(i); }
    else if i <= 0xbf { ReverseIsReversalA0(i); }
    else if i <= 0xdf { ReverseIsReversalC0(i); }
    else { ReverseIsReversalE0(i); }
  }

  lemma DecOfEnc00(i: bv8)
    requires 0x00 <= i <= 0x0f
    ensures SboxDec(SboxEnc(i)) == i
  {
    if i == 0x00 {} else if i == 0x01 {} else if i == 0x02 {} else if i == 0x03 {} else if i == 0x04 {} else if i == 0x05 {} else if i == 0x06 {} else if i == 0x07 {} else
    if i == 0x08 {} else if i == 0x09 {} else if i == 0x0a {} else if i == 0x0b {} else if i == 0x0c {} else if i == 0x0d {} else if i == 0x0e {} else if i == 0x0f {}
  }

  lemma DecOfEnc10(i: bv8)
    requires 0x10 <= i <= 0x1f
    ensures SboxDec(SboxEnc(i)) == i
  {
    if i == 0x10 {} else if i == 0x11 {} else if i == 0x12 {} else if i == 0x13 {} else if i == 0x14 {} else if i == 0x15 {} else if i == 0x16 {} else if i == 0x17 {} else
    if i == 0x18 {} else if i == 0x19 {} else if i == 0x1a {} else if i == 0x1b {} else if i == 0x1c {} else if i == 0x1d {} else if i == 0x1e {} else if i == 0x1f {}
  }

  lemma DecOfEnc20(i: bv8)
    requires 0x20 <= i <= 0x2f
    ensures SboxDec(SboxEnc(i)) == i
  {
    if i == 0x20 {} else if i == 0x21 {} else if i == 0x22 {} else if i == 0x23 {} else if i == 0x24 {} else if i == 0x25 {} else if i == 0x26 {} else if i == 0x27 {} else
    if i == 0x28 {} else if i == 0x29 {} else if i == 0x2a {} else if i == 0x2b {} else if i == 0x2c {} else if i == 0x2d {} else if i == 0x2e {} else if i == 0x2f {}
  }

  lemma DecOfEnc30(i: bv8)
    requires 0x30 <= i <= 0x3f
    ensures SboxDec(SboxEnc(i)) == i
  {
    if i == 0x30 {} else if i == 0x31 {} else if i == 0x32 {} else if i == 0x33 {} else if i == 0x34 {} else if i == 0x35 {} else if i == 0x36 {} else if i == 0x37 {} else
    if i == 0x38 {} else if i == 0x39 {} else if i == 0x3a {} else if i == 0x3b {} else if i == 0x3c {} else if i == 0x3d {} else if i == 0x3e {} else if i == 0x3f {}
  }

  lemma DecOfEnc40(i: bv8)
    requires 0x40 <= i <= 0x4f
    ensures SboxDec(SboxEnc(i)) == i
  {
    if i == 0x40 {} else if i == 0x41 {} else if i == 0x42 {} else if i == 0x43 {} else if i == 0x44 {} else if i == 0x45 {} else if i == 0x46 {} else if i == 0x47 {} else
    if i == 0x48 {} else if i == 0x49 {} else if i == 0x4a {} else if i == 0x4b {} else if i == 0x4c {} else if i == 0x4d {} else if i == 0x4e {} else if i == 0x4f {}
  }

  lemma DecOfEnc50(i: bv8)
    requires 0x50 <= i <= 0x5f
    ensures SboxDec(SboxEnc(i)) == i
  {
    if i == 0x50 {} else if i == 0x51 {} else if i == 0x52 {} else if i == 0x53 {} else if i == 0x54 {} else if i == 0x55 {} else if i == 0x56 {} else if i == 0x57 {} else
    if i == 0x58 {} else if i == 0x59 {} else if i == 0x5a {} else if i == 0x5b {} else if i == 0x5c {} else if i == 0x5d {} else if i == 0x5e {} else if i == 0x5f {}
  }

  lemma DecOfEnc60(i: bv8)
    requires 0x60 <= i <= 0x6f
    ensures SboxDec(SboxEnc(i)) == i
  {
    if i == 0x60 {} else if i == 0x61 {} else if i == 0x62 {} else if i == 0x63 {} else if i == 0x64 {} else if i == 0x65 {} else if i == 0x66 {} else if i == 0x67 {} else
    if i == 0x68 {} else if i == 0x69 {} else if i == 0x6a {} else if i == 0x6b {} else if i == 0x6c {} else if i == 0x6d {} else if i == 0x6e {} else if i == 0x6f {}
  }

  lemma DecOfEnc70(i: bv8)
    requires 0x70 <= i <= 0x7f
    ensures SboxDec(SboxEnc(i)) == i
  {
    if i == 0x70 {} else if i == 0x71 {} else if i == 0x72 {} else if i == 0x73 {} else if i == 0x74 {} else if i == 0x75 {} else if i == 0x76 {} else if i == 0x77 {} else
    if i == 0x78 {} else if i == 0x79 {} else if i == 0x7a {} else if i == 0x7b {} else if i == 0x7c {} else if i == 0x7d {} else if i == 0x7e {} else if i == 0x7f {}
  }

  lemma DecOfEnc80(i: bv8)
    requires 0x80 <= i <= 0x8f
    ensures SboxDec(SboxEnc(i)) == i
  {
    if i == 0x80 {} else if i == 0x81 {} else if i == 0x82 {} else if i == 0x83 {} else if i == 0x84 {} else if i == 0x85 {} else if i == 0x86 {} else if i == 0x87 {} else
    if i == 0x88 {} else if i == 0x89 {} else if i == 0x8a {} else if i == 0x8b {} else if i == 0x8c {} else if i == 0x8d {} else if i == 0x8e {} else if i == 0x8f {}
  }

  lemma DecOfEnc90(i: bv8)
    requires 0x90 <= i <= 0x9f
    ensures SboxDec(SboxEnc(i)) == i
  {
    if i == 0x90 {} else if i == 0x91 {} else if i == 0x92 {} else if i == 0x93 {} else if i == 0x94 {} else if i == 0x95 {} else if i == 0x96 {} else if i == 0x97 {} else
    if i == 0x98 {} else if i == 0x99 {} else if i == 0x9a {} else if i == 0x9b {} else if i == 0x9c {} else if i == 0x9d {} else if i == 0x9e {} else if i == 0x9f {}
  }

  lemma DecOfEncA0(i: bv8)
    requires 0xa0 <= i <= 0xaf
    ensures SboxDec(SboxEnc(i)) == i
  {
    if i == 0xa0 {} else if i == 0xa1 {} else if i == 0xa2 {} else if i == 0xa3 {} else if i == 0xa4 {} else if i == 0xa5 {} else if i == 0xa6 {} else if i == 0xa7 {} else
    if i == 0xa8 {} else if i == 0xa9 {} else if i == 0xaa {} else if i == 0xab {} else if i == 0xac {} else if i == 0xad {} else if i == 0xae {} else if i == 0xaf {}
  }

  lemma DecOfEncB0(i: bv8)
    requires 0xb0 <= i <= 0xbf
    ensures SboxDec(SboxEnc(i)) == i
  {
    if i == 0xb0 {} else if i == 0xb1 {} else if i == 0xb2 {} else if i == 0xb3 {} else if i == 0xb4 {} else if i == 0xb5 {} else if i == 0xb6 {} else if i == 0xb7 {} else
    if i == 0xb8 {} else if i == 0xb9 {} else if i == 0xba {} else if i == 0xbb {} else if i == 0xbc {} else if i == 0xbd {} else if i == 0xbe {} else if i == 0xbf {}
  }

  lemma DecOfEncC0(i: bv8)
    requires 0xc0 <= i <= 0xcf
    ensures SboxDec(SboxEnc(i)) == i
  {
    if i == 0xc0 {} else if i == 0xc1 {} else if i == 0xc2 {} else if i == 0xc3 {} else if i == 0xc4 {} else if i == 0xc5 {} else if i == 0xc6 {} else if i == 0xc7 {} else
    if i == 0xc8 {} else if i == 0xc9 {} else if i == 0xca {} else if i == 0xcb {} else if i == 0xcc {} else if i == 0xcd {} else if i == 0xce {} else if i == 0xcf {}
  }

  lemma DecOfEncD0(i: bv8)
    requires 0xd0 <= i <= 0xdf
    ensures SboxDec(SboxEnc(i)) == i
  {
    if i == 0xd0 {} else if i == 0xd1 {} else if i == 0xd2 {} else if i == 0xd3 {} else if i == 0xd4 {} else if i == 0xd5 {} else if i == 0xd6 {} else if i == 0xd7 {} else
    if i == 0xd8 {} else if i == 0xd9 {} else if i == 0xda {} else if i == 0xdb {} else if i == 0xdc {} else if i == 0xdd {} else if i == 0xde {} else if i == 0xdf {}
  }

  lemma DecOfEncE0(i: bv8)
    requires 0xe0 <= i <= 0xef
    ensures SboxDec(SboxEnc(i)) == i
  {
    if i == 0xe0 {} else if i == 0xe1 {} else if i == 0xe2 {} else if i == 0xe3 {} else if i == 0xe4 {} else if i == 0xe5 {} else if i == 0xe6 {} else if i == 0xe7 {} else
    if i == 0xe8 {} else if i == 0xe9 {} else if i == 0xea {} else if i == 0xeb {} else if i == 0xec {} else if i == 0xed {} else if i == 0xee {} else if i == 0xef {}
  }

  lemma DecOfEncF0(i: bv8)
    requires 0xf0 <= i <= 0xff
    ensures SboxDec(SboxEnc(i)) == i
  {
    if i == 0xf0 {} else if i == 0xf1 {} else if i == 0xf2 {} else if i == 0xf3 {} else if i == 0xf4 {} else if i == 0xf5 {} else if i == 0xf6 {} else if i == 0xf7 {} else
    if i == 0xf8 {} else if i == 0xf9 {} else if i == 0xfa {} else if i == 0xfb {} else if i == 0xfc {} else if i == 0xfd {} else if i == 0xfe {} else if i == 0xff {}
  }

  lemma ReverseIsReversal00(i: bv8)
    requires 0x00 <= i <= 0x1f
    ensures Reverse(i) == ReversedBits(i)
  {
    if i == 0x00 {} else if i == 0x01 {} else if i == 0x02 {} else if i == 0x03 {} else if i == 0x04 {} else if i == 0x05 {} else if i == 0x06 {} else if i == 0x07 {} else
    if i == 0x08 {} else if i == 0x09 {} else if i == 0x0a {} else if i == 0x0b {} else if i == 0x0c {} else if i == 0x0d {} else if i == 0x0e {} else if i == 0x0f {} else
    if i == 0x10 {} else if i == 0x11 {} else if i == 0x12 {} else if i == 0x13 {} else if i == 0x14 {} else if i == 0x15 {} else if i == 0x16 {} else if i == 0x17 {} else
    if i == 0x18 {} else if i == 0x19 {} else if i == 0x1a {} else if i == 0x1b {} else if i == 0x1c {} else if i == 0x1d {} else if i == 0x1e {} else if i == 0x1f {}
  }

  lemma ReverseIsReversal20(i: bv8)
    requires 0x20 <= i <= 0x3f
    ensures Reverse(i) == ReversedBits(i)
  {
    if i == 0x20 {} else if i == 0x21 {} else if i == 0x22 {} else if i == 0x23 {} else if i == 0x24 {} else if i == 0x25 {} else if i == 0x26 {} else if i == 0x27 {} else
    if i == 0x28 {} else if i == 0x29 {} else if i == 0x2a {} else if i == 0x2b {} else if i == 0x2c {} else if i == 0x2d {} else if i == 0x2e {} else if i == 0x2f {} else
    if i == 0x30 {} else if i == 0x31 {} else if i == 0x32 {} else if i == 0x33 {} else if i == 0x34 {} else if i == 0x35 {} else if i == 0x36 {} else if i == 0x37 {} else
    if i == 0x38 {} else if i == 0x39 {} else if i == 0x3a {} else if i == 0x3b {} else if i == 0x3c {} else if i == 0x3d {} else if i == 0x3e {} else if i == 0x3f {}
  }

  lemma ReverseIsReversal40(i: bv8)
    requires 0x40 <= i <= 0x5f
    ensures Reverse(i) == ReversedBits(i)
  {
    if i == 0x40 {} else if i == 0x41 {} else if i == 0x42 {} else if i == 0x43 {} else if i == 0x44 {} else if i == 0x45 {} else if i == 0x46 {} else if i == 0x47 {} else
    if i == 0x48 {} else if i == 0x49 {} else if i == 0x4a {} else if i == 0x4b {} else if i == 0x4c {} else if i == 0x4d {} else if i == 0x4e {} else if i == 0x4f {} else
    if i == 0x50 {} else if i == 0x51 {} else if i == 0x52 {} else if i == 0x53 {} else if i == 0x54 {} else if i == 0x55 {} else if i == 0x56 {} else if i == 0x57 {} else
    if i == 0x58 {} else if i == 0x59 {} else if i == 0x5a {} else if i == 0x5b {} else if i == 0x5c {} else if i == 0x5d {} else if i == 0x5e {} else if i == 0x5f {}
  }

  lemma ReverseIsReversal60(i: bv8)
    requires 0x60 <= i <= 0x7f
    ensures Reverse(i) == ReversedBits(i)
  {
    if i == 0x60 {} else if i == 0x61 {} else if i == 0x62 {} else if i == 0x63 {} else if i == 0x64 {} else if i == 0x65 {} else if i == 0x66 {} else if i == 0x67 {} else
    if i == 0x68 {} else if i == 0x69 {} else if i == 0x6a {} else if i == 0x6b {} else if i == 0x6c {} else if i == 0x6d {} else if i == 0x6e {} else if i == 0x6f {} else
    if i == 0x70 {} else if i == 0x71 {} else if i == 0x72 {} else if i == 0x73 {} else if i == 0x74 {} else if i == 0x75 {} else if i == 0x76 {} else if i == 0x77 {} else
    if i == 0x78 {} else if i == 0x79 {} else if i == 0x7a {} else if i == 0x7b {} else if i == 0x7c {} else if i == 0x7d {} else if i == 0x7e {} else if i == 0x7f {}
  }

  lemma ReverseIsReversal80(i: bv8)
    requires 0x80 <= i <= 0x9f
    ensures Reverse(i) == ReversedBits(i)
  {
    if i == 0x80 {} else if i == 0x81 {} else if i == 0x82 {} else if i == 0x83 {} else if i == 0x84 {} else if i == 0x85 {} else if i == 0x86 {} else if i == 0x87 {} else
    if i == 0x88 {} else if i == 0x89 {} else if i == 0x8a {} else if i == 0x8b {} else if i == 0x8c {} else if i == 0x8d {} else if i == 0x8e {} else if i == 0x8f {} else
    if i == 0x90 {} else if i == 0x91 {} else if i == 0x92 {} else if i == 0x93 {} else if i == 0x94 {} else if i == 0x95 {} else if i == 0x96 {} else if i == 0x97 {} else
    if i == 0x98 {} else if i == 0x99 {} else if i == 0x9a {} else if i == 0x9b {} else if i == 0x9c {} else if i == 0x9d {} else if i == 0x9e {} else if i == 0x9f {}
  }

  lemma ReverseIsReversalA0(i: bv8)
    requires 0xa0 <= i <= 0xbf
    ensures Reverse(i) == ReversedBits(i)
  {
    if i == 0xa0 {} else if i == 0xa1 {} else if i == 0xa2 {} else if i == 0xa3 {} else if i == 0xa4 {} else if i == 0xa5 {} else if i == 0xa6 {} else if i == 0xa7 {} else
    if i == 0xa8 {} else if i == 0xa9 {} else if i == 0xaa {} else if i == 0xab {} else if i == 0xac {} else if i == 0xad {} else if i == 0xae {} else if i == 0xaf {} else
    if i == 0xb0 {} else if i == 0xb1 {} else if i == 0xb2 {} else if i == 0xb3 {} else if i == 0xb4 {} else if i == 0xb5 {} else if i == 0xb6 {} else if i == 0xb7 {} else
    if i == 0xb8 {} else if i == 0xb9 {} else if i == 0xba {} else if i == 0xbb {} else if i == 0xbc {} else if i == 0xbd {} else if i == 0xbe {} else if i == 0xbf {}
  }

  lemma ReverseIsReversalC0(i: bv8)
    requires 0xc0 <= i <= 0xdf
    ensures Reverse(i) == ReversedBits(i)
  {
    if i == 0xc0 {} else if i == 0xc1 {} else if i == 0xc2 {} else if i == 0xc3 {} else if i == 0xc4 {} else if i == 0xc5 {} else if i == 0xc6 {} else if i == 0xc7 {} else
    if i == 0xc8 {} else if i == 0xc9 {} else if i == 0xca {} else if i == 0xcb {} else if i == 0xcc {} else if i == 0xcd {} else if i == 0xce {} else if i == 0xcf {} else
    if i == 0xd0 {} else if i == 0xd1 {} else if i == 0xd2 {} else if i == 0xd3 {} else if i == 0xd4 {} else if i == 0xd5 {} else if i == 0xd6 {} else if i == 0xd7 {} else
    if i == 0xd8 {} else if i == 0xd9 {} else if i == 0xda {} else if i == 0xdb {} else if i == 0xdc {} else if i == 0xdd {} else if i == 0xde {} else if i == 0xdf {}
  }

  lemma ReverseIsReversalE0(i: bv8)
    requires 0xe0 <= i <= 0xff
    ensures Reverse(i) == ReversedBits(i)
  {
    if i == 0xe0 {} else if i == 0xe1 {} else if i == 0xe2 {} else if i == 0xe3 {} else if i == 0xe4 {} else if i == 0xe5 {} else if i == 0xe6 {} else if i == 0xe7 {} else
    if i == 0xe8 {} else if i == 0xe9 {} else if i == 0xea {} else if i == 0xeb {} else if i == 0xec {} else if i == 0xed {} else if i == 0xee {} else if i == 0xef {} else
    if i == 0xf0 {} else if i == 0xf1 {} else if i == 0xf2 {} else if i == 0xf3 {} else if i == 0xf4 {} else if i == 0xf5 {} else if i == 0xf6 {} else if i == 0xf7 {} else
    if i == 0xf8 {} else if i == 0xf9 {} else if i == 0xfa {} else if i == 0xfb {} else if i == 0xfc {} else if i == 0xfd {} else if i == 0xfe {} else if i == 0xff {}
  }
}
