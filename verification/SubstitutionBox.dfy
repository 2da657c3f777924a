// The AES substitution table and its inverse (decompiler/src/aes.c:6-39).
//
// Each table row of sixteen bytes is one 128-bit literal, first byte on the left.

module SubstitutionBox {

  // Sixteen entries of SBOX: those whose index has high nibble `hi`.
  function SBoxRow(hi: bv8): bv128 {
    match hi
    case 0x0 => 0x637c777b_f26b6fc5_3001672b_fed7ab76
    case 0x1 => 0xca82c97d_fa5947f0_add4a2af_9ca472c0
    case 0x2 => 0xb7fd9326_363ff7cc_34a5e5f1_71d83115
    case 0x3 => 0x04c723c3_1896059a_071280e2_eb27b275
    case 0x4 => 0x09832c1a_1b6e5aa0_523bd6b3_29e32f84
    case 0x5 => 0x53d100ed_20fcb15b_6acbbe39_4a4c58cf
    case 0x6 => 0xd0efaafb_434d3385_45f9027f_503c9fa8
    case 0x7 => 0x51a3408f_929d38f5_bcb6da21_10fff3d2
    case 0x8 => 0xcd0c13ec_5f974417_c4a77e3d_645d1973
    case 0x9 => 0x60814fdc_222a9088_46eeb814_de5e0bdb
    case 0xa => 0xe0323a0a_4906245c_c2d3ac62_9195e479
    case 0xb => 0xe7c8376d_8dd54ea9_6c56f4ea_657aae08
    case 0xc => 0xba78252e_1ca6b4c6_e8dd741f_4bbd8b8a
    case 0xd => 0x703eb566_4803f60e_613557b9_86c11d9e
    case 0xe => 0xe1f89811_69d98e94_9b1e87e9_ce5528df
    case _ => 0x8ca1890d_bfe64268_41992d0f_b054bb16
  }

  function SBox(x: bv8): bv8 {
    ((SBoxRow(x >> 4) >> (8 * (15 - (x & 0xf)))) & 0xff) as bv8
  }

  // Sixteen entries of INV_SBOX: those whose index has high nibble `hi`.
  function InvSBoxRow(hi: bv8): bv128 {
    match hi
    case 0x0 => 0x52096ad5_3036a538_bf40a39e_81f3d7fb
    case 0x1 => 0x7ce33982_9b2fff87_348e4344_c4dee9cb
    case 0x2 => 0x547b9432_a6c2233d_ee4c950b_42fac34e
    case 0x3 => 0x082ea166_28d924b2_765ba249_6d8bd125
    case 0x4 => 0x72f8f664_86689816_d4a45ccc_5d65b692
    case 0x5 => 0x6c704850_fdedb9da_5e154657_a78d9d84
    case 0x6 => 0x90d8ab00_8cbcd30a_f7e45805_b8b34506
    case 0x7 => 0xd02c1e8f_ca3f0f02_c1afbd03_01138a6b
    case 0x8 => 0x3a911141_4f67dcea_97f2cfce_f0b4e673
    case 0x9 => 0x96ac7422_e7ad3585_e2f937e8_1c75df6e
    case 0xa => 0x47f11a71_1d29c589_6fb7620e_aa18be1b
    case 0xb => 0xfc563e4b_c6d27920_9adbc0fe_78cd5af4
    case 0xc => 0x1fdda833_8807c731_b1121059_2780ec5f
    case 0xd => 0x60517fa9_19b54a0d_2de57a9f_93c99cef
    case 0xe => 0xa0e03b4d_ae2af5b0_c8ebbb3c_83539961
    case _ => 0x172b047e_ba77d626_e1691463_55210c7d
  }

  function InvSBox(x: bv8): bv8 {
    ((InvSBoxRow(x >> 4) >> (8 * (15 - (x & 0xf)))) & 0xff) as bv8
  }

  lemma LeftInverseQuarter0(x: bv8)
    requires x >> 6 == 0
    ensures InvSBox(SBox(x)) == x
  {
  }

  lemma LeftInverseQuarter1(x: bv8)
    requires x >> 6 == 1
    ensures InvSBox(SBox(x)) == x
  {
  }

  lemma LeftInverseQuarter2(x: bv8)
    requires x >> 6 == 2
    ensures InvSBox(SBox(x)) == x
  {
  }

  lemma LeftInverseQuarter3(x: bv8)
    requires x >> 6 == 3
    ensures InvSBox(SBox(x)) == x
  {
  }

  lemma LeftInverse(x: bv8)
    ensures InvSBox(SBox(x)) == x
  {
    hide SBox, InvSBox;
    match x >> 6
    case 0 => LeftInverseQuarter0(x);
    case 1 => LeftInverseQuarter1(x);
    case 2 => LeftInverseQuarter2(x);
    case _ => LeftInverseQuarter3(x);
  }

  lemma RightInverseQuarter0(x: bv8)
    requires x >> 6 == 0
    ensures SBox(InvSBox(x)) == x
  {
  }

  lemma RightInverseQuarter1(x: bv8)
    requires x >> 6 == 1
    ensures SBox(InvSBox(x)) == x
  {
  }

  lemma RightInverseQuarter2(x: bv8)
    requires x >> 6 == 2
    ensures SBox(InvSBox(x)) == x
  {
  }

  lemma RightInverseQuarter3(x: bv8)
    requires x >> 6 == 3
    ensures SBox(InvSBox(x)) == x
  {
  }

  lemma RightInverse(x: bv8)
    ensures SBox(InvSBox(x)) == x
  {
    hide SBox, InvSBox;
    match x >> 6
    case 0 => RightInverseQuarter0(x);
    case 1 => RightInverseQuarter1(x);
    case 2 => RightInverseQuarter2(x);
    case _ => RightInverseQuarter3(x);
  }
}
