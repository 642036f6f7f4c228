/** The substitution tables of src/aes.cc. */
module SBoxes {
  import opened Gf256

  // The two tables, sixteen entries to a row, most significant byte first.

  function SBoxRow(hi: bv8): bv128 {
    if hi == 0x0 then 0x637c777b_f26b6fc5_3001672b_fed7ab76 else
    if hi == 0x1 then 0xca82c97d_fa5947f0_add4a2af_9ca472c0 else
    if hi == 0x2 then 0xb7fd9326_363ff7cc_34a5e5f1_71d83115 else
    if hi == 0x3 then 0x04c723c3_1896059a_071280e2_eb27b275 else
    if hi == 0x4 then 0x09832c1a_1b6e5aa0_523bd6b3_29e32f84 else
    if hi == 0x5 then 0x53d100ed_20fcb15b_6acbbe39_4a4c58cf else
    if hi == 0x6 then 0xd0efaafb_434d3385_45f9027f_503c9fa8 else
    if hi == 0x7 then 0x51a3408f_929d38f5_bcb6da21_10fff3d2 else
    if hi == 0x8 then 0xcd0c13ec_5f974417_c4a77e3d_645d1973 else
    if hi == 0x9 then 0x60814fdc_222a9088_46eeb814_de5e0bdb else
    if hi == 0xa then 0xe0323a0a_4906245c_c2d3ac62_9195e479 else
    if hi == 0xb then 0xe7c8376d_8dd54ea9_6c56f4ea_657aae08 else
    if hi == 0xc then 0xba78252e_1ca6b4c6_e8dd741f_4bbd8b8a else
    if hi == 0xd then 0x703eb566_4803f60e_613557b9_86c11d9e else
    if hi == 0xe then 0xe1f89811_69d98e94_9b1e87e9_ce5528df else
    0x8ca1890d_bfe64268_41992d0f_b054bb16
  }

  function InvSBoxRow(hi: bv8): bv128 {
    if hi == 0x0 then 0x52096ad5_3036a538_bf40a39e_81f3d7fb else
    if hi == 0x1 then 0x7ce33982_9b2fff87_348e4344_c4dee9cb else
    if hi == 0x2 then 0x547b9432_a6c2233d_ee4c950b_42fac34e else
    if hi == 0x3 then 0x082ea166_28d924b2_765ba249_6d8bd125 else
    if hi == 0x4 then 0x72f8f664_86689816_d4a45ccc_5d65b692 else
    if hi == 0x5 then 0x6c704850_fdedb9da_5e154657_a78d9d84 else
    if hi == 0x6 then 0x90d8ab00_8cbcd30a_f7e45805_b8b34506 else
    if hi == 0x7 then 0xd02c1e8f_ca3f0f02_c1afbd03_01138a6b else
    if hi == 0x8 then 0x3a911141_4f67dcea_97f2cfce_f0b4e673 else
    if hi == 0x9 then 0x96ac7422_e7ad3585_e2f937e8_1c75df6e else
    if hi == 0xa then 0x47f11a71_1d29c589_6fb7620e_aa18be1b else
    if hi == 0xb then 0xfc563e4b_c6d27920_9adbc0fe_78cd5af4 else
    if hi == 0xc then 0x1fdda833_8807c731_b1121059_2780ec5f else
    if hi == 0xd then 0x60517fa9_19b54a0d_2de57a9f_93c99cef else
    if hi == 0xe then 0xa0e03b4d_ae2af5b0_c8ebbb3c_83539961 else
    0x172b047e_ba77d626_e1691463_55210c7d
  }

  function Entry(row: bv128, lo: bv8): bv8
    requires lo < 16
  {
    ((row >> ((15 - lo) << 3)) & 0xff) as bv8
  }

  function SBox(x: bv8): bv8 {
    Entry(SBoxRow(x >> 4), x & 0xf)
  }

  function InvSBox(x: bv8): bv8 {
    Entry(InvSBoxRow(x >> 4), x & 0xf)
  }

  lemma InvSBoxOfSBoxLow(x: bv8)
    requires x < 0x80
    ensures InvSBox(SBox(x)) == x
  {
  }

  lemma InvSBoxOfSBoxHigh(x: bv8)
    requires 0x80 <= x
    ensures InvSBox(SBox(x)) == x
  {
  }

  lemma InvSBoxOfSBox(x: bv8)
    ensures InvSBox(SBox(x)) == x
  {
    if x < 0x80 { InvSBoxOfSBoxLow(x); } else { InvSBoxOfSBoxHigh(x); }
  }

  lemma SBoxOfInvSBoxLow(x: bv8)
    requires x < 0x80
    ensures SBox(InvSBox(x)) == x
  {
  }

  lemma SBoxOfInvSBoxHigh(x: bv8)
    requires 0x80 <= x
    ensures SBox(InvSBox(x)) == x
  {
  }

  lemma SBoxOfInvSBox(x: bv8)
    ensures SBox(InvSBox(x)) == x
  {
    if x < 0x80 { SBoxOfInvSBoxLow(x); } else { SBoxOfInvSBoxHigh(x); }
  }

  /** The affine map of section 5.1.1 of FIPS 197. */
  function Affine(y: bv8): bv8 {
    y ^ y.RotateLeft(1) ^ y.RotateLeft(2) ^ y.RotateLeft(3) ^ y.RotateLeft(4) ^ 0x63
  }

  function InvAffine(z: bv8): bv8 {
    z.RotateLeft(1) ^ z.RotateLeft(3) ^ z.RotateLeft(6) ^ 0x05
  }

  lemma AffineInverse(y: bv8)
    ensures Affine(InvAffine(y)) == y
    ensures InvAffine(Affine(y)) == y
  {
  }

  lemma SBoxIsInverseLow(x: bv8)
    requires 0 < x < 0x80
    ensures GfMul(x, InvAffine(SBox(x))) == 1
  {
  }

  lemma SBoxIsInverseHigh(x: bv8)
    requires 0x80 <= x
    ensures GfMul(x, InvAffine(SBox(x))) == 1
  {
  }

  /** The table is what section 5.1.1 of FIPS 197 says it is: the affine map of the multiplicative
      inverse, with {00} taken as its own inverse. */
  lemma SBoxIsAffineOfInverse(x: bv8) returns (y: bv8)
    ensures SBox(x) == Affine(y)
    ensures if x == 0 then y == 0 else GfMul(x, y) == 1
  {
    y := InvAffine(SBox(x));
    AffineInverse(SBox(x));
    if x == 0 {
      assert SBox(0) == 0x63;
    } else if x < 0x80 {
      SBoxIsInverseLow(x);
    } else {
      SBoxIsInverseHigh(x);
    }
  }
}
