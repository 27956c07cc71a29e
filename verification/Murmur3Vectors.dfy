/** The vectors of tests/dht/murmur_hash_test.cc for the 128-bit hash and its inverse, step by step. */
module Murmur3Vectors {
  import opened Bytes
  import opened Words
  import opened ByteWords
  import opened WordArithmetic
  import opened Murmur3
  import opened Murmur3Inverse

  lemma Xor1()
    ensures Xor(0xfae, 0xfea8_b052_d401_610d) == 0xfea8_b052_d401_6ea3
  {
    XorZeroes();
    hide Xor;
    XorOfQuad(0, H0, H0, H0, H0, 0, HF, HE, HA, H8);
    assert Xor(0x0, 0xfea8) == 0xfea8;
    XorOfQuad(0, H0, H0, H0, H0, 0xfea8, HB, H0, H5, H2);
    assert Xor(0x0, 0xfea8_b052) == 0xfea8_b052;
    XorOfQuad(0, H0, H0, H0, H0, 0xfea8_b052, HD, H4, H0, H1);
    assert Xor(0x0, 0xfea8_b052_d401) == 0xfea8_b052_d401;
    XorOfQuad(0, H0, HF, HA, HE, 0xfea8_b052_d401, H6, H1, H0, HD);
  }

  lemma Xor2()
    ensures Xor(0xfae, 0xff1e_f10b_de2b_a392) == 0xff1e_f10b_de2b_ac3c
  {
    XorZeroes();
    hide Xor;
    XorOfQuad(0, H0, H0, H0, H0, 0, HF, HF, H1, HE);
    assert Xor(0x0, 0xff1e) == 0xff1e;
    XorOfQuad(0, H0, H0, H0, H0, 0xff1e, HF, H1, H0, HB);
    assert Xor(0x0, 0xff1e_f10b) == 0xff1e_f10b;
    XorOfQuad(0, H0, H0, H0, H0, 0xff1e_f10b, HD, HE, H2, HB);
    assert Xor(0x0, 0xff1e_f10b_de2b) == 0xff1e_f10b_de2b;
    XorOfQuad(0, H0, HF, HA, HE, 0xff1e_f10b_de2b, HA, H3, H9, H2);
  }

  lemma Xor3()
    ensures Xor(0xfea8_b052_d401_6ea3, 0xf) == 0xfea8_b052_d401_6eac
  {
    XorZeroes();
    hide Xor;
    XorOfQuad(0, HF, HE, HA, H8, 0, H0, H0, H0, H0);
    assert Xor(0xfea8, 0x0) == 0xfea8;
    XorOfQuad(0xfea8, HB, H0, H5, H2, 0, H0, H0, H0, H0);
    assert Xor(0xfea8_b052, 0x0) == 0xfea8_b052;
    XorOfQuad(0xfea8_b052, HD, H4, H0, H1, 0, H0, H0, H0, H0);
    assert Xor(0xfea8_b052_d401, 0x0) == 0xfea8_b052_d401;
    XorOfQuad(0xfea8_b052_d401, H6, HE, HA, H3, 0, H0, H0, H0, HF);
  }

  lemma Xor4()
    ensures Xor(0xff1e_f10b_de2b_ac3c, 0xf) == 0xff1e_f10b_de2b_ac33
  {
    XorZeroes();
    hide Xor;
    XorOfQuad(0, HF, HF, H1, HE, 0, H0, H0, H0, H0);
    assert Xor(0xff1e, 0x0) == 0xff1e;
    XorOfQuad(0xff1e, HF, H1, H0, HB, 0, H0, H0, H0, H0);
    assert Xor(0xff1e_f10b, 0x0) == 0xff1e_f10b;
    XorOfQuad(0xff1e_f10b, HD, HE, H2, HB, 0, H0, H0, H0, H0);
    assert Xor(0xff1e_f10b_de2b, 0x0) == 0xff1e_f10b_de2b;
    XorOfQuad(0xff1e_f10b_de2b, HA, HC, H3, HC, 0, H0, H0, H0, HF);
  }

  lemma Xor5()
    ensures Xor(0xfdc7_a15e_b22d_1adf, 0x7ee3_d0af) == 0xfdc7_a15e_ccce_ca70
  {
    XorZeroes();
    hide Xor;
    XorOfQuad(0, HF, HD, HC, H7, 0, H0, H0, H0, H0);
    assert Xor(0xfdc7, 0x0) == 0xfdc7;
    XorOfQuad(0xfdc7, HA, H1, H5, HE, 0, H0, H0, H0, H0);
    assert Xor(0xfdc7_a15e, 0x0) == 0xfdc7_a15e;
    XorOfQuad(0xfdc7_a15e, HB, H2, H2, HD, 0, H7, HE, HE, H3);
    assert Xor(0xfdc7_a15e_b22d, 0x7ee3) == 0xfdc7_a15e_ccce;
    XorOfQuad(0xfdc7_a15e_b22d, H1, HA, HD, HF, 0x7ee3, HD, H0, HA, HF);
  }

  lemma Xor6()
    ensures Xor(0xb8b0_170d_ff7d_5bb0, 0x5c58_0b86) == 0xb8b0_170d_a325_5036
  {
    XorZeroes();
    hide Xor;
    XorOfQuad(0, HB, H8, HB, H0, 0, H0, H0, H0, H0);
    assert Xor(0xb8b0, 0x0) == 0xb8b0;
    XorOfQuad(0xb8b0, H1, H7, H0, HD, 0, H0, H0, H0, H0);
    assert Xor(0xb8b0_170d, 0x0) == 0xb8b0_170d;
    XorOfQuad(0xb8b0_170d, HF, HF, H7, HD, 0, H5, HC, H5, H8);
    assert Xor(0xb8b0_170d_ff7d, 0x5c58) == 0xb8b0_170d_a325;
    XorOfQuad(0xb8b0_170d_ff7d, H5, HB, HB, H0, 0x5c58, H0, HB, H8, H6);
  }

  lemma Xor7()
    ensures Xor(0x4c70_33ee_7318_c982, 0x2638_19f7) == 0x4c70_33ee_5520_d075
  {
    XorZeroes();
    hide Xor;
    XorOfQuad(0, H4, HC, H7, H0, 0, H0, H0, H0, H0);
    assert Xor(0x4c70, 0x0) == 0x4c70;
    XorOfQuad(0x4c70, H3, H3, HE, HE, 0, H0, H0, H0, H0);
    assert Xor(0x4c70_33ee, 0x0) == 0x4c70_33ee;
    XorOfQuad(0x4c70_33ee, H7, H3, H1, H8, 0, H2, H6, H3, H8);
    assert Xor(0x4c70_33ee_7318, 0x2638) == 0x4c70_33ee_5520;
    XorOfQuad(0x4c70_33ee_7318, HC, H9, H8, H2, 0x2638, H1, H9, HF, H7);
  }

  lemma Xor8()
    ensures Xor(0xfce6_926a_9058_c712, 0x7e73_4935) == 0xfce6_926a_ee2b_8e27
  {
    XorZeroes();
    hide Xor;
    XorOfQuad(0, HF, HC, HE, H6, 0, H0, H0, H0, H0);
    assert Xor(0xfce6, 0x0) == 0xfce6;
    XorOfQuad(0xfce6, H9, H2, H6, HA, 0, H0, H0, H0, H0);
    assert Xor(0xfce6_926a, 0x0) == 0xfce6_926a;
    XorOfQuad(0xfce6_926a, H9, H0, H5, H8, 0, H7, HE, H7, H3);
    assert Xor(0xfce6_926a_9058, 0x7e73) == 0xfce6_926a_ee2b;
    XorOfQuad(0xfce6_926a_9058, HC, H7, H1, H2, 0x7e73, H4, H9, H3, H5);
  }

  lemma Xor9()
    ensures Xor(0xd8cd_2cb1_d891_293b, 0x6c66_9658) == 0xd8cd_2cb1_b4f7_bf63
  {
    XorZeroes();
    hide Xor;
    XorOfQuad(0, HD, H8, HC, HD, 0, H0, H0, H0, H0);
    assert Xor(0xd8cd, 0x0) == 0xd8cd;
    XorOfQuad(0xd8cd, H2, HC, HB, H1, 0, H0, H0, H0, H0);
    assert Xor(0xd8cd_2cb1, 0x0) == 0xd8cd_2cb1;
    XorOfQuad(0xd8cd_2cb1, HD, H8, H9, H1, 0, H6, HC, H6, H6);
    assert Xor(0xd8cd_2cb1_d891, 0x6c66) == 0xd8cd_2cb1_b4f7;
    XorOfQuad(0xd8cd_2cb1_d891, H2, H9, H3, HB, 0x6c66, H9, H6, H5, H8);
  }

  lemma Xor10()
    ensures Xor(0x1935_edd2_8d31_5119, 0xc9a_f6e9) == 0x1935_edd2_81ab_a7f0
  {
    XorZeroes();
    hide Xor;
    XorOfQuad(0, H1, H9, H3, H5, 0, H0, H0, H0, H0);
    assert Xor(0x1935, 0x0) == 0x1935;
    XorOfQuad(0x1935, HE, HD, HD, H2, 0, H0, H0, H0, H0);
    assert Xor(0x1935_edd2, 0x0) == 0x1935_edd2;
    XorOfQuad(0x1935_edd2, H8, HD, H3, H1, 0, H0, HC, H9, HA);
    assert Xor(0x1935_edd2_8d31, 0xc9a) == 0x1935_edd2_81ab;
    XorOfQuad(0x1935_edd2_8d31, H5, H1, H1, H9, 0xc9a, HF, H6, HE, H9);
  }

  lemma MixedFirst()
    ensures Mix1(0x6120_6557_2073_6559) == 0xfea8_b052_d401_610d
  {
    hide RotL, Pow2;
    Pow2Literals();
    RotLIs(0x2f46_c2e7_73d1_2e0d, 31);
    assert Mul(0x6120_6557_2073_6559, C1) == 0x2f46_c2e7_73d1_2e0d;
    assert RotL(0x2f46_c2e7_73d1_2e0d, 31) == 0xb9e8_9706_97a3_6173;
  }

  lemma MixedSecond()
    ensures Mix2(0x65_6565_6565_6572) == 0xff1e_f10b_de2b_a392
  {
    hide RotL, Pow2;
    Pow2Literals();
    RotLIs(0x2f7e_e425_3c47_c98e, 33);
    assert Mul(0x65_6565_6565_6572, C2) == 0x2f7e_e425_3c47_c98e;
    assert RotL(0x2f7e_e425_3c47_c98e, 33) == 0x788f_931c_5efd_c84a;
  }

  lemma FmixFirst()
    ensures Fmix(0xfdc7_a15e_b22d_1adf) == 0x4c70_33ee_5520_d075
  {
    hide Xor, Shr, Pow2;
    Pow2Literals();
    ShrIsQuotient(0xfdc7_a15e_b22d_1adf, 33);
    Xor5();
    assert XorShift(0xfdc7_a15e_b22d_1adf, 33) == 0xfdc7_a15e_ccce_ca70;
    assert Mul(0xfdc7_a15e_ccce_ca70, F1) == 0xb8b0_170d_ff7d_5bb0;
    ShrIsQuotient(0xb8b0_170d_ff7d_5bb0, 33);
    Xor6();
    assert XorShift(0xb8b0_170d_ff7d_5bb0, 33) == 0xb8b0_170d_a325_5036;
    assert Mul(0xb8b0_170d_a325_5036, F2) == 0x4c70_33ee_7318_c982;
    ShrIsQuotient(0x4c70_33ee_7318_c982, 33);
    Xor7();
    assert XorShift(0x4c70_33ee_7318_c982, 33) == 0x4c70_33ee_5520_d075;
  }

  lemma FmixSecond()
    ensures Fmix(0xfce6_926a_9058_c712) == 0x1935_edd2_81ab_a7f0
  {
    hide Xor, Shr, Pow2;
    Pow2Literals();
    ShrIsQuotient(0xfce6_926a_9058_c712, 33);
    Xor8();
    assert XorShift(0xfce6_926a_9058_c712, 33) == 0xfce6_926a_ee2b_8e27;
    assert Mul(0xfce6_926a_ee2b_8e27, F1) == 0xd8cd_2cb1_d891_293b;
    ShrIsQuotient(0xd8cd_2cb1_d891_293b, 33);
    Xor9();
    assert XorShift(0xd8cd_2cb1_d891_293b, 33) == 0xd8cd_2cb1_b4f7_bf63;
    assert Mul(0xd8cd_2cb1_b4f7_bf63, F2) == 0x1935_edd2_8d31_5119;
    ShrIsQuotient(0x1935_edd2_8d31_5119, 33);
    Xor10();
    assert XorShift(0x1935_edd2_8d31_5119, 33) == 0x1935_edd2_81ab_a7f0;
  }

  const KEY3: seq<byte> := [89, 101, 115, 32, 87, 101, 32, 97, 114, 101, 32, 104, 101, 114, 101]

  lemma Key3Words()
    ensures FromLittleEndian(Tail1(KEY3)) == 0x6120_6557_2073_6559
      && FromLittleEndian(Tail2(KEY3)) == 0x65_6565_6565_6572
  {
    assert Tail1(KEY3) == [89, 101, 115, 32, 87, 101, 32, 97];
    assert Tail2(KEY3) == [114, 101, 101, 101, 101, 101, 101];
    Little8(89, 101, 115, 32, 87, 101, 32, 97);
    Little7(114, 101, 101, 101, 101, 101, 101);
  }

  lemma Key3Text()
    ensures KEY3 == Text("Yes We are here")
  {
  }

  lemma Key3Tail()
    ensures Tail(State(0xfae, 0xfae), KEY3) == State(0xfea8_b052_d401_6ea3, 0xff1e_f10b_de2b_ac3c)
  {
    hide Xor, Mix1, Mix2, FromLittleEndian;
    Key3Words();
    MixedFirst();
    MixedSecond();
    Xor1();
    Xor2();
  }

  lemma Key3Final()
    ensures Finalize(State(0xfea8_b052_d401_6ea3, 0xff1e_f10b_de2b_ac3c), 15)
      == State(0x65a6_21c0_d6cc_7865, 0x7edc_0f93_5878_2055)
  {
    hide Xor, Fmix;
    Xor3();
    Xor4();
    FmixFirst();
    FmixSecond();
  }

  /** The 15 bytes "Yes We are here" with seed 0xFAE. */
  lemma Hash3Vector()
    ensures Hash3(KEY3, 0xfae) == State(0x65a6_21c0_d6cc_7865, 0x7edc_0f93_5878_2055)
  {
    hide Tail, Finalize;
    Key3Tail();
    Key3Final();
    assert KEY3[0..] == KEY3;
  }

  lemma MixedLow()
    ensures Mix1(0x8c08_0cf1_93b8_d05e) == 0x20e0_9f73_3333_3331
  {
    hide RotL, Pow2;
    Pow2Literals();
    RotLIs(0x4161_a29e_ca8f_d836, 31);
    assert Mul(0x8c08_0cf1_93b8_d05e, C1) == 0x4161_a29e_ca8f_d836;
    assert RotL(0x4161_a29e_ca8f_d836, 31) == 0x6547_ec1b_20b0_d14f;
  }

  lemma MixedHigh()
    ensures Mix2(0x61bf_edf6_7b00_0ecf) == 0x8315_db9f_9999_9999
  {
    hide RotL, Pow2;
    Pow2Literals();
    RotLIs(0x3f28_825a_9453_35b1, 33);
    assert Mul(0x61bf_edf6_7b00_0ecf, C2) == 0x3f28_825a_9453_35b1;
    assert RotL(0x3f28_825a_9453_35b1, 33) == 0x28a6_6b62_7e51_04b5;
  }

  const ZERO_LOW: seq<byte> := [94, 208, 184, 147, 241, 12, 8, 140]
  const ZERO_HIGH: seq<byte> := [207, 14, 0, 123, 246, 237, 191, 97]
  const KEY_OF_ZERO := ZERO_LOW + ZERO_HIGH

  lemma ZeroLow()
    ensures FromLittleEndian(ZERO_LOW) == 0x8c08_0cf1_93b8_d05e
      && FromLittleEndian(Reversed(ZERO_LOW)) == 0x5ed0_b893_f10c_088c
  {
    assert Reversed(ZERO_LOW) == [140, 8, 12, 241, 147, 184, 208, 94];
    hide FromLittleEndian, Reversed;
    Little8(94, 208, 184, 147, 241, 12, 8, 140);
    Little8(140, 8, 12, 241, 147, 184, 208, 94);
  }

  lemma ZeroHigh()
    ensures FromLittleEndian(ZERO_HIGH) == 0x61bf_edf6_7b00_0ecf
      && FromLittleEndian(Reversed(ZERO_HIGH)) == 0xcf0e_007b_f6ed_bf61
  {
    assert Reversed(ZERO_HIGH) == [97, 191, 237, 246, 123, 0, 14, 207];
    hide FromLittleEndian, Reversed;
    Little8(207, 14, 0, 123, 246, 237, 191, 97);
    Little8(97, 191, 237, 246, 123, 0, 14, 207);
  }

  lemma Cut(a: seq<byte>, b: seq<byte>)
    requires |a| == |b| == 8
    ensures (a + b)[0..8] == a && (a + b)[8..16] == b && (a + b)[..8] == a && (a + b)[8..] == b
  {
  }

  lemma ZeroWords()
    ensures Word(KEY_OF_ZERO, 0) == 0x8c08_0cf1_93b8_d05e && Word(KEY_OF_ZERO, 8) == 0x61bf_edf6_7b00_0ecf
    ensures BigEndian(KEY_OF_ZERO[..8]) == 0x5ed0_b893_f10c_088c && BigEndian(KEY_OF_ZERO[8..]) == 0xcf0e_007b_f6ed_bf61
  {
    hide FromLittleEndian, Reversed;
    ZeroLow();
    ZeroHigh();
    Cut(ZERO_LOW, ZERO_HIGH);
  }

  lemma ZeroBlock()
    ensures Block(State(0, 0), 0x8c08_0cf1_93b8_d05e, 0x61bf_edf6_7b00_0ecf) == State(16, 16)
  {
    hide RotL, Pow2, Mix1, Mix2, Xor;
    MixedLow();
    MixedHigh();
    XorZero(0x20e0_9f73_3333_3331);
    XorZero(0x8315_db9f_9999_9999);
    Pow2Literals();
    RotLIs(0x20e0_9f73_3333_3331, 27);
    RotLIs(0x8315_db9f_9999_9999, 31);
    assert RotL(0x20e0_9f73_3333_3331, 27) == 0x9999_9999_8907_04fb;
    assert RotL(0x8315_db9f_9999_9999, 31) == 0xcccc_cccc_c18a_edcf;
  }

  lemma ZeroFinal()
    ensures Finalize(State(16, 16), 16) == State(0, 0)
  {
    hide Shr, Pow2;
    Pow2Literals();
    ShrIsQuotient(0, 33);
    XorSelf(16);
    XorZeroes();
    hide Xor;
    assert Fmix(0) == 0;
  }

  lemma ZeroHash()
    ensures Hash3(KEY_OF_ZERO, 0) == State(0, 0)
  {
    hide Block, Finalize, Word;
    ZeroWords();
    ZeroBlock();
    ZeroFinal();
    assert Body(KEY_OF_ZERO, 0, 0) == State(0, 0);
    assert Body(KEY_OF_ZERO, 0, 1) == State(16, 16);
    assert KEY_OF_ZERO[16..] == [];
  }

  /** The inverse of (0, 0). */
  method InverseVector() returns (k1: uint64, k2: uint64)
    ensures k1 == 0x5ed0_b893_f10c_088c && k2 == 0xcf0e_007b_f6ed_bf61
  {
    hide Hash3, BigEndian;
    ZeroHash();
    ZeroWords();
    k1, k2 := InvHash(State(0, 0));
  }
}
