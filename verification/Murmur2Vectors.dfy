/** The vectors of tests/dht/murmur_hash_test.cc for the 32-bit and the 64-bit hash, step by step. */
module Murmur2Vectors {
  import opened Bytes
  import opened Words
  import opened ByteWords
  import opened WordArithmetic
  import opened Murmur2

  lemma Xor1()
    ensures Xor(0x982, 0x5) == 0x987
  {
    XorZeroes();
    hide Xor;
    XorOfQuad(0, H0, H9, H8, H2, 0, H0, H0, H0, H5);
  }

  lemma Xor2()
    ensures Xor(0x854a_ad88, 0x85) == 0x854a_ad0d
  {
    XorZeroes();
    hide Xor;
    XorOfQuad(0, H8, H5, H4, HA, 0, H0, H0, H0, H0);
    assert Xor(0x854a, 0x0) == 0x854a;
    XorOfQuad(0x854a, HA, HD, H8, H8, 0, H0, H0, H8, H5);
  }

  lemma Xor3()
    ensures Xor(0xcce8_6a93, 0x7294_8d91) == 0xbe7c_e702
  {
    XorZeroes();
    hide Xor;
    XorOfQuad(0, HC, HC, HE, H8, 0, H7, H2, H9, H4);
    assert Xor(0xcce8, 0x7294) == 0xbe7c;
    XorOfQuad(0xcce8, H6, HA, H9, H3, 0x7294, H8, HD, H9, H1);
  }

  lemma Xor4()
    ensures Xor(0xbe7c_e702, 0x6f) == 0xbe7c_e76d
  {
    XorZeroes();
    hide Xor;
    XorOfQuad(0, HB, HE, H7, HC, 0, H0, H0, H0, H0);
    assert Xor(0xbe7c, 0x0) == 0xbe7c;
    XorOfQuad(0xbe7c, HE, H7, H0, H2, 0, H0, H0, H6, HF);
  }

  lemma Xor5()
    ensures Xor(0x3c51_e771, 0x1_e28f) == 0x3c50_05fe
  {
    XorZeroes();
    hide Xor;
    XorOfQuad(0, H3, HC, H5, H1, 0, H0, H0, H0, H1);
    assert Xor(0x3c51, 0x1) == 0x3c50;
    XorOfQuad(0x3c51, HE, H7, H7, H1, 0x1, HE, H2, H8, HF);
  }

  lemma Xor6()
    ensures Xor(0x1e65_aad6, 0x3ccb) == 0x1e65_961d
  {
    XorZeroes();
    hide Xor;
    XorOfQuad(0, H1, HE, H6, H5, 0, H0, H0, H0, H0);
    assert Xor(0x1e65, 0x0) == 0x1e65;
    XorOfQuad(0x1e65, HA, HA, HD, H6, 0, H3, HC, HC, HB);
  }

  lemma Xor7()
    ensures Xor(0x14f, 0x8913_3354_f205_0967) == 0x8913_3354_f205_0828
  {
    XorZeroes();
    hide Xor;
    XorOfQuad(0, H0, H0, H0, H0, 0, H8, H9, H1, H3);
    assert Xor(0x0, 0x8913) == 0x8913;
    XorOfQuad(0, H0, H0, H0, H0, 0x8913, H3, H3, H5, H4);
    assert Xor(0x0, 0x8913_3354) == 0x8913_3354;
    XorOfQuad(0, H0, H0, H0, H0, 0x8913_3354, HF, H2, H0, H5);
    assert Xor(0x0, 0x8913_3354_f205) == 0x8913_3354_f205;
    XorOfQuad(0, H0, H1, H4, HF, 0x8913_3354_f205, H0, H9, H6, H7);
  }

  lemma Xor8()
    ensures Xor(0xaf89_e766_ad1e_2aa3, 0x1_5f13) == 0xaf89_e766_ad1f_75b0
  {
    XorZeroes();
    hide Xor;
    XorOfQuad(0, HA, HF, H8, H9, 0, H0, H0, H0, H0);
    assert Xor(0xaf89, 0x0) == 0xaf89;
    XorOfQuad(0xaf89, HE, H7, H6, H6, 0, H0, H0, H0, H0);
    assert Xor(0xaf89_e766, 0x0) == 0xaf89_e766;
    XorOfQuad(0xaf89_e766, HA, HD, H1, HE, 0, H0, H0, H0, H1);
    assert Xor(0xaf89_e766_ad1e, 0x1) == 0xaf89_e766_ad1f;
    XorOfQuad(0xaf89_e766_ad1e, H2, HA, HA, H3, 0x1, H5, HF, H1, H3);
  }

  lemma Xor9()
    ensures Xor(0x8913_3354_f205_0828, 0x8cd4_0be9_0a1c_af70) == 0x5c7_38bd_f819_a758
  {
    XorZeroes();
    hide Xor;
    XorOfQuad(0, H8, H9, H1, H3, 0, H8, HC, HD, H4);
    assert Xor(0x8913, 0x8cd4) == 0x5c7;
    XorOfQuad(0x8913, H3, H3, H5, H4, 0x8cd4, H0, HB, HE, H9);
    assert Xor(0x8913_3354, 0x8cd4_0be9) == 0x5c7_38bd;
    XorOfQuad(0x8913_3354, HF, H2, H0, H5, 0x8cd4_0be9, H0, HA, H1, HC);
    assert Xor(0x8913_3354_f205, 0x8cd4_0be9_0a1c) == 0x5c7_38bd_f819;
    XorOfQuad(0x8913_3354_f205, H0, H8, H2, H8, 0x8cd4_0be9_0a1c, HA, HF, H7, H0);
  }

  lemma Xor10()
    ensures Xor(0x127_1856_a715_7e38, 0x65_7265) == 0x127_1856_a770_0c5d
  {
    XorZeroes();
    hide Xor;
    XorOfQuad(0, H0, H1, H2, H7, 0, H0, H0, H0, H0);
    assert Xor(0x127, 0x0) == 0x127;
    XorOfQuad(0x127, H1, H8, H5, H6, 0, H0, H0, H0, H0);
    assert Xor(0x127_1856, 0x0) == 0x127_1856;
    XorOfQuad(0x127_1856, HA, H7, H1, H5, 0, H0, H0, H6, H5);
    assert Xor(0x127_1856_a715, 0x65) == 0x127_1856_a770;
    XorOfQuad(0x127_1856_a715, H7, HE, H3, H8, 0x65, H7, H2, H6, H5);
  }

  lemma Xor11()
    ensures Xor(0x427_541a_9664_d721, 0x84e) == 0x427_541a_9664_df6f
  {
    XorZeroes();
    hide Xor;
    XorOfQuad(0, H0, H4, H2, H7, 0, H0, H0, H0, H0);
    assert Xor(0x427, 0x0) == 0x427;
    XorOfQuad(0x427, H5, H4, H1, HA, 0, H0, H0, H0, H0);
    assert Xor(0x427_541a, 0x0) == 0x427_541a;
    XorOfQuad(0x427_541a, H9, H6, H6, H4, 0, H0, H0, H0, H0);
    assert Xor(0x427_541a_9664, 0x0) == 0x427_541a_9664;
    XorOfQuad(0x427_541a_9664, HD, H7, H2, H1, 0, H0, H8, H4, HE);
  }

  lemma Xor12()
    ensures Xor(0x7a64_7fdf_36b1_129b, 0xf4c8) == 0x7a64_7fdf_36b1_e653
  {
    XorZeroes();
    hide Xor;
    XorOfQuad(0, H7, HA, H6, H4, 0, H0, H0, H0, H0);
    assert Xor(0x7a64, 0x0) == 0x7a64;
    XorOfQuad(0x7a64, H7, HF, HD, HF, 0, H0, H0, H0, H0);
    assert Xor(0x7a64_7fdf, 0x0) == 0x7a64_7fdf;
    XorOfQuad(0x7a64_7fdf, H3, H6, HB, H1, 0, H0, H0, H0, H0);
    assert Xor(0x7a64_7fdf_36b1, 0x0) == 0x7a64_7fdf_36b1;
    XorOfQuad(0x7a64_7fdf_36b1, H1, H2, H9, HB, 0, HF, H4, HC, H8);
  }

  lemma HelloMix()
    ensures MixWord(W32, 0x6c6c_6568) == 0x7294_8d91
  {
    hide Xor, Shr, Pow2;
    Pow2Literals();
    assert Times(W32, 0x6c6c_6568) == 0x854a_ad88;
    ShrIsQuotient(0x854a_ad88, 24);
    Xor2();
    assert XorShift(0x854a_ad88, 24) == 0x854a_ad0d;
    assert Times(W32, 0x854a_ad0d) == 0x7294_8d91;
  }

  const KEY_HELLO: seq<byte> := [104, 101, 108, 108, 111]

  lemma HelloKey()
    ensures KEY_HELLO[0..4] == [104, 101, 108, 108] && KEY_HELLO[4..] == [111]
    ensures FromLittleEndian([104, 101, 108, 108]) == 0x6c6c_6568 && FromLittleEndian([111]) == 0x6f
  {
    Little4(104, 101, 108, 108);
    Little1(111);
  }

  lemma HelloStart()
    ensures Start(W32, 5, 0x982) == 0x987
  {
    hide Xor;
    Xor1();
  }

  lemma HelloStep()
    ensures Step(W32, 0x987, 0x6c6c_6568) == 0xbe7c_e702
  {
    hide Xor, MixWord;
    HelloMix();
    Xor3();
    assert Times(W32, 0x987) == 0xcce8_6a93;
  }

  lemma HelloTail()
    ensures Tail(W32, 0xbe7c_e702, [111]) == 0x3c51_e771
  {
    hide Xor, FromLittleEndian;
    HelloKey();
    assert TailBytes(W32, [111]) == [111];
    Xor4();
  }

  lemma HelloFinish()
    ensures Finish(W32, 0x3c51_e771) == 0x1e65_961d
  {
    hide Xor, Shr, Pow2;
    Pow2Literals();
    ShrIsQuotient(0x3c51_e771, 13);
    Xor5();
    assert XorShift(0x3c51_e771, 13) == 0x3c50_05fe;
    assert Times(W32, 0x3c50_05fe) == 0x1e65_aad6;
    ShrIsQuotient(0x1e65_aad6, 15);
    Xor6();
    assert XorShift(0x1e65_aad6, 15) == 0x1e65_961d;
  }

  lemma HelloText()
    ensures KEY_HELLO == Text("hello")
  {
  }

  /** "hello" with seed 0x982. */
  lemma HelloVector()
    ensures Hash2(W32, KEY_HELLO, 0x982) == 0x1e65_961d && KEY_HELLO == Text("hello")
  {
    hide Start, Step, Tail, Finish, FromLittleEndian, Text;
    HelloText();
    HelloKey();
    HelloStart();
    HelloStep();
    HelloTail();
    HelloFinish();
    assert KeyWord(W32, KEY_HELLO, 0) == 0x6c6c_6568;
    assert Body(W32, KEY_HELLO, 0x987, 1) == 0xbe7c_e702;
  }

  lemma HereMix()
    ensures MixWord(W64, 0x6820_6572_6120_6557) == 0x8cd4_0be9_0a1c_af70
  {
    hide Xor, Shr, Pow2;
    Pow2Literals();
    assert Times(W64, 0x6820_6572_6120_6557) == 0xaf89_e766_ad1e_2aa3;
    ShrIsQuotient(0xaf89_e766_ad1e_2aa3, 47);
    Xor8();
    assert XorShift(0xaf89_e766_ad1e_2aa3, 47) == 0xaf89_e766_ad1f_75b0;
    assert Times(W64, 0xaf89_e766_ad1f_75b0) == 0x8cd4_0be9_0a1c_af70;
  }

  const KEY_HERE: seq<byte> := [87, 101, 32, 97, 114, 101, 32, 104, 101, 114, 101]

  lemma HereKey()
    ensures KEY_HERE[0..8] == [87, 101, 32, 97, 114, 101, 32, 104] && KEY_HERE[8..] == [101, 114, 101]
    ensures FromLittleEndian([87, 101, 32, 97, 114, 101, 32, 104]) == 0x6820_6572_6120_6557
      && FromLittleEndian([101, 114, 101]) == 0x65_7265
  {
    Little8(87, 101, 32, 97, 114, 101, 32, 104);
    Little3(101, 114, 101);
  }

  lemma HereStart()
    ensures Start(W64, 11, 0x14f) == 0x8913_3354_f205_0828
  {
    hide Xor;
    Xor7();
  }

  lemma HereStep()
    ensures Step(W64, 0x8913_3354_f205_0828, 0x6820_6572_6120_6557) == 0x127_1856_a715_7e38
  {
    hide Xor, MixWord;
    HereMix();
    Xor9();
    assert Times(W64, 0x5c7_38bd_f819_a758) == 0x127_1856_a715_7e38;
  }

  lemma HereTail()
    ensures Tail(W64, 0x127_1856_a715_7e38, [101, 114, 101]) == 0x427_541a_9664_d721
  {
    hide Xor, FromLittleEndian;
    HereKey();
    assert TailBytes(W64, [101, 114, 101]) == [101, 114, 101];
    Xor10();
  }

  lemma HereFinish()
    ensures Finish(W64, 0x427_541a_9664_d721) == 0x7a64_7fdf_36b1_e653
  {
    hide Xor, Shr, Pow2;
    Pow2Literals();
    ShrIsQuotient(0x427_541a_9664_d721, 47);
    Xor11();
    assert XorShift(0x427_541a_9664_d721, 47) == 0x427_541a_9664_df6f;
    assert Times(W64, 0x427_541a_9664_df6f) == 0x7a64_7fdf_36b1_129b;
    ShrIsQuotient(0x7a64_7fdf_36b1_129b, 47);
    Xor12();
    assert XorShift(0x7a64_7fdf_36b1_129b, 47) == 0x7a64_7fdf_36b1_e653;
  }

  lemma HereText()
    ensures KEY_HERE == Text("We are here")
  {
  }

  /** "We are here" with seed 0x14f. */
  lemma HereVector()
    ensures Hash2(W64, KEY_HERE, 0x14f) == 0x7a64_7fdf_36b1_e653 && KEY_HERE == Text("We are here")
  {
    hide Start, Step, Tail, Finish, FromLittleEndian, Text;
    HereText();
    HereKey();
    HereStart();
    HereStep();
    HereTail();
    HereFinish();
    assert KeyWord(W64, KEY_HERE, 0) == 0x6820_6572_6120_6557;
    assert Body(W64, KEY_HERE, 0x8913_3354_f205_0828, 1) == 0x127_1856_a715_7e38;
  }
}
