/** Known values of the RAR 2.x cipher: a block under the initial key and table, and the
    exchanges of a key setup worked out. */
module Rar20Known {
  import opened Rar20
  import Crc32
  import Rar20Table

  /** A table entry, as the number the table lists. */
  lemma Listed(i: int, b: bv8)
    requires 0 <= i < 256 && Rar20Table.InitialAt(i) == b as int
    ensures InitialSubst()[i] == b
  {
    hide AsByte; hide Rar20Table.InitialAt;
    Rar20Table.InitialIsPermutation(i);
    AsByteOfInt(b);
  }

  /** A word looked up byte by byte. */
  lemma KnownWord(value: bv32, looked: bv32)
    requires Rar20Table.InitialAt(Byte0(value) as int) == Byte0(looked) as int
    requires Rar20Table.InitialAt(Byte1(value) as int) == Byte1(looked) as int
    requires Rar20Table.InitialAt(Byte2(value) as int) == Byte2(looked) as int
    requires Rar20Table.InitialAt(Byte3(value) as int) == Byte3(looked) as int
    ensures Substituted(InitialSubst(), value) == looked
  {
    hide Pack; hide Byte0; hide Byte1; hide Byte2; hide Byte3; hide Rar20Table.InitialAt; hide InitialSubst;
    Listed(Byte0(value) as int, Byte0(looked));
    Listed(Byte1(value) as int, Byte1(looked));
    Listed(Byte2(value) as int, Byte2(looked));
    Listed(Byte3(value) as int, Byte3(looked));
    PackBytes(looked);
  }

  lemma ForwardNothing(q: Quad)
    ensures Forward(INITIAL_KEY, InitialSubst(), 0, q) == q
  {
  }

  lemma KnownRound(i: nat, start: Quad, q: Quad, first: bv32, firstLooked: bv32, second: bv32, secondLooked: bv32)
    requires Forward(INITIAL_KEY, InitialSubst(), i, start) == q
    requires Mix1(q.c, q.d, INITIAL_KEY.At(i)) == first && Mix2(q.c, q.d, INITIAL_KEY.At(i)) == second
    requires Rar20Table.InitialAt(Byte0(first) as int) == Byte0(firstLooked) as int
    requires Rar20Table.InitialAt(Byte1(first) as int) == Byte1(firstLooked) as int
    requires Rar20Table.InitialAt(Byte2(first) as int) == Byte2(firstLooked) as int
    requires Rar20Table.InitialAt(Byte3(first) as int) == Byte3(firstLooked) as int
    requires Rar20Table.InitialAt(Byte0(second) as int) == Byte0(secondLooked) as int
    requires Rar20Table.InitialAt(Byte1(second) as int) == Byte1(secondLooked) as int
    requires Rar20Table.InitialAt(Byte2(second) as int) == Byte2(secondLooked) as int
    requires Rar20Table.InitialAt(Byte3(second) as int) == Byte3(secondLooked) as int
    ensures Forward(INITIAL_KEY, InitialSubst(), i + 1, start)
         == Quad(q.c, q.d, Xor(q.a, firstLooked), Xor(q.b, secondLooked))
  {
    hide Rar20Table.InitialAt; hide InitialSubst; hide Substituted; hide Byte0; hide Byte1; hide Byte2; hide Byte3;
    hide Mix1; hide Mix2; hide Xor;
    KnownWord(first, firstLooked);
    KnownWord(second, secondLooked);
  }

  lemma Round1()
    ensures Forward(INITIAL_KEY, InitialSubst(), 1, START) == Quad(0x1774_9b0d, 0xc282_9540, 0xb425_4a30, 0x8091_7650)
  {
    hide Forward; hide InitialSubst;
    ForwardNothing(START);
    KnownRound(0, START, Quad(0xe091_8949, 0x085b_27c3, 0x1774_9b0d, 0xc282_9540),
               0xffbd_1958, 0x54b4_c379, 0xc83c_7422, 0x88ca_5193);
  }

  lemma Round2()
    ensures Forward(INITIAL_KEY, InitialSubst(), 2, START) == Quad(0xb425_4a30, 0x8091_7650, 0xc0b2_2e01, 0x9b40_8d41)
  {
    hide Forward; hide InitialSubst;
    Round1();
    KnownRound(1, START, Quad(0x1774_9b0d, 0xc282_9540, 0xb425_4a30, 0x8091_7650),
               0x00ba_dcc3, 0xd7c6_b50c, 0x545d_3111, 0x59c2_1801);
  }

  lemma Round3()
    ensures Forward(INITIAL_KEY, InitialSubst(), 3, START) == Quad(0xc0b2_2e01, 0x9b40_8d41, 0x5439_6d54, 0x4ae8_626d)
  {
    hide Forward; hide InitialSubst;
    Round2();
    KnownRound(2, START, Quad(0xb425_4a30, 0x8091_7650, 0xc0b2_2e01, 0x9b40_8d41),
               0xb009_98ee, 0xe01c_2764, 0x3c58_ae5a, 0xca79_143d);
  }

  lemma Round4()
    ensures Forward(INITIAL_KEY, InitialSubst(), 4, START) == Quad(0x5439_6d54, 0x4ae8_626d, 0x0437_d8b6, 0xea98_1a0a)
  {
    hide Forward; hide InitialSubst;
    Round3();
    KnownRound(3, START, Quad(0xc0b2_2e01, 0x9b40_8d41, 0x5439_6d54, 0x4ae8_626d),
               0x33ab_2688, 0xc485_f6b7, 0x3528_bb42, 0x71d8_974b);
  }

  lemma Round5()
    ensures Forward(INITIAL_KEY, InitialSubst(), 5, START) == Quad(0x0437_d8b6, 0xea98_1a0a, 0x8fbc_dac8, 0x4c06_c020)
  {
    hide Forward; hide InitialSubst;
    Round4();
    KnownRound(4, START, Quad(0x5439_6d54, 0x4ae8_626d, 0x0437_d8b6, 0xea98_1a0a),
               0x16ab_8873, 0xdb85_b79c, 0x2f97_cade, 0x06ee_a24d);
  }

  lemma Round6()
    ensures Forward(INITIAL_KEY, InitialSubst(), 6, START) == Quad(0x8fbc_dac8, 0x4c06_c020, 0x9296_b457, 0xb1d1_ba94)
  {
    hide Forward; hide InitialSubst;
    Round5();
    KnownRound(5, START, Quad(0x0437_d8b6, 0xea98_1a0a, 0x8fbc_dac8, 0x4c06_c020),
               0xfad0_cfdf, 0x96a1_6ce1, 0x3904_f250, 0x5b49_a09e);
  }

  lemma Round7()
    ensures Forward(INITIAL_KEY, InitialSubst(), 7, START) == Quad(0x9296_b457, 0xb1d1_ba94, 0x5944_df69, 0xc343_3a44)
  {
    hide Forward; hide InitialSubst;
    Round6();
    KnownRound(6, START, Quad(0x8fbc_dac8, 0x4c06_c020, 0x9296_b457, 0xb1d1_ba94),
               0x557e_fbd0, 0xd6f8_05a1, 0x4e94_41ee, 0x8f45_fa64);
  }

  lemma Round8()
    ensures Forward(INITIAL_KEY, InitialSubst(), 8, START) == Quad(0x5944_df69, 0xc343_3a44, 0x3de2_d9d4, 0x22b2_d9e0)
  {
    hide Forward; hide InitialSubst;
    Round7();
    KnownRound(7, START, Quad(0x9296_b457, 0xb1d1_ba94, 0x5944_df69, 0xc343_3a44),
               0xd7f0_f4a0, 0xaf74_6d83, 0x2279_79f0, 0x9363_6374);
  }

  lemma Round9()
    ensures Forward(INITIAL_KEY, InitialSubst(), 9, START) == Quad(0x3de2_d9d4, 0x22b2_d9e0, 0x94f5_e913, 0xb079_07b4)
  {
    hide Forward; hide InitialSubst;
    Round8();
    KnownRound(8, START, Quad(0x5944_df69, 0xc343_3a44, 0x3de2_d9d4, 0x22b2_d9e0),
               0x0712_6290, 0xcdb1_367a, 0x64be_5a9e, 0x733a_3df0);
  }

  lemma Round10()
    ensures Forward(INITIAL_KEY, InitialSubst(), 10, START) == Quad(0x94f5_e913, 0xb079_07b4, 0x0b4c_35ba, 0x2101_236d)
  {
    hide Forward; hide InitialSubst;
    Round9();
    KnownRound(9, START, Quad(0x3de2_d9d4, 0x22b2_d9e0, 0x94f5_e913, 0xb079_07b4),
               0x625e_9c61, 0x36ae_ec6e, 0xa1cb_4156, 0x03b3_fa8d);
  }

  lemma Round11()
    ensures Forward(INITIAL_KEY, InitialSubst(), 11, START) == Quad(0x0b4c_35ba, 0x2101_236d, 0xfaea_2379, 0xbafe_958a)
  {
    hide Forward; hide InitialSubst;
    Round10();
    KnownRound(10, START, Quad(0x94f5_e913, 0xb079_07b4, 0x0b4c_35ba, 0x2101_236d),
               0x6172_3cf7, 0x6e1f_ca6a, 0xbf8a_d82a, 0x0a87_923e);
  }

  lemma Round12()
    ensures Forward(INITIAL_KEY, InitialSubst(), 12, START) == Quad(0xfaea_2379, 0xbafe_958a, 0x9b84_8226, 0xa224_5f15)
  {
    hide Forward; hide InitialSubst;
    Round11();
    KnownRound(11, START, Quad(0x0b4c_35ba, 0x2101_236d, 0xfaea_2379, 0xbafe_958a),
               0x4b71_8873, 0x90c8_b79c, 0xa0f5_5181, 0x8325_7c78);
  }

  lemma Round13()
    ensures Forward(INITIAL_KEY, InitialSubst(), 13, START) == Quad(0x9b84_8226, 0xa224_5f15, 0x0fa7_cdf6, 0x3123_6a26)
  {
    hide Forward; hide InitialSubst;
    Round12();
    KnownRound(12, START, Quad(0xfaea_2379, 0xbafe_958a, 0x9b84_8226, 0xa224_5f15),
               0x6dde_974e, 0xf54d_ee8f, 0x7a0d_2095, 0x8bdd_ffac);
  }

  lemma Round14()
    ensures Forward(INITIAL_KEY, InitialSubst(), 14, START) == Quad(0x0fa7_cdf6, 0x3123_6a26, 0xc328_9091, 0x5fee_e874)
  {
    hide Forward; hide InitialSubst;
    Round13();
    KnownRound(13, START, Quad(0x9b84_8226, 0xa224_5f15, 0x0fa7_cdf6, 0x3123_6a26),
               0x1595_ed88, 0x58ac_12b7, 0xea3c_8860, 0xfdca_b761);
  }

  lemma Round15()
    ensures Forward(INITIAL_KEY, InitialSubst(), 15, START) == Quad(0xc328_9091, 0x5fee_e874, 0x2bc4_ebb9, 0x5199_821b)
  {
    hide Forward; hide InitialSubst;
    Round14();
    KnownRound(14, START, Quad(0x0fa7_cdf6, 0x3123_6a26, 0xc328_9091, 0x5fee_e874),
               0x4f79_91a5, 0x2463_264f, 0xf3e3_105a, 0x60ba_e83d);
  }

  lemma Round16()
    ensures Forward(INITIAL_KEY, InitialSubst(), 16, START) == Quad(0x2bc4_ebb9, 0x5199_821b, 0x7883_eb09, 0x4290_fec2)
  {
    hide Forward; hide InitialSubst;
    Round15();
    KnownRound(15, START, Quad(0xc328_9091, 0x5fee_e874, 0x2bc4_ebb9, 0x5199_821b),
               0x5332_3766, 0xbbab_7b98, 0x2bd3_c6b5, 0x1d7e_16b6);
  }

  lemma Round17()
    ensures Forward(INITIAL_KEY, InitialSubst(), 17, START) == Quad(0x7883_eb09, 0x4290_fec2, 0x55e5_4cca, 0x38db_0a37)
  {
    hide Forward; hide InitialSubst;
    Round16();
    KnownRound(16, START, Quad(0x2bc4_ebb9, 0x5199_821b, 0x7883_eb09, 0x4290_fec2),
               0xd3da_4564, 0x7e21_a773, 0x6825_c83e, 0x6942_882c);
  }

  lemma Round18()
    ensures Forward(INITIAL_KEY, InitialSubst(), 18, START) == Quad(0x55e5_4cca, 0x38db_0a37, 0x79be_e557, 0x4277_53af)
  {
    hide Forward; hide InitialSubst;
    Round17();
    KnownRound(17, START, Quad(0x7883_eb09, 0x4290_fec2, 0x55e5_4cca, 0x38db_0a37),
               0x115a_1467, 0x013d_0e5e, 0xe0bc_b4f4, 0x00e7_ad6d);
  }

  lemma Round19()
    ensures Forward(INITIAL_KEY, InitialSubst(), 19, START) == Quad(0x79be_e557, 0x4277_53af, 0xaf97_3931, 0x4def_e0fa)
  {
    hide Forward; hide InitialSubst;
    Round18();
    KnownRound(18, START, Quad(0x55e5_4cca, 0x38db_0a37, 0x79be_e557, 0x4277_53af),
               0x4149_fd5f, 0xfa72_75fb, 0xfdef_4307, 0x7534_eacd);
  }

  lemma Round20()
    ensures Forward(INITIAL_KEY, InitialSubst(), 20, START) == Quad(0xaf97_3931, 0x4def_e0fa, 0xfef2_7385, 0x0626_b3c5)
  {
    hide Forward; hide InitialSubst;
    Round19();
    KnownRound(19, START, Quad(0x79be_e557, 0x4277_53af, 0xaf97_3931, 0x4def_e0fa),
               0x8a78_fa83, 0x874c_96d2, 0xe474_b0f7, 0x4451_e06a);
  }

  lemma Round21()
    ensures Forward(INITIAL_KEY, InitialSubst(), 21, START) == Quad(0xfef2_7385, 0x0626_b3c5, 0xee53_7f5d, 0xe0d7_20c1)
  {
    hide Forward; hide InitialSubst;
    Round20();
    KnownRound(20, START, Quad(0xaf97_3931, 0x4def_e0fa, 0xfef2_7385, 0x0626_b3c5),
               0xe733_23cf, 0x41c4_466c, 0xb4d1_069a, 0xad38_c03b);
  }

  lemma Mixed22()
    ensures Mix1(0xee53_7f5d, 0xe0d7_20c1, INITIAL_KEY.At(21)) == 0x9834_9c94
    ensures Mix2(0xee53_7f5d, 0xe0d7_20c1, INITIAL_KEY.At(21)) == 0x5dda_0f5e
  {
  }

  lemma Round22()
    ensures Forward(INITIAL_KEY, InitialSubst(), 22, START) == Quad(0xee53_7f5d, 0xe0d7_20c1, 0xd997_9fc0, 0xc407_996b)
  {
    hide Forward; hide InitialSubst; hide Mix1; hide Mix2;
    Round21();
    Mixed22();
    KnownRound(21, START, Quad(0xfef2_7385, 0x0626_b3c5, 0xee53_7f5d, 0xe0d7_20c1),
               0x9834_9c94, 0x2765_ec45, 0x5dda_0f5e, 0xc221_2aae);
  }

  lemma Round23()
    ensures Forward(INITIAL_KEY, InitialSubst(), 23, START) == Quad(0xd997_9fc0, 0xc407_996b, 0x0b46_8483, 0x4457_0da2)
  {
    hide Forward; hide InitialSubst;
    Round22();
    KnownRound(22, START, Quad(0xee53_7f5d, 0xe0d7_20c1, 0xd997_9fc0, 0xc407_996b),
               0x6377_5fd5, 0xe515_fbde, 0x709b_cc79, 0xa480_2d63);
  }

  lemma Round24()
    ensures Forward(INITIAL_KEY, InitialSubst(), 24, START) == Quad(0x0b46_8483, 0x4457_0da2, 0x87ce_c1e9, 0x645c_a99c)
  {
    hide Forward; hide InitialSubst;
    Round23();
    KnownRound(23, START, Quad(0xd997_9fc0, 0xc407_996b, 0x0b46_8483, 0x4457_0da2),
               0x6754_6786, 0x5e59_5e29, 0xf239_0c52, 0xa05b_30f7);
  }

  lemma Round25()
    ensures Forward(INITIAL_KEY, InitialSubst(), 25, START) == Quad(0x87ce_c1e9, 0x645c_a99c, 0x31b8_6b9c, 0xd393_a329)
  {
    hide Forward; hide InitialSubst;
    Round24();
    KnownRound(24, START, Quad(0x0b46_8483, 0x4457_0da2, 0x87ce_c1e9, 0x645c_a99c),
               0xbeb8_1d72, 0x3afe_ef1f, 0xbb33_5e7a, 0x97c4_ae8b);
  }

  lemma Round26()
    ensures Forward(INITIAL_KEY, InitialSubst(), 26, START) == Quad(0x31b8_6b9c, 0xd393_a329, 0x3f29_5e85, 0x5583_d702)
  {
    hide Forward; hide InitialSubst;
    Round25();
    KnownRound(25, START, Quad(0x87ce_c1e9, 0x645c_a99c, 0x31b8_6b9c, 0xd393_a329),
               0xf1bc_a8cf, 0xb8e7_9f6c, 0x4418_d350, 0x31df_7e9e);
  }

  lemma Round27()
    ensures Forward(INITIAL_KEY, InitialSubst(), 27, START) == Quad(0x3f29_5e85, 0x5583_d702, 0xe9d5_15d5, 0x11c3_33cb)
  {
    hide Forward; hide InitialSubst;
    Round26();
    KnownRound(26, START, Quad(0x31b8_6b9c, 0xd393_a329, 0x3f29_5e85, 0x5583_d702),
               0x28f4_d304, 0xd86d_7e49, 0x5d9f_4b85, 0xc250_90e2);
  }

  lemma Round28()
    ensures Forward(INITIAL_KEY, InitialSubst(), 28, START) == Quad(0xe9d5_15d5, 0x11c3_33cb, 0xb16c_0eee, 0xb41d_ef0a)
  {
    hide Forward; hide InitialSubst;
    Round27();
    KnownRound(27, START, Quad(0x3f29_5e85, 0x5583_d702, 0xe9d5_15d5, 0x11c3_33cb),
               0xa794_9f40, 0x8e45_506b, 0xdf50_d184, 0xe19e_3808);
  }

  lemma Round29()
    ensures Forward(INITIAL_KEY, InitialSubst(), 29, START) == Quad(0xb16c_0eee, 0xb41d_ef0a, 0x7506_a0bf, 0x00b0_4e5b)
  {
    hide Forward; hide InitialSubst;
    Round28();
    KnownRound(28, START, Quad(0xe9d5_15d5, 0x11c3_33cb, 0xb16c_0eee, 0xb41d_ef0a),
               0x7347_dcf7, 0x9cd3_b56a, 0x7d64_464b, 0x1173_7d90);
  }

  lemma Round30()
    ensures Forward(INITIAL_KEY, InitialSubst(), 30, START) == Quad(0x7506_a0bf, 0x00b0_4e5b, 0x3962_da2a, 0xccaf_cdcb)
  {
    hide Forward; hide InitialSubst;
    Round29();
    KnownRound(29, START, Quad(0xb16c_0eee, 0xb41d_ef0a, 0x7506_a0bf, 0x00b0_4e5b),
               0xc814_6a33, 0x880e_d4c4, 0x813b_b74d, 0x78b2_22c1);
  }

  lemma Round31()
    ensures Forward(INITIAL_KEY, InitialSubst(), 31, START) == Quad(0x3962_da2a, 0xccaf_cdcb, 0x1334_9b79, 0x64b1_20b1)
  {
    hide Forward; hide InitialSubst;
    Round30();
    KnownRound(30, START, Quad(0x7506_a0bf, 0x00b0_4e5b, 0x3962_da2a, 0xccaf_cdcb),
               0xc2c4_9aba, 0x6632_3bc6, 0xee11_6143, 0x6401_6eea);
  }

  lemma Round32()
    ensures Forward(INITIAL_KEY, InitialSubst(), 32, START) == Quad(0x1334_9b79, 0x64b1_20b1, 0x64dc_759e, 0xa691_a7ce)
  {
    hide Forward; hide InitialSubst;
    Round31();
    KnownRound(31, START, Quad(0x3962_da2a, 0xccaf_cdcb, 0x1334_9b79, 0x64b1_20b1),
               0x38dd_d7bd, 0x5dbe_afb4, 0xf72a_f7fb, 0x6a3e_6a05);
  }

  const START := Quad(0xe091_8949, 0x085b_27c3, 0x1774_9b0d, 0xc282_9540)

  const DIGITS: seq<bv8> := [0x30, 0x31, 0x32, 0x33, 0x34, 0x35, 0x36, 0x37, 0x38, 0x39, 0x61, 0x62, 0x63, 0x64, 0x65, 0x66]

  /** The block "0123456789abcdef" under the initial key and table. */
  lemma KnownBlock()
    ensures EncryptedBlock(INITIAL_KEY, InitialSubst(), DIGITS)
         == [0xe7, 0xcd, 0x7f, 0xb7, 0x39, 0xb5, 0xfc, 0x99, 0x4c, 0x39, 0x21, 0x66, 0x92, 0xd1, 0x56, 0xc0]
  {
    hide Forward; hide InitialSubst;
    Loaded();
    Round32();
    Stored();
  }

  lemma Loaded()
    ensures |DIGITS| == 16 && LoadQuad(DIGITS).Masked(INITIAL_KEY) == START
  {
  }

  lemma Stored()
    ensures StoreQuad(Quad(0x1334_9b79, 0x64b1_20b1, 0x64dc_759e, 0xa691_a7ce).Swapped().Masked(INITIAL_KEY))
         == [0xe7, 0xcd, 0x7f, 0xb7, 0x39, 0xb5, 0xfc, 0x99, 0x4c, 0x39, 0x21, 0x66, 0x92, 0xd1, 0x56, 0xc0]
  {
  }

  /** Each key word absorbs every fourth byte of a ciphertext block, through the CRC table. */
  lemma KeyWordsAbsorb(key: Key, block: seq<bv8>)
    requires |block| == 16
    ensures NextKey(key, block)
         == Key(Absorbing(key.w0, block[0], block[4], block[8], block[12]),
                Absorbing(key.w1, block[1], block[5], block[9], block[13]),
                Absorbing(key.w2, block[2], block[6], block[10], block[14]),
                Absorbing(key.w3, block[3], block[7], block[11], block[15]))
  {
    hide Crc32.TableEntry; hide Xor; hide FoldWord;
    assert FoldChunks(key, block, 1) == FoldWord(key, block[0], block[1], block[2], block[3]);
    var second := FoldChunks(key, block, 2);
    assert second == FoldWord(FoldChunks(key, block, 1), block[4], block[5], block[6], block[7]);
    var third := FoldChunks(key, block, 3);
    assert third == FoldWord(second, block[8], block[9], block[10], block[11]);
    FoldWords(key, block[0], block[1], block[2], block[3]);
    FoldWords(FoldChunks(key, block, 1), block[4], block[5], block[6], block[7]);
    FoldWords(second, block[8], block[9], block[10], block[11]);
    FoldWords(third, block[12], block[13], block[14], block[15]);
  }

  function Absorbing(w: bv32, b0: bv8, b1: bv8, b2: bv8, b3: bv8): bv32 {
    Xor(Xor(Xor(Xor(w, Crc32.TableEntry(b0)), Crc32.TableEntry(b1)), Crc32.TableEntry(b2)), Crc32.TableEntry(b3))
  }

  lemma FoldWords(key: Key, b0: bv8, b1: bv8, b2: bv8, b3: bv8)
    ensures FoldWord(key, b0, b1, b2, b3)
         == Key(Xor(key.w0, Crc32.TableEntry(b0)), Xor(key.w1, Crc32.TableEntry(b1)),
                Xor(key.w2, Crc32.TableEntry(b2)), Xor(key.w3, Crc32.TableEntry(b3)))
  {
    hide Crc32.TableEntry; hide Xor;
  }

  /** One chunk under the initial key. */
  lemma KnownKeys()
    ensures FoldWord(INITIAL_KEY, 0x00, 0x01, 0xff, 0x01)
         == Key(0xd3a3_b879, 0x486a_2261, 0x5817_4db8, 0xd3e0_c1b5)
  {
    Crc32.KnownEntries();
  }

  // ---------------------------------------------------------------- exchanges of the key setup

  lemma Exchanges(s: seq<bv8>, password: seq<bv8>, j: nat, pairs: nat, from: bv8, to: bv8)
    requires IsTable(s) && j < 256 && 0 < pairs && 2 * pairs <= |password| + 1
    requires From(password, 2 * (pairs - 1), j) == from && To(password, 2 * (pairs - 1), j) == to
    ensures ShufflePairs(s, password, j, pairs)
         == ExchangeRun(ShufflePairs(s, password, j, pairs - 1), from, to, 2 * (pairs - 1), 1)
    ensures ShufflePairs(s, password, j, 0) == s
  {
    hide ExchangeRun; hide From; hide To;
    ShufflePairsNext(s, password, j, pairs);
    ShufflePairsNext(s, password, j, 0);
  }

  lemma KnownEnds()
    ensures From([0x67, 0x69], 0, 0) == 251 && To([0x67, 0x69], 0, 0) == 252
    ensures From([0x63, 0x61, 0x62, 0x6a], 0, 1) == 116 == To([0x63, 0x61, 0x62, 0x6a], 0, 1)
    ensures From([0x63, 0x61, 0x62, 0x6a], 2, 1) == 206 && To([0x63, 0x61, 0x62, 0x6a], 2, 1) == 208
    ensures From([0xdc], 0, 0) == 255 && To([0xdc], 0, 0) == 0
  {
    assert Crc32.TableEntry(0x67) == 0xd3d6_f4fb && Crc32.TableEntry(0x69) == 0x346e_d9fc;
    assert Crc32.TableEntry(0x62) == 0xa3bc_0074;
    assert Crc32.TableEntry(0x61) == 0x3ab5_51ce && Crc32.TableEntry(0x6b) == 0xda60_b8d0;
    assert Crc32.TableEntry(0xdc) == 0x8f65_9eff && Crc32.TableEntry(0) == 0;
  }

  function Place(b: bv8): nat {
    b as int
  }

  predicate Follows(a: bv8, b: bv8) {
    b == a + 1 && a != b
  }

  lemma ExchangeOnce(s: seq<bv8>, n1: bv8, n2: bv8, next: bv8, i: nat, k: nat, a: nat, b: nat)
    requires IsTable(s) && n1 != n2 && Follows(n1, next) && Place(n1) == a < 256 && b == (a + i + k) % 256
    ensures IsTable(Exchanged(s, a, b))
    ensures ExchangeRun(s, n1, n2, i, k) == ExchangeRun(Exchanged(s, a, b), next, n2, i, k + 1)
  {
    hide ExchangeRun;
    ExchangeRunNext(s, n1, n2, i, k);
  }

  lemma KnownPlaces()
    ensures Place(251) == 251 && Place(206) == 206 && Place(207) == 207 && Place(255) == 255
    ensures Follows(251, 252) && Follows(206, 207) && Follows(207, 208) && Follows(255, 0)
  {
  }

  lemma ExchangeNone(s: seq<bv8>, n: bv8, i: nat, k: nat)
    requires IsTable(s)
    ensures ExchangeRun(s, n, n, i, k) == s
  {
  }

  /** The last exchange of a run. */
  lemma ExchangeLast(s: seq<bv8>, n1: bv8, n2: bv8, i: nat, k: nat, a: nat, b: nat)
    requires IsTable(s) && Follows(n1, n2) && Place(n1) == a < 256 && b == (a + i + k) % 256
    ensures ExchangeRun(s, n1, n2, i, k) == Exchanged(s, a, b)
  {
    hide ExchangeRun; hide Place; hide Exchanged;
    ExchangeOnce(s, n1, n2, n2, i, k, a, b);
    ExchangeNone(Exchanged(s, a, b), n2, i, k + 1);
  }

  /** A pair whose run is a single exchange. */
  lemma OneExchange(s: seq<bv8>, t: seq<bv8>, password: seq<bv8>, j: nat, pairs: nat, from: bv8, to: bv8, a: nat, b: nat)
    requires IsTable(s) && j < 256 && 0 < pairs && 2 * pairs <= |password| + 1
    requires t == ShufflePairs(s, password, j, pairs - 1)
    requires From(password, 2 * (pairs - 1), j) == from && To(password, 2 * (pairs - 1), j) == to
    requires Follows(from, to) && Place(from) == a < 256 && b == (a + 2 * (pairs - 1) + 1) % 256
    ensures |t| == 256 && ShufflePairs(s, password, j, pairs) == Exchanged(t, a, b)
  {
    hide ExchangeRun; hide ShufflePairs; hide From; hide To; hide Place; hide Follows; hide Exchanged;
    Exchanges(s, password, j, pairs, from, to);
    ExchangeLast(t, from, to, 2 * (pairs - 1), 1, a, b);
  }

  /** A pair whose run is two exchanges. */
  lemma TwoExchanges(s: seq<bv8>, t: seq<bv8>, password: seq<bv8>, j: nat, pairs: nat, from: bv8, next: bv8, to: bv8,
                     a: nat, b: nat, c: nat)
    requires IsTable(s) && j < 256 && 0 < pairs && 2 * pairs <= |password| + 1
    requires t == ShufflePairs(s, password, j, pairs - 1)
    requires From(password, 2 * (pairs - 1), j) == from && To(password, 2 * (pairs - 1), j) == to && from != to
    requires Follows(from, next) && Follows(next, to) && Place(from) == a < 255 && Place(next) == a + 1
    requires b == (a + 2 * (pairs - 1) + 1) % 256 && c == (a + 1 + 2 * (pairs - 1) + 2) % 256
    ensures |t| == 256 && |Exchanged(t, a, b)| == 256
    ensures ShufflePairs(s, password, j, pairs) == Exchanged(Exchanged(t, a, b), a + 1, c)
  {
    hide ExchangeRun; hide ShufflePairs; hide From; hide To; hide Place; hide Follows; hide Exchanged;
    Exchanges(s, password, j, pairs, from, to);
    ExchangeOnce(t, from, to, next, 2 * (pairs - 1), 1, a, b);
    ExchangeLast(Exchanged(t, a, b), next, to, 2 * (pairs - 1), 2, a + 1, c);
  }

  /** A pair whose ends are the same exchanges nothing. */
  lemma NoExchange(s: seq<bv8>, password: seq<bv8>, j: nat, pairs: nat, end: bv8)
    requires IsTable(s) && j < 256 && 0 < pairs && 2 * pairs <= |password| + 1
    requires From(password, 2 * (pairs - 1), j) == end == To(password, 2 * (pairs - 1), j)
    ensures ShufflePairs(s, password, j, pairs) == ShufflePairs(s, password, j, pairs - 1)
    ensures ShufflePairs(s, password, j, 0) == s
  {
    hide ExchangeRun; hide ShufflePairs; hide From; hide To;
    Exchanges(s, password, j, pairs, end, end);
    ExchangeNone(ShufflePairs(s, password, j, pairs - 1), end, 2 * (pairs - 1), 1);
  }

  /** The bytes of "gi" lead from entry 251 to 252. */
  lemma KnownExchange(s: seq<bv8>)
    requires IsTable(s)
    ensures ShufflePairs(s, [0x67, 0x69], 0, 1) == s[251 := s[252]][252 := s[251]]
  {
    hide ShufflePairs; hide From; hide To; hide Place; hide Follows;
    KnownEnds();
    KnownPlaces();
    NoPairs(s, [0x67, 0x69], 0);
    OneExchange(s, s, [0x67, 0x69], 0, 1, 251, 252, 251, 252);
  }

  /** In the second pass over "cabj" the first pair exchanges nothing, and the second two
      entries, at distances that grow with the place in the password and the count. */
  lemma KnownExchanges(s: seq<bv8>)
    requires IsTable(s)
    ensures ShufflePairs(s, [0x63, 0x61, 0x62, 0x6a], 1, 2)
         == s[206 := s[209]][209 := s[206]][207 := s[211]][211 := s[207]]
  {
    hide ShufflePairs; hide From; hide To; hide Place; hide Follows;
    KnownEnds();
    KnownPlaces();
    NoExchange(s, [0x63, 0x61, 0x62, 0x6a], 1, 1, 116);
    TwoExchanges(s, s, [0x63, 0x61, 0x62, 0x6a], 1, 2, 206, 207, 208, 206, 209, 211);
  }

  /** A last byte without partner is paired with a zero, and the counter wraps around. */
  lemma KnownLastByte(s: seq<bv8>)
    requires IsTable(s)
    ensures ShufflePairs(s, [0xdc], 0, 1) == s[255 := s[0]][0 := s[255]]
  {
    hide ShufflePairs; hide From; hide To; hide Place; hide Follows;
    KnownEnds();
    KnownPlaces();
    NoPairs(s, [0xdc], 0);
    OneExchange(s, s, [0xdc], 0, 1, 255, 0, 255, 0);
  }

  /** The first two passes over "b-" exchange entry 116, and then entry 206, with its
      neighbour. */
  lemma KnownPasses(s: seq<bv8>)
    requires IsTable(s)
    ensures var t := s[116 := s[117]][117 := s[116]];
            Shuffle(s, [0x62, 0x2d], 2) == t[206 := t[207]][207 := t[206]]
  {
    hide ShufflePairs; hide Shuffle;
    TwoPasses(s, [0x62, 0x2d]);
    FirstPass(s);
    SecondPass(Exchanged(s, 116, 117));
  }

  lemma FirstPass(s: seq<bv8>)
    requires IsTable(s)
    ensures ShufflePairs(s, [0x62, 0x2d], 0, 1) == Exchanged(s, 116, 117)
  {
    hide ShufflePairs; hide From; hide To; hide Place; hide Follows; hide Exchanged;
    PassEnds();
    PassPlaces();
    NoPairs(s, [0x62, 0x2d], 0);
    OneExchange(s, s, [0x62, 0x2d], 0, 1, 116, 117, 116, 117);
  }

  lemma SecondPass(s: seq<bv8>)
    requires IsTable(s)
    ensures ShufflePairs(s, [0x62, 0x2d], 1, 1) == Exchanged(s, 206, 207)
  {
    hide ShufflePairs; hide From; hide To; hide Place; hide Follows; hide Exchanged;
    PassEnds();
    PassPlaces();
    NoPairs(s, [0x62, 0x2d], 1);
    OneExchange(s, s, [0x62, 0x2d], 1, 1, 206, 207, 206, 207);
  }

  lemma NoPairs(s: seq<bv8>, password: seq<bv8>, j: nat)
    requires IsTable(s) && j < 256
    ensures ShufflePairs(s, password, j, 0) == s
  {
  }

  lemma TwoPasses(s: seq<bv8>, password: seq<bv8>)
    requires IsTable(s) && |password| == 2
    ensures Shuffle(s, password, 2) == ShufflePairs(ShufflePairs(s, password, 0, 1), password, 1, 1)
  {
    hide ShufflePairs;
    assert Shuffle(s, password, 1) == ShufflePairs(Shuffle(s, password, 0), password, 0, 1);
  }

  lemma PassEnds()
    ensures From([0x62, 0x2d], 0, 0) == 116 && To([0x62, 0x2d], 0, 0) == 117
    ensures From([0x62, 0x2d], 0, 1) == 206 && To([0x62, 0x2d], 0, 1) == 207
  {
    assert Crc32.TableEntry(0x62) == 0xa3bc_0074 && Crc32.TableEntry(0x2d) == 0x45df_5c75;
    assert Crc32.TableEntry(0x61) == 0x3ab5_51ce && Crc32.TableEntry(0x2e) == 0xdcd6_0dcf;
  }

  lemma PassPlaces()
    ensures Place(116) == 116 && Place(206) == 206 && Follows(116, 117) && Follows(206, 207)
  {
  }
}
