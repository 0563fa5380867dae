/** The worked examples of RFC 8439, which fix the rounds, their order, and the order of octets. */
module ChaChaExample {
  import opened ChaCha
  import opened Words32

  /** Section 2.1.1. */
  lemma QuarterRoundExample()
    ensures QuarterRound(0x1111_1111, 0x0102_0304, 0x9b8d_6f43, 0x0123_4567)
         == Quarter(0xea2a_92f4, 0xcb1c_f8ce, 0x4581_472e, 0x5881_c4bb)
  {
    assert Plus(0x1111_1111, 0x0102_0304) == 0x1213_1415;
    assert Rotate(Xor(0x0123_4567, 0x1213_1415), 16) == 0x5172_1330;
    assert Plus(0x9b8d_6f43, 0x5172_1330) == 0xecff_8273;
    assert Rotate(Xor(0x0102_0304, 0xecff_8273), 12) == 0xd817_7edf;
    assert Plus(0x1213_1415, 0xd817_7edf) == 0xea2a_92f4;
    assert Rotate(Xor(0x5172_1330, 0xea2a_92f4), 8) == 0x5881_c4bb;
    assert Plus(0xecff_8273, 0x5881_c4bb) == 0x4581_472e;
    assert Rotate(Xor(0xd817_7edf, 0x4581_472e), 7) == 0xcb1c_f8ce;
    hide Plus, Xor, Rotate;
  }

  /**
   Section 2.3.2: the constants, the key 00 01 .. 1f, block counter 1 and the nonce, and the state after each round,
   first on columns, then on diagonals.
   */
  function After(rounds: nat): State {
    match rounds
    case 0 =>
      State(Row(0x6170_7865, 0x3320_646e, 0x7962_2d32, 0x6b20_6574),
            Row(0x0302_0100, 0x0706_0504, 0x0b0a_0908, 0x0f0e_0d0c),
            Row(0x1312_1110, 0x1716_1514, 0x1b1a_1918, 0x1f1e_1d1c),
            Row(0x0000_0001, 0x0900_0000, 0x4a00_0000, 0x0000_0000))
    case 1 =>
      State(Row(0xabba_a25c, 0x1efa_51ea, 0x7354_fbdf, 0x83d2_dc69),
            Row(0x3a46_5196, 0x1c7e_64f6, 0xb12f_b628, 0xf05b_6976),
            Row(0x6b3c_a454, 0x08eb_14b1, 0xbf8a_9ac9, 0xe444_df3b),
            Row(0xdec6_2ed2, 0x8862_cc77, 0x6e35_b345, 0x52a6_47f1))
    case 2 =>
      State(Row(0xcd52_e917, 0x85ab_03b4, 0xb345_7395, 0xf96d_e7dd),
            Row(0xc4b7_cd22, 0x5c2e_187a, 0xc95e_b461, 0x316c_801a),
            Row(0x7bf7_d740, 0x7edd_d644, 0xf1a1_bdf5, 0x7612_46ca),
            Row(0x6b0d_58a3, 0x6798_471a, 0xd737_f167, 0xf173_888d))
    case 3 =>
      State(Row(0xe3e1_111b, 0xa629_1491, 0x5a82_b80c, 0x4500_fd45),
            Row(0xd65b_5b5b, 0xf56a_f099, 0x4ccc_8103, 0xc94d_29e2),
            Row(0xe67a_ec54, 0xf7a5_2d82, 0xdb47_0914, 0xdfb4_0f1d),
            Row(0x7be8_1c0d, 0x1d92_d0fd, 0x1313_9f8c, 0x7a26_ecaa))
    case 4 =>
      State(Row(0xcf1a_7584, 0x0489_27ec, 0x5405_1fda, 0xc244_ff28),
            Row(0x901d_2f40, 0x7974_b81c, 0x378d_cfb4, 0xcd47_fd0e),
            Row(0x2daf_b216, 0x27c8_9cd6, 0xcd3c_9aa0, 0x79fc_89c7),
            Row(0x10ae_f18d, 0x1621_8765, 0x68f7_6705, 0x04d6_ee22))
    case 5 =>
      State(Row(0xa226_95f2, 0xa908_cf6c, 0xe6ae_05b2, 0xfe0f_f04b),
            Row(0x1ece_4458, 0xe82b_726f, 0x5a21_ab90, 0x8769_8c64),
            Row(0xf2d3_6da6, 0xf4da_b980, 0x7baf_5573, 0xa78c_270d),
            Row(0x6fda_6bf7, 0x65a4_b0ce, 0x25e6_d76e, 0x1b7b_11ec))
    case 6 =>
      State(Row(0x03a1_4032, 0x66b1_5927, 0x9d6b_6b42, 0xb84c_4109),
            Row(0xa714_3ae0, 0xa09b_33dd, 0xa5da_af88, 0x2fd9_1a73),
            Row(0xc90c_6b18, 0x5a20_2413, 0xc20e_01b6, 0x72cd_6b74),
            Row(0xba35_d777, 0xb360_f1bf, 0x8178_315b, 0x2cd1_1b1a))
    case 7 =>
      State(Row(0xfecd_0838, 0x160a_b468, 0x9a0d_df4e, 0xbac7_154a),
            Row(0xcedf_6624, 0xb11d_e6c4, 0xbd78_10ef, 0xd22b_5643),
            Row(0x1d8a_33ea, 0x87dc_1ca9, 0x89bd_34a5, 0x5505_ef62),
            Row(0xa818_b852, 0xb100_446a, 0x9c1d_70b1, 0xa1d1_befa))
    case 8 =>
      State(Row(0x9a2d_3589, 0x0b23_fc4e, 0x40af_3b6b, 0xceea_8144),
            Row(0x0a1b_ffc6, 0x5e59_93f7, 0x9904_c2e7, 0x0d33_4718),
            Row(0xe46c_6354, 0xc950_3229, 0x04fe_f5aa, 0xf893_3f72),
            Row(0x2687_d476, 0x54e6_5231, 0x3594_ffc5, 0x2b3b_b2ca))
    case 9 =>
      State(Row(0x85e7_824a, 0x4940_cd9e, 0xfbe7_684b, 0x7335_d03d),
            Row(0x1c13_3ea1, 0xbba4_0b0f, 0x9413_992a, 0xa4ab_2040),
            Row(0xa3a6_6a86, 0xc0b4_754f, 0x771b_4ecb, 0x1651_51a1),
            Row(0xde00_8464, 0x34f0_058b, 0x7084_6cfa, 0xa327_1b09))
    case 10 =>
      State(Row(0xc533_18c5, 0xca32_5d96, 0x7e7d_11cb, 0x3404_e2ca),
            Row(0x26d7_cf73, 0x6088_d379, 0xc0f0_e9bd, 0xe310_cdb9),
            Row(0xae2c_a8db, 0x42f6_7c72, 0x7166_9aca, 0x975c_171d),
            Row(0x9e5e_c228, 0x7d85_a9f3, 0x201d_0756, 0x63fa_6953))
    case 11 =>
      State(Row(0x9950_b826, 0xcac7_ccc6, 0x84a6_7673, 0xdb31_09a6),
            Row(0x2121_065a, 0xc12b_dadb, 0xcae3_acd1, 0x5946_16cb),
            Row(0x1907_8de2, 0x178e_cc02, 0xe6ad_bdb2, 0x52a9_d50e),
            Row(0x40ca_72b3, 0x3b9b_f852, 0x7869_0378, 0xe17d_4902))
    case 12 =>
      State(Row(0x04a3_131a, 0x6617_6309, 0x0415_bab1, 0x61b8_80a2),
            Row(0x36cc_86c7, 0xbf8a_4465, 0xf77d_d720, 0xfc0b_dc90),
            Row(0x07d1_3aca, 0xeb0b_e9af, 0x6159_9491, 0x9185_12dc),
            Row(0x33b6_686d, 0x795c_c671, 0xc004_9972, 0xa0a8_1bde))
    case 13 =>
      State(Row(0x57c5_e6da, 0x35ce_46a8, 0x0c04_1bb9, 0xfa91_df79),
            Row(0x8e85_d82f, 0xb481_9d06, 0xb63b_e200, 0xacd2_21e4),
            Row(0x434b_4749, 0x1d45_9c00, 0x111c_fe2c, 0x5594_2604),
            Row(0x49ee_03a6, 0xd11a_5554, 0xa720_2e04, 0x7d22_15bc))
    case 14 =>
      State(Row(0x9b70_f51f, 0x7ea8_ac11, 0x21e5_4da9, 0xca39_3b2f),
            Row(0x93b0_8686, 0x6a4c_50ae, 0x1921_2a5a, 0x9b03_2958),
            Row(0xd839_165e, 0x4c06_e28a, 0xd3fd_e99e, 0x26ac_c13d),
            Row(0xa609_f555, 0x2c24_6549, 0x9515_1853, 0x2c84_7a0d))
    case 15 =>
      State(Row(0xc0b1_8aee, 0x0874_45ba, 0x36e5_2ad9, 0xa777_426a),
            Row(0xdeb5_4e9c, 0x802c_883b, 0x06e8_6889, 0x3c00_2680),
            Row(0xa82d_65d4, 0x687f_11eb, 0xe9d3_6207, 0x4242_ddae),
            Row(0x4103_c64e, 0x8281_6a91, 0xb584_ca56, 0xfd0b_d2b9))
    case 16 =>
      State(Row(0xca5c_85dd, 0x93a4_f90e, 0xd9f0_df58, 0x26dd_82dd),
            Row(0x9825_63f8, 0x712a_a9ff, 0x279a_61e8, 0x970f_72bd),
            Row(0x1c25_931a, 0x5180_bb10, 0x779c_27e7, 0x5407_7e08),
            Row(0xa9b7_51fb, 0x382f_3ce2, 0x8db1_757d, 0xcc38_080b))
    case 17 =>
      State(Row(0x765c_6e9c, 0x5ab0_9b11, 0x3ee7_da04, 0x37c3_1203),
            Row(0x9046_ecaa, 0x7b88_d882, 0xb9b5_77dd, 0x156d_e7ed),
            Row(0x46fa_091e, 0x5117_e9b5, 0x862f_f22b, 0xa3fc_c7a6),
            Row(0x72a5_aace, 0x5fa7_f1c5, 0xda56_3e0a, 0x5263_d7ca))
    case 18 =>
      State(Row(0xb6b8_7de6, 0x9a01_6148, 0x9385_9815, 0x4915_e6cc),
            Row(0xdc33_c122, 0x98e1_8fa3, 0x5ffb_e8fc, 0xf715_4b8b),
            Row(0x28c1_fcb3, 0xc4b3_8f9d, 0x83e2_f5d7, 0x7d24_b98b),
            Row(0x2107_8b22, 0xb193_e7a3, 0xb2f4_9389, 0x6cde_6026))
    case 19 =>
      State(Row(0x8a07_ff15, 0x0cad_c51c, 0x017c_8da9, 0x4afb_e5df),
            Row(0x9137_68fe, 0x442a_0c0c, 0x598f_e3bb, 0x47d1_8828),
            Row(0x0a39_aedc, 0xc142_8029, 0x7b48_135f, 0x5a5f_1098),
            Row(0x2d4c_fe3e, 0xe546_6d1b, 0xe4cc_dc13, 0x8ac9_2a18))
    case _ =>
      State(Row(0x8377_78ab, 0xe238_d763, 0xa67a_e21e, 0x5950_bb2f),
            Row(0xc4f2_d0c7, 0xfc62_bb2f, 0x8fa0_18fc, 0x3f5e_c7b7),
            Row(0x3352_71c2, 0xf294_89f3, 0xeabd_a8fc, 0x82e4_6ebd),
            Row(0xd19c_12b4, 0xb04e_16de, 0x9e83_d0cb, 0x4e3c_50a2))
  }

  lemma Columns(s: State, t: State)
    requires QuarterRound(s.r0.a, s.r1.a, s.r2.a, s.r3.a) == Quarter(t.r0.a, t.r1.a, t.r2.a, t.r3.a)
    requires QuarterRound(s.r0.b, s.r1.b, s.r2.b, s.r3.b) == Quarter(t.r0.b, t.r1.b, t.r2.b, t.r3.b)
    requires QuarterRound(s.r0.c, s.r1.c, s.r2.c, s.r3.c) == Quarter(t.r0.c, t.r1.c, t.r2.c, t.r3.c)
    requires QuarterRound(s.r0.d, s.r1.d, s.r2.d, s.r3.d) == Quarter(t.r0.d, t.r1.d, t.r2.d, t.r3.d)
    ensures ColumnRound(s) == t
  {
    hide QuarterRound;
  }

  lemma Diagonals(s: State, t: State)
    requires QuarterRound(s.r0.a, s.r1.b, s.r2.c, s.r3.d) == Quarter(t.r0.a, t.r1.b, t.r2.c, t.r3.d)
    requires QuarterRound(s.r0.b, s.r1.c, s.r2.d, s.r3.a) == Quarter(t.r0.b, t.r1.c, t.r2.d, t.r3.a)
    requires QuarterRound(s.r0.c, s.r1.d, s.r2.a, s.r3.b) == Quarter(t.r0.c, t.r1.d, t.r2.a, t.r3.b)
    requires QuarterRound(s.r0.d, s.r1.a, s.r2.b, s.r3.c) == Quarter(t.r0.d, t.r1.a, t.r2.b, t.r3.c)
    ensures DiagonalRound(s) == t
  {
    hide QuarterRound;
  }

  lemma TwoRounds0()
    ensures DiagonalRound(ColumnRound(After(0))) == After(2)
  {
    assert ColumnRound(After(0)) == After(1) by { Columns0(); }
    Diagonals0();
    hide ColumnRound, DiagonalRound, After;
  }

  lemma Columns0()
    ensures ColumnRound(After(0)) == After(1)
  {
    hide ColumnRound;
    Columns(After(0), After(1));
  }

  lemma Diagonals0()
    ensures DiagonalRound(After(1)) == After(2)
  {
    hide DiagonalRound;
    Diagonals(After(1), After(2));
  }

  lemma TwoRounds1()
    ensures DiagonalRound(ColumnRound(After(2))) == After(4)
  {
    assert ColumnRound(After(2)) == After(3) by { Columns1(); }
    Diagonals1();
    hide ColumnRound, DiagonalRound, After;
  }

  lemma Columns1()
    ensures ColumnRound(After(2)) == After(3)
  {
    hide ColumnRound;
    Columns(After(2), After(3));
  }

  lemma Diagonals1()
    ensures DiagonalRound(After(3)) == After(4)
  {
    hide DiagonalRound;
    Diagonals(After(3), After(4));
  }

  lemma TwoRounds2()
    ensures DiagonalRound(ColumnRound(After(4))) == After(6)
  {
    assert ColumnRound(After(4)) == After(5) by { Columns2(); }
    Diagonals2();
    hide ColumnRound, DiagonalRound, After;
  }

  lemma Columns2()
    ensures ColumnRound(After(4)) == After(5)
  {
    hide ColumnRound;
    Columns(After(4), After(5));
  }

  lemma Diagonals2()
    ensures DiagonalRound(After(5)) == After(6)
  {
    hide DiagonalRound;
    Diagonals(After(5), After(6));
  }

  lemma TwoRounds3()
    ensures DiagonalRound(ColumnRound(After(6))) == After(8)
  {
    assert ColumnRound(After(6)) == After(7) by { Columns3(); }
    Diagonals3();
    hide ColumnRound, DiagonalRound, After;
  }

  lemma Columns3()
    ensures ColumnRound(After(6)) == After(7)
  {
    hide ColumnRound;
    Columns(After(6), After(7));
  }

  lemma Diagonals3()
    ensures DiagonalRound(After(7)) == After(8)
  {
    hide DiagonalRound;
    Diagonals(After(7), After(8));
  }

  lemma TwoRounds4()
    ensures DiagonalRound(ColumnRound(After(8))) == After(10)
  {
    assert ColumnRound(After(8)) == After(9) by { Columns4(); }
    Diagonals4();
    hide ColumnRound, DiagonalRound, After;
  }

  lemma Columns4()
    ensures ColumnRound(After(8)) == After(9)
  {
    hide ColumnRound;
    Columns(After(8), After(9));
  }

  lemma Diagonals4()
    ensures DiagonalRound(After(9)) == After(10)
  {
    hide DiagonalRound;
    Diagonals(After(9), After(10));
  }

  lemma TwoRounds5()
    ensures DiagonalRound(ColumnRound(After(10))) == After(12)
  {
    assert ColumnRound(After(10)) == After(11) by { Columns5(); }
    Diagonals5();
    hide ColumnRound, DiagonalRound, After;
  }

  lemma Columns5()
    ensures ColumnRound(After(10)) == After(11)
  {
    hide ColumnRound;
    Columns(After(10), After(11));
  }

  lemma Diagonals5()
    ensures DiagonalRound(After(11)) == After(12)
  {
    hide DiagonalRound;
    Diagonals(After(11), After(12));
  }

  lemma TwoRounds6()
    ensures DiagonalRound(ColumnRound(After(12))) == After(14)
  {
    assert ColumnRound(After(12)) == After(13) by { Columns6(); }
    Diagonals6();
    hide ColumnRound, DiagonalRound, After;
  }

  lemma Columns6()
    ensures ColumnRound(After(12)) == After(13)
  {
    hide ColumnRound;
    Columns(After(12), After(13));
  }

  lemma Diagonals6()
    ensures DiagonalRound(After(13)) == After(14)
  {
    hide DiagonalRound;
    Diagonals(After(13), After(14));
  }

  lemma TwoRounds7()
    ensures DiagonalRound(ColumnRound(After(14))) == After(16)
  {
    assert ColumnRound(After(14)) == After(15) by { Columns7(); }
    Diagonals7();
    hide ColumnRound, DiagonalRound, After;
  }

  lemma Columns7()
    ensures ColumnRound(After(14)) == After(15)
  {
    hide ColumnRound;
    Columns(After(14), After(15));
  }

  lemma Diagonals7()
    ensures DiagonalRound(After(15)) == After(16)
  {
    hide DiagonalRound;
    Diagonals(After(15), After(16));
  }

  lemma TwoRounds8()
    ensures DiagonalRound(ColumnRound(After(16))) == After(18)
  {
    assert ColumnRound(After(16)) == After(17) by { Columns8(); }
    Diagonals8();
    hide ColumnRound, DiagonalRound, After;
  }

  lemma Columns8()
    ensures ColumnRound(After(16)) == After(17)
  {
    hide ColumnRound;
    Columns(After(16), After(17));
  }

  lemma Diagonals8()
    ensures DiagonalRound(After(17)) == After(18)
  {
    hide DiagonalRound;
    Diagonals(After(17), After(18));
  }

  lemma TwoRounds9()
    ensures DiagonalRound(ColumnRound(After(18))) == After(20)
  {
    assert ColumnRound(After(18)) == After(19) by { Columns9(); }
    Diagonals9();
    hide ColumnRound, DiagonalRound, After;
  }

  lemma Columns9()
    ensures ColumnRound(After(18)) == After(19)
  {
    hide ColumnRound;
    Columns(After(18), After(19));
  }

  lemma Diagonals9()
    ensures DiagonalRound(After(19)) == After(20)
  {
    hide DiagonalRound;
    Diagonals(After(19), After(20));
  }

  lemma {:induction false} Rounds(n: nat)
    requires n <= 10
    ensures DoubleRounds(After(0), n) == After(2 * n)
  {
    hide ColumnRound, DiagonalRound, After;
    if n > 0 {
      Rounds(n - 1);
      match n
      case 1 => TwoRounds0();
      case 2 => TwoRounds1();
      case 3 => TwoRounds2();
      case 4 => TwoRounds3();
      case 5 => TwoRounds4();
      case 6 => TwoRounds5();
      case 7 => TwoRounds6();
      case 8 => TwoRounds7();
      case 9 => TwoRounds8();
      case 10 => TwoRounds9();
    }
  }

  lemma BlockExample()
    ensures Block(After(0), 10)
         == State(Row(0xe4e7_f110, 0x1559_3bd1, 0x1fdd_0f50, 0xc471_20a3),
                  Row(0xc7f4_d1c7, 0x0368_c033, 0x9aaa_2204, 0x4e6c_d4c3),
                  Row(0x4664_82d2, 0x09aa_9f07, 0x05d7_c214, 0xa202_8bd9),
                  Row(0xd19c_12b5, 0xb94e_16de, 0xe883_d0cb, 0x4e3c_50a2))
  {
    hide DoubleRounds, After, AddRows;
    Rounds(10);
    AddedRows();
  }

  lemma AddedRows()
    ensures AddRows(After(20).r0, After(0).r0)
         == Row(0xe4e7_f110, 0x1559_3bd1, 0x1fdd_0f50, 0xc471_20a3)
    ensures AddRows(After(20).r1, After(0).r1)
         == Row(0xc7f4_d1c7, 0x0368_c033, 0x9aaa_2204, 0x4e6c_d4c3)
    ensures AddRows(After(20).r2, After(0).r2)
         == Row(0x4664_82d2, 0x09aa_9f07, 0x05d7_c214, 0xa202_8bd9)
    ensures AddRows(After(20).r3, After(0).r3)
         == Row(0xd19c_12b5, 0xb94e_16de, 0xe883_d0cb, 0x4e3c_50a2)
  {
  }

  /** The octets of the block, as the RFC prints them. */
  lemma SerializedExample()
    ensures Serialize(Block(After(0), 10))
         == [0x10, 0xf1, 0xe7, 0xe4, 0xd1, 0x3b, 0x59, 0x15, 0x50, 0x0f, 0xdd, 0x1f, 0xa3, 0x20, 0x71, 0xc4]
          + [0xc7, 0xd1, 0xf4, 0xc7, 0x33, 0xc0, 0x68, 0x03, 0x04, 0x22, 0xaa, 0x9a, 0xc3, 0xd4, 0x6c, 0x4e]
          + [0xd2, 0x82, 0x64, 0x46, 0x07, 0x9f, 0xaa, 0x09, 0x14, 0xc2, 0xd7, 0x05, 0xd9, 0x8b, 0x02, 0xa2]
          + [0xb5, 0x12, 0x9c, 0xd1, 0xde, 0x16, 0x4e, 0xb9, 0xcb, 0xd0, 0x83, 0xe8, 0xa2, 0x50, 0x3c, 0x4e]
  {
    hide Block, After, RowOctets;
    BlockExample();
    Row0();
    Row1();
    Row2();
    Row3();
  }

  lemma Row0()
    ensures RowOctets(Row(0xe4e7_f110, 0x1559_3bd1, 0x1fdd_0f50, 0xc471_20a3)) == [
      0x10, 0xf1, 0xe7, 0xe4, 0xd1, 0x3b, 0x59, 0x15, 0x50, 0x0f, 0xdd, 0x1f, 0xa3, 0x20, 0x71, 0xc4
    ]
  {
    Joined(0x10, 0xf1, 0xe7, 0xe4, 0xe4e7_f110);
    Joined(0xd1, 0x3b, 0x59, 0x15, 0x1559_3bd1);
    Joined(0x50, 0x0f, 0xdd, 0x1f, 0x1fdd_0f50);
    Joined(0xa3, 0x20, 0x71, 0xc4, 0xc471_20a3);
    hide RowOctets, Join;
    RowOctetsUnique(Row(0xe4e7_f110, 0x1559_3bd1, 0x1fdd_0f50, 0xc471_20a3), [
      0x10, 0xf1, 0xe7, 0xe4, 0xd1, 0x3b, 0x59, 0x15, 0x50, 0x0f, 0xdd, 0x1f, 0xa3, 0x20, 0x71, 0xc4
    ]);
  }

  lemma Row1()
    ensures RowOctets(Row(0xc7f4_d1c7, 0x0368_c033, 0x9aaa_2204, 0x4e6c_d4c3)) == [
      0xc7, 0xd1, 0xf4, 0xc7, 0x33, 0xc0, 0x68, 0x03, 0x04, 0x22, 0xaa, 0x9a, 0xc3, 0xd4, 0x6c, 0x4e
    ]
  {
    Joined(0xc7, 0xd1, 0xf4, 0xc7, 0xc7f4_d1c7);
    Joined(0x33, 0xc0, 0x68, 0x03, 0x0368_c033);
    Joined(0x04, 0x22, 0xaa, 0x9a, 0x9aaa_2204);
    Joined(0xc3, 0xd4, 0x6c, 0x4e, 0x4e6c_d4c3);
    hide RowOctets, Join;
    RowOctetsUnique(Row(0xc7f4_d1c7, 0x0368_c033, 0x9aaa_2204, 0x4e6c_d4c3), [
      0xc7, 0xd1, 0xf4, 0xc7, 0x33, 0xc0, 0x68, 0x03, 0x04, 0x22, 0xaa, 0x9a, 0xc3, 0xd4, 0x6c, 0x4e
    ]);
  }

  lemma Row2()
    ensures RowOctets(Row(0x4664_82d2, 0x09aa_9f07, 0x05d7_c214, 0xa202_8bd9)) == [
      0xd2, 0x82, 0x64, 0x46, 0x07, 0x9f, 0xaa, 0x09, 0x14, 0xc2, 0xd7, 0x05, 0xd9, 0x8b, 0x02, 0xa2
    ]
  {
    Joined(0xd2, 0x82, 0x64, 0x46, 0x4664_82d2);
    Joined(0x07, 0x9f, 0xaa, 0x09, 0x09aa_9f07);
    Joined(0x14, 0xc2, 0xd7, 0x05, 0x05d7_c214);
    Joined(0xd9, 0x8b, 0x02, 0xa2, 0xa202_8bd9);
    hide RowOctets, Join;
    RowOctetsUnique(Row(0x4664_82d2, 0x09aa_9f07, 0x05d7_c214, 0xa202_8bd9), [
      0xd2, 0x82, 0x64, 0x46, 0x07, 0x9f, 0xaa, 0x09, 0x14, 0xc2, 0xd7, 0x05, 0xd9, 0x8b, 0x02, 0xa2
    ]);
  }

  lemma Row3()
    ensures RowOctets(Row(0xd19c_12b5, 0xb94e_16de, 0xe883_d0cb, 0x4e3c_50a2)) == [
      0xb5, 0x12, 0x9c, 0xd1, 0xde, 0x16, 0x4e, 0xb9, 0xcb, 0xd0, 0x83, 0xe8, 0xa2, 0x50, 0x3c, 0x4e
    ]
  {
    Joined(0xb5, 0x12, 0x9c, 0xd1, 0xd19c_12b5);
    Joined(0xde, 0x16, 0x4e, 0xb9, 0xb94e_16de);
    Joined(0xcb, 0xd0, 0x83, 0xe8, 0xe883_d0cb);
    Joined(0xa2, 0x50, 0x3c, 0x4e, 0x4e3c_50a2);
    hide RowOctets, Join;
    RowOctetsUnique(Row(0xd19c_12b5, 0xb94e_16de, 0xe883_d0cb, 0x4e3c_50a2), [
      0xb5, 0x12, 0x9c, 0xd1, 0xde, 0x16, 0x4e, 0xb9, 0xcb, 0xd0, 0x83, 0xe8, 0xa2, 0x50, 0x3c, 0x4e
    ]);
  }

  lemma Joined(b0: bv8, b1: bv8, b2: bv8, b3: bv8, x: bv32)
    requires (b3 as bv32 << 24) | (b2 as bv32 << 16) | (b1 as bv32 << 8) | b0 as bv32 == x
    ensures Join(b0, b1, b2, b3) == x
  {
  }
}
