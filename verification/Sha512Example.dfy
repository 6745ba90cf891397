/** The digest of the three bytes "abc", the example of FIPS 180-4, worked out from the specification: the message
    schedule eight words at a time, then the rounds. Any change of a constant, a rotation or an index changes it. */
module Sha512Example {
  import opened Words
  import opened Sha512Constants
  import opened Sha512Spec

  /** The padded message is one block. */
  predicate Message(b: seq<byte>) {
    && |b| == 128 && b[0] == 0x61 && b[1] == 0x62 && b[2] == 0x63 && b[3] == 0x80 && b[127] == 24
    && forall i :: 4 <= i < 127 ==> b[i] == 0
  }

  predicate WordsAt(b: seq<byte>, t: nat,
                    w0: bv64, w1: bv64, w2: bv64, w3: bv64, w4: bv64, w5: bv64, w6: bv64, w7: bv64)
    requires |b| == 128
  {
    && Schedule(b, t) == w0 && Schedule(b, t + 1) == w1 && Schedule(b, t + 2) == w2 && Schedule(b, t + 3) == w3
    && Schedule(b, t + 4) == w4 && Schedule(b, t + 5) == w5 && Schedule(b, t + 6) == w6 && Schedule(b, t + 7) == w7
  }

  /** A word whose bytes are zero except these. */
  lemma LoadedWord(b: seq<byte>, i: nat)
    requires i + 8 <= |b|
    ensures b[i..i + 8] == [0, 0, 0, 0, 0, 0, 0, 0] ==> LoadWord(b, i) == 0
    ensures b[i..i + 8] == [0x61, 0x62, 0x63, 0x80, 0, 0, 0, 0] ==> LoadWord(b, i) == 0x61626380_00000000
    ensures b[i..i + 8] == [0, 0, 0, 0, 0, 0, 0, 24] ==> LoadWord(b, i) == 24
  {
    var w := b[i..i + 8];
    assert w[0] == b[i] && w[1] == b[i + 1] && w[2] == b[i + 2] && w[3] == b[i + 3];
    assert w[4] == b[i + 4] && w[5] == b[i + 5] && w[6] == b[i + 6] && w[7] == b[i + 7];
  }

  lemma FirstWords(b: seq<byte>, t: nat)
    requires Message(b) && t < 16
    ensures Schedule(b, t) == if t == 0 then 0x61626380_00000000 else if t == 15 then 24 else 0
  {
    hide LoadWord;
    LoadedWord(b, 8 * t);
    if t == 0 {
      assert b[0..8] == [0x61, 0x62, 0x63, 0x80, 0, 0, 0, 0];
    } else if t == 15 {
      assert b[120..128] == [0, 0, 0, 0, 0, 0, 0, 24];
    } else {
      assert b[8 * t..8 * t + 8] == [0, 0, 0, 0, 0, 0, 0, 0];
    }
  }

  predicate Scheduled(b: seq<byte>, t: nat)
    requires |b| == 128 && t >= 16
  {
    Schedule(b, t) == NextWord(Schedule(b, t - 2), Schedule(b, t - 7), Schedule(b, t - 15), Schedule(b, t - 16))
  }

  lemma NextWords(b: seq<byte>, t: nat)
    requires |b| == 128 && t >= 16
    ensures Scheduled(b, t) && Scheduled(b, t + 1) && Scheduled(b, t + 2) && Scheduled(b, t + 3)
    ensures Scheduled(b, t + 4) && Scheduled(b, t + 5) && Scheduled(b, t + 6) && Scheduled(b, t + 7)
  {
    hide NextWord;
  }

  lemma Words0(b: seq<byte>)
    requires |b| == 128 && Message(b)
    ensures WordsAt(b, 0,
                    0x61626380_00000000, 0x00000000_00000000, 0x00000000_00000000, 0x00000000_00000000,
                    0x00000000_00000000, 0x00000000_00000000, 0x00000000_00000000, 0x00000000_00000000)
  {
    hide Schedule, Message;
    forall t: nat | t < 16 { FirstWords(b, t); }
  }

  lemma Words1(b: seq<byte>)
    requires |b| == 128 && Message(b)
    ensures WordsAt(b, 8,
                    0x00000000_00000000, 0x00000000_00000000, 0x00000000_00000000, 0x00000000_00000000,
                    0x00000000_00000000, 0x00000000_00000000, 0x00000000_00000000, 0x00000000_00000018)
  {
    hide Schedule, Message;
    forall t: nat | t < 16 { FirstWords(b, t); }
  }

  lemma Words2(b: seq<byte>)
    requires |b| == 128 && Message(b)
    ensures WordsAt(b, 16,
                    0x61626380_00000000, 0x00030000_000000c0, 0x0a9699a2_4c700003, 0x00000c00_60000603,
                    0x549ef626_39858996, 0x00c00033_00003c00, 0x1497007a_8a0e9dbc, 0x62e56500_cc0780f0)
  {
    hide Schedule, Message;
    Words0(b);
    Words1(b);
    NextWords(b, 16);
  }

  lemma Words3(b: seq<byte>)
    requires |b| == 128 && Message(b)
    ensures WordsAt(b, 24,
                    0x7760dd47_5a538797, 0xf1554b71_1c1c0003, 0xca2993a4_345d9ff2, 0x5e0e66b5_c783dd32,
                    0xe25a625d_00494b62, 0x9f44486f_b1e4fbd2, 0xb31b8c2b_06085f2f, 0x0e987660_934142f6)
  {
    hide Schedule, Message;
    Words1(b);
    Words2(b);
    NextWords(b, 24);
  }

  lemma Words4(b: seq<byte>)
    requires |b| == 128 && Message(b)
    ensures WordsAt(b, 32,
                    0xa4af2cfd_09fbb924, 0xad289e2e_0bd53186, 0x3c74563a_a2f9673e, 0x6ccdcd14_cc14b53f,
                    0xc3f925b3_37f22bde, 0x5bcc77a7_5ad95b54, 0x3ec2257a_dca09a52, 0x28246960_001fc5eb)
  {
    hide Schedule, Message;
    Words2(b);
    Words3(b);
    NextWords(b, 32);
  }

  lemma Words5(b: seq<byte>)
    requires |b| == 128 && Message(b)
    ensures WordsAt(b, 40,
                    0x04e33a75_ce2be88a, 0x7d5314b3_c359e0e7, 0xaef7a285_ff251266, 0x0b847258_1deea04f,
                    0xb174e26e_ddc7b033, 0x5d63bae5_8ddd88de, 0x4c044007_b744ccbb, 0xe6a9aa4d_74dc7d43)
  {
    hide Schedule, Message;
    Words3(b);
    Words4(b);
    NextWords(b, 40);
  }

  lemma Words6(b: seq<byte>)
    requires |b| == 128 && Message(b)
    ensures WordsAt(b, 48,
                    0xebeaf123_7248019c, 0x361e80b2_d00f3193, 0x2e983912_5df3b175, 0x33196292_93ad5363,
                    0x9cbc5d89_ac1b89d5, 0x275e23ff_eeca50b7, 0x3b80d680_bf69ef58, 0x0d069693_3945a125)
  {
    hide Schedule, Message;
    Words4(b);
    Words5(b);
    NextWords(b, 48);
  }

  lemma Words7(b: seq<byte>)
    requires |b| == 128 && Message(b)
    ensures WordsAt(b, 56,
                    0x7533eabc_b786ff00, 0xb89826ce_e6fbf0e5, 0x249b4fbc_ad623e9f, 0x4aea9df2_b02d6f1e,
                    0x2cc57475_a55e8d8f, 0xb2574ae9_38d8be89, 0xc1b35a57_b16d6aea, 0xcc4918b5_949206bb)
  {
    hide Schedule, Message;
    Words5(b);
    Words6(b);
    NextWords(b, 56);
  }

  lemma Words8(b: seq<byte>)
    requires |b| == 128 && Message(b)
    ensures WordsAt(b, 64,
                    0x5099c3ad_d79f90ec, 0x5ea81d78_e7660bf1, 0xebee6267_405ac2a9, 0xb01f2192_6108a4ab,
                    0x786433dd_2fe65556, 0xc54a6eaa_24a0552c, 0xb3c8f153_0bdbaa9e, 0xbb8abfe5_6f469338)
  {
    hide Schedule, Message;
    Words6(b);
    Words7(b);
    NextWords(b, 64);
  }

  lemma Words9(b: seq<byte>)
    requires |b| == 128 && Message(b)
    ensures WordsAt(b, 72,
                    0xf63d4265_cc1c5a78, 0xbe8355ea_73129afb, 0x49e2db8e_bdcfbeb5, 0x82269d4a_883a3d99,
                    0xfdf53df3_011f362b, 0x464af567_1d71c12e, 0xe449b681_98ec611c, 0x92aeeed1_a7bcf7d2)
  {
    hide Schedule, Message;
    Words7(b);
    Words8(b);
    NextWords(b, 72);
  }

  /** One round that gives the registers a and e these values. */
  lemma OneRound(b: seq<byte>, r: Regs, t: nat, a: bv64, e: bv64) returns (n: Regs)
    requires |b| == 128 && t < 80 && r == Rounds(Initial, b, t)
    requires a == Plus(T1(r, K(t), Schedule(b, t)), T2(r)) && e == Plus(r.d, T1(r, K(t), Schedule(b, t)))
    ensures n == Regs(a, r.a, r.b, r.c, e, r.e, r.f, r.g) && n == Rounds(Initial, b, t + 1)
  {
    n := Regs(a, r.a, r.b, r.c, e, r.e, r.f, r.g);
  }

  lemma NoRounds(b: seq<byte>)
    requires |b| == 128
    ensures Rounds(Initial, b, 0) == Initial
  {}

  lemma Rounds0(b: seq<byte>)
    requires |b| == 128 && Message(b)
    ensures Rounds(Initial, b, 8) ==
            Regs(0x8093d195_e0054fa3, 0xc4875b0c_7abc076b, 0xaf573b02_403e89cd, 0xb6809539_51604860,
                 0x86f67263_a0f0ec0a, 0x5a6c781f_54dcc00c, 0x96f60209_b6dc35ba, 0x745aca4a_342ed2e2)
  {
    hide Schedule, Rounds, Message;
    NoRounds(b);
    Words0(b);
    var r := Rounds(Initial, b, 0);
    r := OneRound(b, r, 0, 0xf6afceb8_bcfcddf5, 0x58cb0234_7ab51f91);
    r := OneRound(b, r, 1, 0x1320f8c9_fb872cc0, 0xc3d4ebfd_48650ffa);
    r := OneRound(b, r, 2, 0xebcffc07_203d91f3, 0xdfa9b239_f2697812);
    r := OneRound(b, r, 3, 0x5a83cb3e_80050e82, 0x0b47b4bb_1928990e);
    r := OneRound(b, r, 4, 0xb6809539_51604860, 0x745aca4a_342ed2e2);
    r := OneRound(b, r, 5, 0xaf573b02_403e89cd, 0x96f60209_b6dc35ba);
    r := OneRound(b, r, 6, 0xc4875b0c_7abc076b, 0x5a6c781f_54dcc00c);
    r := OneRound(b, r, 7, 0x8093d195_e0054fa3, 0x86f67263_a0f0ec0a);
  }

  lemma Rounds1(b: seq<byte>)
    requires |b| == 128 && Message(b)
    ensures Rounds(Initial, b, 16) ==
            Regs(0x0ae07c86_b1181c75, 0xfa967eed_85a08028, 0x44249631_255d2ca0, 0x5e412143_88186c14,
                 0xa77b7c03_5dd4c161, 0x874bfe5f_6aae9f2f, 0x860acf9e_ffba6f61, 0xcdf3bff2_883fc9d9)
  {
    hide Schedule, Rounds, Message;
    Rounds0(b);
    Words1(b);
    var r := Rounds(Initial, b, 8);
    r := OneRound(b, r, 8, 0xf1eca554_4cb89225, 0xd0403c39_8fc40002);
    r := OneRound(b, r, 9, 0x81782d4a_5db48f03, 0x00091f46_0be46c52);
    r := OneRound(b, r, 10, 0x69854c4a_a0f25b59, 0xd375471b_de1ba3f4);
    r := OneRound(b, r, 11, 0xdb0a9963_f80c2eaa, 0x475975b9_1a7a462c);
    r := OneRound(b, r, 12, 0x5e412143_88186c14, 0xcdf3bff2_883fc9d9);
    r := OneRound(b, r, 13, 0x44249631_255d2ca0, 0x860acf9e_ffba6f61);
    r := OneRound(b, r, 14, 0xfa967eed_85a08028, 0x874bfe5f_6aae9f2f);
    r := OneRound(b, r, 15, 0x0ae07c86_b1181c75, 0xa77b7c03_5dd4c161);
  }

  lemma Rounds2(b: seq<byte>)
    requires |b| == 128 && Message(b)
    ensures Rounds(Initial, b, 24) ==
            Regs(0x4f6877b5_8fe55484, 0x3e264456_7b709a78, 0xda34d667_3d452dcf, 0x8dc5ae65_569d3855,
                 0xc66005f8_7db55233, 0x0ac2b11d_a8f571c6, 0x8e30ff09_ad488753, 0x4bb9e66d_1145bfdc)
  {
    hide Schedule, Rounds, Message;
    Rounds1(b);
    Words2(b);
    var r := Rounds(Initial, b, 16);
    r := OneRound(b, r, 16, 0xcaf81a42_5d800537, 0x2deecc6b_39d64d78);
    r := OneRound(b, r, 17, 0x4725be24_9ad19e6b, 0xf47e8353_f8047455);
    r := OneRound(b, r, 18, 0x3c4b4104_168e3edb, 0x29695fd8_8d81dbd0);
    r := OneRound(b, r, 19, 0x9a3fb4d3_8ab6cf06, 0xf14998dd_5f70767e);
    r := OneRound(b, r, 20, 0x8dc5ae65_569d3855, 0x4bb9e66d_1145bfdc);
    r := OneRound(b, r, 21, 0xda34d667_3d452dcf, 0x8e30ff09_ad488753);
    r := OneRound(b, r, 22, 0x3e264456_7b709a78, 0x0ac2b11d_a8f571c6);
    r := OneRound(b, r, 23, 0x4f6877b5_8fe55484, 0xc66005f8_7db55233);
  }

  lemma Rounds3(b: seq<byte>)
    requires |b| == 128 && Message(b)
    ensures Rounds(Initial, b, 32) ==
            Regs(0xff4d3f1f_0d46a736, 0x4c4fbbb7_5f1873a6, 0x74bf40f8_69094c63, 0xe6234909_0f47d30a,
                 0x3cd388e1_19e8162e, 0x73e025d9_1b9efea3, 0xf0aec2fe_1437f085, 0x0fcdf997_10f21584)
  {
    hide Schedule, Rounds, Message;
    Rounds2(b);
    Words3(b);
    var r := Rounds(Initial, b, 24);
    r := OneRound(b, r, 24, 0x9aff7116_3fa3a940, 0xd3ecf137_69180e6f);
    r := OneRound(b, r, 25, 0x0bc5f791_f8e6816b, 0x6ddf1fd7_edcce336);
    r := OneRound(b, r, 26, 0x884c3bc2_7bc4f941, 0xe6e48c9a_8e948365);
    r := OneRound(b, r, 27, 0xeab4a9e5_771b8d09, 0x09068a4e_255a0dac);
    r := OneRound(b, r, 28, 0xe6234909_0f47d30a, 0x0fcdf997_10f21584);
    r := OneRound(b, r, 29, 0x74bf40f8_69094c63, 0xf0aec2fe_1437f085);
    r := OneRound(b, r, 30, 0x4c4fbbb7_5f1873a6, 0x73e025d9_1b9efea3);
    r := OneRound(b, r, 31, 0xff4d3f1f_0d46a736, 0x3cd388e1_19e8162e);
  }

  lemma Rounds4(b: seq<byte>)
    requires |b| == 128 && Message(b)
    ensures Rounds(Initial, b, 40) ==
            Regs(0x8e01e125_b855d225, 0xb3bb8542_b3376de5, 0x002bb8e4_cd989567, 0x88df85b0_bbe77514,
                 0x0c710a47_ba6a567b, 0xb49596c2_0feba7de, 0x66adcfa2_49ac7bbd, 0x8fbfd016_2bbf4675)
  {
    hide Schedule, Rounds, Message;
    Rounds3(b);
    Words4(b);
    var r := Rounds(Initial, b, 32);
    r := OneRound(b, r, 32, 0xa0509015_ca08c8d4, 0xe1034573_654a106f);
    r := OneRound(b, r, 33, 0x60d4e699_5ed91fe6, 0xefabbd8b_f47c041a);
    r := OneRound(b, r, 34, 0x2c59ec77_43632621, 0x0fbae670_fa780fd3);
    r := OneRound(b, r, 35, 0x1a081afc_59fdbc2c, 0xf098082f_502b44cd);
    r := OneRound(b, r, 36, 0x88df85b0_bbe77514, 0x8fbfd016_2bbf4675);
    r := OneRound(b, r, 37, 0x002bb8e4_cd989567, 0x66adcfa2_49ac7bbd);
    r := OneRound(b, r, 38, 0xb3bb8542_b3376de5, 0xb49596c2_0feba7de);
    r := OneRound(b, r, 39, 0x8e01e125_b855d225, 0x0c710a47_ba6a567b);
  }

  lemma Rounds5(b: seq<byte>)
    requires |b| == 128 && Message(b)
    ensures Rounds(Initial, b, 48) ==
            Regs(0x6b69fc1b_b482feac, 0xf61e6726_94de2d67, 0x021fbadb_abab5ac6, 0xc47c9d5c_7ea8a234,
                 0x35264334_c03ac8ad, 0xc6bc3574_0d8daa9a, 0xe95c2a57_572d64d9, 0x858d832a_e0e8911c)
  {
    hide Schedule, Rounds, Message;
    Rounds4(b);
    Words5(b);
    var r := Rounds(Initial, b, 40);
    r := OneRound(b, r, 40, 0xb01521dd_6a6be12c, 0x169008b3_a4bb170b);
    r := OneRound(b, r, 41, 0xe96f89dd_48cbd851, 0xf0996439_e7b50cb1);
    r := OneRound(b, r, 42, 0xbc05ba8d_e5d3c480, 0x639cb938_e14dc190);
    r := OneRound(b, r, 43, 0x35d7e7f4_1defcbd5, 0xcc510099_7f5710f2);
    r := OneRound(b, r, 44, 0xc47c9d5c_7ea8a234, 0x858d832a_e0e8911c);
    r := OneRound(b, r, 45, 0x021fbadb_abab5ac6, 0xe95c2a57_572d64d9);
    r := OneRound(b, r, 46, 0xf61e6726_94de2d67, 0xc6bc3574_0d8daa9a);
    r := OneRound(b, r, 47, 0x6b69fc1b_b482feac, 0x35264334_c03ac8ad);
  }

  lemma Rounds6(b: seq<byte>)
    requires |b| == 128 && Message(b)
    ensures Rounds(Initial, b, 56) ==
            Regs(0x63b460e4_2748817e, 0xf650857b_5babda4d, 0xd63f6803_7ddf06aa, 0x03df11b3_2d42e203,
                 0xc6b4dd2a_9931c509, 0x9ccfb31a_86df0f86, 0xa6781efe_1aa1ce02, 0x504f94e4_0591cffa)
  {
    hide Schedule, Rounds, Message;
    Rounds5(b);
    Words6(b);
    var r := Rounds(Initial, b, 48);
    r := OneRound(b, r, 48, 0x571f323d_96b3a047, 0x271580ed_6c3e5650);
    r := OneRound(b, r, 49, 0xca9bd862_c5050918, 0xdfe091da_b182e645);
    r := OneRound(b, r, 50, 0x813a43dd_2c502043, 0x07a0d8ef_821c5e1a);
    r := OneRound(b, r, 51, 0xd43f8372_7325dd77, 0x483f80a8_2eaee23e);
    r := OneRound(b, r, 52, 0x03df11b3_2d42e203, 0x504f94e4_0591cffa);
    r := OneRound(b, r, 53, 0xd63f6803_7ddf06aa, 0xa6781efe_1aa1ce02);
    r := OneRound(b, r, 54, 0xf650857b_5babda4d, 0x9ccfb31a_86df0f86);
    r := OneRound(b, r, 55, 0x63b460e4_2748817e, 0xc6b4dd2a_9931c509);
  }

  lemma Rounds7(b: seq<byte>)
    requires |b| == 128 && Message(b)
    ensures Rounds(Initial, b, 64) ==
            Regs(0xab44e862_76478d85, 0xa81dedbb_9f19e643, 0xcfcd928c_5424e2b6, 0x3857dfd2_fc37d3ba,
                 0xcd881ee5_9ca6bc53, 0x84058865_d60a05fa, 0x09aee5bd_a1644de5, 0xa6af4e9c_9f807e51)
  {
    hide Schedule, Rounds, Message;
    Rounds6(b);
    Words7(b);
    var r := Rounds(Initial, b, 56);
    r := OneRound(b, r, 56, 0x7a529129_43d52b05, 0xd2e89bbd_91e00be0);
    r := OneRound(b, r, 57, 0x4b81c3ae_c976ea4b, 0x70505988_124351ac);
    r := OneRound(b, r, 58, 0x581ecb33_55dcd9b8, 0x6a3c9b0f_71c8bf36);
    r := OneRound(b, r, 59, 0x2c074484_ef1eac8c, 0x4797cde4_ed370692);
    r := OneRound(b, r, 60, 0x3857dfd2_fc37d3ba, 0xa6af4e9c_9f807e51);
    r := OneRound(b, r, 61, 0xcfcd928c_5424e2b6, 0x09aee5bd_a1644de5);
    r := OneRound(b, r, 62, 0xa81dedbb_9f19e643, 0x84058865_d60a05fa);
    r := OneRound(b, r, 63, 0xab44e862_76478d85, 0xcd881ee5_9ca6bc53);
  }

  lemma Rounds8(b: seq<byte>)
    requires |b| == 128 && Message(b)
    ensures Rounds(Initial, b, 72) ==
            Regs(0xf15e9664_b2803575, 0x7652c579_cb60f19c, 0xfb6aaae5_d0b6a447, 0x181839d6_09c79748,
                 0x947c3dfa_fee570ef, 0xaff62c96_65ff80fa, 0xe3711cb6_564d112d, 0x0ada78ba_2d446140)
  {
    hide Schedule, Rounds, Message;
    Rounds7(b);
    Words8(b);
    var r := Rounds(Initial, b, 64);
    r := OneRound(b, r, 64, 0x5a806d7e_9821a501, 0xaa84b086_688a5c45);
    r := OneRound(b, r, 65, 0xeeb9c21b_b0102598, 0x3b5fed0d_6a1f96e1);
    r := OneRound(b, r, 66, 0x46c4210a_b2cc155d, 0x29fab5a7_bff53366);
    r := OneRound(b, r, 67, 0x54ba35cf_56a0340e, 0x1c66f46d_95690bcf);
    r := OneRound(b, r, 68, 0x181839d6_09c79748, 0x0ada78ba_2d446140);
    r := OneRound(b, r, 69, 0xfb6aaae5_d0b6a447, 0xe3711cb6_564d112d);
    r := OneRound(b, r, 70, 0x7652c579_cb60f19c, 0xaff62c96_65ff80fa);
    r := OneRound(b, r, 71, 0xf15e9664_b2803575, 0x947c3dfa_fee570ef);
  }

  lemma Rounds9(b: seq<byte>)
    requires |b| == 128 && Message(b)
    ensures Rounds(Initial, b, 80) ==
            Regs(0x73a54f39_9fa4b1b2, 0x10d9c4c4_295599f6, 0xd67806db_8b148677, 0x654ef9ab_ec389ca9,
                 0xd08446aa_79693ed7, 0x9bb4d397_78c07f9e, 0x25c96a77_68fb2aa3, 0xceb9fc36_91ce8326)
  {
    hide Schedule, Rounds, Message;
    Rounds8(b);
    Words9(b);
    var r := Rounds(Initial, b, 72);
    r := OneRound(b, r, 72, 0x358406d1_65aee9ab, 0x8c7b5fd9_1a794ca0);
    r := OneRound(b, r, 73, 0x20878dcd_29cdfaf5, 0x054d3536_539948d0);
    r := OneRound(b, r, 74, 0x33d48dab_b5521de2, 0x2ba18245_b50de4cf);
    r := OneRound(b, r, 75, 0xc8960e6b_e864b916, 0x995019a6_ff3ba3de);
    r := OneRound(b, r, 76, 0x654ef9ab_ec389ca9, 0xceb9fc36_91ce8326);
    r := OneRound(b, r, 77, 0xd67806db_8b148677, 0x25c96a77_68fb2aa3);
    r := OneRound(b, r, 78, 0x10d9c4c4_295599f6, 0x9bb4d397_78c07f9e);
    r := OneRound(b, r, 79, 0x73a54f39_9fa4b1b2, 0xd08446aa_79693ed7);
  }

  lemma PaddedMessage()
    ensures Message(Padded([0x61, 0x62, 0x63]))
  {
    hide StoreNumber;
    var m := [0x61, 0x62, 0x63];
    assert PadLength(3) == 108;
    StoreZero();
    assert StoreNumber(24) == [0, 0, 0, 0, 0, 0, 0, 24] by { Store24(); }
    assert Padded(m) == m + [0x80] + Zeros(108) + (Zeros(8) + [0, 0, 0, 0, 0, 0, 0, 24]);
  }

  lemma Store24()
    ensures StoreNumber(24) == [0, 0, 0, 0, 0, 0, 0, 24]
  {}

  lemma StoredHalves()
    ensures StoreWord(0xddaf35a1_93617aba) == [0xdd, 0xaf, 0x35, 0xa1, 0x93, 0x61, 0x7a, 0xba]
    ensures StoreWord(0xcc417349_ae204131) == [0xcc, 0x41, 0x73, 0x49, 0xae, 0x20, 0x41, 0x31]
    ensures StoreWord(0x12e6fa4e_89a97ea2) == [0x12, 0xe6, 0xfa, 0x4e, 0x89, 0xa9, 0x7e, 0xa2]
    ensures StoreWord(0x0a9eeee6_4b55d39a) == [0x0a, 0x9e, 0xee, 0xe6, 0x4b, 0x55, 0xd3, 0x9a]
    ensures StoreWord(0x2192992a_274fc1a8) == [0x21, 0x92, 0x99, 0x2a, 0x27, 0x4f, 0xc1, 0xa8]
    ensures StoreWord(0x36ba3c23_a3feebbd) == [0x36, 0xba, 0x3c, 0x23, 0xa3, 0xfe, 0xeb, 0xbd]
    ensures StoreWord(0x454d4423_643ce80e) == [0x45, 0x4d, 0x44, 0x23, 0x64, 0x3c, 0xe8, 0x0e]
    ensures StoreWord(0x2a9ac94f_a54ca49f) == [0x2a, 0x9a, 0xc9, 0x4f, 0xa5, 0x4c, 0xa4, 0x9f]
  {}

  lemma MessageLength(b: seq<byte>)
    requires Message(b)
    ensures |b| == 128
  {}

  lemma LastAddition()
    ensures Add(Initial, Regs(0x73a54f39_9fa4b1b2, 0x10d9c4c4_295599f6, 0xd67806db_8b148677, 0x654ef9ab_ec389ca9,
                              0xd08446aa_79693ed7, 0x9bb4d397_78c07f9e, 0x25c96a77_68fb2aa3, 0xceb9fc36_91ce8326))
            == Regs(0xddaf35a1_93617aba, 0xcc417349_ae204131, 0x12e6fa4e_89a97ea2, 0x0a9eeee6_4b55d39a,
                    0x2192992a_274fc1a8, 0x36ba3c23_a3feebbd, 0x454d4423_643ce80e, 0x2a9ac94f_a54ca49f)
  {}

  /** The digest that the standard gives. */
  lemma AbcDigest()
    ensures Sha512([0x61, 0x62, 0x63]) ==
            [0xdd, 0xaf, 0x35, 0xa1, 0x93, 0x61, 0x7a, 0xba] +
            [0xcc, 0x41, 0x73, 0x49, 0xae, 0x20, 0x41, 0x31] +
            [0x12, 0xe6, 0xfa, 0x4e, 0x89, 0xa9, 0x7e, 0xa2] +
            [0x0a, 0x9e, 0xee, 0xe6, 0x4b, 0x55, 0xd3, 0x9a] +
            [0x21, 0x92, 0x99, 0x2a, 0x27, 0x4f, 0xc1, 0xa8] +
            [0x36, 0xba, 0x3c, 0x23, 0xa3, 0xfe, 0xeb, 0xbd] +
            [0x45, 0x4d, 0x44, 0x23, 0x64, 0x3c, 0xe8, 0x0e] +
            [0x2a, 0x9a, 0xc9, 0x4f, 0xa5, 0x4c, 0xa4, 0x9f]
  {
    hide Padded, Rounds, StoreWord, Message, Chain, Add;
    PaddedMessage();
    var b := Padded([0x61, 0x62, 0x63]);
    assert |b| == 128 by { MessageLength(b); }
    OneBlock(b);
    Rounds9(b);
    LastAddition();
    StoredHalves();
  }

  lemma OneBlock(b: seq<byte>)
    requires |b| == 128
    ensures Chain(Initial, b) == Add(Initial, Rounds(Initial, b, 80))
  {
    hide Rounds, CompressBlock, Chain;
    assert [] + b == b;
    ChainBlock(Initial, [], b);
    NoBlocks(Initial);
    CompressIs(b);
  }

  lemma CompressIs(b: seq<byte>)
    requires |b| == 128
    ensures CompressBlock(Initial, b) == Add(Initial, Rounds(Initial, b, 80))
  {
    hide Rounds;
  }

  lemma NoBlocks(r: Regs)
    ensures Chain(r, []) == r
  {}
}
