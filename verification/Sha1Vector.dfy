/** The digest of "abc" that sha1.c gives as a test vector, worked out by the definition. */
module Sha1Vector {
  import opened Sha1

  const ABC: seq<octet> := [0x61, 0x62, 0x63]

  /** The one block that "abc" is padded to. */
  function Block(): (b: seq<octet>)
    ensures |b| == 64
  {
    ABC + [0x80] + Zeros(52) + [0, 0, 0, 0, 0, 0, 0, 0x18]
  }

  lemma BlockIsPadded()
    ensures Pad(ABC) == Block()
  {
    hide Zeros, Length64, ZeroCount;
    Parts();
  }

  lemma Parts()
    ensures Length64(3) == [0, 0, 0, 0, 0, 0, 0, 0x18] && ZeroCount(3) == 52
  {
    assert WordOctets(0) == [0, 0, 0, 0] && WordOctets(24) == [0, 0, 0, 0x18];
  }

  /** One more word of the schedule. */
  lemma Word(t: nat, w: bv32)
    requires t >= 16
    requires Rotl1(Xor4(W(Block(), t - 3), W(Block(), t - 8), W(Block(), t - 14), W(Block(), t - 16))) == w
    ensures W(Block(), t) == w
  {
    hide Rotl1, Xor4, BigEndian;
  }

  /** One more round. */
  lemma Advance(t: nat, v: Vars)
    requires Round(Rounds(INITIAL, Block(), t), t, W(Block(), t)) == v
    ensures Rounds(INITIAL, Block(), t + 1) == v
  {
    hide Round, W;
  }

  lemma Words0To15()
    ensures W(Block(), 0) == 0x61626380 && W(Block(), 1) == 0x00000000
    ensures W(Block(), 2) == 0x00000000 && W(Block(), 3) == 0x00000000
    ensures W(Block(), 4) == 0x00000000 && W(Block(), 5) == 0x00000000
    ensures W(Block(), 6) == 0x00000000 && W(Block(), 7) == 0x00000000
    ensures W(Block(), 8) == 0x00000000 && W(Block(), 9) == 0x00000000
    ensures W(Block(), 10) == 0x00000000 && W(Block(), 11) == 0x00000000
    ensures W(Block(), 12) == 0x00000000 && W(Block(), 13) == 0x00000000
    ensures W(Block(), 14) == 0x00000000 && W(Block(), 15) == 0x00000018
  {
    var b := Block();
    assert b[0] == 0x61 && b[1] == 0x62 && b[2] == 0x63 && b[3] == 0x80;
    assert forall i :: 4 <= i < 63 ==> b[i] == 0;
    assert b[63] == 0x18;
  }

  lemma Words16To31()
    ensures W(Block(), 16) == 0xC2C4C700 && W(Block(), 17) == 0x00000000
    ensures W(Block(), 18) == 0x00000030 && W(Block(), 19) == 0x85898E01
    ensures W(Block(), 20) == 0x00000000 && W(Block(), 21) == 0x00000060
    ensures W(Block(), 22) == 0x0B131C03 && W(Block(), 23) == 0x00000030
    ensures W(Block(), 24) == 0x85898EC1 && W(Block(), 25) == 0x16263806
    ensures W(Block(), 26) == 0x00000000 && W(Block(), 27) == 0x00000180
    ensures W(Block(), 28) == 0x2C4C700C && W(Block(), 29) == 0x000000F0
    ensures W(Block(), 30) == 0x93AFB507 && W(Block(), 31) == 0x5898E048
  {
    hide W, Block;
    Words0To15();
    Word(16, 0xC2C4C700);
    Word(17, 0x00000000);
    Word(18, 0x00000030);
    Word(19, 0x85898E01);
    Word(20, 0x00000000);
    Word(21, 0x00000060);
    Word(22, 0x0B131C03);
    Word(23, 0x00000030);
    Word(24, 0x85898EC1);
    Word(25, 0x16263806);
    Word(26, 0x00000000);
    Word(27, 0x00000180);
    Word(28, 0x2C4C700C);
    Word(29, 0x000000F0);
    Word(30, 0x93AFB507);
    Word(31, 0x5898E048);
  }

  lemma Words32To47()
    ensures W(Block(), 32) == 0x8E9A9202 && W(Block(), 33) == 0x00000600
    ensures W(Block(), 34) == 0xB131C0F0 && W(Block(), 35) == 0x16263BC6
    ensures W(Block(), 36) == 0x4EBED41E && W(Block(), 37) == 0x626380A1
    ensures W(Block(), 38) == 0x16263806 && W(Block(), 39) == 0x000018C0
    ensures W(Block(), 40) == 0xD2E138C4 && W(Block(), 41) == 0x00000F00
    ensures W(Block(), 42) == 0x3AFB5079 && W(Block(), 43) == 0x898E04E5
    ensures W(Block(), 44) == 0xE2BA3C2B && W(Block(), 45) == 0x000060C0
    ensures W(Block(), 46) == 0x053A37CD && W(Block(), 47) == 0x74458547
  {
    hide W, Block;
    Words16To31();
    Word(32, 0x8E9A9202);
    Word(33, 0x00000600);
    Word(34, 0xB131C0F0);
    Word(35, 0x16263BC6);
    Word(36, 0x4EBED41E);
    Word(37, 0x626380A1);
    Word(38, 0x16263806);
    Word(39, 0x000018C0);
    Word(40, 0xD2E138C4);
    Word(41, 0x00000F00);
    Word(42, 0x3AFB5079);
    Word(43, 0x898E04E5);
    Word(44, 0xE2BA3C2B);
    Word(45, 0x000060C0);
    Word(46, 0x053A37CD);
    Word(47, 0x74458547);
  }

  lemma Words48To63()
    ensures W(Block(), 48) == 0xDA9415ED && W(Block(), 49) == 0x26380A16
    ensures W(Block(), 50) == 0x626383A1 && W(Block(), 51) == 0x4EBF54DE
    ensures W(Block(), 52) == 0x3835B44B && W(Block(), 53) == 0x0000F600
    ensures W(Block(), 54) == 0x1E84C7A3 && W(Block(), 55) == 0x98E04D98
    ensures W(Block(), 56) == 0x651D16A0 && W(Block(), 57) == 0x62658CA1
    ensures W(Block(), 58) == 0x458544D6 && W(Block(), 59) == 0x44584CB7
    ensures W(Block(), 60) == 0x7BA06619 && W(Block(), 61) == 0x6380AEA2
    ensures W(Block(), 62) == 0x0AE55269 && W(Block(), 63) == 0x627B49A1
  {
    hide W, Block;
    Words32To47();
    Word(48, 0xDA9415ED);
    Word(49, 0x26380A16);
    Word(50, 0x626383A1);
    Word(51, 0x4EBF54DE);
    Word(52, 0x3835B44B);
    Word(53, 0x0000F600);
    Word(54, 0x1E84C7A3);
    Word(55, 0x98E04D98);
    Word(56, 0x651D16A0);
    Word(57, 0x62658CA1);
    Word(58, 0x458544D6);
    Word(59, 0x44584CB7);
    Word(60, 0x7BA06619);
    Word(61, 0x6380AEA2);
    Word(62, 0x0AE55269);
    Word(63, 0x627B49A1);
  }

  lemma Words64To79()
    ensures W(Block(), 64) == 0x7CD45C9D && W(Block(), 65) == 0x000F0000
    ensures W(Block(), 66) == 0xFB50753A && W(Block(), 67) == 0xEC6765E8
    ensures W(Block(), 68) == 0xBA3C2BE2 && W(Block(), 69) == 0x0060C000
    ensures W(Block(), 70) == 0x3A37CD05 && W(Block(), 71) == 0x458546F4
    ensures W(Block(), 72) == 0xB8599DD6 && W(Block(), 73) == 0x380A1A26
    ensures W(Block(), 74) == 0x01E02203 && W(Block(), 75) == 0xE7CC3456
    ensures W(Block(), 76) == 0xE6E60B69 && W(Block(), 77) == 0x00F60A00
    ensures W(Block(), 78) == 0x5795EF4F && W(Block(), 79) == 0x822E0879
  {
    hide W, Block;
    Words48To63();
    Word(64, 0x7CD45C9D);
    Word(65, 0x000F0000);
    Word(66, 0xFB50753A);
    Word(67, 0xEC6765E8);
    Word(68, 0xBA3C2BE2);
    Word(69, 0x0060C000);
    Word(70, 0x3A37CD05);
    Word(71, 0x458546F4);
    Word(72, 0xB8599DD6);
    Word(73, 0x380A1A26);
    Word(74, 0x01E02203);
    Word(75, 0xE7CC3456);
    Word(76, 0xE6E60B69);
    Word(77, 0x00F60A00);
    Word(78, 0x5795EF4F);
    Word(79, 0x822E0879);
  }

  lemma RoundsTo8()
    ensures Rounds(INITIAL, Block(), 8) == Vars(0x9E8C07D4, 0x993E30C1, 0x0FF1F290, 0xB3F52677, 0xF3763846)
  {
    hide W, Block, Rounds;
    Words0To15();
    NoRounds();
    Advance(0, Vars(0x0116FC33, 0x67452301, 0x7BF36AE2, 0x98BADCFE, 0x10325476));
    Advance(1, Vars(0x8990536D, 0x0116FC33, 0x59D148C0, 0x7BF36AE2, 0x98BADCFE));
    Advance(2, Vars(0xA1390F08, 0x8990536D, 0xC045BF0C, 0x59D148C0, 0x7BF36AE2));
    Advance(3, Vars(0xCDD8E11B, 0xA1390F08, 0x626414DB, 0xC045BF0C, 0x59D148C0));
    Advance(4, Vars(0xCFD499DE, 0xCDD8E11B, 0x284E43C2, 0x626414DB, 0xC045BF0C));
    Advance(5, Vars(0x3FC7CA40, 0xCFD499DE, 0xF3763846, 0x284E43C2, 0x626414DB));
    Advance(6, Vars(0x993E30C1, 0x3FC7CA40, 0xB3F52677, 0xF3763846, 0x284E43C2));
    Advance(7, Vars(0x9E8C07D4, 0x993E30C1, 0x0FF1F290, 0xB3F52677, 0xF3763846));
  }

  lemma RoundsTo16()
    ensures Rounds(INITIAL, Block(), 16) == Vars(0x20BDD62F, 0x196BEE77, 0x644A3DA5, 0x1181ED99, 0x18C623F9)
  {
    hide W, Block, Rounds;
    Words0To15();
    RoundsTo8();
    Advance(8, Vars(0x4B6AE328, 0x9E8C07D4, 0x664F8C30, 0x0FF1F290, 0xB3F52677));
    Advance(9, Vars(0x8351F929, 0x4B6AE328, 0x27A301F5, 0x664F8C30, 0x0FF1F290));
    Advance(10, Vars(0xFBDA9E89, 0x8351F929, 0x12DAB8CA, 0x27A301F5, 0x664F8C30));
    Advance(11, Vars(0x63188FE4, 0xFBDA9E89, 0x60D47E4A, 0x12DAB8CA, 0x27A301F5));
    Advance(12, Vars(0x4607B664, 0x63188FE4, 0x7EF6A7A2, 0x60D47E4A, 0x12DAB8CA));
    Advance(13, Vars(0x9128F695, 0x4607B664, 0x18C623F9, 0x7EF6A7A2, 0x60D47E4A));
    Advance(14, Vars(0x196BEE77, 0x9128F695, 0x1181ED99, 0x18C623F9, 0x7EF6A7A2));
    Advance(15, Vars(0x20BDD62F, 0x196BEE77, 0x644A3DA5, 0x1181ED99, 0x18C623F9));
  }

  lemma RoundsTo24()
    ensures Rounds(INITIAL, Block(), 24) == Vars(0xD541F12D, 0x21283486, 0x0CE88EFF, 0x868DEC32, 0x7F67875F)
  {
    hide W, Block, Rounds;
    Words16To31();
    RoundsTo16();
    Advance(16, Vars(0x4E925823, 0x20BDD62F, 0xC65AFB9D, 0x644A3DA5, 0x1181ED99));
    Advance(17, Vars(0x82AA6728, 0x4E925823, 0xC82F758B, 0xC65AFB9D, 0x644A3DA5));
    Advance(18, Vars(0xDC64901D, 0x82AA6728, 0xD3A49608, 0xC82F758B, 0xC65AFB9D));
    Advance(19, Vars(0xFD9E1D7D, 0xDC64901D, 0x20AA99CA, 0xD3A49608, 0xC82F758B));
    Advance(20, Vars(0x1A37B0CA, 0xFD9E1D7D, 0x77192407, 0x20AA99CA, 0xD3A49608));
    Advance(21, Vars(0x33A23BFC, 0x1A37B0CA, 0x7F67875F, 0x77192407, 0x20AA99CA));
    Advance(22, Vars(0x21283486, 0x33A23BFC, 0x868DEC32, 0x7F67875F, 0x77192407));
    Advance(23, Vars(0xD541F12D, 0x21283486, 0x0CE88EFF, 0x868DEC32, 0x7F67875F));
  }

  lemma RoundsTo32()
    ensures Rounds(INITIAL, Block(), 32) == Vars(0x3B845D33, 0x1267B407, 0x717EEBD7, 0xA0DC2D4B, 0xD2AA1365)
  {
    hide W, Block, Rounds;
    Words16To31();
    RoundsTo24();
    Advance(24, Vars(0xC7567DC6, 0xD541F12D, 0x884A0D21, 0x0CE88EFF, 0x868DEC32));
    Advance(25, Vars(0x48413BA4, 0xC7567DC6, 0x75507C4B, 0x884A0D21, 0x0CE88EFF));
    Advance(26, Vars(0xBE35FBD5, 0x48413BA4, 0xB1D59F71, 0x75507C4B, 0x884A0D21));
    Advance(27, Vars(0x4AA84D97, 0xBE35FBD5, 0x12104EE9, 0xB1D59F71, 0x75507C4B));
    Advance(28, Vars(0x8370B52E, 0x4AA84D97, 0x6F8D7EF5, 0x12104EE9, 0xB1D59F71));
    Advance(29, Vars(0xC5FBAF5D, 0x8370B52E, 0xD2AA1365, 0x6F8D7EF5, 0x12104EE9));
    Advance(30, Vars(0x1267B407, 0xC5FBAF5D, 0xA0DC2D4B, 0xD2AA1365, 0x6F8D7EF5));
    Advance(31, Vars(0x3B845D33, 0x1267B407, 0x717EEBD7, 0xA0DC2D4B, 0xD2AA1365));
  }

  lemma RoundsTo40()
    ensures Rounds(INITIAL, Block(), 40) == Vars(0x32DE1CBA, 0x4C986405, 0xF718E5CF, 0x03D447F6, 0xF72EEC32)
  {
    hide W, Block, Rounds;
    Words32To47();
    RoundsTo32();
    Advance(32, Vars(0x046FAA0A, 0x3B845D33, 0xC499ED01, 0x717EEBD7, 0xA0DC2D4B));
    Advance(33, Vars(0x2C0EBC11, 0x046FAA0A, 0xCEE1174C, 0xC499ED01, 0x717EEBD7));
    Advance(34, Vars(0x21796AD4, 0x2C0EBC11, 0x811BEA82, 0xCEE1174C, 0xC499ED01));
    Advance(35, Vars(0xDCBBB0CB, 0x21796AD4, 0x4B03AF04, 0x811BEA82, 0xCEE1174C));
    Advance(36, Vars(0x0F511FD8, 0xDCBBB0CB, 0x085E5AB5, 0x4B03AF04, 0x811BEA82));
    Advance(37, Vars(0xDC63973F, 0x0F511FD8, 0xF72EEC32, 0x085E5AB5, 0x4B03AF04));
    Advance(38, Vars(0x4C986405, 0xDC63973F, 0x03D447F6, 0xF72EEC32, 0x085E5AB5));
    Advance(39, Vars(0x32DE1CBA, 0x4C986405, 0xF718E5CF, 0x03D447F6, 0xF72EEC32));
  }

  lemma RoundsTo48()
    ensures Rounds(INITIAL, Block(), 48) == Vars(0xBEAD02CA, 0xA01B846C, 0x8714787C, 0x503CA382, 0xFB86C6AB)
  {
    hide W, Block, Rounds;
    Words32To47();
    RoundsTo40();
    Advance(40, Vars(0xFC87DEDF, 0x32DE1CBA, 0x53261901, 0xF718E5CF, 0x03D447F6));
    Advance(41, Vars(0x970A0D5C, 0xFC87DEDF, 0x8CB7872E, 0x53261901, 0xF718E5CF));
    Advance(42, Vars(0x7F193DC5, 0x970A0D5C, 0xFF21F7B7, 0x8CB7872E, 0x53261901));
    Advance(43, Vars(0xEE1B1AAF, 0x7F193DC5, 0x25C28357, 0xFF21F7B7, 0x8CB7872E));
    Advance(44, Vars(0x40F28E09, 0xEE1B1AAF, 0x5FC64F71, 0x25C28357, 0xFF21F7B7));
    Advance(45, Vars(0x1C51E1F2, 0x40F28E09, 0xFB86C6AB, 0x5FC64F71, 0x25C28357));
    Advance(46, Vars(0xA01B846C, 0x1C51E1F2, 0x503CA382, 0xFB86C6AB, 0x5FC64F71));
    Advance(47, Vars(0xBEAD02CA, 0xA01B846C, 0x8714787C, 0x503CA382, 0xFB86C6AB));
  }

  lemma RoundsTo56()
    ensures Rounds(INITIAL, Block(), 56) == Vars(0x5E6456AF, 0x7B71F76D, 0x09FA7C76, 0x792410DB, 0x8E11EB59)
  {
    hide W, Block, Rounds;
    Words48To63();
    RoundsTo48();
    Advance(48, Vars(0xBAF39337, 0xBEAD02CA, 0x2806E11B, 0x8714787C, 0x503CA382));
    Advance(49, Vars(0x120731C5, 0xBAF39337, 0xAFAB40B2, 0x2806E11B, 0x8714787C));
    Advance(50, Vars(0x641DB2CE, 0x120731C5, 0xEEBCE4CD, 0xAFAB40B2, 0x2806E11B));
    Advance(51, Vars(0x3847AD66, 0x641DB2CE, 0x4481CC71, 0xEEBCE4CD, 0xAFAB40B2));
    Advance(52, Vars(0xE490436D, 0x3847AD66, 0x99076CB3, 0x4481CC71, 0xEEBCE4CD));
    Advance(53, Vars(0x27E9F1D8, 0xE490436D, 0x8E11EB59, 0x99076CB3, 0x4481CC71));
    Advance(54, Vars(0x7B71F76D, 0x27E9F1D8, 0x792410DB, 0x8E11EB59, 0x99076CB3));
    Advance(55, Vars(0x5E6456AF, 0x7B71F76D, 0x09FA7C76, 0x792410DB, 0x8E11EB59));
  }

  lemma RoundsTo64()
    ensures Rounds(INITIAL, Block(), 64) == Vars(0x6B61C9E1, 0xB66C020B, 0x9523272C, 0xF5D5B051, 0x8FD4B796)
  {
    hide W, Block, Rounds;
    Words48To63();
    RoundsTo56();
    Advance(56, Vars(0xC846093F, 0x5E6456AF, 0x5EDC7DDB, 0x09FA7C76, 0x792410DB));
    Advance(57, Vars(0xD262FF50, 0xC846093F, 0xD79915AB, 0x5EDC7DDB, 0x09FA7C76));
    Advance(58, Vars(0x09D785FD, 0xD262FF50, 0xF211824F, 0xD79915AB, 0x5EDC7DDB));
    Advance(59, Vars(0x3F52DE5A, 0x09D785FD, 0x3498BFD4, 0xF211824F, 0xD79915AB));
    Advance(60, Vars(0xD756C147, 0x3F52DE5A, 0x4275E17F, 0x3498BFD4, 0xF211824F));
    Advance(61, Vars(0x548C9CB2, 0xD756C147, 0x8FD4B796, 0x4275E17F, 0x3498BFD4));
    Advance(62, Vars(0xB66C020B, 0x548C9CB2, 0xF5D5B051, 0x8FD4B796, 0x4275E17F));
    Advance(63, Vars(0x6B61C9E1, 0xB66C020B, 0x9523272C, 0xF5D5B051, 0x8FD4B796));
  }

  lemma RoundsTo72()
    ensures Rounds(INITIAL, Block(), 72) == Vars(0x39859DE7, 0xC199F8C7, 0x8FC96230, 0x125C24F0, 0xDE37534A)
  {
    hide W, Block, Rounds;
    Words64To79();
    RoundsTo64();
    Advance(64, Vars(0x19DFA7AC, 0x6B61C9E1, 0xED9B0082, 0x9523272C, 0xF5D5B051));
    Advance(65, Vars(0x101655F9, 0x19DFA7AC, 0x5AD87278, 0xED9B0082, 0x9523272C));
    Advance(66, Vars(0x0C3DF2B4, 0x101655F9, 0x0677E9EB, 0x5AD87278, 0xED9B0082));
    Advance(67, Vars(0x78DD4D2B, 0x0C3DF2B4, 0x4405957E, 0x0677E9EB, 0x5AD87278));
    Advance(68, Vars(0x497093C0, 0x78DD4D2B, 0x030F7CAD, 0x4405957E, 0x0677E9EB));
    Advance(69, Vars(0x3F2588C2, 0x497093C0, 0xDE37534A, 0x030F7CAD, 0x4405957E));
    Advance(70, Vars(0xC199F8C7, 0x3F2588C2, 0x125C24F0, 0xDE37534A, 0x030F7CAD));
    Advance(71, Vars(0x39859DE7, 0xC199F8C7, 0x8FC96230, 0x125C24F0, 0xDE37534A));
  }

  lemma RoundsTo80()
    ensures Rounds(INITIAL, Block(), 80) == Vars(0x42541B35, 0x5738D5E1, 0x21834873, 0x681E6DF6, 0xD8FDF6AD)
  {
    hide W, Block, Rounds;
    Words64To79();
    RoundsTo72();
    Advance(72, Vars(0xEDB42DE4, 0x39859DE7, 0xF0667E31, 0x8FC96230, 0x125C24F0));
    Advance(73, Vars(0x11793F6F, 0xEDB42DE4, 0xCE616779, 0xF0667E31, 0x8FC96230));
    Advance(74, Vars(0x5EE76897, 0x11793F6F, 0x3B6D0B79, 0xCE616779, 0xF0667E31));
    Advance(75, Vars(0x63F7DAB7, 0x5EE76897, 0xC45E4FDB, 0x3B6D0B79, 0xCE616779));
    Advance(76, Vars(0xA079B7D9, 0x63F7DAB7, 0xD7B9DA25, 0xC45E4FDB, 0x3B6D0B79));
    Advance(77, Vars(0x860D21CC, 0xA079B7D9, 0xD8FDF6AD, 0xD7B9DA25, 0xC45E4FDB));
    Advance(78, Vars(0x5738D5E1, 0x860D21CC, 0x681E6DF6, 0xD8FDF6AD, 0xD7B9DA25));
    Advance(79, Vars(0x42541B35, 0x5738D5E1, 0x21834873, 0x681E6DF6, 0xD8FDF6AD));
  }

  lemma NoRounds()
    ensures Rounds(INITIAL, Block(), 0) == Vars(0x67452301, 0xEFCDAB89, 0x98BADCFE, 0x10325476, 0xC3D2E1F0)
  {
  }

  /** The test vector at the head of sha1.c. */
  lemma DigestOfAbc()
    ensures Digest(ABC) == [0xA9, 0x99, 0x3E, 0x36,
                            0x47, 0x06, 0x81, 0x6A,
                            0xBA, 0x3E, 0x25, 0x71,
                            0x78, 0x50, 0xC2, 0x6C,
                            0x9C, 0xD0, 0xD8, 0x9D]
  {
    hide Rounds, Pad, Block;
    RoundsTo80();
    BlockIsPadded();
    OneBlock(Block());
    Octets();
  }

  lemma OneBlock(block: seq<octet>)
    requires |block| == 64
    ensures HashBlocks(block) == HashBlock(INITIAL, block)
  {
    hide HashBlock;
    assert block[..0] == [] && block[0..] == block;
  }

  lemma Octets()
    ensures DigestOf(Vars(0xA9993E36, 0x4706816A, 0xBA3E2571, 0x7850C26C, 0x9CD0D89D))
      == [0xA9, 0x99, 0x3E, 0x36,
          0x47, 0x06, 0x81, 0x6A,
          0xBA, 0x3E, 0x25, 0x71,
          0x78, 0x50, 0xC2, 0x6C,
          0x9C, 0xD0, 0xD8, 0x9D]
  {
  }
}
