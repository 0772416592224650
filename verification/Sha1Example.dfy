/** The first test vector the program names: the digest of "abc", computed from the definitions of the standard. */
module Sha1Example {
  import opened Arith
  import opened Sha1Spec
  import Sha1Transform
  import Sha1Words

  const ABC: seq<Byte> := [0x61, 0x62, 0x63]

  /** The only block of the padded message, as words. */
  function Block(): (m: seq<Word>)
    ensures |m| == 16
  {
    [0x6162_6380, 0, 0, 0, 0, 0, 0, 0, 0, 0, 0, 0, 0, 0, 0, 0x18]
  }

  /** Eight words of the schedule, from t on. */
  predicate Eight(t: nat, a: Word, b: Word, c: Word, d: Word, e: Word, f: Word, g: Word, h: Word) {
    var m := Block();
    && W(m, t) == a && W(m, t + 1) == b && W(m, t + 2) == c && W(m, t + 3) == d
    && W(m, t + 4) == e && W(m, t + 5) == f && W(m, t + 6) == g && W(m, t + 7) == h
  }

  lemma Given(t: nat)
    requires t < 16
    ensures W(Block(), t) == Block()[t]
  {
    hide Schedule, Block;
  }

  lemma Next(t: nat, x: Word, y: Word, z: Word, u: Word, w: Word)
    requires t >= 16 && w == Schedule(x, y, z, u)
    requires W(Block(), t - 3) == x && W(Block(), t - 8) == y && W(Block(), t - 14) == z && W(Block(), t - 16) == u
    ensures W(Block(), t) == w
  {
    hide Schedule, Block;
    Sha1Transform.NextWord(Block(), t);
  }

  lemma Words0()
    ensures forall t: nat | t < 16 :: W(Block(), t) == if t == 0 then 0x6162_6380 else if t == 15 then 0x18 else 0
  {
    hide W;
    forall t: nat | t < 16
      ensures W(Block(), t) == if t == 0 then 0x6162_6380 else if t == 15 then 0x18 else 0
    {
      Given(t);
    }
  }

  lemma Words16()
    ensures Eight(16, 0xC2C4C700, 0x00000000, 0x00000030, 0x85898E01,
            0x00000000, 0x00000060, 0x0B131C03, 0x00000030)
  {
    hide Block, W;
    Words0();
    Next(16, 0x00000000, 0x00000000, 0x00000000, 0x61626380, 0xC2C4C700);
    Next(17, 0x00000000, 0x00000000, 0x00000000, 0x00000000, 0x00000000);
    Next(18, 0x00000018, 0x00000000, 0x00000000, 0x00000000, 0x00000030);
    Next(19, 0xC2C4C700, 0x00000000, 0x00000000, 0x00000000, 0x85898E01);
    Next(20, 0x00000000, 0x00000000, 0x00000000, 0x00000000, 0x00000000);
    Next(21, 0x00000030, 0x00000000, 0x00000000, 0x00000000, 0x00000060);
    Next(22, 0x85898E01, 0x00000000, 0x00000000, 0x00000000, 0x0B131C03);
    Next(23, 0x00000000, 0x00000018, 0x00000000, 0x00000000, 0x00000030);
  }

  lemma Words24()
    ensures Eight(24, 0x85898EC1, 0x16263806, 0x00000000, 0x00000180,
            0x2C4C700C, 0x000000F0, 0x93AFB507, 0x5898E048)
  {
    hide Block, W;
    Words0();
    Words16();
    Next(24, 0x00000060, 0xC2C4C700, 0x00000000, 0x00000000, 0x85898EC1);
    Next(25, 0x0B131C03, 0x00000000, 0x00000000, 0x00000000, 0x16263806);
    Next(26, 0x00000030, 0x00000030, 0x00000000, 0x00000000, 0x00000000);
    Next(27, 0x85898EC1, 0x85898E01, 0x00000000, 0x00000000, 0x00000180);
    Next(28, 0x16263806, 0x00000000, 0x00000000, 0x00000000, 0x2C4C700C);
    Next(29, 0x00000000, 0x00000060, 0x00000018, 0x00000000, 0x000000F0);
    Next(30, 0x00000180, 0x0B131C03, 0xC2C4C700, 0x00000000, 0x93AFB507);
    Next(31, 0x2C4C700C, 0x00000030, 0x00000000, 0x00000018, 0x5898E048);
  }

  lemma Words32()
    ensures Eight(32, 0x8E9A9202, 0x00000600, 0xB131C0F0, 0x16263BC6,
            0x4EBED41E, 0x626380A1, 0x16263806, 0x000018C0)
  {
    hide Block, W;
    Words16();
    Words24();
    Next(32, 0x000000F0, 0x85898EC1, 0x00000030, 0xC2C4C700, 0x8E9A9202);
    Next(33, 0x93AFB507, 0x16263806, 0x85898E01, 0x00000000, 0x00000600);
    Next(34, 0x5898E048, 0x00000000, 0x00000000, 0x00000030, 0xB131C0F0);
    Next(35, 0x8E9A9202, 0x00000180, 0x00000060, 0x85898E01, 0x16263BC6);
    Next(36, 0x00000600, 0x2C4C700C, 0x0B131C03, 0x00000000, 0x4EBED41E);
    Next(37, 0xB131C0F0, 0x000000F0, 0x00000030, 0x00000060, 0x626380A1);
    Next(38, 0x16263BC6, 0x93AFB507, 0x85898EC1, 0x0B131C03, 0x16263806);
    Next(39, 0x4EBED41E, 0x5898E048, 0x16263806, 0x00000030, 0x000018C0);
  }

  lemma Words40()
    ensures Eight(40, 0xD2E138C4, 0x00000F00, 0x3AFB5079, 0x898E04E5,
            0xE2BA3C2B, 0x000060C0, 0x053A37CD, 0x74458547)
  {
    hide Block, W;
    Words24();
    Words32();
    Next(40, 0x626380A1, 0x8E9A9202, 0x00000000, 0x85898EC1, 0xD2E138C4);
    Next(41, 0x16263806, 0x00000600, 0x00000180, 0x16263806, 0x00000F00);
    Next(42, 0x000018C0, 0xB131C0F0, 0x2C4C700C, 0x00000000, 0x3AFB5079);
    Next(43, 0xD2E138C4, 0x16263BC6, 0x000000F0, 0x00000180, 0x898E04E5);
    Next(44, 0x00000F00, 0x4EBED41E, 0x93AFB507, 0x2C4C700C, 0xE2BA3C2B);
    Next(45, 0x3AFB5079, 0x626380A1, 0x5898E048, 0x000000F0, 0x000060C0);
    Next(46, 0x898E04E5, 0x16263806, 0x8E9A9202, 0x93AFB507, 0x053A37CD);
    Next(47, 0xE2BA3C2B, 0x000018C0, 0x00000600, 0x5898E048, 0x74458547);
  }

  lemma Words48()
    ensures Eight(48, 0xDA9415ED, 0x26380A16, 0x626383A1, 0x4EBF54DE,
            0x3835B44B, 0x0000F600, 0x1E84C7A3, 0x98E04D98)
  {
    hide Block, W;
    Words32();
    Words40();
    Next(48, 0x000060C0, 0xD2E138C4, 0xB131C0F0, 0x8E9A9202, 0xDA9415ED);
    Next(49, 0x053A37CD, 0x00000F00, 0x16263BC6, 0x00000600, 0x26380A16);
    Next(50, 0x74458547, 0x3AFB5079, 0x4EBED41E, 0xB131C0F0, 0x626383A1);
    Next(51, 0xDA9415ED, 0x898E04E5, 0x626380A1, 0x16263BC6, 0x4EBF54DE);
    Next(52, 0x26380A16, 0xE2BA3C2B, 0x16263806, 0x4EBED41E, 0x3835B44B);
    Next(53, 0x626383A1, 0x000060C0, 0x000018C0, 0x626380A1, 0x0000F600);
    Next(54, 0x4EBF54DE, 0x053A37CD, 0xD2E138C4, 0x16263806, 0x1E84C7A3);
    Next(55, 0x3835B44B, 0x74458547, 0x00000F00, 0x000018C0, 0x98E04D98);
  }

  lemma Words56()
    ensures Eight(56, 0x651D16A0, 0x62658CA1, 0x458544D6, 0x44584CB7,
            0x7BA06619, 0x6380AEA2, 0x0AE55269, 0x627B49A1)
  {
    hide Block, W;
    Words40();
    Words48();
    Next(56, 0x0000F600, 0xDA9415ED, 0x3AFB5079, 0xD2E138C4, 0x651D16A0);
    Next(57, 0x1E84C7A3, 0x26380A16, 0x898E04E5, 0x00000F00, 0x62658CA1);
    Next(58, 0x98E04D98, 0x626383A1, 0xE2BA3C2B, 0x3AFB5079, 0x458544D6);
    Next(59, 0x651D16A0, 0x4EBF54DE, 0x000060C0, 0x898E04E5, 0x44584CB7);
    Next(60, 0x62658CA1, 0x3835B44B, 0x053A37CD, 0xE2BA3C2B, 0x7BA06619);
    Next(61, 0x458544D6, 0x0000F600, 0x74458547, 0x000060C0, 0x6380AEA2);
    Next(62, 0x44584CB7, 0x1E84C7A3, 0xDA9415ED, 0x053A37CD, 0x0AE55269);
    Next(63, 0x7BA06619, 0x98E04D98, 0x26380A16, 0x74458547, 0x627B49A1);
  }

  lemma Words64()
    ensures Eight(64, 0x7CD45C9D, 0x000F0000, 0xFB50753A, 0xEC6765E8,
            0xBA3C2BE2, 0x0060C000, 0x3A37CD05, 0x458546F4)
  {
    hide Block, W;
    Words48();
    Words56();
    Next(64, 0x6380AEA2, 0x651D16A0, 0x626383A1, 0xDA9415ED, 0x7CD45C9D);
    Next(65, 0x0AE55269, 0x62658CA1, 0x4EBF54DE, 0x26380A16, 0x000F0000);
    Next(66, 0x627B49A1, 0x458544D6, 0x3835B44B, 0x626383A1, 0xFB50753A);
    Next(67, 0x7CD45C9D, 0x44584CB7, 0x0000F600, 0x4EBF54DE, 0xEC6765E8);
    Next(68, 0x000F0000, 0x7BA06619, 0x1E84C7A3, 0x3835B44B, 0xBA3C2BE2);
    Next(69, 0xFB50753A, 0x6380AEA2, 0x98E04D98, 0x0000F600, 0x0060C000);
    Next(70, 0xEC6765E8, 0x0AE55269, 0x651D16A0, 0x1E84C7A3, 0x3A37CD05);
    Next(71, 0xBA3C2BE2, 0x627B49A1, 0x62658CA1, 0x98E04D98, 0x458546F4);
  }

  lemma Words72()
    ensures Eight(72, 0xB8599DD6, 0x380A1A26, 0x01E02203, 0xE7CC3456,
            0xE6E60B69, 0x00F60A00, 0x5795EF4F, 0x822E0879)
  {
    hide Block, W;
    Words56();
    Words64();
    Next(72, 0x0060C000, 0x7CD45C9D, 0x458544D6, 0x651D16A0, 0xB8599DD6);
    Next(73, 0x3A37CD05, 0x000F0000, 0x44584CB7, 0x62658CA1, 0x380A1A26);
    Next(74, 0x458546F4, 0xFB50753A, 0x7BA06619, 0x458544D6, 0x01E02203);
    Next(75, 0xB8599DD6, 0xEC6765E8, 0x6380AEA2, 0x44584CB7, 0xE7CC3456);
    Next(76, 0x380A1A26, 0xBA3C2BE2, 0x0AE55269, 0x7BA06619, 0xE6E60B69);
    Next(77, 0x01E02203, 0x0060C000, 0x627B49A1, 0x6380AEA2, 0x00F60A00);
    Next(78, 0xE7CC3456, 0x3A37CD05, 0x7CD45C9D, 0x0AE55269, 0x5795EF4F);
    Next(79, 0xE6E60B69, 0x458546F4, 0x000F0000, 0x627B49A1, 0x822E0879);
  }

  lemma Step(t: nat, a: Word, b: Word, c: Word, d: Word, e: Word, w: Word, sum: Word, turned: Word)
    requires Rounds(H0, Block(), t) == Regs(a, b, c, d, e) && W(Block(), t) == w
    requires Round(t, Regs(a, b, c, d, e), w) == Regs(sum, a, turned, c, d)
    ensures Rounds(H0, Block(), t + 1) == Regs(sum, a, turned, c, d)
  {
    hide Round, W, Block;
    Sha1Transform.NextRound(H0, Block(), t);
  }

  lemma Rounds8()
    ensures Rounds(H0, Block(), 8) == Regs(0x9E8C07D4, 0x993E30C1, 0x0FF1F290, 0xB3F52677, 0xF3763846)
  {
    hide Block, W, Rounds;
    NoRounds();
    Words0();
    Step(0, 0x67452301, 0xEFCDAB89, 0x98BADCFE, 0x10325476, 0xC3D2E1F0, 0x61626380, 0x0116FC33, 0x7BF36AE2);
    Step(1, 0x0116FC33, 0x67452301, 0x7BF36AE2, 0x98BADCFE, 0x10325476, 0x00000000, 0x8990536D, 0x59D148C0);
    Step(2, 0x8990536D, 0x0116FC33, 0x59D148C0, 0x7BF36AE2, 0x98BADCFE, 0x00000000, 0xA1390F08, 0xC045BF0C);
    Step(3, 0xA1390F08, 0x8990536D, 0xC045BF0C, 0x59D148C0, 0x7BF36AE2, 0x00000000, 0xCDD8E11B, 0x626414DB);
    Step(4, 0xCDD8E11B, 0xA1390F08, 0x626414DB, 0xC045BF0C, 0x59D148C0, 0x00000000, 0xCFD499DE, 0x284E43C2);
    Step(5, 0xCFD499DE, 0xCDD8E11B, 0x284E43C2, 0x626414DB, 0xC045BF0C, 0x00000000, 0x3FC7CA40, 0xF3763846);
    Step(6, 0x3FC7CA40, 0xCFD499DE, 0xF3763846, 0x284E43C2, 0x626414DB, 0x00000000, 0x993E30C1, 0xB3F52677);
    Step(7, 0x993E30C1, 0x3FC7CA40, 0xB3F52677, 0xF3763846, 0x284E43C2, 0x00000000, 0x9E8C07D4, 0x0FF1F290);
  }

  lemma Rounds16()
    ensures Rounds(H0, Block(), 16) == Regs(0x20BDD62F, 0x196BEE77, 0x644A3DA5, 0x1181ED99, 0x18C623F9)
  {
    hide Block, W, Rounds;
    Rounds8();
    Words0();
    Step(8, 0x9E8C07D4, 0x993E30C1, 0x0FF1F290, 0xB3F52677, 0xF3763846, 0x00000000, 0x4B6AE328, 0x664F8C30);
    Step(9, 0x4B6AE328, 0x9E8C07D4, 0x664F8C30, 0x0FF1F290, 0xB3F52677, 0x00000000, 0x8351F929, 0x27A301F5);
    Step(10, 0x8351F929, 0x4B6AE328, 0x27A301F5, 0x664F8C30, 0x0FF1F290, 0x00000000, 0xFBDA9E89, 0x12DAB8CA);
    Step(11, 0xFBDA9E89, 0x8351F929, 0x12DAB8CA, 0x27A301F5, 0x664F8C30, 0x00000000, 0x63188FE4, 0x60D47E4A);
    Step(12, 0x63188FE4, 0xFBDA9E89, 0x60D47E4A, 0x12DAB8CA, 0x27A301F5, 0x00000000, 0x4607B664, 0x7EF6A7A2);
    Step(13, 0x4607B664, 0x63188FE4, 0x7EF6A7A2, 0x60D47E4A, 0x12DAB8CA, 0x00000000, 0x9128F695, 0x18C623F9);
    Step(14, 0x9128F695, 0x4607B664, 0x18C623F9, 0x7EF6A7A2, 0x60D47E4A, 0x00000000, 0x196BEE77, 0x1181ED99);
    Step(15, 0x196BEE77, 0x9128F695, 0x1181ED99, 0x18C623F9, 0x7EF6A7A2, 0x00000018, 0x20BDD62F, 0x644A3DA5);
  }

  lemma Rounds24()
    ensures Rounds(H0, Block(), 24) == Regs(0xD541F12D, 0x21283486, 0x0CE88EFF, 0x868DEC32, 0x7F67875F)
  {
    hide Block, W, Rounds;
    Rounds16();
    Words16();
    Step(16, 0x20BDD62F, 0x196BEE77, 0x644A3DA5, 0x1181ED99, 0x18C623F9, 0xC2C4C700, 0x4E925823, 0xC65AFB9D);
    Step(17, 0x4E925823, 0x20BDD62F, 0xC65AFB9D, 0x644A3DA5, 0x1181ED99, 0x00000000, 0x82AA6728, 0xC82F758B);
    Step(18, 0x82AA6728, 0x4E925823, 0xC82F758B, 0xC65AFB9D, 0x644A3DA5, 0x00000030, 0xDC64901D, 0xD3A49608);
    Step(19, 0xDC64901D, 0x82AA6728, 0xD3A49608, 0xC82F758B, 0xC65AFB9D, 0x85898E01, 0xFD9E1D7D, 0x20AA99CA);
    Step(20, 0xFD9E1D7D, 0xDC64901D, 0x20AA99CA, 0xD3A49608, 0xC82F758B, 0x00000000, 0x1A37B0CA, 0x77192407);
    Step(21, 0x1A37B0CA, 0xFD9E1D7D, 0x77192407, 0x20AA99CA, 0xD3A49608, 0x00000060, 0x33A23BFC, 0x7F67875F);
    Step(22, 0x33A23BFC, 0x1A37B0CA, 0x7F67875F, 0x77192407, 0x20AA99CA, 0x0B131C03, 0x21283486, 0x868DEC32);
    Step(23, 0x21283486, 0x33A23BFC, 0x868DEC32, 0x7F67875F, 0x77192407, 0x00000030, 0xD541F12D, 0x0CE88EFF);
  }

  lemma Rounds32()
    ensures Rounds(H0, Block(), 32) == Regs(0x3B845D33, 0x1267B407, 0x717EEBD7, 0xA0DC2D4B, 0xD2AA1365)
  {
    hide Block, W, Rounds;
    Rounds24();
    Words24();
    Step(24, 0xD541F12D, 0x21283486, 0x0CE88EFF, 0x868DEC32, 0x7F67875F, 0x85898EC1, 0xC7567DC6, 0x884A0D21);
    Step(25, 0xC7567DC6, 0xD541F12D, 0x884A0D21, 0x0CE88EFF, 0x868DEC32, 0x16263806, 0x48413BA4, 0x75507C4B);
    Step(26, 0x48413BA4, 0xC7567DC6, 0x75507C4B, 0x884A0D21, 0x0CE88EFF, 0x00000000, 0xBE35FBD5, 0xB1D59F71);
    Step(27, 0xBE35FBD5, 0x48413BA4, 0xB1D59F71, 0x75507C4B, 0x884A0D21, 0x00000180, 0x4AA84D97, 0x12104EE9);
    Step(28, 0x4AA84D97, 0xBE35FBD5, 0x12104EE9, 0xB1D59F71, 0x75507C4B, 0x2C4C700C, 0x8370B52E, 0x6F8D7EF5);
    Step(29, 0x8370B52E, 0x4AA84D97, 0x6F8D7EF5, 0x12104EE9, 0xB1D59F71, 0x000000F0, 0xC5FBAF5D, 0xD2AA1365);
    Step(30, 0xC5FBAF5D, 0x8370B52E, 0xD2AA1365, 0x6F8D7EF5, 0x12104EE9, 0x93AFB507, 0x1267B407, 0xA0DC2D4B);
    Step(31, 0x1267B407, 0xC5FBAF5D, 0xA0DC2D4B, 0xD2AA1365, 0x6F8D7EF5, 0x5898E048, 0x3B845D33, 0x717EEBD7);
  }

  lemma Rounds40()
    ensures Rounds(H0, Block(), 40) == Regs(0x32DE1CBA, 0x4C986405, 0xF718E5CF, 0x03D447F6, 0xF72EEC32)
  {
    hide Block, W, Rounds;
    Rounds32();
    Words32();
    Step(32, 0x3B845D33, 0x1267B407, 0x717EEBD7, 0xA0DC2D4B, 0xD2AA1365, 0x8E9A9202, 0x046FAA0A, 0xC499ED01);
    Step(33, 0x046FAA0A, 0x3B845D33, 0xC499ED01, 0x717EEBD7, 0xA0DC2D4B, 0x00000600, 0x2C0EBC11, 0xCEE1174C);
    Step(34, 0x2C0EBC11, 0x046FAA0A, 0xCEE1174C, 0xC499ED01, 0x717EEBD7, 0xB131C0F0, 0x21796AD4, 0x811BEA82);
    Step(35, 0x21796AD4, 0x2C0EBC11, 0x811BEA82, 0xCEE1174C, 0xC499ED01, 0x16263BC6, 0xDCBBB0CB, 0x4B03AF04);
    Step(36, 0xDCBBB0CB, 0x21796AD4, 0x4B03AF04, 0x811BEA82, 0xCEE1174C, 0x4EBED41E, 0x0F511FD8, 0x085E5AB5);
    Step(37, 0x0F511FD8, 0xDCBBB0CB, 0x085E5AB5, 0x4B03AF04, 0x811BEA82, 0x626380A1, 0xDC63973F, 0xF72EEC32);
    Step(38, 0xDC63973F, 0x0F511FD8, 0xF72EEC32, 0x085E5AB5, 0x4B03AF04, 0x16263806, 0x4C986405, 0x03D447F6);
    Step(39, 0x4C986405, 0xDC63973F, 0x03D447F6, 0xF72EEC32, 0x085E5AB5, 0x000018C0, 0x32DE1CBA, 0xF718E5CF);
  }

  lemma Rounds48()
    ensures Rounds(H0, Block(), 48) == Regs(0xBEAD02CA, 0xA01B846C, 0x8714787C, 0x503CA382, 0xFB86C6AB)
  {
    hide Block, W, Rounds;
    Rounds40();
    Words40();
    Step(40, 0x32DE1CBA, 0x4C986405, 0xF718E5CF, 0x03D447F6, 0xF72EEC32, 0xD2E138C4, 0xFC87DEDF, 0x53261901);
    Step(41, 0xFC87DEDF, 0x32DE1CBA, 0x53261901, 0xF718E5CF, 0x03D447F6, 0x00000F00, 0x970A0D5C, 0x8CB7872E);
    Step(42, 0x970A0D5C, 0xFC87DEDF, 0x8CB7872E, 0x53261901, 0xF718E5CF, 0x3AFB5079, 0x7F193DC5, 0xFF21F7B7);
    Step(43, 0x7F193DC5, 0x970A0D5C, 0xFF21F7B7, 0x8CB7872E, 0x53261901, 0x898E04E5, 0xEE1B1AAF, 0x25C28357);
    Step(44, 0xEE1B1AAF, 0x7F193DC5, 0x25C28357, 0xFF21F7B7, 0x8CB7872E, 0xE2BA3C2B, 0x40F28E09, 0x5FC64F71);
    Step(45, 0x40F28E09, 0xEE1B1AAF, 0x5FC64F71, 0x25C28357, 0xFF21F7B7, 0x000060C0, 0x1C51E1F2, 0xFB86C6AB);
    Step(46, 0x1C51E1F2, 0x40F28E09, 0xFB86C6AB, 0x5FC64F71, 0x25C28357, 0x053A37CD, 0xA01B846C, 0x503CA382);
    Step(47, 0xA01B846C, 0x1C51E1F2, 0x503CA382, 0xFB86C6AB, 0x5FC64F71, 0x74458547, 0xBEAD02CA, 0x8714787C);
  }

  lemma Rounds56()
    ensures Rounds(H0, Block(), 56) == Regs(0x5E6456AF, 0x7B71F76D, 0x09FA7C76, 0x792410DB, 0x8E11EB59)
  {
    hide Block, W, Rounds;
    Rounds48();
    Words48();
    Step(48, 0xBEAD02CA, 0xA01B846C, 0x8714787C, 0x503CA382, 0xFB86C6AB, 0xDA9415ED, 0xBAF39337, 0x2806E11B);
    Step(49, 0xBAF39337, 0xBEAD02CA, 0x2806E11B, 0x8714787C, 0x503CA382, 0x26380A16, 0x120731C5, 0xAFAB40B2);
    Step(50, 0x120731C5, 0xBAF39337, 0xAFAB40B2, 0x2806E11B, 0x8714787C, 0x626383A1, 0x641DB2CE, 0xEEBCE4CD);
    Step(51, 0x641DB2CE, 0x120731C5, 0xEEBCE4CD, 0xAFAB40B2, 0x2806E11B, 0x4EBF54DE, 0x3847AD66, 0x4481CC71);
    Step(52, 0x3847AD66, 0x641DB2CE, 0x4481CC71, 0xEEBCE4CD, 0xAFAB40B2, 0x3835B44B, 0xE490436D, 0x99076CB3);
    Step(53, 0xE490436D, 0x3847AD66, 0x99076CB3, 0x4481CC71, 0xEEBCE4CD, 0x0000F600, 0x27E9F1D8, 0x8E11EB59);
    Step(54, 0x27E9F1D8, 0xE490436D, 0x8E11EB59, 0x99076CB3, 0x4481CC71, 0x1E84C7A3, 0x7B71F76D, 0x792410DB);
    Step(55, 0x7B71F76D, 0x27E9F1D8, 0x792410DB, 0x8E11EB59, 0x99076CB3, 0x98E04D98, 0x5E6456AF, 0x09FA7C76);
  }

  lemma Rounds64()
    ensures Rounds(H0, Block(), 64) == Regs(0x6B61C9E1, 0xB66C020B, 0x9523272C, 0xF5D5B051, 0x8FD4B796)
  {
    hide Block, W, Rounds;
    Rounds56();
    Words56();
    Step(56, 0x5E6456AF, 0x7B71F76D, 0x09FA7C76, 0x792410DB, 0x8E11EB59, 0x651D16A0, 0xC846093F, 0x5EDC7DDB);
    Step(57, 0xC846093F, 0x5E6456AF, 0x5EDC7DDB, 0x09FA7C76, 0x792410DB, 0x62658CA1, 0xD262FF50, 0xD79915AB);
    Step(58, 0xD262FF50, 0xC846093F, 0xD79915AB, 0x5EDC7DDB, 0x09FA7C76, 0x458544D6, 0x09D785FD, 0xF211824F);
    Step(59, 0x09D785FD, 0xD262FF50, 0xF211824F, 0xD79915AB, 0x5EDC7DDB, 0x44584CB7, 0x3F52DE5A, 0x3498BFD4);
    Step(60, 0x3F52DE5A, 0x09D785FD, 0x3498BFD4, 0xF211824F, 0xD79915AB, 0x7BA06619, 0xD756C147, 0x4275E17F);
    Step(61, 0xD756C147, 0x3F52DE5A, 0x4275E17F, 0x3498BFD4, 0xF211824F, 0x6380AEA2, 0x548C9CB2, 0x8FD4B796);
    Step(62, 0x548C9CB2, 0xD756C147, 0x8FD4B796, 0x4275E17F, 0x3498BFD4, 0x0AE55269, 0xB66C020B, 0xF5D5B051);
    Step(63, 0xB66C020B, 0x548C9CB2, 0xF5D5B051, 0x8FD4B796, 0x4275E17F, 0x627B49A1, 0x6B61C9E1, 0x9523272C);
  }

  lemma Rounds72()
    ensures Rounds(H0, Block(), 72) == Regs(0x39859DE7, 0xC199F8C7, 0x8FC96230, 0x125C24F0, 0xDE37534A)
  {
    hide Block, W, Rounds;
    Rounds64();
    Words64();
    Step(64, 0x6B61C9E1, 0xB66C020B, 0x9523272C, 0xF5D5B051, 0x8FD4B796, 0x7CD45C9D, 0x19DFA7AC, 0xED9B0082);
    Step(65, 0x19DFA7AC, 0x6B61C9E1, 0xED9B0082, 0x9523272C, 0xF5D5B051, 0x000F0000, 0x101655F9, 0x5AD87278);
    Step(66, 0x101655F9, 0x19DFA7AC, 0x5AD87278, 0xED9B0082, 0x9523272C, 0xFB50753A, 0x0C3DF2B4, 0x0677E9EB);
    Step(67, 0x0C3DF2B4, 0x101655F9, 0x0677E9EB, 0x5AD87278, 0xED9B0082, 0xEC6765E8, 0x78DD4D2B, 0x4405957E);
    Step(68, 0x78DD4D2B, 0x0C3DF2B4, 0x4405957E, 0x0677E9EB, 0x5AD87278, 0xBA3C2BE2, 0x497093C0, 0x030F7CAD);
    Step(69, 0x497093C0, 0x78DD4D2B, 0x030F7CAD, 0x4405957E, 0x0677E9EB, 0x0060C000, 0x3F2588C2, 0xDE37534A);
    Step(70, 0x3F2588C2, 0x497093C0, 0xDE37534A, 0x030F7CAD, 0x4405957E, 0x3A37CD05, 0xC199F8C7, 0x125C24F0);
    Step(71, 0xC199F8C7, 0x3F2588C2, 0x125C24F0, 0xDE37534A, 0x030F7CAD, 0x458546F4, 0x39859DE7, 0x8FC96230);
  }

  lemma Rounds80()
    ensures Rounds(H0, Block(), 80) == Regs(0x42541B35, 0x5738D5E1, 0x21834873, 0x681E6DF6, 0xD8FDF6AD)
  {
    hide Block, W, Rounds;
    Rounds72();
    Words72();
    Step(72, 0x39859DE7, 0xC199F8C7, 0x8FC96230, 0x125C24F0, 0xDE37534A, 0xB8599DD6, 0xEDB42DE4, 0xF0667E31);
    Step(73, 0xEDB42DE4, 0x39859DE7, 0xF0667E31, 0x8FC96230, 0x125C24F0, 0x380A1A26, 0x11793F6F, 0xCE616779);
    Step(74, 0x11793F6F, 0xEDB42DE4, 0xCE616779, 0xF0667E31, 0x8FC96230, 0x01E02203, 0x5EE76897, 0x3B6D0B79);
    Step(75, 0x5EE76897, 0x11793F6F, 0x3B6D0B79, 0xCE616779, 0xF0667E31, 0xE7CC3456, 0x63F7DAB7, 0xC45E4FDB);
    Step(76, 0x63F7DAB7, 0x5EE76897, 0xC45E4FDB, 0x3B6D0B79, 0xCE616779, 0xE6E60B69, 0xA079B7D9, 0xD7B9DA25);
    Step(77, 0xA079B7D9, 0x63F7DAB7, 0xD7B9DA25, 0xC45E4FDB, 0x3B6D0B79, 0x00F60A00, 0x860D21CC, 0xD8FDF6AD);
    Step(78, 0x860D21CC, 0xA079B7D9, 0xD8FDF6AD, 0xD7B9DA25, 0xC45E4FDB, 0x5795EF4F, 0x5738D5E1, 0x681E6DF6);
    Step(79, 0x5738D5E1, 0x860D21CC, 0x681E6DF6, 0xD8FDF6AD, 0xD7B9DA25, 0x822E0879, 0x42541B35, 0x21834873);
  }

  lemma NoRounds()
    ensures Rounds(H0, Block(), 0) == H0
  {
  }

  /** The padded message is the block. */
  lemma Padded()
    ensures PadWith(ABC, 24) == ABC + [0x80] + Zeros(52) + [0, 0, 0, 0, 0, 0, 0, 0x18]
  {
    hide ToByte, Length64;
    LengthOfAbc();
  }

  lemma LengthOfAbc()
    ensures Length64(24) == [0, 0, 0, 0, 0, 0, 0, 0x18]
  {
    hide Length64;
    forall i: nat | i < 8
      ensures Length64(24)[i] == if i < 7 then 0 else 0x18
    {
      LengthByte(i);
    }
  }

  lemma LengthByte(i: nat)
    requires i < 8
    ensures Length64(24)[i] == if i < 7 then 0 else 0x18
  {
    hide ToByte, Pow256, Length64;
    Digit(7 - i);
    ByteAt(i, if i < 7 then 0 else 24);
    ZeroByte();
    LastByte();
  }

  lemma ByteAt(i: nat, n: nat)
    requires i < 8 && n < 256 && n == 24 / Pow256(7 - i) % 256
    ensures Length64(24)[i] == ToByte(n)
  {
    hide ToByte, Pow256;
  }

  lemma Digit(k: nat)
    ensures 24 / Pow256(k) % 256 == if k == 0 then 24 else 0
  {
    hide Pow256;
    Powers(k);
    if k > 0 {
      DivModUnique(Pow256(k), 0, 24);
    }
  }

  lemma ZeroByte()
    ensures ToByte(0) == 0
  {
  }

  lemma LastByte()
    ensures ToByte(24) == 0x18
  {
  }

  lemma Powers(n: nat)
    ensures Pow256(n) == 1 <==> n == 0
    ensures n > 0 ==> Pow256(n) >= 256
  {
  }

  function ByteOf(i: nat): Byte {
    if i < 3 then ABC[i] else if i == 3 then 0x80 else if i == 63 then 0x18 else 0
  }

  lemma PaddedBytes(p: seq<Byte>)
    requires p == ABC + [0x80] + Zeros(52) + [0, 0, 0, 0, 0, 0, 0, 0x18]
    ensures |p| == 64 && forall i: nat | i < 64 :: p[i] == ByteOf(i)
  {
  }

  lemma ParsedWord(p: seq<Byte>, j: nat)
    requires |p| == 64 && (forall i: nat | i < 64 :: p[i] == ByteOf(i)) && j < 16
    ensures Parse(p)[j] == if j == 0 then 0x6162_6380 else if j == 15 then 0x18 else 0
  {
    hide BigEndian;
    FirstWord();
    ZeroWord();
    LastWord();
  }

  lemma Parsed(p: seq<Byte>)
    requires p == ABC + [0x80] + Zeros(52) + [0, 0, 0, 0, 0, 0, 0, 0x18]
    ensures |p| == 64 && Parse(p) == Block()
  {
    hide Parse, ByteOf;
    PaddedBytes(p);
    forall j: nat | j < 16
      ensures Parse(p)[j] == if j == 0 then 0x6162_6380 else if j == 15 then 0x18 else 0
    {
      ParsedWord(p, j);
    }
  }

  lemma FirstWord()
    ensures BigEndian(0x61, 0x62, 0x63, 0x80) == 0x6162_6380
  {
  }

  lemma ZeroWord()
    ensures BigEndian(0, 0, 0, 0) == 0
  {
  }

  lemma LastWord()
    ensures BigEndian(0, 0, 0, 0x18) == 0x18
  {
  }

  lemma Digested()
    ensures Compress(H0, Block()) == Regs(0xA9993E36, 0x4706816A, 0xBA3E2571, 0x7850C26C, 0x9CD0D89D)
  {
    hide Rounds, Block;
    Rounds80();
  }

  lemma Written()
    ensures DigestOf(Regs(0xA9993E36, 0x4706816A, 0xBA3E2571, 0x7850C26C, 0x9CD0D89D))
            == [0xA9, 0x99, 0x3E, 0x36, 0x47, 0x06, 0x81, 0x6A, 0xBA, 0x3E,
                0x25, 0x71, 0x78, 0x50, 0xC2, 0x6C, 0x9C, 0xD0, 0xD8, 0x9D]
  {
  }

  /** The digest of "abc". */
  lemma DigestOfAbc()
    ensures Sha1(ABC)
            == [0xA9, 0x99, 0x3E, 0x36, 0x47, 0x06, 0x81, 0x6A, 0xBA, 0x3E,
                0x25, 0x71, 0x78, 0x50, 0xC2, 0x6C, 0x9C, 0xD0, 0xD8, 0x9D]
  {
    hide PadWith, Parse, Compress, Block, DigestOf;
    Padded();
    var p := PadWith(ABC, 24);
    Parsed(p);
    Digested();
    Written();
    OneBlock(p);
  }

  lemma OneBlock(p: seq<Byte>)
    requires |p| == 64
    ensures HashBlocks(p) == Compress(H0, Parse(p))
  {
    hide Compress, Parse;
    assert p[..0] == [] && p[0..] == p;
  }
}
