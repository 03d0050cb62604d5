// The known answers of the self-test in camellia-glue.c, which are those of section A of
// RFC 3713: the cipher as defined here, with the table of SBOX1 that camellia.c has, meets
// them.  This fixes every constant, rotation and octet order at once.
module CamelliaKnown {
  import opened Words
  import opened Camellia
  import opened CamelliaRound
  import opened CamelliaKeys
  import opened CamelliaSetup

  // Sixteen octets of SBOX1
  predicate Row(s: SBox, x: bv8, y0: bv8, y1: bv8, y2: bv8, y3: bv8, y4: bv8, y5: bv8, y6: bv8, y7: bv8,
                y8: bv8, y9: bv8, y10: bv8, y11: bv8, y12: bv8, y13: bv8, y14: bv8, y15: bv8)
  {
    && s(x) == y0 && s(x + 1) == y1 && s(x + 2) == y2 && s(x + 3) == y3
    && s(x + 4) == y4 && s(x + 5) == y5 && s(x + 6) == y6 && s(x + 7) == y7
    && s(x + 8) == y8 && s(x + 9) == y9 && s(x + 10) == y10 && s(x + 11) == y11
    && s(x + 12) == y12 && s(x + 13) == y13 && s(x + 14) == y14 && s(x + 15) == y15
  }

  predicate Sbox1(s: SBox)
  {
    && Row(s, 0x00, 0x70, 0x82, 0x2C, 0xEC, 0xB3, 0x27, 0xC0, 0xE5, 0xE4, 0x85, 0x57, 0x35, 0xEA, 0x0C, 0xAE, 0x41)
    && Row(s, 0x10, 0x23, 0xEF, 0x6B, 0x93, 0x45, 0x19, 0xA5, 0x21, 0xED, 0x0E, 0x4F, 0x4E, 0x1D, 0x65, 0x92, 0xBD)
    && Row(s, 0x20, 0x86, 0xB8, 0xAF, 0x8F, 0x7C, 0xEB, 0x1F, 0xCE, 0x3E, 0x30, 0xDC, 0x5F, 0x5E, 0xC5, 0x0B, 0x1A)
    && Row(s, 0x30, 0xA6, 0xE1, 0x39, 0xCA, 0xD5, 0x47, 0x5D, 0x3D, 0xD9, 0x01, 0x5A, 0xD6, 0x51, 0x56, 0x6C, 0x4D)
    && Row(s, 0x40, 0x8B, 0x0D, 0x9A, 0x66, 0xFB, 0xCC, 0xB0, 0x2D, 0x74, 0x12, 0x2B, 0x20, 0xF0, 0xB1, 0x84, 0x99)
    && Row(s, 0x50, 0xDF, 0x4C, 0xCB, 0xC2, 0x34, 0x7E, 0x76, 0x05, 0x6D, 0xB7, 0xA9, 0x31, 0xD1, 0x17, 0x04, 0xD7)
    && Row(s, 0x60, 0x14, 0x58, 0x3A, 0x61, 0xDE, 0x1B, 0x11, 0x1C, 0x32, 0x0F, 0x9C, 0x16, 0x53, 0x18, 0xF2, 0x22)
    && Row(s, 0x70, 0xFE, 0x44, 0xCF, 0xB2, 0xC3, 0xB5, 0x7A, 0x91, 0x24, 0x08, 0xE8, 0xA8, 0x60, 0xFC, 0x69, 0x50)
    && Row(s, 0x80, 0xAA, 0xD0, 0xA0, 0x7D, 0xA1, 0x89, 0x62, 0x97, 0x54, 0x5B, 0x1E, 0x95, 0xE0, 0xFF, 0x64, 0xD2)
    && Row(s, 0x90, 0x10, 0xC4, 0x00, 0x48, 0xA3, 0xF7, 0x75, 0xDB, 0x8A, 0x03, 0xE6, 0xDA, 0x09, 0x3F, 0xDD, 0x94)
    && Row(s, 0xA0, 0x87, 0x5C, 0x83, 0x02, 0xCD, 0x4A, 0x90, 0x33, 0x73, 0x67, 0xF6, 0xF3, 0x9D, 0x7F, 0xBF, 0xE2)
    && Row(s, 0xB0, 0x52, 0x9B, 0xD8, 0x26, 0xC8, 0x37, 0xC6, 0x3B, 0x81, 0x96, 0x6F, 0x4B, 0x13, 0xBE, 0x63, 0x2E)
    && Row(s, 0xC0, 0xE9, 0x79, 0xA7, 0x8C, 0x9F, 0x6E, 0xBC, 0x8E, 0x29, 0xF5, 0xF9, 0xB6, 0x2F, 0xFD, 0xB4, 0x59)
    && Row(s, 0xD0, 0x78, 0x98, 0x06, 0x6A, 0xE7, 0x46, 0x71, 0xBA, 0xD4, 0x25, 0xAB, 0x42, 0x88, 0xA2, 0x8D, 0xFA)
    && Row(s, 0xE0, 0x72, 0x07, 0xB9, 0x55, 0xF8, 0xEE, 0xAC, 0x0A, 0x36, 0x49, 0x2A, 0x68, 0x3C, 0x38, 0xF1, 0xA4)
    && Row(s, 0xF0, 0x40, 0x28, 0xD3, 0x7B, 0xBB, 0xC9, 0x43, 0xC1, 0x15, 0xE3, 0xAD, 0xF4, 0x77, 0xC7, 0x80, 0x9E)
  }

  function Plain(): Block<Half>
  {
    Block(Half(0x01234567, 0x89ABCDEF), Half(0xFEDCBA98, 0x76543210))
  }

  function Left(): Quad { Quad(0x01234567, 0x89ABCDEF, 0xFEDCBA98, 0x76543210) }
  function Right(): Quad { Quad(0x00112233, 0x44556677, 0x8899AABB, 0xCCDDEEFF) }

  // ------------------------------------------------------------ by steps

  lemma Two(s: SBox, d: Block<Half>, k1: Half, k2: Half, e: Block<Half>)
    requires e.d2 == X(d.d2, Round(s, X(d.d1, k1))) && e.d1 == X(d.d1, Round(s, X(e.d2, k2)))
    ensures TwoRounds(Ops(), RoundOf(s), d, k1, k2) == e
  {
  }

  lemma Six(s: SBox, d: Block<Half>, k: Group<Half>, e1: Block<Half>, e2: Block<Half>, e3: Block<Half>)
    requires TwoRounds(Ops(), RoundOf(s), d, k.k1, k.k2) == e1 && TwoRounds(Ops(), RoundOf(s), e1, k.k3, k.k4) == e2
    requires TwoRounds(Ops(), RoundOf(s), e2, k.k5, k.k6) == e3
    ensures SixRounds(Ops(), RoundOf(s), d, k) == e3
  {
  }

  lemma Last(s: SBox, d: Block<Half>, ks: seq<Group<Half>>, e: Block<Half>)
    requires |ks| == 1 && SixRounds(Ops(), RoundOf(s), d, ks[0]) == e
    ensures Groups(Ops(), RoundOf(s), d, ks) == e
  {
  }

  lemma Next(s: SBox, d: Block<Half>, k: Group<Half>, rest: seq<Group<Half>>, e: Block<Half>, d': Block<Half>, r: Block<Half>)
    requires rest != [] && SixRounds(Ops(), RoundOf(s), d, k) == e && Groups(Ops(), RoundOf(s), d', rest) == r
    requires d' == Block(FL(e.d1, k.ke1), FLInv(e.d2, k.ke2))
    ensures Groups(Ops(), RoundOf(s), d, [k] + rest) == r
  {
    assert ([k] + rest)[1..] == rest;
  }

  lemma Whole(s: SBox, k: Keys<Half>, m: Block<Half>, d: Block<Half>, e: Block<Half>)
    requires k.groups != [] && Groups(Ops(), RoundOf(s), d, k.groups) == e
    requires d == Block(X(m.d1, k.kw1), X(m.d2, k.kw2))
    ensures Encrypt(Ops(), RoundOf(s), k, m) == Block(X(e.d2, k.kw3), X(e.d1, k.kw4))
  {
  }

  // ----------------------------------------------------------- 128 bits

  lemma ShortKa1(s: SBox)
    requires Sbox1(s)
    ensures F(s, Half(0x01234567, 0x89ABCDEF), SIGMA1) == Half(0x828787CC, 0x9EBA002A)
    ensures F(s, Half(0x7C5B3D54, 0xE8EE323A), SIGMA2) == Half(0x3E0A9979, 0x813DFCD2)
  {
  }

  lemma ShortKa2(s: SBox)
    requires Sbox1(s)
    ensures F(s, Half(0x3E0A9979, 0x813DFCD2), SIGMA3) == Half(0x9415C76B, 0x0B42927C)
    ensures F(s, Half(0x169240A7, 0x95F89256), SIGMA4) == Half(0x907B5AAC, 0xDA9B43CF)
  {
  }

  lemma ShortKa(s: SBox)
    requires Sbox1(s)
    ensures Ka(s, Left(), Quad(0, 0, 0, 0)) == Quad(0xAE71C3D5, 0x5BA6BF1D, 0x169240A7, 0x95F89256)
  {
    ShortKa1(s);
    ShortKa2(s);
  }

  function ShortGroup1(): Group<Half>
  {
    Group(Half(0xAE71C3D5, 0x5BA6BF1D), Half(0x169240A7, 0x95F89256), Half(0xA2B3C4D5, 0xE6F7FF6E),
          Half(0x5D4C3B2A, 0x19080091), Half(0xE1EAADD3, 0x5F8E8B49), Half(0x2053CAFC, 0x492B5738),
          Half(0x56E9AFC7, 0x45A49029), Half(0xE57E2495, 0xAB9C70F5))
  }

  function ShortGroup2(): Group<Half>
  {
    Group(Half(0x79BDFFDB, 0x97530ECA), Half(0x86420024, 0x68ACF135), Half(0xD7E3A2D2, 0x4814F2BF),
          Half(0x00123456, 0x789ABCDE), Half(0xD169240A, 0x795F8925), Half(0x6AE71C3D, 0x55BA6BF1),
          Half(0x97530ECA, 0x86420024), Half(0x68ACF135, 0x79BDFFDB))
  }

  function ShortGroup3(): Group<Half>
  {
    Group(Half(0x1D950C84, 0x0048D159), Half(0xE26AF37B, 0xFFB72EA6), Half(0xE57E2495, 0xAB9C70F5),
          Half(0x56E9AFC7, 0x45A49029), Half(0x19080091, 0xA2B3C4D5), Half(0xE6F7FF6E, 0x5D4C3B2A),
          Half(0x00000000, 0x00000000), Half(0x00000000, 0x00000000))
  }

  lemma ShortKeys(s: SBox)
    requires Sbox1(s)
    ensures Schedule128(s, Left()) ==
            Keys(Half(0x01234567, 0x89ABCDEF), Half(0xFEDCBA98, 0x76543210), Half(0x492B5738, 0xE1EAADD3), Half(0x5F8E8B49, 0x2053CAFC),
                 [ShortGroup1(), ShortGroup2(), ShortGroup3()])
  {
    ShortKa(s);
  }

  lemma Short1(s: SBox)
    requires Sbox1(s)
    ensures TwoRounds(Ops(), RoundOf(s), Block(Half(0x00000000, 0x00000000), Half(0x00000000, 0x00000000)),
                      Half(0xAE71C3D5, 0x5BA6BF1D), Half(0x169240A7, 0x95F89256)) ==
            Block(Half(0xD5BD2469, 0x1D280080), Half(0x77933E47, 0x4A99FA36))
  {
    Two(s, Block(Half(0x00000000, 0x00000000), Half(0x00000000, 0x00000000)), Half(0xAE71C3D5, 0x5BA6BF1D), Half(0x169240A7, 0x95F89256),
        Block(Half(0xD5BD2469, 0x1D280080), Half(0x77933E47, 0x4A99FA36)));
  }

  lemma Short2(s: SBox)
    requires Sbox1(s)
    ensures TwoRounds(Ops(), RoundOf(s), Block(Half(0xD5BD2469, 0x1D280080), Half(0x77933E47, 0x4A99FA36)),
                      Half(0xA2B3C4D5, 0xE6F7FF6E), Half(0x5D4C3B2A, 0x19080091)) ==
            Block(Half(0x9AD158F8, 0x72902D1E), Half(0xC5D1AE21, 0x947BAEA5))
  {
    Two(s, Block(Half(0xD5BD2469, 0x1D280080), Half(0x77933E47, 0x4A99FA36)), Half(0xA2B3C4D5, 0xE6F7FF6E), Half(0x5D4C3B2A, 0x19080091),
        Block(Half(0x9AD158F8, 0x72902D1E), Half(0xC5D1AE21, 0x947BAEA5)));
  }

  lemma Short3(s: SBox)
    requires Sbox1(s)
    ensures TwoRounds(Ops(), RoundOf(s), Block(Half(0x9AD158F8, 0x72902D1E), Half(0xC5D1AE21, 0x947BAEA5)),
                      Half(0xE1EAADD3, 0x5F8E8B49), Half(0x2053CAFC, 0x492B5738)) ==
            Block(Half(0x695E2DBC, 0x2A7211D1), Half(0x029D886D, 0x6C0DFB08))
  {
    Two(s, Block(Half(0x9AD158F8, 0x72902D1E), Half(0xC5D1AE21, 0x947BAEA5)), Half(0xE1EAADD3, 0x5F8E8B49), Half(0x2053CAFC, 0x492B5738),
        Block(Half(0x695E2DBC, 0x2A7211D1), Half(0x029D886D, 0x6C0DFB08)));
  }

  lemma ShortSix1(s: SBox)
    requires Sbox1(s)
    ensures SixRounds(Ops(), RoundOf(s), Block(Half(0x00000000, 0x00000000), Half(0x00000000, 0x00000000)),
                      ShortGroup1()) ==
            Block(Half(0x695E2DBC, 0x2A7211D1), Half(0x029D886D, 0x6C0DFB08))
  {
    Short1(s); Short2(s); Short3(s);
    Six(s, Block(Half(0x00000000, 0x00000000), Half(0x00000000, 0x00000000)), ShortGroup1(),
        Block(Half(0xD5BD2469, 0x1D280080), Half(0x77933E47, 0x4A99FA36)),
        Block(Half(0x9AD158F8, 0x72902D1E), Half(0xC5D1AE21, 0x947BAEA5)),
        Block(Half(0x695E2DBC, 0x2A7211D1), Half(0x029D886D, 0x6C0DFB08)));
  }

  lemma Short4(s: SBox)
    requires Sbox1(s)
    ensures TwoRounds(Ops(), RoundOf(s), Block(Half(0x86B8F745, 0xAAE24AD9), Half(0xED007390, 0xA60DBA29)),
                      Half(0x79BDFFDB, 0x97530ECA), Half(0x86420024, 0x68ACF135)) ==
            Block(Half(0xC9DE9B00, 0x5DBB1BDC), Half(0x5DED23CF, 0x7C5A6CD4))
  {
    Two(s, Block(Half(0x86B8F745, 0xAAE24AD9), Half(0xED007390, 0xA60DBA29)), Half(0x79BDFFDB, 0x97530ECA), Half(0x86420024, 0x68ACF135),
        Block(Half(0xC9DE9B00, 0x5DBB1BDC), Half(0x5DED23CF, 0x7C5A6CD4)));
  }

  lemma Short5(s: SBox)
    requires Sbox1(s)
    ensures TwoRounds(Ops(), RoundOf(s), Block(Half(0xC9DE9B00, 0x5DBB1BDC), Half(0x5DED23CF, 0x7C5A6CD4)),
                      Half(0xD7E3A2D2, 0x4814F2BF), Half(0x00123456, 0x789ABCDE)) ==
            Block(Half(0x055D70CE, 0x95DD6E39), Half(0x7FA0BF80, 0x384F8425))
  {
    Two(s, Block(Half(0xC9DE9B00, 0x5DBB1BDC), Half(0x5DED23CF, 0x7C5A6CD4)), Half(0xD7E3A2D2, 0x4814F2BF), Half(0x00123456, 0x789ABCDE),
        Block(Half(0x055D70CE, 0x95DD6E39), Half(0x7FA0BF80, 0x384F8425)));
  }

  lemma Short6(s: SBox)
    requires Sbox1(s)
    ensures TwoRounds(Ops(), RoundOf(s), Block(Half(0x055D70CE, 0x95DD6E39), Half(0x7FA0BF80, 0x384F8425)),
                      Half(0xD169240A, 0x795F8925), Half(0x6AE71C3D, 0x55BA6BF1)) ==
            Block(Half(0x138583CD, 0x2132F85B), Half(0xCD8BDC1B, 0x60C2F0E8))
  {
    Two(s, Block(Half(0x055D70CE, 0x95DD6E39), Half(0x7FA0BF80, 0x384F8425)), Half(0xD169240A, 0x795F8925), Half(0x6AE71C3D, 0x55BA6BF1),
        Block(Half(0x138583CD, 0x2132F85B), Half(0xCD8BDC1B, 0x60C2F0E8)));
  }

  lemma ShortSix2(s: SBox)
    requires Sbox1(s)
    ensures SixRounds(Ops(), RoundOf(s), Block(Half(0x86B8F745, 0xAAE24AD9), Half(0xED007390, 0xA60DBA29)),
                      ShortGroup2()) ==
            Block(Half(0x138583CD, 0x2132F85B), Half(0xCD8BDC1B, 0x60C2F0E8))
  {
    Short4(s); Short5(s); Short6(s);
    Six(s, Block(Half(0x86B8F745, 0xAAE24AD9), Half(0xED007390, 0xA60DBA29)), ShortGroup2(),
        Block(Half(0xC9DE9B00, 0x5DBB1BDC), Half(0x5DED23CF, 0x7C5A6CD4)),
        Block(Half(0x055D70CE, 0x95DD6E39), Half(0x7FA0BF80, 0x384F8425)),
        Block(Half(0x138583CD, 0x2132F85B), Half(0xCD8BDC1B, 0x60C2F0E8)));
  }

  lemma Short7(s: SBox)
    requires Sbox1(s)
    ensures TwoRounds(Ops(), RoundOf(s), Block(Half(0x94F77E22, 0x0730FDCB), Half(0xB47423E0, 0x208AB2A8)),
                      Half(0x1D950C84, 0x0048D159), Half(0xE26AF37B, 0xFFB72EA6)) ==
            Block(Half(0xA99F8827, 0xF7D70630), Half(0xC64C3276, 0x70BF3DF6))
  {
    Two(s, Block(Half(0x94F77E22, 0x0730FDCB), Half(0xB47423E0, 0x208AB2A8)), Half(0x1D950C84, 0x0048D159), Half(0xE26AF37B, 0xFFB72EA6),
        Block(Half(0xA99F8827, 0xF7D70630), Half(0xC64C3276, 0x70BF3DF6)));
  }

  lemma Short8(s: SBox)
    requires Sbox1(s)
    ensures TwoRounds(Ops(), RoundOf(s), Block(Half(0xA99F8827, 0xF7D70630), Half(0xC64C3276, 0x70BF3DF6)),
                      Half(0xE57E2495, 0xAB9C70F5), Half(0x56E9AFC7, 0x45A49029)) ==
            Block(Half(0xA4029221, 0x04425CBF), Half(0xA158DF22, 0xCC8E3592))
  {
    Two(s, Block(Half(0xA99F8827, 0xF7D70630), Half(0xC64C3276, 0x70BF3DF6)), Half(0xE57E2495, 0xAB9C70F5), Half(0x56E9AFC7, 0x45A49029),
        Block(Half(0xA4029221, 0x04425CBF), Half(0xA158DF22, 0xCC8E3592)));
  }

  lemma Short9(s: SBox)
    requires Sbox1(s)
    ensures TwoRounds(Ops(), RoundOf(s), Block(Half(0xA4029221, 0x04425CBF), Half(0xA158DF22, 0xCC8E3592)),
                      Half(0x19080091, 0xA2B3C4D5), Half(0xE6F7FF6E, 0x5D4C3B2A)) ==
            Block(Half(0x57D98D1F, 0x68B974BF), Half(0x2E4C6600, 0xB57CC4A0))
  {
    Two(s, Block(Half(0xA4029221, 0x04425CBF), Half(0xA158DF22, 0xCC8E3592)), Half(0x19080091, 0xA2B3C4D5), Half(0xE6F7FF6E, 0x5D4C3B2A),
        Block(Half(0x57D98D1F, 0x68B974BF), Half(0x2E4C6600, 0xB57CC4A0)));
  }

  lemma ShortSix3(s: SBox)
    requires Sbox1(s)
    ensures SixRounds(Ops(), RoundOf(s), Block(Half(0x94F77E22, 0x0730FDCB), Half(0xB47423E0, 0x208AB2A8)),
                      ShortGroup3()) ==
            Block(Half(0x57D98D1F, 0x68B974BF), Half(0x2E4C6600, 0xB57CC4A0))
  {
    Short7(s); Short8(s); Short9(s);
    Six(s, Block(Half(0x94F77E22, 0x0730FDCB), Half(0xB47423E0, 0x208AB2A8)), ShortGroup3(),
        Block(Half(0xA99F8827, 0xF7D70630), Half(0xC64C3276, 0x70BF3DF6)),
        Block(Half(0xA4029221, 0x04425CBF), Half(0xA158DF22, 0xCC8E3592)),
        Block(Half(0x57D98D1F, 0x68B974BF), Half(0x2E4C6600, 0xB57CC4A0)));
  }

  lemma ShortGroups(s: SBox)
    requires Sbox1(s)
    ensures Groups(Ops(), RoundOf(s), Block(Half(0x00000000, 0x00000000), Half(0x00000000, 0x00000000)),
                   [ShortGroup1(), ShortGroup2(), ShortGroup3()]) ==
            Block(Half(0x57D98D1F, 0x68B974BF), Half(0x2E4C6600, 0xB57CC4A0))
  {
    var rest3 := [ShortGroup3()];
    ShortSix3(s);
    Last(s, Block(Half(0x94F77E22, 0x0730FDCB), Half(0xB47423E0, 0x208AB2A8)), rest3,
         Block(Half(0x57D98D1F, 0x68B974BF), Half(0x2E4C6600, 0xB57CC4A0)));
    var rest2 := [ShortGroup2()] + rest3;
    ShortSix2(s);
    Next(s, Block(Half(0x86B8F745, 0xAAE24AD9), Half(0xED007390, 0xA60DBA29)), ShortGroup2(), rest3,
         Block(Half(0x138583CD, 0x2132F85B), Half(0xCD8BDC1B, 0x60C2F0E8)),
         Block(Half(0x94F77E22, 0x0730FDCB), Half(0xB47423E0, 0x208AB2A8)),
         Block(Half(0x57D98D1F, 0x68B974BF), Half(0x2E4C6600, 0xB57CC4A0)));
    var rest1 := [ShortGroup1()] + rest2;
    ShortSix1(s);
    Next(s, Block(Half(0x00000000, 0x00000000), Half(0x00000000, 0x00000000)), ShortGroup1(), rest2,
         Block(Half(0x695E2DBC, 0x2A7211D1), Half(0x029D886D, 0x6C0DFB08)),
         Block(Half(0x86B8F745, 0xAAE24AD9), Half(0xED007390, 0xA60DBA29)),
         Block(Half(0x57D98D1F, 0x68B974BF), Half(0x2E4C6600, 0xB57CC4A0)));
    assert [ShortGroup1(), ShortGroup2(), ShortGroup3()] == rest1;
  }

  lemma Answer128(s: SBox)
    requires Sbox1(s)
    ensures Encrypt(Ops(), RoundOf(s), Schedule128(s, Left()), Plain()) ==
            Block(Half(0x67673138, 0x54966973), Half(0x08570656, 0x48EABE43))
  {
    ShortKeys(s);
    ShortGroups(s);
    Whole(s, Schedule128(s, Left()), Plain(), Block(Half(0x00000000, 0x00000000), Half(0x00000000, 0x00000000)),
          Block(Half(0x57D98D1F, 0x68B974BF), Half(0x2E4C6600, 0xB57CC4A0)));
  }

  // ----------------------------------------------------------- 256 bits

  lemma LongKa1(s: SBox)
    requires Sbox1(s)
    ensures F(s, Half(0x01326754, 0xCDFEAB98), SIGMA1) == Half(0x1E7EAF6C, 0x1215BE4A)
    ensures F(s, Half(0x683BBF4F, 0xA89C62A5), SIGMA2) == Half(0x24E36B63, 0xB7E7F776)
  {
  }

  lemma LongKa2(s: SBox)
    requires Sbox1(s)
    ensures F(s, Half(0x24F24950, 0xF3B29101), SIGMA3) == Half(0x5F5C949C, 0xA1D1675B)
    ensures F(s, Half(0xC9BB914B, 0x7F1937EE), SIGMA4) == Half(0x3323FCE0, 0xB56D96FB)
  {
  }

  lemma LongKa(s: SBox)
    requires Sbox1(s)
    ensures Ka(s, Left(), Right()) == Quad(0x17D1B5B0, 0x46DF07FA, 0xC9BB914B, 0x7F1937EE)
  {
    LongKa1(s);
    LongKa2(s);
  }

  lemma LongKb1(s: SBox)
    requires Sbox1(s)
    ensures F(s, Half(0x17C09783, 0x028A618D), SIGMA5) == Half(0x596AC66A, 0x74752771)
    ensures F(s, Half(0x1848FD9A, 0xC7B1FE60), SIGMA6) == Half(0x2FD5B6C1, 0x822EB24D)
  {
  }

  lemma LongKb(s: SBox)
    requires Sbox1(s)
    ensures Kb(s, Quad(0x17D1B5B0, 0x46DF07FA, 0xC9BB914B, 0x7F1937EE), Right()) == Quad(0x38152142, 0x80A4D3C0, 0x1848FD9A, 0xC7B1FE60)
  {
    LongKb1(s);
  }

  function LongGroup1(): Group<Half>
  {
    Group(Half(0x38152142, 0x80A4D3C0), Half(0x1848FD9A, 0xC7B1FE60), Half(0x9119A22A, 0xB33BC44C),
          Half(0xD55DE66E, 0xF77F8008), Half(0xDAD8236F, 0x83FD64DD), Half(0xC8A5BF8C, 0x9BF70BE8),
          Half(0xD115599D, 0xE2266AAE), Half(0xF3377BBF, 0xC004488C))
  }

  function LongGroup2(): Group<Half>
  {
    Group(Half(0xA02934F0, 0x06123F66), Half(0xB1EC7F98, 0x0E054850), Half(0x79BDFFDB, 0x97530ECA),
          Half(0x86420024, 0x68ACF135), Half(0xE0FF5937, 0x72296FE3), Half(0x26FDC2FA, 0x36B608DB),
          Half(0xFFEDCBA9, 0x87654321), Half(0x00123456, 0x789ABCDE))
  }

  function LongGroup3(): Group<Half>
  {
    Group(Half(0x78899AAB, 0xBCCDDEEF), Half(0xF0011223, 0x34455667), Half(0x01848FD9, 0xAC7B1FE6),
          Half(0x03815214, 0x280A4D3C), Half(0x97530ECA, 0x86420024), Half(0x68ACF135, 0x79BDFFDB),
          Half(0x72296FE3, 0x26FDC2FA), Half(0x36B608DB, 0xE0FF5937))
  }

  function LongGroup4(): Group<Half>
  {
    Group(Half(0xF3377BBF, 0xC004488C), Half(0xD115599D, 0xE2266AAE), Half(0xDFC64DFB, 0x85F46D6C),
          Half(0x11B7C1FE, 0xB26EE452), Half(0x19080091, 0xA2B3C4D5), Half(0xE6F7FF6E, 0x5D4C3B2A),
          Half(0x00000000, 0x00000000), Half(0x00000000, 0x00000000))
  }

  lemma LongKeys(s: SBox)
    requires Sbox1(s)
    ensures Schedule256(s, Left(), Right()) ==
            Keys(Half(0x01234567, 0x89ABCDEF), Half(0xFEDCBA98, 0x76543210), Half(0xFF301C0A, 0x90A14052), Half(0x69E00C24, 0x7ECD63D8),
                 [LongGroup1(), LongGroup2(), LongGroup3(), LongGroup4()])
  {
    LongKa(s);
    LongKb(s);
  }

  lemma Long1(s: SBox)
    requires Sbox1(s)
    ensures TwoRounds(Ops(), RoundOf(s), Block(Half(0x00000000, 0x00000000), Half(0x00000000, 0x00000000)),
                      Half(0x38152142, 0x80A4D3C0), Half(0x1848FD9A, 0xC7B1FE60)) ==
            Block(Half(0xAF683DEC, 0x327A41F2), Half(0x18C5ED4F, 0xD7E1A7F8))
  {
    Two(s, Block(Half(0x00000000, 0x00000000), Half(0x00000000, 0x00000000)), Half(0x38152142, 0x80A4D3C0), Half(0x1848FD9A, 0xC7B1FE60),
        Block(Half(0xAF683DEC, 0x327A41F2), Half(0x18C5ED4F, 0xD7E1A7F8)));
  }

  lemma Long2(s: SBox)
    requires Sbox1(s)
    ensures TwoRounds(Ops(), RoundOf(s), Block(Half(0xAF683DEC, 0x327A41F2), Half(0x18C5ED4F, 0xD7E1A7F8)),
                      Half(0x9119A22A, 0xB33BC44C), Half(0xD55DE66E, 0xF77F8008)) ==
            Block(Half(0x6CDC91F9, 0xE8CFE87C), Half(0x11290760, 0xE3D45679))
  {
    Two(s, Block(Half(0xAF683DEC, 0x327A41F2), Half(0x18C5ED4F, 0xD7E1A7F8)), Half(0x9119A22A, 0xB33BC44C), Half(0xD55DE66E, 0xF77F8008),
        Block(Half(0x6CDC91F9, 0xE8CFE87C), Half(0x11290760, 0xE3D45679)));
  }

  lemma Long3(s: SBox)
    requires Sbox1(s)
    ensures TwoRounds(Ops(), RoundOf(s), Block(Half(0x6CDC91F9, 0xE8CFE87C), Half(0x11290760, 0xE3D45679)),
                      Half(0xDAD8236F, 0x83FD64DD), Half(0xC8A5BF8C, 0x9BF70BE8)) ==
            Block(Half(0x0BA9F94C, 0xE51E4F86), Half(0xB0332610, 0x8CA113C4))
  {
    Two(s, Block(Half(0x6CDC91F9, 0xE8CFE87C), Half(0x11290760, 0xE3D45679)), Half(0xDAD8236F, 0x83FD64DD), Half(0xC8A5BF8C, 0x9BF70BE8),
        Block(Half(0x0BA9F94C, 0xE51E4F86), Half(0xB0332610, 0x8CA113C4)));
  }

  lemma LongSix1(s: SBox)
    requires Sbox1(s)
    ensures SixRounds(Ops(), RoundOf(s), Block(Half(0x00000000, 0x00000000), Half(0x00000000, 0x00000000)),
                      LongGroup1()) ==
            Block(Half(0x0BA9F94C, 0xE51E4F86), Half(0xB0332610, 0x8CA113C4))
  {
    Long1(s); Long2(s); Long3(s);
    Six(s, Block(Half(0x00000000, 0x00000000), Half(0x00000000, 0x00000000)), LongGroup1(),
        Block(Half(0xAF683DEC, 0x327A41F2), Half(0x18C5ED4F, 0xD7E1A7F8)),
        Block(Half(0x6CDC91F9, 0xE8CFE87C), Half(0x11290760, 0xE3D45679)),
        Block(Half(0x0BA9F94C, 0xE51E4F86), Half(0xB0332610, 0x8CA113C4)));
  }

  lemma Long4(s: SBox)
    requires Sbox1(s)
    ensures TwoRounds(Ops(), RoundOf(s), Block(Half(0xEC9706F2, 0xE71CFD9E), Half(0x7C967DDC, 0x6C8DE0FC)),
                      Half(0xA02934F0, 0x06123F66), Half(0xB1EC7F98, 0x0E054850)) ==
            Block(Half(0x4B90CE24, 0xA1EF8D21), Half(0x68819BE5, 0x9145836F))
  {
    Two(s, Block(Half(0xEC9706F2, 0xE71CFD9E), Half(0x7C967DDC, 0x6C8DE0FC)), Half(0xA02934F0, 0x06123F66), Half(0xB1EC7F98, 0x0E054850),
        Block(Half(0x4B90CE24, 0xA1EF8D21), Half(0x68819BE5, 0x9145836F)));
  }

  lemma Long5(s: SBox)
    requires Sbox1(s)
    ensures TwoRounds(Ops(), RoundOf(s), Block(Half(0x4B90CE24, 0xA1EF8D21), Half(0x68819BE5, 0x9145836F)),
                      Half(0x79BDFFDB, 0x97530ECA), Half(0x86420024, 0x68ACF135)) ==
            Block(Half(0x5561C041, 0xA81E7A03), Half(0x3B9A82D6, 0x2709B61E))
  {
    Two(s, Block(Half(0x4B90CE24, 0xA1EF8D21), Half(0x68819BE5, 0x9145836F)), Half(0x79BDFFDB, 0x97530ECA), Half(0x86420024, 0x68ACF135),
        Block(Half(0x5561C041, 0xA81E7A03), Half(0x3B9A82D6, 0x2709B61E)));
  }

  lemma Long6(s: SBox)
    requires Sbox1(s)
    ensures TwoRounds(Ops(), RoundOf(s), Block(Half(0x5561C041, 0xA81E7A03), Half(0x3B9A82D6, 0x2709B61E)),
                      Half(0xE0FF5937, 0x72296FE3), Half(0x26FDC2FA, 0x36B608DB)) ==
            Block(Half(0x98D5C815, 0xBB513ED3), Half(0x81D334C5, 0x9BCAB000))
  {
    Two(s, Block(Half(0x5561C041, 0xA81E7A03), Half(0x3B9A82D6, 0x2709B61E)), Half(0xE0FF5937, 0x72296FE3), Half(0x26FDC2FA, 0x36B608DB),
        Block(Half(0x98D5C815, 0xBB513ED3), Half(0x81D334C5, 0x9BCAB000)));
  }

  lemma LongSix2(s: SBox)
    requires Sbox1(s)
    ensures SixRounds(Ops(), RoundOf(s), Block(Half(0xEC9706F2, 0xE71CFD9E), Half(0x7C967DDC, 0x6C8DE0FC)),
                      LongGroup2()) ==
            Block(Half(0x98D5C815, 0xBB513ED3), Half(0x81D334C5, 0x9BCAB000))
  {
    Long4(s); Long5(s); Long6(s);
    Six(s, Block(Half(0xEC9706F2, 0xE71CFD9E), Half(0x7C967DDC, 0x6C8DE0FC)), LongGroup2(),
        Block(Half(0x4B90CE24, 0xA1EF8D21), Half(0x68819BE5, 0x9145836F)),
        Block(Half(0x5561C041, 0xA81E7A03), Half(0x3B9A82D6, 0x2709B61E)),
        Block(Half(0x98D5C815, 0xBB513ED3), Half(0x81D334C5, 0x9BCAB000)));
  }

  lemma Long7(s: SBox)
    requires Sbox1(s)
    ensures TwoRounds(Ops(), RoundOf(s), Block(Half(0x172A27E4, 0x8ADAAED0), Half(0x7A09881B, 0x9BCAB024)),
                      Half(0x78899AAB, 0xBCCDDEEF), Half(0xF0011223, 0x34455667)) ==
            Block(Half(0xADAC6AE5, 0xE9F8637C), Half(0x757796C5, 0x12145583))
  {
    Two(s, Block(Half(0x172A27E4, 0x8ADAAED0), Half(0x7A09881B, 0x9BCAB024)), Half(0x78899AAB, 0xBCCDDEEF), Half(0xF0011223, 0x34455667),
        Block(Half(0xADAC6AE5, 0xE9F8637C), Half(0x757796C5, 0x12145583)));
  }

  lemma Long8(s: SBox)
    requires Sbox1(s)
    ensures TwoRounds(Ops(), RoundOf(s), Block(Half(0xADAC6AE5, 0xE9F8637C), Half(0x757796C5, 0x12145583)),
                      Half(0x01848FD9, 0xAC7B1FE6), Half(0x03815214, 0x280A4D3C)) ==
            Block(Half(0xA72FFF76, 0xAB95536D), Half(0xF6D8C1D8, 0xBE75C708))
  {
    Two(s, Block(Half(0xADAC6AE5, 0xE9F8637C), Half(0x757796C5, 0x12145583)), Half(0x01848FD9, 0xAC7B1FE6), Half(0x03815214, 0x280A4D3C),
        Block(Half(0xA72FFF76, 0xAB95536D), Half(0xF6D8C1D8, 0xBE75C708)));
  }

  lemma Long9(s: SBox)
    requires Sbox1(s)
    ensures TwoRounds(Ops(), RoundOf(s), Block(Half(0xA72FFF76, 0xAB95536D), Half(0xF6D8C1D8, 0xBE75C708)),
                      Half(0x97530ECA, 0x86420024), Half(0x68ACF135, 0x79BDFFDB)) ==
            Block(Half(0xB07095B6, 0x5BFE1B4F), Half(0x93BF7742, 0x07A81FE0))
  {
    Two(s, Block(Half(0xA72FFF76, 0xAB95536D), Half(0xF6D8C1D8, 0xBE75C708)), Half(0x97530ECA, 0x86420024), Half(0x68ACF135, 0x79BDFFDB),
        Block(Half(0xB07095B6, 0x5BFE1B4F), Half(0x93BF7742, 0x07A81FE0)));
  }

  lemma LongSix3(s: SBox)
    requires Sbox1(s)
    ensures SixRounds(Ops(), RoundOf(s), Block(Half(0x172A27E4, 0x8ADAAED0), Half(0x7A09881B, 0x9BCAB024)),
                      LongGroup3()) ==
            Block(Half(0xB07095B6, 0x5BFE1B4F), Half(0x93BF7742, 0x07A81FE0))
  {
    Long7(s); Long8(s); Long9(s);
    Six(s, Block(Half(0x172A27E4, 0x8ADAAED0), Half(0x7A09881B, 0x9BCAB024)), LongGroup3(),
        Block(Half(0xADAC6AE5, 0xE9F8637C), Half(0x757796C5, 0x12145583)),
        Block(Half(0xA72FFF76, 0xAB95536D), Half(0xF6D8C1D8, 0xBE75C708)),
        Block(Half(0xB07095B6, 0x5BFE1B4F), Half(0x93BF7742, 0x07A81FE0)));
  }

  lemma Long10(s: SBox)
    requires Sbox1(s)
    ensures TwoRounds(Ops(), RoundOf(s), Block(Half(0x8F8F474D, 0x3BBE100B), Half(0x744028B5, 0x6FA80EC2)),
                      Half(0xF3377BBF, 0xC004488C), Half(0xD115599D, 0xE2266AAE)) ==
            Block(Half(0xD02E60AE, 0xEDC9CFEE), Half(0x20E12AFC, 0x7E2F8140))
  {
    Two(s, Block(Half(0x8F8F474D, 0x3BBE100B), Half(0x744028B5, 0x6FA80EC2)), Half(0xF3377BBF, 0xC004488C), Half(0xD115599D, 0xE2266AAE),
        Block(Half(0xD02E60AE, 0xEDC9CFEE), Half(0x20E12AFC, 0x7E2F8140)));
  }

  lemma Long11(s: SBox)
    requires Sbox1(s)
    ensures TwoRounds(Ops(), RoundOf(s), Block(Half(0xD02E60AE, 0xEDC9CFEE), Half(0x20E12AFC, 0x7E2F8140)),
                      Half(0xDFC64DFB, 0x85F46D6C), Half(0x11B7C1FE, 0xB26EE452)) ==
            Block(Half(0x71A1DEAD, 0x7FE9962A), Half(0x32320A07, 0x14A97A74))
  {
    Two(s, Block(Half(0xD02E60AE, 0xEDC9CFEE), Half(0x20E12AFC, 0x7E2F8140)), Half(0xDFC64DFB, 0x85F46D6C), Half(0x11B7C1FE, 0xB26EE452),
        Block(Half(0x71A1DEAD, 0x7FE9962A), Half(0x32320A07, 0x14A97A74)));
  }

  lemma Long12(s: SBox)
    requires Sbox1(s)
    ensures TwoRounds(Ops(), RoundOf(s), Block(Half(0x71A1DEAD, 0x7FE9962A), Half(0x32320A07, 0x14A97A74)),
                      Half(0x19080091, 0xA2B3C4D5), Half(0xE6F7FF6E, 0x5D4C3B2A)) ==
            Block(Half(0x490F70B5, 0xE0F716D1), Half(0x65FC3F77, 0x6FB7973E))
  {
    Two(s, Block(Half(0x71A1DEAD, 0x7FE9962A), Half(0x32320A07, 0x14A97A74)), Half(0x19080091, 0xA2B3C4D5), Half(0xE6F7FF6E, 0x5D4C3B2A),
        Block(Half(0x490F70B5, 0xE0F716D1), Half(0x65FC3F77, 0x6FB7973E)));
  }

  lemma LongSix4(s: SBox)
    requires Sbox1(s)
    ensures SixRounds(Ops(), RoundOf(s), Block(Half(0x8F8F474D, 0x3BBE100B), Half(0x744028B5, 0x6FA80EC2)),
                      LongGroup4()) ==
            Block(Half(0x490F70B5, 0xE0F716D1), Half(0x65FC3F77, 0x6FB7973E))
  {
    Long10(s); Long11(s); Long12(s);
    Six(s, Block(Half(0x8F8F474D, 0x3BBE100B), Half(0x744028B5, 0x6FA80EC2)), LongGroup4(),
        Block(Half(0xD02E60AE, 0xEDC9CFEE), Half(0x20E12AFC, 0x7E2F8140)),
        Block(Half(0x71A1DEAD, 0x7FE9962A), Half(0x32320A07, 0x14A97A74)),
        Block(Half(0x490F70B5, 0xE0F716D1), Half(0x65FC3F77, 0x6FB7973E)));
  }

  lemma LongGroups(s: SBox)
    requires Sbox1(s)
    ensures Groups(Ops(), RoundOf(s), Block(Half(0x00000000, 0x00000000), Half(0x00000000, 0x00000000)),
                   [LongGroup1(), LongGroup2(), LongGroup3(), LongGroup4()]) ==
            Block(Half(0x490F70B5, 0xE0F716D1), Half(0x65FC3F77, 0x6FB7973E))
  {
    var rest4 := [LongGroup4()];
    LongSix4(s);
    Last(s, Block(Half(0x8F8F474D, 0x3BBE100B), Half(0x744028B5, 0x6FA80EC2)), rest4,
         Block(Half(0x490F70B5, 0xE0F716D1), Half(0x65FC3F77, 0x6FB7973E)));
    var rest3 := [LongGroup3()] + rest4;
    LongSix3(s);
    Next(s, Block(Half(0x172A27E4, 0x8ADAAED0), Half(0x7A09881B, 0x9BCAB024)), LongGroup3(), rest4,
         Block(Half(0xB07095B6, 0x5BFE1B4F), Half(0x93BF7742, 0x07A81FE0)),
         Block(Half(0x8F8F474D, 0x3BBE100B), Half(0x744028B5, 0x6FA80EC2)),
         Block(Half(0x490F70B5, 0xE0F716D1), Half(0x65FC3F77, 0x6FB7973E)));
    var rest2 := [LongGroup2()] + rest3;
    LongSix2(s);
    Next(s, Block(Half(0xEC9706F2, 0xE71CFD9E), Half(0x7C967DDC, 0x6C8DE0FC)), LongGroup2(), rest3,
         Block(Half(0x98D5C815, 0xBB513ED3), Half(0x81D334C5, 0x9BCAB000)),
         Block(Half(0x172A27E4, 0x8ADAAED0), Half(0x7A09881B, 0x9BCAB024)),
         Block(Half(0x490F70B5, 0xE0F716D1), Half(0x65FC3F77, 0x6FB7973E)));
    var rest1 := [LongGroup1()] + rest2;
    LongSix1(s);
    Next(s, Block(Half(0x00000000, 0x00000000), Half(0x00000000, 0x00000000)), LongGroup1(), rest2,
         Block(Half(0x0BA9F94C, 0xE51E4F86), Half(0xB0332610, 0x8CA113C4)),
         Block(Half(0xEC9706F2, 0xE71CFD9E), Half(0x7C967DDC, 0x6C8DE0FC)),
         Block(Half(0x490F70B5, 0xE0F716D1), Half(0x65FC3F77, 0x6FB7973E)));
    assert [LongGroup1(), LongGroup2(), LongGroup3(), LongGroup4()] == rest1;
  }

  lemma Answer256(s: SBox)
    requires Sbox1(s)
    ensures Encrypt(Ops(), RoundOf(s), Schedule256(s, Left(), Right()), Plain()) ==
            Block(Half(0x9ACC237D, 0xFF16D76C), Half(0x20EF7C91, 0x9E3A7509))
  {
    LongKeys(s);
    LongGroups(s);
    Whole(s, Schedule256(s, Left(), Right()), Plain(), Block(Half(0x00000000, 0x00000000), Half(0x00000000, 0x00000000)),
          Block(Half(0x490F70B5, 0xE0F716D1), Half(0x65FC3F77, 0x6FB7973E)));
  }
}
