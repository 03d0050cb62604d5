// The table gcmR of cipher-gcm.c: what eight bits pushed out of a block reduce to.
module GcmTable {
  import opened Words

  const R0: seq<bv32> := [0x0000, 0x01c2, 0x0384, 0x0246, 0x0708, 0x06ca, 0x048c, 0x054e,
                          0x0e10, 0x0fd2, 0x0d94, 0x0c56, 0x0918, 0x08da, 0x0a9c, 0x0b5e]
  const R1: seq<bv32> := [0x1c20, 0x1de2, 0x1fa4, 0x1e66, 0x1b28, 0x1aea, 0x18ac, 0x196e,
                          0x1230, 0x13f2, 0x11b4, 0x1076, 0x1538, 0x14fa, 0x16bc, 0x177e]
  const R2: seq<bv32> := [0x3840, 0x3982, 0x3bc4, 0x3a06, 0x3f48, 0x3e8a, 0x3ccc, 0x3d0e,
                          0x3650, 0x3792, 0x35d4, 0x3416, 0x3158, 0x309a, 0x32dc, 0x331e]
  const R3: seq<bv32> := [0x2460, 0x25a2, 0x27e4, 0x2626, 0x2368, 0x22aa, 0x20ec, 0x212e,
                          0x2a70, 0x2bb2, 0x29f4, 0x2836, 0x2d78, 0x2cba, 0x2efc, 0x2f3e]
  const R4: seq<bv32> := [0x7080, 0x7142, 0x7304, 0x72c6, 0x7788, 0x764a, 0x740c, 0x75ce,
                          0x7e90, 0x7f52, 0x7d14, 0x7cd6, 0x7998, 0x785a, 0x7a1c, 0x7bde]
  const R5: seq<bv32> := [0x6ca0, 0x6d62, 0x6f24, 0x6ee6, 0x6ba8, 0x6a6a, 0x682c, 0x69ee,
                          0x62b0, 0x6372, 0x6134, 0x60f6, 0x65b8, 0x647a, 0x663c, 0x67fe]
  const R6: seq<bv32> := [0x48c0, 0x4902, 0x4b44, 0x4a86, 0x4fc8, 0x4e0a, 0x4c4c, 0x4d8e,
                          0x46d0, 0x4712, 0x4554, 0x4496, 0x41d8, 0x401a, 0x425c, 0x439e]
  const R7: seq<bv32> := [0x54e0, 0x5522, 0x5764, 0x56a6, 0x53e8, 0x522a, 0x506c, 0x51ae,
                          0x5af0, 0x5b32, 0x5974, 0x58b6, 0x5df8, 0x5c3a, 0x5e7c, 0x5fbe]
  const R8: seq<bv32> := [0xe100, 0xe0c2, 0xe284, 0xe346, 0xe608, 0xe7ca, 0xe58c, 0xe44e,
                          0xef10, 0xeed2, 0xec94, 0xed56, 0xe818, 0xe9da, 0xeb9c, 0xea5e]
  const R9: seq<bv32> := [0xfd20, 0xfce2, 0xfea4, 0xff66, 0xfa28, 0xfbea, 0xf9ac, 0xf86e,
                          0xf330, 0xf2f2, 0xf0b4, 0xf176, 0xf438, 0xf5fa, 0xf7bc, 0xf67e]
  const RA: seq<bv32> := [0xd940, 0xd882, 0xdac4, 0xdb06, 0xde48, 0xdf8a, 0xddcc, 0xdc0e,
                          0xd750, 0xd692, 0xd4d4, 0xd516, 0xd058, 0xd19a, 0xd3dc, 0xd21e]
  const RB: seq<bv32> := [0xc560, 0xc4a2, 0xc6e4, 0xc726, 0xc268, 0xc3aa, 0xc1ec, 0xc02e,
                          0xcb70, 0xcab2, 0xc8f4, 0xc936, 0xcc78, 0xcdba, 0xcffc, 0xce3e]
  const RC: seq<bv32> := [0x9180, 0x9042, 0x9204, 0x93c6, 0x9688, 0x974a, 0x950c, 0x94ce,
                          0x9f90, 0x9e52, 0x9c14, 0x9dd6, 0x9898, 0x995a, 0x9b1c, 0x9ade]
  const RD: seq<bv32> := [0x8da0, 0x8c62, 0x8e24, 0x8fe6, 0x8aa8, 0x8b6a, 0x892c, 0x88ee,
                          0x83b0, 0x8272, 0x8034, 0x81f6, 0x84b8, 0x857a, 0x873c, 0x86fe]
  const RE: seq<bv32> := [0xa9c0, 0xa802, 0xaa44, 0xab86, 0xaec8, 0xaf0a, 0xad4c, 0xac8e,
                          0xa7d0, 0xa612, 0xa454, 0xa596, 0xa0d8, 0xa11a, 0xa35c, 0xa29e]
  const RF: seq<bv32> := [0xb5e0, 0xb422, 0xb664, 0xb7a6, 0xb2e8, 0xb32a, 0xb16c, 0xb0ae,
                          0xbbf0, 0xba32, 0xb874, 0xb9b6, 0xbcf8, 0xbd3a, 0xbf7c, 0xbebe]

  function Row(h: nat): (r: seq<bv32>)
    requires h < 16
    ensures |r| == 16
  {
    match h
    case 0 => R0
    case 1 => R1
    case 2 => R2
    case 3 => R3
    case 4 => R4
    case 5 => R5
    case 6 => R6
    case 7 => R7
    case 8 => R8
    case 9 => R9
    case 10 => RA
    case 11 => RB
    case 12 => RC
    case 13 => RD
    case 14 => RE
    case _ => RF
  }

  // gcmR[16 h + l]
  function GcmR(h: nat, l: nat): bv32
    requires h < 16 && l < 16
  {
    Row(h)[l]
  }

  function Bit(n: nat, k: nat, v: bv32): bv32
    requires k > 0
  {
    if n / k % 2 == 1 then v else 0
  }

  // The entries of row 0 and column 0, each bit of the index adding its own entry.
  function Low(l: nat): bv32
  {
    Xor(Xor(Bit(l, 8, 0x0e10), Bit(l, 4, 0x0708)), Xor(Bit(l, 2, 0x0384), Bit(l, 1, 0x01c2)))
  }

  function High(h: nat): bv32
  {
    Xor(Xor(Bit(h, 8, 0xe100), Bit(h, 4, 0x7080)), Xor(Bit(h, 2, 0x3840), Bit(h, 1, 0x1c20)))
  }

  lemma Row0(l: nat)
    requires l < 16
    ensures R0[l] == Low(l)
  {
  }

  lemma Row1(l: nat)
    requires l < 16
    ensures R1[l] == Xor(0x1c20, R0[l])
  {
  }

  lemma Row2(l: nat)
    requires l < 16
    ensures R2[l] == Xor(0x3840, R0[l])
  {
  }

  lemma Row3(l: nat)
    requires l < 16
    ensures R3[l] == Xor(0x2460, R0[l])
  {
  }

  lemma Row4(l: nat)
    requires l < 16
    ensures R4[l] == Xor(0x7080, R0[l])
  {
  }

  lemma Row5(l: nat)
    requires l < 16
    ensures R5[l] == Xor(0x6ca0, R0[l])
  {
  }

  lemma Row6(l: nat)
    requires l < 16
    ensures R6[l] == Xor(0x48c0, R0[l])
  {
  }

  lemma Row7(l: nat)
    requires l < 16
    ensures R7[l] == Xor(0x54e0, R0[l])
  {
  }

  lemma Row8(l: nat)
    requires l < 16
    ensures R8[l] == Xor(0xe100, R0[l])
  {
  }

  lemma Row9(l: nat)
    requires l < 16
    ensures R9[l] == Xor(0xfd20, R0[l])
  {
  }

  lemma RowA(l: nat)
    requires l < 16
    ensures RA[l] == Xor(0xd940, R0[l])
  {
  }

  lemma RowB(l: nat)
    requires l < 16
    ensures RB[l] == Xor(0xc560, R0[l])
  {
  }

  lemma RowC(l: nat)
    requires l < 16
    ensures RC[l] == Xor(0x9180, R0[l])
  {
  }

  lemma RowD(l: nat)
    requires l < 16
    ensures RD[l] == Xor(0x8da0, R0[l])
  {
  }

  lemma RowE(l: nat)
    requires l < 16
    ensures RE[l] == Xor(0xa9c0, R0[l])
  {
  }

  lemma RowF(l: nat)
    requires l < 16
    ensures RF[l] == Xor(0xb5e0, R0[l])
  {
  }

  const HEADS: seq<bv32> := [0x0000, 0x1c20, 0x3840, 0x2460, 0x7080, 0x6ca0, 0x48c0, 0x54e0,
                             0xe100, 0xfd20, 0xd940, 0xc560, 0x9180, 0x8da0, 0xa9c0, 0xb5e0]

  lemma HeadsLinear(h: nat)
    requires h < 16
    ensures HEADS[h] == High(h)
  {
  }

  lemma Heads(h: nat)
    requires h < 16
    ensures Row(h)[0] == HEADS[h]
  {
    match h
    case 0 => assert R0[0] == 0x0000;
    case 1 => assert R1[0] == 0x1c20;
    case 2 => assert R2[0] == 0x3840;
    case 3 => assert R3[0] == 0x2460;
    case 4 => assert R4[0] == 0x7080;
    case 5 => assert R5[0] == 0x6ca0;
    case 6 => assert R6[0] == 0x48c0;
    case 7 => assert R7[0] == 0x54e0;
    case 8 => assert R8[0] == 0xe100;
    case 9 => assert R9[0] == 0xfd20;
    case 10 => assert RA[0] == 0xd940;
    case 11 => assert RB[0] == 0xc560;
    case 12 => assert RC[0] == 0x9180;
    case 13 => assert RD[0] == 0x8da0;
    case 14 => assert RE[0] == 0xa9c0;
    case _ => assert RF[0] == 0xb5e0;
  }

  // All 256 entries: the table is linear in the bits of its index.
  lemma TableLinear(h: nat, l: nat)
    requires h < 16 && l < 16
    ensures GcmR(h, l) == Xor(High(h), Low(l))
  {
    Heads(h);
    HeadsLinear(h);
    Row0(l);
    XorZero(R0[l]);
    XorComm(R0[l], 0);
    match h
    case 0 =>
    case 1 => Row1(l);
    case 2 => Row2(l);
    case 3 => Row3(l);
    case 4 => Row4(l);
    case 5 => Row5(l);
    case 6 => Row6(l);
    case 7 => Row7(l);
    case 8 => Row8(l);
    case 9 => Row9(l);
    case 10 => RowA(l);
    case 11 => RowB(l);
    case 12 => RowC(l);
    case 13 => RowD(l);
    case 14 => RowE(l);
    case _ => RowF(l);
  }
}
