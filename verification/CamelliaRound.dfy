// Half blocks of two 32-bit words: FL, FLINV and the round function of Camellia, as
// RFC 3713 defines it and as camellia.c looks it up.
module CamelliaRound {
  import opened Words
  import opened Camellia

  datatype Half = Half(l: bv32, r: bv32)

  const ZERO := Half(0, 0)

  function X(a: Half, b: Half): Half
  {
    Half(Xor(a.l, b.l), Xor(a.r, b.r))
  }

  // --------------------------------------------- FL and FLINV (section 2.4)

  function FL(x: Half, k: Half): Half
  {
    var x2 := Xor(x.r, Rol1(And(x.l, k.l)));
    Half(Xor(x.l, Or(x2, k.r)), x2)
  }

  function FLInv(y: Half, k: Half): Half
  {
    var y1 := Xor(y.l, Or(y.r, k.r));
    Half(y1, Xor(y.r, Rol1(And(y1, k.l))))
  }

  // What the code does to the mask of a whitening key at an FL layer.
  function Lin(m: Half, k: Half): Half
  {
    var l := Xor(m.l, AndNot(m.r, k.r));
    Half(l, Xor(m.r, Rol1(And(l, k.l))))
  }

  // r ^ ((l & k) <<< 1), with masks on r and l
  lemma RotatedAndAffine(r: bv32, mr: bv32, l: bv32, ml: bv32, k: bv32)
    ensures Xor(Xor(r, mr), Rol1(And(Xor(l, ml), k))) == Xor(Xor(r, Rol1(And(l, k))), Xor(mr, Rol1(And(ml, k))))
  {
    AndMask(l, ml, k);
    RotMask(And(l, k), And(ml, k));
    XorSwap(r, mr, Rol1(And(l, k)), Rol1(And(ml, k)));
  }

  // l ^ (r | k), with masks on l and r
  lemma OredAffine(l: bv32, ml: bv32, r: bv32, mr: bv32, k: bv32)
    ensures Xor(Xor(l, ml), Or(Xor(r, mr), k)) == Xor(Xor(l, Or(r, k)), Xor(ml, AndNot(mr, k)))
  {
    OrMask(r, mr, k);
    XorSwap(l, ml, Or(r, k), AndNot(mr, k));
  }

  lemma FLInvAffine(y: Half, m: Half, k: Half)
    ensures FLInv(X(y, m), k) == X(FLInv(y, k), Lin(m, k))
  {
    OredAffine(y.l, m.l, y.r, m.r, k.r);
    RotatedAndAffine(y.r, m.r, Xor(y.l, Or(y.r, k.r)), Xor(m.l, AndNot(m.r, k.r)), k.l);
  }

  // FL takes the mask Lin(m) to the mask m.
  lemma FLAffine(x: Half, m: Half, k: Half)
    ensures FL(X(x, Lin(m, k)), k) == X(FL(x, k), m)
  {
    var n := Lin(m, k);
    RotatedAndAffine(x.r, n.r, x.l, n.l, k.l);
    XorTwice(m.r, Rol1(And(n.l, k.l)));
    OredAffine(x.l, n.l, Xor(x.r, Rol1(And(x.l, k.l))), m.r, k.r);
    XorTwice(m.l, AndNot(m.r, k.r));
  }

  lemma FLInverse(x: Half, k: Half)
    ensures FLInv(FL(x, k), k) == x
    ensures FL(FLInv(x, k), k) == x
  {
    var y, z := FL(x, k), FLInv(x, k);
    XorTwice(x.l, Or(y.r, k.r));
    XorTwice(x.r, Rol1(And(x.l, k.l)));
    XorTwice(x.r, Rol1(And(z.l, k.l)));
    XorTwice(x.l, Or(x.r, k.r));
  }

  lemma XAssoc(a: Half, b: Half, c: Half)
    ensures X(X(a, b), c) == X(a, X(b, c))
  {
    XorAssoc(a.l, b.l, c.l);
    XorAssoc(a.r, b.r, c.r);
  }

  lemma XComm(a: Half, b: Half)
    ensures X(a, b) == X(b, a)
  {
    XorComm(a.l, b.l);
    XorComm(a.r, b.r);
  }

  lemma XTwice(a: Half, b: Half)
    ensures X(X(a, b), b) == a
  {
    XorTwice(a.l, b.l);
    XorTwice(a.r, b.r);
  }

  lemma XZero(a: Half)
    ensures X(a, ZERO) == a
  {
    XorZero(a.l);
    XorZero(a.r);
  }

  function Ops(): Alg<Half>
  {
    Alg(ZERO, (a, b) => X(a, b), (x, k) => FL(x, k), (y, k) => FLInv(y, k), (m, k) => Lin(m, k))
  }

  // Half blocks of words obey the laws the network proofs rest on.
  lemma OpsLawful()
    ensures Laws(Ops())
  {
    var al := Ops();
    forall a, b {:trigger Two(a, b)} | Two(a, b)
      ensures al.xor(a, b) == al.xor(b, a) && al.xor(al.xor(a, b), b) == a && al.xor(a, al.zero) == a
      ensures al.flInv(al.fl(a, b), b) == a && al.fl(al.flInv(a, b), b) == a
    {
      XComm(a, b);
      XTwice(a, b);
      XZero(a);
      FLInverse(a, b);
    }
    forall a, b, c {:trigger Three(a, b, c)} | Three(a, b, c)
      ensures al.xor(al.xor(a, b), c) == al.xor(a, al.xor(b, c))
      ensures al.flInv(al.xor(a, b), c) == al.xor(al.flInv(a, c), al.lin(b, c))
      ensures al.fl(al.xor(a, al.lin(b, c)), c) == al.xor(al.fl(a, c), b)
    {
      XAssoc(a, b, c);
      FLInvAffine(a, b, c);
      FLAffine(a, b, c);
    }
  }

  // -------------------------------------- the round function (section 2.4.1)

  // SBOX1 is any function of octets; the other three boxes come from it.
  type SBox = bv8 -> bv8

  function S2(s: SBox, x: bv8): bv8 { s(x).RotateLeft(1) }
  function S3(s: SBox, x: bv8): bv8 { s(x).RotateLeft(7) }
  function S4(s: SBox, x: bv8): bv8 { s(x.RotateLeft(1)) }

  // The P-function on the eight octets out of the boxes.
  function P(t1: bv8, t2: bv8, t3: bv8, t4: bv8, t5: bv8, t6: bv8, t7: bv8, t8: bv8): Half
  {
    Half(Octets(Sum6(t1, t3, t4, t6, t7, t8), Sum6(t1, t2, t4, t5, t7, t8), Sum6(t1, t2, t3, t5, t6, t8), Sum6(t2, t3, t4, t5, t6, t7)),
         Octets(Sum5(t1, t2, t6, t7, t8), Sum5(t2, t3, t5, t7, t8), Sum5(t3, t4, t5, t6, t8), Sum5(t1, t4, t5, t6, t7)))
  }

  // F without its key addition.
  function Round(s: SBox, x: Half): Half
  {
    P(s(Oct1(x.l)), S2(s, Oct2(x.l)), S3(s, Oct3(x.l)), S4(s, Oct4(x.l)),
      S2(s, Oct1(x.r)), S3(s, Oct2(x.r)), S4(s, Oct3(x.r)), s(Oct4(x.r)))
  }

  // The four tables: a box spread over three octets of a word.
  function Sp1110(t: bv8): bv32 { Octets(t, t, t, 0) }
  function Sp0222(t: bv8): bv32 { Octets(0, t, t, t) }
  function Sp3033(t: bv8): bv32 { Octets(t, 0, t, t) }
  function Sp4404(t: bv8): bv32 { Octets(t, t, 0, t) }

  function Spread(t1: bv8, t2: bv8, t3: bv8, t4: bv8): bv32
  {
    Xor(Xor(Xor(Sp1110(t1), Sp0222(t2)), Sp3033(t3)), Sp4404(t4))
  }

  // The table look-ups of CAMELLIA_ROUNDSM and CAMELLIA_F.
  function RoundLookup(s: SBox, x: Half): Half
  {
    var ir := Spread(s(Oct4(x.r)), S2(s, Oct1(x.r)), S3(s, Oct2(x.r)), S4(s, Oct3(x.r)));
    var il := Spread(s(Oct1(x.l)), S2(s, Oct2(x.l)), S3(s, Oct3(x.l)), S4(s, Oct4(x.l)));
    var yl := Xor(ir, il);
    Half(yl, Xor(Ror8(il), yl))
  }

  lemma SpreadOctets(t1: bv8, t2: bv8, t3: bv8, t4: bv8)
    ensures Spread(t1, t2, t3, t4) == Octets(Sum3(t1, t3, t4), Sum3(t1, t2, t4), Sum3(t1, t2, t3), Sum3(t2, t3, t4))
  {
    XorOctets(t1, t1, t1, 0, 0, t2, t2, t2);
    XorBZero(t1);
    XorBZero(t2);
    var c := XorB(t1, t2);
    XorOctets(t1, c, c, t2, t3, 0, t3, t3);
    XorBZero(c);
    XorSum3(t1, t2, t3);
    var e := Sum3(t1, t2, t3);
    XorOctets(XorB(t1, t3), c, e, XorB(t2, t3), t4, t4, 0, t4);
    XorBZero(e);
    XorSum3(t1, t3, t4);
    XorSum3(t1, t2, t4);
    XorSum3(t2, t3, t4);
  }

  // The left word of P, octet by octet.
  lemma LeftSums(t1: bv8, t2: bv8, t3: bv8, t4: bv8, t5: bv8, t6: bv8, t7: bv8, t8: bv8)
    ensures XorB(Sum3(t8, t6, t7), Sum3(t1, t3, t4)) == Sum6(t1, t3, t4, t6, t7, t8)
    ensures XorB(Sum3(t8, t5, t7), Sum3(t1, t2, t4)) == Sum6(t1, t2, t4, t5, t7, t8)
    ensures XorB(Sum3(t8, t5, t6), Sum3(t1, t2, t3)) == Sum6(t1, t2, t3, t5, t6, t8)
    ensures XorB(Sum3(t5, t6, t7), Sum3(t2, t3, t4)) == Sum6(t2, t3, t4, t5, t6, t7)
  {
    XorSum6(t1, t3, t4, t6, t7, t8);
    XorSum6(t1, t2, t4, t5, t7, t8);
    XorSum6(t1, t2, t3, t5, t6, t8);
    LastSum(t2, t3, t4, t5, t6, t7);
  }

  lemma LastSum(a: bv8, b: bv8, c: bv8, d: bv8, e: bv8, f: bv8)
    ensures XorB(Sum3(d, e, f), Sum3(a, b, c)) == Sum6(a, b, c, d, e, f)
  {
  }

  // The right word of P, octet by octet.
  lemma RightSums(t1: bv8, t2: bv8, t3: bv8, t4: bv8, t5: bv8, t6: bv8, t7: bv8, t8: bv8)
    ensures XorB(Sum3(t2, t3, t4), Sum6(t1, t3, t4, t6, t7, t8)) == Sum5(t1, t2, t6, t7, t8)
    ensures XorB(Sum3(t1, t3, t4), Sum6(t1, t2, t4, t5, t7, t8)) == Sum5(t2, t3, t5, t7, t8)
    ensures XorB(Sum3(t1, t2, t4), Sum6(t1, t2, t3, t5, t6, t8)) == Sum5(t3, t4, t5, t6, t8)
    ensures XorB(Sum3(t1, t2, t3), Sum6(t2, t3, t4, t5, t6, t7)) == Sum5(t1, t4, t5, t6, t7)
  {
    Right1(t1, t2, t3, t4, t6, t7, t8);
    Right2(t1, t2, t3, t4, t5, t7, t8);
    Right3(t1, t2, t3, t4, t5, t6, t8);
    Right4(t1, t2, t3, t4, t5, t6, t7);
  }

  lemma Right1(t1: bv8, t2: bv8, t3: bv8, t4: bv8, t6: bv8, t7: bv8, t8: bv8)
    ensures XorB(Sum3(t2, t3, t4), Sum6(t1, t3, t4, t6, t7, t8)) == Sum5(t1, t2, t6, t7, t8)
  {
  }

  lemma Right2(t1: bv8, t2: bv8, t3: bv8, t4: bv8, t5: bv8, t7: bv8, t8: bv8)
    ensures XorB(Sum3(t1, t3, t4), Sum6(t1, t2, t4, t5, t7, t8)) == Sum5(t2, t3, t5, t7, t8)
  {
  }

  lemma Right3(t1: bv8, t2: bv8, t3: bv8, t4: bv8, t5: bv8, t6: bv8, t8: bv8)
    ensures XorB(Sum3(t1, t2, t4), Sum6(t1, t2, t3, t5, t6, t8)) == Sum5(t3, t4, t5, t6, t8)
  {
  }

  lemma Right4(t1: bv8, t2: bv8, t3: bv8, t4: bv8, t5: bv8, t6: bv8, t7: bv8)
    ensures XorB(Sum3(t1, t2, t3), Sum6(t2, t3, t4, t5, t6, t7)) == Sum5(t1, t4, t5, t6, t7)
  {
  }

  lemma LookupOfOctets(t1: bv8, t2: bv8, t3: bv8, t4: bv8, t5: bv8, t6: bv8, t7: bv8, t8: bv8)
    ensures var il, ir := Spread(t1, t2, t3, t4), Spread(t8, t5, t6, t7);
            Half(Xor(ir, il), Xor(Ror8(il), Xor(ir, il))) == P(t1, t2, t3, t4, t5, t6, t7, t8)
  {
    SpreadOctets(t1, t2, t3, t4);
    SpreadOctets(t8, t5, t6, t7);
    var a1, a2, a3, a4 := Sum3(t1, t3, t4), Sum3(t1, t2, t4), Sum3(t1, t2, t3), Sum3(t2, t3, t4);
    XorOctets(Sum3(t8, t6, t7), Sum3(t8, t5, t7), Sum3(t8, t5, t6), Sum3(t5, t6, t7), a1, a2, a3, a4);
    LeftSums(t1, t2, t3, t4, t5, t6, t7, t8);
    RorOctets(a1, a2, a3, a4);
    XorOctets(a4, a1, a2, a3, Sum6(t1, t3, t4, t6, t7, t8), Sum6(t1, t2, t4, t5, t7, t8),
              Sum6(t1, t2, t3, t5, t6, t8), Sum6(t2, t3, t4, t5, t6, t7));
    RightSums(t1, t2, t3, t4, t5, t6, t7, t8);
  }

  // The tables compute the round function.
  lemma LookupIsRound(s: SBox, x: Half)
    ensures RoundLookup(s, x) == Round(s, x)
  {
    LookupOfOctets(s(Oct1(x.l)), S2(s, Oct2(x.l)), S3(s, Oct3(x.l)), S4(s, Oct4(x.l)),
                   S2(s, Oct1(x.r)), S3(s, Oct2(x.r)), S4(s, Oct3(x.r)), s(Oct4(x.r)));
  }
}
