// The key schedule of Camellia: RFC 3713 rotates 128-bit values, camellia.c four words
// at a time and each time from where the last rotation left them.
module CamelliaKeys {
  import opened Words
  import opened Camellia
  import opened CamelliaRound

  // kll, klr, krl, krr
  datatype Quad = Quad(ll: bv32, lr: bv32, rl: bv32, rr: bv32)

  function Word1(v: bv128): bv32 { ((v >> 96) & 0xffffffff) as bv32 }
  function Word2(v: bv128): bv32 { ((v >> 64) & 0xffffffff) as bv32 }
  function Word3(v: bv128): bv32 { ((v >> 32) & 0xffffffff) as bv32 }
  function Word4(v: bv128): bv32 { (v & 0xffffffff) as bv32 }

  function Split(v: bv128): Quad
  {
    Quad(Word1(v), Word2(v), Word3(v), Word4(v))
  }

  function Join(q: Quad): bv128
  {
    ((q.ll as bv128) << 96) | ((q.lr as bv128) << 64) | ((q.rl as bv128) << 32) | (q.rr as bv128)
  }

  lemma SplitJoin(q: Quad)
    ensures Split(Join(q)) == q
  {
  }

  function HiQ(q: Quad): Half { Half(q.ll, q.lr) }
  function LoQ(q: Quad): Half { Half(q.rl, q.rr) }
  function Cat(a: Half, b: Half): Quad { Quad(a.l, a.r, b.l, b.r) }

  // ------------------------------------------- the schedule (section 2.2)

  const SIGMA1 := Half(0xA09E667F, 0x3BCC908B)
  const SIGMA2 := Half(0xB67AE858, 0x4CAA73B2)
  const SIGMA3 := Half(0xC6EF372F, 0xE94F82BE)
  const SIGMA4 := Half(0x54FF53A5, 0xF1D36F1C)
  const SIGMA5 := Half(0x10E527FA, 0xDE682D1D)
  const SIGMA6 := Half(0xB05688C2, 0xB3E6C1FD)

  function F(s: SBox, x: Half, k: Half): Half
  {
    Round(s, X(x, k))
  }

  function Ka(s: SBox, kl: Quad, kr: Quad): Quad
  {
    var d1, d2 := X(HiQ(kl), HiQ(kr)), X(LoQ(kl), LoQ(kr));
    var d2 := X(d2, F(s, d1, SIGMA1));
    var d1 := X(d1, F(s, d2, SIGMA2));
    var d1, d2 := X(d1, HiQ(kl)), X(d2, LoQ(kl));
    var d2 := X(d2, F(s, d1, SIGMA3));
    var d1 := X(d1, F(s, d2, SIGMA4));
    Cat(d1, d2)
  }

  function Kb(s: SBox, ka: Quad, kr: Quad): Quad
  {
    var d1, d2 := X(HiQ(ka), HiQ(kr)), X(LoQ(ka), LoQ(kr));
    var d2 := X(d2, F(s, d1, SIGMA5));
    var d1 := X(d1, F(s, d2, SIGMA6));
    Cat(d1, d2)
  }

  function R15(v: bv128): bv128 { v.RotateLeft(15) }
  function R17(v: bv128): bv128 { v.RotateLeft(17) }
  function R30(v: bv128): bv128 { v.RotateLeft(30) }
  function R34(v: bv128): bv128 { v.RotateLeft(34) }
  function R45(v: bv128): bv128 { v.RotateLeft(45) }
  function R49(v: bv128): bv128 { v.RotateLeft(49) }
  function R51(v: bv128): bv128 { v.RotateLeft(51) }
  function R60(v: bv128): bv128 { v.RotateLeft(60) }
  function R77(v: bv128): bv128 { v.RotateLeft(77) }
  function R94(v: bv128): bv128 { v.RotateLeft(94) }
  function R111(v: bv128): bv128 { v.RotateLeft(111) }

  function Hi(v: bv128): Half { HiQ(Split(v)) }
  function Lo(v: bv128): Half { LoQ(Split(v)) }

  // 18 rounds; nothing is behind the third group.
  function Schedule128(s: SBox, key: Quad): (k: Keys<Half>)
    ensures |k.groups| == 3
  {
    var kl, ka := Join(key), Join(Ka(s, key, Quad(0, 0, 0, 0)));
    Keys(Hi(kl), Lo(kl), Hi(R111(ka)), Lo(R111(ka)),
         [Group(Hi(ka), Lo(ka), Hi(R15(kl)), Lo(R15(kl)), Hi(R15(ka)), Lo(R15(ka)), Hi(R30(ka)), Lo(R30(ka))),
          Group(Hi(R45(kl)), Lo(R45(kl)), Hi(R45(ka)), Lo(R60(kl)), Hi(R60(ka)), Lo(R60(ka)), Hi(R77(kl)), Lo(R77(kl))),
          Group(Hi(R94(kl)), Lo(R94(kl)), Hi(R94(ka)), Lo(R94(ka)), Hi(R111(kl)), Lo(R111(kl)), ZERO, ZERO)])
  }

  // 24 rounds
  function Schedule256(s: SBox, left: Quad, right: Quad): (k: Keys<Half>)
    ensures |k.groups| == 4
  {
    var kl, kr := Join(left), Join(right);
    var ka, kb := Join(Ka(s, left, right)), Join(Kb(s, Ka(s, left, right), right));
    Keys(Hi(kl), Lo(kl), Hi(R111(kb)), Lo(R111(kb)),
         [Group(Hi(kb), Lo(kb), Hi(R15(kr)), Lo(R15(kr)), Hi(R15(ka)), Lo(R15(ka)), Hi(R30(kr)), Lo(R30(kr))),
          Group(Hi(R30(kb)), Lo(R30(kb)), Hi(R45(kl)), Lo(R45(kl)), Hi(R45(ka)), Lo(R45(ka)), Hi(R60(kl)), Lo(R60(kl))),
          Group(Hi(R60(kr)), Lo(R60(kr)), Hi(R60(kb)), Lo(R60(kb)), Hi(R77(kl)), Lo(R77(kl)), Hi(R77(ka)), Lo(R77(ka))),
          Group(Hi(R94(kr)), Lo(R94(kr)), Hi(R94(ka)), Lo(R94(ka)), Hi(R111(kl)), Lo(R111(kl)), ZERO, ZERO)])
  }

  // ------------------------------------------ rotating four words in place

  // CAMELLIA_ROLDQ
  function Roldq15(q: Quad): Quad
  {
    Quad((q.ll << 15) + (q.lr >> 17), (q.lr << 15) + (q.rl >> 17), (q.rl << 15) + (q.rr >> 17), (q.rr << 15) + (q.ll >> 17))
  }

  function Roldq17(q: Quad): Quad
  {
    Quad((q.ll << 17) + (q.lr >> 15), (q.lr << 17) + (q.rl >> 15), (q.rl << 17) + (q.rr >> 15), (q.rr << 17) + (q.ll >> 15))
  }

  function Roldq30(q: Quad): Quad
  {
    Quad((q.ll << 30) + (q.lr >> 2), (q.lr << 30) + (q.rl >> 2), (q.rl << 30) + (q.rr >> 2), (q.rr << 30) + (q.ll >> 2))
  }

  // CAMELLIA_ROLDQo32, for more than 32 bits
  function Roldq34(q: Quad): Quad
  {
    Quad((q.lr << 2) + (q.rl >> 30), (q.rl << 2) + (q.rr >> 30), (q.rr << 2) + (q.ll >> 30), (q.ll << 2) + (q.lr >> 30))
  }

  function Roldq45(q: Quad): Quad
  {
    Quad((q.lr << 13) + (q.rl >> 19), (q.rl << 13) + (q.rr >> 19), (q.rr << 13) + (q.ll >> 19), (q.ll << 13) + (q.lr >> 19))
  }

  function Roldq49(q: Quad): Quad
  {
    Quad((q.lr << 17) + (q.rl >> 15), (q.rl << 17) + (q.rr >> 15), (q.rr << 17) + (q.ll >> 15), (q.ll << 17) + (q.lr >> 15))
  }

  function Roldq51(q: Quad): Quad
  {
    Quad((q.lr << 19) + (q.rl >> 13), (q.rl << 19) + (q.rr >> 13), (q.rr << 19) + (q.ll >> 13), (q.ll << 19) + (q.lr >> 13))
  }

  lemma Rolled15(v: bv128)
    ensures Roldq15(Split(v)) == Split(R15(v))
  {
  }

  lemma Rolled17(v: bv128)
    ensures Roldq17(Split(v)) == Split(R17(v))
  {
  }

  lemma Rolled30(v: bv128)
    ensures Roldq30(Split(v)) == Split(R30(v))
  {
  }

  lemma Rolled34(v: bv128)
    ensures Roldq34(Split(v)) == Split(R34(v))
  {
  }

  lemma Rolled45(v: bv128)
    ensures Roldq45(Split(v)) == Split(R45(v))
  {
  }

  lemma Rolled49(v: bv128)
    ensures Roldq49(Split(v)) == Split(R49(v))
  {
  }

  lemma Rolled51(v: bv128)
    ensures Roldq51(Split(v)) == Split(R51(v))
  {
  }

  // One rotation after another.
  lemma Turn15Then30(v: bv128)
    ensures R30(R15(v)) == R45(v)
  {
  }

  lemma Turn45Then15(v: bv128)
    ensures R15(R45(v)) == R60(v)
  {
  }

  lemma Turn60Then17(v: bv128)
    ensures R17(R60(v)) == R77(v)
  {
  }

  lemma Turn77Then17(v: bv128)
    ensures R17(R77(v)) == R94(v)
  {
  }

  lemma Turn94Then17(v: bv128)
    ensures R17(R94(v)) == R111(v)
  {
  }

  lemma Turn15Then15(v: bv128)
    ensures R15(R15(v)) == R30(v)
  {
  }

  lemma Turn30Then15(v: bv128)
    ensures R15(R30(v)) == R45(v)
  {
  }

  lemma Turn60Then34(v: bv128)
    ensures R34(R60(v)) == R94(v)
  {
  }

  lemma Turn77Then34(v: bv128)
    ensures R34(R77(v)) == R111(v)
  {
  }

  lemma Turn30Then30(v: bv128)
    ensures R30(R30(v)) == R60(v)
  {
  }

  lemma Turn94Then34(v: bv128)
    ensures R34(R94(v)) == v
  {
  }

  lemma Turn45Then49(v: bv128)
    ensures R49(R45(v)) == R94(v)
  {
  }

  lemma Turn60Then51(v: bv128)
    ensures R51(R60(v)) == R111(v)
  {
  }

  // The rotated values the code goes through, for each of the chains it uses.
  lemma ChainLeft128(q: Quad, v: bv128)
    requires q == Split(v)
    ensures var q15 := Roldq15(q); var q45 := Roldq30(q15); var q60 := Roldq15(q45); var q77 := Roldq17(q60);
            var q94 := Roldq17(q77); var q111 := Roldq17(q94);
            && q15 == Split(R15(v)) && q45 == Split(R45(v)) && q60 == Split(R60(v)) && q77 == Split(R77(v))
            && q94 == Split(R94(v)) && q111 == Split(R111(v))
  {
    Rolled15(v);
    Rolled30(R15(v));
    Turn15Then30(v);
    Rolled15(R45(v));
    Turn45Then15(v);
    Rolled17(R60(v));
    Turn60Then17(v);
    Rolled17(R77(v));
    Turn77Then17(v);
    Rolled17(R94(v));
    Turn94Then17(v);
  }

  lemma ChainA128(q: Quad, v: bv128)
    requires q == Split(v)
    ensures var q15 := Roldq15(q); var q30 := Roldq15(q15); var q45 := Roldq15(q30); var q60 := Roldq15(q45);
            var q94 := Roldq34(q60); var q111 := Roldq17(q94);
            && q15 == Split(R15(v)) && q30 == Split(R30(v)) && q45 == Split(R45(v)) && q60 == Split(R60(v))
            && q94 == Split(R94(v)) && q111 == Split(R111(v))
  {
    Rolled15(v);
    Rolled15(R15(v));
    Turn15Then15(v);
    Rolled15(R30(v));
    Turn30Then15(v);
    Rolled15(R45(v));
    Turn45Then15(v);
    Rolled34(R60(v));
    Turn60Then34(v);
    Rolled17(R94(v));
    Turn94Then17(v);
  }

  lemma ChainLeft256(q: Quad, v: bv128)
    requires q == Split(v)
    ensures var q45 := Roldq45(q); var q60 := Roldq15(q45); var q77 := Roldq17(q60); var q111 := Roldq34(q77);
            q45 == Split(R45(v)) && q60 == Split(R60(v)) && q77 == Split(R77(v)) && q111 == Split(R111(v))
  {
    Rolled45(v);
    Rolled15(R45(v));
    Turn45Then15(v);
    Rolled17(R60(v));
    Turn60Then17(v);
    Rolled34(R77(v));
    Turn77Then34(v);
  }

  // The right half comes back to where it was.
  lemma ChainRight256(q: Quad, v: bv128)
    requires q == Split(v)
    ensures var q15 := Roldq15(q); var q30 := Roldq15(q15); var q60 := Roldq30(q30); var q94 := Roldq34(q60);
            && q15 == Split(R15(v)) && q30 == Split(R30(v)) && q60 == Split(R60(v)) && q94 == Split(R94(v))
            && Roldq34(q94) == q
  {
    Rolled15(v);
    Rolled15(R15(v));
    Turn15Then15(v);
    Rolled30(R30(v));
    Turn30Then30(v);
    Rolled34(R60(v));
    Turn60Then34(v);
    Rolled34(R94(v));
    Turn94Then34(v);
  }

  // subkeys 24 and 25 of KA take their words from the rotation by 45.
  lemma ChainA256(q: Quad, v: bv128)
    requires q == Split(v)
    ensures var q15 := Roldq15(q); var q45 := Roldq30(q15); var q94 := Roldq49(q45);
            && q15 == Split(R15(v)) && q45 == Split(R45(v)) && q94 == Split(R94(v))
            && Quad(q45.lr, q45.rl, q45.rr, q45.ll) == Split(R77(v))
  {
    Rolled15(v);
    Rolled30(R15(v));
    Turn15Then30(v);
    Rolled49(R45(v));
    Turn45Then49(v);
    WordTurn(v);
  }

  lemma WordTurn(v: bv128)
    ensures var q45 := Split(R45(v)); Quad(q45.lr, q45.rl, q45.rr, q45.ll) == Split(R77(v))
  {
  }

  lemma ChainB256(q: Quad, v: bv128)
    requires q == Split(v)
    ensures var q30 := Roldq30(q); var q60 := Roldq30(q30); var q111 := Roldq51(q60);
            q30 == Split(R30(v)) && q60 == Split(R60(v)) && q111 == Split(R111(v))
  {
    Rolled30(v);
    Rolled30(R30(v));
    Turn30Then30(v);
    Rolled51(R60(v));
    Turn60Then51(v);
  }
}
