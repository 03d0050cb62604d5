// The routines of camellia.c that update arrays in place: the key schedule, the
// absorption of the whitening keys, and the two directions of the cipher.
module CamelliaSetup {
  import opened Words
  import opened Camellia
  import opened CamelliaCode
  import opened CamelliaRound
  import opened CamelliaKeys

  // --------------------------------------------------------- the schedule

  // CAMELLIA_F
  function FLookup(s: SBox, x: Half, k: Half): (y: Half)
    ensures y == F(s, x, k)
  {
    LookupIsRound(s, X(x, k));
    RoundLookup(s, X(x, k))
  }

  lemma XCancelFirst(a: Half, b: Half, c: Half)
    ensures X(X(X(a, b), c), a) == X(b, c)
  {
    CamelliaRound.XAssoc(X(a, b), c, a);
    CamelliaRound.XComm(c, a);
    CamelliaRound.XAssoc(X(a, b), a, c);
    CamelliaRound.XComm(a, b);
    CamelliaRound.XTwice(b, a);
  }

  // With a zero right half two exclusive ors drop out.
  method MakeKa128(s: SBox, key: Quad) returns (ka: Quad)
    ensures ka == Ka(s, key, Quad(0, 0, 0, 0))
  {
    var hi, lo := HiQ(key), LoQ(key);
    var w := FLookup(s, hi, SIGMA1);
    lo := X(lo, w);
    hi := FLookup(s, lo, SIGMA2);
    lo := FLookup(s, hi, SIGMA3);
    lo := X(lo, w);
    hi := X(hi, FLookup(s, lo, SIGMA4));
    ka := Cat(hi, lo);
    Ka128Short(s, HiQ(key), LoQ(key), w);
  }

  lemma Ka128Short(s: SBox, kl: Half, kr: Half, w: Half)
    requires w == F(s, kl, SIGMA1)
    ensures var d1 := F(s, X(kr, w), SIGMA2);
            var d2 := X(F(s, d1, SIGMA3), w);
            Ka(s, Cat(kl, kr), Quad(0, 0, 0, 0)) == Cat(X(d1, F(s, d2, SIGMA4)), d2)
  {
    CamelliaRound.XZero(kl);
    CamelliaRound.XZero(kr);
    var d1 := F(s, X(kr, w), SIGMA2);
    CamelliaRound.XComm(kl, d1);
    CamelliaRound.XTwice(d1, kl);
    CamelliaRound.XComm(kr, w);
    CamelliaRound.XTwice(w, kr);
    CamelliaRound.XComm(w, F(s, d1, SIGMA3));
  }

  method MakeKa256(s: SBox, left: Quad, right: Quad) returns (ka: Quad)
    ensures ka == Ka(s, left, right)
  {
    var hi, lo := X(HiQ(left), HiQ(right)), X(LoQ(left), LoQ(right));
    var w := FLookup(s, hi, SIGMA1);
    lo := X(lo, w);
    hi := FLookup(s, lo, SIGMA2);
    Ka256Short(s, left, right, w, hi);
    hi := X(hi, HiQ(right));
    lo := FLookup(s, hi, SIGMA3);
    lo := X(lo, X(w, LoQ(right)));
    hi := X(hi, FLookup(s, lo, SIGMA4));
    ka := Cat(hi, lo);
  }

  lemma Ka256Short(s: SBox, left: Quad, right: Quad, w: Half, v: Half)
    requires w == F(s, X(HiQ(left), HiQ(right)), SIGMA1)
    requires v == F(s, X(X(LoQ(left), LoQ(right)), w), SIGMA2)
    ensures var d1 := X(v, HiQ(right));
            var d2 := X(F(s, d1, SIGMA3), X(w, LoQ(right)));
            Ka(s, left, right) == Cat(X(d1, F(s, d2, SIGMA4)), d2)
  {
    XCancelFirst(HiQ(left), HiQ(right), v);
    XCancelFirst(LoQ(left), LoQ(right), w);
    CamelliaRound.XComm(HiQ(right), v);
    CamelliaRound.XComm(LoQ(right), w);
    var d1 := X(v, HiQ(right));
    CamelliaRound.XComm(X(w, LoQ(right)), F(s, d1, SIGMA3));
  }

  method MakeKb(s: SBox, ka: Quad, right: Quad) returns (kb: Quad)
    ensures kb == Kb(s, ka, right)
  {
    var hi, lo := X(HiQ(right), HiQ(ka)), X(LoQ(right), LoQ(ka));
    CamelliaRound.XComm(HiQ(right), HiQ(ka));
    CamelliaRound.XComm(LoQ(right), LoQ(ka));
    lo := X(lo, FLookup(s, hi, SIGMA5));
    hi := X(hi, FLookup(s, lo, SIGMA6));
    kb := Cat(hi, lo);
  }

  // The subkeys of camellia_setup128 that come from the key itself, and those that
  // come from KA.
  method FromLeft128(key: Quad) returns (k3: Half, k4: Half, k7: Half, k8: Half, k10: Half, ke3: Half, ke4: Half,
                                         k13: Half, k14: Half, k17: Half, k18: Half)
    ensures var v := Join(key);
            && k3 == Hi(R15(v)) && k4 == Lo(R15(v)) && k7 == Hi(R45(v)) && k8 == Lo(R45(v)) && k10 == Lo(R60(v))
            && ke3 == Hi(R77(v)) && ke4 == Lo(R77(v)) && k13 == Hi(R94(v)) && k14 == Lo(R94(v))
            && k17 == Hi(R111(v)) && k18 == Lo(R111(v))
  {
    SplitJoin(key);
    ChainLeft128(key, Join(key));
    var q := Roldq15(key);
    k3, k4 := HiQ(q), LoQ(q);
    q := Roldq30(q);
    k7, k8 := HiQ(q), LoQ(q);
    q := Roldq15(q);
    k10 := LoQ(q);
    q := Roldq17(q);
    ke3, ke4 := HiQ(q), LoQ(q);
    q := Roldq17(q);
    k13, k14 := HiQ(q), LoQ(q);
    q := Roldq17(q);
    k17, k18 := HiQ(q), LoQ(q);
  }

  method FromA128(ka: Quad) returns (k5: Half, k6: Half, ke1: Half, ke2: Half, k9: Half, k11: Half, k12: Half,
                                     k15: Half, k16: Half, kw3: Half, kw4: Half)
    ensures var v := Join(ka);
            && k5 == Hi(R15(v)) && k6 == Lo(R15(v)) && ke1 == Hi(R30(v)) && ke2 == Lo(R30(v)) && k9 == Hi(R45(v))
            && k11 == Hi(R60(v)) && k12 == Lo(R60(v)) && k15 == Hi(R94(v)) && k16 == Lo(R94(v))
            && kw3 == Hi(R111(v)) && kw4 == Lo(R111(v))
  {
    SplitJoin(ka);
    ChainA128(ka, Join(ka));
    var q := Roldq15(ka);
    k5, k6 := HiQ(q), LoQ(q);
    q := Roldq15(q);
    ke1, ke2 := HiQ(q), LoQ(q);
    q := Roldq15(q);
    k9 := HiQ(q);
    q := Roldq15(q);
    k11, k12 := HiQ(q), LoQ(q);
    q := Roldq34(q);
    k15, k16 := HiQ(q), LoQ(q);
    q := Roldq17(q);
    kw3, kw4 := HiQ(q), LoQ(q);
  }

  // The first half of camellia_setup128.
  method Subkeys128(s: SBox, key: Quad) returns (kw1: Half, kw2: Half, kw3: Half, kw4: Half, sub: array<Group<Half>>)
    ensures fresh(sub) && Keys(kw1, kw2, kw3, kw4, sub[..]) == Schedule128(s, key)
  {
    kw1, kw2 := HiQ(key), LoQ(key);
    var k3, k4, k7, k8, k10, ke3, ke4, k13, k14, k17, k18 := FromLeft128(key);
    var ka := MakeKa128(s, key);
    var k5, k6, ke1, ke2, k9, k11, k12, k15, k16, w3, w4 := FromA128(ka);
    kw3, kw4 := w3, w4;
    SplitJoin(key);
    SplitJoin(ka);
    sub := new Group<Half>[] [Group(HiQ(ka), LoQ(ka), k3, k4, k5, k6, ke1, ke2), Group(k7, k8, k9, k10, k11, k12, ke3, ke4),
                              Group(k13, k14, k15, k16, k17, k18, ZERO, ZERO)];
  }

  // The subkeys of camellia_setup256 from the left half of the key, the right half,
  // KA and KB.
  method FromLeft256(left: Quad) returns (k9: Half, k10: Half, ke3: Half, ke4: Half, k17: Half, k18: Half, k23: Half, k24: Half)
    ensures var v := Join(left);
            && k9 == Hi(R45(v)) && k10 == Lo(R45(v)) && ke3 == Hi(R60(v)) && ke4 == Lo(R60(v))
            && k17 == Hi(R77(v)) && k18 == Lo(R77(v)) && k23 == Hi(R111(v)) && k24 == Lo(R111(v))
  {
    SplitJoin(left);
    ChainLeft256(left, Join(left));
    var q := Roldq45(left);
    k9, k10 := HiQ(q), LoQ(q);
    q := Roldq15(q);
    ke3, ke4 := HiQ(q), LoQ(q);
    q := Roldq17(q);
    k17, k18 := HiQ(q), LoQ(q);
    q := Roldq34(q);
    k23, k24 := HiQ(q), LoQ(q);
  }

  // The last rotation brings the right half back.
  method FromRight256(right: Quad)
    returns (k3: Half, k4: Half, ke1: Half, ke2: Half, k13: Half, k14: Half, k19: Half, k20: Half, q: Quad)
    ensures var v := Join(right);
            && k3 == Hi(R15(v)) && k4 == Lo(R15(v)) && ke1 == Hi(R30(v)) && ke2 == Lo(R30(v))
            && k13 == Hi(R60(v)) && k14 == Lo(R60(v)) && k19 == Hi(R94(v)) && k20 == Lo(R94(v)) && q == right
  {
    SplitJoin(right);
    ChainRight256(right, Join(right));
    q := Roldq15(right);
    k3, k4 := HiQ(q), LoQ(q);
    q := Roldq15(q);
    ke1, ke2 := HiQ(q), LoQ(q);
    q := Roldq30(q);
    k13, k14 := HiQ(q), LoQ(q);
    q := Roldq34(q);
    k19, k20 := HiQ(q), LoQ(q);
    q := Roldq34(q);
  }

  method FromA256(ka: Quad) returns (k5: Half, k6: Half, k11: Half, k12: Half, ke5: Half, ke6: Half, k21: Half, k22: Half)
    ensures var v := Join(ka);
            && k5 == Hi(R15(v)) && k6 == Lo(R15(v)) && k11 == Hi(R45(v)) && k12 == Lo(R45(v))
            && ke5 == Hi(R77(v)) && ke6 == Lo(R77(v)) && k21 == Hi(R94(v)) && k22 == Lo(R94(v))
  {
    SplitJoin(ka);
    ChainA256(ka, Join(ka));
    var q := Roldq15(ka);
    k5, k6 := HiQ(q), LoQ(q);
    q := Roldq30(q);
    k11, k12 := HiQ(q), LoQ(q);
    ke5, ke6 := Half(q.lr, q.rl), Half(q.rr, q.ll);
    q := Roldq49(q);
    k21, k22 := HiQ(q), LoQ(q);
  }

  method FromB256(kb: Quad) returns (k7: Half, k8: Half, k15: Half, k16: Half, kw3: Half, kw4: Half)
    ensures var v := Join(kb);
            && k7 == Hi(R30(v)) && k8 == Lo(R30(v)) && k15 == Hi(R60(v)) && k16 == Lo(R60(v))
            && kw3 == Hi(R111(v)) && kw4 == Lo(R111(v))
  {
    SplitJoin(kb);
    ChainB256(kb, Join(kb));
    var q := Roldq30(kb);
    k7, k8 := HiQ(q), LoQ(q);
    q := Roldq30(q);
    k15, k16 := HiQ(q), LoQ(q);
    q := Roldq51(q);
    kw3, kw4 := HiQ(q), LoQ(q);
  }

  // The first half of camellia_setup256.
  method Subkeys256(s: SBox, left: Quad, right: Quad)
    returns (kw1: Half, kw2: Half, kw3: Half, kw4: Half, sub: array<Group<Half>>)
    ensures fresh(sub) && Keys(kw1, kw2, kw3, kw4, sub[..]) == Schedule256(s, left, right)
  {
    kw1, kw2 := HiQ(left), LoQ(left);
    var k9, k10, ke3, ke4, k17, k18, k23, k24 := FromLeft256(left);
    var k3, k4, ke1, ke2, k13, k14, k19, k20, q := FromRight256(right);
    var ka := MakeKa256(s, left, q);
    var kb := MakeKb(s, ka, q);
    var k5, k6, k11, k12, ke5, ke6, k21, k22 := FromA256(ka);
    var k7, k8, k15, k16, w3, w4 := FromB256(kb);
    kw3, kw4 := w3, w4;
    SplitJoin(left);
    SplitJoin(kb);
    sub := new Group<Half>[] [Group(HiQ(kb), LoQ(kb), k3, k4, k5, k6, ke1, ke2), Group(k7, k8, k9, k10, k11, k12, ke3, ke4),
                              Group(k13, k14, k15, k16, k17, k18, ke5, ke6), Group(k19, k20, k21, k22, k23, k24, ZERO, ZERO)];
  }

  // camellia_setup192 makes up the second half of the right key.
  function Complement(right: Half): Quad
  {
    Quad(right.l, right.r, Not(right.l), Not(right.r))
  }

  // ----------------------------------------------------------- absorption

  lemma Replace<T>(front: seq<T>, back: seq<T>, x: T)
    requires back != []
    ensures (front + back)[|front| := x] == (front + [x]) + back[1..]
  {
  }

  lemma AbsorbFirst<H>(al: Alg<H>, front: seq<Group<H>>, back: seq<Group<H>>, m: H)
    requires |back| > 1
    ensures var m1 := al.lin(m, back[0].ke2);
            && (front + [OnD2(al, back[0], m)]) + Absorb2(al, back[1..], m1) == front + Absorb2(al, back, m)
            && Mask2(al, back, m) == Mask2(al, back[1..], m1)
  {
  }

  // kw2 runs forward through the groups while their keys on D2 take it.
  method AbsorbKw2<H>(al: Alg<H>, sub: array<Group<H>>, kw2: H) returns (m: H)
    requires sub.Length > 0
    modifies sub
    ensures sub[..] == Absorb2(al, old(sub[..]), kw2)
    ensures m == Mask2(al, old(sub[..]), kw2)
  {
    ghost var was, front, back := sub[..], [], sub[..];
    m := kw2;
    for j := 0 to sub.Length - 1
      invariant sub[..] == front + back && |front| == j
      invariant front + Absorb2(al, back, m) == Absorb2(al, was, kw2)
      invariant Mask2(al, back, m) == Mask2(al, was, kw2)
    {
      ghost var x := OnD2(al, back[0], m);
      Replace(front, back, x);
      AbsorbFirst(al, front, back, m);
      assert sub[j] == back[0];
      sub[j] := OnD2(al, sub[j], m);
      m := al.lin(m, sub[j].ke2);
      front, back := front + [x], back[1..];
    }
    sub[sub.Length - 1] := OnD2(al, sub[sub.Length - 1], m);
    assert back == [back[0]];
  }

  // kw4 runs backward.
  method AbsorbKw4<H>(al: Alg<H>, sub: array<Group<H>>, kw4: H) returns (n: H)
    requires sub.Length > 0
    modifies sub
    ensures sub[..] == Absorb4(al, old(sub[..]), kw4)
    ensures n == Mask4(al, old(sub[..]), kw4)
  {
    ghost var was := sub[..];
    n := kw4;
    var j := sub.Length - 1;
    assert was[j..] == [was[j]];
    sub[j] := OnD1(al, sub[j], n);
    while j > 0
      invariant 0 <= j < sub.Length
      invariant sub[..j] == was[..j]
      invariant sub[j..] == Absorb4(al, was[j..], kw4)
      invariant n == Mask4(al, was[j..], kw4)
    {
      j := j - 1;
      ghost var later := sub[j + 1..];
      assert was[j..][1..] == was[j + 1..];
      assert sub[j] == was[j];
      n := al.lin(n, sub[j].ke1);
      sub[j] := OnD1(al, sub[j], n);
      assert sub[j..] == [sub[j]] + later;
    }
    assert sub[..] == sub[0..] && was[0..] == was;
  }

  function MovedGroup<H>(al: Alg<H>, k: Group<H>, before: H, behind: H): Group<H>
  {
    Group(al.xor(before, k.k2), al.xor(k.k1, k.k3), al.xor(k.k2, k.k4), al.xor(k.k3, k.k5),
          al.xor(k.k4, k.k6), al.xor(k.k5, behind), k.ke1, k.ke2)
  }

  lemma MoveFirst<H>(al: Alg<H>, ks: seq<Group<H>>, before: H)
    requires ks != []
    ensures Move(al, ks, before)
            == [MovedGroup(al, ks[0], before, Behind(al, ks))] + Move(al, ks[1..], al.lin(ks[0].k6, ks[0].ke2))
  {
  }

  // "key XOR is end of F-function": the stored subkeys from sub.
  method MoveKeys<H>(al: Alg<H>, sub: array<Group<H>>) returns (subkey: seq<Group<H>>)
    requires sub.Length > 0
    ensures subkey == Move(al, sub[..], al.zero)
  {
    subkey := [];
    ghost var ks := sub[..];
    var before := al.zero;
    for j := 0 to sub.Length
      invariant subkey + Move(al, ks[j..], before) == Move(al, ks, al.zero)
    {
      var k := sub[j];
      var behind := if j + 1 < sub.Length then al.lin(sub[j + 1].k1, k.ke1) else al.zero;
      assert behind == Behind(al, ks[j..]);
      MoveFirst(al, ks[j..], before);
      assert ks[j..][1..] == ks[j + 1..];
      subkey := subkey + [MovedGroup(al, k, before, behind)];
      before := al.lin(k.k6, k.ke2);
    }
  }

  // The second half of the set-up.
  method Store<H>(al: Alg<H>, kw1: H, kw2: H, kw3: H, kw4: H, sub: array<Group<H>>)
    returns (first: H, last: H, subkey: seq<Group<H>>)
    requires sub.Length > 0
    modifies sub
    ensures |subkey| == sub.Length
    ensures Stored(first, last, subkey) == Setup(al, Keys(kw1, kw2, kw3, kw4, old(sub[..])))
  {
    ghost var was := sub[..];
    var m := AbsorbKw2(al, sub, kw2);
    AbsorbKeepsLayers(al, was, kw2, kw4);
    var n := AbsorbKw4(al, sub, kw4);
    subkey := MoveKeys(al, sub);
    first := al.xor(al.xor(kw1, n), sub[0].k1);
    last := al.xor(al.xor(kw3, m), sub[sub.Length - 1].k6);
  }

  // camellia_setup128
  method Setup128(s: SBox, key: Quad) returns (first: Half, last: Half, subkey: seq<Group<Half>>)
    ensures |subkey| == 3
    ensures Stored(first, last, subkey) == Setup(Ops(), Schedule128(s, key))
  {
    var kw1, kw2, kw3, kw4, sub := Subkeys128(s, key);
    first, last, subkey := Store(Ops(), kw1, kw2, kw3, kw4, sub);
  }

  // camellia_setup256
  method Setup256(s: SBox, left: Quad, right: Quad) returns (first: Half, last: Half, subkey: seq<Group<Half>>)
    ensures |subkey| == 4
    ensures Stored(first, last, subkey) == Setup(Ops(), Schedule256(s, left, right))
  {
    var kw1, kw2, kw3, kw4, sub := Subkeys256(s, left, right);
    first, last, subkey := Store(Ops(), kw1, kw2, kw3, kw4, sub);
  }

  lemma ComplementAddsUp(right: Half)
    ensures HiQ(Complement(right)) == right && X(right, LoQ(Complement(right))) == Half(0xFFFFFFFF, 0xFFFFFFFF)
  {
  }

  // camellia_setup192: the other half of the right key has every bit flipped.
  method Setup192(s: SBox, left: Quad, right: Half) returns (first: Half, last: Half, subkey: seq<Group<Half>>)
    ensures |subkey| == 4
    ensures Stored(first, last, subkey) == Setup(Ops(), Schedule256(s, left, Complement(right)))
    ensures HiQ(Complement(right)) == right && X(right, LoQ(Complement(right))) == Half(0xFFFFFFFF, 0xFFFFFFFF)
  {
    ComplementAddsUp(right);
    first, last, subkey := Setup256(s, left, Complement(right));
  }

  // ------------------------------------------------- the cipher, in place

  function BlockOf<H>(io: seq<H>): Block<H>
    requires |io| == 2
  {
    Block(io[0], io[1])
  }

  // CAMELLIA_ROUNDSM: half x of the block, through the round function, onto half y.
  method Roundsm<H>(al: Alg<H>, f: H -> H, io: array<H>, x: nat, k: H, y: nat)
    requires io.Length == 2 && x < 2 && y < 2
    modifies io
    ensures io[..] == old(io[..])[y := al.xor(al.xor(old(io[y]), k), f(old(io[x])))]
  {
    var ir := f(io[x]);
    io[y] := al.xor(io[y], k);
    io[y] := al.xor(io[y], ir);
  }

  // Six of them.
  method SixForward<H>(al: Alg<H>, f: H -> H, io: array<H>, k: Group<H>)
    requires io.Length == 2
    modifies io
    ensures BlockOf(io[..]) == SixRoundsm(al, f, BlockOf(old(io[..])), k)
  {
    Roundsm(al, f, io, 0, k.k1, 1);
    Roundsm(al, f, io, 1, k.k2, 0);
    Roundsm(al, f, io, 0, k.k3, 1);
    Roundsm(al, f, io, 1, k.k4, 0);
    Roundsm(al, f, io, 0, k.k5, 1);
    Roundsm(al, f, io, 1, k.k6, 0);
  }

  method SixBackward<H>(al: Alg<H>, f: H -> H, io: array<H>, k: Group<H>)
    requires io.Length == 2
    modifies io
    ensures BlockOf(io[..]) == SixBack(al, f, BlockOf(old(io[..])), k)
  {
    Roundsm(al, f, io, 0, k.k6, 1);
    Roundsm(al, f, io, 1, k.k5, 0);
    Roundsm(al, f, io, 0, k.k4, 1);
    Roundsm(al, f, io, 1, k.k3, 0);
    Roundsm(al, f, io, 0, k.k2, 1);
    Roundsm(al, f, io, 1, k.k1, 0);
  }

  // CAMELLIA_FLS
  method Fls<H>(al: Alg<H>, io: array<H>, k1: H, k2: H)
    requires io.Length == 2
    modifies io
    ensures BlockOf(io[..]) == Layer(al, BlockOf(old(io[..])), k1, k2)
  {
    io[0] := al.fl(io[0], k1);
    io[1] := al.flInv(io[1], k2);
  }

  // camellia_encrypt128 and camellia_encrypt256
  method EncryptInPlace<H>(al: Alg<H>, f: H -> H, s: Stored<H>, io: array<H>)
    requires io.Length == 2 && s.groups != []
    modifies io
    ensures BlockOf(io[..]) == EncryptCode(al, f, s, BlockOf(old(io[..])))
  {
    io[0] := al.xor(io[0], s.first);
    ForwardGroups(al, f, s.groups, io);
    io[1] := al.xor(io[1], s.last);
    io[0], io[1] := io[1], io[0];
  }

  method ForwardGroups<H>(al: Alg<H>, f: H -> H, ss: seq<Group<H>>, io: array<H>)
    requires io.Length == 2 && ss != []
    modifies io
    ensures BlockOf(io[..]) == GroupsCode(al, f, BlockOf(old(io[..])), ss)
  {
    ghost var start := BlockOf(io[..]);
    var j := 0;
    while j + 1 < |ss|
      invariant j < |ss|
      invariant GroupsCode(al, f, BlockOf(io[..]), ss[j..]) == GroupsCode(al, f, start, ss)
    {
      OneGroup(al, f, ss[j..], ss[j + 1..], io);
      j := j + 1;
    }
    SixForward(al, f, io, ss[j]);
  }

  method OneGroup<H>(al: Alg<H>, f: H -> H, ss: seq<Group<H>>, rest: seq<Group<H>>, io: array<H>)
    requires io.Length == 2 && |ss| > 1 && rest == ss[1..]
    modifies io
    ensures GroupsCode(al, f, BlockOf(io[..]), rest) == GroupsCode(al, f, BlockOf(old(io[..])), ss)
  {
    SixForward(al, f, io, ss[0]);
    GroupsCodeUnfold(al, f, BlockOf(old(io[..])), ss, BlockOf(io[..]), rest);
    Fls(al, io, ss[0].ke1, ss[0].ke2);
  }

  // camellia_decrypt128 and camellia_decrypt256
  method DecryptInPlace<H>(al: Alg<H>, f: H -> H, s: Stored<H>, io: array<H>)
    requires io.Length == 2 && s.groups != []
    modifies io
    ensures BlockOf(io[..]) == DecryptCode(al, f, s, BlockOf(old(io[..])))
  {
    io[0] := al.xor(io[0], s.last);
    BackwardGroups(al, f, s.groups, io);
    io[1] := al.xor(io[1], s.first);
    io[0], io[1] := io[1], io[0];
  }

  method BackwardGroups<H>(al: Alg<H>, f: H -> H, ss: seq<Group<H>>, io: array<H>)
    requires io.Length == 2 && ss != []
    modifies io
    ensures BlockOf(io[..]) == GroupsBack(al, f, BlockOf(old(io[..])), ss)
  {
    var j := |ss| - 1;
    SixBackward(al, f, io, ss[j]);
    while j > 0
      invariant 0 <= j < |ss|
      invariant BlockOf(io[..]) == GroupsBack(al, f, BlockOf(old(io[..])), ss[j..])
    {
      j := j - 1;
      assert ss[j..][1..] == ss[j + 1..];
      Fls(al, io, ss[j].ke2, ss[j].ke1);
      SixBackward(al, f, io, ss[j]);
    }
    assert ss[0..] == ss;
  }

  // ------------------------------------------------------- the main results

  function RoundOf(s: SBox): Half -> Half { (x: Half) => Round(s, x) }
  function LookupOf(s: SBox): Half -> Half { (x: Half) => RoundLookup(s, x) }

  lemma SixSame<H(!new)>(al: Alg<H>, f: H -> H, g: H -> H, d: Block<H>, k: Group<H>)
    requires forall x :: f(x) == g(x)
    ensures SixRounds(al, f, d, k) == SixRounds(al, g, d, k)
  {
  }

  // Equal round functions give equal ciphers.
  lemma {:induction false} GroupsSame<H(!new)>(al: Alg<H>, f: H -> H, g: H -> H, d: Block<H>, ks: seq<Group<H>>)
    requires ks != [] && forall x :: f(x) == g(x)
    ensures Groups(al, f, d, ks) == Groups(al, g, d, ks)
    decreases |ks|
  {
    var e := SixRounds(al, f, d, ks[0]);
    SixSame(al, f, g, d, ks[0]);
    GroupsUnfold(al, f, d, ks, e, ks[1..]);
    GroupsUnfold(al, g, d, ks, e, ks[1..]);
    if |ks| > 1 {
      GroupsSame(al, f, g, Layer(al, e, ks[0].ke1, ks[0].ke2), ks[1..]);
    }
  }

  lemma EncryptSame<H(!new)>(al: Alg<H>, f: H -> H, g: H -> H, k: Keys<H>, m: Block<H>)
    requires k.groups != [] && forall x :: f(x) == g(x)
    ensures Encrypt(al, f, k, m) == Encrypt(al, g, k, m)
  {
    GroupsSame(al, f, g, Block(al.xor(m.d1, k.kw1), al.xor(m.d2, k.kw2)), k.groups);
  }

  lemma SameRounds(s: SBox)
    ensures forall x :: LookupOf(s)(x) == RoundOf(s)(x)
  {
    forall x
      ensures LookupOf(s)(x) == RoundOf(s)(x)
    {
      LookupIsRound(s, x);
    }
  }

  // What the code computes with the subkeys it stores is the cipher.
  lemma CodeEncrypts(s: SBox, k: Keys<Half>, m: Block<Half>)
    requires k.groups != []
    ensures EncryptCode(Ops(), LookupOf(s), Setup(Ops(), k), m) == Encrypt(Ops(), RoundOf(s), k, m)
  {
    OpsLawful();
    SameRounds(s);
    CodeIsCipher(Ops(), LookupOf(s), k, m);
    EncryptSame(Ops(), LookupOf(s), RoundOf(s), k, m);
  }

  lemma CodeDecrypts(s: SBox, k: Keys<Half>, m: Block<Half>)
    requires k.groups != []
    ensures DecryptCode(Ops(), LookupOf(s), Setup(Ops(), k), Encrypt(Ops(), RoundOf(s), k, m)) == m
  {
    OpsLawful();
    CodeEncrypts(s, k, m);
    DecryptInverts(Ops(), LookupOf(s), Setup(Ops(), k), m);
  }

  // For every key and block: set up, encrypted and decrypted in place, a block is what
  // RFC 3713 makes of it, and comes back.
  method Camellia128(s: SBox, key: Quad, io: array<Half>) returns (subkeys: Stored<Half>)
    requires io.Length == 2
    modifies io
    ensures subkeys == Setup(Ops(), Schedule128(s, key))
    ensures BlockOf(io[..]) == Encrypt(Ops(), RoundOf(s), Schedule128(s, key), BlockOf(old(io[..])))
    ensures DecryptCode(Ops(), LookupOf(s), subkeys, BlockOf(io[..])) == BlockOf(old(io[..]))
  {
    var first, last, groups := Setup128(s, key);
    subkeys := Stored(first, last, groups);
    EncryptInPlace(Ops(), LookupOf(s), subkeys, io);
    CodeEncrypts(s, Schedule128(s, key), BlockOf(old(io[..])));
    CodeDecrypts(s, Schedule128(s, key), BlockOf(old(io[..])));
  }

  method Camellia256(s: SBox, left: Quad, right: Quad, io: array<Half>) returns (subkeys: Stored<Half>)
    requires io.Length == 2
    modifies io
    ensures subkeys == Setup(Ops(), Schedule256(s, left, right))
    ensures BlockOf(io[..]) == Encrypt(Ops(), RoundOf(s), Schedule256(s, left, right), BlockOf(old(io[..])))
    ensures DecryptCode(Ops(), LookupOf(s), subkeys, BlockOf(io[..])) == BlockOf(old(io[..]))
  {
    var first, last, groups := Setup256(s, left, right);
    subkeys := Stored(first, last, groups);
    EncryptInPlace(Ops(), LookupOf(s), subkeys, io);
    CodeEncrypts(s, Schedule256(s, left, right), BlockOf(old(io[..])));
    CodeDecrypts(s, Schedule256(s, left, right), BlockOf(old(io[..])));
  }
}
