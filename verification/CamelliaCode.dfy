// How camellia.c computes the cipher: two whitening keys absorbed into the others and
// the key addition moved to the end of the round.
module CamelliaCode {
  import opened Camellia

  // ------------------------------------------------------------- the code

  // CAMELLIA_ROUNDSM twice: the key goes on the other half, the round function takes
  // no key.
  function TwoRoundsm<H>(al: Alg<H>, f: H -> H, e: Block<H>, s1: H, s2: H): Block<H>
  {
    var d2 := al.xor(al.xor(e.d2, s1), f(e.d1));
    Block(al.xor(al.xor(e.d1, s2), f(d2)), d2)
  }

  function SixRoundsm<H>(al: Alg<H>, f: H -> H, e: Block<H>, s: Group<H>): Block<H>
  {
    TwoRoundsm(al, f, TwoRoundsm(al, f, TwoRoundsm(al, f, e, s.k1, s.k2), s.k3, s.k4), s.k5, s.k6)
  }

  function GroupsCode<H>(al: Alg<H>, f: H -> H, e: Block<H>, ss: seq<Group<H>>): Block<H>
    requires ss != []
    decreases |ss|
  {
    var d := SixRoundsm(al, f, e, ss[0]);
    if |ss| == 1 then d else GroupsCode(al, f, Layer(al, d, ss[0].ke1, ss[0].ke2), ss[1..])
  }

  // The subkeys the code stores: two of the four whitening keys are gone.
  datatype Stored<H> = Stored(first: H, last: H, groups: seq<Group<H>>)

  // camellia_encrypt128 and camellia_encrypt256
  function EncryptCode<H>(al: Alg<H>, f: H -> H, s: Stored<H>, m: Block<H>): Block<H>
    requires s.groups != []
  {
    var d := GroupsCode(al, f, Block(al.xor(m.d1, s.first), m.d2), s.groups);
    Block(al.xor(d.d2, s.last), d.d1)
  }

  // camellia_decrypt128 and camellia_decrypt256 run through the subkeys backwards.
  function SixBack<H>(al: Alg<H>, f: H -> H, e: Block<H>, s: Group<H>): Block<H>
  {
    TwoRoundsm(al, f, TwoRoundsm(al, f, TwoRoundsm(al, f, e, s.k6, s.k5), s.k4, s.k3), s.k2, s.k1)
  }

  function GroupsBack<H>(al: Alg<H>, f: H -> H, e: Block<H>, ss: seq<Group<H>>): Block<H>
    requires ss != []
    decreases |ss|
  {
    if |ss| == 1 then SixBack(al, f, e, ss[0]) else
      SixBack(al, f, Layer(al, GroupsBack(al, f, e, ss[1..]), ss[0].ke2, ss[0].ke1), ss[0])
  }

  function DecryptCode<H>(al: Alg<H>, f: H -> H, s: Stored<H>, c: Block<H>): Block<H>
    requires s.groups != []
  {
    var d := GroupsBack(al, f, Block(al.xor(c.d1, s.last), c.d2), s.groups);
    Block(al.xor(d.d2, s.first), d.d1)
  }

  // ------------------------------------------------------------------ laws

  lemma XAssoc<H(!new)>(al: Alg<H>, a: H, b: H, c: H)
    requires Laws(al)
    ensures al.xor(al.xor(a, b), c) == al.xor(a, al.xor(b, c))
  {
    assert Three(a, b, c);
  }

  lemma XComm<H(!new)>(al: Alg<H>, a: H, b: H)
    requires Laws(al)
    ensures al.xor(a, b) == al.xor(b, a)
  {
    assert Two(a, b);
  }

  lemma XTwice<H(!new)>(al: Alg<H>, a: H, b: H)
    requires Laws(al)
    ensures al.xor(al.xor(a, b), b) == a
  {
    assert Two(a, b);
  }

  lemma XZero<H(!new)>(al: Alg<H>, a: H)
    requires Laws(al)
    ensures al.xor(a, al.zero) == a && al.xor(al.zero, a) == a
  {
    assert Two(a, al.zero);
  }

  // The code's state is the cipher's with a mask on each half.
  function Masked<H>(al: Alg<H>, d: Block<H>, a: H, c: H): Block<H>
  {
    Block(al.xor(d.d1, a), al.xor(d.d2, c))
  }

  lemma LayerMasked<H(!new)>(al: Alg<H>, d: Block<H>, n: H, m: H, k1: H, k2: H)
    requires Laws(al)
    ensures Layer(al, Masked(al, d, al.lin(n, k1), m), k1, k2) == Masked(al, Layer(al, d, k1, k2), n, al.lin(m, k2))
  {
    assert Three(d.d1, n, k1);
    assert Three(d.d2, m, k2);
  }

  // ------------------------------------------- absorbing the whitening keys

  // kw4 as a mask on D1 in the first of these groups, taken back through the FL layers
  // behind it.
  function Mask4<H>(al: Alg<H>, ks: seq<Group<H>>, kw4: H): H
    requires ks != []
  {
    if |ks| == 1 then kw4 else al.lin(Mask4(al, ks[1..], kw4), ks[0].ke1)
  }

  // kw2 as a mask on D2 in the last of these groups, having come through the FL layers
  // before it.
  function Mask2<H>(al: Alg<H>, ks: seq<Group<H>>, kw2: H): H
    requires ks != []
  {
    if |ks| == 1 then kw2 else Mask2(al, ks[1..], al.lin(kw2, ks[0].ke2))
  }

  // The round keys used on D2 take the mask of kw2.
  function OnD2<H>(al: Alg<H>, k: Group<H>, m: H): Group<H>
  {
    k.(k2 := al.xor(k.k2, m), k4 := al.xor(k.k4, m), k6 := al.xor(k.k6, m))
  }

  // Those used on D1 take the mask of kw4.
  function OnD1<H>(al: Alg<H>, k: Group<H>, n: H): Group<H>
  {
    k.(k1 := al.xor(k.k1, n), k3 := al.xor(k.k3, n), k5 := al.xor(k.k5, n))
  }

  function Absorb2<H>(al: Alg<H>, ks: seq<Group<H>>, kw2: H): (r: seq<Group<H>>)
    ensures |r| == |ks|
  {
    if ks == [] then [] else [OnD2(al, ks[0], kw2)] + Absorb2(al, ks[1..], al.lin(kw2, ks[0].ke2))
  }

  function Absorb4<H>(al: Alg<H>, ks: seq<Group<H>>, kw4: H): (r: seq<Group<H>>)
    ensures |r| == |ks|
  {
    if ks == [] then [] else [OnD1(al, ks[0], Mask4(al, ks, kw4))] + Absorb4(al, ks[1..], kw4)
  }

  lemma BothMasked<H(!new)>(al: Alg<H>, d: H, k: H, m: H)
    requires Laws(al)
    ensures al.xor(al.xor(d, m), al.xor(k, m)) == al.xor(d, k)
  {
    XComm(al, k, m);
    XAssoc(al, al.xor(d, m), m, k);
    XTwice(al, d, m);
  }

  lemma MaskLater<H(!new)>(al: Alg<H>, d: H, m: H, v: H)
    requires Laws(al)
    ensures al.xor(al.xor(d, m), v) == al.xor(al.xor(d, v), m)
  {
    XAssoc(al, d, m, v);
    XComm(al, m, v);
    XAssoc(al, d, v, m);
  }

  lemma TwoRoundsMasked<H(!new)>(al: Alg<H>, f: H -> H, d: Block<H>, k1: H, k2: H, n: H, m: H)
    requires Laws(al)
    ensures TwoRounds(al, f, Masked(al, d, n, m), al.xor(k1, n), al.xor(k2, m)) == Masked(al, TwoRounds(al, f, d, k1, k2), n, m)
  {
    BothMasked(al, d.d1, k1, n);
    MaskLater(al, d.d2, m, f(al.xor(d.d1, k1)));
    var d2 := al.xor(d.d2, f(al.xor(d.d1, k1)));
    BothMasked(al, d2, k2, m);
    MaskLater(al, d.d1, n, f(al.xor(d2, k2)));
  }

  lemma SixRoundsMasked<H(!new)>(al: Alg<H>, f: H -> H, d: Block<H>, k: Group<H>, n: H, m: H)
    requires Laws(al)
    ensures SixRounds(al, f, Masked(al, d, n, m), OnD1(al, OnD2(al, k, m), n)) == Masked(al, SixRounds(al, f, d, k), n, m)
  {
    var d1 := TwoRounds(al, f, d, k.k1, k.k2);
    var d2 := TwoRounds(al, f, d1, k.k3, k.k4);
    TwoRoundsMasked(al, f, d, k.k1, k.k2, n, m);
    TwoRoundsMasked(al, f, d1, k.k3, k.k4, n, m);
    TwoRoundsMasked(al, f, d2, k.k5, k.k6, n, m);
  }

  lemma {:induction false} AbsorbKeepsLayers<H>(al: Alg<H>, ks: seq<Group<H>>, m: H, kw4: H)
    requires ks != []
    ensures Mask4(al, Absorb2(al, ks, m), kw4) == Mask4(al, ks, kw4)
  {
    if |ks| > 1 {
      AbsorbKeepsLayers(al, ks[1..], al.lin(m, ks[0].ke2), kw4);
      assert Absorb2(al, ks, m)[1..] == Absorb2(al, ks[1..], al.lin(m, ks[0].ke2));
    }
  }

  lemma GroupsUnfold<H>(al: Alg<H>, f: H -> H, d: Block<H>, ks: seq<Group<H>>, e: Block<H>, rest: seq<Group<H>>)
    requires ks != [] && e == SixRounds(al, f, d, ks[0]) && rest == ks[1..]
    ensures Groups(al, f, d, ks) == if |ks| == 1 then e else Groups(al, f, Layer(al, e, ks[0].ke1, ks[0].ke2), rest)
  {
  }

  lemma AbsorbTail<H>(al: Alg<H>, ks: seq<Group<H>>, m: H, kw4: H) returns (a: seq<Group<H>>)
    requires ks != []
    ensures a == Absorb4(al, Absorb2(al, ks, m), kw4) && |a| == |ks|
    ensures a[0] == OnD1(al, OnD2(al, ks[0], m), Mask4(al, ks, kw4))
    ensures a[1..] == Absorb4(al, Absorb2(al, ks[1..], al.lin(m, ks[0].ke2)), kw4)
  {
    var bs := Absorb2(al, ks, m);
    a := Absorb4(al, bs, kw4);
    AbsorbKeepsLayers(al, ks, m, kw4);
    assert bs[1..] == Absorb2(al, ks[1..], al.lin(m, ks[0].ke2));
    assert a[1..] == Absorb4(al, bs[1..], kw4);
  }

  // The network with the absorbed keys runs with the masks on its state.
  lemma {:induction false} GroupsMasked<H(!new)>(al: Alg<H>, f: H -> H, d: Block<H>, ks: seq<Group<H>>, m: H, kw4: H)
    requires Laws(al) && ks != []
    ensures Groups(al, f, Masked(al, d, Mask4(al, ks, kw4), m), Absorb4(al, Absorb2(al, ks, m), kw4))
            == Masked(al, Groups(al, f, d, ks), kw4, Mask2(al, ks, m))
    decreases |ks|
  {
    var n, k := Mask4(al, ks, kw4), ks[0];
    var a := AbsorbTail(al, ks, m, kw4);
    var e := SixRounds(al, f, d, k);
    SixRoundsMasked(al, f, d, k, n, m);
    GroupsUnfold(al, f, d, ks, e, ks[1..]);
    GroupsUnfold(al, f, Masked(al, d, n, m), a, Masked(al, e, n, m), a[1..]);
    if |ks| > 1 {
      LayerMasked(al, e, Mask4(al, ks[1..], kw4), m, k.ke1, k.ke2);
      GroupsMasked(al, f, Layer(al, e, k.ke1, k.ke2), ks[1..], al.lin(m, k.ke2), kw4);
    }
  }

  // ------------------------------- moving the key to the end of the round

  // before is the mask on D2 when the first of these groups begins.
  function Move<H>(al: Alg<H>, ks: seq<Group<H>>, before: H): (r: seq<Group<H>>)
    ensures |r| == |ks|
  {
    if ks == [] then [] else
      [Group(al.xor(before, ks[0].k2), al.xor(ks[0].k1, ks[0].k3), al.xor(ks[0].k2, ks[0].k4), al.xor(ks[0].k3, ks[0].k5),
             al.xor(ks[0].k4, ks[0].k6), al.xor(ks[0].k5, Behind(al, ks)), ks[0].ke1, ks[0].ke2)]
      + Move(al, ks[1..], al.lin(ks[0].k6, ks[0].ke2))
  }

  // The mask on D1 when the first of these groups ends: what the FL layer turns into
  // the first key of the next group.
  function Behind<H>(al: Alg<H>, ks: seq<Group<H>>): H
    requires ks != []
  {
    if |ks| == 1 then al.zero else al.lin(ks[1].k1, ks[0].ke1)
  }

  lemma Cancel<H(!new)>(al: Alg<H>, d: H, c: H, b: H, v: H)
    requires Laws(al)
    ensures al.xor(al.xor(al.xor(d, c), al.xor(c, b)), v) == al.xor(al.xor(d, v), b)
  {
    XAssoc(al, al.xor(d, c), c, b);
    XTwice(al, d, c);
    XAssoc(al, d, b, v);
    XComm(al, b, v);
    XAssoc(al, d, v, b);
  }

  lemma TwoRoundsMove<H(!new)>(al: Alg<H>, f: H -> H, d: Block<H>, a: H, c: H, b: H, n: H)
    requires Laws(al)
    ensures TwoRoundsm(al, f, Masked(al, d, a, c), al.xor(c, b), al.xor(a, n)) == Masked(al, TwoRounds(al, f, d, a, b), n, b)
  {
    Cancel(al, d.d2, c, b, f(al.xor(d.d1, a)));
    var d2 := al.xor(d.d2, f(al.xor(d.d1, a)));
    Cancel(al, d.d1, a, n, f(al.xor(d2, b)));
  }

  lemma SixRoundsMove<H(!new)>(al: Alg<H>, f: H -> H, d: Block<H>, ks: seq<Group<H>>, c: H)
    requires Laws(al) && ks != []
    ensures SixRoundsm(al, f, Masked(al, d, ks[0].k1, c), Move(al, ks, c)[0])
            == Masked(al, SixRounds(al, f, d, ks[0]), Behind(al, ks), ks[0].k6)
  {
    var k := ks[0];
    var d1 := TwoRounds(al, f, d, k.k1, k.k2);
    var d2 := TwoRounds(al, f, d1, k.k3, k.k4);
    TwoRoundsMove(al, f, d, k.k1, c, k.k2, k.k3);
    TwoRoundsMove(al, f, d1, k.k3, k.k2, k.k4, k.k5);
    TwoRoundsMove(al, f, d2, k.k5, k.k4, k.k6, Behind(al, ks));
  }

  lemma GroupsCodeUnfold<H>(al: Alg<H>, f: H -> H, d: Block<H>, ss: seq<Group<H>>, e: Block<H>, rest: seq<Group<H>>)
    requires ss != [] && e == SixRoundsm(al, f, d, ss[0]) && rest == ss[1..]
    ensures GroupsCode(al, f, d, ss) == if |ss| == 1 then e else GroupsCode(al, f, Layer(al, e, ss[0].ke1, ss[0].ke2), rest)
  {
  }

  // The code's state is one round key ahead on each half.
  lemma {:induction false} GroupsMove<H(!new)>(al: Alg<H>, f: H -> H, d: Block<H>, ks: seq<Group<H>>, c: H)
    requires Laws(al) && ks != []
    ensures GroupsCode(al, f, Masked(al, d, ks[0].k1, c), Move(al, ks, c))
            == Masked(al, Groups(al, f, d, ks), al.zero, ks[|ks| - 1].k6)
    decreases |ks|
  {
    var k, n, s, c1 := ks[0], Behind(al, ks), Move(al, ks, c), al.lin(ks[0].k6, ks[0].ke2);
    var e := SixRounds(al, f, d, k);
    SixRoundsMove(al, f, d, ks, c);
    assert s[1..] == Move(al, ks[1..], c1);
    GroupsUnfold(al, f, d, ks, e, ks[1..]);
    GroupsCodeUnfold(al, f, Masked(al, d, k.k1, c), s, Masked(al, e, n, k.k6), s[1..]);
    if |ks| > 1 {
      LayerMasked(al, e, ks[1].k1, k.k6, k.ke1, k.ke2);
      GroupsMove(al, f, Layer(al, e, k.ke1, k.ke2), ks[1..], c1);
    }
  }

  // ---------------------------------------------------------- the theorems

  // camellia_setup128 and camellia_setup256, from the subkeys of the key schedule on.
  function Setup<H>(al: Alg<H>, k: Keys<H>): Stored<H>
    requires k.groups != []
  {
    var bs := Absorb4(al, Absorb2(al, k.groups, k.kw2), k.kw4);
    var kw1 := al.xor(k.kw1, Mask4(al, k.groups, k.kw4));
    var kw3 := al.xor(k.kw3, Mask2(al, k.groups, k.kw2));
    Stored(al.xor(kw1, bs[0].k1), al.xor(kw3, bs[|bs| - 1].k6), Move(al, bs, al.zero))
  }

  lemma StartMasked<H(!new)>(al: Alg<H>, k: Keys<H>, m: Block<H>, n: H, b: H)
    requires Laws(al)
    ensures var w := Masked(al, Block(al.xor(m.d1, k.kw1), al.xor(m.d2, k.kw2)), n, k.kw2);
            Masked(al, w, b, al.zero) == Block(al.xor(m.d1, al.xor(al.xor(k.kw1, n), b)), m.d2)
  {
    XAssoc(al, m.d1, k.kw1, n);
    XAssoc(al, m.d1, al.xor(k.kw1, n), b);
    XTwice(al, m.d2, k.kw2);
    XZero(al, m.d2);
  }

  lemma EndMasked<H(!new)>(al: Alg<H>, d: Block<H>, kw3: H, kw4: H, m: H, b: H)
    requires Laws(al)
    ensures var e := Masked(al, Masked(al, d, kw4, m), al.zero, b);
            Block(al.xor(e.d2, al.xor(al.xor(kw3, m), b)), e.d1) == Block(al.xor(d.d2, kw3), al.xor(d.d1, kw4))
  {
    BothMasked(al, al.xor(d.d2, m), al.xor(kw3, m), b);
    BothMasked(al, d.d2, kw3, m);
    XZero(al, al.xor(d.d1, kw4));
  }

  // Whatever the round function, the subkeys and the number of groups: the code
  // computes the cipher.
  lemma CodeIsCipher<H(!new)>(al: Alg<H>, f: H -> H, k: Keys<H>, m: Block<H>)
    requires Laws(al) && k.groups != []
    ensures EncryptCode(al, f, Setup(al, k), m) == Encrypt(al, f, k, m)
  {
    var bs := Absorb4(al, Absorb2(al, k.groups, k.kw2), k.kw4);
    var whitened := Block(al.xor(m.d1, k.kw1), al.xor(m.d2, k.kw2));
    var n := Mask4(al, k.groups, k.kw4);
    GroupsMasked(al, f, whitened, k.groups, k.kw2, k.kw4);
    GroupsMove(al, f, Masked(al, whitened, n, k.kw2), bs, al.zero);
    StartMasked(al, k, m, n, bs[0].k1);
    EndMasked(al, Groups(al, f, whitened, k.groups), k.kw3, k.kw4, Mask2(al, k.groups, k.kw2), bs[|bs| - 1].k6);
  }

  // ------------------------------------------------------------- decryption

  function Swap<H>(d: Block<H>): Block<H>
  {
    Block(d.d2, d.d1)
  }

  lemma TwoBack<H(!new)>(al: Alg<H>, f: H -> H, e: Block<H>, s1: H, s2: H)
    requires Laws(al)
    ensures TwoRoundsm(al, f, Swap(TwoRoundsm(al, f, e, s1, s2)), s2, s1) == Swap(e)
  {
    var d2 := al.xor(al.xor(e.d2, s1), f(e.d1));
    MaskTwice(al, e.d1, s2, f(d2));
    MaskTwice(al, e.d2, s1, f(e.d1));
  }

  lemma MaskTwice<H(!new)>(al: Alg<H>, d: H, s: H, v: H)
    requires Laws(al)
    ensures al.xor(al.xor(al.xor(al.xor(d, s), v), s), v) == d
  {
    MaskLater(al, al.xor(d, s), v, s);
    XTwice(al, d, s);
    XTwice(al, d, v);
  }

  lemma SixInverse<H(!new)>(al: Alg<H>, f: H -> H, e: Block<H>, s: Group<H>)
    requires Laws(al)
    ensures SixBack(al, f, Swap(SixRoundsm(al, f, e, s)), s) == Swap(e)
  {
    var d1 := TwoRoundsm(al, f, e, s.k1, s.k2);
    var d2 := TwoRoundsm(al, f, d1, s.k3, s.k4);
    TwoBack(al, f, d2, s.k5, s.k6);
    TwoBack(al, f, d1, s.k3, s.k4);
    TwoBack(al, f, e, s.k1, s.k2);
  }

  lemma LayerInverse<H(!new)>(al: Alg<H>, d: Block<H>, k1: H, k2: H)
    requires Laws(al)
    ensures Layer(al, Swap(Layer(al, d, k1, k2)), k2, k1) == Swap(d)
  {
    assert Two(d.d1, k1);
    assert Two(d.d2, k2);
  }

  lemma {:induction false} GroupsInverse<H(!new)>(al: Alg<H>, f: H -> H, e: Block<H>, ss: seq<Group<H>>)
    requires Laws(al) && ss != []
    ensures GroupsBack(al, f, Swap(GroupsCode(al, f, e, ss)), ss) == Swap(e)
    decreases |ss|
  {
    var d := SixRoundsm(al, f, e, ss[0]);
    SixInverse(al, f, e, ss[0]);
    GroupsCodeUnfold(al, f, e, ss, d, ss[1..]);
    if |ss| > 1 {
      GroupsInverse(al, f, Layer(al, d, ss[0].ke1, ss[0].ke2), ss[1..]);
      LayerInverse(al, d, ss[0].ke1, ss[0].ke2);
    }
  }

  // Decryption inverts encryption, whatever subkeys are stored.
  lemma DecryptInverts<H(!new)>(al: Alg<H>, f: H -> H, s: Stored<H>, m: Block<H>)
    requires Laws(al) && s.groups != []
    ensures DecryptCode(al, f, s, EncryptCode(al, f, s, m)) == m
  {
    var e := Block(al.xor(m.d1, s.first), m.d2);
    var d := GroupsCode(al, f, e, s.groups);
    XTwice(al, d.d2, s.last);
    GroupsInverse(al, f, e, s.groups);
    XTwice(al, m.d1, s.first);
  }
}
