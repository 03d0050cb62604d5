// What an honest run of the Socialist Millionaires' Protocol guarantees.
module SmpProofs {
  import opened Bytes
  import opened Serial
  import opened ModArith
  import opened Group
  import opened Smp

  // ---------------------------------------------- completeness of the proofs

  lemma ResponseCong(gr: Group, r: nat, x: nat, c: nat) returns (k: int)
    requires GroupOK(gr)
    ensures Response(gr, r, x, c) == r - x * c + k * gr.q
  {
    ModDivision(x * c, gr.q);
    ModDivision(r - (x * c) % gr.q, gr.q);
    k := (x * c) / gr.q - (r - (x * c) % gr.q) / gr.q;
    MulDistr((x * c) / gr.q, -((r - (x * c) % gr.q) / gr.q), gr.q);
  }

  // g^d (g^x)^c == g^r in exponents over a base Gel(a)
  lemma ResponseOpens(gr: Group, a: int, r: nat, x: nat, c: nat)
    requires GroupOK(gr)
    ensures var d := Response(gr, r, x, c);
            (Powm(Gel(gr, a), d, gr.p) * Powm(Gel(gr, a * x), c, gr.p)) % gr.p == Gel(gr, a * r)
  {
    var d := Response(gr, r, x, c);
    GelPow(gr, a, d);
    GelPow(gr, a * x, c);
    GelMul(gr, a * d, a * x * c);
    var k := ResponseCong(gr, r, x, c);
    OpenAlgebra(a, r, x, c, d, k, gr.q);
    GelCong(gr, a * d + a * x * c, a * r, a * k);
  }

  lemma OpenAlgebra(a: int, r: int, x: int, c: int, d: int, k: int, q: int)
    requires d == r - x * c + k * q
    ensures a * d + a * x * c == a * r + (a * k) * q
  {
    calc {
      a * d;
      { MulDistr(r - x * c, k * q, a); }
      a * (r - x * c) + a * (k * q);
      { MulDistr(r, -(x * c), a); MulAssoc3(k, q, a); }
      a * r + a * (-(x * c)) + (k * a) * q;
    }
    assert a * (-(x * c)) == -(a * x * c);
  }

  lemma KnowLogComplete(gr: Group, h: Hash, x: nat, r: nat, version: nat)
    requires GroupOK(gr)
    ensures var (c, d) := ProveKnowLog(gr, h, gr.g, x, r, version);
            KnowsLog(gr, h, c, d, gr.g, Powm(gr.g, x, gr.p), version)
  {
    var (c, d) := ProveKnowLog(gr, h, gr.g, x, r, version);
    GelZeroOne(gr);
    GelNat(gr, x);
    GelNat(gr, r);
    ResponseOpens(gr, 1, r, x, c);
  }

  // P and Q of a state whose generators are g2 = Gel(e2), g3 = Gel(e3)
  lemma PickPQExponents(gr: Group, st: State, e2: nat, e3: nat, r: nat)
    requires GroupOK(gr) && st.g1 == Some(gr.g) && st.g2 == Gel(gr, e2) && st.g3 == Gel(gr, e3)
    ensures PickPQ(gr, st, r).p == Gel(gr, e3 * r)
    ensures PickPQ(gr, st, r).q == Gel(gr, r + e2 * st.secret)
  {
    GelPow(gr, e3, r);
    GelNat(gr, r);
    GelPow(gr, e2, st.secret);
    GelMul(gr, r, e2 * st.secret);
  }

  lemma EqualCoordsComplete(gr: Group, h: Hash, prover: State, verifier: State, e2: nat, e3: nat, r: nat, r1: nat, r2: nat, version: nat)
    requires GroupOK(gr) && prover.g1 == verifier.g1 == Some(gr.g)
    requires prover.g2 == verifier.g2 == Gel(gr, e2) && prover.g3 == verifier.g3 == Gel(gr, e3)
    ensures var (c, d1, d2) := ProveEqualCoords(gr, h, prover, r, r1, r2, version);
            EqualCoords(gr, h, c, d1, d2, Gel(gr, e3 * r), Gel(gr, r + e2 * prover.secret), verifier, version)
  {
    var (c, d1, d2) := ProveEqualCoords(gr, h, prover, r, r1, r2, version);
    ResponseOpens(gr, e3, r1, r, c);
    GelPow(gr, e3, r1);
    CoordsOpen(gr, e2, r, r1, r2, prover.secret, c);
    GelNat(gr, r1);
    GelPow(gr, e2, r2);
    GelMul(gr, r1, e2 * r2);
  }

  lemma CoordsOpen(gr: Group, e2: nat, r: nat, r1: nat, r2: nat, s: nat, c: nat)
    requires GroupOK(gr)
    ensures var d1, d2 := Response(gr, r1, r, c), Response(gr, r2, s, c);
            (Powm(Gel(gr, r + e2 * s), c, gr.p) * ((Powm(gr.g, d1, gr.p) * Powm(Gel(gr, e2), d2, gr.p)) % gr.p)) % gr.p
            == Gel(gr, r1 + e2 * r2)
  {
    var d1, d2 := Response(gr, r1, r, c), Response(gr, r2, s, c);
    GelNat(gr, d1);
    GelPow(gr, e2, d2);
    GelMul(gr, d1, e2 * d2);
    GelPow(gr, r + e2 * s, c);
    GelMul(gr, (r + e2 * s) * c, d1 + e2 * d2);
    var k1 := ResponseCong(gr, r1, r, c);
    var k2 := ResponseCong(gr, r2, s, c);
    var k := CoordsAlgebra(e2, r, r1, r2, s, c, d1, d2, k1, k2, gr.q);
    GelCong(gr, (r + e2 * s) * c + (d1 + e2 * d2), r1 + e2 * r2, k);
  }

  lemma CoordsAlgebra(e2: int, r: int, r1: int, r2: int, s: int, c: int, d1: int, d2: int, k1: int, k2: int, q: int) returns (k: int)
    requires d1 == r1 - r * c + k1 * q && d2 == r2 - s * c + k2 * q
    ensures (r + e2 * s) * c + (d1 + e2 * d2) == r1 + e2 * r2 + k * q
  {
    k := k1 + e2 * k2;
    OpenAlgebra(e2, r2, s, c, d2, k2, q);
    MulDistr(r, e2 * s, c);
    MulDistr(k1, e2 * k2, q);
  }

  lemma EqualLogsComplete(gr: Group, h: Hash, prover: State, verifier: State, w: int, r: nat, version: nat)
    requires GroupOK(gr) && prover.g1 == verifier.g1 == Some(gr.g)
    requires prover.qab == verifier.qab == Gel(gr, w)
    requires verifier.g3o == Gel(gr, prover.x3)
    ensures var (c, d) := ProveEqualLogs(gr, h, prover, r, version);
            EqualLogs(gr, h, c, d, Powm(prover.qab, prover.x3, gr.p), verifier, version)
  {
    var (c, d) := ProveEqualLogs(gr, h, prover, r, version);
    GelZeroOne(gr);
    GelNat(gr, r);
    ResponseOpens(gr, 1, r, prover.x3, c);
    ResponseOpens(gr, w, r, prover.x3, c);
    GelPow(gr, w, r);
    GelPow(gr, w, prover.x3);
  }

  // ---------------------------------------------------------- the quotients

  lemma DivideExponents(gr: Group, st: State, ea: int, eb: int, fa: int, fb: int)
    requires GroupOK(gr)
    ensures var st' := Divide(gr, st, Gel(gr, ea), Gel(gr, eb), Gel(gr, fa), Gel(gr, fb));
            st'.pab == Gel(gr, ea - eb) && st'.qab == Gel(gr, fa - fb)
  {
    GelInv(gr, eb);
    GelMul(gr, ea, -eb);
    GelInv(gr, fb);
    GelMul(gr, fa, -fb);
  }

  // A group element other than the neutral one has an exponent prime to q.
  lemma ElementExponent(gr: Group, e: nat)
    requires GroupOK(gr) && GroupElem(gr, Gel(gr, e))
    ensures e % gr.q != 0
  {
    GelZeroOne(gr);
    if e % gr.q == 0 {
      GelEqual(gr, e, 0);
    }
  }

  lemma NonzeroProduct(q: nat, a: int, b: int)
    requires Prime(q) && a % q != 0 && b % q != 0
    ensures (a * b) % q != 0
  {
    if (a * b) % q == 0 {
      PrimeDividesProduct(q, a, b);
    }
  }

  // The comparison Rab == Pa/Pb, entirely in exponents: both sides agree
  // exactly when the secrets are equal.
  lemma VerdictExponents(gr: Group, e2: nat, e3: nat, ra: nat, rb: nat, x: nat, y: nat)
    requires GroupOK(gr) && e2 % gr.q != 0 && e3 % gr.q != 0 && x < gr.q && y < gr.q
    ensures Gel(gr, QuotientExponent(e2, ra, rb, x, y) * e3) == Gel(gr, e3 * ra - e3 * rb) <==> x == y
  {
    var w := QuotientExponent(e2, ra, rb, x, y);
    VerdictAlgebra(e2, e3, ra, rb, x, y);
    GelEqual(gr, w * e3, e3 * ra - e3 * rb);
    if x != y {
      NonzeroProduct(gr.q, e3, e2);
      SmallDifference(gr.q, x, y);
      NonzeroProduct(gr.q, e3 * e2, x - y);
    }
  }

  // The exponent of Qa/Qb.
  function QuotientExponent(e2: int, ra: int, rb: int, x: int, y: int): int
  {
    (ra + e2 * x) - (rb + e2 * y)
  }

  lemma VerdictAlgebra(e2: int, e3: int, ra: int, rb: int, x: int, y: int)
    ensures QuotientExponent(e2, ra, rb, x, y) * e3 - (e3 * ra - e3 * rb) == (e3 * e2) * (x - y)
    ensures x == y ==> (e3 * e2) * (x - y) == 0
  {
    assert e2 * x - e2 * y == e2 * (x - y);
    MulDistr(ra - rb, e2 * (x - y), e3);
    MulDistr(ra, -rb, e3);
    assert e3 * (e2 * (x - y)) == (e3 * e2) * (x - y);
  }

  lemma SmallDifference(q: nat, x: nat, y: nat)
    requires x < q && y < q && x != y
    ensures (x - y) % q != 0
  {
    if x > y {
      ModSmall(x - y, q);
    } else {
      ModSmall(x - y + q, q);
      ModAddMultiple(x - y, 1, q);
    }
  }

  // ------------------------------------------------------------ honest runs

  // Both sides follow the code; everything random is an argument.
  datatype Coins = Coins(alice: Rnd1, bobX2: nat, bobX3: nat, bob: Rnd2, alice3: Rnd3, bob4: nat)

  datatype Outcome = Rejected | Verdicts(bob: Prog, alice: Prog)

  // The messages that were sent, in order, and how the run ended: Rejected
  // means the last message in the list was refused by its receiver.
  datatype Transcript = Transcript(sent: seq<seq<nat>>, outcome: Outcome)

  function HonestRun(gr: Group, h: Hash, a0: State, b0: State, x: nat, y: nat, question: bool, coins: Coins): Transcript
    requires Usable(gr)
  {
    var (a1, m1) := Step1(gr, h, a0, x, coins.alice);
    var (b1, ok) := Step2a(gr, h, b0, SerializedMpis(m1), question, coins.bobX2, coins.bobX3);
    if !ok then Transcript([m1], Rejected) else
      var (b2, m2) := Step2b(gr, h, b1, y, coins.bob);
      RunFromMessage2(gr, h, a1, b2, m1, m2, coins)
  }

  function RunFromMessage2(gr: Group, h: Hash, a1: State, b2: State, m1: seq<nat>, m2: seq<nat>, coins: Coins): Transcript
    requires Usable(gr) && a1.g1.Some? && b2.g1.Some?
  {
    var (a2, m3) := Step3(gr, h, a1, SerializedMpis(m2), coins.alice3);
    if m3.None? then Transcript([m1, m2], Rejected) else
      RunFromMessage3(gr, h, a2, b2, m1, m2, m3.value, coins)
  }

  function RunFromMessage3(gr: Group, h: Hash, a2: State, b2: State, m1: seq<nat>, m2: seq<nat>, m3: seq<nat>, coins: Coins): Transcript
    requires Usable(gr) && a2.g1.Some? && b2.g1.Some?
  {
    var (b3, m4) := Step4(gr, h, b2, SerializedMpis(m3), coins.bob4);
    if m4.None? then Transcript([m1, m2, m3], Rejected) else
      var a3 := Step5(gr, h, a2, SerializedMpis(m4.value));
      Transcript([m1, m2, m3, m4.value],
                 if a3.prog == Cheated then Rejected else Verdicts(b3.prog, a3.prog))
  }

  // A state that has not started, or has been initialised with the generator.
  predicate Ready(gr: Group, st: State)
  {
    st.g1 == None || st.g1 == Some(gr.g)
  }

  // Group elements and digests fit the 32-bit length field of an MPI.
  ghost predicate Sized(gr: Group, h: Hash)
  {
    && gr.q < gr.p
    && Printable(gr.p)
    && forall v, a, b :: Printable(h(v, a, b))
  }

  // A message of group elements, exponents and digests survives the wire.
  lemma SurvivesWire(gr: Group, h: Hash, m: seq<nat>)
    requires Sized(gr, h) && |m| < TWO32
    requires forall v :: v in m ==> v < gr.p || Printable(v)
    ensures UnserializedMpis(SerializedMpis(m), |m|) == Some(m)
  {
    forall v | v in m ensures Printable(v) {
      if v < gr.p {
        MpiMonotone(v, gr.p);
      }
    }
    SerializeRoundTrip(m, []);
    assert SerializedMpis(m) + [] == SerializedMpis(m);
  }

  // What Alice or Bob holds once both generators are set: g2 = g^e2, g3 = g^e3
  // and the peer's half of g3.
  ghost predicate Keyed(gr: Group, st: State, e2: nat, e3: nat, peer3: nat)
    requires GroupOK(gr)
  {
    && st.g1 == Some(gr.g)
    && st.g2 == Gel(gr, e2)
    && st.g3 == Gel(gr, e3)
    && st.g3o == Gel(gr, peer3)
  }

  // A state that also holds P, Q for its random r and secret.
  ghost predicate Committed(gr: Group, st: State, e2: nat, e3: nat, peer3: nat, r: nat)
    requires GroupOK(gr)
  {
    && Keyed(gr, st, e2, e3, peer3)
    && st.p == Gel(gr, e3 * r)
    && st.q == Gel(gr, r + e2 * st.secret)
  }

  // Bob's message as Alice will find it: the generators' halves a2, a3 are hers,
  // b2, b3 his, and e2, e3 are the exponents of the combined generators.
  ghost predicate GoodMessage2(gr: Group, h: Hash, b: State, m: seq<nat>, b2: nat, b3: nat, e2: nat, e3: nat, coins: Rnd2)
    requires GroupOK(gr)
  {
    && b.g1 == Some(gr.g) && b.g2 == Gel(gr, e2) && b.g3 == Gel(gr, e3)
    && |m| == MSG2_LEN
    && m[0] == Gel(gr, b2) && m[3] == Gel(gr, b3)
    && m[6] == b.p == Gel(gr, e3 * coins.r) && m[7] == b.q == Gel(gr, coins.r + e2 * b.secret)
    && KnowsLog(gr, h, m[1], m[2], gr.g, m[0], 3) && KnowsLog(gr, h, m[4], m[5], gr.g, m[3], 4)
    && (m[8], m[9], m[10]) == ProveEqualCoords(gr, h, b, coins.r, coins.r5, coins.r6, 5)
  }

  // Pa/Pb and Qa/Qb as both sides must compute them.
  ghost predicate Quotients(gr: Group, st: State, e2: nat, e3: nat, ra: nat, rb: nat, x: nat, y: nat)
    requires GroupOK(gr)
  {
    && st.pab == Gel(gr, e3 * ra - e3 * rb)
    && st.qab == Gel(gr, QuotientExponent(e2, ra, rb, x, y))
  }

  // Alice's second message as Bob will find it: e3 = u * b.x3.
  ghost predicate GoodMessage3(gr: Group, h: Hash, a3: State, b: State, m3: seq<nat>, x: nat, e2: nat, u: nat, ra: nat, rb: nat)
    requires GroupOK(gr)
  {
    && b.g1 == a3.g1 == Some(gr.g) && a3.g3o == Gel(gr, b.x3) && a3.x3 == u
    && b.p == Gel(gr, (u * b.x3) * rb) && b.q == Gel(gr, rb + e2 * b.secret)
    && |m3| == MSG3_LEN
    && m3[0] == Gel(gr, (u * b.x3) * ra) && m3[1] == Gel(gr, ra + e2 * x)
    && Quotients(gr, a3, e2, u * b.x3, ra, rb, x, b.secret)
    && m3[5] == Powm(a3.qab, u, gr.p)
    && EqualCoords(gr, h, m3[2], m3[3], m3[4], m3[0], m3[1], b, 6)
    && EqualLogs(gr, h, m3[6], m3[7], m3[5], Divide(gr, b, m3[0], b.p, m3[1], b.q), 7)
  }

  lemma Message1(gr: Group, h: Hash, a0: State, x: nat, coins: Rnd1)
    requires GroupOK(gr) && Ready(gr, a0)
    ensures var (a1, m1) := Step1(gr, h, a0, x, coins);
            && a1.g1 == Some(gr.g) && a1.secret == x && a1.x2 == coins.x2 && a1.x3 == coins.x3
            && m1[0] == Gel(gr, coins.x2) && m1[3] == Gel(gr, coins.x3)
            && KnowsLog(gr, h, m1[1], m1[2], gr.g, m1[0], 1)
            && KnowsLog(gr, h, m1[4], m1[5], gr.g, m1[3], 2)
  {
    GelNat(gr, coins.x2);
    GelNat(gr, coins.x3);
    KnowLogComplete(gr, h, coins.x2, coins.r2, 1);
    KnowLogComplete(gr, h, coins.x3, coins.r3, 2);
  }

  lemma Message1OnWire(gr: Group, h: Hash, a0: State, x: nat, coins: Rnd1)
    requires Usable(gr) && Sized(gr, h)
    ensures var m1 := Step1(gr, h, a0, x, coins).1;
            UnserializedMpis(SerializedMpis(m1), MSG1_LEN) == Some(m1)
  {
    SurvivesWire(gr, h, Step1(gr, h, a0, x, coins).1);
  }

  lemma Bob1(gr: Group, h: Hash, b0: State, m1: seq<nat>, question: bool, a2: nat, a3: nat, b2: nat, b3: nat, e2: nat, e3: nat)
    requires GroupOK(gr) && Ready(gr, b0) && |m1| == MSG1_LEN && e2 == a2 * b2 && e3 == a3 * b3
    requires UnserializedMpis(SerializedMpis(m1), MSG1_LEN) == Some(m1)
    requires m1[0] == Gel(gr, a2) && m1[3] == Gel(gr, a3)
    requires KnowsLog(gr, h, m1[1], m1[2], gr.g, m1[0], 1) && KnowsLog(gr, h, m1[4], m1[5], gr.g, m1[3], 2)
    ensures var (b1, ok) := Step2a(gr, h, b0, SerializedMpis(m1), question, b2, b3);
            && ok == InRange1(gr, m1)
            && (ok ==> Keyed(gr, b1, e2, e3, a3) && b1.x2 == b2 && b1.x3 == b3)
  {
    GelPow(gr, a2, b2);
    GelPow(gr, a3, b3);
  }

  lemma Message2(gr: Group, h: Hash, b1: State, y: nat, e2: nat, e3: nat, a3: nat, coins: Rnd2)
    requires GroupOK(gr) && Keyed(gr, b1, e2, e3, a3)
    ensures var (b2, m2) := Step2b(gr, h, b1, y, coins);
            && Committed(gr, b2, e2, e3, a3, coins.r) && b2.secret == y && b2.x3 == b1.x3
            && GoodMessage2(gr, h, b2, m2, b1.x2, b1.x3, e2, e3, coins)
  {
    var (b2, m2) := Step2b(gr, h, b1, y, coins);
    GelNat(gr, b1.x2);
    GelNat(gr, b1.x3);
    KnowLogComplete(gr, h, b1.x2, coins.r2, 3);
    KnowLogComplete(gr, h, b1.x3, coins.r3, 4);
    PickPQExponents(gr, b1.(secret := y), e2, e3, coins.r);
  }

  lemma Message2OnWire(gr: Group, h: Hash, b1: State, y: nat, coins: Rnd2)
    requires Usable(gr) && Sized(gr, h) && b1.g1.Some?
    ensures var m2 := Step2b(gr, h, b1, y, coins).1;
            UnserializedMpis(SerializedMpis(m2), MSG2_LEN) == Some(m2)
  {
    SurvivesWire(gr, h, Step2b(gr, h, b1, y, coins).1);
  }

  // Alice accepts Bob's message exactly when it is in range.
  lemma Alice3Checks(gr: Group, h: Hash, a1: State, b: State, m2: seq<nat>, e2: nat, e3: nat, b2: nat, b3: nat, coins: Rnd2)
    requires GroupOK(gr) && GoodMessage2(gr, h, b, m2, b2, b3, e2, e3, coins)
    requires a1.g1 == Some(gr.g) && e2 == a1.x2 * b2 && e3 == a1.x3 * b3
    ensures var (a2, ok) := CheckMsg2(gr, h, a1.(prog := Cheated), m2);
            && ok && Keyed(gr, a2, e2, e3, b3)
            && a2.secret == a1.secret && a2.x2 == a1.x2 && a2.x3 == a1.x3
  {
    GelPow(gr, b2, a1.x2);
    GelPow(gr, b3, a1.x3);
    var a2 := a1.(prog := Cheated, g3o := m2[3], g2 := Gel(gr, e2), g3 := Gel(gr, e3));
    EqualCoordsComplete(gr, h, b, a2, e2, e3, coins.r, coins.r5, coins.r6, 5);
  }

  lemma Message3(gr: Group, h: Hash, a2: State, pb: nat, qb: nat, e2: nat, e3: nat, b3: nat, rb: nat, y: nat, coins: Rnd3)
    requires GroupOK(gr) && Keyed(gr, a2, e2, e3, b3)
    requires pb == Gel(gr, e3 * rb) && qb == Gel(gr, rb + e2 * y)
    ensures var (a3, m3) := ReplyMsg2(gr, h, a2, pb, qb, coins);
            && Quotients(gr, a3, e2, e3, coins.r, rb, a2.secret, y)
            && a3.g1 == Some(gr.g) && a3.g3o == Gel(gr, b3) && a3.x3 == a2.x3 && a3.prog == Ok
            && m3[0] == Gel(gr, e3 * coins.r) && m3[1] == Gel(gr, coins.r + e2 * a2.secret)
            && m3[5] == Powm(a3.qab, a3.x3, gr.p)
  {
    var a' := PickPQ(gr, a2, coins.r);
    PickPQExponents(gr, a2, e2, e3, coins.r);
    DivideExponents(gr, a', e3 * coins.r, e3 * rb, coins.r + e2 * a2.secret, rb + e2 * y);
  }

  lemma Message3OnWire(gr: Group, h: Hash, a2: State, pb: nat, qb: nat, coins: Rnd3)
    requires Usable(gr) && Sized(gr, h) && a2.g1.Some?
    ensures var m3 := ReplyMsg2(gr, h, a2, pb, qb, coins).1;
            UnserializedMpis(SerializedMpis(m3), MSG3_LEN) == Some(m3)
  {
    SurvivesWire(gr, h, ReplyMsg2(gr, h, a2, pb, qb, coins).1);
  }

  // The proofs in Alice's second message, checked by Bob.
  lemma Message3Proofs(gr: Group, h: Hash, a2: State, pb: nat, qb: nat, e2: nat, e3: nat, b3: nat, coins: Rnd3, bob: State, w: int)
    requires GroupOK(gr) && Keyed(gr, a2, e2, e3, b3)
    requires bob.g1 == Some(gr.g) && bob.g2 == Gel(gr, e2) && bob.g3 == Gel(gr, e3)
    ensures var (a3, m3) := ReplyMsg2(gr, h, a2, pb, qb, coins);
            EqualCoords(gr, h, m3[2], m3[3], m3[4], Gel(gr, e3 * coins.r), Gel(gr, coins.r + e2 * a2.secret), bob, 6)
    ensures var (a3, m3) := ReplyMsg2(gr, h, a2, pb, qb, coins);
            a3.qab == bob.qab == Gel(gr, w) && bob.g3o == Gel(gr, a2.x3) ==>
              EqualLogs(gr, h, m3[6], m3[7], m3[5], bob, 7)
  {
    var (a3, m3) := ReplyMsg2(gr, h, a2, pb, qb, coins);
    EqualCoordsComplete(gr, h, PickPQ(gr, a2, coins.r), bob, e2, e3, coins.r, coins.r5, coins.r6, 6);
    if a3.qab == bob.qab == Gel(gr, w) && bob.g3o == Gel(gr, a2.x3) {
      EqualLogsComplete(gr, h, a3, bob, w, coins.r7, 7);
    }
  }

  // Two rounds of exponentiation, in either order, decide the comparison.
  lemma ComparisonDecides(gr: Group, st: State, e2: nat, u: nat, v: nat, ra: nat, rb: nat, x: nat, y: nat)
    requires GroupOK(gr) && e2 % gr.q != 0 && u % gr.q != 0 && v % gr.q != 0 && x < gr.q && y < gr.q
    requires Quotients(gr, st, e2, u * v, ra, rb, x, y)
    ensures Powm(Powm(st.qab, u, gr.p), v, gr.p) == st.pab <==> x == y
    ensures Powm(Powm(st.qab, v, gr.p), u, gr.p) == st.pab <==> x == y
  {
    var w := QuotientExponent(e2, ra, rb, x, y);
    GelPow(gr, w, u);
    GelPow(gr, w * u, v);
    GelPow(gr, w, v);
    GelPow(gr, w * v, u);
    MulAssoc(w, u, v);
    NonzeroProduct(gr.q, u, v);
    VerdictExponents(gr, e2, u * v, ra, rb, x, y);
  }

  lemma MulAssoc(w: int, u: int, v: int)
    ensures w * u * v == w * (u * v) && w * v * u == w * (u * v)
  {
  }

  // Bob's last step, on a message Alice built from the same generators.
  lemma Bob4(gr: Group, h: Hash, b2: State, a3: State, m3: seq<nat>, e2: nat, u: nat, ra: nat, rb: nat, x: nat, r8: nat)
    requires GroupOK(gr) && GoodMessage3(gr, h, a3, b2, m3, x, e2, u, ra, rb)
    requires e2 % gr.q != 0 && u % gr.q != 0 && b2.x3 % gr.q != 0 && x < gr.q && b2.secret < gr.q
    ensures var (b3, m4) := AcceptMsg3(gr, h, b2, m3, r8);
            && b3.prog == (if x == b2.secret then Succeeded else Failed)
            && m4.Some? && m4.value[0] == Powm(a3.qab, b2.x3, gr.p)
            && EqualLogs(gr, h, m4.value[1], m4.value[2], m4.value[0], a3, 8)
  {
    var b := Divide(gr, b2, m3[0], b2.p, m3[1], b2.q);
    DivideExponents(gr, b2, (u * b2.x3) * ra, (u * b2.x3) * rb, ra + e2 * x, rb + e2 * b2.secret);
    ComparisonDecides(gr, b, e2, u, b2.x3, ra, rb, x, b2.secret);
    EqualLogsComplete(gr, h, b, a3, QuotientExponent(e2, ra, rb, x, b2.secret), r8, 8);
  }

  lemma Message4OnWire(gr: Group, h: Hash, b2: State, m3: seq<nat>, r8: nat)
    requires Usable(gr) && Sized(gr, h) && b2.g1.Some? && |m3| == MSG3_LEN
    ensures var m4 := AcceptMsg3(gr, h, b2, m3, r8).1;
            m4.Some? ==> UnserializedMpis(SerializedMpis(m4.value), MSG4_LEN) == Some(m4.value)
  {
    var m4 := AcceptMsg3(gr, h, b2, m3, r8).1;
    if m4.Some? {
      SurvivesWire(gr, h, m4.value);
    }
  }

  lemma Alice5(gr: Group, h: Hash, a2: State, m4: seq<nat>, e2: nat, v: nat, ra: nat, rb: nat, x: nat, y: nat)
    requires GroupOK(gr) && |m4| == MSG4_LEN && a2.g1 == Some(gr.g)
    requires e2 % gr.q != 0 && a2.x3 % gr.q != 0 && v % gr.q != 0 && x < gr.q && y < gr.q
    requires Quotients(gr, a2, e2, a2.x3 * v, ra, rb, x, y)
    requires m4[0] == Powm(a2.qab, v, gr.p) && EqualLogs(gr, h, m4[1], m4[2], m4[0], a2, 8)
    requires UnserializedMpis(SerializedMpis(m4), MSG4_LEN) == Some(m4)
    ensures Step5(gr, h, a2, SerializedMpis(m4)).prog ==
            if !InRange4(gr, m4) then Cheated else if x == y then Succeeded else Failed
  {
    ComparisonDecides(gr, a2, e2, a2.x3, v, ra, rb, x, y);
  }

  // The k-th message passes the range checks of the step that receives it.
  predicate InRange(gr: Group, k: nat, m: seq<nat>)
  {
    match k
    case 0 => |m| == MSG1_LEN && InRange1(gr, m)
    case 1 => |m| == MSG2_LEN && InRange2(gr, m)
    case 2 => |m| == MSG3_LEN && InRange3(gr, m)
    case _ => |m| == MSG4_LEN && InRange4(gr, m)
  }

  lemma First(gr: Group, h: Hash, a0: State, b0: State, x: nat, question: bool, coins: Coins, e2: nat, e3: nat)
    requires GroupOK(gr) && Sized(gr, h) && Ready(gr, a0) && Ready(gr, b0)
    requires e2 == coins.alice.x2 * coins.bobX2 && e3 == coins.alice.x3 * coins.bobX3
    ensures var (a1, m1) := Step1(gr, h, a0, x, coins.alice);
            var (b1, ok) := Step2a(gr, h, b0, SerializedMpis(m1), question, coins.bobX2, coins.bobX3);
            && ok == InRange1(gr, m1)
            && a1.g1 == Some(gr.g) && a1.secret == x && a1.x2 == coins.alice.x2 && a1.x3 == coins.alice.x3
            && (ok ==> Keyed(gr, b1, e2, e3, coins.alice.x3) && b1.x2 == coins.bobX2 && b1.x3 == coins.bobX3
                       && coins.alice.x2 % gr.q != 0 && coins.alice.x3 % gr.q != 0)
  {
    var (a1, m1) := Step1(gr, h, a0, x, coins.alice);
    Message1(gr, h, a0, x, coins.alice);
    Message1OnWire(gr, h, a0, x, coins.alice);
    Bob1(gr, h, b0, m1, question, coins.alice.x2, coins.alice.x3, coins.bobX2, coins.bobX3, e2, e3);
    if InRange1(gr, m1) {
      ElementExponent(gr, coins.alice.x2);
      ElementExponent(gr, coins.alice.x3);
    }
  }

  lemma Third(gr: Group, h: Hash, a1: State, b: State, m2: seq<nat>, b2: nat, b3: nat, e2: nat, e3: nat, coins: Rnd2, rnd: Rnd3)
    requires GroupOK(gr) && GoodMessage2(gr, h, b, m2, b2, b3, e2, e3, coins)
    requires UnserializedMpis(SerializedMpis(m2), MSG2_LEN) == Some(m2)
    requires a1.g1 == Some(gr.g) && e2 == a1.x2 * b2 && e3 == a1.x3 * b3
    ensures Step3(gr, h, a1, SerializedMpis(m2), rnd).1.Some? == InRange2(gr, m2)
    ensures InRange2(gr, m2) ==>
              var (a2, ok) := CheckMsg2(gr, h, a1.(prog := Cheated), m2);
              var (a3, m3) := ReplyMsg2(gr, h, a2, m2[6], m2[7], rnd);
              && Step3(gr, h, a1, SerializedMpis(m2), rnd) == (a3, Some(m3))
              && Keyed(gr, a2, e2, e3, b3) && a2.secret == a1.secret && a2.x3 == a1.x3
              && b2 % gr.q != 0 && b3 % gr.q != 0
  {
    Alice3Checks(gr, h, a1, b, m2, e2, e3, b2, b3, coins);
    if InRange2(gr, m2) {
      ElementExponent(gr, b2);
      ElementExponent(gr, b3);
    }
  }

  lemma ThirdIsGood(gr: Group, h: Hash, a2: State, b: State, e2: nat, e3: nat, rb: nat, rnd: Rnd3)
    requires GroupOK(gr) && Keyed(gr, a2, e2, e3, b.x3) && Committed(gr, b, e2, e3, a2.x3, rb)
    requires e3 == a2.x3 * b.x3
    ensures var (a3, m3) := ReplyMsg2(gr, h, a2, b.p, b.q, rnd);
            GoodMessage3(gr, h, a3, b, m3, a2.secret, e2, a2.x3, rnd.r, rb)
  {
    var (a3, m3) := ReplyMsg2(gr, h, a2, b.p, b.q, rnd);
    var ra, x := rnd.r, a2.secret;
    Message3(gr, h, a2, b.p, b.q, e2, e3, b.x3, rb, b.secret, rnd);
    DivideExponents(gr, b, e3 * ra, e3 * rb, ra + e2 * x, rb + e2 * b.secret);
    var b' := Divide(gr, b, m3[0], b.p, m3[1], b.q);
    var w := QuotientExponent(e2, ra, rb, x, b.secret);
    Message3Proofs(gr, h, a2, b.p, b.q, e2, e3, b.x3, rnd, b, w);
    Message3Proofs(gr, h, a2, b.p, b.q, e2, e3, b.x3, rnd, b', w);
  }

  // How a run must end, given the messages that were sent: the first message
  // out of range is refused, and otherwise both verdicts tell whether the
  // secrets are equal.
  ghost predicate Decided(gr: Group, t: Transcript, x: nat, y: nat)
  {
    && 1 <= |t.sent| <= 4
    && (forall k :: 0 <= k < |t.sent| - 1 ==> InRange(gr, k, t.sent[k]))
    && (t.outcome == Rejected <==> !InRange(gr, |t.sent| - 1, t.sent[|t.sent| - 1]))
    && (t.outcome != Rejected ==>
          && |t.sent| == 4
          && t.outcome.bob == t.outcome.alice == (if x == y then Succeeded else Failed))
  }

  // The last two steps.
  lemma LastTwo(gr: Group, h: Hash, a3: State, b: State, m3: seq<nat>, x: nat, e2: nat, u: nat, ra: nat, rb: nat, r8: nat)
    requires GroupOK(gr) && Sized(gr, h) && GoodMessage3(gr, h, a3, b.(prog := Cheated), m3, x, e2, u, ra, rb)
    requires UnserializedMpis(SerializedMpis(m3), MSG3_LEN) == Some(m3)
    requires e2 % gr.q != 0 && u % gr.q != 0 && b.x3 % gr.q != 0 && x < gr.q && b.secret < gr.q
    ensures var (b', m4) := Step4(gr, h, b, SerializedMpis(m3), r8);
            && m4.Some? == InRange3(gr, m3)
            && (m4.Some? ==>
                  && |m4.value| == MSG4_LEN
                  && b'.prog == (if x == b.secret then Succeeded else Failed)
                  && Step5(gr, h, a3, SerializedMpis(m4.value)).prog ==
                     if !InRange4(gr, m4.value) then Cheated else b'.prog)
  {
    var bc := b.(prog := Cheated);
    Bob4(gr, h, bc, a3, m3, e2, u, ra, rb, x, r8);
    Message4OnWire(gr, h, bc, m3, r8);
    var (b', m4) := AcceptMsg3(gr, h, bc, m3, r8);
    Alice5(gr, h, a3, m4.value, e2, b.x3, ra, rb, x, b.secret);
  }

  lemma FromMessage3(gr: Group, h: Hash, a3: State, b: State, m1: seq<nat>, m2: seq<nat>, m3: seq<nat>,
                     x: nat, e2: nat, u: nat, ra: nat, rb: nat, coins: Coins)
    requires GroupOK(gr) && Sized(gr, h) && GoodMessage3(gr, h, a3, b.(prog := Cheated), m3, x, e2, u, ra, rb)
    requires UnserializedMpis(SerializedMpis(m3), MSG3_LEN) == Some(m3)
    requires e2 % gr.q != 0 && u % gr.q != 0 && b.x3 % gr.q != 0 && x < gr.q && b.secret < gr.q
    requires InRange(gr, 0, m1) && InRange(gr, 1, m2)
    ensures Decided(gr, RunFromMessage3(gr, h, a3, b, m1, m2, m3, coins), x, b.secret)
  {
    LastTwo(gr, h, a3, b, m3, x, e2, u, ra, rb, coins.bob4);
  }

  lemma FromMessage2(gr: Group, h: Hash, a1: State, b: State, m1: seq<nat>, m2: seq<nat>, b2: nat, b3: nat, e2: nat, e3: nat, coins: Coins)
    requires GroupOK(gr) && Sized(gr, h) && GoodMessage2(gr, h, b, m2, b2, b3, e2, e3, coins.bob)
    requires UnserializedMpis(SerializedMpis(m2), MSG2_LEN) == Some(m2)
    requires a1.g1 == Some(gr.g) && e2 == a1.x2 * b2 && e3 == a1.x3 * b3 && b.x3 == b3
    requires Committed(gr, b, e2, e3, a1.x3, coins.bob.r)
    requires a1.x2 % gr.q != 0 && a1.x3 % gr.q != 0 && a1.secret < gr.q && b.secret < gr.q
    requires InRange(gr, 0, m1)
    ensures Decided(gr, RunFromMessage2(gr, h, a1, b, m1, m2, coins), a1.secret, b.secret)
  {
    Third(gr, h, a1, b, m2, b2, b3, e2, e3, coins.bob, coins.alice3);
    NonzeroExponent(gr.q, a1.x2, b2, e2);
    if InRange2(gr, m2) {
      var (a2, ok) := CheckMsg2(gr, h, a1.(prog := Cheated), m2);
      AfterChecks(gr, h, a2, b, m1, m2, e2, e3, coins);
    }
  }

  lemma NonzeroExponent(q: nat, a: nat, b: nat, e: nat)
    requires Prime(q) && e == a * b
    ensures a % q != 0 && b % q != 0 ==> e % q != 0
  {
    if a % q != 0 && b % q != 0 {
      NonzeroProduct(q, a, b);
    }
  }

  lemma AfterChecks(gr: Group, h: Hash, a2: State, b: State, m1: seq<nat>, m2: seq<nat>, e2: nat, e3: nat, coins: Coins)
    requires GroupOK(gr) && Sized(gr, h) && |m2| == MSG2_LEN && m2[6] == b.p && m2[7] == b.q
    requires Keyed(gr, a2, e2, e3, b.x3) && Committed(gr, b, e2, e3, a2.x3, coins.bob.r) && e3 == a2.x3 * b.x3
    requires e2 % gr.q != 0 && a2.x3 % gr.q != 0 && b.x3 % gr.q != 0 && a2.secret < gr.q && b.secret < gr.q
    requires InRange(gr, 0, m1) && InRange(gr, 1, m2)
    ensures var (a3, m3) := ReplyMsg2(gr, h, a2, m2[6], m2[7], coins.alice3);
            && a3.g1.Some?
            && Decided(gr, RunFromMessage3(gr, h, a3, b, m1, m2, m3, coins), a2.secret, b.secret)
  {
    var (a3, m3) := ReplyMsg2(gr, h, a2, m2[6], m2[7], coins.alice3);
    ThirdIsGood(gr, h, a2, b.(prog := Cheated), e2, e3, coins.bob.r, coins.alice3);
    Message3OnWire(gr, h, a2, m2[6], m2[7], coins.alice3);
    FromMessage3(gr, h, a3, b, m1, m2, m3, a2.secret, e2, a2.x3, coins.alice3.r, coins.bob.r, coins);
  }

  // Every honest run is decided: for all secrets below the group order, all
  // random exponents and every hash, each zero-knowledge check accepts, both
  // sides reach the same verdict, and the verdict is that the secrets are equal
  // exactly when they are.
  lemma HonestRunDecides(gr: Group, h: Hash, a0: State, b0: State, x: nat, y: nat, question: bool, coins: Coins)
    requires GroupOK(gr) && Sized(gr, h) && Ready(gr, a0) && Ready(gr, b0)
    requires x < gr.q && y < gr.q
    ensures Decided(gr, HonestRun(gr, h, a0, b0, x, y, question, coins), x, y)
  {
    var e2, e3 := coins.alice.x2 * coins.bobX2, coins.alice.x3 * coins.bobX3;
    First(gr, h, a0, b0, x, question, coins, e2, e3);
    var (a1, m1) := Step1(gr, h, a0, x, coins.alice);
    var (b1, ok) := Step2a(gr, h, b0, SerializedMpis(m1), question, coins.bobX2, coins.bobX3);
    if ok {
      Message2(gr, h, b1, y, e2, e3, coins.alice.x3, coins.bob);
      Message2OnWire(gr, h, b1, y, coins.bob);
      var (b2, m2) := Step2b(gr, h, b1, y, coins.bob);
      FromMessage2(gr, h, a1, b2, m1, m2, coins.bobX2, coins.bobX3, e2, e3, coins);
    }
  }
}
