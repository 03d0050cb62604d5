// What the zero-knowledge checks of the protocol reject: a check accepts the prover's
// commitment with one response only, the one the prover computes from its exponent, unless
// the other response is a collision of the hash.
module SmpChecks {
  import opened Bytes
  import opened ModArith
  import opened Group
  import opened Smp
  import opened SmpProofs

  // Two different commitments hashed alike
  predicate Collision(h: Hash, version: nat, a: (nat, Option<nat>), b: (nat, Option<nat>))
  {
    a != b && h(version, a.0, a.1) == h(version, b.0, b.1)
  }

  // Over a base other than the neutral element, different exponents below the order
  // give different elements, also after a fixed factor.
  lemma ExponentUnique(gr: Group, a: int, k: int, d: nat, d0: nat)
    requires GroupOK(gr) && a % gr.q != 0 && d < gr.q && d0 < gr.q
    requires (Powm(Gel(gr, a), d, gr.p) * Gel(gr, k)) % gr.p == (Powm(Gel(gr, a), d0, gr.p) * Gel(gr, k)) % gr.p
    ensures d == d0
  {
    GelPow(gr, a, d);
    GelPow(gr, a, d0);
    var e, e0 := a * d, a * d0;
    GelMul(gr, e, k);
    GelMul(gr, e0, k);
    GelEqual(gr, e + k, e0 + k);
    ProductsDiffer(gr.q, a, d, d0, e, e0);
  }

  lemma Scale(a: int, d: int, d0: int)
    ensures a * (d - d0) == a * d - a * d0
  {
  }

  lemma ProductsDiffer(q: nat, a: int, d: nat, d0: nat, e: int, e0: int)
    requires Prime(q) && a % q != 0 && d < q && d0 < q && e == a * d && e0 == a * d0
    ensures (e - e0) % q == 0 ==> d == d0
  {
    Scale(a, d, d0);
    if d != d0 {
      SmallDifference(q, d, d0);
      NonzeroProduct(q, a, d - d0);
    }
  }

  lemma OneNonzero(gr: Group)
    requires GroupOK(gr)
    ensures 1 % gr.q != 0 && Gel(gr, 1) == gr.g
  {
    GelZeroOne(gr);
    ModSmall(1, gr.q);
  }

  lemma KnowLogOnly(gr: Group, h: Hash, x: nat, r: nat, version: nat, d: nat)
    requires GroupOK(gr) && d < gr.q
    ensures var (c, d0) := ProveKnowLog(gr, h, gr.g, x, r, version); var y := Powm(gr.g, x, gr.p);
            KnowsLog(gr, h, c, d, gr.g, y, version)
            <==> d == d0 || Collision(h, version, (KnowLogTag(gr, c, d, gr.g, y), None), (KnowLogTag(gr, c, d0, gr.g, y), None))
  {
    var (c, d0) := ProveKnowLog(gr, h, gr.g, x, r, version);
    var y := Powm(gr.g, x, gr.p);
    KnowLogComplete(gr, h, x, r, version);
    if KnowLogTag(gr, c, d, gr.g, y) == KnowLogTag(gr, c, d0, gr.g, y) {
      OneNonzero(gr);
      GelNat(gr, x);
      GelPow(gr, x, c);
      ExponentUnique(gr, 1, x * c, d, d0);
    }
  }

  function Both(t: (nat, nat)): (nat, Option<nat>)
  {
    (t.0, Some(t.1))
  }

  lemma EqualLogsOnly(gr: Group, h: Hash, prover: State, verifier: State, w: int, r: nat, version: nat, d: nat)
    requires GroupOK(gr) && prover.g1 == verifier.g1 == Some(gr.g)
    requires prover.qab == verifier.qab == Gel(gr, w) && verifier.g3o == Gel(gr, prover.x3)
    requires d < gr.q
    ensures var (c, d0) := ProveEqualLogs(gr, h, prover, r, version); var y := Powm(prover.qab, prover.x3, gr.p);
            EqualLogs(gr, h, c, d, y, verifier, version)
            <==> d == d0 || Collision(h, version, Both(EqualLogsTag(gr, c, d, y, verifier)), Both(EqualLogsTag(gr, c, d0, y, verifier)))
  {
    var (c, d0) := ProveEqualLogs(gr, h, prover, r, version);
    var y := Powm(prover.qab, prover.x3, gr.p);
    EqualLogsComplete(gr, h, prover, verifier, w, r, version);
    if EqualLogsTag(gr, c, d, y, verifier) == EqualLogsTag(gr, c, d0, y, verifier) {
      OneNonzero(gr);
      GelPow(gr, prover.x3, c);
      ExponentUnique(gr, 1, prover.x3 * c, d, d0);
    }
  }

  lemma EqualCoordsOnly(gr: Group, h: Hash, prover: State, verifier: State, e2: nat, e3: nat, r: nat, r1: nat, r2: nat,
                        version: nat, d1: nat, d2: nat)
    requires GroupOK(gr) && prover.g1 == verifier.g1 == Some(gr.g)
    requires prover.g2 == verifier.g2 == Gel(gr, e2) && prover.g3 == verifier.g3 == Gel(gr, e3)
    requires e2 % gr.q != 0 && e3 % gr.q != 0
    requires d1 < gr.q && d2 < gr.q
    ensures var (c, f1, f2) := ProveEqualCoords(gr, h, prover, r, r1, r2, version);
            var p, q := Gel(gr, e3 * r), Gel(gr, r + e2 * prover.secret);
            EqualCoords(gr, h, c, d1, d2, p, q, verifier, version)
            <==> (d1 == f1 && d2 == f2)
                 || Collision(h, version, Both(EqualCoordsTag(gr, c, d1, d2, p, q, verifier)), Both(EqualCoordsTag(gr, c, f1, f2, p, q, verifier)))
  {
    var (c, f1, f2) := ProveEqualCoords(gr, h, prover, r, r1, r2, version);
    var p, q := Gel(gr, e3 * r), Gel(gr, r + e2 * prover.secret);
    EqualCoordsComplete(gr, h, prover, verifier, e2, e3, r, r1, r2, version);
    if EqualCoordsTag(gr, c, d1, d2, p, q, verifier) == EqualCoordsTag(gr, c, f1, f2, p, q, verifier) {
      GelPow(gr, e3 * r, c);
      ExponentUnique(gr, e3, e3 * r * c, d1, f1);
      SecondUnique(gr, e2, (r + e2 * prover.secret) * c, d1, d2, f2, r + e2 * prover.secret, c);
    }
  }

  // The second coordinate, the first being settled.
  lemma SecondUnique(gr: Group, e2: nat, k: int, d1: nat, d2: nat, f2: nat, e: int, c: nat)
    requires GroupOK(gr) && e2 % gr.q != 0 && d2 < gr.q && f2 < gr.q && k == e * c
    requires (Powm(Gel(gr, e), c, gr.p) * ((Powm(gr.g, d1, gr.p) * Powm(Gel(gr, e2), d2, gr.p)) % gr.p)) % gr.p
          == (Powm(Gel(gr, e), c, gr.p) * ((Powm(gr.g, d1, gr.p) * Powm(Gel(gr, e2), f2, gr.p)) % gr.p)) % gr.p
    ensures d2 == f2
  {
    GelPow(gr, e, c);
    GelNat(gr, d1);
    GelPow(gr, e2, d2);
    GelPow(gr, e2, f2);
    GelMul(gr, d1, e2 * d2);
    GelMul(gr, d1, e2 * f2);
    GelMul(gr, k, d1 + e2 * d2);
    GelMul(gr, k, d1 + e2 * f2);
    GelMul(gr, e2 * d2, k + d1);
    GelMul(gr, e2 * f2, k + d1);
    assert k + (d1 + e2 * d2) == e2 * d2 + (k + d1) && k + (d1 + e2 * f2) == e2 * f2 + (k + d1);
    ExponentUnique(gr, e2, k + d1, d2, f2);
  }
}
