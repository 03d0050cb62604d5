// Special soundness of the three proofs of sm.c: whoever can answer two challenges to one
// commitment holds the exponents, which can be computed from the two answers.
//
// The range check lets every number from 2 to p - 2 through, member of the group or not.
// What two answers prove of an element is that it is a power or the negative of one; that
// its square is in the group at all is Fermat's little theorem.
module SmpSound {
  import opened Bytes
  import opened ModArith
  import opened Group
  import opened Smp
  import opened SmpProofs
  import opened SmpChecks
  import Fermat

  // ----------------------------------------------------------- the extractor

  predicate Cong(q: nat, a: int, b: int)
    requires q > 0
  {
    (a - b) % q == 0
  }

  lemma CongMultiple(q: nat, a: int, b: int) returns (k: int)
    requires q > 0 && Cong(q, a, b)
    ensures a - b == k * q
  {
    k := (a - b) / q;
    ModDivision(a - b, q);
  }

  lemma InverseOf(q: nat, k: nat)
    requires Prime(q) && k % q != 0
    ensures Cong(q, k * Invm(k, q), 1)
  {
    DividesMod(q, k);
    var x, y := Coprime(k, q);
    var k' := CoprimeReduced(k, q, x, y);
    InverseFrom(q, k, x % q, k', k * (x % q));
  }

  lemma InverseFrom(q: nat, k: nat, b: nat, k': int, m: nat)
    requires q > 1 && b < q && m == k * b && 1 == m + k' * q
    ensures Cong(q, k * Invm(k, q), 1)
  {
    ModAddMultiple(m, k', q);
    ModSmall(1, q);
    InvmUnique(k, b, q);
  }

  // (d' - d) / (c - c') modulo q
  function Extracted(q: nat, c: nat, d: nat, c': nat, d': nat): (r: nat)
    requires q > 1
    ensures r < q
  {
    ((d' - d) * Invm((c - c') % q, q)) % q
  }

  // ----------------------------------------------------------------- squares

  // The square of b in place of the generator
  function Squared(gr: Group, b: nat): Group
    requires gr.p > 0
  {
    gr.(g := (b * b) % gr.p)
  }

  lemma NegativeSquare(y: int, p: int)
    ensures (p - y) * (p - y) == y * y + (p - 2 * y) * p
  {
    MulDistr(p, -y, p - y);
    MulDistr(p, -y, y);
    MulDistr(p, -(2 * y), p);
  }

  lemma SquareOfPower(y: nat, e: nat, p: nat)
    requires p > 0
    ensures Powm((y * y) % p, e, p) == (Powm(y, e, p) * Powm(y, e, p)) % p
  {
    PowFirst(y);
    assert Pow(y, 2) == y * Pow(y, 1);
    PowmPowm(y, 2, e, p);
    PowAdd(y, e, e);
    ModMul(Pow(y, e), Pow(y, e), p);
    assert 2 * e == e + e;
  }

  lemma SquareOfProduct(y: nat, z: nat, p: nat)
    requires p > 0
    ensures (((y * z) % p) * ((y * z) % p)) % p == (((y * y) % p) * ((z * z) % p)) % p
  {
    ModMul(y * z, y * z, p);
    ModMul(y * y, z * z, p);
    assert (y * z) * (y * z) == (y * y) * (z * z);
  }

  lemma SquaredOK(gr: Group, b: nat)
    requires GroupOK(gr) && Prime(gr.p) && 0 < b < gr.p
    ensures PowersOK(Squared(gr, b))
  {
    ModSmall(b, gr.p);
    Fermat.Theorem(b, gr.p);
    SquareOfPower(b, gr.q, gr.p);
    PowAdd(b, gr.q, gr.q);
    ModMul(Pow(b, gr.q), Pow(b, gr.q), gr.p);
    assert gr.p - 1 == gr.q + gr.q;
  }

  lemma SquaredPower(gr: Group, b: nat, e: nat)
    requires gr.p > 0 && PowersOK(Squared(gr, b))
    ensures (Powm(b, e, gr.p) * Powm(b, e, gr.p)) % gr.p == Gel(Squared(gr, b), e)
  {
    SquareOfPower(b, e, gr.p);
    PowerNat(Squared(gr, b), e);
  }

  // A number has one square root but for the sign.
  lemma SquareRoots(p: nat, y: nat, v: nat)
    requires Prime(p) && 0 < y < p && v < p && (y * y) % p == (v * v) % p
    ensures y == v || y == p - v
  {
    Fermat.Difference(y * y, v * v, p);
    Factored(y, v);
    PrimeDividesProduct(p, y + v, y - v);
    if (y - v) % p == 0 { Fermat.SmallMultiple(y, v, p); } else { OnceOnly(p, y + v); }
  }

  lemma Factored(y: int, v: int)
    ensures (y + v) * (y - v) == y * y - v * v
  {
    MulDistr(y, v, y - v);
    Fermat.MulGaps(y, v, y);
    Fermat.MulGaps(y, v, v);
    MulCommutes(y, v);
  }

  lemma OnceOnly(p: nat, n: nat)
    requires 0 < n < 2 * p && n % p == 0
    ensures n == p
  {
    ModDivision(n, p);
    MulGap(n / p, 1, p);
    MulGap(1, n / p, p);
  }

  // ------------------------------------------------------------ two answers

  lemma CrossMod(p: nat, u: int, w: int, u': int, w': int, i: int, j: int)
    requires p > 1 && (u * w) % p == (u' * w') % p && (w * j) % p == 1 && (u' * i) % p == 1
    ensures (u * i) % p == (w' * j) % p
  {
    CrossHalf(p, u, w, i, j);
    CrossHalf(p, w', u', j, i);
    ModMul(u * w, i * j, p);
    ModMul(u' * w', i * j, p);
    MulCommutes(w', u');
    MulCommutes(i, j);
  }

  lemma CrossHalf(p: nat, u: int, w: int, i: int, j: int)
    requires p > 1 && (w * j) % p == 1
    ensures (u * i) % p == ((u * w) * (i * j)) % p
  {
    ModMul(u * i, w * j, p);
    assert (u * i) * (w * j) == (u * w) * (i * j);
  }

  // y^c w the same at two challenges: y is the quotient of the two w to the inverse of the
  // difference.
  lemma Solved(gy: Group, c: nat, c': nat, w: nat, w': nat, j: nat)
    requires PowersOK(gy) && Prime(gy.q) && (c - c') % gy.q != 0
    requires (Gel(gy, c) * w) % gy.p == (Gel(gy, c') * w') % gy.p && (w * j) % gy.p == 1
    ensures Powm((w' * j) % gy.p, Invm((c - c') % gy.q, gy.q), gy.p) == gy.g
  {
    var k, m := c - c', Invm((c - c') % gy.q, gy.q);
    PowerMul(gy, c', 0 - c');
    PowerMul(gy, c, 0 - c');
    PowerZeroOne(gy);
    CrossMod(gy.p, Gel(gy, c), w, Gel(gy, c'), w', Gel(gy, 0 - c'), j);
    PowerPow(gy, k, m);
    ModSmall(k % gy.q, gy.q);
    InverseOf(gy.q, k % gy.q);
    ModMul(k, m, gy.q);
    var t := CongMultiple(gy.q, (k % gy.q) * m, 1);
    ModAddMultiple(1, t, gy.q);
  }

  // The quotient of two powers to the inverse is the power to the exponent extracted.
  lemma Quotient(ga: Group, c: nat, d: nat, c': nat, d': nat)
    requires PowersOK(ga)
    ensures (Gel(ga, d) * Gel(ga, 0 - d)) % ga.p == 1
    ensures Powm((Gel(ga, d') * Gel(ga, 0 - d)) % ga.p, Invm((c - c') % ga.q, ga.q), ga.p) == Gel(ga, Extracted(ga.q, c, d, c', d'))
  {
    var m := Invm((c - c') % ga.q, ga.q);
    PowerMul(ga, d, 0 - d);
    PowerZeroOne(ga);
    PowerMul(ga, d', 0 - d);
    PowerPow(ga, d' - d, m);
    ModSmall(((d' - d) * m) % ga.q, ga.q);
  }

  // The square of b^d y^c
  lemma SquaredTag(gr: Group, b: nat, y: nat, d: nat, c: nat)
    requires gr.p > 0 && PowersOK(Squared(gr, b)) && PowersOK(Squared(gr, y))
    ensures var t := (Powm(b, d, gr.p) * Powm(y, c, gr.p)) % gr.p;
            (t * t) % gr.p == (Gel(Squared(gr, y), c) * Gel(Squared(gr, b), d)) % gr.p
  {
    SquaredPower(gr, b, d);
    SquaredPower(gr, y, c);
    SquareOfProduct(Powm(b, d, gr.p), Powm(y, c, gr.p), gr.p);
    MulCommutes(Gel(Squared(gr, y), c), Gel(Squared(gr, b), d));
  }

  // v or its negative
  predicate UpToSign(gr: Group, y: nat, v: nat)
  {
    y == v || y == gr.p - v
  }

  lemma TwoTags(gr: Group, b: nat, y: nat, c: nat, d: nat, c': nat, d': nat)
    requires GroupOK(gr) && Prime(gr.p) && 0 < b < gr.p && 0 < y < gr.p && (c - c') % gr.q != 0
    requires (Powm(b, d, gr.p) * Powm(y, c, gr.p)) % gr.p == (Powm(b, d', gr.p) * Powm(y, c', gr.p)) % gr.p
    ensures UpToSign(gr, y, Powm(b, Extracted(gr.q, c, d, c', d'), gr.p))
  {
    var e := Extracted(gr.q, c, d, c', d');
    SquaredOK(gr, b);
    SquaredOK(gr, y);
    SquaredTag(gr, b, y, d, c);
    SquaredTag(gr, b, y, d', c');
    var ga := Squared(gr, b);
    Quotient(ga, c, d, c', d');
    Solved(Squared(gr, y), c, c', Gel(ga, d), Gel(ga, d'), Gel(ga, 0 - d));
    SquaredPower(gr, b, e);
    SquareRoots(gr.p, y, Powm(b, e, gr.p));
  }

  // ---------------------------------------------------------- special soundness

  // otrl_sm_check_know_log: the exponent is what the two answers give.
  lemma KnowLogSound(gr: Group, h: Hash, h': Hash, y: nat, version: nat, c: nat, d: nat, c': nat, d': nat)
    requires GroupOK(gr) && Prime(gr.p) && 0 < y < gr.p && (c - c') % gr.q != 0
    requires KnowsLog(gr, h, c, d, gr.g, y, version) && KnowsLog(gr, h', c', d', gr.g, y, version)
    requires KnowLogTag(gr, c, d, gr.g, y) == KnowLogTag(gr, c', d', gr.g, y)
    ensures UpToSign(gr, y, Powm(gr.g, Extracted(gr.q, c, d, c', d'), gr.p))
  {
    TwoTags(gr, gr.g, y, c, d, c', d');
  }

  // otrl_sm_check_equal_logs: one exponent for g3o over g1 and for r over qab.
  lemma EqualLogsSound(gr: Group, h: Hash, h': Hash, st: State, r: nat, version: nat, c: nat, d: nat, c': nat, d': nat)
    requires GroupOK(gr) && Prime(gr.p) && st.g1 == Some(gr.g) && (c - c') % gr.q != 0
    requires 0 < st.g3o < gr.p && 0 < st.qab < gr.p && 0 < r < gr.p
    requires EqualLogs(gr, h, c, d, r, st, version) && EqualLogs(gr, h', c', d', r, st, version)
    requires EqualLogsTag(gr, c, d, r, st) == EqualLogsTag(gr, c', d', r, st)
    ensures var e := Extracted(gr.q, c, d, c', d');
            UpToSign(gr, st.g3o, Powm(gr.g, e, gr.p)) && UpToSign(gr, r, Powm(st.qab, e, gr.p))
  {
    TwoTags(gr, gr.g, st.g3o, c, d, c', d');
    TwoTags(gr, st.qab, r, c, d, c', d');
  }

  lemma PowProduct(x: int, y: int, e: nat, p: nat)
    requires p > 0
    ensures Powm((x * y) % p, e, p) == (Powm(x, e, p) * Powm(y, e, p)) % p
  {
    PowmBase(x * y, e, p);
    PowOfProduct(x, y, e);
    ModMul(Pow(x, e), Pow(y, e), p);
  }

  lemma {:induction false} PowOfProduct(x: int, y: int, e: nat)
    ensures Pow(x * y, e) == Pow(x, e) * Pow(y, e)
  {
    if e > 0 {
      PowOfProduct(x, y, e - 1);
      FourFactors(x, y, Pow(x, e - 1), Pow(y, e - 1));
    }
  }

  lemma FourFactors(a: int, b: int, i: int, j: int)
    ensures (a * b) * (i * j) == (a * i) * (b * j)
  {
    MulAssoc3(a, b, i * j);
    MulAssoc3(i, j, a);
    MulAssoc3(a * i, j, b);
    MulCommutes(a * i, b);
  }

  lemma PairUp(p: nat, a: int, b: int, i: int, j: int)
    requires p > 0
    ensures (((a * b) % p) * ((i * j) % p)) % p == (((a * i) % p) * ((b * j) % p)) % p
  {
    ModMul(a * b, i * j, p);
    ModMul(a * i, b * j, p);
    FourFactors(a, b, i, j);
  }

  lemma PairQuotient(p: nat, m: nat, a: nat, b: nat, a': nat, b': nat, i: nat, k: nat) returns (j: nat)
    requires p > 1 && (a * i) % p == 1 && (b * k) % p == 1
    ensures (((a * b) % p) * j) % p == 1
    ensures Powm((((a' * b') % p) * j) % p, m, p) == (Powm((a' * i) % p, m, p) * Powm((b' * k) % p, m, p)) % p
  {
    j := (i * k) % p;
    PairUp(p, a, b, i, k);
    ModSmall(1, p);
    PairUp(p, a', b', i, k);
    PowProduct((a' * i) % p, (b' * k) % p, m, p);
  }

  // The same with two powers beside y^c
  lemma TwoPairs(ga: Group, gb: Group, gy: Group, c: nat, d1: nat, d2: nat, c': nat, d1': nat, d2': nat)
    requires PowersOK(ga) && PowersOK(gb) && PowersOK(gy) && Prime(gy.q) && (c - c') % gy.q != 0
    requires ga.p == gb.p == gy.p && ga.q == gb.q == gy.q
    requires (Gel(gy, c) * ((Gel(ga, d1) * Gel(gb, d2)) % ga.p)) % ga.p == (Gel(gy, c') * ((Gel(ga, d1') * Gel(gb, d2')) % ga.p)) % ga.p
    ensures (Gel(ga, Extracted(ga.q, c, d1, c', d1')) * Gel(gb, Extracted(ga.q, c, d2, c', d2'))) % ga.p == gy.g
  {
    Quotient(ga, c, d1, c', d1');
    Quotient(gb, c, d2, c', d2');
    var j := PairQuotient(ga.p, Invm((c - c') % ga.q, ga.q), Gel(ga, d1), Gel(gb, d2), Gel(ga, d1'), Gel(gb, d2'), Gel(ga, 0 - d1), Gel(gb, 0 - d2));
    Solved(gy, c, c', (Gel(ga, d1) * Gel(gb, d2)) % ga.p, (Gel(ga, d1') * Gel(gb, d2')) % ga.p, j);
  }

  lemma SquaredPair(gr: Group, a: nat, b: nat, d1: nat, d2: nat)
    requires gr.p > 0 && PowersOK(Squared(gr, a)) && PowersOK(Squared(gr, b))
    ensures var w := (Powm(a, d1, gr.p) * Powm(b, d2, gr.p)) % gr.p;
            (w * w) % gr.p == (Gel(Squared(gr, a), d1) * Gel(Squared(gr, b), d2)) % gr.p
  {
    SquaredPower(gr, a, d1);
    SquaredPower(gr, b, d2);
    SquareOfProduct(Powm(a, d1, gr.p), Powm(b, d2, gr.p), gr.p);
  }

  // The square of y^c (a^d1 b^d2)
  lemma SquaredTriple(gr: Group, a: nat, b: nat, y: nat, c: nat, d1: nat, d2: nat)
    requires gr.p > 0 && PowersOK(Squared(gr, a)) && PowersOK(Squared(gr, b)) && PowersOK(Squared(gr, y))
    ensures var w := (Powm(a, d1, gr.p) * Powm(b, d2, gr.p)) % gr.p; var t := (Powm(y, c, gr.p) * w) % gr.p;
            (t * t) % gr.p
            == (Gel(Squared(gr, y), c) * ((Gel(Squared(gr, a), d1) * Gel(Squared(gr, b), d2)) % gr.p)) % gr.p
  {
    SquaredPair(gr, a, b, d1, d2);
    SquaredPower(gr, y, c);
    SquareOfProduct(Powm(y, c, gr.p), (Powm(a, d1, gr.p) * Powm(b, d2, gr.p)) % gr.p, gr.p);
  }

  // otrl_sm_check_equal_coords: p is g3 to one exponent, and q is g1 to that exponent
  // times g2 to another; the answers give both.
  lemma EqualCoordsSound(gr: Group, h: Hash, h': Hash, st: State, p: nat, q: nat, version: nat,
                         c: nat, d1: nat, d2: nat, c': nat, d1': nat, d2': nat)
    requires GroupOK(gr) && Prime(gr.p) && st.g1 == Some(gr.g) && (c - c') % gr.q != 0
    requires 0 < st.g2 < gr.p && 0 < st.g3 < gr.p && 0 < p < gr.p && 0 < q < gr.p
    requires EqualCoords(gr, h, c, d1, d2, p, q, st, version) && EqualCoords(gr, h', c', d1', d2', p, q, st, version)
    requires EqualCoordsTag(gr, c, d1, d2, p, q, st) == EqualCoordsTag(gr, c', d1', d2', p, q, st)
    ensures var r, s := Extracted(gr.q, c, d1, c', d1'), Extracted(gr.q, c, d2, c', d2');
            && UpToSign(gr, p, Powm(st.g3, r, gr.p))
            && UpToSign(gr, q, (Powm(gr.g, r, gr.p) * Powm(st.g2, s, gr.p)) % gr.p)
  {
    TwoTags(gr, st.g3, p, c, d1, c', d1');
    SecondSound(gr, st.g2, q, c, d1, d2, c', d1', d2');
  }

  lemma SecondSound(gr: Group, g2: nat, q: nat, c: nat, d1: nat, d2: nat, c': nat, d1': nat, d2': nat)
    requires GroupOK(gr) && Prime(gr.p) && 0 < g2 < gr.p && 0 < q < gr.p && (c - c') % gr.q != 0
    requires (Powm(q, c, gr.p) * ((Powm(gr.g, d1, gr.p) * Powm(g2, d2, gr.p)) % gr.p)) % gr.p
          == (Powm(q, c', gr.p) * ((Powm(gr.g, d1', gr.p) * Powm(g2, d2', gr.p)) % gr.p)) % gr.p
    ensures UpToSign(gr, q, (Powm(gr.g, Extracted(gr.q, c, d1, c', d1'), gr.p) * Powm(g2, Extracted(gr.q, c, d2, c', d2'), gr.p)) % gr.p)
  {
    var r, s := Extracted(gr.q, c, d1, c', d1'), Extracted(gr.q, c, d2, c', d2');
    SquaredOK(gr, gr.g);
    SquaredOK(gr, g2);
    SquaredOK(gr, q);
    SquaredTriple(gr, gr.g, g2, q, c, d1, d2);
    SquaredTriple(gr, gr.g, g2, q, c', d1', d2');
    TwoPairs(Squared(gr, gr.g), Squared(gr, g2), Squared(gr, q), c, d1, d2, c', d1', d2');
    SquaredPair(gr, gr.g, g2, r, s);
    SquareRoots(gr.p, q, (Powm(gr.g, r, gr.p) * Powm(g2, s, gr.p)) % gr.p);
  }

  // -------------------------------------------- what the checks leave open

  lemma EvenPower(y: int, k: nat)
    ensures Pow(-y, 2 * k) == Pow(y, 2 * k)
  {
    PowFirst(y);
    PowFirst(-y);
    assert Pow(y, 2) == y * Pow(y, 1) && Pow(-y, 2) == -y * Pow(-y, 1);
    assert -y * -y == y * y;
    PowPow(y, 2, k);
    PowPow(-y, 2, k);
  }

  lemma OddPower(y: int, k: nat)
    ensures Pow(-y, 2 * k + 1) == -Pow(y, 2 * k + 1)
  {
    EvenPower(y, k);
    assert Pow(-y, 2 * k + 1) == -y * Pow(-y, 2 * k) && Pow(y, 2 * k + 1) == y * Pow(y, 2 * k);
  }

  // The tag of the negative, by the parity of the challenge
  lemma NegatedTag(gr: Group, c: nat, d: nat, g: nat, y: nat)
    requires GroupOK(gr) && y < gr.p
    ensures KnowLogTag(gr, c, d, g, gr.p - y)
         == if c % 2 == 0 then KnowLogTag(gr, c, d, g, y) else (0 - KnowLogTag(gr, c, d, g, y)) % gr.p
  {
    var n: int := 0 - y;
    var e, f := Pow(g, d), Pow(y, c);
    ModAddMultiple(n, 1, gr.p);
    PowmBase(n, c, gr.p);
    PowmBase(gr.p - y, c, gr.p);
    ModMul(e, Pow(gr.p - y, c), gr.p);
    ModMul(e, Pow(n, c), gr.p);
    ModMul(e, f, gr.p);
    if c % 2 == 0 {
      EvenPower(y, c / 2);
    } else {
      OddPower(y, c / 2);
      MulNegative(e, f);
      ModAdd(0, e * f, gr.p);
    }
  }

  lemma MulNegative(e: int, f: int)
    ensures e * -f == 0 - e * f
  {
  }

  lemma OwnNegative(p: nat, t: nat, k: nat)
    requires p == 2 * k + 1 && t < p
    ensures (0 - t) % p == t <==> t == 0
  {
    if t > 0 {
      ModAddMultiple(0 - t, 1, p);
      ModSmall(p - t, p);
    }
  }

  // The check does not tell y from its negative, which the range check lets through as
  // well, exactly when the challenge is even; a commitment of zero aside.
  lemma SignUnchecked(gr: Group, c: nat, d: nat, g: nat, y: nat)
    requires GroupOK(gr) && GroupElem(gr, y)
    ensures GroupElem(gr, gr.p - y)
    ensures KnowLogTag(gr, c, d, g, gr.p - y) == KnowLogTag(gr, c, d, g, y) <==> c % 2 == 0 || KnowLogTag(gr, c, d, g, y) == 0
  {
    NegatedTag(gr, c, d, g, y);
    OwnNegative(gr.p, KnowLogTag(gr, c, d, g, y), gr.q);
  }

  // The negative of a power of g is none.
  lemma NegativeNotMember(gr: Group, a: int, b: int)
    requires GroupOK(gr) && gr.q > 2
    ensures gr.p - Gel(gr, a) != Gel(gr, b)
  {
    var y := Gel(gr, a);
    if gr.p - y == Gel(gr, b) {
      GelMul(gr, a, a);
      GelMul(gr, b, b);
      NegativeSquare(y, gr.p);
      ModAddMultiple(y * y, gr.p - 2 * y, gr.p);
      GelEqual(gr, 2 * a, 2 * b);
      ModSmall(2, gr.q);
      PrimeDividesProduct(gr.q, 2, a - b);
      GelEqual(gr, a, b);
    }
  }

  // Of a power of g, what the answers give is the exponent.
  lemma MemberExponent(gr: Group, x: int, e: nat)
    requires GroupOK(gr) && gr.q > 2 && e < gr.q && UpToSign(gr, Gel(gr, x), Powm(gr.g, e, gr.p))
    ensures x % gr.q == e
  {
    GelNat(gr, e);
    NegativeNotMember(gr, e, x);
    GelEqual(gr, x, e);
    var k := CongMultiple(gr.q, x, e);
    ModAddMultiple(e, k, gr.q);
    ModSmall(e, gr.q);
  }

  // The commitment an honest proof opens to is not zero.
  lemma HonestTag(gr: Group, h: Hash, x: nat, r: nat, version: nat)
    requires GroupOK(gr)
    ensures var (c, d) := ProveKnowLog(gr, h, gr.g, x, r, version); KnowLogTag(gr, c, d, gr.g, Powm(gr.g, x, gr.p)) != 0
  {
    var (c, d) := ProveKnowLog(gr, h, gr.g, x, r, version);
    GelZeroOne(gr);
    GelNat(gr, x);
    GelNat(gr, r);
    ResponseOpens(gr, 1, r, x, c);
    CommitmentNotZero(gr, r);
  }

  lemma CommitmentNotZero(gr: Group, r: nat)
    requires GroupOK(gr)
    ensures Gel(gr, r) != 0
  {
    GelMul(gr, r, 0 - r);
    GelZeroOne(gr);
    if Gel(gr, r) == 0 { ModSmall(0, gr.p); }
  }

  lemma SignAccepted(gr: Group, h: Hash, c: nat, d: nat, y: nat, version: nat)
    requires GroupOK(gr) && GroupElem(gr, y) && KnowsLog(gr, h, c, d, gr.g, y, version) && KnowLogTag(gr, c, d, gr.g, y) != 0
    ensures GroupElem(gr, gr.p - y)
    ensures KnowsLog(gr, h, c, d, gr.g, gr.p - y, version)
            <==> c % 2 == 0 || Collision(h, version, (KnowLogTag(gr, c, d, gr.g, gr.p - y), None), (KnowLogTag(gr, c, d, gr.g, y), None))
  {
    SignUnchecked(gr, c, d, gr.g, y);
  }

  lemma NegativeOutside(gr: Group, x: nat)
    requires GroupOK(gr) && gr.q > 2
    ensures forall b: int :: Gel(gr, b) != gr.p - Powm(gr.g, x, gr.p)
  {
    GelNat(gr, x);
    forall b: int ensures Gel(gr, b) != gr.p - Gel(gr, x) { NegativeNotMember(gr, x, b); }
  }

  // An honest proof for g^x is accepted for its negative, an element that has no exponent,
  // exactly when the challenge comes out even, collisions of the hash aside.
  lemma NegativeAccepted(gr: Group, h: Hash, x: nat, r: nat, version: nat)
    requires GroupOK(gr) && gr.q > 2 && GroupElem(gr, Powm(gr.g, x, gr.p))
    ensures var y := Powm(gr.g, x, gr.p); var (c, d) := ProveKnowLog(gr, h, gr.g, x, r, version);
            && GroupElem(gr, gr.p - y) && (forall b: int :: Gel(gr, b) != gr.p - y)
            && (KnowsLog(gr, h, c, d, gr.g, gr.p - y, version)
                <==> c % 2 == 0 || Collision(h, version, (KnowLogTag(gr, c, d, gr.g, gr.p - y), None), (KnowLogTag(gr, c, d, gr.g, y), None)))
  {
    var (c, d) := ProveKnowLog(gr, h, gr.g, x, r, version);
    KnowLogComplete(gr, h, x, r, version);
    HonestTag(gr, h, x, r, version);
    SignAccepted(gr, h, c, d, Powm(gr.g, x, gr.p), version);
    NegativeOutside(gr, x);
  }
}
