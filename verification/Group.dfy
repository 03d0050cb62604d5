// The group of the protocol: the subgroup of order q generated by g modulo p,
// with p == 2q + 1 (RFC 3526, section 2, is the concrete instance).  Every value
// exchanged by honest parties is Gel(e), g to the exponent e taken modulo q.
module Group {
  import opened ModArith

  datatype Group = Group(p: nat, q: nat, g: nat)

  ghost predicate GroupOK(gr: Group)
  {
    && Prime(gr.q)
    && gr.p == 2 * gr.q + 1
    && 1 < gr.g < gr.p
    && Powm(gr.g, gr.q, gr.p) == 1
  }

  function Gel(gr: Group, e: int): (r: nat)
    requires gr.p > 0 && gr.q > 0
    ensures r < gr.p
  {
    Powm(gr.g, e % gr.q, gr.p)
  }

  lemma PowmOne(b: int, k: nat, m: nat)
    requires m > 1 && b % m == 1
    ensures Powm(b, k, m) == 1
  {
    PowmBase(b, k, m);
    PowOne(k);
  }

  // All that the laws of powers need of an element
  ghost predicate PowersOK(gr: Group)
  {
    gr.p > 1 && gr.q > 1 && gr.g < gr.p && Powm(gr.g, gr.q, gr.p) == 1
  }

  // Powers depend on the exponent modulo q only.
  lemma {:induction false} PowmOfMultiple(gr: Group, k: nat, r: nat)
    requires PowersOK(gr)
    ensures gr.q * k + r >= 0
    ensures Powm(gr.g, gr.q * k + r, gr.p) == Powm(gr.g, r, gr.p)
  {
    PowPow(gr.g, gr.q, k);
    var n := gr.q * k;
    PowmOne(Pow(gr.g, gr.q), k, gr.p);
    PowAdd(gr.g, n, r);
    ModMul(Pow(gr.g, n), Pow(gr.g, r), gr.p);
  }

  lemma PowerNat(gr: Group, n: nat)
    requires PowersOK(gr)
    ensures Powm(gr.g, n, gr.p) == Gel(gr, n)
  {
    var k, r := n / gr.q, n % gr.q;
    assert n == gr.q * k + r;
    PowmOfMultiple(gr, k, r);
  }

  lemma PowerMul(gr: Group, a: int, b: int)
    requires PowersOK(gr)
    ensures (Gel(gr, a) * Gel(gr, b)) % gr.p == Gel(gr, a + b)
  {
    var ra, rb := a % gr.q, b % gr.q;
    ModMul(Pow(gr.g, ra), Pow(gr.g, rb), gr.p);
    PowAdd(gr.g, ra, rb);
    PowerNat(gr, ra + rb);
    ModAdd(a, rb, gr.q);
    ModAdd(b, a, gr.q);
  }

  lemma PowerPow(gr: Group, a: int, e: nat)
    requires PowersOK(gr)
    ensures Powm(Gel(gr, a), e, gr.p) == Gel(gr, a * e)
  {
    var ra := a % gr.q;
    PowmPowm(gr.g, ra, e, gr.p);
    PowerNat(gr, ra * e);
    ModMul(a, e, gr.q);
  }

  lemma PowerZeroOne(gr: Group)
    requires PowersOK(gr)
    ensures Gel(gr, 0) == 1 && Gel(gr, 1) == gr.g
  {
    ModSmall(0, gr.q);
    ModSmall(1, gr.q);
    ModSmall(1, gr.p);
    ModSmall(gr.g, gr.p);
    PowFirst(gr.g);
  }

  // ------------------------------------------------------ powers of g

  lemma GelNat(gr: Group, n: nat)
    requires GroupOK(gr)
    ensures Powm(gr.g, n, gr.p) == Gel(gr, n)
  {
    PowerNat(gr, n);
  }

  lemma GelCong(gr: Group, a: int, b: int, k: int)
    requires GroupOK(gr) && a == b + k * gr.q
    ensures Gel(gr, a) == Gel(gr, b)
  {
    ModAddMultiple(b, k, gr.q);
  }

  lemma GelMul(gr: Group, a: int, b: int)
    requires GroupOK(gr)
    ensures (Gel(gr, a) * Gel(gr, b)) % gr.p == Gel(gr, a + b)
  {
    PowerMul(gr, a, b);
  }

  lemma GelPow(gr: Group, a: int, e: nat)
    requires GroupOK(gr)
    ensures Powm(Gel(gr, a), e, gr.p) == Gel(gr, a * e)
  {
    PowerPow(gr, a, e);
  }

  lemma GelZeroOne(gr: Group)
    requires GroupOK(gr)
    ensures Gel(gr, 0) == 1 && Gel(gr, 1) == gr.g
  {
    PowerZeroOne(gr);
  }

  lemma PowFirst(b: int)
    ensures Pow(b, 0) == 1 && Pow(b, 1) == b
  {
    assert Pow(b, 1) == b * Pow(b, 0);
  }

  lemma GelInv(gr: Group, a: int)
    requires GroupOK(gr)
    ensures Invm(Gel(gr, a), gr.p) == Gel(gr, -a)
  {
    GelMul(gr, a, -a);
    GelZeroOne(gr);
    InvmUnique(Gel(gr, a), Gel(gr, -a), gr.p);
  }

  // g has order exactly q: only multiples of q give the neutral element.
  lemma GelOne(gr: Group, a: int)
    requires GroupOK(gr) && Gel(gr, a) == 1
    ensures a % gr.q == 0
  {
    if a % gr.q != 0 {
      var r := a % gr.q;
      ModSmall(r, gr.q);
      DividesMod(gr.q, r);
      var x, y := Coprime(r, gr.q);
      // 1 == x*r + y*q, so g == Gel(x*r) == Gel(r)^x == 1
      var x' := x % gr.q;
      GelPow(gr, r, x');
      ModSmall(1, gr.p);
      PowmOne(1, x', gr.p);
      var k := CoprimeReduced(r, gr.q, x, y);
      GelCong(gr, 1, r * x', k);
      GelZeroOne(gr);
    }
  }

  lemma CoprimeReduced(r: nat, q: nat, x: int, y: int) returns (k: int)
    requires q > 0 && x * r + y * q == 1
    ensures 1 == r * (x % q) + k * q
  {
    var x', t := x % q, x / q;
    k := r * t + y;
    ModDivision(x, q);
    calc {
      1;
      (t * q + x') * r + y * q;
      { MulDistr(t * q, x', r); }
      (t * q) * r + x' * r + y * q;
      { MulAssoc3(t, q, r); }
      x' * r + (t * r) * q + y * q;
      { MulDistr(t * r, y, q); }
      r * x' + k * q;
    }
  }

  // Two powers of g are equal exactly when their exponents agree modulo q.
  lemma GelEqual(gr: Group, a: int, b: int)
    requires GroupOK(gr)
    ensures Gel(gr, a) == Gel(gr, b) <==> (a - b) % gr.q == 0
  {
    if (a - b) % gr.q == 0 {
      assert a == b + ((a - b) / gr.q) * gr.q;
      GelCong(gr, a, b, (a - b) / gr.q);
    }
    if Gel(gr, a) == Gel(gr, b) {
      GelMul(gr, a, -b);
      GelMul(gr, b, -b);
      GelZeroOne(gr);
      GelOne(gr, a - b);
    }
  }
}
