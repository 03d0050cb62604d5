// Fermat's little theorem: multiplying by a permutes the numbers below a prime p, so the
// product of all of them takes the factor a to the p - 1 without changing.
module Fermat {
  import opened ModArith

  ghost function Product(s: set<nat>): nat
  {
    if s == {} then 1 else var x :| x in s; x * Product(s - {x})
  }

  // Any element may be taken first.
  lemma {:induction false} ProductPick(s: set<nat>, y: nat)
    requires y in s
    ensures Product(s) == y * Product(s - {y})
    decreases |s|
  {
    var x :| x in s && Product(s) == x * Product(s - {x});
    if x != y {
      ProductPick(s - {x}, y);
      ProductPick(s - {y}, x);
      assert s - {x} - {y} == s - {y} - {x};
      Swap(x, y, Product(s - {x} - {y}));
    }
  }

  lemma Swap(x: nat, y: nat, z: nat)
    ensures x * (y * z) == y * (x * z)
  {
  }

  ghost predicate Below(s: set<nat>, p: nat)
  {
    forall x :: x in s ==> 0 < x < p
  }

  function Image(a: nat, p: nat, s: set<nat>): set<nat>
    requires p > 0
  {
    set x | x in s :: (a * x) % p
  }

  lemma Difference(m: int, n: int, p: nat)
    requires p > 0 && m % p == n % p
    ensures (m - n) % p == 0
  {
    ModDivision(m, p);
    ModDivision(n, p);
    var k := m / p - n / p;
    MulGaps(m / p, n / p, p);
    ModAddMultiple(0, k, p);
  }

  lemma MulGaps(j: int, k: int, p: int)
    ensures (j - k) * p == j * p - k * p && p * (j - k) == p * j - p * k
  {
  }

  lemma Apart(a: nat, p: nat, x: nat, z: nat)
    requires Prime(p) && a % p != 0 && x < p && z < p && (a * x) % p == (a * z) % p
    ensures x == z
  {
    Difference(a * x, a * z, p);
    MulGaps(x, z, a);
    PrimeDividesProduct(p, a, x - z);
    SmallMultiple(x, z, p);
  }

  lemma SmallMultiple(x: nat, z: nat, p: nat)
    requires x < p && z < p && (x - z) % p == 0
    ensures x == z
  {
    ModDivision(x - z, p);
    MulGap((x - z) / p, 0, p);
    MulGap(0, (x - z) / p, p);
  }

  lemma ImageGrows(a: nat, p: nat, s: set<nat>, x: nat)
    requires Prime(p) && a % p != 0 && Below(s, p) && x in s
    ensures Image(a, p, s) == {(a * x) % p} + Image(a, p, s - {x}) && (a * x) % p !in Image(a, p, s - {x})
  {
    forall z | z in s - {x} ensures (a * z) % p != (a * x) % p {
      if (a * z) % p == (a * x) % p { Apart(a, p, x, z); }
    }
    assert s == {x} + (s - {x});
  }

  lemma {:induction false} ImageProduct(a: nat, p: nat, s: set<nat>)
    requires Prime(p) && a % p != 0 && Below(s, p)
    ensures |Image(a, p, s)| == |s| && Product(Image(a, p, s)) % p == (Pow(a, |s|) * Product(s)) % p
    decreases |s|
  {
    if s != {} {
      var x :| x in s;
      var t, y := s - {x}, (a * x) % p;
      ImageProduct(a, p, t);
      ImageGrows(a, p, s, x);
      ProductPick(s, x);
      ProductPick(Image(a, p, s), y);
      assert Image(a, p, s) - {y} == Image(a, p, t);
      NextFactor(a, p, x, Product(Image(a, p, t)), Pow(a, |t|), Product(t));
    }
  }

  lemma NextFactor(a: int, p: nat, x: int, i: int, e: int, q: int)
    requires p > 0 && i % p == (e * q) % p
    ensures (((a * x) % p) * i) % p == ((a * e) * (x * q)) % p
  {
    ModMul(a * x, i, p);
    ModMul(a * x, e * q, p);
    assert (a * x) * (e * q) == (a * e) * (x * q);
  }

  lemma {:induction false} ProductNonzero(s: set<nat>, p: nat)
    requires Prime(p) && Below(s, p)
    ensures Product(s) % p != 0
    decreases |s|
  {
    if s == {} {
      ModSmall(1, p);
    } else {
      var x :| x in s;
      ProductPick(s, x);
      ProductNonzero(s - {x}, p);
      ModSmall(x, p);
      if Product(s) % p == 0 { PrimeDividesProduct(p, x, Product(s - {x})); }
    }
  }

  function Upto(n: nat): (s: set<nat>)
    ensures |s| == n && forall x :: x in s <==> 0 < x <= n
  {
    if n == 0 then {} else Upto(n - 1) + {n}
  }

  lemma SubsetSize(s: set<nat>, t: set<nat>)
    requires s <= t && |s| == |t|
    ensures s == t
  {
    assert t == s + (t - s);
  }

  lemma ImageUpto(a: nat, p: nat)
    requires Prime(p) && a % p != 0
    ensures Image(a, p, Upto(p - 1)) <= Upto(p - 1)
  {
    forall x | x in Upto(p - 1) ensures (a * x) % p != 0 {
      ModSmall(x, p);
      if (a * x) % p == 0 { PrimeDividesProduct(p, a, x); }
    }
  }

  lemma Theorem(a: nat, p: nat)
    requires Prime(p) && a % p != 0
    ensures Powm(a, p - 1, p) == 1
  {
    var s := Upto(p - 1);
    ImageProduct(a, p, s);
    ImageUpto(a, p);
    SubsetSize(Image(a, p, s), s);
    ProductNonzero(s, p);
    FactorOne(Pow(a, p - 1), Product(s), p);
  }

  lemma FactorOne(e: int, n: int, p: nat)
    requires Prime(p) && n % p != 0 && n % p == (e * n) % p
    ensures e % p == 1
  {
    Difference(e * n, n, p);
    MulGaps(e, 1, n);
    PrimeDividesProduct(p, n, e - 1);
    ModDivision(e - 1, p);
    ModAddMultiple(1, (e - 1) / p, p);
    ModSmall(1, p);
  }
}
