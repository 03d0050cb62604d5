// Modular exponentiation as libgcrypt's MPI functions compute it, and the
// cyclic group of prime order that both key exchanges work in.
module ModArith {

  function Pow(b: int, e: nat): int
  {
    if e == 0 then 1 else b * Pow(b, e - 1)
  }

  // gcry_mpi_powm
  function Powm(b: int, e: nat, m: nat): (r: nat)
    requires m > 0
    ensures r < m
  {
    Pow(b, e) % m
  }

  // ------------------------------------------------------------ remainders

  lemma QuotientUnique(k: int, r: int, k': int, r': int, m: nat)
    requires m > 0
    requires 0 <= r < m && 0 <= r' < m
    requires k * m + r == k' * m + r'
    ensures k == k' && r == r'
  {
    MulGap(k, k', m);
    MulGap(k', k, m);
  }

  lemma MulGap(k: int, k': int, m: nat)
    ensures k > k' ==> k * m >= k' * m + m
  {
    if k > k' {
      assert k * m == (k - k' - 1) * m + k' * m + m;
      assert (k - k' - 1) * m >= 0;
    }
  }

  // Adding a multiple of the modulus does not change the remainder ...
  lemma ModAddMultiple(a: int, k: int, m: nat)
    requires m > 0
    ensures (a + k * m) % m == a % m
  {
    var q, r := a / m, a % m;
    assert a == q * m + r;
    var q', r' := (a + k * m) / m, (a + k * m) % m;
    assert a + k * m == q' * m + r';
    assert (q + k) * m + r == q' * m + r' by { assert (q + k) * m == q * m + k * m; }
    QuotientUnique(q + k, r, q', r', m);
  }

  lemma ModSmall(r: int, m: nat)
    requires 0 <= r < m
    ensures r % m == r
  {
  }

  lemma ModMulLeft(a: int, b: int, m: nat)
    requires m > 0
    ensures ((a % m) * b) % m == (a * b) % m
  {
    var k, r := a / m, a % m;
    ModDivision(a, m);
    assert a * b == r * b + (k * b) * m by { MulDistr(k * m, r, b); MulAssoc3(k, m, b); }
    ModAddMultiple(r * b, k * b, m);
  }

  lemma ModMul(a: int, b: int, m: nat)
    requires m > 0
    ensures ((a % m) * (b % m)) % m == (a * b) % m
    ensures ((a % m) * b) % m == (a * b) % m
    ensures (a * (b % m)) % m == (a * b) % m
  {
    ModMulLeft(a, b % m, m);
    ModMulLeft(a, b, m);
    ModMulLeft(b, a, m);
    MulCommutes(a, b % m);
    MulCommutes(a, b);
  }

  lemma MulCommutes(a: int, b: int)
    ensures a * b == b * a
  {
  }

  lemma ModDivision(n: int, m: nat)
    requires m > 0
    ensures n == (n / m) * m + n % m
  {
  }

  lemma MulDistr(x: int, y: int, z: int)
    ensures (x + y) * z == x * z + y * z
    ensures z * (x + y) == x * z + y * z
  {
  }

  lemma MulAssoc3(k: int, m: int, b: int)
    ensures (k * m) * b == (k * b) * m
    ensures b * (k * m) == (b * k) * m
  {
  }

  lemma ModAdd(a: int, b: int, m: nat)
    requires m > 0
    ensures (a % m + b) % m == (a + b) % m
    ensures (a - b % m) % m == (a - b) % m
  {
    assert a + b == (a % m + b) + (a / m) * m;
    ModAddMultiple(a % m + b, a / m, m);
    assert a - b == (a - b % m) + (-(b / m)) * m;
    ModAddMultiple(a - b % m, -(b / m), m);
  }

  // ---------------------------------------------------------------- powers

  lemma {:induction false} PowAdd(b: int, e: nat, f: nat)
    ensures Pow(b, e + f) == Pow(b, e) * Pow(b, f)
  {
    if e > 0 {
      PowAdd(b, e - 1, f);
      assert b * (Pow(b, e - 1) * Pow(b, f)) == (b * Pow(b, e - 1)) * Pow(b, f);
    }
  }

  lemma {:induction false} PowOne(e: nat)
    ensures Pow(1, e) == 1
  {
    if e > 0 { PowOne(e - 1); }
  }

  lemma {:induction false} PowPow(b: int, e: nat, f: nat)
    ensures e * f >= 0
    ensures Pow(Pow(b, e), f) == Pow(b, e * f)
  {
    if f > 0 {
      PowPow(b, e, f - 1);
      assert e * f == e + e * (f - 1);
      PowAdd(b, e, e * (f - 1));
    }
  }

  // Reducing the base first does not matter.
  lemma {:induction false} PowmBase(b: int, e: nat, m: nat)
    requires m > 0
    ensures Powm(b % m, e, m) == Powm(b, e, m)
  {
    if e > 0 {
      var x, y := Pow(b % m, e - 1), Pow(b, e - 1);
      PowmBase(b, e - 1, m);
      assert x % m == y % m;
      ModMulLeft(b, x, m);
      ModMul(b, x, m);
      ModMul(b, y, m);
    }
  }

  lemma PowmPowm(b: int, e: nat, f: nat, m: nat)
    requires m > 0
    ensures e * f >= 0
    ensures Powm(Powm(b, e, m), f, m) == Powm(b, e * f, m)
  {
    PowmBase(Pow(b, e), f, m);
    PowPow(b, e, f);
  }

  // The Diffie-Hellman identity: both ends reach the same shared secret.
  lemma PowmCommutes(b: int, e: nat, f: nat, m: nat)
    requires m > 0
    ensures Powm(Powm(b, e, m), f, m) == Powm(Powm(b, f, m), e, m)
  {
    PowmPowm(b, e, f, m);
    PowmPowm(b, f, e, m);
    assert e * f == f * e;
  }

  // --------------------------------------------------- primes and divisors

  ghost predicate Divides(d: int, n: int)
  {
    exists k: int :: n == k * d
  }

  ghost predicate Prime(q: nat)
  {
    q > 1 && forall d: nat :: 1 < d < q ==> !Divides(d, q)
  }

  lemma DividesMod(q: nat, n: int)
    requires q > 0
    ensures Divides(q, n) <==> n % q == 0
  {
    if Divides(q, n) {
      var k :| n == k * q;
      ModAddMultiple(0, k, q);
    }
    if n % q == 0 {
      assert n == (n / q) * q;
    }
  }

  // The extended Euclidean algorithm: x*a + y*b == d, the greatest common divisor.
  function ExtGcd(a: nat, b: nat): (r: (int, int, nat))
    requires a > 0 || b > 0
    ensures r.0 * a + r.1 * b == r.2 && r.2 > 0
    ensures Divides(r.2, a) && Divides(r.2, b)
    decreases b
  {
    if b == 0 then
      assert a == 1 * a && b == 0 * a;
      assert 1 * a + 0 * b == a;
      (1, 0, a)
    else
      var (x, y, d) := ExtGcd(b, a % b);
      ExtGcdStep(a, b, x, y, d);
      (y, x - y * (a / b), d)
  }

  lemma ExtGcdStep(a: nat, b: nat, x: int, y: int, d: nat)
    requires b > 0 && d > 0
    requires x * b + y * (a % b) == d && Divides(d, b) && Divides(d, a % b)
    ensures y * a + (x - y * (a / b)) * b == d
    ensures Divides(d, a)
  {
    var k := a / b;
    assert a % b == a - k * b;
    assert y * (a % b) == y * a - y * (k * b);
    assert y * (k * b) == (y * k) * b;
    assert (x - y * k) * b == x * b - (y * k) * b;
    var s :| b == s * d;
    var t :| a % b == t * d;
    assert a == (k * s + t) * d by { assert k * b == (k * s) * d; }
  }

  // gcry_mpi_invm: the inverse of a modulo m, or 0 when there is none.
  function Invm(a: nat, m: nat): (r: nat)
    requires m > 1
    ensures r < m
  {
    var (x, y, d) := ExtGcd(a, m);
    if d == 1 then x % m else 0
  }

  lemma DivisorOfOne(d: nat, u: int, v: int, a: int, m: int)
    requires d > 0 && Divides(d, a) && Divides(d, m) && u * a + v * m == 1
    ensures d == 1
  {
    var s :| a == s * d;
    var t :| m == t * d;
    LinearCombination(u, s, v, t, d);
    MulGap(u * s + v * t, 1, d);
    MulGap(1, u * s + v * t, d);
  }

  lemma InverseAlgebra(a: int, b: int, x: int, y: int, k: int, m: int) returns (t: int)
    requires x * a + y * m == 1 && a * b == k * m + 1
    ensures x == b + t * m
  {
    t := -(y * b) - x * k;
    calc {
      x;
      x * (a * b) - x * (k * m);
      { assert x * (a * b) == (x * a) * b; }
      (1 - y * m) * b - x * (k * m);
      { assert (1 - y * m) * b == b - (y * b) * m; assert x * (k * m) == (x * k) * m; }
      b - (y * b) * m - (x * k) * m;
    }
    MulDistr(-(y * b), -(x * k), m);
  }

  lemma LinearCombination(u: int, s: int, v: int, t: int, d: int)
    ensures u * (s * d) + v * (t * d) == (u * s + v * t) * d
  {
    MulDistr(u * s, v * t, d);
  }

  // Invm finds the inverse whenever one exists, and it is the only one below m.
  lemma InvmUnique(a: nat, b: nat, m: nat)
    requires m > 1 && b < m && (a * b) % m == 1
    ensures Invm(a, m) == b
  {
    var (x, y, d) := ExtGcd(a, m);
    var k := (a * b) / m;
    ModDivision(a * b, m);
    InvmUniqueFrom(a, b, m, x, y, d, k);
  }

  lemma InvmUniqueFrom(a: nat, b: nat, m: nat, x: int, y: int, d: nat, k: int)
    requires m > 1 && b < m && d > 0
    requires x * a + y * m == d && Divides(d, a) && Divides(d, m)
    requires a * b == k * m + 1
    ensures d == 1 && x % m == b
  {
    DivisorOfOne(d, b, -k, a, m);
    var t := InverseAlgebra(a, b, x, y, k, m);
    ModAddMultiple(b, t, m);
    ModSmall(b, m);
  }

  lemma Coprime(a: nat, q: nat) returns (x: int, y: int)
    requires Prime(q) && !Divides(q, a)
    ensures x * a + y * q == 1
  {
    var (x', y', d) := ExtGcd(a, q);
    x, y := x', y';
    PrimeDivisor(q, d);
  }

  lemma PrimeDivisor(q: nat, d: nat)
    requires Prime(q) && d > 0 && Divides(d, q)
    ensures d == 1 || d == q
  {
    var s :| q == s * d;
    MulGap(s, 0, d);
    MulGap(0, s, d);
  }

  // Euclid's lemma.
  lemma PrimeDividesProduct(q: nat, a: int, b: int)
    requires Prime(q) && (a * b) % q == 0
    ensures a % q == 0 || b % q == 0
  {
    if a % q != 0 {
      var a' := a % q;
      ModSmall(a', q);
      DividesMod(q, a');
      var x, y := Coprime(a', q);
      ModMulLeft(a, b, q);
      var t := (a' * b) / q;
      ModDivision(a' * b, q);
      var k := EuclidAlgebra(a', b, x, y, t, q);
      assert Divides(q, b);
      DividesMod(q, b);
    }
  }

  lemma EuclidAlgebra(a: int, b: int, x: int, y: int, t: int, q: int) returns (k: int)
    requires x * a + y * q == 1 && a * b == t * q
    ensures b == k * q
  {
    k := x * t + y * b;
    calc {
      b;
      (x * a + y * q) * b;
      { MulDistr(x * a, y * q, b); MulAssoc3(y, q, b); }
      (x * a) * b + (y * b) * q;
      { assert (x * a) * b == x * (a * b); }
      x * (t * q) + (y * b) * q;
      { LinearCombination(x, t, 1, y * b, q); }
      k * q;
    }
  }
}
