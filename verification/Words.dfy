// 32-bit words.  The operations are named so that a law about one of them is a fact
// about the name, and proofs over whole ciphers never look at single bits.
module Words {

  function Xor(a: bv32, b: bv32): bv32 { a ^ b }
  function And(a: bv32, b: bv32): bv32 { a & b }
  function Or(a: bv32, b: bv32): bv32 { a | b }
  function Not(a: bv32): bv32 { !a }
  function AndNot(a: bv32, b: bv32): bv32 { And(a, Not(b)) }
  function Rol1(a: bv32): bv32 { a.RotateLeft(1) }
  function Ror8(a: bv32): bv32 { a.RotateRight(8) }

  lemma XorComm(a: bv32, b: bv32)
    ensures Xor(a, b) == Xor(b, a)
  {
  }

  lemma XorAssoc(a: bv32, b: bv32, c: bv32)
    ensures Xor(Xor(a, b), c) == Xor(a, Xor(b, c))
  {
  }

  lemma XorTwice(a: bv32, b: bv32)
    ensures Xor(Xor(a, b), b) == a
  {
  }

  lemma XorZero(a: bv32)
    ensures Xor(a, 0) == a
  {
  }

  lemma XorSwap(a: bv32, b: bv32, c: bv32, d: bv32)
    ensures Xor(Xor(a, b), Xor(c, d)) == Xor(Xor(a, c), Xor(b, d))
  {
    XorAssoc(a, b, Xor(c, d));
    XorAssoc(b, c, d);
    XorComm(b, c);
    XorAssoc(c, b, d);
    XorAssoc(a, c, Xor(b, d));
  }

  lemma AndMask(a: bv32, m: bv32, k: bv32)
    ensures And(Xor(a, m), k) == Xor(And(a, k), And(m, k))
  {
  }

  lemma OrAndNot(a: bv32, k: bv32)
    ensures Or(a, k) == Xor(And(a, Not(k)), k)
  {
  }

  lemma OrMask(a: bv32, m: bv32, k: bv32)
    ensures Or(Xor(a, m), k) == Xor(Or(a, k), AndNot(m, k))
  {
    OrAndNot(Xor(a, m), k);
    OrAndNot(a, k);
    AndMask(a, m, Not(k));
    XorAssoc(And(a, Not(k)), And(m, Not(k)), k);
    XorComm(And(m, Not(k)), k);
    XorAssoc(And(a, Not(k)), k, And(m, Not(k)));
  }

  lemma RotMask(a: bv32, m: bv32)
    ensures Rol1(Xor(a, m)) == Xor(Rol1(a), Rol1(m))
  {
  }

  // ------------------------------------------------------------- octets

  function Octets(a: bv8, b: bv8, c: bv8, d: bv8): bv32
  {
    ((a as bv32) << 24) | ((b as bv32) << 16) | ((c as bv32) << 8) | (d as bv32)
  }

  function XorB(a: bv8, b: bv8): bv8 { a ^ b }
  function Sum3(a: bv8, b: bv8, c: bv8): bv8 { a ^ b ^ c }
  function Sum5(a: bv8, b: bv8, c: bv8, d: bv8, e: bv8): bv8 { a ^ b ^ c ^ d ^ e }
  function Sum6(a: bv8, b: bv8, c: bv8, d: bv8, e: bv8, f: bv8): bv8 { a ^ b ^ c ^ d ^ e ^ f }

  lemma XorBZero(a: bv8)
    ensures XorB(a, 0) == a && XorB(0, a) == a
  {
  }

  lemma XorSum3(a: bv8, b: bv8, c: bv8)
    ensures XorB(XorB(a, b), c) == Sum3(a, b, c)
  {
  }

  lemma XorSum6(a: bv8, b: bv8, c: bv8, d: bv8, e: bv8, f: bv8)
    ensures XorB(Sum3(f, d, e), Sum3(a, b, c)) == Sum6(a, b, c, d, e, f)
  {
  }

  // The octets of a word, the most significant first.
  function Oct1(w: bv32): bv8 { ((w >> 24) & 0xff) as bv8 }
  function Oct2(w: bv32): bv8 { ((w >> 16) & 0xff) as bv8 }
  function Oct3(w: bv32): bv8 { ((w >> 8) & 0xff) as bv8 }
  function Oct4(w: bv32): bv8 { (w & 0xff) as bv8 }

  lemma XorOctets(a: bv8, b: bv8, c: bv8, d: bv8, e: bv8, f: bv8, g: bv8, h: bv8)
    ensures Xor(Octets(a, b, c, d), Octets(e, f, g, h)) == Octets(XorB(a, e), XorB(b, f), XorB(c, g), XorB(d, h))
  {
  }

  lemma RorOctets(a: bv8, b: bv8, c: bv8, d: bv8)
    ensures Ror8(Octets(a, b, c, d)) == Octets(d, a, b, c)
  {
  }
}
