// Octets, big-endian integers and the length-prefixed integers (MPIs) that
// every message of the protocol is built from.
module Bytes {

  datatype Option<+T> = None | Some(value: T) {
    predicate IsFailure() { None? }

    function PropagateFailure<U>(): Option<U>
      requires None?
    {
      None
    }

    function Extract(): T
      requires Some?
    {
      value
    }
  }

  // strstr: from the first occurrence on
  function Find(s: string, tag: string): Option<string>
  {
    if tag <= s then Some(s) else if s == [] then None else Find(s[1..], tag)
  }

  type byte = x: int | 0 <= x < 256

  // ------------------------------------------------------------------ xor

  // Bit by bit, from the lowest
  function XorNat(a: nat, b: nat): nat
  {
    if a == 0 && b == 0 then 0 else 2 * XorNat(a / 2, b / 2) + (if a % 2 == b % 2 then 0 else 1)
  }

  function Pow2(n: nat): (r: nat)
    ensures r > 0
  {
    if n == 0 then 1 else 2 * Pow2(n - 1)
  }

  lemma {:induction false} XorFits(n: nat, a: nat, b: nat)
    requires a < Pow2(n) && b < Pow2(n)
    ensures XorNat(a, b) < Pow2(n)
  {
    if n > 0 && (a > 0 || b > 0) {
      XorFits(n - 1, a / 2, b / 2);
    }
  }

  lemma XorNatBits(a: nat, b: nat, h: nat, k: nat)
    requires h == XorNat(a / 2, b / 2) && k == (if a % 2 == b % 2 then 0 else 1)
    ensures XorNat(a, b) == 2 * h + k && XorNat(a, b) / 2 == h && XorNat(a, b) % 2 == k
  {
  }

  lemma {:induction false} XorNatInvolution(a: nat, b: nat)
    ensures XorNat(XorNat(a, b), b) == a
  {
    if a > 0 || b > 0 {
      var h, k := XorNat(a / 2, b / 2), if a % 2 == b % 2 then 0 else 1;
      XorNatInvolution(a / 2, b / 2);
      XorNatBits(a, b, h, k);
      XorNatBits(XorNat(a, b), b, a / 2, a % 2);
    }
  }

  lemma {:induction false} XorNatZero(b: nat)
    ensures XorNat(0, b) == b
  {
    if b > 0 {
      XorNatZero(b / 2);
    }
  }

  lemma Pow2Of8()
    ensures Pow2(8) == 256
  {
    assert Pow2(4) == 16 && Pow2(6) == 64;
  }

  function Xor(a: byte, b: byte): byte
  {
    Pow2Of8();
    XorFits(8, a, b);
    XorNat(a, b)
  }

  lemma XorInvolution(a: byte, b: byte)
    ensures Xor(Xor(a, b), b) == a
  {
    XorNatInvolution(a, b);
  }

  lemma XorZero(b: byte)
    ensures Xor(0, b) == b
  {
    XorNatZero(b);
  }

  // --------------------------------------------------- big-endian integers

  function Pow256(n: nat): (r: nat)
    ensures r > 0
  {
    if n == 0 then 1 else 256 * Pow256(n - 1)
  }

  // The low n octets of v, most significant first: what write_int emits for n = 4.
  function Be(n: nat, v: nat): (s: seq<byte>)
    ensures |s| == n
  {
    if n == 0 then [] else Be(n - 1, v / 256) + [v % 256]
  }

  function FromBe(s: seq<byte>): (v: nat)
    ensures v < Pow256(|s|)
  {
    if s == [] then 0 else FromBe(s[..|s| - 1]) * 256 + s[|s| - 1]
  }

  lemma {:induction false} BeRoundTrip(n: nat, v: nat)
    requires v < Pow256(n)
    ensures FromBe(Be(n, v)) == v
  {
    if n > 0 {
      BeRoundTrip(n - 1, v / 256);
      assert Be(n, v)[..n - 1] == Be(n - 1, v / 256);
    }
  }

  // Every string of octets is the number it spells.
  lemma {:induction false} BeOfFromBe(s: seq<byte>)
    ensures Be(|s|, FromBe(s)) == s
  {
    if s != [] {
      BeOfFromBe(s[..|s| - 1]);
    }
  }

  lemma {:induction false} FromBeFront(b: byte, t: seq<byte>)
    ensures FromBe([b] + t) == b * Pow256(|t|) + FromBe(t)
  {
    if t == [] {
      assert [b] + t == [b] && [b][..0] == [];
    } else {
      var n := |t| - 1;
      assert ([b] + t)[..|t|] == [b] + t[..n];
      FromBeFront(b, t[..n]);
      FrontAlgebra(b, Pow256(n), FromBe(t[..n]), t[n]);
    }
  }

  lemma FrontAlgebra(b: nat, p: nat, v: nat, x: nat)
    ensures (b * p + v) * 256 + x == b * (256 * p) + (v * 256 + x)
  {
    assert (b * p + v) * 256 == (b * p) * 256 + v * 256 && (b * p) * 256 == b * (256 * p);
  }

  // Unsigned 32-bit quantities on the wire.
  const TWO32: nat := 0x1_0000_0000

  lemma Pow256Of4()
    ensures Pow256(4) == TWO32
  {
    assert Pow256(2) == 65536;
  }

  lemma Pow256Of8()
    ensures Pow256(8) == TWO32 * TWO32
  {
    Pow256Of4();
    assert Pow256(6) == 65536 * Pow256(4);
    assert Pow256(8) == 65536 * Pow256(6);
  }

  // An MPI printed in unsigned form: no leading zero octet, zero is empty.
  function Mpi(v: nat): (s: seq<byte>)
    ensures FromBe(s) == v
  {
    if v == 0 then [] else
      var s := Mpi(v / 256) + [v % 256];
      assert s[..|s| - 1] == Mpi(v / 256);
      s
  }

  lemma {:induction false} MpiMonotone(v: nat, w: nat)
    requires v <= w
    ensures |Mpi(v)| <= |Mpi(w)|
  {
    if v > 0 {
      MpiMonotone(v / 256, w / 256);
    }
  }
}
