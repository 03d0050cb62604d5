// GHASH of cipher-gcm.c on four 32-bit words: the bit-by-bit form, and the form with a
// table of sixteen multiples and the table of reductions.
module Ghash {
  import opened Words
  import opened Gf
  import opened GcmTable

  // A block as an element of the field; its first bit is the highest of w0.
  datatype Elt = Elt(w0: bv32, w1: bv32, w2: bv32, w3: bv32)

  const ZERO := Elt(0, 0, 0, 0)
  const UNIT := Elt(0x8000_0000, 0, 0, 0)

  function X(a: Elt, b: Elt): Elt
  {
    Elt(Xor(a.w0, b.w0), Xor(a.w1, b.w1), Xor(a.w2, b.w2), Xor(a.w3, b.w3))
  }

  // What a bit pushed out at the end comes back as.
  function Carry(d: bv32): bv32 { if d & 1 != 0 then 0xe100_0000 else 0 }

  function Shr1(a: bv32): bv32 { a >> 1 }
  function Shr2(a: bv32): bv32 { a >> 2 }
  function Shr4(a: bv32): bv32 { a >> 4 }
  function Shr8(a: bv32): bv32 { a >> 8 }
  function Shl31(a: bv32): bv32 { a << 31 }
  function Shl30(a: bv32): bv32 { a << 30 }
  function Shl28(a: bv32): bv32 { a << 28 }
  function Shl24(a: bv32): bv32 { a << 24 }

  function Head1(a: bv32, d: bv32): bv32 { Xor(Shr1(a), Carry(d)) }
  function Mix1(x: bv32, y: bv32): bv32 { Xor(Shr1(y), Shl31(x)) }

  // bshift
  function Shift(v: Elt): Elt
  {
    Elt(Head1(v.w0, v.w3), Mix1(v.w0, v.w1), Mix1(v.w1, v.w2), Mix1(v.w2, v.w3))
  }

  function Ops(): Ring<Elt>
  {
    Ring(ZERO, (a, b) => X(a, b), v => Shift(v))
  }

  lemma Shr1Adds(a: bv32, b: bv32)
    ensures Shr1(Xor(a, b)) == Xor(Shr1(a), Shr1(b))
  {
  }

  lemma Shr2Adds(a: bv32, b: bv32)
    ensures Shr2(Xor(a, b)) == Xor(Shr2(a), Shr2(b))
  {
  }

  lemma Shr4Adds(a: bv32, b: bv32)
    ensures Shr4(Xor(a, b)) == Xor(Shr4(a), Shr4(b))
  {
  }

  lemma Shl31Adds(a: bv32, b: bv32)
    ensures Shl31(Xor(a, b)) == Xor(Shl31(a), Shl31(b))
  {
  }

  lemma CarryAdds(a: bv32, b: bv32)
    ensures Carry(Xor(a, b)) == Xor(Carry(a), Carry(b))
  {
  }

  lemma Mix1Adds(x: bv32, y: bv32, p: bv32, q: bv32)
    ensures Mix1(Xor(x, p), Xor(y, q)) == Xor(Mix1(x, y), Mix1(p, q))
  {
    Shr1Adds(y, q);
    Shl31Adds(x, p);
    XorSwap(Shr1(y), Shr1(q), Shl31(x), Shl31(p));
  }

  lemma Head1Adds(a: bv32, d: bv32, p: bv32, q: bv32)
    ensures Head1(Xor(a, p), Xor(d, q)) == Xor(Head1(a, d), Head1(p, q))
  {
    Shr1Adds(a, p);
    CarryAdds(d, q);
    XorSwap(Shr1(a), Shr1(p), Carry(d), Carry(q));
  }

  lemma XorSelf(a: bv32)
    ensures Xor(a, a) == 0
  {
  }

  lemma XLaws(a: Elt, b: Elt, c: Elt)
    ensures X(X(a, b), c) == X(a, X(b, c)) && X(a, b) == X(b, a) && X(a, a) == ZERO && X(a, ZERO) == a
  {
    XorAssoc(a.w0, b.w0, c.w0);
    XorAssoc(a.w1, b.w1, c.w1);
    XorAssoc(a.w2, b.w2, c.w2);
    XorAssoc(a.w3, b.w3, c.w3);
    XorComm(a.w0, b.w0);
    XorComm(a.w1, b.w1);
    XorComm(a.w2, b.w2);
    XorComm(a.w3, b.w3);
    XSame(a);
  }

  lemma XSame(a: Elt)
    ensures X(a, a) == ZERO && X(a, ZERO) == a
  {
    XorSelf(a.w0);
    XorSelf(a.w1);
    XorSelf(a.w2);
    XorSelf(a.w3);
    XorZero(a.w0);
    XorZero(a.w1);
    XorZero(a.w2);
    XorZero(a.w3);
  }

  lemma XShift(a: Elt, b: Elt)
    ensures Shift(X(a, b)) == X(Shift(a), Shift(b))
  {
    Head1Adds(a.w0, a.w3, b.w0, b.w3);
    Mix1Adds(a.w0, a.w1, b.w0, b.w1);
    Mix1Adds(a.w1, a.w2, b.w1, b.w2);
    Mix1Adds(a.w2, a.w3, b.w2, b.w3);
  }

  lemma OpsLawful()
    ensures Laws(Ops())
  {
    var r := Ops();
    forall a {:trigger One(a)} | One(a)
      ensures r.xor(a, a) == r.zero && r.xor(a, r.zero) == a
    {
      XSame(a);
    }
    forall a, b {:trigger Two(a, b)} | Two(a, b)
      ensures r.xor(a, b) == r.xor(b, a) && r.shift(r.xor(a, b)) == r.xor(r.shift(a), r.shift(b))
    {
      XLaws(a, b, a);
      XShift(a, b);
    }
    forall a, b, c {:trigger Three(a, b, c)} | Three(a, b, c)
      ensures r.xor(r.xor(a, b), c) == r.xor(a, r.xor(b, c))
    {
      XLaws(a, b, c);
    }
  }

  // -------------------------------------------- shifting by four and by eight

  // What the last 2, 4 or 8 bits reduce to.
  function Red2(d: bv32): bv32 { Xor(Shr1(Carry(d)), Carry(Shr1(d))) }
  function Red4(d: bv32): bv32 { Xor(Shr2(Red2(d)), Red2(Shr2(d))) }
  function Red8(d: bv32): bv32 { Xor(Shr4(Red4(d)), Red4(Shr4(d))) }

  function Head2(a: bv32, d: bv32): bv32 { Xor(Shr2(a), Red2(d)) }
  function Head4(a: bv32, d: bv32): bv32 { Xor(Shr4(a), Red4(d)) }
  function Head8(a: bv32, d: bv32): bv32 { Xor(Shr8(a), Red8(d)) }
  function Mix2(x: bv32, y: bv32): bv32 { Xor(Shr2(y), Shl30(x)) }
  function Mix4(x: bv32, y: bv32): bv32 { Xor(Shr4(y), Shl28(x)) }
  function Mix8(x: bv32, y: bv32): bv32 { Xor(Shr8(y), Shl24(x)) }

  lemma Ends1(x: bv32)
    ensures Xor(Shr1(Shl31(x)), Shl31(Shr1(x))) == Shl30(x)
  {
  }

  lemma Shr1Twice(x: bv32)
    ensures Shr1(Shr1(x)) == Shr2(x)
  {
  }

  // The first word of a pair only matters through its last 1 bit.
  lemma Mix1Twice(p: bv32, x: bv32, y: bv32)
    requires Shl31(p) == Shl31(Shr1(x))
    ensures Mix1(p, Mix1(x, y)) == Mix2(x, y)
  {
    Shr1Adds(Shr1(y), Shl31(x));
    Shr1Twice(y);
    XorAssoc(Shr2(y), Shr1(Shl31(x)), Shl31(Shr1(x)));
    Ends1(x);
  }

  lemma Last1(w: bv32, x: bv32, d: bv32)
    ensures Shl31(Mix1(w, x)) == Shl31(Shr1(x))
    ensures Shl31(Head1(x, d)) == Shl31(Shr1(x))
  {
  }

  lemma Ends2(x: bv32)
    ensures Xor(Shr2(Shl30(x)), Shl30(Shr2(x))) == Shl28(x)
  {
  }

  lemma Shr2Twice(x: bv32)
    ensures Shr2(Shr2(x)) == Shr4(x)
  {
  }

  // The first word of a pair only matters through its last 2 bits.
  lemma Mix2Twice(p: bv32, x: bv32, y: bv32)
    requires Shl30(p) == Shl30(Shr2(x))
    ensures Mix2(p, Mix2(x, y)) == Mix4(x, y)
  {
    Shr2Adds(Shr2(y), Shl30(x));
    Shr2Twice(y);
    XorAssoc(Shr4(y), Shr2(Shl30(x)), Shl30(Shr2(x)));
    Ends2(x);
  }

  lemma Last2(w: bv32, x: bv32, d: bv32)
    ensures Shl30(Mix2(w, x)) == Shl30(Shr2(x))
    ensures Shl30(Head2(x, d)) == Shl30(Shr2(x))
  {
  }

  lemma Ends4(x: bv32)
    ensures Xor(Shr4(Shl28(x)), Shl28(Shr4(x))) == Shl24(x)
  {
  }

  lemma Shr4Twice(x: bv32)
    ensures Shr4(Shr4(x)) == Shr8(x)
  {
  }

  // The first word of a pair only matters through its last 4 bits.
  lemma Mix4Twice(p: bv32, x: bv32, y: bv32)
    requires Shl28(p) == Shl28(Shr4(x))
    ensures Mix4(p, Mix4(x, y)) == Mix8(x, y)
  {
    Shr4Adds(Shr4(y), Shl28(x));
    Shr4Twice(y);
    XorAssoc(Shr8(y), Shr4(Shl28(x)), Shl28(Shr4(x)));
    Ends4(x);
  }

  lemma Last4(w: bv32, x: bv32, d: bv32)
    ensures Shl28(Mix4(w, x)) == Shl28(Shr4(x))
    ensures Shl28(Head4(x, d)) == Shl28(Shr4(x))
  {
  }

  lemma Red1Mix(c: bv32, d: bv32)
    ensures Carry(Mix1(c, d)) == Carry(Shr1(d))
  {
  }

  lemma Red2Mix(c: bv32, d: bv32)
    ensures Red2(Mix2(c, d)) == Red2(Shr2(d))
  {
  }

  lemma Red4Mix(c: bv32, d: bv32)
    ensures Red4(Mix4(c, d)) == Red4(Shr4(d))
  {
  }

  lemma Head1Twice(a: bv32, c: bv32, d: bv32)
    ensures Head1(Head1(a, d), Mix1(c, d)) == Head2(a, d)
  {
    Red1Mix(c, d);
    Shr1Twice(a);
    Shr1Adds(Shr1(a), Carry(d));
    XorAssoc(Shr2(a), Shr1(Carry(d)), Carry(Shr1(d)));
  }

  lemma Head2Twice(a: bv32, c: bv32, d: bv32)
    ensures Head2(Head2(a, d), Mix2(c, d)) == Head4(a, d)
  {
    Red2Mix(c, d);
    Shr2Twice(a);
    Shr2Adds(Shr2(a), Red2(d));
    XorAssoc(Shr4(a), Shr2(Red2(d)), Red2(Shr2(d)));
  }

  lemma Head4Twice(a: bv32, c: bv32, d: bv32)
    ensures Head4(Head4(a, d), Mix4(c, d)) == Head8(a, d)
  {
    Red4Mix(c, d);
    Shr4Twice(a);
    Shr4Adds(Shr4(a), Red4(d));
    XorAssoc(Shr8(a), Shr4(Red4(d)), Red4(Shr4(d)));
  }

  function Shift2(v: Elt): Elt { Elt(Head2(v.w0, v.w3), Mix2(v.w0, v.w1), Mix2(v.w1, v.w2), Mix2(v.w2, v.w3)) }
  function Shift4(v: Elt): Elt { Elt(Head4(v.w0, v.w3), Mix4(v.w0, v.w1), Mix4(v.w1, v.w2), Mix4(v.w2, v.w3)) }
  function Shift8(v: Elt): Elt { Elt(Head8(v.w0, v.w3), Mix8(v.w0, v.w1), Mix8(v.w1, v.w2), Mix8(v.w2, v.w3)) }

  lemma ShiftTwice(v: Elt)
    ensures Shift(Shift(v)) == Shift2(v)
  {
    Head1Twice(v.w0, v.w2, v.w3);
    Last1(v.w0, v.w0, v.w3);
    Mix1Twice(Head1(v.w0, v.w3), v.w0, v.w1);
    Last1(v.w0, v.w1, 0);
    Mix1Twice(Mix1(v.w0, v.w1), v.w1, v.w2);
    Last1(v.w1, v.w2, 0);
    Mix1Twice(Mix1(v.w1, v.w2), v.w2, v.w3);
  }

  lemma Shift2Twice(v: Elt)
    ensures Shift2(Shift2(v)) == Shift4(v)
  {
    Head2Twice(v.w0, v.w2, v.w3);
    Last2(v.w0, v.w0, v.w3);
    Mix2Twice(Head2(v.w0, v.w3), v.w0, v.w1);
    Last2(v.w0, v.w1, 0);
    Mix2Twice(Mix2(v.w0, v.w1), v.w1, v.w2);
    Last2(v.w1, v.w2, 0);
    Mix2Twice(Mix2(v.w1, v.w2), v.w2, v.w3);
  }

  lemma Shift4Twice(v: Elt)
    ensures Shift4(Shift4(v)) == Shift8(v)
  {
    Head4Twice(v.w0, v.w2, v.w3);
    Last4(v.w0, v.w0, v.w3);
    Mix4Twice(Head4(v.w0, v.w3), v.w0, v.w1);
    Last4(v.w0, v.w1, 0);
    Mix4Twice(Mix4(v.w0, v.w1), v.w1, v.w2);
    Last4(v.w1, v.w2, 0);
    Mix4Twice(Mix4(v.w1, v.w2), v.w2, v.w3);
  }

  // Four and eight single shifts are one reduction.
  lemma Shifts4(v: Elt)
    ensures Shifts(Ops(), 4, v) == Shift4(v)
  {
    var u := Shift(Shift(v));
    ShiftsSum(Ops(), 2, 2, v);
    assert Shifts(Ops(), 2, v) == u by { assert Shifts(Ops(), 1, Shift(v)) == Shifts(Ops(), 0, u); }
    assert Shifts(Ops(), 2, u) == Shift(Shift(u)) by { assert Shifts(Ops(), 1, Shift(u)) == Shifts(Ops(), 0, Shift(Shift(u))); }
    ShiftTwice(v);
    ShiftTwice(u);
    Shift2Twice(v);
  }

  lemma Shifts8(v: Elt)
    ensures Shifts(Ops(), 8, v) == Shift8(v)
  {
    ShiftsSum(Ops(), 4, 4, v);
    Shifts4(v);
    Shifts4(Shift4(v));
    Shift4Twice(v);
  }

  // ------------------------------------------------ the table of reductions

  function Nibble(a: bool, b: bool, c: bool, d: bool): (n: nat)
    ensures n < 16
  {
    (if a then 8 else 0) + (if b then 4 else 0) + (if c then 2 else 0) + (if d then 1 else 0)
  }

  // d & 0xf and (d >> 4) & 0xf as indices
  function LowNibble(d: bv32): (n: nat)
    ensures n < 16
  {
    Nibble(d & 8 != 0, d & 4 != 0, d & 2 != 0, d & 1 != 0)
  }

  function NextNibble(d: bv32): (n: nat)
    ensures n < 16
  {
    Nibble(d & 0x80 != 0, d & 0x40 != 0, d & 0x20 != 0, d & 0x10 != 0)
  }

  function If(c: bool, v: bv32): bv32 { if c then v else 0 }

  lemma BitOfNibble(a: bool, b: bool, c: bool, d: bool, v: bv32)
    ensures var n := Nibble(a, b, c, d);
            Bit(n, 8, v) == If(a, v) && Bit(n, 4, v) == If(b, v) && Bit(n, 2, v) == If(c, v) && Bit(n, 1, v) == If(d, v)
  {
  }

  function Shl16(a: bv32): bv32 { a << 16 }

  function LowSum(d: bv32): bv32
  {
    Xor(Xor(If(d & 8 != 0, 0x0e10), If(d & 4 != 0, 0x0708)), Xor(If(d & 2 != 0, 0x0384), If(d & 1 != 0, 0x01c2)))
  }

  function HighSum(d: bv32): bv32
  {
    Xor(Xor(If(d & 0x80 != 0, 0xe100), If(d & 0x40 != 0, 0x7080)), Xor(If(d & 0x20 != 0, 0x3840), If(d & 0x10 != 0, 0x1c20)))
  }

  lemma LowIsSum(d: bv32)
    ensures Low(LowNibble(d)) == LowSum(d)
  {
    BitOfNibble(d & 8 != 0, d & 4 != 0, d & 2 != 0, d & 1 != 0, 0x0e10);
    BitOfNibble(d & 8 != 0, d & 4 != 0, d & 2 != 0, d & 1 != 0, 0x0708);
    BitOfNibble(d & 8 != 0, d & 4 != 0, d & 2 != 0, d & 1 != 0, 0x0384);
    BitOfNibble(d & 8 != 0, d & 4 != 0, d & 2 != 0, d & 1 != 0, 0x01c2);
  }

  lemma HighIsSum(d: bv32)
    ensures High(NextNibble(d)) == HighSum(d)
  {
    BitOfNibble(d & 0x80 != 0, d & 0x40 != 0, d & 0x20 != 0, d & 0x10 != 0, 0xe100);
    BitOfNibble(d & 0x80 != 0, d & 0x40 != 0, d & 0x20 != 0, d & 0x10 != 0, 0x7080);
    BitOfNibble(d & 0x80 != 0, d & 0x40 != 0, d & 0x20 != 0, d & 0x10 != 0, 0x3840);
    BitOfNibble(d & 0x80 != 0, d & 0x40 != 0, d & 0x20 != 0, d & 0x10 != 0, 0x1c20);
  }

  lemma SumIsRed8(d: bv32)
    ensures Shl16(Xor(HighSum(d), LowSum(d))) == Red8(d)
  {
  }

  lemma TableRed8(d: bv32)
    ensures Shl16(GcmR(NextNibble(d), LowNibble(d))) == Red8(d)
  {
    TableLinear(NextNibble(d), LowNibble(d));
    HighIsSum(d);
    LowIsSum(d);
    SumIsRed8(d);
  }

  function TopSum(d: bv32): bv32
  {
    Xor(Xor(If(d & 8 != 0, 0xe100), If(d & 4 != 0, 0x7080)), Xor(If(d & 2 != 0, 0x3840), If(d & 1 != 0, 0x1c20)))
  }

  lemma TopIsSum(d: bv32)
    ensures High(LowNibble(d)) == TopSum(d)
  {
    BitOfNibble(d & 8 != 0, d & 4 != 0, d & 2 != 0, d & 1 != 0, 0xe100);
    BitOfNibble(d & 8 != 0, d & 4 != 0, d & 2 != 0, d & 1 != 0, 0x7080);
    BitOfNibble(d & 8 != 0, d & 4 != 0, d & 2 != 0, d & 1 != 0, 0x3840);
    BitOfNibble(d & 8 != 0, d & 4 != 0, d & 2 != 0, d & 1 != 0, 0x1c20);
  }

  lemma TopIsRed4(d: bv32)
    ensures Shl16(TopSum(d)) == Red4(d)
  {
  }

  lemma LowOfZero()
    ensures Low(0) == 0
  {
    XorZero(0);
  }

  lemma TableRed4(d: bv32)
    ensures Shl16(GcmR(LowNibble(d), 0)) == Red4(d)
  {
    TableLinear(LowNibble(d), 0);
    LowOfZero();
    TopIsSum(d);
    XorZero(TopSum(d));
    TopIsRed4(d);
  }

  // --------------------------------------------------- blocks of octets

  function NibbleBits(n: nat): seq<bool>
  {
    [n / 8 % 2 == 1, n / 4 % 2 == 1, n / 2 % 2 == 1, n % 2 == 1]
  }

  // The bits of an octet, the highest first.
  function OctetBits(b: bv8): (s: seq<bool>)
    ensures |s| == 8
  {
    [b & 0x80 != 0, b & 0x40 != 0, b & 0x20 != 0, b & 0x10 != 0, b & 8 != 0, b & 4 != 0, b & 2 != 0, b & 1 != 0]
  }

  // b >> 4 and b & 0xf as indices
  function FirstHalf(b: bv8): (n: nat)
    ensures n < 16
  {
    Nibble(b & 0x80 != 0, b & 0x40 != 0, b & 0x20 != 0, b & 0x10 != 0)
  }

  function SecondHalf(b: bv8): (n: nat)
    ensures n < 16
  {
    Nibble(b & 8 != 0, b & 4 != 0, b & 2 != 0, b & 1 != 0)
  }

  lemma BitsOfNibble(a: bool, b: bool, c: bool, d: bool)
    ensures NibbleBits(Nibble(a, b, c, d)) == [a, b, c, d]
  {
  }

  lemma EightBits(a: bool, b: bool, c: bool, d: bool, e: bool, f: bool, g: bool, h: bool)
    ensures [a, b, c, d] + [e, f, g, h] == [a, b, c, d, e, f, g, h]
  {
  }

  lemma HalvesOfOctet(b: bv8)
    ensures OctetBits(b) == NibbleBits(FirstHalf(b)) + NibbleBits(SecondHalf(b))
  {
    EightBits(b & 0x80 != 0, b & 0x40 != 0, b & 0x20 != 0, b & 0x10 != 0, b & 8 != 0, b & 4 != 0, b & 2 != 0, b & 1 != 0);
    BitsOfNibble(b & 0x80 != 0, b & 0x40 != 0, b & 0x20 != 0, b & 0x10 != 0);
    BitsOfNibble(b & 8 != 0, b & 4 != 0, b & 2 != 0, b & 1 != 0);
  }

  function BitsOf(): bv8 -> seq<bool> { (b: bv8) => OctetBits(b) }

  // The bits of a block, in the order of the standard.
  function Bits(bs: seq<bv8>): seq<bool>
  {
    AllBits(BitsOf(), bs)
  }

  // buf_get_be32, four times
  function Load(bs: seq<bv8>): Elt
    requires |bs| == 16
  {
    Elt(Octets(bs[0], bs[1], bs[2], bs[3]), Octets(bs[4], bs[5], bs[6], bs[7]),
        Octets(bs[8], bs[9], bs[10], bs[11]), Octets(bs[12], bs[13], bs[14], bs[15]))
  }

  // buf_put_be32, four times
  function Store(v: Elt): (bs: seq<bv8>)
    ensures |bs| == 16
  {
    [Oct1(v.w0), Oct2(v.w0), Oct3(v.w0), Oct4(v.w0), Oct1(v.w1), Oct2(v.w1), Oct3(v.w1), Oct4(v.w1),
     Oct1(v.w2), Oct2(v.w2), Oct3(v.w2), Oct4(v.w2), Oct1(v.w3), Oct2(v.w3), Oct3(v.w3), Oct4(v.w3)]
  }

  // ----------------------- a loaded block is the polynomial its bits spell

  function At0(b: bv8): bv32 { (b as bv32) << 24 }
  function At1(b: bv8): bv32 { (b as bv32) << 16 }
  function At2(b: bv8): bv32 { (b as bv32) << 8 }
  function At3(b: bv8): bv32 { b as bv32 }

  lemma OctetsPlaced(a: bv8, b: bv8, c: bv8, d: bv8)
    ensures Octets(a, b, c, d) == Xor(At0(a), Xor(At1(b), Xor(At2(c), At3(d))))
  {
  }

  // An octet in one of the sixteen places of a block.
  function Place(n: nat, b: bv8): Elt
    requires n < 16
  {
    var w := if n % 4 == 0 then At0(b) else if n % 4 == 1 then At1(b) else if n % 4 == 2 then At2(b) else At3(b);
    if n / 4 == 0 then Elt(w, 0, 0, 0) else if n / 4 == 1 then Elt(0, w, 0, 0)
    else if n / 4 == 2 then Elt(0, 0, w, 0) else Elt(0, 0, 0, w)
  }

  lemma PlacesRight(b: bv8)
    ensures Shr8(At0(b)) == At1(b) && Shr8(At1(b)) == At2(b) && Shr8(At2(b)) == At3(b) && Shr8(At3(b)) == 0
  {
  }

  lemma PlacesLeft(b: bv8)
    ensures Shl24(At0(b)) == 0 && Shl24(At1(b)) == 0 && Shl24(At2(b)) == 0 && Shl24(At3(b)) == At0(b)
  {
  }

  lemma NothingOut(b: bv8)
    ensures Red8(At0(b)) == 0 && Red8(At1(b)) == 0 && Red8(At2(b)) == 0
  {
  }

  lemma ZeroWord()
    ensures Shr8(0) == 0 && Shl24(0) == 0 && Red8(0) == 0 && Xor(0, 0) == 0
  {
  }

  lemma XorOfZero(a: bv32)
    ensures Xor(a, 0) == a && Xor(0, a) == a
  {
  }

  lemma ShiftInFirst(w: bv32)
    ensures Shift8(Elt(w, 0, 0, 0)) == Elt(Shr8(w), Shl24(w), 0, 0)
    ensures Shift8(Elt(0, w, 0, 0)) == Elt(0, Shr8(w), Shl24(w), 0)
  {
    ZeroWord();
    XorOfZero(Shr8(w));
    XorOfZero(Shl24(w));
  }

  lemma ShiftInLast(w: bv32)
    ensures Shift8(Elt(0, 0, w, 0)) == Elt(0, 0, Shr8(w), Shl24(w))
    ensures Shift8(Elt(0, 0, 0, w)) == Elt(Red8(w), 0, 0, Shr8(w))
  {
    ZeroWord();
    XorOfZero(Shr8(w));
    XorOfZero(Shl24(w));
    XorOfZero(Red8(w));
  }

  lemma PlaceNext(n: nat, b: bv8)
    requires n < 15
    ensures Shift8(Place(n, b)) == Place(n + 1, b)
  {
    PlacesRight(b);
    PlacesLeft(b);
    NothingOut(b);
    var w := if n % 4 == 0 then At0(b) else if n % 4 == 1 then At1(b) else if n % 4 == 2 then At2(b) else At3(b);
    ShiftInFirst(w);
    ShiftInLast(w);
  }

  // Words in first place only.
  function W(w: bv32): Elt { Elt(w, 0, 0, 0) }

  // The first bit of an octet of n bits to come, at the front of a word.
  function Front(n: nat): bv32
  {
    match n
    case 0 => 0x0080_0000
    case 1 => 0x0100_0000
    case 2 => 0x0200_0000
    case 3 => 0x0400_0000
    case 4 => 0x0800_0000
    case 5 => 0x1000_0000
    case 6 => 0x2000_0000
    case 7 => 0x4000_0000
    case _ => 0x8000_0000
  }

  lemma FrontShifts(n: nat)
    requires 0 < n <= 8
    ensures Shift(W(Front(n))) == W(Front(n - 1))
  {
  }

  lemma TwoWords(c: bool, d: bool, v: bv32, w: bv32, rest: bv32)
    ensures Pair(Ops(), c, d, W(v), W(w), W(rest)) == W(Two2(c, d, v, w, rest))
  {
    XorOfZero(0);
  }

  function Two2(c: bool, d: bool, v: bv32, w: bv32, rest: bv32): bv32 { Xor(If(c, v), Xor(If(d, w), rest)) }

  lemma FourWords(a: bool, b: bool, c: bool, d: bool, u: bv32, v: bv32, w: bv32, x: bv32, rest: bv32, p: bv32)
    requires p == Two2(a, b, u, v, Two2(c, d, w, x, rest))
    ensures Pair(Ops(), a, b, W(u), W(v), Pair(Ops(), c, d, W(w), W(x), W(rest))) == W(p)
  {
    TwoWords(c, d, w, x, rest);
    TwoWords(a, b, u, v, Two2(c, d, w, x, rest));
  }

  // Four more bits at the front of a word.
  lemma FrontFour(a: bool, b: bool, c: bool, d: bool, rest: seq<bool>, n: nat, q: bv32, p: bv32)
    requires 4 <= n <= 8 && Mul(Ops(), rest, W(Front(n - 4))) == W(q)
    requires p == Two2(a, b, Front(n), Front(n - 1), Two2(c, d, Front(n - 2), Front(n - 3), q))
    ensures Mul(Ops(), [a, b, c, d] + rest, W(Front(n))) == W(p)
  {
    FrontShifts(n);
    FrontShifts(n - 1);
    FrontShifts(n - 2);
    FrontShifts(n - 3);
    MulFour(Ops(), a, b, c, d, rest, W(Front(n)), W(Front(n - 1)), W(Front(n - 2)), W(Front(n - 3)), W(Front(n - 4)));
    FourWords(a, b, c, d, Front(n), Front(n - 1), Front(n - 2), Front(n - 3), q, p);
  }

  function HalfSum(a: bool, b: bool, c: bool, d: bool, n: nat, rest: bv32): bv32
    requires n >= 3
  {
    Two2(a, b, Front(n), Front(n - 1), Two2(c, d, Front(n - 2), Front(n - 3), rest))
  }

  lemma OctetSum(b: bv8, s: seq<bool>)
    requires s == OctetBits(b)
    ensures At0(b) == HalfSum(s[0], s[1], s[2], s[3], 8, HalfSum(s[4], s[5], s[6], s[7], 4, 0))
  {
  }

  lemma LastFour(t: seq<bool>, q: bv32)
    requires |t| == 4 && q == HalfSum(t[0], t[1], t[2], t[3], 4, 0)
    ensures Mul(Ops(), t, W(Front(4))) == W(q)
  {
    var none: seq<bool> := [];
    FrontFour(t[0], t[1], t[2], t[3], none, 4, 0, q);
    assert [t[0], t[1], t[2], t[3]] + none == t;
  }

  lemma FirstFour(s: seq<bool>, t: seq<bool>, q: bv32, p: bv32)
    requires |s| == 8 && t == s[4..] && Mul(Ops(), t, W(Front(4))) == W(q) && p == HalfSum(s[0], s[1], s[2], s[3], 8, q)
    ensures Mul(Ops(), s, W(Front(8))) == W(p)
  {
    FrontFour(s[0], s[1], s[2], s[3], t, 8, q, p);
    assert [s[0], s[1], s[2], s[3]] + t == s;
  }

  lemma OctetProduct(b: bv8, s: seq<bool>)
    requires s == OctetBits(b)
    ensures Mul(Ops(), s, UNIT) == W(At0(b))
  {
    var q := HalfSum(s[4], s[5], s[6], s[7], 4, 0);
    OctetSum(b, s);
    LastFour(s[4..], q);
    FirstFour(s, s[4..], q, At0(b));
  }

  function PlaceOf(): (nat, bv8) -> Elt { (n: nat, b: bv8) => if n < 16 then Place(n, b) else ZERO }

  lemma OctetPlacing()
    ensures Placing(Ops(), BitsOf(), PlaceOf(), UNIT)
  {
    forall b {:trigger One(b)} | One(b)
      ensures Mul(Ops(), OctetBits(b), UNIT) == Place(0, b)
    {
      OctetProduct(b, OctetBits(b));
    }
    forall n: nat, b {:trigger At(n, b)} | At(n, b) && n < 15
      ensures Shifts(Ops(), 8, Place(n, b)) == Place(n + 1, b)
    {
      Shifts8(Place(n, b));
      PlaceNext(n, b);
    }
  }

  function WordAt(q: nat, w: bv32): Elt
  {
    if q == 0 then Elt(w, 0, 0, 0) else if q == 1 then Elt(0, w, 0, 0) else if q == 2 then Elt(0, 0, w, 0) else Elt(0, 0, 0, w)
  }

  lemma WordsAdd(q: nat, a: bv32, b: bv32)
    ensures X(WordAt(q, a), WordAt(q, b)) == WordAt(q, Xor(a, b))
  {
    XorOfZero(0);
    if q == 0 {
    } else if q == 1 {
    } else if q == 2 {
    } else {
    }
  }

  lemma PlaceIsWord(q: nat, b: bv8)
    requires q < 4
    ensures Place(4 * q, b) == WordAt(q, At0(b)) && Place(4 * q + 1, b) == WordAt(q, At1(b))
    ensures Place(4 * q + 2, b) == WordAt(q, At2(b)) && Place(4 * q + 3, b) == WordAt(q, At3(b))
  {
  }

  lemma FourPlaces(q: nat, a: bv8, b: bv8, c: bv8, d: bv8, rest: Elt)
    requires q < 4
    ensures X(Place(4 * q, a), X(Place(4 * q + 1, b), X(Place(4 * q + 2, c), X(Place(4 * q + 3, d), rest))))
            == X(WordAt(q, Octets(a, b, c, d)), rest)
  {
    var p0, p1, p2, p3 := Place(4 * q, a), Place(4 * q + 1, b), Place(4 * q + 2, c), Place(4 * q + 3, d);
    XLaws(p2, p3, rest);
    XLaws(p1, X(p2, p3), rest);
    XLaws(p0, X(p1, X(p2, p3)), rest);
    PlaceIsWord(q, a);
    PlaceIsWord(q, b);
    PlaceIsWord(q, c);
    PlaceIsWord(q, d);
    WordsAdd(q, At2(c), At3(d));
    WordsAdd(q, At1(b), Xor(At2(c), At3(d)));
    WordsAdd(q, At0(a), Xor(At1(b), Xor(At2(c), At3(d))));
    OctetsPlaced(a, b, c, d);
  }

  lemma PlaceAllFour(bs: seq<bv8>, q: nat)
    requires |bs| >= 4 && q < 4
    ensures PlaceAll(Ops(), PlaceOf(), bs, 4 * q)
            == X(WordAt(q, Octets(bs[0], bs[1], bs[2], bs[3])), PlaceAll(Ops(), PlaceOf(), bs[4..], 4 * q + 4))
  {
    var r, pl := Ops(), PlaceOf();
    assert bs[1..][1..] == bs[2..] && bs[2..][1..] == bs[3..] && bs[3..][1..] == bs[4..];
    assert PlaceAll(r, pl, bs, 4 * q) == X(Place(4 * q, bs[0]), PlaceAll(r, pl, bs[1..], 4 * q + 1));
    assert PlaceAll(r, pl, bs[1..], 4 * q + 1) == X(Place(4 * q + 1, bs[1]), PlaceAll(r, pl, bs[2..], 4 * q + 2));
    assert PlaceAll(r, pl, bs[2..], 4 * q + 2) == X(Place(4 * q + 2, bs[2]), PlaceAll(r, pl, bs[3..], 4 * q + 3));
    assert PlaceAll(r, pl, bs[3..], 4 * q + 3) == X(Place(4 * q + 3, bs[3]), PlaceAll(r, pl, bs[4..], 4 * q + 4));
    FourPlaces(q, bs[0], bs[1], bs[2], bs[3], PlaceAll(r, pl, bs[4..], 4 * q + 4));
  }

  lemma FourWordsAdd(a: bv32, b: bv32, c: bv32, d: bv32)
    ensures X(WordAt(0, a), X(WordAt(1, b), X(WordAt(2, c), X(WordAt(3, d), ZERO)))) == Elt(a, b, c, d)
  {
    XorOfZero(0);
    XorOfZero(a);
    XorOfZero(b);
    XorOfZero(c);
    XorOfZero(d);
  }

  lemma SumOfWords(bs: seq<bv8>, a: bv32, b: bv32, c: bv32, d: bv32)
    requires |bs| == 16
    requires a == Octets(bs[0], bs[1], bs[2], bs[3]) && b == Octets(bs[4], bs[5], bs[6], bs[7])
    requires c == Octets(bs[8], bs[9], bs[10], bs[11]) && d == Octets(bs[12], bs[13], bs[14], bs[15])
    ensures PlaceAll(Ops(), PlaceOf(), bs, 0) == X(WordAt(0, a), X(WordAt(1, b), X(WordAt(2, c), X(WordAt(3, d), ZERO))))
  {
    var b4, b8, b12 := bs[4..], bs[8..], bs[12..];
    assert b4[4..] == b8 && b8[4..] == b12 && b12[4..] == [];
    PlaceAllFour(bs, 0);
    PlaceAllFour(b4, 1);
    PlaceAllFour(b8, 2);
    PlaceAllFour(b12, 3);
  }

  // Loading a block as big-endian words gives the polynomial its bits spell.
  lemma LoadSpells(bs: seq<bv8>)
    requires |bs| == 16
    ensures Load(bs) == Mul(Ops(), Bits(bs), UNIT)
  {
    OpsLawful();
    OctetPlacing();
    BitsSpell(Ops(), BitsOf(), PlaceOf(), UNIT, bs, 0);
    LoadIsSum(bs);
  }

  lemma LoadIsSum(bs: seq<bv8>)
    requires |bs| == 16
    ensures PlaceAll(Ops(), PlaceOf(), bs, 0) == Load(bs)
  {
    var v := Load(bs);
    SumOfWords(bs, v.w0, v.w1, v.w2, v.w3);
    FourWordsAdd(v.w0, v.w1, v.w2, v.w3);
  }

  // The two forms: bits of v selecting shifts of h, or the other way round.
  lemma FormsAgree(v: seq<bv8>, h: seq<bv8>)
    requires |v| == 16 && |h| == 16
    ensures Mul(Ops(), Bits(v), Load(h)) == Mul(Ops(), Bits(h), Load(v))
  {
    OpsLawful();
    LoadSpells(v);
    LoadSpells(h);
    MulMul(Ops(), Bits(v), Bits(h), UNIT);
  }
}
