// The table form of GHASH on 64-bit words (cipher-gcm.c where GCM_TABLES_USE_U64 is set):
// two words in place of four compute the same products.
module Ghash64 {
  import opened Words
  import opened Gf
  import opened GcmTable
  import opened Ghash
  import opened GhashCode

  datatype Elt64 = Elt64(hi: bv64, lo: bv64)

  function Hi(w: bv64): bv32 { (w >> 32) as bv32 }
  function Lo(w: bv64): bv32 { (w & 0xffff_ffff) as bv32 }

  // The same element on four words
  function Split(v: Elt64): Elt
  {
    Elt(Hi(v.hi), Lo(v.hi), Hi(v.lo), Lo(v.lo))
  }

  function Xor64(a: bv64, b: bv64): bv64 { a ^ b }
  function Down1(w: bv64): bv64 { w >> 1 }
  function Down4(w: bv64): bv64 { w >> 4 }
  function Down8(w: bv64): bv64 { w >> 8 }
  function Up63(w: bv64): bv64 { w << 63 }
  function Up60(w: bv64): bv64 { w << 60 }
  function Up56(w: bv64): bv64 { w << 56 }
  function Carry64(w: bv64): bv64 { if w & 1 != 0 then 0xe100_0000_0000_0000 else 0 }

  // (u64) gcmR[..] << 48
  function Reduced(r: bv32): bv64 { (r as bv64) << 48 }

  lemma XorParts(a: bv64, b: bv64)
    ensures Hi(Xor64(a, b)) == Xor(Hi(a), Hi(b)) && Lo(Xor64(a, b)) == Xor(Lo(a), Lo(b))
  {
  }

  lemma Down1Parts(w: bv64)
    ensures Hi(Down1(w)) == Shr1(Hi(w)) && Lo(Down1(w)) == Mix1(Hi(w), Lo(w))
  {
  }

  lemma Down4Parts(w: bv64)
    ensures Hi(Down4(w)) == Shr4(Hi(w)) && Lo(Down4(w)) == Mix4(Hi(w), Lo(w))
  {
  }

  lemma Down8Parts(w: bv64)
    ensures Hi(Down8(w)) == Shr8(Hi(w)) && Lo(Down8(w)) == Mix8(Hi(w), Lo(w))
  {
  }

  lemma UpParts(w: bv64)
    ensures Hi(Up63(w)) == Shl31(Lo(w)) && Lo(Up63(w)) == 0
    ensures Hi(Up60(w)) == Shl28(Lo(w)) && Lo(Up60(w)) == 0
    ensures Hi(Up56(w)) == Shl24(Lo(w)) && Lo(Up56(w)) == 0
  {
  }

  lemma CarryParts(w: bv64)
    ensures Hi(Carry64(w)) == Carry(Lo(w)) && Lo(Carry64(w)) == 0
  {
  }

  lemma ReducedParts(r: bv32)
    ensures Hi(Reduced(r)) == Shl16(r) && Lo(Reduced(r)) == 0
  {
  }

  lemma SplitOnce(a: Elt64, b: Elt64)
    requires Split(a) == Split(b)
    ensures a == b
  {
    SameWord(a.hi, b.hi);
    SameWord(a.lo, b.lo);
  }

  lemma SameWord(a: bv64, b: bv64)
    requires Hi(a) == Hi(b) && Lo(a) == Lo(b)
    ensures a == b
  {
  }

  // ------------------------------------------------- the same operations

  function X64(a: Elt64, b: Elt64): Elt64
  {
    Elt64(Xor64(a.hi, b.hi), Xor64(a.lo, b.lo))
  }

  // bshift
  function Shift64(v: Elt64): Elt64
  {
    Elt64(Xor64(Down1(v.hi), Carry64(v.lo)), Xor64(Down1(v.lo), Up63(v.hi)))
  }

  lemma XSplit(a: Elt64, b: Elt64)
    ensures Split(X64(a, b)) == X(Split(a), Split(b))
  {
    XorParts(a.hi, b.hi);
    XorParts(a.lo, b.lo);
  }

  // Two words moved down with what comes in at the front of each
  lemma Moved(h: bv64, l: bv64, c: bv64, u: bv64)
    requires Lo(c) == 0 && Lo(u) == 0
    ensures Split(Elt64(Xor64(h, c), Xor64(l, u))) == Elt(Xor(Hi(h), Hi(c)), Lo(h), Xor(Hi(l), Hi(u)), Lo(l))
  {
    XorParts(h, c);
    XorParts(l, u);
    XorZero(Lo(h));
    XorZero(Lo(l));
  }

  lemma ShiftSplit(v: Elt64)
    ensures Split(Shift64(v)) == Shift(Split(v))
  {
    Down1Parts(v.hi);
    Down1Parts(v.lo);
    UpParts(v.hi);
    CarryParts(v.lo);
    Moved(Down1(v.hi), Down1(v.lo), Carry64(v.lo), Up63(v.hi));
  }

  const ZERO64 := Elt64(0, 0)

  function Ops64(): Ring<Elt64>
  {
    Ring(ZERO64, (a, b) => X64(a, b), v => Shift64(v))
  }

  // The laws hold as they hold of the four words.
  lemma Ops64Lawful()
    ensures Laws(Ops64())
  {
    var r := Ops64();
    forall a: Elt64 {:trigger One(a)} | One(a)
      ensures r.xor(a, a) == r.zero && r.xor(a, r.zero) == a
    {
      XSplit(a, a);
      XSplit(a, ZERO64);
      XSame(Split(a));
      SplitOnce(X64(a, a), ZERO64);
      SplitOnce(X64(a, ZERO64), a);
    }
    forall a: Elt64, b: Elt64 {:trigger Two(a, b)} | Two(a, b)
      ensures r.xor(a, b) == r.xor(b, a) && r.shift(r.xor(a, b)) == r.xor(r.shift(a), r.shift(b))
    {
      Commutes(a, b);
      ShiftAdds(a, b);
    }
    forall a: Elt64, b: Elt64, c: Elt64 {:trigger Three(a, b, c)} | Three(a, b, c)
      ensures r.xor(r.xor(a, b), c) == r.xor(a, r.xor(b, c))
    {
      Associates(a, b, c);
    }
  }

  lemma Commutes(a: Elt64, b: Elt64)
    ensures X64(a, b) == X64(b, a)
  {
    XSplit(a, b);
    XSplit(b, a);
    XLaws(Split(a), Split(b), Split(a));
    SplitOnce(X64(a, b), X64(b, a));
  }

  lemma ShiftAdds(a: Elt64, b: Elt64)
    ensures Shift64(X64(a, b)) == X64(Shift64(a), Shift64(b))
  {
    XSplit(a, b);
    ShiftSplit(X64(a, b));
    ShiftSplit(a);
    ShiftSplit(b);
    XShift(Split(a), Split(b));
    XSplit(Shift64(a), Shift64(b));
    SplitOnce(Shift64(X64(a, b)), X64(Shift64(a), Shift64(b)));
  }

  lemma Associates(a: Elt64, b: Elt64, c: Elt64)
    ensures X64(X64(a, b), c) == X64(a, X64(b, c))
  {
    XSplit(a, b);
    XSplit(X64(a, b), c);
    XSplit(b, c);
    XSplit(a, X64(b, c));
    XLaws(Split(a), Split(b), Split(c));
    SplitOnce(X64(X64(a, b), c), X64(a, X64(b, c)));
  }

  // Products on two words are products on four.
  lemma {:induction false} MulSplit(bits: seq<bool>, g: Elt64)
    ensures Split(Mul(Ops64(), bits, g)) == Mul(Ops(), bits, Split(g))
    decreases |bits|
  {
    if bits != [] {
      MulSplit(bits[1..], Shift64(g));
      ShiftSplit(g);
      XSplit(g, Mul(Ops64(), bits[1..], Shift64(g)));
    }
  }

  // ---------------------------------------------------------- load and store

  // buf_get_be64
  function Octets64(a: bv8, b: bv8, c: bv8, d: bv8, e: bv8, f: bv8, g: bv8, h: bv8): bv64
  {
    ((Octets(a, b, c, d) as bv64) << 32) | (Octets(e, f, g, h) as bv64)
  }

  lemma OctetsParts(a: bv8, b: bv8, c: bv8, d: bv8, e: bv8, f: bv8, g: bv8, h: bv8)
    ensures var w := Octets64(a, b, c, d, e, f, g, h); Hi(w) == Octets(a, b, c, d) && Lo(w) == Octets(e, f, g, h)
  {
    WordParts(Octets(a, b, c, d), Octets(e, f, g, h));
  }

  lemma WordParts(x: bv32, y: bv32)
    ensures Hi(((x as bv64) << 32) | (y as bv64)) == x && Lo(((x as bv64) << 32) | (y as bv64)) == y
  {
  }

  function Word(s: seq<bv8>): bv64
    requires |s| == 8
  {
    Octets64(s[0], s[1], s[2], s[3], s[4], s[5], s[6], s[7])
  }

  function Load64(bs: seq<bv8>): Elt64
    requires |bs| == 16
  {
    Elt64(Word(bs[..8]), Word(bs[8..]))
  }

  lemma LoadSplit(bs: seq<bv8>)
    requires |bs| == 16
    ensures Split(Load64(bs)) == Load(bs)
  {
    OctetsParts(bs[0], bs[1], bs[2], bs[3], bs[4], bs[5], bs[6], bs[7]);
    OctetsParts(bs[8], bs[9], bs[10], bs[11], bs[12], bs[13], bs[14], bs[15]);
  }

  // buf_put_be64
  function Put64(w: bv64): (s: seq<bv8>)
    ensures |s| == 8
  {
    [Oct1(Hi(w)), Oct2(Hi(w)), Oct3(Hi(w)), Oct4(Hi(w)), Oct1(Lo(w)), Oct2(Lo(w)), Oct3(Lo(w)), Oct4(Lo(w))]
  }

  lemma StoreSplit(v: Elt64)
    ensures Put64(v.hi) + Put64(v.lo) == Store(Split(v))
  {
  }

  // ------------------------------------------------------------- do_fillM

  ghost predicate Table64(M: array<Elt64>, h: seq<bv8>)
    requires |h| == 16
    reads M
  {
    M.Length == 16 && forall n :: 0 <= n < 16 ==> Split(M[n]) == Multiple(Ops(), n, Load(h))
  }

  method FillM64(h: seq<bv8>) returns (M: array<Elt64>)
    requires |h| == 16
    ensures fresh(M) && Table64(M, h)
  {
    Ops64Lawful();
    M := FillMultiples(Ops64(), Load64(h));
    forall n: nat | n < 16 ensures Split(M[n]) == Multiple(Ops(), n, Load(h)) {
      MultipleSplit(n, h);
    }
  }

  lemma MultipleSplit(n: nat, h: seq<bv8>)
    requires |h| == 16
    ensures Split(Multiple(Ops64(), n, Load64(h))) == Multiple(Ops(), n, Load(h))
  {
    MulSplit(NibbleBits(n), Load64(h));
    LoadSplit(h);
  }

  // ------------------------------------------------------------- do_ghash

  // w & 0xf, and the nibble before it
  function LowNibble64(w: bv64): (n: nat)
    ensures n < 16
  {
    Nibble(w & 8 != 0, w & 4 != 0, w & 2 != 0, w & 1 != 0)
  }

  lemma NibbleOfLow(w: bv64)
    ensures LowNibble64(w) == LowNibble(Lo(w)) && LowNibble64(Down4(w)) == NextNibble(Lo(w))
  {
    LowBits(w);
    NextBits(w);
  }

  lemma LowBits(w: bv64)
    ensures (w & 8 != 0) == (Lo(w) & 8 != 0) && (w & 4 != 0) == (Lo(w) & 4 != 0)
    ensures (w & 2 != 0) == (Lo(w) & 2 != 0) && (w & 1 != 0) == (Lo(w) & 1 != 0)
  {
  }

  lemma NextBits(w: bv64)
    ensures (Down4(w) & 8 != 0) == (Lo(w) & 0x80 != 0) && (Down4(w) & 4 != 0) == (Lo(w) & 0x40 != 0)
    ensures (Down4(w) & 2 != 0) == (Lo(w) & 0x20 != 0) && (Down4(w) & 1 != 0) == (Lo(w) & 0x10 != 0)
  {
  }

  function Four(v: Elt64): Elt64
  {
    Elt64(Xor64(Down4(v.hi), Reduced(GcmR(LowNibble64(v.lo), 0))), Xor64(Down4(v.lo), Up60(v.hi)))
  }

  function Eight(v: Elt64): Elt64
  {
    Elt64(Xor64(Down8(v.hi), Reduced(GcmR(LowNibble64(Down4(v.lo)), LowNibble64(v.lo)))), Xor64(Down8(v.lo), Up56(v.hi)))
  }

  lemma FourSplit(v: Elt64)
    ensures Split(Four(v)) == GhashCode.Down4(Split(v))
  {
    var r := GcmR(LowNibble64(v.lo), 0);
    NibbleOfLow(v.lo);
    Down4Parts(v.hi);
    Down4Parts(v.lo);
    UpParts(v.hi);
    ReducedParts(r);
    Moved(Down4(v.hi), Down4(v.lo), Reduced(r), Up60(v.hi));
  }

  lemma EightSplit(v: Elt64)
    ensures Split(Eight(v)) == GhashCode.Down8(Split(v))
  {
    var r := GcmR(LowNibble64(Down4(v.lo)), LowNibble64(v.lo));
    NibbleOfLow(v.lo);
    Down8Parts(v.hi);
    Down8Parts(v.lo);
    UpParts(v.hi);
    ReducedParts(r);
    Moved(Down8(v.hi), Down8(v.lo), Reduced(r), Up56(v.hi));
  }

  // The word V[1], k octets of it used: zeros came in at the front.
  function Used(s: seq<bv8>, k: nat): (r: seq<bv8>)
    requires |s| == 8
    ensures |r| == 8
  {
    if k == 0 then s else [0] + Used(s, k - 1)[..7]
  }

  lemma {:induction false} UsedAt(s: seq<bv8>, k: nat, j: nat)
    requires |s| == 8 && k <= j < 8
    ensures Used(s, k)[j] == s[j - k]
  {
    if k > 0 { UsedAt(s, k - 1, j - 1); }
  }

  lemma LastOctet(s: seq<bv8>)
    requires |s| == 8
    ensures LowNibble64(Word(s)) == SecondHalf(s[7]) && LowNibble64(Down4(Word(s))) == FirstHalf(s[7])
  {
    OctetsParts(s[0], s[1], s[2], s[3], s[4], s[5], s[6], s[7]);
    NibbleOfLow(Word(s));
    NibblesOfOctets(s[4], s[5], s[6], s[7]);
  }

  lemma NibblesOfOctets(a: bv8, b: bv8, c: bv8, d: bv8)
    ensures LowNibble(Octets(a, b, c, d)) == SecondHalf(d) && NextNibble(Octets(a, b, c, d)) == FirstHalf(d)
  {
    LowBitsOf(a, b, c, d);
    NextBitsOf(a, b, c, d);
  }

  lemma LowBitsOf(a: bv8, b: bv8, c: bv8, d: bv8)
    ensures var w := Octets(a, b, c, d);
            && (w & 8 != 0) == (d & 8 != 0) && (w & 4 != 0) == (d & 4 != 0)
            && (w & 2 != 0) == (d & 2 != 0) && (w & 1 != 0) == (d & 1 != 0)
  {
  }

  lemma NextBitsOf(a: bv8, b: bv8, c: bv8, d: bv8)
    ensures var w := Octets(a, b, c, d);
            && (w & 0x80 != 0) == (d & 0x80 != 0) && (w & 0x40 != 0) == (d & 0x40 != 0)
            && (w & 0x20 != 0) == (d & 0x20 != 0) && (w & 0x10 != 0) == (d & 0x10 != 0)
  {
  }

  lemma DownOctet(s: seq<bv8>, t: seq<bv8>)
    requires |s| == 8 && t == [0] + s[..7]
    ensures Down4(Down4(Word(s))) == Word(t)
  {
    var w, u := Word(s), Word(t);
    OctetsParts(s[0], s[1], s[2], s[3], s[4], s[5], s[6], s[7]);
    OctetsParts(t[0], t[1], t[2], t[3], t[4], t[5], t[6], t[7]);
    DownTwice(w);
    Down8Parts(w);
    DownHigh(s[0], s[1], s[2], s[3]);
    DownLow(s[0], s[1], s[2], s[3], s[4], s[5], s[6], s[7]);
    SameWord(Down4(Down4(w)), u);
  }

  lemma DownTwice(w: bv64)
    ensures Down4(Down4(w)) == Down8(w)
  {
  }

  lemma DownHigh(a: bv8, b: bv8, c: bv8, d: bv8)
    ensures Shr8(Octets(a, b, c, d)) == Octets(0, a, b, c)
  {
  }

  lemma DownLow(a: bv8, b: bv8, c: bv8, d: bv8, e: bv8, f: bv8, g: bv8, h: bv8)
    ensures Mix8(Octets(a, b, c, d), Octets(e, f, g, h)) == Octets(d, e, f, g)
  {
  }

  // Both nibbles of an octet
  method OctetIn64(ghost b: bv8, low: nat, next: nat, ghost rest: seq<bv8>, M: array<Elt64>, ghost h: seq<bv8>, tmp0: Elt64) returns (tmp: Elt64)
    requires |h| == 16 && Table64(M, h) && low == SecondHalf(b) && next == FirstHalf(b)
    requires Split(tmp0) == Mul(Ops(), Bits(rest), Load(h))
    ensures Split(tmp) == Mul(Ops(), Bits([b] + rest), Load(h))
  {
    OctetStep(b, rest, Load(h), Split(tmp0));
    DownShifts(Split(tmp0));
    DownShifts(Split(M[low]));
    EightSplit(tmp0);
    FourSplit(M[low]);
    XSplit(Eight(tmp0), M[next]);
    tmp := X64(Eight(tmp0), M[next]);
    XSplit(tmp, Four(M[low]));
    tmp := X64(tmp, Four(M[low]));
  }

  // The first round, with tmp zero
  method First64(ghost b: bv8, low: nat, next: nat, M: array<Elt64>, ghost h: seq<bv8>) returns (tmp: Elt64)
    requires |h| == 16 && Table64(M, h) && low == SecondHalf(b) && next == FirstHalf(b)
    ensures Split(tmp) == Mul(Ops(), Bits([b]), Load(h))
  {
    FirstStepRight(b, Load(h));
    DownShifts(Split(M[low]));
    FourSplit(M[low]);
    tmp := X64(Four(M[low]), M[next]);
    XSplit(Four(M[low]), M[next]);
    assert [b] == [b] + [];
  }

  // The word that octet i of the block is in
  function Half(x: seq<bv8>, i: nat): (s: seq<bv8>)
    requires |x| == 16
    ensures |s| == 8
  {
    if i < 8 then x[..8] else x[8..]
  }

  function Behind(i: nat): (k: nat)
    requires i < 16
    ensures k < 8
  {
    if i < 8 then 7 - i else 15 - i
  }

  // V[1] when octet i of the block is next
  function Next(x: seq<bv8>, i: nat): bv64
    requires |x| == 16 && i < 16
    decreases 16 - i
  {
    if i == 15 then Word(x[8..]) else if i == 7 then Word(x[..8]) else Down4(Down4(Next(x, i + 1)))
  }

  lemma {:induction false} NextIs(x: seq<bv8>, i: nat)
    requires |x| == 16 && i < 16
    ensures Next(x, i) == Word(Used(Half(x, i), Behind(i)))
    decreases 16 - i
  {
    if i != 15 && i != 7 {
      NextIs(x, i + 1);
      DownOctet(Used(Half(x, i + 1), Behind(i + 1)), Used(Half(x, i), Behind(i)));
    }
  }

  lemma OctetAt(x: seq<bv8>, i: nat)
    requires |x| == 16 && i < 16
    ensures LowNibble64(Next(x, i)) == SecondHalf(x[i]) && LowNibble64(Down4(Next(x, i))) == FirstHalf(x[i])
  {
    NextIs(x, i);
    UsedAt(Half(x, i), Behind(i), 7);
    LastOctet(Used(Half(x, i), Behind(i)));
  }

  // One round: two nibbles off the end of V
  method Round64(V: bv64, ghost x: seq<bv8>, ghost i: nat, M: array<Elt64>, ghost h: seq<bv8>, tmp0: Elt64) returns (tmp: Elt64, W: bv64)
    requires |x| == 16 && i < 15 && V == Next(x, i) && |h| == 16 && Table64(M, h)
    requires Split(tmp0) == Mul(Ops(), Bits(x[i + 1..]), Load(h))
    ensures Split(tmp) == Mul(Ops(), Bits(x[i..]), Load(h)) && W == Down4(V)
  {
    OctetAt(x, i);
    W := Down4(V);
    tmp := OctetIn64(x[i], LowNibble64(V), LowNibble64(W), x[i + 1..], M, h, tmp0);
    assert [x[i]] + x[i + 1..] == x[i..];
  }

  method FirstRound64(V: bv64, ghost x: seq<bv8>, M: array<Elt64>, ghost h: seq<bv8>) returns (tmp: Elt64, W: bv64)
    requires |x| == 16 && V == Next(x, 15) && |h| == 16 && Table64(M, h)
    ensures Split(tmp) == Mul(Ops(), Bits(x[15..]), Load(h)) && W == Down4(V)
  {
    OctetAt(x, 15);
    W := Down4(V);
    tmp := First64(x[15], LowNibble64(V), LowNibble64(W), M, h);
    assert [x[15]] == x[15..];
  }

  // The loop over the octets of the block, four bits of V at a time
  method Loop64(x: seq<bv8>, M: array<Elt64>, ghost h: seq<bv8>) returns (tmp: Elt64)
    requires |x| == 16 && |h| == 16 && Table64(M, h)
    ensures Split(tmp) == Mul(Ops(), Bits(x), Load(h))
  {
    var V0, V1 := Word(x[..8]), Word(x[8..]);
    tmp, V1 := FirstRound64(V1, x, M, h);
    V1 := Down4(V1);
    var i := 14;
    while true
      invariant 0 <= i <= 14 && V0 == Next(x, 7) && V1 == Next(x, i)
      invariant Split(tmp) == Mul(Ops(), Bits(x[i + 1..]), Load(h))
      decreases i
    {
      tmp, V1 := Round64(V1, x, i, M, h, tmp);
      if i == 0 { break; }
      V1 := if i == 8 then V0 else Down4(V1);
      i := i - 1;
    }
    assert x[0..] == x;
  }

  // do_ghash
  method GhashTable64(result: array<bv8>, buf: seq<bv8>, M: array<Elt64>, ghost h: seq<bv8>)
    requires result.Length == 16 && |buf| == 16 && |h| == 16 && Table64(M, h)
    modifies result
    ensures result[..] == GhashStep(h, old(result[..]), buf)
  {
    var tmp := Loop64(XorBlock(result[..], buf), M, h);
    StoreSplit(tmp);
    PutBlock(result, Put64(tmp.hi) + Put64(tmp.lo));
  }
}
