// What the subkeys and the ending of CMAC are in the terms of section 5.3 and 6 of NIST SP
// 800-38B: multiplication by x in a binary field, and which subkey the last block takes.
// A polynomial over GF(2) is the number whose bits are its coefficients.
module CmacField {
  import opened Bytes
  import opened BlockCipher
  import opened Mac
  import opened MacCode

  // ------------------------------------------------------ xor on numbers

  lemma {:induction false} XorNatSame(a: nat)
    ensures XorNat(a, a) == 0 && XorNat(a, 0) == a
  {
    if a > 0 {
      XorNatSame(a / 2);
    }
  }

  function Shl(n: nat, v: nat): nat
  {
    if n == 0 then v else 2 * Shl(n - 1, v)
  }

  // Numbers cut at any bit are xored part by part.
  lemma {:induction false} XorSplit(n: nat, a: nat, b: nat, c: nat, d: nat)
    requires b < Pow2(n) && d < Pow2(n)
    ensures XorNat(Shl(n, a) + b, Shl(n, c) + d) == Shl(n, XorNat(a, c)) + XorNat(b, d)
  {
    if n > 0 {
      XorSplit(n - 1, a, b / 2, c, d / 2);
      XorSplitStep(Shl(n - 1, a), b, Shl(n - 1, c), d, Shl(n - 1, XorNat(a, c)));
    }
  }

  lemma XorSplitStep(a: nat, b: nat, c: nat, d: nat, x: nat)
    requires XorNat(a + b / 2, c + d / 2) == x + XorNat(b / 2, d / 2)
    ensures XorNat(2 * a + b, 2 * c + d) == 2 * x + XorNat(b, d)
  {
    XorNatBits(2 * a + b, 2 * c + d, x + XorNat(b / 2, d / 2), if b % 2 == d % 2 then 0 else 1);
    XorNatBits(b, d, XorNat(b / 2, d / 2), if b % 2 == d % 2 then 0 else 1);
  }

  lemma {:induction false} ShlOne(n: nat)
    ensures Shl(n, 1) == Pow2(n) && Shl(n, 0) == 0
  {
    if n > 0 {
      ShlOne(n - 1);
    }
  }

  lemma ShlEight(v: nat)
    ensures Shl(8, v) == 256 * v
  {
    assert Shl(1, v) == 2 * v;
    assert Shl(3, v) == 8 * v;
    assert Shl(5, v) == 32 * v;
    assert Shl(7, v) == 128 * v;
  }

  lemma {:induction false} Pow2Pow256(n: nat)
    ensures Pow2(8 * n) == Pow256(n)
  {
    if n > 0 {
      Pow2Pow256(n - 1);
      Pow2Adds(8, 8 * (n - 1));
      Pow2Of8();
    }
  }

  lemma {:induction false} Pow2Adds(m: nat, n: nat)
    ensures Pow2(m + n) == Pow2(m) * Pow2(n)
  {
    if m > 0 {
      Pow2Adds(m - 1, n);
    }
  }

  // ----------------------------------------------------- the reduction

  // Xoring into the last octet
  lemma LastXored(s: seq<byte>, x: byte)
    requires s != []
    ensures FromBe(s[|s| - 1 := Xor(s[|s| - 1], x)]) == XorNat(FromBe(s), x)
  {
    var n := |s| - 1;
    var t := s[n := Xor(s[n], x)];
    assert t[..n] == s[..n];
    Pow2Of8();
    ShlEight(FromBe(s[..n]));
    ShlEight(0);
    XorNatSame(FromBe(s[..n]));
    XorSplit(8, FromBe(s[..n]), s[n], 0, x);
  }

  // The product by x is the double, and the modulus is taken off if the double has its
  // leading bit.
  function TimesX(v: nat, top: nat, low: nat): nat
  {
    if 2 * v < top then 2 * v else XorNat(2 * v, top + low)
  }

  lemma CarryIsLeadingBit(w: nat, carry: nat, v: nat, top: nat)
    requires carry <= 1 && w < top && w + carry * top == 2 * v
    ensures carry == (if 2 * v < top then 0 else 1)
  {
  }

  lemma DoubledReduces(s: seq<byte>, n: nat, low: byte)
    requires s != [] && n == 8 * |s| && low == (if |s| == 16 then 0x87 else 0x1b)
    ensures FromBe(Doubled(s)) == TimesX(FromBe(s), Pow2(n), low)
  {
    var (carry, t) := Shifted(s);
    ShiftedDoubles(s);
    Pow2Pow256(|s|);
    LowFits(n, low);
    LastXored(t, low);
    Reduced(t, FromBe(t), carry, FromBe(s), n, low, Doubled(s));
  }

  lemma Reduced(t: seq<byte>, w: nat, carry: nat, v: nat, n: nat, low: byte, r: seq<byte>)
    requires carry <= 1 && w < Pow2(n) && low < Pow2(n) && w + carry * Pow2(n) == 2 * v && w == FromBe(t)
    requires carry == 0 ==> r == t
    requires carry == 1 ==> FromBe(r) == XorNat(w, low)
    ensures FromBe(r) == TimesX(v, Pow2(n), low)
  {
    CarryIsLeadingBit(w, carry, v, Pow2(n));
    TopGone(n, w, low);
  }

  lemma TopGone(n: nat, w: nat, low: nat)
    requires w < Pow2(n) && low < Pow2(n)
    ensures XorNat(Pow2(n) + w, Pow2(n) + low) == XorNat(w, low)
  {
    XorSplit(n, 1, w, 1, low);
    XorNatSame(1);
    ShlOne(n);
  }

  lemma LowFits(n: nat, low: byte)
    requires n >= 8
    ensures low < Pow2(n)
  {
    Pow2Of8();
    Pow2Adds(8, n - 8);
    Larger(256, Pow2(n - 8));
  }

  lemma Larger(a: nat, b: nat)
    requires b > 0
    ensures a * b >= a
  {
  }

  // The modulus is x^128 + x^7 + x^2 + x + 1 for blocks of 128 bits ...
  lemma TimesX128(s: seq<byte>, n: nat, low: byte)
    requires |s| == 16 && n == 128 && low == 0x80 + 4 + 2 + 1
    ensures FromBe(Doubled(s)) == TimesX(FromBe(s), Pow2(n), low)
  {
    DoubledReduces(s, n, low);
  }

  // ... and x^64 + x^4 + x^3 + x + 1 for blocks of 64 bits.
  lemma TimesX64(s: seq<byte>, n: nat, low: byte)
    requires |s| == 8 && n == 64 && low == 0x10 + 8 + 2 + 1
    ensures FromBe(Doubled(s)) == TimesX(FromBe(s), Pow2(n), low)
  {
    DoubledReduces(s, n, low);
  }

  // --------------------------------------------------------- the message

  // E(acc xor b)
  function Enciphered<O(!new)>(c: Cipher<O>, acc: seq<O>, b: seq<O>): (r: seq<O>)
    requires Mixing(c) && |acc| == |b| == c.size
    ensures |r| == c.size
  {
    assert Blk(XorSeq(c, acc, b), c.size);
    c.enc(XorSeq(c, acc, b))
  }

  ghost predicate WholeBlocks<O>(c: Cipher<O>, bs: seq<seq<O>>)
  {
    forall i :: 0 <= i < |bs| ==> |bs[i]| == c.size
  }

  // Whole blocks taken in one after the other
  function Chain<O(!new)>(c: Cipher<O>, acc: seq<O>, bs: seq<seq<O>>): (r: seq<O>)
    requires Mixing(c) && |acc| == c.size && WholeBlocks(c, bs)
    ensures |r| == c.size
    decreases |bs|
  {
    if bs == [] then acc else Chain(c, Enciphered(c, acc, bs[0]), bs[1..])
  }

  lemma FirstOfBlocks<O>(bs: seq<seq<O>>, last: seq<O>, size: nat)
    requires bs != [] && |bs[0]| == size
    ensures var p := Flatten(bs) + last;
            |p| >= size && p[..size] == bs[0] && p[size..] == Flatten(bs[1..]) + last
  {
    assert Flatten(bs) + last == bs[0] + (Flatten(bs[1..]) + last);
  }

  lemma {:induction false} BlocksThenLast<O(!new)>(c: Cipher<O>, e: Ending<O>, acc: seq<O>, bs: seq<seq<O>>, last: seq<O>)
    requires Mixing(c) && Ends(c, e) && |acc| == c.size && WholeBlocks(c, bs)
    requires |last| <= c.size && (bs != [] ==> last != [])
    ensures OneShot(c, e, acc, Flatten(bs) + last) == Enciphered(c, Chain(c, acc, bs), e(last))
    decreases |bs|
  {
    if bs == [] {
      assert [] + last == last;
    } else {
      FirstOfBlocks(bs, last, c.size);
      BlocksThenLast(c, e, Enciphered(c, acc, bs[0]), bs[1..], last);
    }
  }

  // What the code hashes of data it pads: the data filled up with zeros to whole blocks
  lemma {:induction false} PaddedIsChain<O(!new)>(c: Cipher<O>, acc: seq<O>, p: seq<O>) returns (bs: seq<seq<O>>)
    requires Mixing(c) && |acc| == c.size
    ensures WholeBlocks(c, bs) && ZeroMac(c, acc, p) == Chain(c, acc, bs) && Whole(c, p) == Flatten(bs)
    ensures p <= Flatten(bs) && |Flatten(bs)| < |p| + c.size && forall i :: |p| <= i < |Flatten(bs)| ==> Flatten(bs)[i] == c.zero
    decreases |p|
  {
    if p == [] {
      bs := [];
    } else if |p| <= c.size {
      bs := [ZeroPadded(c, p)];
      assert Flatten(bs) == ZeroPadded(c, p) by { assert ZeroPadded(c, p) + [] == ZeroPadded(c, p); }
      assert bs[1..] == [];
    } else {
      var b := p[..c.size];
      var rest := PaddedIsChain(c, Enciphered(c, acc, b), p[c.size..]);
      bs := [b] + rest;
      assert bs[1..] == rest && Flatten(bs) == b + Flatten(rest) && p == b + p[c.size..];
      assert forall i :: |p| <= i < |Flatten(bs)| ==> Flatten(bs)[i] == Flatten(rest)[i - c.size];
    }
  }

  // The last block as it is mixed in: the first subkey on a full one, the second on one
  // that is short and was filled up with a one bit and zeros
  ghost predicate EndBlock(last: seq<byte>, size: nat, k1: seq<byte>, k2: seq<byte>, d: seq<byte>, k: seq<byte>)
  {
    && |d| == size && last <= d && k == (if |last| == size then k1 else k2)
    && (|last| < size ==> d[|last|] == 0x80 && forall i :: |last| < i < size ==> d[i] == 0)
  }

  // The tag of any message fed in any calls to a fresh handle
  lemma TagOf(c: Cipher<byte>, k1: seq<byte>, k2: seq<byte>, ps: seq<seq<byte>>, bs: seq<seq<byte>>, last: seq<byte>,
              d: seq<byte>, k: seq<byte>)
    requires Mixing(c) && |k1| == |k2| == c.size && WholeBlocks(c, bs)
    requires |last| <= c.size && (bs != [] ==> last != []) && Flatten(ps) == Flatten(bs) + last
    requires EndBlock(last, c.size, k1, k2, d, k)
    ensures Final(c, CmacEnding(c, k1, k2), FeedAll(c, Mac(Zeros(c.size), []), ps))
            == Enciphered(c, Chain(c, Zeros(c.size), bs), XorSeq(c, d, k))
  {
    var e := CmacEnding(c, k1, k2);
    AnyCutting(c, e, Zeros(c.size), ps);
    BlocksThenLast(c, e, Zeros(c.size), bs, last);
    EndingOf(c, k1, k2, last, d, k);
  }

  lemma EndingOf(c: Cipher<byte>, k1: seq<byte>, k2: seq<byte>, last: seq<byte>, d: seq<byte>, k: seq<byte>)
    requires |k1| == |k2| == c.size && |last| <= c.size && EndBlock(last, c.size, k1, k2, d, k)
    ensures CmacEnding(c, k1, k2)(last) == XorSeq(c, d, k)
  {
    if |last| == c.size {
      assert d == last;
    } else {
      assert d == Marked(c, last);
    }
  }
}
