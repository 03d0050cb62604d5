// Cipher block chaining with ciphertext stealing: the modes that cipher-cbc.c computes.
module Cbc {
  import opened Bytes
  import opened BlockCipher

  // n blocks of s octets
  function Span(n: nat, s: nat): nat
  {
    if n == 0 then 0 else Span(n - 1, s) + s
  }

  // ------------------------------------------------------------ the mode

  // Block k of a string
  function Block<O>(c: Cipher<O>, p: seq<O>, k: nat): (b: seq<O>)
    requires Span(k + 1, c.size) <= |p|
    ensures |b| == c.size
  {
    p[Span(k, c.size)..Span(k + 1, c.size)]
  }

  // The block that block k is chained to
  function Before<O>(c: Cipher<O>, iv: seq<O>, q: seq<O>, k: nat): (r: seq<O>)
    requires |iv| == c.size && Span(k, c.size) <= |q|
    ensures |r| == c.size
  {
    if k == 0 then iv else Block(c, q, k - 1)
  }

  // The definition of the mode on the first k blocks: each is xored with the ciphertext
  // block before it.
  function Chain<O(!new)>(c: Cipher<O>, iv: seq<O>, p: seq<O>, k: nat): (q: seq<O>)
    requires Lawful(c) && |iv| == c.size && Span(k, c.size) <= |p|
    ensures |q| == Span(k, c.size)
    decreases k
  {
    if k == 0 then [] else
      var q := Chain(c, iv, p, k - 1);
      q + Enc(c, XorSeq(c, Block(c, p, k - 1), Before(c, iv, q, k - 1)))
  }

  function Unchain<O(!new)>(c: Cipher<O>, iv: seq<O>, q: seq<O>, k: nat): (p: seq<O>)
    requires Lawful(c) && |iv| == c.size && Span(k, c.size) <= |q|
    ensures |p| == Span(k, c.size)
    decreases k
  {
    if k == 0 then [] else
      Unchain(c, iv, q, k - 1) + XorSeq(c, Dec(c, Block(c, q, k - 1)), Before(c, iv, q, k - 1))
  }

  lemma ChainNext<O(!new)>(c: Cipher<O>, iv: seq<O>, p: seq<O>, k: nat)
    requires Lawful(c) && |iv| == c.size && Span(k + 1, c.size) <= |p|
    ensures var q := Chain(c, iv, p, k);
            Chain(c, iv, p, k + 1) == q + Enc(c, XorSeq(c, Block(c, p, k), Before(c, iv, q, k)))
  {
  }

  lemma UnchainNext<O(!new)>(c: Cipher<O>, iv: seq<O>, q: seq<O>, k: nat)
    requires Lawful(c) && |iv| == c.size && Span(k + 1, c.size) <= |q|
    ensures Unchain(c, iv, q, k + 1) == Unchain(c, iv, q, k) + XorSeq(c, Dec(c, Block(c, q, k)), Before(c, iv, q, k))
  {
  }

  lemma BlockBack<O(!new)>(c: Cipher<O>, b: seq<O>, v: seq<O>)
    requires Lawful(c) && |b| == |v| == c.size
    ensures XorSeq(c, Dec(c, Enc(c, XorSeq(c, b, v))), v) == b
  {
    Inverse(c, XorSeq(c, b, v));
    XorTwice(c, b, v);
  }

  lemma {:induction false} SpanGrows(j: nat, k: nat, s: nat)
    requires j <= k
    ensures Span(j, s) <= Span(k, s)
  {
    if j < k { SpanGrows(j, k - 1, s); }
  }

  // r starts with q, and then block y.
  lemma Split<O>(c: Cipher<O>, r: seq<O>, q: seq<O>, y: seq<O>, k: nat)
    requires |q| == Span(k, c.size) && |y| == c.size && Span(k + 1, c.size) <= |r| && r[..Span(k + 1, c.size)] == q + y
    ensures r[..Span(k, c.size)] == q && Block(c, r, k) == y
  {
    var a, m := Span(k, c.size), Span(k + 1, c.size);
    assert r[..m][..a] == r[..a] && r[..m][a..] == r[a..m];
  }

  lemma BeforeSame<O>(c: Cipher<O>, iv: seq<O>, r: seq<O>, q: seq<O>, k: nat)
    requires |iv| == c.size && Span(k, c.size) <= |q| && Span(k, c.size) <= |r| && r[..Span(k, c.size)] == q[..Span(k, c.size)]
    ensures Before(c, iv, r, k) == Before(c, iv, q, k)
  {
    if k > 0 { BlockSame(c, r, q, k - 1); }
  }

  lemma BlockSame<O>(c: Cipher<O>, r: seq<O>, q: seq<O>, k: nat)
    requires Span(k + 1, c.size) <= |q| && Span(k + 1, c.size) <= |r| && r[..Span(k + 1, c.size)] == q[..Span(k + 1, c.size)]
    ensures Block(c, r, k) == Block(c, q, k) && r[..Span(k, c.size)] == q[..Span(k, c.size)]
  {
    var a, m := Span(k, c.size), Span(k + 1, c.size);
    assert r[a..m] == r[..m][a..] && q[a..m] == q[..m][a..];
    assert r[..a] == r[..m][..a] && q[..a] == q[..m][..a];
  }

  lemma Joined<O>(c: Cipher<O>, p: seq<O>, k: nat)
    requires Span(k + 1, c.size) <= |p|
    ensures p[..Span(k, c.size)] + Block(c, p, k) == p[..Span(k + 1, c.size)]
  {
  }

  // Where r goes on with the ciphertext of block b after q, the block deciphers to b.
  lemma BlockOfChain<O(!new)>(c: Cipher<O>, iv: seq<O>, b: seq<O>, r: seq<O>, q: seq<O>, y: seq<O>, k: nat)
    requires Lawful(c) && |iv| == |b| == c.size && |q| == Span(k, c.size) && Span(k + 1, c.size) <= |r|
    requires y == Enc(c, XorSeq(c, b, Before(c, iv, q, k))) && r[..Span(k + 1, c.size)] == q + y
    ensures r[..Span(k, c.size)] == q && XorSeq(c, Dec(c, Block(c, r, k)), Before(c, iv, r, k)) == b
  {
    Split(c, r, q, y, k);
    assert q[..Span(k, c.size)] == q;
    BeforeSame(c, iv, r, q, k);
    BlockBack(c, b, Before(c, iv, q, k));
  }

  lemma LastBlock<O(!new)>(c: Cipher<O>, iv: seq<O>, p: seq<O>, r: seq<O>, k: nat)
    requires Lawful(c) && |iv| == c.size && Span(k + 1, c.size) <= |p| && Span(k + 1, c.size) <= |r|
    requires r[..Span(k + 1, c.size)] == Chain(c, iv, p, k + 1)
    ensures r[..Span(k, c.size)] == Chain(c, iv, p, k)
    ensures XorSeq(c, Dec(c, Block(c, r, k)), Before(c, iv, r, k)) == Block(c, p, k)
  {
    var q := Chain(c, iv, p, k);
    ChainNext(c, iv, p, k);
    BlockOfChain(c, iv, Block(c, p, k), r, q, Enc(c, XorSeq(c, Block(c, p, k), Before(c, iv, q, k))), k);
  }

  lemma UnchainMore<O(!new)>(c: Cipher<O>, iv: seq<O>, p: seq<O>, r: seq<O>, k: nat)
    requires Lawful(c) && |iv| == c.size && Span(k + 1, c.size) <= |p| && Span(k + 1, c.size) <= |r|
    requires Unchain(c, iv, r, k) == p[..Span(k, c.size)]
    requires XorSeq(c, Dec(c, Block(c, r, k)), Before(c, iv, r, k)) == Block(c, p, k)
    ensures Unchain(c, iv, r, k + 1) == p[..Span(k + 1, c.size)]
  {
    UnchainNext(c, iv, r, k);
    Joined(c, p, k);
  }

  // The ciphertext of fewer blocks is where that of more blocks starts.
  lemma {:induction false} ChainStarts<O(!new)>(c: Cipher<O>, iv: seq<O>, p: seq<O>, r: seq<O>, j: nat, k: nat)
    requires Lawful(c) && |iv| == c.size && j <= k && Span(k, c.size) <= |p| && Span(k, c.size) <= |r|
    requires r[..Span(k, c.size)] == Chain(c, iv, p, k)
    ensures Span(j, c.size) <= Span(k, c.size) && r[..Span(j, c.size)] == Chain(c, iv, p, j)
  {
    if j < k {
      LastBlock(c, iv, p, r, k - 1);
      ChainStarts(c, iv, p, r, j, k - 1);
    }
  }

  // r starts with the ciphertext of the first k blocks.
  lemma {:induction false} UnchainChain<O(!new)>(c: Cipher<O>, iv: seq<O>, p: seq<O>, r: seq<O>, k: nat)
    requires Lawful(c) && |iv| == c.size && Span(k, c.size) <= |p| && Span(k, c.size) <= |r|
    requires r[..Span(k, c.size)] == Chain(c, iv, p, k)
    ensures Unchain(c, iv, r, k) == p[..Span(k, c.size)]
  {
    var j := 0;
    while j < k
      invariant 0 <= j <= k && Span(j, c.size) <= Span(k, c.size) && Unchain(c, iv, r, j) == p[..Span(j, c.size)]
    {
      ChainStarts(c, iv, p, r, j + 1, k);
      LastBlock(c, iv, p, r, j);
      UnchainMore(c, iv, p, r, j);
      j := j + 1;
    }
  }

  // The mode looks at the blocks it enciphers only.
  lemma {:induction false} ChainSame<O(!new)>(c: Cipher<O>, iv: seq<O>, p: seq<O>, p': seq<O>, k: nat)
    requires Lawful(c) && |iv| == c.size && Span(k, c.size) <= |p| && Span(k, c.size) <= |p'|
    requires p[..Span(k, c.size)] == p'[..Span(k, c.size)]
    ensures Chain(c, iv, p, k) == Chain(c, iv, p', k)
  {
    if k > 0 {
      BlockSame(c, p, p', k - 1);
      ChainSame(c, iv, p, p', k - 1);
      ChainNext(c, iv, p, k - 1);
      ChainNext(c, iv, p', k - 1);
    }
  }

  // Section 6.2 of NIST SP 800-38A: every block of ciphertext is what enciphering gives of
  // the block of data xored with the block of ciphertext before it, with the initial value
  // for the first; and that makes the mode.
  ghost predicate Chained<O(!new)>(c: Cipher<O>, iv: seq<O>, p: seq<O>, q: seq<O>, j: nat)
    requires |iv| == c.size && Span(j + 1, c.size) <= |p| && Span(j + 1, c.size) <= |q|
  {
    var lo, hi := Span(j, c.size), Span(j + 1, c.size);
    q[lo..hi] == c.enc(XorSeq(c, p[lo..hi], if j == 0 then iv else q[Span(j - 1, c.size)..lo]))
  }

  ghost predicate AllChained<O(!new)>(c: Cipher<O>, iv: seq<O>, p: seq<O>, q: seq<O>, k: nat)
    requires |iv| == c.size && Span(k, c.size) <= |p| && Span(k, c.size) <= |q|
  {
    k > 0 ==> Chained(c, iv, p, q, k - 1) && AllChained(c, iv, p, q, k - 1)
  }

  lemma {:induction false} ChainIs<O(!new)>(c: Cipher<O>, iv: seq<O>, p: seq<O>, q: seq<O>, k: nat)
    requires Lawful(c) && |iv| == c.size && Span(k, c.size) <= |p| && Span(k, c.size) <= |q|
    ensures q[..Span(k, c.size)] == Chain(c, iv, p, k) <==> AllChained(c, iv, p, q, k)
  {
    if k > 0 {
      var r := Chain(c, iv, p, k - 1);
      ChainIs(c, iv, p, q, k - 1);
      ChainNext(c, iv, p, k - 1);
      Joined(c, q, k - 1);
      ChainedMore(c, iv, p, q, r, k - 1);
    }
  }

  lemma ChainedMore<O(!new)>(c: Cipher<O>, iv: seq<O>, p: seq<O>, q: seq<O>, r: seq<O>, k: nat)
    requires Lawful(c) && |iv| == c.size && Span(k + 1, c.size) <= |p| && Span(k + 1, c.size) <= |q| && |r| == Span(k, c.size)
    ensures q[..Span(k + 1, c.size)] == r + Enc(c, XorSeq(c, Block(c, p, k), Before(c, iv, r, k)))
            <==> q[..Span(k, c.size)] == r && Chained(c, iv, p, q, k)
  {
    var y := Enc(c, XorSeq(c, Block(c, p, k), Before(c, iv, r, k)));
    Joined(c, q, k);
    if q[..Span(k + 1, c.size)] == r + y {
      Split(c, q, r, y, k);
    }
    if q[..Span(k, c.size)] == r {
      assert r[..Span(k, c.size)] == r;
      BeforeSame(c, iv, q, r, k);
    }
  }

  // -------------------------------------------------- ciphertext stealing

  // rest, then zeros up to a block
  function Padded<O>(c: Cipher<O>, rest: seq<O>): (r: seq<O>)
    requires |rest| <= c.size
    ensures |r| == c.size && r[..|rest|] == rest && forall i :: |rest| <= i < c.size ==> r[i] == c.zero
  {
    rest + seq(c.size - |rest|, i => c.zero)
  }

  // k blocks and one more in front, and a rest of one block at most
  ghost predicate Stealing<O(!new)>(c: Cipher<O>, iv: seq<O>, p: seq<O>, k: nat)
  {
    Lawful(c) && |iv| == c.size && Span(k + 1, c.size) < |p| <= Span(k + 2, c.size)
  }

  function Rest<O(!new)>(c: Cipher<O>, iv: seq<O>, p: seq<O>, k: nat): (r: seq<O>)
    requires Stealing(c, iv, p, k)
    ensures 0 < |r| <= c.size && |p| == Span(k + 1, c.size) + |r|
  {
    p[Span(k + 1, c.size)..]
  }

  // The block before the last is the one enciphered last; of the one before it only
  // the front is kept, at the end.
  function Steal<O(!new)>(c: Cipher<O>, iv: seq<O>, p: seq<O>, k: nat): (q: seq<O>)
    requires Stealing(c, iv, p, k)
    ensures |q| == |p|
  {
    var rest := Rest(c, iv, p, k);
    var q := Chain(c, iv, p, k + 1);
    var x := Block(c, q, k);
    q[..Span(k, c.size)] + Enc(c, XorSeq(c, Padded(c, rest), x)) + x[..|rest|]
  }

  lemma Ends<O>(c: Cipher<O>, q: seq<O>, x: seq<O>, k: nat)
    requires |q| == Span(k, c.size) && |x| == c.size
    ensures (q + x)[..Span(k, c.size)] == q && |q + x| == Span(k + 1, c.size) && Block(c, q + x, k) == x
  {
  }

  lemma StealNext<O(!new)>(c: Cipher<O>, iv: seq<O>, p: seq<O>, k: nat) returns (q: seq<O>, x: seq<O>, y: seq<O>)
    requires Stealing(c, iv, p, k)
    ensures q == Chain(c, iv, p, k) && |q| == Span(k, c.size) && |x| == |y| == c.size
    ensures x == Enc(c, XorSeq(c, Block(c, p, k), Before(c, iv, q, k))) && y == Enc(c, XorSeq(c, Padded(c, Rest(c, iv, p, k)), x))
    ensures Chain(c, iv, p, k + 1) == q + x && Steal(c, iv, p, k) == q + y + x[..|Rest(c, iv, p, k)|]
  {
    ChainNext(c, iv, p, k);
    q := Chain(c, iv, p, k);
    x := Enc(c, XorSeq(c, Block(c, p, k), Before(c, iv, q, k)));
    Ends(c, q, x, k);
    y := Enc(c, XorSeq(c, Padded(c, Rest(c, iv, p, k)), x));
  }

  lemma PaddedParts<O>(c: Cipher<O>, p: seq<O>, k: nat, pad: seq<O>)
    requires Span(k + 1, c.size) <= |p| && |pad| == c.size
    ensures var pp := p[..Span(k + 1, c.size)] + pad;
            && |pp| == Span(k + 2, c.size) && Block(c, pp, k + 1) == pad
            && pp[..Span(k + 1, c.size)] == p[..Span(k + 1, c.size)]
  {
    Ends(c, p[..Span(k + 1, c.size)], pad, k + 1);
  }

  lemma Exchanged<O>(c: Cipher<O>, q: seq<O>, x: seq<O>, y: seq<O>, k: nat, r: seq<O>)
    requires |q| == Span(k, c.size) && |x| == |y| == c.size && r == q + x + y
    ensures |r| == Span(k + 2, c.size) && r[..Span(k, c.size)] == q && Block(c, r, k + 1) == y && Block(c, r, k) == x
  {
  }

  // Stealing is the mode on the data padded with zeros, its last two blocks exchanged
  // and what then comes last cut to the length of the rest.
  lemma StealIsChain<O(!new)>(c: Cipher<O>, iv: seq<O>, p: seq<O>, k: nat)
    requires Stealing(c, iv, p, k)
    ensures var pp := p[..Span(k + 1, c.size)] + Padded(c, Rest(c, iv, p, k));
            && |pp| == Span(k + 2, c.size)
            && var q := Chain(c, iv, pp, k + 2);
               Steal(c, iv, p, k) == q[..Span(k, c.size)] + Block(c, q, k + 1) + Block(c, q, k)[..|Rest(c, iv, p, k)|]
  {
    var pad := Padded(c, Rest(c, iv, p, k));
    var pp := p[..Span(k + 1, c.size)] + pad;
    var q, x, y := StealNext(c, iv, p, k);
    PaddedParts(c, p, k, pad);
    ChainSame(c, iv, pp, p, k + 1);
    ChainNext(c, iv, pp, k + 1);
    Ends(c, q, x, k);
    Exchanged(c, q, x, y, k, Chain(c, iv, pp, k + 2));
  }

  // What the last block y and the part z behind it decipher to, after the block v; and
  // the block that was enciphered first.
  function TailBack<O(!new)>(c: Cipher<O>, v: seq<O>, y: seq<O>, z: seq<O>): (t: (seq<O>, seq<O>, seq<O>))
    requires Lawful(c) && |v| == |y| == c.size && |z| <= c.size
    ensures |t.0| == |t.2| == c.size && |t.1| == |z|
  {
    var e := Dec(c, y);
    var x := z + e[|z|..];
    (XorSeq(c, Dec(c, x), v), XorSeq(c, e[..|z|], z), x)
  }

  function Unsteal<O(!new)>(c: Cipher<O>, iv: seq<O>, q: seq<O>, k: nat): (p: seq<O>)
    requires Stealing(c, iv, q, k)
    ensures |p| == |q|
  {
    var t := TailBack(c, Before(c, iv, q, k), Block(c, q, k), Rest(c, iv, q, k));
    Unchain(c, iv, q, k) + t.0 + t.1
  }

  lemma PaddedXor<O(!new)>(c: Cipher<O>, rest: seq<O>, x: seq<O>)
    requires Lawful(c) && |rest| <= |x| == c.size
    ensures XorSeq(c, Padded(c, rest), x) == XorSeq(c, rest, x) + x[|rest|..]
  {
    forall i | 0 <= i < |x| ensures XorSeq(c, Padded(c, rest), x)[i] == (XorSeq(c, rest, x) + x[|rest|..])[i] {
      XorBack(c, c.zero, x[i]);
    }
  }

  lemma XorTake<O>(c: Cipher<O>, rest: seq<O>, x: seq<O>)
    requires |rest| <= |x|
    ensures XorSeq(c, rest, x) == XorSeq(c, rest, x[..|rest|])
  {
  }

  lemma Parts<O>(w: seq<O>, x: seq<O>)
    requires |w| <= |x|
    ensures (w + x[|w|..])[..|w|] == w && (w + x[|w|..])[|w|..] == x[|w|..] && x[..|w|] + x[|w|..] == x
  {
  }

  // The two blocks enciphered last come back from what is kept of them.
  lemma TailRecovered<O(!new)>(c: Cipher<O>, v: seq<O>, b: seq<O>, rest: seq<O>, x: seq<O>, y: seq<O>)
    requires Lawful(c) && |v| == |b| == c.size && |rest| <= c.size
    requires x == Enc(c, XorSeq(c, b, v)) && y == Enc(c, XorSeq(c, Padded(c, rest), x))
    ensures TailBack(c, v, y, x[..|rest|]) == (b, rest, x)
  {
    Inverse(c, XorSeq(c, Padded(c, rest), x));
    PaddedXor(c, rest, x);
    Parts(XorSeq(c, rest, x), x);
    XorTake(c, rest, x);
    XorTwice(c, rest, x[..|rest|]);
    BlockBack(c, b, v);
  }

  lemma ThreePieces<O>(c: Cipher<O>, r: seq<O>, q: seq<O>, y: seq<O>, z: seq<O>, k: nat)
    requires r == q + y + z && |q| == Span(k, c.size) && |y| == c.size
    ensures r[..Span(k, c.size)] == q && |r| == Span(k + 1, c.size) + |z| && Block(c, r, k) == y && r[Span(k + 1, c.size)..] == z
  {
  }

  lemma Assembled<O(!new)>(c: Cipher<O>, iv: seq<O>, p: seq<O>, k: nat)
    requires Stealing(c, iv, p, k)
    ensures p[..Span(k, c.size)] + Block(c, p, k) + Rest(c, iv, p, k) == p
  {
  }

  // Decryption of stolen ciphertext gives the data back.
  lemma UnstealSteal<O(!new)>(c: Cipher<O>, iv: seq<O>, p: seq<O>, k: nat)
    requires Stealing(c, iv, p, k)
    ensures Stealing(c, iv, Steal(c, iv, p, k), k)
    ensures Unsteal(c, iv, Steal(c, iv, p, k), k) == p
  {
    var q, x, y := StealNext(c, iv, p, k);
    UnstealOf(c, iv, p, k, Steal(c, iv, p, k), q, x, y);
  }

  lemma UnstealOf<O(!new)>(c: Cipher<O>, iv: seq<O>, p: seq<O>, k: nat, r: seq<O>, q: seq<O>, x: seq<O>, y: seq<O>)
    requires Stealing(c, iv, p, k) && Stealing(c, iv, r, k) && q == Chain(c, iv, p, k) && |x| == |y| == c.size
    requires x == Enc(c, XorSeq(c, Block(c, p, k), Before(c, iv, q, k))) && y == Enc(c, XorSeq(c, Padded(c, Rest(c, iv, p, k)), x))
    requires r == q + y + x[..|Rest(c, iv, p, k)|]
    ensures Unsteal(c, iv, r, k) == p
  {
    var rest := Rest(c, iv, p, k);
    ThreePieces(c, r, q, y, x[..|rest|], k);
    assert q[..Span(k, c.size)] == q;
    BeforeSame(c, iv, r, q, k);
    TailRecovered(c, Before(c, iv, q, k), Block(c, p, k), rest, x, y);
    UnchainChain(c, iv, p, r, k);
    Assembled(c, iv, p, k);
  }
}
