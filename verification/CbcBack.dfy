// Decryption of cipher-cbc.c, in place, and that it inverts encryption.
module CbcBack {
  import opened BlockCipher
  import opened Cbc
  import opened CbcLengths
  import opened CbcCode
  import opened Handle

  // ------------------------------------------------------- whole blocks

  // After k blocks of q, in a buffer that held d
  ghost predicate Deciphered<O(!new)>(c: Cipher<O>, iv: seq<O>, q: seq<O>, d: seq<O>, k: nat, out: seq<O>)
    requires Lawful(c) && |iv| == c.size && Span(k, c.size) <= |q| <= |d|
  {
    out == Unchain(c, iv, q, k) + d[Span(k, c.size)..]
  }

  lemma BlockDeciphered<O(!new)>(c: Cipher<O>, iv: seq<O>, q: seq<O>, d: seq<O>, k: nat, out: seq<O>, b: seq<O>)
    requires Lawful(c) && |iv| == c.size && Span(k + 1, c.size) <= |q| <= |d| && Deciphered(c, iv, q, d, k, out)
    requires b == XorSeq(c, Dec(c, Block(c, q, k)), Before(c, iv, q, k))
    ensures Span(k, c.size) + |b| <= |out| && Deciphered(c, iv, q, d, k + 1, Put(out, Span(k, c.size), b))
  {
    PutNext(Unchain(c, iv, q, k), d, Span(k, c.size), b, Span(k + 1, c.size));
    UnchainNext(c, iv, q, k);
  }

  // lastiv := D(in); out := lastiv xor iv; iv := in
  method DecryptBlock<O(!new)>(c: Cipher<O>, iv: array<O>, lastiv: array<O>, outbuf: array<O>, inbuf: array<O>, off: nat, to: nat, ghost q: seq<O>)
    requires Lawful(c) && iv.Length == lastiv.Length == c.size && iv != lastiv
    requires iv != outbuf && iv != inbuf && lastiv != outbuf && lastiv != inbuf
    requires off + c.size == to <= |q| && to <= outbuf.Length && Unread(inbuf, q, off)
    modifies iv, lastiv, outbuf
    ensures iv[..] == q[off..to] && Unread(inbuf, q, to)
    ensures outbuf[..] == Put(old(outbuf[..]), off, XorSeq(c, Dec(c, q[off..to]), old(iv[..])))
  {
    var b := inbuf[off..to];
    assert b == q[off..to];
    Replace(lastiv, Dec(c, b));
    ghost var o := outbuf[..];
    Copy(outbuf, off, XorSeq(c, lastiv[..], iv[..]));
    Beyond(o, outbuf[..], off, XorSeq(c, Dec(c, b), old(iv[..])), to);
    Replace(iv, b);
  }

  method DecryptNext<O(!new)>(c: Cipher<O>, iv: array<O>, lastiv: array<O>, outbuf: array<O>, inbuf: array<O>, off: nat,
                              ghost iv0: seq<O>, ghost q: seq<O>, ghost d: seq<O>, ghost k: nat) returns (to: nat)
    requires Lawful(c) && |iv0| == iv.Length == lastiv.Length == c.size && iv != lastiv
    requires iv != outbuf && iv != inbuf && lastiv != outbuf && lastiv != inbuf
    requires off == Span(k, c.size) && Span(k + 1, c.size) <= |q| <= |d| == outbuf.Length && Unread(inbuf, q, off)
    requires Deciphered(c, iv0, q, d, k, outbuf[..]) && iv[..] == Before(c, iv0, q, k)
    modifies iv, lastiv, outbuf
    ensures to == Span(k + 1, c.size) && Unread(inbuf, q, to) && Deciphered(c, iv0, q, d, k + 1, outbuf[..])
    ensures iv[..] == Block(c, q, k)
  {
    BlockDeciphered(c, iv0, q, d, k, outbuf[..], XorSeq(c, Dec(c, Block(c, q, k)), iv[..]));
    to := off + c.size;
    DecryptBlock(c, iv, lastiv, outbuf, inbuf, off, to, q);
  }

  method DecryptBlocks<O(!new)>(c: Cipher<O>, iv: array<O>, lastiv: array<O>, outbuf: array<O>, inbuf: array<O>, nblocks: nat,
                                ghost iv0: seq<O>, ghost q: seq<O>, ghost d: seq<O>) returns (off: nat)
    requires Lawful(c) && |iv0| == iv.Length == lastiv.Length == c.size && iv != lastiv
    requires iv != outbuf && iv != inbuf && lastiv != outbuf && lastiv != inbuf
    requires Span(nblocks, c.size) <= |q| <= |d| && outbuf[..] == d && iv[..] == iv0 && Unread(inbuf, q, 0)
    modifies iv, lastiv, outbuf
    ensures off == Span(nblocks, c.size) && Unread(inbuf, q, off) && Deciphered(c, iv0, q, d, nblocks, outbuf[..])
    ensures iv[..] == Before(c, iv0, q, nblocks)
  {
    off := 0;
    var n := 0;
    while n < nblocks
      invariant 0 <= n <= nblocks && off == Span(n, c.size) <= |q| && Unread(inbuf, q, off)
      invariant Deciphered(c, iv0, q, d, n, outbuf[..]) && iv[..] == Before(c, iv0, q, n)
    {
      SpanGrows(n + 1, nblocks, c.size);
      off := DecryptNext(c, iv, lastiv, outbuf, inbuf, off, iv0, q, d, n);
      n := n + 1;
    }
  }

  // ----------------------------------------------- the stolen last blocks

  lemma PutApart<O>(d: seq<O>, a: nat, m: nat, u: seq<O>, w: seq<O>)
    requires |w| <= |u| && a + |u| == m && m + |w| <= |d| && u[..|w|] == w
    ensures Put(Put(d, a, u), m, w) == d[..a] + u + w + d[m + |w|..]
    ensures Put(d, a, u)[a..a + |w|] == w
  {
    PutParts(d, a, u);
    PutParts(Put(d, a, u), m, w);
  }

  method XorPart<O(!new)>(c: Cipher<O>, outbuf: array<O>, a: nat, e: seq<O>, z: seq<O>, ghost w: seq<O>)
    requires |z| <= |e| && a + |e| <= outbuf.Length && w == XorSeq(c, e[..|z|], z)
    modifies outbuf
    ensures outbuf[..] == Put(old(outbuf[..]), a, w + e[|z|..])
  {
    PutPart(outbuf[..], a, e, w);
    Copy(outbuf, a, e);
    var b := outbuf[..][a..a + |z|];
    Copy(outbuf, a, XorSeq(c, b, z));
  }

  // The block is deciphered into its place, xored with the part z, and the front of
  // it copied behind.
  method FirstBack<O(!new)>(c: Cipher<O>, outbuf: array<O>, a: nat, m: nat, e: seq<O>, z: seq<O>)
    requires |z| <= |e| && a + |e| == m && m + |z| <= outbuf.Length
    modifies outbuf
    ensures var w := XorSeq(c, e[..|z|], z);
            outbuf[..] == old(outbuf[..])[..a] + (w + e[|z|..]) + w + old(outbuf[..])[m + |z|..]
  {
    ghost var w := XorSeq(c, e[..|z|], z);
    Parts(w, e);
    PutApart(outbuf[..], a, m, w + e[|z|..], w);
    XorPart(c, outbuf, a, e, z, w);
    var b := outbuf[..][a..a + |z|];
    Copy(outbuf, m, b);
  }

  // The part z, completed by the end of the deciphered block
  method Complete<O(!new)>(iv: array<O>, outbuf: array<O>, a: nat, r: nat, ghost u: seq<O>)
    requires iv != outbuf && r <= iv.Length == |u| && a + iv.Length <= outbuf.Length && outbuf[..][a..a + iv.Length] == u
    modifies iv
    ensures iv[..] == old(iv[..])[..r] + u[r..]
  {
    ghost var v, o := iv[..], outbuf[..];
    for i := r to iv.Length
      invariant iv[..] == v[..r] + u[r..i] + v[i..]
    {
      assert outbuf[a + i] == o[a..a + iv.Length][i];
      iv[i] := outbuf[a + i];
    }
  }

  // out := D(iv) xor lastiv
  method SecondBack<O(!new)>(c: Cipher<O>, iv: array<O>, lastiv: array<O>, outbuf: array<O>, a: nat, ghost f: seq<O>, ghost u: seq<O>, ghost t: seq<O>)
    requires Lawful(c) && iv.Length == lastiv.Length == c.size && iv != outbuf && lastiv != outbuf
    requires |f| == a && |u| == c.size && outbuf[..] == f + u + t
    modifies outbuf
    ensures outbuf[..] == f + XorSeq(c, Dec(c, iv[..]), lastiv[..]) + t
  {
    var e := Dec(c, iv[..]);
    PutMiddle(f, u, t, e, a);
    Copy(outbuf, a, e);
    PutMiddle(f, e, t, XorSeq(c, e, lastiv[..]), a);
    var b := outbuf[..][a..a + c.size];
    Copy(outbuf, a, XorSeq(c, b, lastiv[..]));
  }

  // Save the chaining value, and put the part z over its front.
  method TakePart<O(!new)>(iv: array<O>, lastiv: array<O>, z: seq<O>)
    requires iv.Length == lastiv.Length && iv != lastiv && |z| <= iv.Length
    modifies iv, lastiv
    ensures lastiv[..] == old(iv[..]) && iv[..][..|z|] == z
  {
    Replace(lastiv, iv[..]);
    PutParts(iv[..], 0, z);
    Copy(iv, 0, z);
  }

  method Reassemble<O(!new)>(c: Cipher<O>, iv: array<O>, lastiv: array<O>, outbuf: array<O>, a: nat, r: nat,
                             ghost f: seq<O>, ghost u: seq<O>, ghost t: seq<O>)
    requires Lawful(c) && iv.Length == lastiv.Length == c.size && iv != outbuf && iv != lastiv && lastiv != outbuf
    requires r <= c.size && |f| == a && |u| == c.size && outbuf[..] == f + u + t
    modifies iv, outbuf
    ensures iv[..] == old(iv[..])[..r] + u[r..]
    ensures outbuf[..] == f + XorSeq(c, Dec(c, iv[..]), lastiv[..]) + t
  {
    PutMiddle(f, u, t, u, a);
    Complete(iv, outbuf, a, r, u);
    SecondBack(c, iv, lastiv, outbuf, a, f, u, t);
  }

  method UnstealTail<O(!new)>(c: Cipher<O>, iv: array<O>, lastiv: array<O>, outbuf: array<O>, y: seq<O>, z: seq<O>, a: nat, m: nat)
    requires Lawful(c) && iv.Length == lastiv.Length == c.size && iv != lastiv && iv != outbuf && lastiv != outbuf
    requires |y| == c.size && |z| <= c.size && a + c.size == m && m + |z| <= outbuf.Length
    modifies iv, lastiv, outbuf
    ensures var t := TailBack(c, old(iv[..]), y, z);
            && iv[..] == t.2
            && outbuf[..] == old(outbuf[..])[..a] + t.0 + (t.1 + old(outbuf[..])[m + |z|..])
  {
    ghost var o := outbuf[..];
    TakePart(iv, lastiv, z);
    var e := Dec(c, y);
    FirstBack(c, outbuf, a, m, e, z);
    ghost var w := XorSeq(c, e[..|z|], z);
    ghost var u := w + e[|z|..];
    Regroup(o[..a], u, w, o[m + |z|..], a);
    Parts(w, e);
    Reassemble(c, iv, lastiv, outbuf, a, |z|, o[..a], u, w + o[m + |z|..]);
  }

  lemma Regroup<O>(f: seq<O>, u: seq<O>, w: seq<O>, t: seq<O>, a: nat)
    requires |f| == a
    ensures f + u + w + t == f + u + (w + t) && (f + u + w + t)[a..a + |u|] == u
  {
  }

  // --------------------------------------------- the whole of decryption

  function Plaintext<O(!new)>(c: Cipher<O>, iv: seq<O>, q: seq<O>, cts: bool): (p: seq<O>)
    requires Lawful(c) && |iv| == c.size && Admissible(|q|, c.size, cts)
    ensures |p| == |q|
  {
    if Steals(|q|, c.size, cts) then
      KeptFits(|q|, c.size);
      Unsteal(c, iv, q, Kept(|q|, c.size))
    else
      Unchain(c, iv, q, Full(|q|, c.size))
  }

  // The block the code leaves as chaining value when it undid stealing
  function LastOfSteal<O(!new)>(c: Cipher<O>, iv: seq<O>, q: seq<O>, k: nat): seq<O>
    requires Stealing(c, iv, q, k)
  {
    TailBack(c, Before(c, iv, q, k), Block(c, q, k), Rest(c, iv, q, k)).2
  }

  function AfterDecryption<O(!new)>(c: Cipher<O>, iv: seq<O>, q: seq<O>, cts: bool): (v: seq<O>)
    requires Lawful(c) && |iv| == c.size && Admissible(|q|, c.size, cts)
  {
    if Steals(|q|, c.size, cts) then
      KeptFits(|q|, c.size);
      LastOfSteal(c, iv, q, Kept(|q|, c.size))
    else
      Before(c, iv, q, Full(|q|, c.size))
  }

  lemma Unstolen<O(!new)>(c: Cipher<O>, iv: seq<O>, q: seq<O>, d: seq<O>, k: nat, out: seq<O>, now: seq<O>)
    requires Stealing(c, iv, q, k) && |q| <= |d| && Deciphered(c, iv, q, d, k, out)
    requires var t := TailBack(c, Before(c, iv, q, k), Block(c, q, k), Rest(c, iv, q, k));
             now == out[..Span(k, c.size)] + t.0 + (t.1 + out[|q|..])
    ensures now == Unsteal(c, iv, q, k) + d[|q|..]
  {
    InFront(Unchain(c, iv, q, k), d, Span(k, c.size), |q|);
  }

  lemma InFront<O>(p: seq<O>, d: seq<O>, a: nat, n: nat)
    requires |p| == a <= n <= |d|
    ensures (p + d[a..])[..a] == p && (p + d[a..])[n..] == d[n..]
  {
  }

  method DecryptStealing<O(!new)>(c: Cipher<O>, iv: array<O>, lastiv: array<O>, outbuf: array<O>, inbuf: array<O>, len: nat,
                                  ghost iv0: seq<O>, ghost q: seq<O>, ghost d: seq<O>, ghost k: nat)
    requires iv.Length == lastiv.Length == c.size && iv != lastiv && c.size < len == |q| <= |d| && Stealing(c, iv0, q, k) && k == Kept(len, c.size)
    requires iv != outbuf && iv != inbuf && lastiv != outbuf && lastiv != inbuf
    requires outbuf[..] == d && iv[..] == iv0 && Unread(inbuf, q, 0)
    modifies iv, lastiv, outbuf
    ensures outbuf[..] == Unsteal(c, iv0, q, k) + d[len..] && iv[..] == LastOfSteal(c, iv0, q, k)
  {
    var nblocks := FrontBlocks(len, c.size);
    var n := nblocks - 1;
    SpanGrows(k, k + 1, c.size);
    var off := DecryptBlocks(c, iv, lastiv, outbuf, inbuf, n, iv0, q, d);
    DecryptTail(c, iv, lastiv, outbuf, inbuf, off, len, iv0, q, d, k);
  }

  method DecryptTail<O(!new)>(c: Cipher<O>, iv: array<O>, lastiv: array<O>, outbuf: array<O>, inbuf: array<O>, off: nat, len: nat,
                              ghost iv0: seq<O>, ghost q: seq<O>, ghost d: seq<O>, ghost k: nat)
    requires iv.Length == lastiv.Length == c.size && iv != lastiv && len == |q| <= |d| && Stealing(c, iv0, q, k)
    requires iv != outbuf && lastiv != outbuf && off == Span(k, c.size) <= |q| && Unread(inbuf, q, off)
    requires Deciphered(c, iv0, q, d, k, outbuf[..]) && iv[..] == Before(c, iv0, q, k)
    modifies iv, lastiv, outbuf
    ensures outbuf[..] == Unsteal(c, iv0, q, k) + d[len..] && iv[..] == LastOfSteal(c, iv0, q, k)
  {
    ghost var out := outbuf[..];
    var m, y, z := ReadTail(c, inbuf, off, len, iv0, q, k);
    UnstealTail(c, iv, lastiv, outbuf, y, z, off, m);
    Unstolen(c, iv0, q, d, k, out, outbuf[..]);
  }

  method ReadTail<O(!new)>(c: Cipher<O>, inbuf: array<O>, off: nat, len: nat, ghost iv: seq<O>, ghost q: seq<O>, ghost k: nat)
    returns (m: nat, y: seq<O>, z: seq<O>)
    requires Stealing(c, iv, q, k) && len == |q| && off == Span(k, c.size) && Unread(inbuf, q, off)
    ensures m == Span(k + 1, c.size) && off + c.size == m && y == Block(c, q, k) && z == Rest(c, iv, q, k) && m + |z| == len
  {
    m := off + c.size;
    y, z := inbuf[off..m], inbuf[m..len];
    assert y == q[off..m] && z == q[m..];
  }

  method DecryptPlain<O(!new)>(c: Cipher<O>, iv: array<O>, lastiv: array<O>, outbuf: array<O>, inbuf: array<O>, n: nat, len: nat,
                               ghost iv0: seq<O>, ghost q: seq<O>, ghost d: seq<O>)
    requires Lawful(c) && |iv0| == iv.Length == lastiv.Length == c.size && iv != lastiv && Span(n, c.size) == len == |q| <= |d|
    requires iv != outbuf && iv != inbuf && lastiv != outbuf && lastiv != inbuf
    requires outbuf[..] == d && iv[..] == iv0 && Unread(inbuf, q, 0)
    modifies iv, lastiv, outbuf
    ensures outbuf[..] == Unchain(c, iv0, q, n) + d[len..] && iv[..] == Before(c, iv0, q, n)
  {
    var off := DecryptBlocks(c, iv, lastiv, outbuf, inbuf, n, iv0, q, d);
  }

  // _gcry_cipher_cbc_decrypt
  method Decrypt<O(!new)>(h: CipherHandle<O>, outbuf: array<O>, inbuf: array<O>, len: nat, cts: bool) returns (code: Code)
    requires h.Valid() && h.Apart(outbuf) && h.Apart(inbuf) && len <= inbuf.Length
    modifies outbuf, h.iv, h.lastiv
    ensures code == (if outbuf.Length < len then BUFFER_TOO_SHORT
                     else if !Admissible(len, h.c.size, cts) then INV_LENGTH else OK)
    ensures code != OK ==> outbuf[..] == old(outbuf[..]) && h.iv[..] == old(h.iv[..])
    ensures code == OK ==>
              && outbuf[..] == Plaintext(h.c, old(h.iv[..]), old(inbuf[..len]), cts) + old(outbuf[..])[len..]
              && h.iv[..] == AfterDecryption(h.c, old(h.iv[..]), old(inbuf[..len]), cts)
  {
    if outbuf.Length < len { return BUFFER_TOO_SHORT; }
    var n, whole := Divide(len, h.c.size);
    if !whole && !(len > h.c.size && cts) { return INV_LENGTH; }
    if cts && len > h.c.size {
      KeptFits(len, h.c.size);
      DecryptStealing(h.c, h.iv, h.lastiv, outbuf, inbuf, len, h.iv[..], inbuf[..len], outbuf[..], Kept(len, h.c.size));
    } else {
      DecryptPlain(h.c, h.iv, h.lastiv, outbuf, inbuf, n, len, h.iv[..], inbuf[..len], outbuf[..]);
    }
    return OK;
  }

  // -------------------------------------------------------- round trips

  // Decryption inverts encryption, at every length the code accepts.
  lemma DecryptionInverts<O(!new)>(c: Cipher<O>, iv: seq<O>, p: seq<O>, cts: bool)
    requires Lawful(c) && |iv| == c.size && Admissible(|p|, c.size, cts)
    ensures Plaintext(c, iv, Ciphertext(c, iv, p, cts), cts) == p
  {
    if Steals(|p|, c.size, cts) {
      KeptFits(|p|, c.size);
      UnstealSteal(c, iv, p, Kept(|p|, c.size));
    } else {
      var n := Full(|p|, c.size);
      var q := Chain(c, iv, p, n);
      assert q[..|p|] == q && p[..|p|] == p;
      UnchainChain(c, iv, p, q, n);
    }
  }

  lemma StolenBlock<O(!new)>(c: Cipher<O>, iv: seq<O>, p: seq<O>, k: nat)
    requires Stealing(c, iv, p, k)
    ensures Stealing(c, iv, Steal(c, iv, p, k), k)
    ensures LastOfSteal(c, iv, Steal(c, iv, p, k), k) == Block(c, Chain(c, iv, p, k + 1), k)
  {
    var q, x, y := StealNext(c, iv, p, k);
    var r, rest := Steal(c, iv, p, k), Rest(c, iv, p, k);
    Ends(c, q, x, k);
    ThreePieces(c, r, q, y, x[..|rest|], k);
    assert q[..Span(k, c.size)] == q;
    BeforeSame(c, iv, r, q, k);
    TailRecovered(c, Before(c, iv, q, k), Block(c, p, k), rest, x, y);
  }

  // The last block after which both directions leave the same chaining value: what the
  // blocks in front of it determine
  function Agreeing<O(!new)>(c: Cipher<O>, iv: seq<O>, p: seq<O>, k: nat): (b: seq<O>)
    requires Lawful(c) && |iv| == c.size && Span(k + 1, c.size) <= |p|
    ensures |b| == c.size
  {
    XorSeq(c, XorSeq(c, Block(c, p, k), Before(c, iv, Chain(c, iv, p, k), k)), Block(c, Chain(c, iv, p, k + 1), k))
  }

  lemma AgreeingSame<O(!new)>(c: Cipher<O>, iv: seq<O>, p: seq<O>, p': seq<O>, k: nat)
    requires Lawful(c) && |iv| == c.size && Span(k + 1, c.size) <= |p| && Span(k + 1, c.size) <= |p'|
    requires p[..Span(k + 1, c.size)] == p'[..Span(k + 1, c.size)]
    ensures Agreeing(c, iv, p, k) == Agreeing(c, iv, p', k)
  {
    BlockSame(c, p, p', k);
    ChainSame(c, iv, p, p', k);
    ChainSame(c, iv, p, p', k + 1);
  }

  // a xor b and w xor x are enciphered alike exactly when w is a xor b xor x.
  lemma SameCipher<O(!new)>(c: Cipher<O>, a: seq<O>, w: seq<O>, x: seq<O>)
    requires Lawful(c) && |a| == |w| == |x| == c.size
    ensures Enc(c, a) == Enc(c, XorSeq(c, w, x)) <==> w == XorSeq(c, a, x)
  {
    Inverse(c, a);
    Inverse(c, XorSeq(c, w, x));
    XorTwice(c, w, x);
    XorTwice(c, a, x);
  }

  // The two directions leave the same chaining value behind exactly when nothing is stolen,
  // or the last block, filled up with zeros, is the one that agrees with those before it.
  lemma ValuesAgree<O(!new)>(c: Cipher<O>, iv: seq<O>, p: seq<O>, cts: bool, k: nat)
    requires Lawful(c) && |iv| == c.size && Admissible(|p|, c.size, cts) && k == Kept(|p|, c.size)
    ensures Steals(|p|, c.size, cts) ==> Stealing(c, iv, p, k)
    ensures AfterDecryption(c, iv, Ciphertext(c, iv, p, cts), cts) == AfterEncryption(c, iv, p, cts)
            <==> (Steals(|p|, c.size, cts) ==> Padded(c, Rest(c, iv, p, k)) == Agreeing(c, iv, p, k))
  {
    if Steals(|p|, c.size, cts) {
      KeptFits(|p|, c.size);
      StolenBlock(c, iv, p, k);
      var q, x, y := StealNext(c, iv, p, k);
      Ends(c, q, x, k);
      ThreePieces(c, Steal(c, iv, p, k), q, y, x[..|Rest(c, iv, p, k)|], k);
      SameCipher(c, XorSeq(c, Block(c, p, k), Before(c, iv, q, k)), Padded(c, Rest(c, iv, p, k)), x);
    }
  }

  lemma PaddedSame<O>(c: Cipher<O>, w: seq<O>, w': seq<O>)
    requires |w| == |w'| <= c.size && Padded(c, w) == Padded(c, w')
    ensures w == w'
  {
    assert Padded(c, w)[..|w|] == w;
  }

  lemma RestSame<O(!new)>(c: Cipher<O>, iv: seq<O>, p: seq<O>, p': seq<O>, k: nat)
    requires Stealing(c, iv, p, k) && Stealing(c, iv, p', k) && Rest(c, iv, p, k) == Rest(c, iv, p', k)
    requires p[..Span(k + 1, c.size)] == p'[..Span(k + 1, c.size)]
    ensures p == p'
  {
    Joints(p, Span(k + 1, c.size));
    Joints(p', Span(k + 1, c.size));
  }

  lemma Joints<O>(p: seq<O>, m: nat)
    requires m <= |p|
    ensures p == p[..m] + p[m..]
  {
  }

  // Under every cipher: of two messages that steal and differ in the last block alone, the
  // two directions leave different chaining values for one at least.
  lemma ValuesDisagree<O(!new)>(c: Cipher<O>, iv: seq<O>, p: seq<O>, p': seq<O>, k: nat)
    requires Lawful(c) && |iv| == c.size < |p| == |p'| && k == Kept(|p|, c.size) && p != p'
    requires Span(k + 1, c.size) <= |p| && p[..Span(k + 1, c.size)] == p'[..Span(k + 1, c.size)]
    ensures AfterDecryption(c, iv, Ciphertext(c, iv, p, true), true) != AfterEncryption(c, iv, p, true)
         || AfterDecryption(c, iv, Ciphertext(c, iv, p', true), true) != AfterEncryption(c, iv, p', true)
  {
    ValuesAgree(c, iv, p, true, k);
    ValuesAgree(c, iv, p', true, k);
    AgreeingSame(c, iv, p, p', k);
    if Padded(c, Rest(c, iv, p, k)) == Padded(c, Rest(c, iv, p', k)) {
      PaddedSame(c, Rest(c, iv, p, k), Rest(c, iv, p', k));
      RestSame(c, iv, p, p', k);
    }
  }

  // So for two blocks of zeros, or for these with another octet at the end
  lemma ZerosOrNot<O(!new)>(c: Cipher<O>, iv: seq<O>, zeros: seq<O>, o: O)
    requires Lawful(c) && |iv| == c.size && |zeros| == c.size + c.size && o != c.zero
    requires forall i :: 0 <= i < |zeros| ==> zeros[i] == c.zero
    ensures AfterDecryption(c, iv, Ciphertext(c, iv, zeros, true), true) != AfterEncryption(c, iv, zeros, true)
         || AfterDecryption(c, iv, Ciphertext(c, iv, zeros[|zeros| - 1 := o], true), true) != AfterEncryption(c, iv, zeros[|zeros| - 1 := o], true)
  {
    assert Span(1, c.size) == c.size && zeros[|zeros| - 1] != zeros[|zeros| - 1 := o][|zeros| - 1];
    ValuesDisagree(c, iv, zeros, zeros[|zeros| - 1 := o], 0);
  }

  // One buffer, encrypted in place and decrypted in place from the same chaining value,
  // is what it was.
  method ThereAndBack<O(!new)>(c: Cipher<O>, start: seq<O>, buf: array<O>, len: nat, cts: bool) returns (code: Code)
    requires Lawful(c) && |start| == c.size && len <= buf.Length
    modifies buf
    ensures code == OK <==> Admissible(len, c.size, cts)
    ensures buf[..] == old(buf[..])
  {
    ghost var p, tail := buf[..len], buf[..][len..];
    var there := new CipherHandle(c, start, start);
    code := Encrypt(there, buf, buf, len, cts);
    if code != OK { return; }
    ghost var q := Ciphertext(c, start, p, cts);
    assert buf[..len] == q && buf[..][len..] == tail by { InFront2(q, tail, buf[..], len); }
    var back := new CipherHandle(c, start, start);
    code := Decrypt(back, buf, buf, len, cts);
    DecryptionInverts(c, start, p, cts);
  }

  lemma InFront2<O>(q: seq<O>, t: seq<O>, d: seq<O>, n: nat)
    requires |q| == n && d == q + t
    ensures d[..n] == q && d[n..] == t
  {
  }
}
