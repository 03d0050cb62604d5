// The loops of cipher-cbc.c that encrypt, in place: input and output may be one buffer.
module CbcCode {
  import opened BlockCipher
  import opened Cbc
  import opened CbcLengths
  import opened Handle

  // ------------------------------------------------------- whole blocks

  // After k blocks of p, in a buffer that held d
  ghost predicate Enciphered<O(!new)>(c: Cipher<O>, iv: seq<O>, p: seq<O>, d: seq<O>, k: nat, out: seq<O>)
    requires Lawful(c) && |iv| == c.size && Span(k, c.size) <= |p| <= |d|
  {
    out == Chain(c, iv, p, k) + d[Span(k, c.size)..]
  }

  lemma BlockEnciphered<O(!new)>(c: Cipher<O>, iv: seq<O>, p: seq<O>, d: seq<O>, k: nat, out: seq<O>, y: seq<O>)
    requires Lawful(c) && |iv| == c.size && Span(k + 1, c.size) <= |p| <= |d| && Enciphered(c, iv, p, d, k, out)
    requires y == Enc(c, XorSeq(c, Block(c, p, k), Before(c, iv, out, k)))
    ensures Span(k, c.size) + |y| <= |out|
    ensures var e := Put(out, Span(k, c.size), y); Enciphered(c, iv, p, d, k + 1, e) && Block(c, e, k) == y
  {
    var q := Chain(c, iv, p, k);
    PutNext(q, d, Span(k, c.size), y, Span(k + 1, c.size));
    assert q[..Span(k, c.size)] == q;
    BeforeSame(c, iv, out, q, k);
    ChainNext(c, iv, p, k);
  }

  // buf_xor, then the cipher in place
  method EncryptBlock<O(!new)>(c: Cipher<O>, outbuf: array<O>, inbuf: array<O>, off: nat, to: nat, ivp: seq<O>, ghost p: seq<O>)
    returns (y: seq<O>)
    requires Lawful(c) && |ivp| == c.size && off + c.size == to <= |p| && to <= outbuf.Length && Unread(inbuf, p, off)
    modifies outbuf
    ensures y == Enc(c, XorSeq(c, p[off..to], ivp)) && |y| == c.size
    ensures outbuf[..] == Put(old(outbuf[..]), off, y) && Unread(inbuf, p, to)
  {
    var b := inbuf[off..to];
    assert b == p[off..to];
    ghost var o := outbuf[..];
    var x := XorSeq(c, b, ivp);
    Copy(outbuf, off, x);
    PutWhole(o, off, x);
    y := Enc(c, outbuf[..][off..off + |x|]);
    Copy(outbuf, off, y);
    PutTwice(o, off, x, y);
    Beyond(o, outbuf[..], off, y, to);
  }

  method EncryptNext<O(!new)>(c: Cipher<O>, outbuf: array<O>, inbuf: array<O>, off: nat, ivp: seq<O>,
                              ghost iv: seq<O>, ghost p: seq<O>, ghost d: seq<O>, ghost k: nat) returns (y: seq<O>, to: nat)
    requires Lawful(c) && |iv| == c.size && off == Span(k, c.size) && Span(k + 1, c.size) <= |p| <= |d| == outbuf.Length
    requires Unread(inbuf, p, off) && Enciphered(c, iv, p, d, k, outbuf[..]) && ivp == Before(c, iv, outbuf[..], k)
    modifies outbuf
    ensures to == Span(k + 1, c.size) && Unread(inbuf, p, to) && Enciphered(c, iv, p, d, k + 1, outbuf[..])
    ensures y == Block(c, outbuf[..], k)
  {
    BlockEnciphered(c, iv, p, d, k, outbuf[..], Enc(c, XorSeq(c, Block(c, p, k), ivp)));
    to := off + c.size;
    y := EncryptBlock(c, outbuf, inbuf, off, to, ivp, p);
  }

  // The loop over whole blocks; ivp is the block before.
  method EncryptLoop<O(!new)>(c: Cipher<O>, iv: seq<O>, outbuf: array<O>, inbuf: array<O>, nblocks: nat, ghost p: seq<O>, ghost d: seq<O>)
    returns (ivp: seq<O>, off: nat)
    requires Lawful(c) && |iv| == c.size && Span(nblocks, c.size) <= |p| <= |d| && Unread(inbuf, p, 0) && outbuf[..] == d
    modifies outbuf
    ensures off == Span(nblocks, c.size) && Unread(inbuf, p, off) && Enciphered(c, iv, p, d, nblocks, outbuf[..])
    ensures ivp == Before(c, iv, outbuf[..], nblocks)
  {
    var n := 0;
    ivp, off := iv, 0;
    while n < nblocks
      invariant 0 <= n <= nblocks && off == Span(n, c.size) <= |p| && Unread(inbuf, p, off)
      invariant Enciphered(c, iv, p, d, n, outbuf[..]) && ivp == Before(c, iv, outbuf[..], n)
    {
      SpanGrows(n + 1, nblocks, c.size);
      ivp, off := EncryptNext(c, outbuf, inbuf, off, ivp, iv, p, d, n);
      n := n + 1;
    }
  }

  method EncryptBlocks<O(!new)>(c: Cipher<O>, iv: array<O>, outbuf: array<O>, inbuf: array<O>, nblocks: nat, ghost p: seq<O>) returns (off: nat)
    requires Lawful(c) && iv.Length == c.size && iv != outbuf && iv != inbuf
    requires Span(nblocks, c.size) <= |p| <= outbuf.Length && Unread(inbuf, p, 0)
    modifies outbuf, iv
    ensures off == Span(nblocks, c.size) && Unread(inbuf, p, off)
    ensures Enciphered(c, old(iv[..]), p, old(outbuf[..]), nblocks, outbuf[..])
    ensures iv[..] == Before(c, old(iv[..]), outbuf[..], nblocks)
  {
    var ivp;
    ivp, off := EncryptLoop(c, iv[..], outbuf, inbuf, nblocks, p, outbuf[..]);
    Replace(iv, ivp);
  }

  // ------------------------------------------------- stealing, in place

  // The buffer while the block x at a is moved one block on, to m, and the rest of the
  // data is xored into its place, after i octets.
  ghost predicate Moving<O>(c: Cipher<O>, o: seq<O>, now: seq<O>, a: nat, m: nat, rest: seq<O>, x: seq<O>, i: nat)
    requires |o| == |now| && a + |x| == m && i <= |rest| <= |x| && m + |rest| <= |o|
  {
    forall j :: 0 <= j < |o| ==>
      now[j] == if a <= j < a + i then c.xor(rest[j - a], x[j - a]) else if m <= j < m + i then x[j - m] else o[j]
  }

  lemma Moved<O>(c: Cipher<O>, o: seq<O>, now: seq<O>, a: nat, m: nat, rest: seq<O>, x: seq<O>, n: nat)
    requires |o| == |now| && a + |x| == m && |rest| <= |x| && m + |rest| == n <= |o|
    requires forall j :: 0 <= j < |x| ==> o[a + j] == x[j]
    requires Moving(c, o, now, a, m, rest, x, |rest|)
    ensures now == o[..a] + (XorSeq(c, rest, x) + x[|rest|..]) + (x[..|rest|] + o[n..])
  {
    var e := o[..a] + (XorSeq(c, rest, x) + x[|rest|..]) + (x[..|rest|] + o[n..]);
    forall j | 0 <= j < |o| ensures now[j] == e[j] {
      if a <= j < m { assert o[a + (j - a)] == x[j - a]; }
    }
  }

  method MoveAndXor<O(!new)>(c: Cipher<O>, iv: array<O>, outbuf: array<O>, inbuf: array<O>, a: nat, m: nat, r: nat, ghost p: seq<O>)
    requires iv != outbuf && iv != inbuf && r <= iv.Length && a + iv.Length == m && m + r == |p| <= outbuf.Length
    requires forall j :: 0 <= j < iv.Length ==> outbuf[a + j] == iv[j]
    requires Unread(inbuf, p, m)
    modifies outbuf
    ensures Moving(c, old(outbuf[..]), outbuf[..], a, m, p[m..], iv[..], r)
  {
    ghost var o, x, rest := outbuf[..], iv[..], p[m..];
    for i := 0 to r
      invariant Moving(c, o, outbuf[..], a, m, rest, x, i) && iv[..] == x
      invariant Unread(inbuf, p, m + i)
      invariant forall j :: i <= j < iv.Length ==> outbuf[a + j] == x[j]
    {
      var b := inbuf[m + i];
      outbuf[m + i] := outbuf[a + i];
      outbuf[a + i] := c.xor(b, iv[i]);
    }
  }

  // outbuf[i] = 0 ^ iv[i]: the block that was there is the chaining value already.
  method PadBlock<O(!new)>(c: Cipher<O>, iv: array<O>, outbuf: array<O>, a: nat, r: nat)
    requires Lawful(c) && iv != outbuf && r <= iv.Length && a + iv.Length <= outbuf.Length
    requires forall j :: r <= j < iv.Length ==> outbuf[a + j] == iv[j]
    modifies outbuf
    ensures outbuf[..] == old(outbuf[..])
  {
    ghost var now := outbuf[..];
    for i := r to iv.Length
      invariant outbuf[..] == now
    {
      assert outbuf[a + i] == now[a + i];
      XorBack(c, c.zero, iv[i]);
      outbuf[a + i] := c.xor(c.zero, iv[i]);
    }
  }

  method StealRest<O(!new)>(c: Cipher<O>, iv: array<O>, outbuf: array<O>, inbuf: array<O>, a: nat, m: nat, r: nat, ghost p: seq<O>)
    requires Lawful(c) && iv != outbuf && iv != inbuf && r <= iv.Length && a + iv.Length == m && m + r == |p| <= outbuf.Length
    requires forall j :: 0 <= j < iv.Length ==> outbuf[a + j] == iv[j]
    requires Unread(inbuf, p, m)
    modifies outbuf
    ensures outbuf[..] == old(outbuf[..])[..a] + (XorSeq(c, p[m..], iv[..]) + iv[..][r..]) + (iv[..][..r] + old(outbuf[..])[|p|..])
  {
    ghost var o, x := outbuf[..], iv[..];
    MoveAndXor(c, iv, outbuf, inbuf, a, m, r, p);
    PadBlock(c, iv, outbuf, a, r);
    Moved(c, o, outbuf[..], a, m, p[m..], x, |p|);
  }

  lemma PutMiddle<O>(f: seq<O>, e: seq<O>, z: seq<O>, y: seq<O>, a: nat)
    requires |y| == |e| && |f| == a
    ensures (f + e + z)[a..a + |e|] == e && Put(f + e + z, a, y) == f + y + z
  {
    PutParts(f + e + z, a, y);
  }

  method SealBlock<O(!new)>(c: Cipher<O>, outbuf: array<O>, a: nat, ghost f: seq<O>, ghost e: seq<O>, ghost z: seq<O>) returns (y: seq<O>)
    requires Lawful(c) && |f| == a && |e| == c.size && outbuf[..] == f + e + z
    modifies outbuf
    ensures y == Enc(c, e) && |y| == c.size && outbuf[..] == f + y + z
  {
    PutMiddle(f, e, z, Enc(c, e), a);
    var b := outbuf[..][a..a + c.size];
    y := Enc(c, b);
    Copy(outbuf, a, y);
  }

  // The part of _gcry_cipher_cbc_encrypt after the loop over the blocks
  method StealForward<O(!new)>(c: Cipher<O>, iv: array<O>, outbuf: array<O>, inbuf: array<O>, a: nat, m: nat, r: nat, ghost p: seq<O>)
    requires Lawful(c) && iv.Length == c.size && iv != outbuf && iv != inbuf
    requires r <= c.size && a + c.size == m && m + r == |p| <= outbuf.Length && Unread(inbuf, p, m)
    requires forall j :: 0 <= j < iv.Length ==> outbuf[a + j] == iv[j]
    modifies outbuf, iv
    ensures iv[..] == Enc(c, XorSeq(c, p[m..], old(iv[..])) + old(iv[..])[r..])
    ensures outbuf[..] == old(outbuf[..])[..a] + iv[..] + (old(iv[..])[..r] + old(outbuf[..])[|p|..])
  {
    ghost var x, o := iv[..], outbuf[..];
    StealRest(c, iv, outbuf, inbuf, a, m, r, p);
    var y := SealBlock(c, outbuf, a, o[..a], XorSeq(c, p[m..], x) + x[r..], x[..r] + o[|p|..]);
    Replace(iv, y);
  }

  // --------------------------------------------- the whole of encryption

  function Ciphertext<O(!new)>(c: Cipher<O>, iv: seq<O>, p: seq<O>, cts: bool): (q: seq<O>)
    requires Lawful(c) && |iv| == c.size && Admissible(|p|, c.size, cts)
    ensures |q| == |p|
  {
    if Steals(|p|, c.size, cts) then
      KeptFits(|p|, c.size);
      Steal(c, iv, p, Kept(|p|, c.size))
    else
      Chain(c, iv, p, Full(|p|, c.size))
  }

  // The chaining value encryption leaves behind
  function AfterEncryption<O(!new)>(c: Cipher<O>, iv: seq<O>, p: seq<O>, cts: bool): (v: seq<O>)
    requires Lawful(c) && |iv| == c.size && Admissible(|p|, c.size, cts)
  {
    var q := Ciphertext(c, iv, p, cts);
    if Steals(|p|, c.size, cts) then
      KeptFits(|p|, c.size);
      Block(c, q, Kept(|p|, c.size))
    else
      Before(c, iv, q, Full(|p|, c.size))
  }

  lemma LastInPlace<O(!new)>(c: Cipher<O>, iv: seq<O>, p: seq<O>, d: seq<O>, k: nat, out: seq<O>, x: seq<O>)
    requires Lawful(c) && |iv| == c.size && Span(k + 1, c.size) <= |p| <= |d| && Enciphered(c, iv, p, d, k + 1, out)
    requires x == Block(c, out, k)
    ensures |out| == |d| && forall j :: 0 <= j < |x| ==> out[Span(k, c.size) + j] == x[j]
  {
  }

  // q and x enciphered in front become q, y and the start of x.
  lemma Pieces<O>(q: seq<O>, x: seq<O>, y: seq<O>, d: seq<O>, a: nat, m: nat, r: nat, n: nat, out: seq<O>, now: seq<O>)
    requires |q| == a && a + |x| == m && |x| == |y| && r <= |x| && m + r == n <= |d|
    requires out == q + x + d[m..] && now == out[..a] + y + (x[..r] + out[n..])
    ensures now == q + y + x[..r] + d[n..] && (q + y + x[..r])[a..m] == y
  {
    assert out[..a] == q && out[n..] == d[n..];
  }

  lemma StealIsPieces<O(!new)>(c: Cipher<O>, iv: seq<O>, p: seq<O>, d: seq<O>, k: nat, out: seq<O>, x: seq<O>, y: seq<O>) returns (q: seq<O>)
    requires Stealing(c, iv, p, k) && |p| <= |d| && Enciphered(c, iv, p, d, k + 1, out) && |x| == c.size && x == Block(c, out, k)
    requires var rest := Rest(c, iv, p, k); y == Enc(c, XorSeq(c, rest, x) + x[|rest|..])
    ensures |q| == Span(k, c.size) && |y| == c.size && out == q + x + d[Span(k + 1, c.size)..]
    ensures Steal(c, iv, p, k) == q + y + x[..|Rest(c, iv, p, k)|]
  {
    var x1, y1;
    q, x1, y1 := StealNext(c, iv, p, k);
    BlockInFront(c, q, x1, d, k);
    PaddedXor(c, Rest(c, iv, p, k), x);
  }

  lemma BlockInFront<O>(c: Cipher<O>, q: seq<O>, x: seq<O>, d: seq<O>, k: nat)
    requires |q| == Span(k, c.size) && |x| == c.size && Span(k + 1, c.size) <= |d|
    ensures Block(c, q + x + d[Span(k + 1, c.size)..], k) == x
  {
  }

  lemma Stolen<O(!new)>(c: Cipher<O>, iv: seq<O>, p: seq<O>, d: seq<O>, k: nat, out: seq<O>, x: seq<O>, y: seq<O>, now: seq<O>)
    requires Stealing(c, iv, p, k) && |p| <= |d| && Enciphered(c, iv, p, d, k + 1, out) && |x| == c.size && x == Block(c, out, k)
    requires var rest := Rest(c, iv, p, k);
             && y == Enc(c, XorSeq(c, rest, x) + x[|rest|..])
             && now == out[..Span(k, c.size)] + y + (x[..|rest|] + out[|p|..])
    ensures now == Steal(c, iv, p, k) + d[|p|..] && y == Block(c, Steal(c, iv, p, k), k)
  {
    var q := StealIsPieces(c, iv, p, d, k, out, x, y);
    Pieces(q, x, y, d, Span(k, c.size), Span(k + 1, c.size), |Rest(c, iv, p, k)|, |p|, out, now);
  }

  method EncryptStealing<O(!new)>(c: Cipher<O>, iv: array<O>, outbuf: array<O>, inbuf: array<O>, len: nat, ghost p: seq<O>)
    requires Lawful(c) && iv.Length == c.size && iv != outbuf && iv != inbuf && Unread(inbuf, p, 0)
    requires c.size < |p| == len <= outbuf.Length
    modifies outbuf, iv
    ensures Stealing(c, old(iv[..]), p, Kept(len, c.size))
    ensures outbuf[..] == Steal(c, old(iv[..]), p, Kept(len, c.size)) + old(outbuf[..])[len..]
    ensures iv[..] == Block(c, Steal(c, old(iv[..]), p, Kept(len, c.size)), Kept(len, c.size))
  {
    ghost var iv0, d, k := iv[..], outbuf[..], Kept(len, c.size);
    KeptFits(len, c.size);
    var nblocks := FrontBlocks(len, c.size);
    var off := EncryptBlocks(c, iv, outbuf, inbuf, nblocks, p);
    StealAfter(c, iv, outbuf, inbuf, off - c.size, off, len - off, iv0, p, d, k);
  }

  method StealAfter<O(!new)>(c: Cipher<O>, iv: array<O>, outbuf: array<O>, inbuf: array<O>, a: nat, m: nat, r: nat,
                             ghost iv0: seq<O>, ghost p: seq<O>, ghost d: seq<O>, ghost k: nat)
    requires Stealing(c, iv0, p, k) && iv != outbuf && iv != inbuf && |p| <= |d|
    requires a == Span(k, c.size) && m == Span(k + 1, c.size) && r == |Rest(c, iv0, p, k)|
    requires Enciphered(c, iv0, p, d, k + 1, outbuf[..]) && iv[..] == Block(c, outbuf[..], k) && Unread(inbuf, p, m)
    modifies outbuf, iv
    ensures outbuf[..] == Steal(c, iv0, p, k) + d[|p|..] && iv[..] == Block(c, Steal(c, iv0, p, k), k)
  {
    ghost var out, x := outbuf[..], iv[..];
    LastInPlace(c, iv0, p, d, k, out, x);
    StealForward(c, iv, outbuf, inbuf, a, m, r, p);
    Stolen(c, iv0, p, d, k, out, x, iv[..], outbuf[..]);
  }

  method EncryptPlain<O(!new)>(c: Cipher<O>, iv: array<O>, outbuf: array<O>, inbuf: array<O>, n: nat, len: nat, ghost p: seq<O>)
    requires Lawful(c) && iv.Length == c.size && iv != outbuf && iv != inbuf && Unread(inbuf, p, 0)
    requires Span(n, c.size) == |p| == len <= outbuf.Length
    modifies outbuf, iv
    ensures outbuf[..] == Chain(c, old(iv[..]), p, n) + old(outbuf[..])[len..]
    ensures iv[..] == Before(c, old(iv[..]), Chain(c, old(iv[..]), p, n), n)
  {
    ghost var iv0, d := iv[..], outbuf[..];
    var off := EncryptBlocks(c, iv, outbuf, inbuf, n, p);
    ghost var q := Chain(c, iv0, p, n);
    assert (q + d[len..])[..len] == q && q[..len] == q;
    BeforeSame(c, iv0, outbuf[..], q, n);
  }

  // _gcry_cipher_cbc_encrypt, without the MAC-only flag
  method Encrypt<O(!new)>(h: CipherHandle<O>, outbuf: array<O>, inbuf: array<O>, len: nat, cts: bool) returns (code: Code)
    requires h.Valid() && h.Apart(outbuf) && h.Apart(inbuf) && len <= inbuf.Length
    modifies outbuf, h.iv
    ensures code == (if outbuf.Length < len then BUFFER_TOO_SHORT
                     else if !Admissible(len, h.c.size, cts) then INV_LENGTH else OK)
    ensures code != OK ==> outbuf[..] == old(outbuf[..]) && h.iv[..] == old(h.iv[..])
    ensures code == OK ==>
              && outbuf[..] == Ciphertext(h.c, old(h.iv[..]), old(inbuf[..len]), cts) + old(outbuf[..])[len..]
              && h.iv[..] == AfterEncryption(h.c, old(h.iv[..]), old(inbuf[..len]), cts)
  {
    if outbuf.Length < len { return BUFFER_TOO_SHORT; }
    var n, whole := Divide(len, h.c.size);
    if !whole && !(len > h.c.size && cts) { return INV_LENGTH; }
    if cts && len > h.c.size {
      EncryptStealing(h.c, h.iv, outbuf, inbuf, len, inbuf[..len]);
    } else {
      EncryptPlain(h.c, h.iv, outbuf, inbuf, n, len, inbuf[..len]);
    }
    return OK;
  }
}
