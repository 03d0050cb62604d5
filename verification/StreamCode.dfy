// The loops of cipher-cfb.c and cipher-ctr.c, in place: input and output may be one
// buffer, and the handle keeps what a call leaves over for the next one.
module StreamCode {
  import opened Bytes
  import opened Counters
  import opened BlockCipher
  import opened Stream
  import opened Handle

  datatype Code = OK | BUFFER_TOO_SHORT

  // The first off octets of p are done, in a buffer that held d.
  ghost predicate Done<O(!new)>(k: Kind<O>, c: Cipher<O>, s0: State<O>, p: seq<O>, d: seq<O>, off: nat, back: bool,
                                s: State<O>, out: seq<O>)
  {
    && off <= |p| <= |d| == |out| && Ready(k, c, s0) && Ready(k, c, s)
    && var r := Crypt(k, c, s0, p[..off], back);
       s == r.0 && out == r.1 + d[off..]
  }

  // A new mask
  lemma DoneRefill<O(!new)>(k: Kind<O>, c: Cipher<O>, s: State<O>, q: seq<O>, back: bool)
    requires Ready(k, c, s) && s.mask == [] && 0 < |q| <= c.size
    ensures Crypt(k, c, s, q, back) == Masked(k, c, Refill(k, c, s), q, back)
  {
    RefillFirst(k, c, s, q, back);
    MaskedIsCrypt(k, c, Refill(k, c, s), q, back);
  }

  lemma Joined<O>(p: seq<O>, off: nat, to: nat)
    requires off <= to <= |p|
    ensures p[..off] + p[off..to] == p[..to]
  {
  }

  lemma CryptJoined<O(!new)>(k: Kind<O>, c: Cipher<O>, s0: State<O>, p: seq<O>, off: nat, to: nat, back: bool,
                             s: State<O>, o: seq<O>, t: State<O>, q: seq<O>)
    requires Ready(k, c, s0) && off <= to <= |p|
    requires Crypt(k, c, s0, p[..off], back) == (s, o) && Crypt(k, c, s, p[off..to], back) == (t, q)
    ensures Crypt(k, c, s0, p[..to], back) == (t, o + q)
  {
    CryptConcat(k, c, s0, p[..off], p[off..to], back, s, o, t, q);
    Joined(p, off, to);
  }

  lemma DoneWith<O(!new)>(k: Kind<O>, c: Cipher<O>, s0: State<O>, p: seq<O>, d: seq<O>, off: nat, to: nat, back: bool,
                          t: State<O>, o: seq<O>, q: seq<O>)
    requires Ready(k, c, s0) && Ready(k, c, t) && |o| == off && off + |q| == to <= |p| <= |d|
    requires Crypt(k, c, s0, p[..to], back) == (t, o + q)
    ensures Done(k, c, s0, p, d, to, back, t, Put(o + d[off..], off, q))
  {
    PutNext(o, d, off, q, to);
  }

  lemma DoneMore<O(!new)>(k: Kind<O>, c: Cipher<O>, s0: State<O>, p: seq<O>, d: seq<O>, off: nat, to: nat, back: bool,
                          s: State<O>, out: seq<O>, t: State<O>, q: seq<O>)
    requires Done(k, c, s0, p, d, off, back, s, out) && to <= |p| && off + |q| == to && Ready(k, c, t)
    requires Crypt(k, c, s, p[off..to], back) == (t, q)
    ensures to <= |out| && Done(k, c, s0, p, d, to, back, t, Put(out, off, q))
  {
    var o := Crypt(k, c, s0, p[..off], back).1;
    CryptJoined(k, c, s0, p, off, to, back, s, o, t, q);
    DoneWith(k, c, s0, p, d, off, to, back, t, o, q);
  }

  predicate Tick(off: nat) { true }

  // f(off) is the state and the output after off octets.
  ghost predicate Tracks<O(!new)>(k: Kind<O>, c: Cipher<O>, s0: State<O>, p: seq<O>, d: seq<O>, back: bool, f: nat -> (State<O>, seq<O>))
  {
    forall off: nat {:trigger Tick(off)} :: Tick(off) && off <= |p| ==> Done(k, c, s0, p, d, off, back, f(off).0, f(off).1)
  }

  lemma TrackExists<O(!new)>(k: Kind<O>, c: Cipher<O>, s0: State<O>, p: seq<O>, d: seq<O>, back: bool) returns (f: nat -> (State<O>, seq<O>))
    requires Ready(k, c, s0) && |p| <= |d|
    ensures Tracks(k, c, s0, p, d, back, f) && f(0) == (s0, d)
  {
    f := (off: nat) => if off <= |p| then AfterOctets(k, c, s0, p, d, back, off) else (s0, d);
    assert p[..0] == [] && [] + d[0..] == d;
  }

  function AfterOctets<O(!new)>(k: Kind<O>, c: Cipher<O>, s0: State<O>, p: seq<O>, d: seq<O>, back: bool, off: nat): (State<O>, seq<O>)
    requires Ready(k, c, s0) && off <= |p| <= |d|
  {
    var r := Crypt(k, c, s0, p[..off], back);
    (r.0, r.1 + d[off..])
  }

  lemma OnTrack<O(!new)>(k: Kind<O>, c: Cipher<O>, s0: State<O>, p: seq<O>, d: seq<O>, back: bool, f: nat -> (State<O>, seq<O>), off: nat)
    requires Tracks(k, c, s0, p, d, back, f) && off <= |p|
    ensures Done(k, c, s0, p, d, off, back, f(off).0, f(off).1)
  {
    assert Tick(off);
  }

  lemma TrackMore<O(!new)>(k: Kind<O>, c: Cipher<O>, s0: State<O>, p: seq<O>, d: seq<O>, back: bool, f: nat -> (State<O>, seq<O>),
                           off: nat, to: nat, t: State<O>, q: seq<O>)
    requires Tracks(k, c, s0, p, d, back, f) && off <= to <= |p| && off + |q| == to
    requires Ready(k, c, f(off).0) && Ready(k, c, t) && Crypt(k, c, f(off).0, p[off..to], back) == (t, q)
    ensures to <= |f(off).1| && f(to) == (t, Put(f(off).1, off, q))
  {
    OnTrack(k, c, s0, p, d, back, f, off);
    OnTrack(k, c, s0, p, d, back, f, to);
    DoneMore(k, c, s0, p, d, off, to, back, f(off).0, f(off).1, t, q);
  }

  lemma TrackEnds<O(!new)>(k: Kind<O>, c: Cipher<O>, s0: State<O>, p: seq<O>, d: seq<O>, back: bool, f: nat -> (State<O>, seq<O>), n: nat)
    requires Tracks(k, c, s0, p, d, back, f) && n == |p|
    ensures Ready(k, c, s0) && n <= |f(n).1| && n <= |d|
    ensures (f(n).0, f(n).1[..n]) == Crypt(k, c, s0, p, back) && f(n).1[n..] == d[n..]
  {
    OnTrack(k, c, s0, p, d, back, f, n);
    assert p[..n] == p;
  }

  // buf_xor on a part of the buffers
  method XorPart<O(!new)>(c: Cipher<O>, outbuf: array<O>, inbuf: array<O>, off: nat, to: nat, mask: seq<O>, ghost p: seq<O>)
    returns (b: seq<O>, q: seq<O>)
    requires off <= to <= |p| && to <= outbuf.Length && to - off <= |mask| && Unread(inbuf, p, off)
    modifies outbuf
    ensures b == p[off..to] && q == XorSeq(c, b, mask)
    ensures off + |q| == to && outbuf[..] == Put(old(outbuf[..]), off, q) && Unread(inbuf, p, to)
  {
    b := inbuf[off..to];
    assert b == p[off..to];
    q := XorSeq(c, b, mask);
    ghost var o := outbuf[..];
    Copy(outbuf, off, q);
    Beyond(o, outbuf[..], off, q, to);
  }

  // ------------------------------------------------------------------ CFB

  // The block at iv: ciphertext up to at, mask from there on
  function Split<O>(iv: seq<O>, at: nat): State<O>
    requires at <= |iv|
  {
    State(iv[..at], iv[at..])
  }

  lemma SplitReady<O(!new)>(c: Cipher<O>, iv: seq<O>, at: nat)
    requires Lawful(c) && |iv| == c.size && at <= |iv|
    ensures Ready(Feedback, c, Split(iv, at))
  {
  }

  lemma SplitPut<O>(iv: seq<O>, at: nat, w: seq<O>, upto: nat)
    requires at + |w| == upto <= |iv|
    ensures Split(Put(iv, at, w), upto) == State(iv[..at] + w, iv[at..][|w|..])
  {
    PutParts(iv, at, w);
    var e := iv[..at] + w + iv[upto..];
    assert e[..upto] == iv[..at] + w && e[upto..] == iv[upto..] && iv[at..][|w|..] == iv[upto..];
  }

  lemma PartOfMask<O(!new)>(c: Cipher<O>, iv: seq<O>, at: nat, upto: nat, b: seq<O>, back: bool) returns (q: seq<O>, w: seq<O>)
    requires Lawful(c) && |iv| == c.size && at + |b| == upto <= |iv|
    ensures q == XorSeq(c, b, iv[at..]) && |q| == |b| && |w| == |b| && w == (if back then b else q)
    ensures Ready(Feedback, c, Split(iv, at)) && Ready(Feedback, c, Split(Put(iv, at, w), upto))
    ensures Crypt(Feedback, c, Split(iv, at), b, back) == (Split(Put(iv, at, w), upto), q)
  {
    q := XorSeq(c, b, iv[at..]);
    w := if back then b else q;
    SplitReady(c, iv, at);
    SplitReady(c, Put(iv, at, w), upto);
    SplitPut(iv, at, w, upto);
    MaskedIsCrypt(Feedback, c, Split(iv, at), b, back);
  }

  // buf_xor_2dst or buf_xor_n_copy: the output gets the data under the mask, the block
  // at iv the ciphertext.
  method CfbPart<O(!new)>(c: Cipher<O>, iv: array<O>, at: nat, upto: nat, outbuf: array<O>, inbuf: array<O>, n: nat, back: bool,
                          ghost s0: State<O>, ghost p: seq<O>, ghost d: seq<O>, ghost f: nat -> (State<O>, seq<O>))
    requires Lawful(c) && iv.Length == c.size && iv != outbuf && iv != inbuf
    requires n <= |p| && at + n == upto <= iv.Length && Unread(inbuf, p, 0)
    requires Tracks(Feedback, c, s0, p, d, back, f) && (Split(iv[..], at), outbuf[..]) == f(0)
    modifies outbuf, iv
    ensures (Split(iv[..], upto), outbuf[..]) == f(n) && Unread(inbuf, p, n)
  {
    ghost var v := iv[..];
    ghost var y, w := PartOfMask(c, v, at, upto, p[0..n], back);
    TrackMore(Feedback, c, s0, p, d, back, f, 0, n, Split(Put(v, at, w), upto), y);
    var b, q := XorPart(c, outbuf, inbuf, 0, n, iv[at..], p);
    assert iv[at..] == v[at..];
    Copy(iv, at, if back then b else q);
  }

  lemma BlockOfMask<O(!new)>(c: Cipher<O>, iv: seq<O>, e: seq<O>, n: nat, b: seq<O>, back: bool) returns (q: seq<O>, w: seq<O>)
    requires Lawful(c) && |iv| == c.size && e == Enc(c, iv) && 0 < n == |b| <= c.size
    ensures q == XorSeq(c, b, e) && |q| == |w| == n && w == (if back then b else q)
    ensures Ready(Feedback, c, Split(iv, |iv|)) && Ready(Feedback, c, Split(Put(e, 0, w), n))
    ensures Crypt(Feedback, c, Split(iv, |iv|), b, back) == (Split(Put(e, 0, w), n), q)
  {
    assert iv[..|iv|] == iv && iv[|iv|..] == [] && e[0..] == e;
    assert Refill(Feedback, c, Split(iv, |iv|)) == Split(e, 0);
    RefillFirst(Feedback, c, Split(iv, |iv|), b, back);
    q, w := PartOfMask(c, e, 0, n, b, back);
  }

  // Encipher the block of ciphertext, and use the mask for up to a block.
  method CfbBlock<O(!new)>(c: Cipher<O>, iv: array<O>, outbuf: array<O>, inbuf: array<O>, off: nat, to: nat, back: bool,
                           ghost s0: State<O>, ghost p: seq<O>, ghost d: seq<O>, ghost f: nat -> (State<O>, seq<O>))
    requires Lawful(c) && iv.Length == c.size && iv != outbuf && iv != inbuf
    requires off < to <= |p| && to - off <= iv.Length && Unread(inbuf, p, off)
    requires Tracks(Feedback, c, s0, p, d, back, f) && (Split(iv[..], iv.Length), outbuf[..]) == f(off)
    modifies outbuf, iv
    ensures (Split(iv[..], to - off), outbuf[..]) == f(to) && Unread(inbuf, p, to)
  {
    ghost var v, b := iv[..], p[off..to];
    var e := Enc(c, iv[..]);
    ghost var y, w := BlockOfMask(c, v, e, to - off, b, back);
    TrackMore(Feedback, c, s0, p, d, back, f, off, to, Split(Put(e, 0, w), to - off), y);
    Replace(iv, e);
    var x, q := XorPart(c, outbuf, inbuf, off, to, e, p);
    assert e[0..] == e;
    Copy(iv, 0, if back then x else q);
  }

  // Whole blocks while there are two left
  method CfbBlocks<O(!new)>(c: Cipher<O>, iv: array<O>, outbuf: array<O>, inbuf: array<O>, off: nat, len: nat, back: bool,
                            ghost s0: State<O>, ghost p: seq<O>, ghost d: seq<O>, ghost f: nat -> (State<O>, seq<O>)) returns (to: nat)
    requires Lawful(c) && iv.Length == c.size && iv != outbuf && iv != inbuf && off <= len == |p|
    requires Tracks(Feedback, c, s0, p, d, back, f) && (Split(iv[..], iv.Length), outbuf[..]) == f(off) && Unread(inbuf, p, off)
    modifies outbuf, iv
    ensures off <= to <= len < to + 2 * c.size
    ensures (Split(iv[..], iv.Length), outbuf[..]) == f(to) && Unread(inbuf, p, to)
  {
    to := off;
    while len - to >= 2 * c.size
      invariant off <= to <= len && Unread(inbuf, p, to)
      invariant (Split(iv[..], iv.Length), outbuf[..]) == f(to)
    {
      CfbBlock(c, iv, outbuf, inbuf, to, to + c.size, back, s0, p, d, f);
      to := to + c.size;
    }
  }

  // A last whole block, and a last part of a block; the block enciphered is kept.
  method CfbRest<O(!new)>(c: Cipher<O>, iv: array<O>, lastiv: array<O>, outbuf: array<O>, inbuf: array<O>, off: nat, len: nat, back: bool,
                          ghost s0: State<O>, ghost p: seq<O>, ghost d: seq<O>, ghost f: nat -> (State<O>, seq<O>)) returns (unused: nat)
    requires Lawful(c) && iv.Length == lastiv.Length == c.size && iv != outbuf && iv != inbuf
    requires lastiv != iv && lastiv != outbuf && lastiv != inbuf && off <= len == |p| && len < off + 2 * c.size
    requires Tracks(Feedback, c, s0, p, d, back, f) && (Split(iv[..], iv.Length), outbuf[..]) == f(off) && Unread(inbuf, p, off)
    modifies outbuf, iv, lastiv
    ensures unused < c.size && (Split(iv[..], c.size - unused), outbuf[..]) == f(len)
  {
    var to := off;
    if len - to >= c.size {
      Replace(lastiv, iv[..]);
      CfbBlock(c, iv, outbuf, inbuf, to, to + c.size, back, s0, p, d, f);
      to := to + c.size;
    }
    unused := 0;
    if to < len {
      Replace(lastiv, iv[..]);
      CfbBlock(c, iv, outbuf, inbuf, to, len, back, s0, p, d, f);
      unused := c.size - (len - to);
    }
  }

  // What the handle holds between calls of CFB
  function CfbState<O(!new)>(h: CipherHandle<O>): State<O>
    requires h.Valid() && h.unused < h.c.size
    reads h, h.iv
  {
    Split(h.iv[..], h.c.size - h.unused)
  }

  // _gcry_cipher_cfb_encrypt, and with back _gcry_cipher_cfb_decrypt
  method Cfb<O(!new)>(h: CipherHandle<O>, outbuf: array<O>, inbuf: array<O>, len: nat, back: bool) returns (code: Code)
    requires h.Valid() && h.unused < h.c.size && h.Apart(outbuf) && h.Apart(inbuf) && len <= inbuf.Length
    modifies outbuf, h.iv, h.lastiv, h`unused
    ensures h.unused < h.c.size && (code == OK <==> outbuf.Length >= len)
    ensures code == OK ==>
              && (CfbState(h), outbuf[..][..len]) == Crypt(Feedback, h.c, old(CfbState(h)), old(inbuf[..len]), back)
              && outbuf[..][len..] == old(outbuf[..][len..])
    ensures code != OK ==> outbuf[..] == old(outbuf[..]) && CfbState(h) == old(CfbState(h))
  {
    if outbuf.Length < len { return BUFFER_TOO_SHORT; }
    ghost var s0, p, d := CfbState(h), inbuf[..len], outbuf[..];
    ghost var f := TrackExists(Feedback, h.c, s0, p, d, back);
    h.unused := CfbCall(h.c, h.iv, h.lastiv, h.unused, outbuf, inbuf, len, back, s0, p, d, f);
    TrackEnds(Feedback, h.c, s0, p, d, back, f, len);
    return OK;
  }

  method CfbCall<O(!new)>(c: Cipher<O>, iv: array<O>, lastiv: array<O>, unused: nat, outbuf: array<O>, inbuf: array<O>, len: nat, back: bool,
                          ghost s0: State<O>, ghost p: seq<O>, ghost d: seq<O>, ghost f: nat -> (State<O>, seq<O>)) returns (left: nat)
    requires Lawful(c) && iv.Length == lastiv.Length == c.size && iv != outbuf && iv != inbuf && unused < c.size
    requires lastiv != iv && lastiv != outbuf && lastiv != inbuf && len == |p| && Unread(inbuf, p, 0)
    requires Tracks(Feedback, c, s0, p, d, back, f) && (Split(iv[..], c.size - unused), outbuf[..]) == f(0)
    modifies outbuf, iv, lastiv
    ensures left < c.size && (Split(iv[..], c.size - left), outbuf[..]) == f(len)
  {
    var at := c.size - unused;
    if len <= unused {
      CfbPart(c, iv, at, at + len, outbuf, inbuf, len, back, s0, p, d, f);
      return unused - len;
    }
    if unused > 0 {
      CfbPart(c, iv, at, c.size, outbuf, inbuf, unused, back, s0, p, d, f);
    }
    var to := CfbBlocks(c, iv, outbuf, inbuf, unused, len, back, s0, p, d, f);
    left := CfbRest(c, iv, lastiv, outbuf, inbuf, to, len, back, s0, p, d, f);
  }

  // ------------------------------------------------------------------ CTR

  function Counting(): (k: Kind<byte>)
    ensures k.Counter?
  {
    Counter((b: seq<byte>) => IncBe(b))
  }

  lemma CountingReady(c: Cipher<byte>, v: seq<byte>, mask: seq<byte>)
    requires Lawful(c) && |v| == c.size && |mask| <= c.size
    ensures Ready(Counting(), c, State(v, mask))
    ensures mask == [] ==> Refill(Counting(), c, State(v, mask)) == State(IncBe(v), Enc(c, v))
  {
  }

  lemma CountingMasked(c: Cipher<byte>, v: seq<byte>, mask: seq<byte>, b: seq<byte>, back: bool)
    requires Lawful(c) && |v| == c.size && |b| <= |mask| <= c.size
    ensures Ready(Counting(), c, State(v, mask))
    ensures Masked(Counting(), c, State(v, mask), b, back) == (State(v, mask[|b|..]), XorSeq(c, b, mask))
  {
    CountingReady(c, v, mask);
  }

  // Encipher the counter and count on; the mask serves for up to a block.
  method CtrBlock(c: Cipher<byte>, ctr: array<byte>, outbuf: array<byte>, inbuf: array<byte>, off: nat, to: nat, n: nat, ghost back: bool,
                  ghost s0: State<byte>, ghost p: seq<byte>, ghost d: seq<byte>, ghost f: nat -> (State<byte>, seq<byte>)) returns (tmp: seq<byte>)
    requires Lawful(c) && ctr.Length == c.size && ctr != outbuf && ctr != inbuf
    requires off + n == to <= |p| && 0 < n <= c.size && Unread(inbuf, p, off)
    requires Tracks(Counting(), c, s0, p, d, back, f) && (State(ctr[..], []), outbuf[..]) == f(off)
    modifies outbuf, ctr
    ensures |tmp| == c.size && (State(ctr[..], tmp[n..]), outbuf[..]) == f(to) && Unread(inbuf, p, to)
  {
    ghost var v, b := ctr[..], p[off..to];
    tmp := Enc(c, ctr[..]);
    CountingReady(c, v, []);
    DoneRefill(Counting(), c, State(v, []), b, back);
    CountingMasked(c, IncBe(v), tmp, b, back);
    TrackMore(Counting(), c, s0, p, d, back, f, off, to, State(IncBe(v), tmp[n..]), XorSeq(c, b, tmp));
    IncCtr(ctr, c.size);
    assert ctr[..] == ctr[..c.size] && v == v[..c.size];
    var x, q := XorPart(c, outbuf, inbuf, off, to, tmp, p);
  }

  // Block by block to the end; what the last mask has left over
  method CtrBlocks(c: Cipher<byte>, ctr: array<byte>, outbuf: array<byte>, inbuf: array<byte>, off: nat, len: nat, ghost back: bool,
                   ghost s0: State<byte>, ghost p: seq<byte>, ghost d: seq<byte>, ghost f: nat -> (State<byte>, seq<byte>)) returns (rest: seq<byte>)
    requires Lawful(c) && ctr.Length == c.size && ctr != outbuf && ctr != inbuf && off < len == |p| && Unread(inbuf, p, off)
    requires Tracks(Counting(), c, s0, p, d, back, f) && (State(ctr[..], []), outbuf[..]) == f(off)
    modifies outbuf, ctr
    ensures |rest| < c.size && (State(ctr[..], rest), outbuf[..]) == f(len)
  {
    var to := off;
    rest := [];
    while to < len
      invariant off <= to <= len && (to < len ==> rest == []) && |rest| < c.size && Unread(inbuf, p, to)
      invariant (State(ctr[..], rest), outbuf[..]) == f(to)
    {
      var n := if c.size < len - to then c.size else len - to;
      var tmp := CtrBlock(c, ctr, outbuf, inbuf, to, to + n, n, back, s0, p, d, f);
      rest := tmp[n..];
      to := to + n;
    }
  }

  // Under what the last call left of its mask
  method CtrPart(c: Cipher<byte>, ctr: array<byte>, mask: seq<byte>, outbuf: array<byte>, inbuf: array<byte>, n: nat, ghost back: bool,
                 ghost s0: State<byte>, ghost p: seq<byte>, ghost d: seq<byte>, ghost f: nat -> (State<byte>, seq<byte>))
    requires Lawful(c) && ctr.Length == c.size && ctr != outbuf && n <= |p| && n <= |mask| <= c.size && Unread(inbuf, p, 0)
    requires Tracks(Counting(), c, s0, p, d, back, f) && (State(ctr[..], mask), outbuf[..]) == f(0)
    modifies outbuf
    ensures (State(ctr[..], mask[n..]), outbuf[..]) == f(n) && Unread(inbuf, p, n)
  {
    ghost var v, b := ctr[..], p[0..n];
    CountingMasked(c, v, mask, b, back);
    MaskedIsCrypt(Counting(), c, State(v, mask), b, back);
    TrackMore(Counting(), c, s0, p, d, back, f, 0, n, State(v, mask[n..]), XorSeq(c, b, mask));
    var x, q := XorPart(c, outbuf, inbuf, 0, n, mask, p);
  }

  // What the handle holds between calls of CTR
  function CtrState(h: CipherHandle<byte>): State<byte>
    requires h.Valid() && h.unused < h.c.size
    reads h, h.ctr, h.lastiv
  {
    State(h.ctr[..], h.lastiv[h.c.size - h.unused..])
  }

  // _gcry_cipher_ctr_encrypt, which also decrypts
  method Ctr(h: CipherHandle<byte>, outbuf: array<byte>, inbuf: array<byte>, len: nat, ghost back: bool) returns (code: Code)
    requires h.Valid() && h.unused < h.c.size && h.Apart(outbuf) && h.Apart(inbuf) && len <= inbuf.Length
    modifies outbuf, h.ctr, h.lastiv, h`unused
    ensures h.unused < h.c.size && (code == OK <==> outbuf.Length >= len)
    ensures Ready(Counting(), h.c, old(CtrState(h)))
    ensures code == OK ==>
              && (CtrState(h), outbuf[..][..len]) == Crypt(Counting(), h.c, old(CtrState(h)), old(inbuf[..len]), back)
              && outbuf[..][len..] == old(outbuf[..][len..])
    ensures code != OK ==> outbuf[..] == old(outbuf[..]) && CtrState(h) == old(CtrState(h))
  {
    ghost var s0 := CtrState(h);
    CountingReady(h.c, s0.mem, s0.mask);
    if outbuf.Length < len { return BUFFER_TOO_SHORT; }
    ghost var p, d := inbuf[..len], outbuf[..];
    ghost var f := TrackExists(Counting(), h.c, s0, p, d, back);
    h.unused := CtrCall(h.c, h.ctr, h.lastiv, h.unused, outbuf, inbuf, len, back, s0, p, d, f);
    TrackEnds(Counting(), h.c, s0, p, d, back, f, len);
    return OK;
  }

  method CtrCall(c: Cipher<byte>, ctr: array<byte>, lastiv: array<byte>, unused: nat, outbuf: array<byte>, inbuf: array<byte>, len: nat, ghost back: bool,
                 ghost s0: State<byte>, ghost p: seq<byte>, ghost d: seq<byte>, ghost f: nat -> (State<byte>, seq<byte>)) returns (left: nat)
    requires Lawful(c) && ctr.Length == lastiv.Length == c.size && ctr != outbuf && ctr != inbuf && unused < c.size
    requires lastiv != ctr && lastiv != outbuf && lastiv != inbuf && len == |p| && Unread(inbuf, p, 0)
    requires Tracks(Counting(), c, s0, p, d, back, f) && (State(ctr[..], lastiv[c.size - unused..]), outbuf[..]) == f(0)
    modifies outbuf, ctr, lastiv
    ensures left < c.size && (State(ctr[..], lastiv[c.size - left..]), outbuf[..]) == f(len)
  {
    var n := if unused > len then len else unused;
    left := unused - n;
    var at := c.size - unused;
    var mask := lastiv[at..];
    if unused > 0 {
      CtrPart(c, ctr, mask, outbuf, inbuf, n, back, s0, p, d, f);
    }
    assert mask[n..] == lastiv[c.size - left..];
    if n < len {
      var rest := CtrBlocks(c, ctr, outbuf, inbuf, n, len, back, s0, p, d, f);
      left := |rest|;
      Keep(lastiv, rest);
    }
  }

  // The octets of the last mask not used yet, at the end of lastiv
  method Keep(lastiv: array<byte>, rest: seq<byte>)
    requires |rest| <= lastiv.Length
    modifies lastiv
    ensures lastiv[lastiv.Length - |rest|..] == rest
  {
    ghost var d := lastiv[..];
    PutParts(d, lastiv.Length - |rest|, rest);
    Copy(lastiv, lastiv.Length - |rest|, rest);
  }
}
