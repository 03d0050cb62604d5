// The buffering of cipher-gcm.c: do_ghash_buf takes octets to the hash however they are cut
// into calls, block by block with the tables, and fills the last block up with zeros.
module GcmBuffer {
  import opened BlockCipher
  import opened Mac
  import opened MacCode
  import opened Words
  import opened Gf
  import opened Ghash
  import opened GhashCode

  // --------------------------------------------------------- the definition

  // Multiplication by H as a function on blocks: all the buffering asks for
  function HashOf(h: seq<bv8>): (c: Cipher<bv8>)
    requires |h| == 16
    ensures c.size == 16 && c.zero == 0
  {
    var f := (b: seq<bv8>) => if |b| == 16 then Store(Mul(Ops(), Bits(b), Load(h))) else b;
    Cipher(16, f, f, (x, y) => XorOctet(x, y), 0)
  }

  lemma HashMix(h: seq<bv8>, y: seq<bv8>, x: seq<bv8>)
    requires |h| == |y| == |x| == 16
    ensures Mixing(HashOf(h)) && Mix(HashOf(h), y, x) == GhashStep(h, y, x)
  {
    assert XorSeq(HashOf(h), y, x) == XorBlock(y, x);
  }

  predicate Pair(y: seq<bv8>, x: seq<bv8>) { true }

  // c mixes as GHASH does.
  ghost predicate IsHash(c: Cipher<bv8>, h: seq<bv8>)
  {
    && |h| == 16 && c.size == 16 && c.zero == 0 && Mixing(c)
    && forall y, x {:trigger Pair(y, x)} :: Pair(y, x) && |y| == |x| == 16 ==> Mix(c, y, x) == GhashStep(h, y, x)
  }

  lemma HashIs(h: seq<bv8>)
    requires |h| == 16
    ensures IsHash(HashOf(h), h)
  {
    forall y: seq<bv8>, x: seq<bv8> | Pair(y, x) && |y| == |x| == 16 ensures Mix(HashOf(h), y, x) == GhashStep(h, y, x) {
      HashMix(h, y, x);
    }
  }

  function Filled(b: seq<bv8>): (r: seq<bv8>)
    requires |b| <= 16
    ensures |r| == 16
  {
    b + seq(16 - |b|, i => 0)
  }

  // GHASH of octets filled up to whole blocks, section 6.4 of NIST SP 800-38D, from y on
  function GhashOf(h: seq<bv8>, y: seq<bv8>, p: seq<bv8>): (r: seq<bv8>)
    requires |h| == |y| == 16
    ensures |r| == 16
    decreases |p|
  {
    if p == [] then y else
    if |p| <= 16 then GhashStep(h, y, Filled(p)) else GhashOf(h, GhashStep(h, y, p[..16]), p[16..])
  }

  lemma StepIs(c: Cipher<bv8>, h: seq<bv8>, y: seq<bv8>, x: seq<bv8>)
    requires IsHash(c, h) && |y| == |x| == 16
    ensures Mix(c, y, x) == GhashStep(h, y, x)
  {
    assert Pair(y, x);
  }

  lemma {:induction false} GhashIsZeroMac(c: Cipher<bv8>, h: seq<bv8>, y: seq<bv8>, p: seq<bv8>)
    requires IsHash(c, h) && |y| == 16
    ensures ZeroMac(c, y, p) == GhashOf(h, y, p)
    decreases |p|
  {
    if |p| > 16 {
      StepIs(c, h, y, p[..16]);
      GhashIsZeroMac(c, h, GhashStep(h, y, p[..16]), p[16..]);
    } else if p != [] {
      assert ZeroPadded(c, p) == Filled(p);
      StepIs(c, h, y, Filled(p));
    }
  }

  // ------------------------------------------------------------ do_ghash_buf

  // The table of H, as do_fillM leaves it
  ghost predicate TableOf(M: array<Elt>, c: Cipher<bv8>, h: seq<bv8>)
    reads M
  {
    IsHash(c, h) && M.Length == 16 && forall n :: 0 <= n < 16 ==> M[n] == Multiple(Ops(), n, Load(h))
  }

  // Three buffers of the handle, none of them another
  predicate Separate(hash: array<bv8>, macbuf: array<bv8>, M: array<Elt>)
  {
    hash != macbuf && (M as object) != hash && (M as object) != macbuf
  }

  // do_ghash on one block
  method HashBlock(hash: array<bv8>, M: array<Elt>, b: seq<bv8>, ghost c: Cipher<bv8>, ghost h: seq<bv8>)
    requires TableOf(M, c, h) && hash.Length == |b| == 16 && (M as object) != hash
    modifies hash
    ensures TableOf(M, c, h) && hash[..] == Mix(c, old(hash[..]), b)
  {
    StepIs(c, h, hash[..], b);
    GhashTable(hash, b, M, h);
  }

  // ghash on whole blocks straight from the input
  method HashBlocks(hash: array<bv8>, M: array<Elt>, buf: seq<bv8>, ghost c: Cipher<bv8>, ghost h: seq<bv8>) returns (rest: seq<bv8>)
    requires TableOf(M, c, h) && hash.Length == 16 && (M as object) != hash
    modifies hash
    ensures TableOf(M, c, h) && |rest| < 16 && |rest| <= |buf|
    ensures Norm(c, Feed(c, Mac(hash[..], []), rest)) == Norm(c, Feed(c, Mac(old(hash[..]), []), buf))
  {
    rest := buf;
    while |rest| >= 16
      invariant TableOf(M, c, h) && |rest| <= |buf|
      invariant Norm(c, Feed(c, Mac(hash[..], []), rest)) == Norm(c, Feed(c, Mac(old(hash[..]), []), buf))
      decreases |rest|
    {
      BlockTowards(c, hash[..], rest);
      HashBlock(hash, M, rest[..16], c, h);
      rest := rest[16..];
    }
  }

  // The full buffer, then whole blocks
  method HashOn(hash: array<bv8>, macbuf: array<bv8>, M: array<Elt>, u: nat, buf: seq<bv8>, ghost c: Cipher<bv8>, ghost h: seq<bv8>) returns (rest: seq<bv8>)
    requires TableOf(M, c, h) && hash.Length == macbuf.Length == 16 && Separate(hash, macbuf, M) && (u == 0 || u == 16)
    modifies hash
    ensures TableOf(M, c, h) && |rest| < 16 && |rest| <= |buf|
    ensures Norm(c, Feed(c, Mac(hash[..], []), rest))
         == Norm(c, Feed(c, Mac(old(hash[..]), old(macbuf[..u])), buf))
  {
    if u > 0 {
      assert macbuf[..u] == macbuf[..];
      FullTowards(c, Mac(hash[..], macbuf[..u]), buf);
      HashBlock(hash, M, macbuf[..], c, h);
    }
    rest := HashBlocks(hash, M, buf, c, h);
  }

  method HashPadded(hash: array<bv8>, macbuf: array<bv8>, M: array<Elt>, u: nat, ghost c: Cipher<bv8>, ghost h: seq<bv8>)
    requires TableOf(M, c, h) && hash.Length == macbuf.Length == 16 && Separate(hash, macbuf, M) && 0 < u <= 16
    modifies hash, macbuf
    ensures TableOf(M, c, h) && hash[..] == Flush(c, Mac(old(hash[..]), old(macbuf[..u])))
  {
    FillUp(c, 0, macbuf, u);
    HashBlock(hash, M, macbuf[..], c, h);
  }

  // do_ghash_buf: the octets not hashed yet stay in macbuf.
  method DoGhashBuf(hash: array<bv8>, macbuf: array<bv8>, M: array<Elt>, unused: nat, buf: seq<bv8>, padding: bool, ghost c: Cipher<bv8>, ghost h: seq<bv8>)
    returns (left: nat)
    requires TableOf(M, c, h) && hash.Length == macbuf.Length == 16 && Separate(hash, macbuf, M) && unused <= 16
    modifies hash, macbuf
    ensures TableOf(M, c, h) && left <= 16
    ensures padding ==> left == 0 && hash[..] == Flush(c, Feed(c, Mac(old(hash[..]), old(macbuf[..unused])), buf))
    ensures !padding ==>
              Norm(c, Mac(hash[..], macbuf[..left]))
              == Norm(c, Feed(c, Mac(old(hash[..]), old(macbuf[..unused])), buf))
  {
    ghost var g := Feed(c, Mac(hash[..], macbuf[..unused]), buf);
    left := unused;
    if buf == [] && (unused == 0 || !padding) { return; }
    var rest := buf;
    FlushNorm(c, g);
    while true
      invariant TableOf(M, c, h) && left <= 16 && (rest != [] || (left > 0 && padding))
      invariant Norm(c, Feed(c, Mac(hash[..], macbuf[..left]), rest)) == Norm(c, g)
      decreases |rest|, left
    {
      left, rest := TakeIn(c, hash, macbuf, left, rest);
      if rest == [] {
        if padding {
          FlushNorm(c, Mac(hash[..], macbuf[..left]));
          HashPadded(hash, macbuf, M, left, c, h);
          left := 0;
        }
        return;
      }
      rest := HashOn(hash, macbuf, M, left, rest, c, h);
      left := 0;
      if rest == [] {
        FlushNorm(c, Mac(hash[..], macbuf[..left]));
        return;
      }
    }
  }

  // The additional data and then the ciphertext, each cut in any way and padded: the hash
  // is GHASH of the one string of whole blocks the standard makes of them.
  lemma AnyCuttingOfParts(c: Cipher<bv8>, h: seq<bv8>, y: seq<bv8>, ms: seq<Mac<bv8>>, ps: seq<seq<bv8>>, last: seq<bv8>,
                          ms': seq<Mac<bv8>>, ps': seq<seq<bv8>>, last': seq<bv8>)
    requires IsHash(c, h) && |y| == 16
    requires Follows(c, ms, ps) && ms[0] == Mac(y, [])
    requires Follows(c, ms', ps') && ms'[0] == Mac(Flush(c, Feed(c, ms[|ps|], last)), [])
    ensures Flush(c, Feed(c, ms'[|ps'|], last')) == GhashOf(h, y, Whole(c, Flatten(ps) + last) + (Flatten(ps') + last'))
  {
    TwoParts(c, y, ms, ps, last, ms', ps', last');
    GhashIsZeroMac(c, h, y, Whole(c, Flatten(ps) + last) + (Flatten(ps') + last'));
  }
}
