// Message authentication by chaining, octet by octet and block by block: what CMAC, the
// CBC-MAC of CCM and the hash of GCM compute however the data is cut into calls.
module Mac {
  import opened BlockCipher

  // Nothing but the length of what the cipher gives matters here: multiplication by a
  // fixed element serves as well.
  ghost predicate Mixing<O(!new)>(c: Cipher<O>)
  {
    c.size > 0 && forall b {:trigger Blk(b, c.size)} :: Blk(b, c.size) ==> |c.enc(b)| == c.size
  }

  function Mix<O(!new)>(c: Cipher<O>, acc: seq<O>, b: seq<O>): (r: seq<O>)
    requires Mixing(c) && |acc| == |b| == c.size
    ensures |r| == c.size
  {
    assert Blk(XorSeq(c, acc, b), c.size);
    c.enc(XorSeq(c, acc, b))
  }

  // What was mixed in, and the octets waiting for their block; a full block may wait.
  datatype Mac<O> = Mac(acc: seq<O>, buf: seq<O>)

  ghost predicate Fits<O(!new)>(c: Cipher<O>, m: Mac<O>)
  {
    Mixing(c) && |m.acc| == c.size && |m.buf| <= c.size
  }

  function Octet<O(!new)>(c: Cipher<O>, m: Mac<O>, x: O): (r: Mac<O>)
    requires Fits(c, m)
    ensures Fits(c, r) && r.buf != []
  {
    if |m.buf| == c.size then Mac(Mix(c, m.acc, m.buf), [x]) else Mac(m.acc, m.buf + [x])
  }

  function Feed<O(!new)>(c: Cipher<O>, m: Mac<O>, p: seq<O>): (r: Mac<O>)
    requires Fits(c, m)
    ensures Fits(c, r) && (p != [] ==> r.buf != [])
    decreases |p|
  {
    if p == [] then m else Feed(c, Octet(c, m, p[0]), p[1..])
  }

  lemma {:induction false} FeedConcat<O(!new)>(c: Cipher<O>, m: Mac<O>, p: seq<O>, q: seq<O>)
    requires Fits(c, m)
    ensures Feed(c, m, p + q) == Feed(c, Feed(c, m, p), q)
    decreases |p|
  {
    if p == [] {
      assert p + q == q;
    } else {
      assert (p + q)[1..] == p[1..] + q;
      FeedConcat(c, Octet(c, m, p[0]), p[1..], q);
    }
  }

  lemma {:induction false} FeedFits<O(!new)>(c: Cipher<O>, m: Mac<O>, p: seq<O>)
    requires Fits(c, m) && |m.buf| + |p| <= c.size
    ensures Feed(c, m, p) == Mac(m.acc, m.buf + p)
    decreases |p|
  {
    if p == [] {
      assert m.buf + [] == m.buf;
    } else {
      FeedFits(c, Octet(c, m, p[0]), p[1..]);
      assert m.buf + [p[0]] + p[1..] == m.buf + p;
    }
  }

  // A full block is mixed in when there is more.
  lemma FeedFull<O(!new)>(c: Cipher<O>, m: Mac<O>, p: seq<O>)
    requires Fits(c, m) && |m.buf| == c.size && p != []
    ensures Fits(c, Mac(Mix(c, m.acc, m.buf), []))
    ensures Feed(c, m, p) == Feed(c, Mac(Mix(c, m.acc, m.buf), []), p)
  {
    assert [] + [p[0]] == [p[0]];
  }

  // The first n octets go to the buffer.
  lemma FeedMoves<O(!new)>(c: Cipher<O>, m: Mac<O>, p: seq<O>, n: nat)
    requires Fits(c, m) && n <= |p| && |m.buf| + n <= c.size
    ensures Feed(c, m, p) == Feed(c, Mac(m.acc, m.buf + p[..n]), p[n..])
  {
    assert p[..n] + p[n..] == p;
    FeedConcat(c, m, p[..n], p[n..]);
    FeedFits(c, m, p[..n]);
  }

  // Whole blocks need not go through the buffer.
  lemma FeedBlock<O(!new)>(c: Cipher<O>, acc: seq<O>, p: seq<O>)
    requires Mixing(c) && |acc| == c.size < |p|
    ensures Feed(c, Mac(acc, []), p) == Feed(c, Mac(Mix(c, acc, p[..c.size]), []), p[c.size..])
  {
    FeedMoves(c, Mac(acc, []), p, c.size);
    assert [] + p[..c.size] == p[..c.size];
    FeedFull(c, Mac(acc, p[..c.size]), p[c.size..]);
  }

  // ------------------------------------------------------------- calls

  function FeedAll<O(!new)>(c: Cipher<O>, m: Mac<O>, ps: seq<seq<O>>): (r: Mac<O>)
    requires Fits(c, m)
    ensures Fits(c, r)
    decreases |ps|
  {
    if ps == [] then m else FeedAll(c, Feed(c, m, ps[0]), ps[1..])
  }

  lemma {:induction false} FeedAllIsOne<O(!new)>(c: Cipher<O>, m: Mac<O>, ps: seq<seq<O>>)
    requires Fits(c, m)
    ensures FeedAll(c, m, ps) == Feed(c, m, Flatten(ps))
    decreases |ps|
  {
    if ps != [] {
      FeedAllIsOne(c, Feed(c, m, ps[0]), ps[1..]);
      FeedConcat(c, m, ps[0], Flatten(ps[1..]));
    }
  }

  // ----------------------------------------------------------- one shot

  // How the last block is treated: a function of the block of length up to c.size.
  type Ending<!O> = seq<O> -> seq<O>

  ghost predicate Ends<O(!new)>(c: Cipher<O>, e: Ending<O>)
  {
    forall b {:trigger e(b)} :: |b| <= c.size ==> |e(b)| == c.size
  }

  // The definition on the whole message: block after block, and the last one, full or
  // not, after its treatment.
  function OneShot<O(!new)>(c: Cipher<O>, e: Ending<O>, acc: seq<O>, p: seq<O>): (r: seq<O>)
    requires Mixing(c) && Ends(c, e) && |acc| == c.size
    ensures |r| == c.size
    decreases |p|
  {
    if |p| > c.size then OneShot(c, e, Mix(c, acc, p[..c.size]), p[c.size..]) else Mix(c, acc, e(p))
  }

  function Final<O(!new)>(c: Cipher<O>, e: Ending<O>, m: Mac<O>): (r: seq<O>)
    requires Fits(c, m) && Ends(c, e)
    ensures |r| == c.size
  {
    Mix(c, m.acc, e(m.buf))
  }

  lemma {:induction false} FeedIsOneShot<O(!new)>(c: Cipher<O>, e: Ending<O>, acc: seq<O>, p: seq<O>)
    requires Mixing(c) && Ends(c, e) && |acc| == c.size
    ensures Final(c, e, Feed(c, Mac(acc, []), p)) == OneShot(c, e, acc, p)
    decreases |p|
  {
    if |p| > c.size {
      FeedBlock(c, acc, p);
      FeedIsOneShot(c, e, Mix(c, acc, p[..c.size]), p[c.size..]);
    } else {
      FeedFits(c, Mac(acc, []), p);
      assert [] + p == p;
    }
  }

  // However the message is cut into calls, the last step gives what the definition says.
  lemma AnyCutting<O(!new)>(c: Cipher<O>, e: Ending<O>, acc: seq<O>, ps: seq<seq<O>>)
    requires Mixing(c) && Ends(c, e) && |acc| == c.size
    ensures Final(c, e, FeedAll(c, Mac(acc, []), ps)) == OneShot(c, e, acc, Flatten(ps))
  {
    FeedAllIsOne(c, Mac(acc, []), ps);
    FeedIsOneShot(c, e, acc, Flatten(ps));
  }

  // ------------------------------------------------- padding with zeros

  // Whether a full block waits or was mixed in makes no difference to what follows.
  function Norm<O(!new)>(c: Cipher<O>, m: Mac<O>): (r: Mac<O>)
    requires Fits(c, m)
    ensures Fits(c, r)
  {
    if |m.buf| == c.size then Mac(Mix(c, m.acc, m.buf), []) else m
  }

  lemma NormFeed<O(!new)>(c: Cipher<O>, m: Mac<O>, m': Mac<O>, p: seq<O>)
    requires Fits(c, m) && Fits(c, m') && Norm(c, m) == Norm(c, m')
    ensures Norm(c, Feed(c, m, p)) == Norm(c, Feed(c, m', p))
  {
    if p != [] {
      if |m.buf| == c.size { FeedFull(c, m, p); }
      if |m'.buf| == c.size { FeedFull(c, m', p); }
    }
  }

  function ZeroPadded<O>(c: Cipher<O>, b: seq<O>): (r: seq<O>)
    ensures |b| <= c.size ==> |r| == c.size
    ensures |b| == c.size ==> r == b
  {
    if |b| < c.size then b + seq(c.size - |b|, i => c.zero) else b
  }

  function ZeroEnding<O>(c: Cipher<O>): (e: Ending<O>)
  {
    b => ZeroPadded(c, b)
  }

  // What a call that pads leaves: nothing waiting
  function Flush<O(!new)>(c: Cipher<O>, m: Mac<O>): (r: seq<O>)
    requires Fits(c, m)
    ensures |r| == c.size
  {
    if m.buf == [] then m.acc else Mix(c, m.acc, ZeroPadded(c, m.buf))
  }

  lemma FlushNorm<O(!new)>(c: Cipher<O>, m: Mac<O>)
    requires Fits(c, m)
    ensures Flush(c, Norm(c, m)) == Flush(c, m)
  {
  }

  // The definition: a message of whole blocks after filling up with zeros; nothing for
  // no message.
  function ZeroMac<O(!new)>(c: Cipher<O>, acc: seq<O>, p: seq<O>): (r: seq<O>)
    requires Mixing(c) && |acc| == c.size
    ensures |r| == c.size
  {
    if p == [] then acc else OneShot(c, ZeroEnding(c), acc, p)
  }

  lemma FlushIsZeroMac<O(!new)>(c: Cipher<O>, acc: seq<O>, p: seq<O>)
    requires Mixing(c) && |acc| == c.size
    ensures Flush(c, Feed(c, Mac(acc, []), p)) == ZeroMac(c, acc, p)
  {
    if p != [] {
      FeedIsOneShot(c, ZeroEnding(c), acc, p);
    }
  }

  // Calls that do not pad, from state to state
  ghost predicate Follows<O(!new)>(c: Cipher<O>, ms: seq<Mac<O>>, ps: seq<seq<O>>)
  {
    && |ms| == |ps| + 1 && (forall i :: 0 <= i < |ms| ==> Fits(c, ms[i]))
    && forall i :: 0 <= i < |ps| ==> Norm(c, ms[i + 1]) == Norm(c, Feed(c, ms[i], ps[i]))
  }

  lemma {:induction false} FollowsFeed<O(!new)>(c: Cipher<O>, ms: seq<Mac<O>>, ps: seq<seq<O>>)
    requires Follows(c, ms, ps)
    ensures Norm(c, ms[|ps|]) == Norm(c, Feed(c, ms[0], Flatten(ps)))
    decreases |ps|
  {
    if ps != [] {
      FollowsFeed(c, ms[1..], ps[1..]);
      NormFeed(c, ms[1], Feed(c, ms[0], ps[0]), Flatten(ps[1..]));
      FeedConcat(c, ms[0], ps[0], Flatten(ps[1..]));
    }
  }

  // However a padded part of the message is cut into calls, the last of which pads, the
  // result is that of the definition, and the next part starts afresh.
  lemma PaddedCutting<O(!new)>(c: Cipher<O>, acc: seq<O>, ms: seq<Mac<O>>, ps: seq<seq<O>>, last: seq<O>)
    requires Mixing(c) && |acc| == c.size && Follows(c, ms, ps) && ms[0] == Mac(acc, [])
    ensures Flush(c, Feed(c, ms[|ps|], last)) == ZeroMac(c, acc, Flatten(ps) + last)
  {
    var m, m' := ms[|ps|], Feed(c, ms[0], Flatten(ps));
    FollowsFeed(c, ms, ps);
    NormFeed(c, m, m', last);
    FlushNorm(c, Feed(c, m, last));
    FlushNorm(c, Feed(c, m', last));
    FeedConcat(c, ms[0], Flatten(ps), last);
    FlushIsZeroMac(c, acc, Flatten(ps) + last);
  }

  // Filled up with zeros to whole blocks
  function Whole<O>(c: Cipher<O>, p: seq<O>): (r: seq<O>)
    requires c.size > 0
    ensures p != [] ==> r != []
    decreases |p|
  {
    if |p| > c.size then p[..c.size] + Whole(c, p[c.size..]) else if p == [] then [] else ZeroPadded(c, p)
  }

  lemma BlockFirst<O(!new)>(c: Cipher<O>, acc: seq<O>, b: seq<O>, q: seq<O>)
    requires Mixing(c) && |acc| == |b| == c.size
    ensures ZeroMac(c, acc, b + q) == ZeroMac(c, Mix(c, acc, b), q)
  {
    if q == [] {
      assert b + q == b;
    } else {
      assert (b + q)[..c.size] == b && (b + q)[c.size..] == q;
    }
  }

  // A part filled up with zeros, and then what follows, give what all in one gives.
  lemma {:induction false} ZeroMacParts<O(!new)>(c: Cipher<O>, acc: seq<O>, p: seq<O>, q: seq<O>)
    requires Mixing(c) && |acc| == c.size
    ensures ZeroMac(c, ZeroMac(c, acc, p), q) == ZeroMac(c, acc, Whole(c, p) + q)
    decreases |p|
  {
    if |p| > c.size {
      ZeroMacParts(c, Mix(c, acc, p[..c.size]), p[c.size..], q);
      assert Whole(c, p) + q == p[..c.size] + (Whole(c, p[c.size..]) + q);
      BlockFirst(c, acc, p[..c.size], Whole(c, p[c.size..]) + q);
    } else if p == [] {
      assert [] + q == q;
    } else {
      BlockFirst(c, acc, ZeroPadded(c, p), q);
    }
  }

  // Two padded parts in turn, each cut in any way: the result is that of the one string
  // made of whole blocks.
  lemma TwoParts<O(!new)>(c: Cipher<O>, acc: seq<O>, ms: seq<Mac<O>>, ps: seq<seq<O>>, last: seq<O>,
                          ms': seq<Mac<O>>, ps': seq<seq<O>>, last': seq<O>)
    requires Mixing(c) && |acc| == c.size && Follows(c, ms, ps) && ms[0] == Mac(acc, [])
    requires Follows(c, ms', ps') && ms'[0] == Mac(Flush(c, Feed(c, ms[|ps|], last)), [])
    ensures Flush(c, Feed(c, ms'[|ps'|], last')) == ZeroMac(c, acc, Whole(c, Flatten(ps) + last) + (Flatten(ps') + last'))
  {
    var p := Flatten(ps) + last;
    PaddedCutting(c, acc, ms, ps, last);
    PaddedCutting(c, ZeroMac(c, acc, p), ms', ps', last');
    ZeroMacParts(c, acc, p, Flatten(ps') + last');
  }
}
