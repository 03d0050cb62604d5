// The streaming modes of libgcrypt, one octet at a time: what cipher-cfb.c and
// cipher-ctr.c compute however the data is cut into calls.
module Stream {
  import opened BlockCipher

  // CFB enciphers the last block of ciphertext, CTR a counter.
  datatype Kind<!O> = Feedback | Counter(inc: seq<O> -> seq<O>)

  // The octets still to be used of the last enciphered block, and what is enciphered
  // next: the counter, or the ciphertext collected since.
  datatype State<O> = State(mem: seq<O>, mask: seq<O>)

  ghost predicate Ready<O(!new)>(k: Kind<O>, c: Cipher<O>, s: State<O>)
  {
    && Lawful(c)
    && (k.Counter? ==> forall b {:trigger Blk(b, c.size)} :: Blk(b, c.size) ==> |k.inc(b)| == c.size)
    && |s.mask| <= c.size && |s.mem| == if k.Feedback? then c.size - |s.mask| else c.size
  }

  function Refill<O(!new)>(k: Kind<O>, c: Cipher<O>, s: State<O>): (t: State<O>)
    requires Ready(k, c, s) && s.mask == []
    ensures Ready(k, c, t) && |t.mask| == c.size
  {
    assert Blk(s.mem, c.size);
    State(if k.Feedback? then [] else k.inc(s.mem), Enc(c, s.mem))
  }

  // back: decrypting
  function Octet<O(!new)>(k: Kind<O>, c: Cipher<O>, s: State<O>, x: O, back: bool): (r: (State<O>, O))
    requires Ready(k, c, s) && s.mask != []
    ensures Ready(k, c, r.0)
  {
    var y := c.xor(x, s.mask[0]);
    (State(if k.Feedback? then s.mem + [if back then x else y] else s.mem, s.mask[1..]), y)
  }

  function Filled<O(!new)>(k: Kind<O>, c: Cipher<O>, s: State<O>): (t: State<O>)
    requires Ready(k, c, s)
    ensures Ready(k, c, t) && t.mask != []
  {
    if s.mask == [] then Refill(k, c, s) else s
  }

  function Crypt<O(!new)>(k: Kind<O>, c: Cipher<O>, s: State<O>, p: seq<O>, back: bool): (r: (State<O>, seq<O>))
    requires Ready(k, c, s)
    ensures Ready(k, c, r.0) && |r.1| == |p|
    decreases |p|
  {
    if p == [] then (s, []) else
      var (t, y) := Octet(k, c, Filled(k, c, s), p[0], back);
      var (u, q) := Crypt(k, c, t, p[1..], back);
      (u, [y] + q)
  }

  // ------------------------------------------------------- cutting the data

  lemma ConcatStep<O(!new)>(k: Kind<O>, c: Cipher<O>, s: State<O>, p: seq<O>, q: seq<O>, back: bool, t: State<O>, y: O, r: (State<O>, seq<O>))
    requires Ready(k, c, s) && p != [] && (t, y) == Octet(k, c, Filled(k, c, s), p[0], back)
    requires r == Crypt(k, c, t, p[1..] + q, back)
    ensures Crypt(k, c, s, p + q, back) == (r.0, [y] + r.1)
  {
    assert (p + q)[1..] == p[1..] + q && (p + q)[0] == p[0];
    CryptCons(k, c, s, p + q, back);
  }

  lemma JoinFirst<O>(y: O, a: seq<O>, b: seq<O>)
    ensures [y] + (a + b) == [y] + a + b
  {
  }

  // Two calls do what one call does.
  lemma {:induction false} CryptConcat<O(!new)>(k: Kind<O>, c: Cipher<O>, s: State<O>, p: seq<O>, q: seq<O>, back: bool,
                                                t: State<O>, a: seq<O>, u: State<O>, b: seq<O>)
    requires Ready(k, c, s) && Crypt(k, c, s, p, back) == (t, a) && Crypt(k, c, t, q, back) == (u, b)
    ensures Crypt(k, c, s, p + q, back) == (u, a + b)
    decreases |p|
  {
    if p == [] {
      assert p + q == q && [] + b == b;
    } else {
      var (v, y) := Octet(k, c, Filled(k, c, s), p[0], back);
      var (w, r) := Crypt(k, c, v, p[1..], back);
      CryptCons(k, c, s, p, back);
      CryptConcat(k, c, v, p[1..], q, back, w, r, u, b);
      ConcatStep(k, c, s, p, q, back, v, y, (u, r + b));
      JoinFirst(y, r, b);
    }
  }

  lemma CryptCons<O(!new)>(k: Kind<O>, c: Cipher<O>, s: State<O>, p: seq<O>, back: bool)
    requires Ready(k, c, s) && p != []
    ensures var (t, y) := Octet(k, c, Filled(k, c, s), p[0], back);
            var (u, q) := Crypt(k, c, t, p[1..], back);
            Crypt(k, c, s, p, back) == (u, [y] + q)
  {
  }

  // One call after another
  function Calls<O(!new)>(k: Kind<O>, c: Cipher<O>, s: State<O>, ps: seq<seq<O>>, back: bool): (r: (State<O>, seq<O>))
    requires Ready(k, c, s)
    ensures Ready(k, c, r.0)
    decreases |ps|
  {
    if ps == [] then (s, []) else
      var (t, q) := Crypt(k, c, s, ps[0], back);
      var (u, r) := Calls(k, c, t, ps[1..], back);
      (u, q + r)
  }

  lemma {:induction false} CallsAreOne<O(!new)>(k: Kind<O>, c: Cipher<O>, s: State<O>, ps: seq<seq<O>>, back: bool)
    requires Ready(k, c, s)
    ensures Calls(k, c, s, ps, back) == Crypt(k, c, s, Flatten(ps), back)
    decreases |ps|
  {
    if ps != [] {
      CallsAreOne(k, c, Crypt(k, c, s, ps[0], back).0, ps[1..], back);
      var (t, a) := Crypt(k, c, s, ps[0], back);
      var (u, b) := Crypt(k, c, t, Flatten(ps[1..]), back);
      CryptConcat(k, c, s, ps[0], Flatten(ps[1..]), back, t, a, u, b);
    }
  }

  // Decrypting what was encrypted gives it back and leaves the same state.
  lemma {:induction false} CryptBack<O(!new)>(k: Kind<O>, c: Cipher<O>, s: State<O>, p: seq<O>)
    requires Ready(k, c, s)
    ensures var (t, q) := Crypt(k, c, s, p, false); Crypt(k, c, s, q, true) == (t, p)
    decreases |p|
  {
    if p != [] {
      var f := Filled(k, c, s);
      var (t, y) := Octet(k, c, f, p[0], false);
      XorBack(c, p[0], f.mask[0]);
      CryptBack(k, c, t, p[1..]);
      var q := Crypt(k, c, t, p[1..], false).1;
      assert ([y] + q)[1..] == q && [p[0]] + p[1..] == p;
    }
  }

  // However the data is cut into calls for encryption, and however its ciphertext is cut
  // into calls for decryption: the ciphertext is that of one call, and the data comes back.
  lemma AnyCutting<O(!new)>(k: Kind<O>, c: Cipher<O>, s: State<O>, ps: seq<seq<O>>, qs: seq<seq<O>>)
    requires Ready(k, c, s) && Flatten(qs) == Calls(k, c, s, ps, false).1
    ensures Calls(k, c, s, ps, false) == Crypt(k, c, s, Flatten(ps), false)
    ensures Calls(k, c, s, qs, true) == (Calls(k, c, s, ps, false).0, Flatten(ps))
  {
    CallsAreOne(k, c, s, ps, false);
    CallsAreOne(k, c, s, qs, true);
    CryptBack(k, c, s, Flatten(ps));
  }

  // -------------------------------------------------- a piece under one mask

  // Data no longer than the mask
  function Masked<O(!new)>(k: Kind<O>, c: Cipher<O>, s: State<O>, p: seq<O>, back: bool): (r: (State<O>, seq<O>))
    requires Ready(k, c, s) && |p| <= |s.mask|
    ensures Ready(k, c, r.0) && |r.1| == |p|
  {
    var q := XorSeq(c, p, s.mask);
    (State(if k.Feedback? then s.mem + (if back then p else q) else s.mem, s.mask[|p|..]), q)
  }

  lemma {:induction false} MaskedIsCrypt<O(!new)>(k: Kind<O>, c: Cipher<O>, s: State<O>, p: seq<O>, back: bool)
    requires Ready(k, c, s) && |p| <= |s.mask|
    ensures Crypt(k, c, s, p, back) == Masked(k, c, s, p, back)
    decreases |p|
  {
    if p == [] {
      assert s.mem + [] == s.mem && s.mask[0..] == s.mask;
    } else {
      var (t, y) := Octet(k, c, s, p[0], back);
      MaskedIsCrypt(k, c, t, p[1..], back);
      MaskedStep(k, c, s, t, y, p, back);
    }
  }

  lemma MaskedStep<O(!new)>(k: Kind<O>, c: Cipher<O>, s: State<O>, t: State<O>, y: O, p: seq<O>, back: bool)
    requires Ready(k, c, s) && 0 < |p| <= |s.mask| && (t, y) == Octet(k, c, s, p[0], back)
    ensures Ready(k, c, t) && |p| - 1 <= |t.mask|
    ensures var (u, q) := Masked(k, c, t, p[1..], back); Masked(k, c, s, p, back) == (u, [y] + q)
  {
    var q, r := XorSeq(c, p, s.mask), XorSeq(c, p[1..], t.mask);
    assert q == [y] + r;
    assert [p[0]] + p[1..] == p;
    assert s.mem + [y] + r == s.mem + ([y] + r) && s.mem + [p[0]] + p[1..] == s.mem + ([p[0]] + p[1..]);
    assert t.mask[|p| - 1..] == s.mask[|p|..];
  }

  // A new mask is made when there is data for it.
  lemma RefillFirst<O(!new)>(k: Kind<O>, c: Cipher<O>, s: State<O>, p: seq<O>, back: bool)
    requires Ready(k, c, s) && s.mask == [] && p != []
    ensures Crypt(k, c, s, p, back) == Crypt(k, c, Refill(k, c, s), p, back)
  {
  }
}
