// A block cipher as an arbitrary permutation of the blocks of its size, over octets of
// any type that can be xored; and the copying and xoring every mode of operation does.
module BlockCipher {
  import opened Bytes

  datatype Cipher<!O> = Cipher(size: nat, enc: seq<O> -> seq<O>, dec: seq<O> -> seq<O>, xor: (O, O) -> O, zero: O)

  predicate Blk<O>(b: seq<O>, n: nat)
  {
    |b| == n
  }

  predicate Two<O>(a: O, b: O) { true }

  ghost predicate Lawful<O(!new)>(c: Cipher<O>)
  {
    && c.size > 0
    && (forall b {:trigger Blk(b, c.size)} :: Blk(b, c.size) ==>
          |c.enc(b)| == c.size && |c.dec(b)| == c.size && c.dec(c.enc(b)) == b && c.enc(c.dec(b)) == b)
    && (forall a, b {:trigger Two(a, b)} :: Two(a, b) ==> c.xor(c.xor(a, b), b) == a && c.xor(c.zero, b) == b)
  }

  // Xoring octets is lawful.
  lemma OctetsLawful(c: Cipher<byte>)
    requires c.size > 0 && c.xor == ((a, b) => Xor(a, b)) && c.zero == 0
    requires forall b {:trigger Blk(b, c.size)} :: Blk(b, c.size) ==>
               |c.enc(b)| == c.size && |c.dec(b)| == c.size && c.dec(c.enc(b)) == b && c.enc(c.dec(b)) == b
    ensures Lawful(c)
  {
    forall a: byte, b: byte | Two(a, b) ensures c.xor(c.xor(a, b), b) == a && c.xor(c.zero, b) == b {
      XorInvolution(a, b);
      XorZero(b);
    }
  }

  function Enc<O(!new)>(c: Cipher<O>, b: seq<O>): (r: seq<O>)
    requires Lawful(c) && |b| == c.size
    ensures |r| == c.size
  {
    assert Blk(b, c.size);
    c.enc(b)
  }

  function Dec<O(!new)>(c: Cipher<O>, b: seq<O>): (r: seq<O>)
    requires Lawful(c) && |b| == c.size
    ensures |r| == c.size
  {
    assert Blk(b, c.size);
    c.dec(b)
  }

  lemma Inverse<O(!new)>(c: Cipher<O>, b: seq<O>)
    requires Lawful(c) && |b| == c.size
    ensures Dec(c, Enc(c, b)) == b && Enc(c, Dec(c, b)) == b
  {
    assert Blk(b, c.size);
  }

  lemma XorBack<O(!new)>(c: Cipher<O>, a: O, b: O)
    requires Lawful(c)
    ensures c.xor(c.xor(a, b), b) == a && c.xor(c.zero, b) == b
  {
    assert Two(a, b);
  }

  // buf_xor; the shorter length decides.
  function XorSeq<O>(c: Cipher<O>, a: seq<O>, b: seq<O>): (r: seq<O>)
    ensures |r| == if |a| <= |b| then |a| else |b|
  {
    seq(if |a| <= |b| then |a| else |b|, i requires 0 <= i < |a| && i < |b| => c.xor(a[i], b[i]))
  }

  lemma XorTwice<O(!new)>(c: Cipher<O>, a: seq<O>, b: seq<O>)
    requires Lawful(c) && |a| <= |b|
    ensures XorSeq(c, XorSeq(c, a, b), b) == a
  {
    forall i | 0 <= i < |a| ensures XorSeq(c, XorSeq(c, a, b), b)[i] == a[i] {
      XorBack(c, a[i], b[i]);
    }
  }

  // s written over d from octet at on
  function Put<O>(d: seq<O>, at: nat, s: seq<O>): (r: seq<O>)
    requires at + |s| <= |d|
    ensures |r| == |d|
    decreases |s|
  {
    if s == [] then d else Put(d[at := s[0]], at + 1, s[1..])
  }

  lemma {:induction false} PutParts<O>(d: seq<O>, at: nat, s: seq<O>)
    requires at + |s| <= |d|
    ensures Put(d, at, s) == d[..at] + s + d[at + |s|..]
    decreases |s|
  {
    if s != [] {
      PutParts(d[at := s[0]], at + 1, s[1..]);
    }
  }

  lemma PutTwice<O>(d: seq<O>, at: nat, s: seq<O>, t: seq<O>)
    requires |t| == |s| && at + |s| <= |d|
    ensures Put(Put(d, at, s), at, t) == Put(d, at, t)
  {
    PutParts(d, at, s);
    PutParts(d, at, t);
    PutParts(Put(d, at, s), at, t);
  }

  lemma PutWhole<O>(d: seq<O>, at: nat, s: seq<O>)
    requires at + |s| <= |d|
    ensures Put(d, at, s)[at..at + |s|] == s
  {
    PutParts(d, at, s);
  }

  lemma PutPart<O>(d: seq<O>, at: nat, e: seq<O>, w: seq<O>)
    requires |w| <= |e| && at + |e| <= |d|
    ensures Put(Put(d, at, e), at, w) == Put(d, at, w + e[|w|..])
    ensures Put(d, at, e)[at..at + |w|] == e[..|w|]
  {
    PutParts(d, at, e);
    PutParts(Put(d, at, e), at, w);
    PutParts(d, at, w + e[|w|..]);
  }

  lemma PutNext<O>(q: seq<O>, d: seq<O>, a: nat, y: seq<O>, m: nat)
    requires |q| == a && a + |y| == m <= |d|
    ensures Put(q + d[a..], a, y) == q + y + d[m..]
    ensures (q + d[a..])[..a] == q && (q + y + d[m..])[a..m] == y
  {
    PutParts(q + d[a..], a, y);
  }

  lemma Beyond<O>(d: seq<O>, e: seq<O>, at: nat, s: seq<O>, to: nat)
    requires at + |s| == to <= |d| && e == Put(d, at, s)
    ensures |e| == |d| && forall i :: to <= i < |d| ==> e[i] == d[i]
  {
    PutParts(d, at, s);
    assert forall i :: to <= i < |d| ==> (d[..at] + s + d[to..])[i] == d[i];
  }

  // The input still to be read, which may be in the buffer that is written
  ghost predicate Unread<O>(inbuf: array<O>, p: seq<O>, off: nat)
    reads inbuf
  {
    |p| <= inbuf.Length && forall i :: off <= i < |p| ==> inbuf[i] == p[i]
  }

  // The data of several calls
  function Flatten<O>(ps: seq<seq<O>>): seq<O>
  {
    if ps == [] then [] else ps[0] + Flatten(ps[1..])
  }

  // memcpy
  method Copy<O>(buf: array<O>, at: nat, s: seq<O>)
    requires at + |s| <= buf.Length
    modifies buf
    ensures buf[..] == Put(old(buf[..]), at, s)
  {
    ghost var d := buf[..];
    for i := 0 to |s|
      invariant forall j :: 0 <= j < buf.Length ==> buf[j] == if at <= j < at + i then s[j - at] else d[j]
    {
      buf[at + i] := s[i];
    }
    PutParts(d, at, s);
  }

  // memcpy over a whole buffer
  method Replace<O>(buf: array<O>, s: seq<O>)
    requires |s| == buf.Length
    modifies buf
    ensures buf[..] == s
  {
    PutParts(buf[..], 0, s);
    Copy(buf, 0, s);
  }
}
