// CFB and CTR block by block, as sections 6.3 and 6.5 of NIST SP 800-38A define them, and
// that the octet-by-octet modes give the same text.
module StreamBlocks {
  import opened Bytes
  import opened Counters
  import opened BlockCipher
  import opened Stream
  import StreamCode

  // The block under the enciphered number x, the next one under the number above
  function CtrText(c: Cipher<byte>, x: nat, p: seq<byte>): (q: seq<byte>)
    requires Lawful(c)
    decreases |p|
  {
    if |p| <= c.size then XorSeq(c, p, Enc(c, Be(c.size, x)))
    else XorSeq(c, p[..c.size], Enc(c, Be(c.size, x))) + CtrText(c, x + 1, p[c.size..])
  }

  // The block under the enciphered ciphertext block before it
  function CfbText<O(!new)>(c: Cipher<O>, before: seq<O>, p: seq<O>, back: bool): (q: seq<O>)
    requires Lawful(c) && |before| == c.size
    decreases |p|
  {
    if |p| <= c.size then XorSeq(c, p, Enc(c, before))
    else
      var b := p[..c.size];
      var q := XorSeq(c, b, Enc(c, before));
      q + CfbText(c, if back then b else q, p[c.size..], back)
  }

  // ------------------------------------------------------------ one block

  lemma OneBlock<O(!new)>(k: Kind<O>, c: Cipher<O>, v: seq<O>, p: seq<O>, back: bool, e: seq<O>)
    requires Ready(k, c, State(v, [])) && |v| == c.size && p != [] && |p| <= c.size && e == Enc(c, v)
    ensures Crypt(k, c, State(v, []), p, back).1 == XorSeq(c, p, e)
    ensures var s := Crypt(k, c, State(v, []), p, back).0;
            |p| == c.size ==> s.mask == [] && s.mem == if k.Feedback? then (if back then p else XorSeq(c, p, e)) else k.inc(v)
  {
    RefillFirst(k, c, State(v, []), p, back);
    MaskedIsCrypt(k, c, Refill(k, c, State(v, [])), p, back);
    NoneBefore(p);
    NoneBefore(XorSeq(c, p, e));
  }

  lemma NoneBefore<O>(s: seq<O>)
    ensures [] + s == s
  {
  }

  lemma NoData<O(!new)>(c: Cipher<O>, e: seq<O>)
    ensures XorSeq(c, [], e) == []
  {
  }

  lemma BlockAndRest<O(!new)>(k: Kind<O>, c: Cipher<O>, s: State<O>, p: seq<O>, back: bool, t: State<O>, a: seq<O>)
    requires Ready(k, c, s) && |p| >= c.size && Crypt(k, c, s, p[..c.size], back) == (t, a)
    ensures Crypt(k, c, s, p, back).1 == a + Crypt(k, c, t, p[c.size..], back).1
  {
    var (u, b) := Crypt(k, c, t, p[c.size..], back);
    assert p[..c.size] + p[c.size..] == p;
    CryptConcat(k, c, s, p[..c.size], p[c.size..], back, t, a, u, b);
  }

  // ------------------------------------------------------------- the modes

  lemma {:induction false} CfbIsText<O(!new)>(c: Cipher<O>, v: seq<O>, p: seq<O>, back: bool)
    requires Lawful(c) && |v| == c.size
    ensures Crypt(Feedback, c, State(v, []), p, back).1 == CfbText(c, v, p, back)
    decreases |p|
  {
    var e := Enc(c, v);
    if p == [] {
      NoData(c, e);
    } else if |p| <= c.size {
      OneBlock(Feedback, c, v, p, back, e);
    } else {
      var b := p[..c.size];
      OneBlock(Feedback, c, v, b, back, e);
      var (t, a) := Crypt(Feedback, c, State(v, []), b, back);
      BlockAndRest(Feedback, c, State(v, []), p, back, t, a);
      CfbIsText(c, t.mem, p[c.size..], back);
    }
  }

  lemma {:induction false} CtrIsText(c: Cipher<byte>, x: nat, p: seq<byte>, back: bool)
    requires Lawful(c)
    ensures Ready(StreamCode.Counting(), c, State(Be(c.size, x), []))
    ensures Crypt(StreamCode.Counting(), c, State(Be(c.size, x), []), p, back).1 == CtrText(c, x, p)
    decreases |p|
  {
    var k, v := StreamCode.Counting(), Be(c.size, x);
    StreamCode.CountingReady(c, v, []);
    var e := Enc(c, v);
    if p == [] {
      NoData(c, e);
    } else if |p| <= c.size {
      OneBlock(k, c, v, p, back, e);
    } else {
      var b := p[..c.size];
      OneBlock(k, c, v, b, back, e);
      var (t, a) := Crypt(k, c, State(v, []), b, back);
      BlockAndRest(k, c, State(v, []), p, back, t, a);
      IncOfBe(c.size, x);
      CtrIsText(c, x + 1, p[c.size..], back);
    }
  }
}
