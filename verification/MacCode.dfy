// The buffering of cipher-ccm.c (do_cbc_mac) and of cipher-cmac.c.
module MacCode {
  import opened Bytes
  import opened BlockCipher
  import opened Mac
  import opened ModArith

  // buf_xor, then the cipher in place
  method MixBlock<O(!new)>(c: Cipher<O>, iv: array<O>, b: seq<O>)
    requires Mixing(c) && iv.Length == |b| == c.size
    modifies iv
    ensures iv[..] == Mix(c, old(iv[..]), b)
  {
    var x := XorSeq(c, iv[..], b);
    assert Blk(x, c.size);
    Replace(iv, x);
    Replace(iv, c.enc(iv[..]));
  }

  lemma FilledPrefix<O>(d: seq<O>, at: nat, w: seq<O>, u: nat)
    requires at + |w| == u <= |d|
    ensures Put(d, at, w)[..u] == d[..at] + w
  {
    PutParts(d, at, w);
    assert (d[..at] + w + d[u..])[..u] == d[..at] + w;
  }

  // Octets to the buffer while there are any and there is room
  method Fill<O(!new)>(macbuf: array<O>, unused: nat, inbuf: seq<O>) returns (n: nat, u: nat, rest: seq<O>)
    requires unused <= macbuf.Length
    modifies macbuf
    ensures n <= |inbuf| && u == unused + n <= macbuf.Length && (rest == [] || u == macbuf.Length)
    ensures macbuf[..u] == old(macbuf[..unused]) + inbuf[..n] && rest == inbuf[n..]
  {
    n := if |inbuf| < macbuf.Length - unused then |inbuf| else macbuf.Length - unused;
    u, rest := unused + n, inbuf[n..];
    FilledPrefix(macbuf[..], unused, inbuf[..n], u);
    Copy(macbuf, unused, inbuf[..n]);
  }

  method FillUp<O(!new)>(ghost c: Cipher<O>, zero: O, macbuf: array<O>, unused: nat)
    requires unused <= macbuf.Length == c.size && zero == c.zero
    modifies macbuf
    ensures macbuf[..] == ZeroPadded(c, old(macbuf[..unused]))
  {
    for u := unused to macbuf.Length
      invariant macbuf[..u] == old(macbuf[..unused]) + seq(u - unused, i => c.zero)
    {
      macbuf[u] := zero;
    }
    assert macbuf[..] == macbuf[..macbuf.Length];
  }

  // ------------------------------------------------------------ do_cbc_mac

  lemma FilledTowards<O(!new)>(c: Cipher<O>, m: Mac<O>, inbuf: seq<O>, n: nat, b: seq<O>, rest: seq<O>)
    requires Fits(c, m) && n <= |inbuf| && |m.buf| + n <= c.size && b == m.buf + inbuf[..n] && rest == inbuf[n..]
    ensures Fits(c, Mac(m.acc, b)) && Feed(c, Mac(m.acc, b), rest) == Feed(c, m, inbuf)
  {
    FeedMoves(c, m, inbuf, n);
  }

  lemma FullTowards<O(!new)>(c: Cipher<O>, m: Mac<O>, rest: seq<O>)
    requires Fits(c, m) && |m.buf| == c.size
    ensures Fits(c, Mac(Mix(c, m.acc, m.buf), []))
    ensures Norm(c, Feed(c, Mac(Mix(c, m.acc, m.buf), []), rest)) == Norm(c, Feed(c, m, rest))
  {
    NormFeed(c, m, Mac(Mix(c, m.acc, m.buf), []), rest);
  }

  lemma BlockTowards<O(!new)>(c: Cipher<O>, acc: seq<O>, rest: seq<O>)
    requires Mixing(c) && |acc| == c.size <= |rest|
    ensures Fits(c, Mac(Mix(c, acc, rest[..c.size]), []))
    ensures Norm(c, Feed(c, Mac(Mix(c, acc, rest[..c.size]), []), rest[c.size..])) == Norm(c, Feed(c, Mac(acc, []), rest))
  {
    FilledTowards(c, Mac(acc, []), rest, c.size, rest[..c.size], rest[c.size..]);
    FullTowards(c, Mac(acc, rest[..c.size]), rest[c.size..]);
  }

  // Whole blocks straight from the input
  method MixBlocks<O(!new)>(c: Cipher<O>, iv: array<O>, inbuf: seq<O>) returns (rest: seq<O>)
    requires Mixing(c) && iv.Length == c.size
    modifies iv
    ensures |rest| < c.size && |rest| <= |inbuf|
    ensures Norm(c, Feed(c, Mac(iv[..], []), rest)) == Norm(c, Feed(c, Mac(old(iv[..]), []), inbuf))
  {
    rest := inbuf;
    while |rest| >= c.size
      invariant |rest| <= |inbuf|
      invariant Norm(c, Feed(c, Mac(iv[..], []), rest)) == Norm(c, Feed(c, Mac(old(iv[..]), []), inbuf))
      decreases |rest|
    {
      BlockTowards(c, iv[..], rest);
      MixBlock(c, iv, rest[..c.size]);
      rest := rest[c.size..];
    }
  }

  // The buffer, if it holds anything or is needed
  method TakeIn<O(!new)>(ghost c: Cipher<O>, iv: array<O>, macbuf: array<O>, unused: nat, inbuf: seq<O>) returns (u: nat, rest: seq<O>)
    requires Mixing(c) && iv.Length == macbuf.Length == c.size && iv != macbuf && unused <= c.size
    modifies macbuf
    ensures u <= c.size && |rest| <= |inbuf| && (rest != [] ==> u == c.size || (u == unused == 0 && rest == inbuf && |rest| >= c.size))
    ensures unused == 0 && |inbuf| < c.size ==> rest == []
    ensures u == 0 ==> rest != [] || inbuf == []
    ensures Feed(c, Mac(iv[..], macbuf[..u]), rest) == Feed(c, Mac(iv[..], old(macbuf[..unused])), inbuf)
  {
    u, rest := unused, inbuf;
    if |inbuf| + unused < macbuf.Length || unused > 0 {
      var n;
      n, u, rest := Fill(macbuf, unused, inbuf);
      FilledTowards(c, Mac(iv[..], old(macbuf[..unused])), inbuf, n, macbuf[..u], rest);
    }
  }

  // After the last octet: filled up with zeros and mixed in
  method Pad<O(!new)>(c: Cipher<O>, iv: array<O>, macbuf: array<O>, u: nat)
    requires Mixing(c) && iv.Length == macbuf.Length == c.size && iv != macbuf && 0 < u <= c.size
    modifies iv, macbuf
    ensures iv[..] == Flush(c, Mac(old(iv[..]), old(macbuf[..u])))
  {
    FillUp(c, c.zero, macbuf, u);
    MixBlock(c, iv, macbuf[..]);
  }

  // The full buffer, then whole blocks
  method MixOn<O(!new)>(c: Cipher<O>, iv: array<O>, macbuf: array<O>, u: nat, inbuf: seq<O>) returns (rest: seq<O>)
    requires Mixing(c) && iv.Length == macbuf.Length == c.size && iv != macbuf && (u == 0 || u == c.size)
    modifies iv
    ensures |rest| < c.size && |rest| <= |inbuf|
    ensures Norm(c, Feed(c, Mac(iv[..], []), rest)) == Norm(c, Feed(c, Mac(old(iv[..]), old(macbuf[..u])), inbuf))
  {
    if u > 0 {
      assert macbuf[..u] == macbuf[..];
      FullTowards(c, Mac(iv[..], macbuf[..u]), inbuf);
      MixBlock(c, iv, macbuf[..]);
    }
    rest := MixBlocks(c, iv, inbuf);
  }

  // do_cbc_mac: the octets not mixed in yet stay in macbuf.
  method DoCbcMac<O(!new)>(c: Cipher<O>, iv: array<O>, macbuf: array<O>, unused: nat, inbuf: seq<O>, padding: bool) returns (left: nat)
    requires Mixing(c) && iv.Length == macbuf.Length == c.size && iv != macbuf && unused <= c.size
    modifies iv, macbuf
    ensures left <= c.size
    ensures padding ==> left == 0 && iv[..] == Flush(c, Feed(c, Mac(old(iv[..]), old(macbuf[..unused])), inbuf))
    ensures !padding ==> Norm(c, Mac(iv[..], macbuf[..left])) == Norm(c, Feed(c, Mac(old(iv[..]), old(macbuf[..unused])), inbuf))
  {
    ghost var m := Mac(iv[..], macbuf[..unused]);
    ghost var g := Feed(c, m, inbuf);
    left := unused;
    if inbuf == [] && (unused == 0 || !padding) { return; }
    var rest := inbuf;
    FlushNorm(c, g);
    while true
      invariant left <= c.size && (rest != [] || (left > 0 && padding))
      invariant Norm(c, Feed(c, Mac(iv[..], macbuf[..left]), rest)) == Norm(c, g)
      decreases |rest|, left
    {
      left, rest := TakeIn(c, iv, macbuf, left, rest);
      if rest == [] {
        if padding {
          FlushNorm(c, Mac(iv[..], macbuf[..left]));
          Pad(c, iv, macbuf, left);
          left := 0;
        }
        return;
      }
      rest := MixOn(c, iv, macbuf, left, rest);
      left := 0;
      if rest == [] {
        FlushNorm(c, Mac(iv[..], macbuf[..left]));
        return;
      }
    }
  }

  // ---------------------------------------------------------------- CMAC

  function Zeros(n: nat): (z: seq<byte>)
    ensures |z| == n
  {
    seq(n, i => 0)
  }

  // Behind a short last block comes the octet 0x80, then zeros.
  function Marked(c: Cipher<byte>, b: seq<byte>): (r: seq<byte>)
    ensures |b| <= c.size ==> |r| == c.size
  {
    if |b| < c.size then b + [0x80] + Zeros(c.size - |b| - 1) else b
  }

  // Section 6.2 of NIST SP 800-38B: the last block is xored with K1 if it is full, with
  // K2 after marking otherwise.
  function CmacEnding(c: Cipher<byte>, k1: seq<byte>, k2: seq<byte>): (e: Ending<byte>)
    requires |k1| == |k2| == c.size
    ensures Ends(c, e)
  {
    b => if |b| == c.size then XorSeq(c, b, k1) else XorSeq(c, Marked(c, b), k2)
  }

  // The shift by one bit: t = carry | (bi << 1), carry = bi >> 7, from the last octet
  function Shifted(s: seq<byte>): (r: (nat, seq<byte>))
    ensures r.0 <= 1 && |r.1| == |s|
  {
    if s == [] then (0, []) else
      var (carry, t) := Shifted(s[1..]);
      (s[0] / 128, [(2 * s[0] + carry) % 256] + t)
  }

  // As numbers: twice, without the bit pushed out
  lemma {:induction false} ShiftedDoubles(s: seq<byte>)
    ensures FromBe(Shifted(s).1) + Shifted(s).0 * Pow256(|s|) == 2 * FromBe(s)
  {
    if s != [] {
      var (carry, t) := Shifted(s[1..]);
      ShiftedDoubles(s[1..]);
      ShiftedFront(s[0], s[1..], carry, t, (2 * s[0] + carry) % 256, s[0] / 128);
      assert [s[0]] + s[1..] == s;
    }
  }

  lemma ShiftedFront(b: byte, s: seq<byte>, carry: nat, t: seq<byte>, x: byte, out: nat)
    requires |t| == |s| && FromBe(t) + carry * Pow256(|s|) == 2 * FromBe(s) && carry <= 1
    requires x == (2 * b + carry) % 256 && out == b / 128
    ensures FromBe([x] + t) + out * Pow256(|s| + 1) == 2 * FromBe([b] + s)
  {
    FromBeFront(x, t);
    FromBeFront(b, s);
    ShiftAlgebra(b, carry, x, out, Pow256(|s|), FromBe(s), FromBe(t));
  }

  lemma ShiftAlgebra(b: byte, carry: nat, x: nat, out: nat, p: nat, v: nat, w: nat)
    requires w + carry * p == 2 * v && carry <= 1 && x == (2 * b + carry) % 256 && out == b / 128
    ensures x * p + w + out * (256 * p) == 2 * (b * p + v)
  {
    assert x + 256 * out == 2 * b + carry;
    assert out * (256 * p) == (256 * out) * p;
    MulDistr(x, 256 * out, p);
    MulDistr(2 * b, carry, p);
    assert (2 * b) * p == 2 * (b * p);
  }

  // Multiplication by x in GF(2^64) or GF(2^128), section 5.3
  function Doubled(s: seq<byte>): (r: seq<byte>)
    requires |s| > 0
    ensures |r| == |s|
  {
    var (carry, v) := Shifted(s);
    if carry == 0 then v else v[|s| - 1 := Xor(v[|s| - 1], if |s| == 16 then 0x87 else 0x1b)]
  }

  // One of the two subkeys, in place
  method DoubleInPlace(buf: array<byte>)
    requires buf.Length > 0
    modifies buf
    ensures buf[..] == Doubled(old(buf[..]))
  {
    ghost var s := buf[..];
    var carry, i := 0, buf.Length;
    while i > 0
      invariant 0 <= i <= buf.Length && buf[..i] == s[..i] && (carry, buf[i..]) == Shifted(s[i..])
    {
      i := i - 1;
      var bi: nat := buf[i];
      assert s[i..][1..] == s[i + 1..];
      ghost var low := buf[i + 1..];
      buf[i] := (2 * bi + carry) % 256;
      assert buf[i..] == [buf[i]] + low;
      carry := bi / 128;
    }
    assert buf[0..] == buf[..] && s[0..] == s;
    if carry > 0 {
      buf[buf.Length - 1] := Xor(buf[buf.Length - 1], if buf.Length == 16 then 0x87 else 0x1b);
    }
  }

  method Keep(lastiv: array<byte>, unused: nat, inbuf: seq<byte>) returns (u: nat)
    requires unused + |inbuf| <= lastiv.Length
    modifies lastiv
    ensures u == unused + |inbuf| && lastiv[..u] == old(lastiv[..unused]) + inbuf
  {
    var n, rest;
    n, u, rest := Fill(lastiv, unused, inbuf);
    assert inbuf[..|inbuf|] == inbuf;
  }

  // The waiting block is filled and mixed in, there being more.
  method FillAndMix(c: Cipher<byte>, iv: array<byte>, lastiv: array<byte>, unused: nat, inbuf: seq<byte>) returns (rest: seq<byte>)
    requires Mixing(c) && iv.Length == lastiv.Length == c.size && iv != lastiv && unused <= c.size < unused + |inbuf|
    modifies iv, lastiv
    ensures rest != [] && Feed(c, Mac(iv[..], []), rest) == Feed(c, Mac(old(iv[..]), old(lastiv[..unused])), inbuf)
  {
    var n, u;
    n, u, rest := Fill(lastiv, unused, inbuf);
    FilledTowards(c, Mac(iv[..], old(lastiv[..unused])), inbuf, n, lastiv[..u], rest);
    assert lastiv[..u] == lastiv[..];
    FeedFull(c, Mac(iv[..], lastiv[..]), rest);
    MixBlock(c, iv, lastiv[..]);
  }

  method MixAllButLast(c: Cipher<byte>, iv: array<byte>, inbuf: seq<byte>) returns (rest: seq<byte>)
    requires Mixing(c) && iv.Length == c.size && inbuf != []
    modifies iv
    ensures 0 < |rest| <= c.size && Feed(c, Mac(iv[..], []), rest) == Feed(c, Mac(old(iv[..]), []), inbuf)
  {
    rest := inbuf;
    while |rest| > c.size
      invariant rest != [] && Feed(c, Mac(iv[..], []), rest) == Feed(c, Mac(old(iv[..]), []), inbuf)
      decreases |rest|
    {
      FeedBlock(c, iv[..], rest);
      MixBlock(c, iv, rest[..c.size]);
      rest := rest[c.size..];
    }
  }

  method MarkEnd(lastiv: array<byte>, count: nat)
    requires count < lastiv.Length
    modifies lastiv
    ensures lastiv[..] == old(lastiv[..count]) + [0x80] + Zeros(lastiv.Length - count - 1)
  {
    lastiv[count] := 0x80;
    for i := count + 1 to lastiv.Length
      invariant lastiv[..count] == old(lastiv[..count]) && lastiv[count] == 0x80
      invariant forall j :: count + 1 <= j < i ==> lastiv[j] == 0
    {
      lastiv[i] := 0;
    }
  }

  datatype Code = OK | INV_ARG | INV_STATE | INV_CIPHER_MODE | CHECKSUM

  // The part of a cipher handle that cipher-cmac.c updates
  class CmacHandle {
    const c: Cipher<byte>
    const iv: array<byte>
    const lastiv: array<byte>
    const buf: array<byte>
    var unused: nat
    var k1: seq<byte>
    var k2: seq<byte>
    var tag: bool

    ghost predicate Valid()
      reads this
    {
      && Mixing(c) && iv.Length == lastiv.Length == buf.Length == c.size
      && iv != lastiv && iv != buf && lastiv != buf && unused <= c.size && |k1| == |k2| == c.size
    }

    // What was taken in since the start
    function Now(): Mac<byte>
      requires Valid()
      reads this, iv, lastiv
    {
      Mac(iv[..], lastiv[..unused])
    }

    // A fresh handle after _gcry_cipher_cmac_set_subkeys
    constructor (cipher: Cipher<byte>)
      requires Mixing(cipher)
      ensures Valid() && c == cipher && !tag && fresh(iv) && fresh(lastiv) && fresh(buf)
      ensures Now() == Mac(Zeros(c.size), []) && Blk(Zeros(c.size), c.size) && k1 == Doubled(c.enc(Zeros(c.size))) && k2 == Doubled(k1)
    {
      c := cipher;
      iv := new byte[cipher.size](i => 0);
      lastiv := new byte[cipher.size](i => 0);
      buf := new byte[cipher.size](i => 0);
      unused, tag := 0, false;
      k1, k2 := Zeros(cipher.size), Zeros(cipher.size);
      new;
      assert iv[..] == Zeros(c.size);
      GenerateSubkeys();
    }

    // cmac_generate_subkeys
    method GenerateSubkeys()
      requires Valid()
      modifies buf, this`k1, this`k2
      ensures Valid() && Blk(Zeros(c.size), c.size) && k1 == Doubled(c.enc(Zeros(c.size))) && k2 == Doubled(k1)
    {
      assert Blk(Zeros(c.size), c.size);
      Replace(buf, c.enc(Zeros(c.size)));
      DoubleInPlace(buf);
      k1 := buf[..];
      DoubleInPlace(buf);
      k2 := buf[..];
    }

    // cmac_write: the last block, full or not, stays in lastiv.
    method Write(inbuf: seq<byte>)
      requires Valid()
      modifies iv, lastiv, this`unused
      ensures Valid() && Now() == Feed(c, old(Now()), inbuf)
    {
      if inbuf == [] { return; }
      if unused + |inbuf| <= c.size {
        FeedFits(c, Now(), inbuf);
        unused := Keep(lastiv, unused, inbuf);
        return;
      }
      var rest := inbuf;
      if unused > 0 {
        rest := FillAndMix(c, iv, lastiv, unused, inbuf);
        unused := 0;
      }
      rest := MixAllButLast(c, iv, rest);
      FeedFits(c, Mac(iv[..], []), rest);
      unused := Keep(lastiv, 0, rest);
    }

    // cmac_final
    method Finish()
      requires Valid()
      modifies iv, lastiv, this`unused
      ensures Valid() && unused == 0 && iv[..] == Final(c, CmacEnding(c, k1, k2), old(Now()))
    {
      ghost var b := lastiv[..unused];
      var subkey := k1;
      if unused < c.size {
        subkey := k2;
        MarkEnd(lastiv, unused);
      }
      assert lastiv[..] == if |b| == c.size then b else Marked(c, b);
      Replace(lastiv, XorSeq(c, lastiv[..], subkey));
      MixBlock(c, iv, lastiv[..]);
      unused := 0;
    }

    // The tag of what was taken in, whether it was worked out already or not
    ghost function TagValue(): (t: seq<byte>)
      requires Valid()
      reads this, iv, lastiv
      ensures |t| == c.size
    {
      if tag then iv[..] else Final(c, CmacEnding(c, k1, k2), Now())
    }

    // _gcry_cipher_cmac_authenticate
    method Authenticate(abuf: seq<byte>) returns (code: Code)
      requires Valid()
      modifies iv, lastiv, this`unused
      ensures Valid() && code == (if tag then INV_STATE else if c.size != 16 && c.size != 8 then INV_CIPHER_MODE else OK)
      ensures Now() == if code == OK then Feed(c, old(Now()), abuf) else old(Now())
    {
      if tag { return INV_STATE; }
      if c.size != 16 && c.size != 8 { return INV_CIPHER_MODE; }
      Write(abuf);
      return OK;
    }

    method WorkOut()
      requires Valid()
      modifies iv, lastiv, this`unused, this`tag
      ensures Valid() && tag && iv[..] == old(TagValue()) && TagValue() == old(TagValue())
    {
      if !tag {
        Finish();
        tag := true;
      }
    }

    // _gcry_cipher_cmac_get_tag
    method GetTag(taglen: nat) returns (code: Code, outtag: seq<byte>)
      requires Valid()
      modifies iv, lastiv, this`unused, this`tag
      ensures Valid() && TagValue() == old(TagValue()) && code == (if 0 < taglen <= c.size then OK else INV_ARG)
      ensures code == OK ==> outtag == old(TagValue())[..taglen]
    {
      if taglen == 0 || taglen > c.size { return INV_ARG, []; }
      WorkOut();
      return OK, iv[..taglen];
    }

    // _gcry_cipher_cmac_check_tag
    method CheckTag(intag: seq<byte>) returns (code: Code)
      requires Valid()
      modifies iv, lastiv, this`unused, this`tag
      ensures Valid() && TagValue() == old(TagValue())
      ensures code == INV_ARG <==> |intag| == 0 || |intag| > c.size
      ensures code == OK <==> 0 < |intag| <= c.size && intag == old(TagValue())[..|intag|]
      ensures code in {OK, INV_ARG, CHECKSUM}
    {
      if |intag| == 0 || |intag| > c.size { return INV_ARG; }
      WorkOut();
      return if intag == iv[..|intag|] then OK else CHECKSUM;
    }
  }
}
