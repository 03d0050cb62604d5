// The key wrap by the first form of section 2.2.1 of RFC 3394, in which the registers move
// on by one at every step: it gives the same wraps as the form by indices that the code has.
module KeyWrapShift {
  import opened Bytes
  import opened BlockCipher
  import opened KeyWrap

  ghost predicate Usable(c: Cipher<byte>)
  {
    Lawful(c) && c.size == 16
  }

  // A = MSB(E(A | R[1])) xor t, R[i] = R[i + 1], R[n] = LSB(E(A | R[1]))
  ghost function Moved(c: Cipher<byte>, s: State, t: nat): (s': State)
    requires Usable(c) && Shaped(s)
    ensures Shaped(s') && |s'.r| == |s.r|
  {
    assert Blk(s.a + s.r[0], c.size);
    var b := c.enc(s.a + s.r[0]);
    State(XorSeq(c, b[..8], Be(8, t)), s.r[1..] + [b[8..16]])
  }

  ghost function MovedOn(c: Cipher<byte>, s: State, m: nat): (s': State)
    requires Usable(c) && Shaped(s)
    ensures Shaped(s') && |s'.r| == |s.r|
  {
    if m == 0 then s else Moved(c, MovedOn(c, s, m - 1), m)
  }

  // ------------------------------------------------- the registers turned

  function Turned(r: seq<seq<byte>>, k: nat): seq<seq<byte>>
    requires k <= |r|
  {
    r[k..] + r[..k]
  }

  function After(k: nat, n: nat): nat
  {
    if k + 1 < n then k + 1 else 0
  }

  lemma {:induction false} NextRegister(t: nat, n: nat)
    requires t > 0 && n > 0
    ensures Register(t + 1, n) == After(Register(t, n), n)
    decreases t
  {
    if t > n {
      NextRegister(t - n, n);
    }
  }

  lemma {:induction false} FirstAgain(j: nat, n: nat, t: nat)
    requires n > 0 && t == Rounds(j, n) + 1
    ensures Register(t, n) == 0
  {
    if j > 0 {
      FirstAgain(j - 1, n, t - n);
    }
  }

  lemma SixTurns(n: nat)
    requires n > 0
    ensures Register(6 * n + 1, n) == 0
  {
    SixRounds(n);
    FirstAgain(6, n, 6 * n + 1);
  }

  lemma TurnStep(r: seq<seq<byte>>, k: nat, b: seq<byte>)
    requires k < |r|
    ensures Turned(r, k)[0] == r[k]
    ensures Turned(r[k := b], After(k, |r|)) == Turned(r, k)[1..] + [b]
  {
  }

  lemma MovedStep(x: Mixer, c: Cipher<byte>, w: State, s: State, k: nat, t: nat)
    requires Mixes(x, c) && Inverts(x) && Shaped(w) && Shaped(s) && |s.r| == |w.r| && k < |w.r|
    requires s.a == w.a && s.r == Turned(w.r, k)
    ensures Moved(c, s, t).a == Forward(x, w, k, t).a
    ensures Moved(c, s, t).r == Turned(Forward(x, w, k, t).r, After(k, |w.r|))
  {
    assert Step(t, w.a, w.r[k]);
    var b := Enc(c, w.a + w.r[k]);
    assert b[8..16] == b[8..];
    TurnStep(w.r, k, b[8..]);
    MovedBy(c, s, t, b);
    MixBy(c, t, w.a, w.r[k], b);
  }

  lemma MovedBy(c: Cipher<byte>, s: State, t: nat, b: seq<byte>)
    requires Usable(c) && Shaped(s) && b == Enc(c, s.a + s.r[0])
    ensures Moved(c, s, t) == State(XorSeq(c, b[..8], Be(8, t)), s.r[1..] + [b[8..16]])
  {
  }

  lemma MixBy(c: Cipher<byte>, t: nat, a: seq<byte>, r: seq<byte>, b: seq<byte>)
    requires Usable(c) && |a| == |r| == 8 && b == Enc(c, a + r)
    ensures Mix(c, t, a, r) == (XorSeq(c, b[..8], Be(8, t)), b[8..])
  {
  }

  lemma {:induction false} MovedIsTurned(x: Mixer, c: Cipher<byte>, s: State, m: nat)
    requires Mixes(x, c) && Inverts(x) && Shaped(s)
    ensures MovedOn(c, s, m).a == Wrapped(x, s, m).a
    ensures MovedOn(c, s, m).r == Turned(Wrapped(x, s, m).r, Register(m + 1, |s.r|))
  {
    if m > 0 {
      var k, w, v := Register(m, |s.r|), Wrapped(x, s, m - 1), MovedOn(c, s, m - 1);
      MovedIsTurned(x, c, s, m - 1);
      MovedStep(x, c, w, v, k, m);
      NextRegister(m, |s.r|);
      WrappedStep(x, s, w, m - 1);
      MovedOnStep(c, s, v, m);
    }
  }

  lemma MovedOnStep(c: Cipher<byte>, s: State, v: State, m: nat)
    requires Usable(c) && Shaped(s) && m > 0 && v == MovedOn(c, s, m - 1)
    ensures MovedOn(c, s, m) == Moved(c, v, m)
  {
  }

  // A string is the wrap exactly when it is made of the registers the moving form ends
  // with, after six steps for each of them.
  lemma WrapByMoving(c: Cipher<byte>, iv: seq<byte>, d: seq<byte>, w: seq<byte>, n: nat)
    requires Usable(c) && |iv| == 8 && n >= 2 && |d| == 8 * n && |w| == 8 * n + 8
    ensures IsWrap(c, iv, d, w) <==> State(w[..8], Blocks(w[8..])) == MovedOn(c, State(iv, Blocks(d)), 6 * n)
  {
    WrapWithByMoving(MixerOf(c), c, iv, d, w, n, 6 * n);
  }

  lemma WrapWithByMoving(x: Mixer, c: Cipher<byte>, iv: seq<byte>, d: seq<byte>, w: seq<byte>, n: nat, m: nat)
    requires Mixes(x, c) && Inverts(x) && |iv| == 8 && n >= 2 && |d| == 8 * n && |w| == 8 * n + 8 && m == 6 * n
    ensures WrapWith(x, iv, d, w) <==> State(w[..8], Blocks(w[8..])) == MovedOn(c, State(iv, Blocks(d)), m)
  {
    AllMoved(x, c, Cut(iv, d), n, m);
  }

  lemma AllMoved(x: Mixer, c: Cipher<byte>, s: State, n: nat, m: nat)
    requires Mixes(x, c) && Inverts(x) && Shaped(s) && n == |s.r| && m == 6 * n
    ensures MovedOn(c, s, m) == Wrapped(x, s, m)
  {
    SixTurns(n);
    MovedIsTurned(x, c, s, m);
    TurnedNot(Wrapped(x, s, m).r);
  }

  lemma TurnedNot(r: seq<seq<byte>>)
    ensures Turned(r, 0) == r
  {
  }

  // The registers of a string are its octets, eight by eight; without an initial value of
  // the caller's it is the one of section 2.2.3.1.
  lemma RegistersAndStart(d: seq<byte>, iv: seq<byte>, k: nat)
    requires 8 * k + 8 <= |d|
    ensures k < |Blocks(d)| == |d| / 8 && Blocks(d)[k] == d[8 * k..8 * k + 8]
    ensures Initial(Some(iv)) == iv && |Initial(None)| == 8 && forall i :: 0 <= i < 8 ==> Initial(None)[i] == 0xA6
  {
    BlockAt(d, k);
  }
}
