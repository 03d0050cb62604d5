// The AES key wrap of cipher-aeswrap.c over any cipher of 16-octet blocks.
module KeyWrap {
  import opened Bytes
  import opened Counters
  import opened BlockCipher

  // ----------------------------------------------------------- one step

  // B = E(A | R[i]); A = MSB(B) xor t; R[i] = LSB(B), of section 2.2.1 of RFC 3394
  function Mix(c: Cipher<byte>, t: nat, a: seq<byte>, r: seq<byte>): (m: (seq<byte>, seq<byte>))
    requires Lawful(c) && c.size == 16 && |a| == |r| == 8
    ensures |m.0| == |m.1| == 8
  {
    var b := Enc(c, a + r);
    (XorSeq(c, b[..8], Be(|a|, t)), b[8..])
  }

  // B = D((A xor t) | R[i]); A = MSB(B); R[i] = LSB(B), of section 2.2.2
  function Unmix(c: Cipher<byte>, t: nat, a: seq<byte>, r: seq<byte>): (m: (seq<byte>, seq<byte>))
    requires Lawful(c) && c.size == 16 && |a| == |r| == 8
    ensures |m.0| == |m.1| == 8
  {
    var b := Dec(c, XorSeq(c, a, Be(|a|, t)) + r);
    (b[..8], b[8..])
  }

  lemma MixInverse(c: Cipher<byte>, t: nat, a: seq<byte>, r: seq<byte>)
    requires Lawful(c) && c.size == 16 && |a| == |r| == 8
    ensures var m := Mix(c, t, a, r); Unmix(c, t, m.0, m.1) == (a, r)
    ensures var m := Unmix(c, t, a, r); Mix(c, t, m.0, m.1) == (a, r)
  {
    var b := Enc(c, a + r);
    Inverse(c, a + r);
    XorTwice(c, b[..8], Be(|a|, t));
    assert b[..8] + b[8..] == b && (a + r)[..8] == a && (a + r)[8..] == r;
    var x := XorSeq(c, a, Be(|a|, t)) + r;
    var d := Dec(c, x);
    Inverse(c, x);
    XorTwice(c, a, Be(|a|, t));
    assert d[..8] + d[8..] == d && x[..8] == XorSeq(c, a, Be(|a|, t)) && x[8..] == r;
  }

  // The two steps as function values, so that the rounds need not look inside.
  datatype Mixer = Mixer(mix: (nat, seq<byte>, seq<byte>) -> (seq<byte>, seq<byte>),
                         unmix: (nat, seq<byte>, seq<byte>) -> (seq<byte>, seq<byte>))

  predicate Step(t: nat, a: seq<byte>, r: seq<byte>)
  {
    |a| == 8 && |r| == 8
  }

  ghost predicate Mixes(x: Mixer, c: Cipher<byte>)
  {
    && Lawful(c) && c.size == 16
    && forall t, a, r {:trigger Step(t, a, r)} :: Step(t, a, r) ==> x.mix(t, a, r) == Mix(c, t, a, r) && x.unmix(t, a, r) == Unmix(c, t, a, r)
  }

  ghost predicate Inverts(x: Mixer)
  {
    forall t, a, r {:trigger Step(t, a, r)} :: Step(t, a, r) ==>
      var m, u := x.mix(t, a, r), x.unmix(t, a, r);
      && |m.0| == |m.1| == |u.0| == |u.1| == 8
      && x.unmix(t, m.0, m.1) == (a, r) && x.mix(t, u.0, u.1) == (a, r)
  }

  lemma MixerInverts(x: Mixer, c: Cipher<byte>)
    requires Mixes(x, c)
    ensures Inverts(x)
  {
    forall t, a, r | Step(t, a, r)
      ensures var m, u := x.mix(t, a, r), x.unmix(t, a, r);
              && |m.0| == |m.1| == |u.0| == |u.1| == 8
              && x.unmix(t, m.0, m.1) == (a, r) && x.mix(t, u.0, u.1) == (a, r)
    {
      MixInverse(c, t, a, r);
      var m, u := x.mix(t, a, r), x.unmix(t, a, r);
      assert Step(t, m.0, m.1) && Step(t, u.0, u.1);
    }
  }

  ghost function MixerOf(c: Cipher<byte>): (x: Mixer)
    requires Lawful(c) && c.size == 16
    ensures Mixes(x, c) && Inverts(x)
  {
    var x := Mixer((t, a, r) => if Step(t, a, r) then Mix(c, t, a, r) else (a, r),
                   (t, a, r) => if Step(t, a, r) then Unmix(c, t, a, r) else (a, r));
    MixerInverts(x, c);
    x
  }

  // ---------------------------------------------------------- all the steps

  // The register A and the registers R[1], R[2], ..., eight octets each.
  datatype State = State(a: seq<byte>, r: seq<seq<byte>>)

  ghost predicate Shaped(s: State)
  {
    |s.a| == 8 && s.r != [] && forall k :: 0 <= k < |s.r| ==> |s.r[k]| == 8
  }

  // Which register step t works on: t - 1 modulo n
  function Register(t: nat, n: nat): (i: nat)
    requires t > 0 && n > 0
    ensures i < n
  {
    if t <= n then t - 1 else Register(t - n, n)
  }

  // The steps of the first j rounds
  function Rounds(j: nat, n: nat): nat
  {
    if j == 0 then 0 else Rounds(j - 1, n) + n
  }

  ghost function Forward(x: Mixer, s: State, i: nat, t: nat): (s': State)
    requires Inverts(x) && Shaped(s) && i < |s.r|
    ensures Shaped(s') && |s'.r| == |s.r|
  {
    assert Step(t, s.a, s.r[i]);
    var m := x.mix(t, s.a, s.r[i]);
    State(m.0, s.r[i := m.1])
  }

  ghost function Backward(x: Mixer, s: State, i: nat, t: nat): (s': State)
    requires Inverts(x) && Shaped(s) && i < |s.r|
    ensures Shaped(s') && |s'.r| == |s.r|
  {
    assert Step(t, s.a, s.r[i]);
    var m := x.unmix(t, s.a, s.r[i]);
    State(m.0, s.r[i := m.1])
  }

  // Steps 1 to m, round and round the registers
  ghost function Wrapped(x: Mixer, s: State, m: nat): (s': State)
    requires Inverts(x) && Shaped(s)
    ensures Shaped(s') && |s'.r| == |s.r|
  {
    if m == 0 then s else Forward(x, Wrapped(x, s, m - 1), Register(m, |s.r|), m)
  }

  // Steps m down to 1
  ghost function Unwrapped(x: Mixer, s: State, m: nat): (s': State)
    requires Inverts(x) && Shaped(s)
    ensures Shaped(s') && |s'.r| == |s.r|
    decreases m
  {
    if m == 0 then s else Unwrapped(x, Backward(x, s, Register(m, |s.r|), m), m - 1)
  }

  lemma StepInverse(x: Mixer, s: State, i: nat, t: nat)
    requires Inverts(x) && Shaped(s) && i < |s.r|
    ensures Backward(x, Forward(x, s, i, t), i, t) == s
    ensures Forward(x, Backward(x, s, i, t), i, t) == s
  {
    assert Step(t, s.a, s.r[i]);
    var m, u := x.mix(t, s.a, s.r[i]), x.unmix(t, s.a, s.r[i]);
    assert s.r[i := m.1][i := s.r[i]] == s.r && s.r[i := u.1][i := s.r[i]] == s.r;
  }

  lemma UnwrappedStep(x: Mixer, w: State, u: State, m: nat)
    requires Inverts(x) && Shaped(w) && u == Backward(x, w, Register(m + 1, |w.r|), m + 1)
    ensures Unwrapped(x, w, m + 1) == Unwrapped(x, u, m)
  {
  }

  lemma WrappedStep(x: Mixer, s: State, u: State, m: nat)
    requires Inverts(x) && Shaped(s) && u == Wrapped(x, s, m)
    ensures Wrapped(x, s, m + 1) == Forward(x, u, Register(m + 1, |s.r|), m + 1)
  {
  }

  lemma {:induction false} UnwrapInverts(x: Mixer, s: State, m: nat)
    requires Inverts(x) && Shaped(s)
    ensures Unwrapped(x, Wrapped(x, s, m), m) == s
  {
    if m > 0 {
      var u, w := Wrapped(x, s, m - 1), Wrapped(x, s, m);
      WrappedStep(x, s, u, m - 1);
      StepInverse(x, u, Register(m, |s.r|), m);
      UnwrappedStep(x, w, u, m - 1);
      UnwrapInverts(x, s, m - 1);
    }
  }

  lemma {:induction false} WrapInverts(x: Mixer, s: State, m: nat)
    requires Inverts(x) && Shaped(s)
    ensures Wrapped(x, Unwrapped(x, s, m), m) == s
    decreases m
  {
    if m > 0 {
      WrapInverts(x, Backward(x, s, Register(m, |s.r|), m), m - 1);
      StepInverse(x, s, Register(m, |s.r|), m);
    }
  }

  // ------------------------------------------------------- octet strings

  // The registers in an octet string
  function Blocks(d: seq<byte>): (r: seq<seq<byte>>)
    ensures 8 * |r| <= |d| < 8 * |r| + 8
    ensures forall k :: 0 <= k < |r| ==> |r[k]| == 8
    decreases |d|
  {
    if |d| < 8 then [] else [d[..8]] + Blocks(d[8..])
  }

  lemma SliceOfSlice(d: seq<byte>, lo: nat, hi: nat, a: nat, b: nat)
    requires a <= b && lo + b <= hi <= |d|
    ensures d[lo..hi][a..b] == d[lo + a..lo + b]
  {
    assert forall k :: 0 <= k < b - a ==> d[lo..hi][a..b][k] == d[lo + a..lo + b][k];
  }

  lemma {:induction false} BlockAt(d: seq<byte>, k: nat)
    requires 8 * k + 8 <= |d|
    ensures k < |Blocks(d)| && Blocks(d)[k] == d[8 * k..8 * k + 8]
  {
    if k > 0 {
      BlockAt(d[8..], k - 1);
      SliceOfSlice(d, 8, |d|, 8 * (k - 1), 8 * k);
    }
  }

  lemma {:induction false} BlocksInjective(d: seq<byte>, e: seq<byte>)
    requires |d| == |e| == 8 * |Blocks(d)| && Blocks(d) == Blocks(e)
    ensures d == e
    decreases |d|
  {
    if |d| > 0 {
      assert Blocks(d)[1..] == Blocks(d[8..]) && Blocks(e)[1..] == Blocks(e[8..]);
      BlocksInjective(d[8..], e[8..]);
      assert d == Blocks(d)[0] + d[8..] && e == Blocks(e)[0] + e[8..];
    }
  }

  lemma PutSlice(d: seq<byte>, k: nat, s: seq<byte>, j: nat)
    requires 8 * k + 8 <= |d| && |s| == 8 && 8 * j + 8 <= |d|
    ensures Put(d, 8 * k, s)[8 * j..8 * j + 8] == if j == k then s else d[8 * j..8 * j + 8]
  {
    PutParts(d, 8 * k, s);
  }

  lemma BlocksPut(d: seq<byte>, k: nat, s: seq<byte>)
    requires 8 * k + 8 <= |d| && |s| == 8
    ensures k < |Blocks(d)| && Blocks(Put(d, 8 * k, s)) == Blocks(d)[k := s]
  {
    var e := Put(d, 8 * k, s);
    forall j | 0 <= j < |Blocks(d)| ensures Blocks(e)[j] == Blocks(d)[k := s][j] {
      BlockAt(d, j);
      BlockAt(e, j);
      PutSlice(d, k, s, j);
    }
  }

  function Cut(a: seq<byte>, d: seq<byte>): State
  {
    State(a, Blocks(d))
  }

  // w is the wrap of the key data d with initial value iv: at least two whole
  // registers, and six steps for each.
  ghost predicate WrapWith(x: Mixer, iv: seq<byte>, d: seq<byte>, w: seq<byte>)
    requires Inverts(x) && |iv| == 8
  {
    var n := |Blocks(d)|;
    n >= 2 && |d| == 8 * n && |w| == 8 * n + 8 && Cut(w[..8], w[8..]) == Wrapped(x, Cut(iv, d), 6 * n)
  }

  ghost predicate IsWrap(c: Cipher<byte>, iv: seq<byte>, d: seq<byte>, w: seq<byte>)
    requires Lawful(c) && c.size == 16 && |iv| == 8
  {
    WrapWith(MixerOf(c), iv, d, w)
  }

  lemma CutBack(x: Mixer, iv: seq<byte>, d: seq<byte>, w: seq<byte>, n: nat)
    requires Inverts(x) && |iv| == 8 && n >= 2 && |d| == 8 * n && |w| == 8 * n + 8
    ensures WrapWith(x, iv, d, w) <==> Unwrapped(x, Cut(w[..8], w[8..]), 6 * n) == Cut(iv, d)
  {
    UnwrapInverts(x, Cut(iv, d), 6 * n);
    WrapInverts(x, Cut(w[..8], w[8..]), 6 * n);
  }

  lemma OneWrap(x: Mixer, iv: seq<byte>, d: seq<byte>, w: seq<byte>, d': seq<byte>, w': seq<byte>)
    requires Inverts(x) && |iv| == 8 && WrapWith(x, iv, d, w) && WrapWith(x, iv, d', w')
    ensures d == d' <==> w == w'
  {
    var n := |Blocks(d)|;
    if d == d' {
      BlocksInjective(w[8..], w'[8..]);
      assert w == w[..8] + w[8..] && w' == w'[..8] + w'[8..];
    } else if w == w' {
      CutBack(x, iv, d, w, n);
      CutBack(x, iv, d', w, n);
      BlocksInjective(d, d');
    }
  }

  // Key data has one wrap, and a wrap one key data.
  lemma WrapUnique(c: Cipher<byte>, iv: seq<byte>, d: seq<byte>, w: seq<byte>, d': seq<byte>, w': seq<byte>)
    requires Lawful(c) && c.size == 16 && |iv| == 8 && IsWrap(c, iv, d, w) && IsWrap(c, iv, d', w')
    ensures d == d' <==> w == w'
  {
    OneWrap(MixerOf(c), iv, d, w, d', w');
  }

  // ------------------------------------------------------------ the code

  datatype Code = OK | INV_LENGTH | BUFFER_TOO_SHORT | INV_ARG | CHECKSUM

  const STANDARD_IV: seq<byte> := [0xa6, 0xa6, 0xa6, 0xa6, 0xa6, 0xa6, 0xa6, 0xa6]

  function Initial(iv: Option<seq<byte>>): seq<byte>
  {
    if iv.Some? then iv.value else STANDARD_IV
  }

  lemma DecOfBe(n: nat, v: nat)
    ensures DecBe(Be(n, v + 1)) == Be(n, v)
  {
    IncOfBe(n, v);
    DecIncBe(Be(n, v));
  }

  // What the input reads as once the initial value is in place: the two buffers may be
  // one, and then the first eight octets are gone.
  function Seen(iv: seq<byte>, d: seq<byte>, same: bool): seq<byte>
    requires |iv| == 8
  {
    if same && |d| >= 8 then iv + d[8..] else d
  }

  lemma ZeroOfBe(n: nat)
    ensures forall k :: 0 <= k < n ==> Be(n, 0)[k] == 0
  {
  }

  // The registers as the wrapping code keeps them: A in front of R[1] to R[n].
  function InBuffer(d: seq<byte>, n: nat): State
    requires |d| >= 8 * n + 8
  {
    Cut(d[..8], d[8..8 * n + 8])
  }

  lemma RegisterAt(d: seq<byte>, n: nat, i: nat)
    requires |d| >= 8 * n + 8 && 0 < i <= n
    ensures i - 1 < |InBuffer(d, n).r| && InBuffer(d, n).r[i - 1] == d[8 * i..8 * i + 8]
  {
    BlockAt(d[8..8 * n + 8], i - 1);
    SliceOfSlice(d, 8, 8 * n + 8, 8 * (i - 1), 8 * i);
  }

  lemma WriteBack(d: seq<byte>, n: nat, i: nat, a: seq<byte>, b: seq<byte>)
    requires |d| >= 8 * n + 8 && 0 < i <= n && |a| == |b| == 8
    ensures var e := Put(Put(d, 0, a), 8 * i, b);
            InBuffer(e, n) == State(a, InBuffer(d, n).r[i - 1 := b]) && e[8 * n + 8..] == d[8 * n + 8..]
  {
    var d1 := Put(d, 0, a);
    PutFront(d, a, 8 * n + 8);
    PutInside(d1, 8, 8 * n + 8, 8 * i, b);
    BlocksPut(d[8..8 * n + 8], i - 1, b);
  }

  lemma PutFront(d: seq<byte>, s: seq<byte>, n: nat)
    requires |s| <= n <= |d|
    ensures var e := Put(d, 0, s); e[..|s|] == s && e[|s|..n] == d[|s|..n] && e[n..] == d[n..]
  {
    PutParts(d, 0, s);
  }

  lemma PutInside(d: seq<byte>, lo: nat, hi: nat, at: nat, s: seq<byte>)
    requires lo <= at && at + |s| <= hi <= |d|
    ensures Put(d, at, s)[lo..hi] == Put(d[lo..hi], at - lo, s)
    ensures Put(d, at, s)[..lo] == d[..lo] && Put(d, at, s)[hi..] == d[hi..]
  {
    PutParts(d, at, s);
    PutParts(d[lo..hi], at - lo, s);
  }

  function StepBuffer(c: Cipher<byte>, d: seq<byte>, i: nat, t: nat): (e: seq<byte>)
    requires Lawful(c) && c.size == 16 && 8 * i + 8 <= |d| && i > 0
    ensures |e| == |d|
  {
    var m := Mix(c, t, d[..8], d[8 * i..8 * i + 8]);
    Put(Put(d, 0, m.0), 8 * i, m.1)
  }

  // The buffer after m steps
  function Steps(c: Cipher<byte>, d: seq<byte>, n: nat, m: nat): (e: seq<byte>)
    requires Lawful(c) && c.size == 16 && n > 0 && |d| >= 8 * n + 8
    ensures |e| == |d|
  {
    if m == 0 then d else StepBuffer(c, Steps(c, d, n, m - 1), Register(m, n) + 1, m)
  }

  predicate Tick(m: nat) { true }

  // f(m) is the buffer after m steps.
  ghost predicate Trace(c: Cipher<byte>, n: nat, f: nat -> seq<byte>)
  {
    && Lawful(c) && c.size == 16 && n > 0
    && forall m: nat {:trigger Tick(m)} :: Tick(m) ==>
         |f(m)| >= 8 * n + 8 && f(m + 1) == StepBuffer(c, f(m), Register(m + 1, n) + 1, m + 1)
  }

  lemma StepsTick(c: Cipher<byte>, d: seq<byte>, n: nat, m: nat)
    requires Lawful(c) && c.size == 16 && n > 0 && |d| >= 8 * n + 8
    ensures |Steps(c, d, n, m)| >= 8 * n + 8
    ensures Steps(c, d, n, m + 1) == StepBuffer(c, Steps(c, d, n, m), Register(m + 1, n) + 1, m + 1)
  {
  }

  lemma TraceExists(c: Cipher<byte>, d: seq<byte>, n: nat) returns (f: nat -> seq<byte>)
    requires Lawful(c) && c.size == 16 && n > 0 && |d| >= 8 * n + 8
    ensures Trace(c, n, f) && f(0) == d
  {
    f := m => Steps(c, d, n, m);
    forall m: nat | Tick(m)
      ensures |f(m)| >= 8 * n + 8 && f(m + 1) == StepBuffer(c, f(m), Register(m + 1, n) + 1, m + 1)
    {
      StepsTick(c, d, n, m);
    }
  }

  lemma NextStep(c: Cipher<byte>, n: nat, f: nat -> seq<byte>, m: nat, i: nat)
    requires Trace(c, n, f) && 0 < i <= n && Register(m + 1, n) == i - 1
    ensures 8 * i + 8 <= |f(m)| && f(m + 1) == StepBuffer(c, f(m), i, m + 1)
  {
    assert Tick(m);
  }

  lemma StepInBuffer(x: Mixer, c: Cipher<byte>, d: seq<byte>, n: nat, i: nat, t: nat)
    requires Mixes(x, c) && Inverts(x) && |d| >= 8 * n + 8 && 0 < i <= n
    ensures i - 1 < |InBuffer(d, n).r|
    ensures InBuffer(StepBuffer(c, d, i, t), n) == Forward(x, InBuffer(d, n), i - 1, t)
    ensures StepBuffer(c, d, i, t)[8 * n + 8..] == d[8 * n + 8..]
  {
    var r := d[8 * i..8 * i + 8];
    assert Step(t, d[..8], r);
    var b := Mix(c, t, d[..8], r);
    RegisterAt(d, n, i);
    WriteBack(d, n, i, b.0, b.1);
  }

  lemma RegistersIn(d: seq<byte>, n: nat)
    requires |d| >= 8 * n + 8 && n > 0
    ensures |InBuffer(d, n).r| == n
  {
  }

  lemma OnTrace(c: Cipher<byte>, n: nat, f: nat -> seq<byte>, m: nat)
    requires Trace(c, n, f)
    ensures |f(m)| >= 8 * n + 8
  {
    assert Tick(m);
  }

  lemma NextWrapped(x: Mixer, c: Cipher<byte>, n: nat, f: nat -> seq<byte>, m: nat, s: State)
    requires Mixes(x, c) && Inverts(x) && Trace(c, n, f)
    requires |f(m)| >= 8 * n + 8 && Shaped(s) && |s.r| == n && InBuffer(f(m), n) == Wrapped(x, s, m)
    ensures |f(m + 1)| >= 8 * n + 8 && f(m + 1)[8 * n + 8..] == f(m)[8 * n + 8..]
    ensures InBuffer(f(m + 1), n) == Wrapped(x, s, m + 1)
  {
    var i := Register(m + 1, n) + 1;
    NextStep(c, n, f, m, i);
    StepInBuffer(x, c, f(m), n, i, m + 1);
    WrappedStep(x, s, InBuffer(f(m), n), m);
  }

  // The steps on the buffer are the steps on the registers in it.
  lemma TraceInBuffer(x: Mixer, c: Cipher<byte>, n: nat, f: nat -> seq<byte>, m: nat)
    requires Mixes(x, c) && Inverts(x) && Trace(c, n, f)
    ensures |f(0)| >= 8 * n + 8 && |f(m)| >= 8 * n + 8 && f(m)[8 * n + 8..] == f(0)[8 * n + 8..]
    ensures InBuffer(f(m), n) == Wrapped(x, InBuffer(f(0), n), m)
  {
    OnTrace(c, n, f, 0);
    RegistersIn(f(0), n);
    for k := 0 to m
      invariant |f(k)| >= 8 * n + 8 && f(k)[8 * n + 8..] == f(0)[8 * n + 8..]
      invariant InBuffer(f(k), n) == Wrapped(x, InBuffer(f(0), n), k)
    {
      NextWrapped(x, c, n, f, k, InBuffer(f(0), n));
    }
  }

  // B := E(A | R[i]); t := t + 1; A := MSB(B) xor t; R[i] := LSB(B)
  method ForwardStep(c: Cipher<byte>, buf: array<byte>, t: array<byte>, i: nat, ghost m: nat, ghost e: seq<byte>)
    requires Lawful(c) && c.size == 16 && buf != t && |buf[..]| >= 8 * i + 8 && 0 < i && t.Length == 8
    requires t[..] == Be(t.Length, m) && e == StepBuffer(c, buf[..], i, m + 1)
    modifies buf, t
    ensures t[..] == Be(t.Length, m + 1) && buf[..] == e
  {
    ghost var d := buf[..];
    assert buf[..8] == d[..8] && buf[8 * i..8 * i + 8] == d[8 * i..8 * i + 8];
    var b := Enc(c, buf[..8] + buf[8 * i..8 * i + 8]);
    IncOfBe(t.Length, m);
    IncCtr(t, 8);
    assert t[..] == t[..8] && old(t[..8]) == old(t[..]);
    Copy(buf, 0, XorSeq(c, b[..8], t[..]));
    Copy(buf, 8 * i, b[8..]);
  }

  // Within a round the steps take the registers in turn.
  lemma {:induction false} InTurn(j: nat, n: nat, i: nat)
    requires n > 0 && i < n
    ensures Register(Rounds(j, n) + i + 1, n) == i
  {
    if j > 0 {
      InTurn(j - 1, n, i);
    }
  }

  lemma TurnOf(j: nat, n: nat, i: nat, k: nat)
    requires 0 < i <= n && k == Rounds(j, n) + i
    ensures Register(k, n) == i - 1
  {
    InTurn(j, n, i - 1);
  }

  lemma SixRounds(n: nat)
    ensures Rounds(6, n) == 6 * n && Rounds(0, n) == 0
  {
    assert Rounds(1, n) == n && Rounds(2, n) == 2 * n && Rounds(3, n) == 3 * n;
    assert Rounds(4, n) == 4 * n && Rounds(5, n) == 5 * n;
  }

  method ForwardOne(c: Cipher<byte>, buf: array<byte>, t: array<byte>, i: nat,
                    ghost n: nat, ghost f: nat -> seq<byte>, ghost k: nat) returns (ghost next: nat)
    requires Trace(c, n, f) && buf != t && t.Length == 8
    requires 0 < i <= n && Register(k + 1, n) == i - 1
    requires t[..] == Be(t.Length, k) && buf[..] == f(k)
    modifies buf, t
    ensures next == k + 1 && t[..] == Be(t.Length, next) && buf[..] == f(next)
  {
    next := k + 1;
    NextStep(c, n, f, k, i);
    ForwardStep(c, buf, t, i, k, f(next));
  }

  method ForwardRound(c: Cipher<byte>, buf: array<byte>, t: array<byte>, n: nat, ghost f: nat -> seq<byte>, ghost j: nat)
    requires Trace(c, n, f) && buf != t && t.Length == 8
    requires t[..] == Be(t.Length, Rounds(j, n)) && buf[..] == f(Rounds(j, n))
    modifies buf, t
    ensures t[..] == Be(t.Length, Rounds(j + 1, n)) && buf[..] == f(Rounds(j + 1, n))
  {
    ghost var k := Rounds(j, n);
    var i := 1;
    while i <= n
      invariant 1 <= i <= n + 1 && k + 1 == Rounds(j, n) + i && t[..] == Be(t.Length, k) && buf[..] == f(k)
    {
      TurnOf(j, n, i, k + 1);
      k := ForwardOne(c, buf, t, i, n, f, k);
      i := i + 1;
    }
  }

  method ForwardLoops(c: Cipher<byte>, buf: array<byte>, n: nat, ghost f: nat -> seq<byte>)
    requires Trace(c, n, f) && buf[..] == f(0)
    modifies buf
    ensures buf[..] == f(6 * n)
  {
    var t := new byte[8](i => 0);
    ZeroOfBe(t.Length);
    SixRounds(n);
    for j := 0 to 6
      invariant t[..] == Be(t.Length, Rounds(j, n)) && buf[..] == f(Rounds(j, n))
    {
      ForwardRound(c, buf, t, n, f, j);
    }
  }

  lemma Pieces(u: seq<byte>, v: seq<byte>, w: seq<byte>, k: nat, m: nat)
    requires k == |u| && m == k + |v|
    ensures var e := u + v + w; e[..k] == u && e[k..m] == v && e[m..] == w
  {
  }

  lemma PutPieces(u: seq<byte>, v: seq<byte>, w: seq<byte>, k: nat, m: nat)
    requires k == |u| && m == k + |v| <= k + |w|
    ensures Put(u + w, k, v) == u + v + (u + w)[m..]
  {
    PutParts(u + w, k, v);
    assert (u + w)[..k] == u;
  }

  lemma PlacedAfter(d: seq<byte>, iv: seq<byte>, data: seq<byte>, m: nat, e: seq<byte>)
    requires |iv| == 8 && m == 8 + |data| <= |d| && e == Put(Put(d, 0, iv), 8, data)
    ensures |e| == |d| && e[..8] == iv && e[8..m] == data && e[m..] == d[m..]
  {
    PutFront(d, iv, m);
    var d1 := Put(d, 0, iv);
    assert d1 == iv + d1[8..];
    PutPieces(iv, data, d1[8..], 8, m);
    Pieces(iv, data, d1[m..], 8, m);
  }

  lemma WrapEnds(x: Mixer, c: Cipher<byte>, iv: seq<byte>, data: seq<byte>, n: nat, f: nat -> seq<byte>, m: nat)
    requires Mixes(x, c) && Inverts(x) && |iv| == 8 && |data| == 8 * n && n >= 2 && Trace(c, n, f) && m == 6 * n
    requires |f(0)| >= 8 * n + 8 && f(0)[..8] == iv && f(0)[8..8 * n + 8] == data
    ensures |f(m)| >= 8 * n + 8 && WrapWith(x, iv, data, f(m)[..8 * n + 8]) && f(m)[8 * n + 8..] == f(0)[8 * n + 8..]
  {
    TraceInBuffer(x, c, n, f, m);
    var w := f(m)[..8 * n + 8];
    assert w[..8] == f(m)[..8] && w[8..] == f(m)[8..8 * n + 8];
  }

  // The initial value, then the data; the two buffers may be one.
  method Load(iv: seq<byte>, outbuf: array<byte>, inbuf: array<byte>, len: nat)
    requires |iv| == 8 && 16 <= len <= inbuf.Length && outbuf.Length >= len + 8
    modifies outbuf
    ensures outbuf[..][..8] == iv && outbuf[..][8..len + 8] == Seen(iv, old(inbuf[..len]), inbuf == outbuf)
    ensures outbuf[..][len + 8..] == old(outbuf[..])[len + 8..]
  {
    ghost var d := outbuf[..];
    Copy(outbuf, 0, iv);
    var data := inbuf[..len];
    SeenAfter(d, old(inbuf[..len]), iv, inbuf == outbuf, data, outbuf[..]);
    Copy(outbuf, 8, data);
    PlacedAfter(d, iv, data, len + 8, outbuf[..]);
  }

  // Past the tests on the lengths
  method WrapBody(ghost x: Mixer, c: Cipher<byte>, iv: seq<byte>, outbuf: array<byte>, inbuf: array<byte>, n: nat, len: nat)
    requires Mixes(x, c) && Inverts(x) && |iv| == 8 && n >= 2 && len == 8 * n <= inbuf.Length && outbuf.Length >= len + 8
    modifies outbuf
    ensures WrapWith(x, iv, Seen(iv, old(inbuf[..len]), inbuf == outbuf), outbuf[..][..len + 8])
    ensures outbuf[..][len + 8..] == old(outbuf[..][len + 8..])
  {
    ghost var data := Seen(iv, inbuf[..len], inbuf == outbuf);
    Load(iv, outbuf, inbuf, len);
    ghost var f := TraceExists(c, outbuf[..], n);
    ForwardLoops(c, outbuf, n, f);
    WrapEnds(x, c, iv, data, n, f, 6 * n);
  }

  // What memmove reads after the initial value is written
  lemma SeenAfter(d: seq<byte>, before: seq<byte>, iv: seq<byte>, same: bool, data: seq<byte>, e: seq<byte>)
    requires |iv| == 8 && |before| + 8 <= |d| && |before| >= 8 && e == Put(d, 0, iv)
    requires if same then before == d[..|before|] && data == e[..|before|] else data == before
    ensures data == Seen(iv, before, same)
  {
    PutParts(d, 0, iv);
  }

  // _gcry_cipher_aeswrap_encrypt
  method Wrap(c: Cipher<byte>, iv: Option<seq<byte>>, outbuf: array<byte>, inbuf: array<byte>, len: nat) returns (code: Code)
    requires Lawful(c) && len <= inbuf.Length && |Initial(iv)| == 8
    modifies outbuf
    ensures code == (if c.size != 16 then INV_LENGTH
                     else if outbuf.Length < len + 8 then BUFFER_TOO_SHORT
                     else if len % 8 != 0 || len < 16 then INV_ARG else OK)
    ensures code != OK ==> outbuf[..] == old(outbuf[..])
    ensures code == OK ==>
              && IsWrap(c, Initial(iv), Seen(Initial(iv), old(inbuf[..len]), inbuf == outbuf), outbuf[..][..len + 8])
              && outbuf[..][len + 8..] == old(outbuf[..][len + 8..])
  {
    if c.size != 16 { return INV_LENGTH; }
    if outbuf.Length < len + 8 { return BUFFER_TOO_SHORT; }
    if len % 8 != 0 { return INV_ARG; }
    var n := len / 8;
    if n < 2 { return INV_ARG; }
    WrapBody(MixerOf(c), c, Initial(iv), outbuf, inbuf, n, len);
    return OK;
  }

  // Wrapping in place wraps the right data exactly when it starts with the initial value.
  lemma InPlace(c: Cipher<byte>, iv: seq<byte>, d: seq<byte>, w: seq<byte>)
    requires Lawful(c) && c.size == 16 && |iv| == 8 && IsWrap(c, iv, Seen(iv, d, true), w) && |d| >= 16
    ensures IsWrap(c, iv, d, w) <==> d[..8] == iv
  {
    var e := Seen(iv, d, true);
    assert d == d[..8] + d[8..] && e[..8] == iv;
    if IsWrap(c, iv, d, w) {
      WrapUnique(c, iv, d, w, e, w);
    }
  }

  // Sixteen zero octets are wrapped wrongly in place, whatever the cipher.
  lemma ZerosInPlace(c: Cipher<byte>, w: seq<byte>)
    requires Lawful(c) && c.size == 16 && IsWrap(c, STANDARD_IV, Seen(STANDARD_IV, Zeros16(), true), w)
    ensures !IsWrap(c, STANDARD_IV, Zeros16(), w)
  {
    InPlace(c, STANDARD_IV, Zeros16(), w);
    assert Zeros16()[..8][0] != STANDARD_IV[0];
  }

  function Zeros16(): (d: seq<byte>)
    ensures |d| == 16 && d[0] == 0
  {
    seq(16, i => 0)
  }

  // ----------------------------------------------------------- unwrapping

  // The code keeps A apart from R[1] to R[n] here.
  function BackBuffer(c: Cipher<byte>, a: seq<byte>, d: seq<byte>, i: nat, t: nat): (r: (seq<byte>, seq<byte>))
    requires Lawful(c) && c.size == 16 && |a| == 8 && 0 < i && 8 * i <= |d|
    ensures |r.0| == 8 && |r.1| == |d|
  {
    var b := Unmix(c, t, a, d[8 * (i - 1)..8 * i]);
    (b.0, Put(d, 8 * (i - 1), b.1))
  }

  // m steps are left on the way to the state s.
  ghost predicate Left(x: Mixer, a: seq<byte>, d: seq<byte>, s: State, n: nat, m: nat, tail: seq<byte>)
    requires Inverts(x)
  {
    n > 0 && |a| == 8 && |d| >= 8 * n && d[8 * n..] == tail && Unwrapped(x, Cut(a, d[..8 * n]), m) == s
  }

  lemma BackWrites(d: seq<byte>, n: nat, i: nat, b: seq<byte>)
    requires |d| >= 8 * n && 0 < i <= n && |b| == 8
    ensures i - 1 < |Blocks(d[..8 * n])| && Blocks(d[..8 * n])[i - 1] == d[8 * (i - 1)..8 * i]
    ensures var e := Put(d, 8 * (i - 1), b); Blocks(e[..8 * n]) == Blocks(d[..8 * n])[i - 1 := b] && e[8 * n..] == d[8 * n..]
  {
    BlockAt(d[..8 * n], i - 1);
    SliceOfSlice(d, 0, 8 * n, 8 * (i - 1), 8 * i);
    PutInside(d, 0, 8 * n, 8 * (i - 1), b);
    BlocksPut(d[..8 * n], i - 1, b);
  }

  lemma StepLeft(x: Mixer, c: Cipher<byte>, a: seq<byte>, d: seq<byte>, i: nat, s: State, n: nat, m: nat, tail: seq<byte>)
    requires Mixes(x, c) && Inverts(x) && Left(x, a, d, s, n, m + 1, tail)
    requires 0 < i <= n && Register(m + 1, n) == i - 1
    ensures var (a1, d1) := BackBuffer(c, a, d, i, m + 1); Left(x, a1, d1, s, n, m, tail)
  {
    var r := d[8 * (i - 1)..8 * i];
    assert Step(m + 1, a, r);
    var b := Unmix(c, m + 1, a, r);
    BackWrites(d, n, i, b.1);
    var was, now := Cut(a, d[..8 * n]), Cut(b.0, Put(d, 8 * (i - 1), b.1)[..8 * n]);
    assert now == Backward(x, was, i - 1, m + 1);
    UnwrappedStep(x, was, now, m);
  }

  method BackwardStep(c: Cipher<byte>, a: array<byte>, buf: array<byte>, t: array<byte>, i: nat, ghost m: nat)
    requires Lawful(c) && c.size == 16 && a != buf && a != t && buf != t
    requires a.Length == t.Length == 8 && buf.Length >= 8 * i && 0 < i && t[..] == Be(t.Length, m + 1)
    modifies a, buf, t
    ensures t[..] == Be(t.Length, m)
    ensures a[..] == BackBuffer(c, old(a[..]), old(buf[..]), i, m + 1).0
    ensures buf[..] == BackBuffer(c, old(a[..]), old(buf[..]), i, m + 1).1
  {
    ghost var d := buf[..];
    assert buf[8 * (i - 1)..8 * i] == d[8 * (i - 1)..8 * i];
    var b := Dec(c, XorSeq(c, a[..], t[..]) + buf[8 * (i - 1)..8 * i]);
    DecOfBe(t.Length, m);
    DecCtr(t, 8);
    assert t[..] == t[..8] && old(t[..8]) == old(t[..]);
    Replace(a, b[..8]);
    Copy(buf, 8 * (i - 1), b[8..]);
  }

  method BackwardOne(ghost x: Mixer, c: Cipher<byte>, a: array<byte>, buf: array<byte>, t: array<byte>, i: nat,
                     ghost s: State, ghost n: nat, ghost k: nat, ghost tail: seq<byte>) returns (ghost next: nat)
    requires Mixes(x, c) && Inverts(x) && a != buf && a != t && buf != t && a.Length == t.Length == 8
    requires 0 < i <= n && k > 0 && Register(k, n) == i - 1
    requires t[..] == Be(t.Length, k) && Left(x, a[..], buf[..], s, n, k, tail)
    modifies a, buf, t
    ensures next == k - 1 && t[..] == Be(t.Length, next) && Left(x, a[..], buf[..], s, n, next, tail)
  {
    next := k - 1;
    StepLeft(x, c, a[..], buf[..], i, s, n, next, tail);
    BackwardStep(c, a, buf, t, i, next);
  }

  method BackwardRound(ghost x: Mixer, c: Cipher<byte>, a: array<byte>, buf: array<byte>, t: array<byte>, n: nat,
                       ghost s: State, ghost j: nat, ghost tail: seq<byte>)
    requires Mixes(x, c) && Inverts(x)
    requires a != buf && a != t && buf != t && a.Length == t.Length == 8
    requires t[..] == Be(t.Length, Rounds(j + 1, n)) && Left(x, a[..], buf[..], s, n, Rounds(j + 1, n), tail)
    modifies a, buf, t
    ensures t[..] == Be(t.Length, Rounds(j, n)) && Left(x, a[..], buf[..], s, n, Rounds(j, n), tail)
  {
    var i := n;
    ghost var k := Rounds(j + 1, n);
    while i >= 1
      invariant 0 <= i <= n && k == Rounds(j, n) + i && t[..] == Be(t.Length, k) && Left(x, a[..], buf[..], s, n, k, tail)
    {
      TurnOf(j, n, i, k);
      k := BackwardOne(x, c, a, buf, t, i, s, n, k, tail);
      i := i - 1;
    }
  }

  method BackwardLoops(ghost x: Mixer, c: Cipher<byte>, a: array<byte>, buf: array<byte>, n: nat, ghost s: State, ghost tail: seq<byte>)
    requires Mixes(x, c) && Inverts(x)
    requires a != buf && a.Length == 8 && Left(x, a[..], buf[..], s, n, 6 * n, tail)
    modifies a, buf
    ensures Left(x, a[..], buf[..], s, n, 0, tail)
  {
    var t := SetCounter(6 * n);
    SixRounds(n);
    var j := 6;
    while j > 0
      invariant 0 <= j <= 6 && t[..] == Be(t.Length, Rounds(j, n)) && Left(x, a[..], buf[..], s, n, Rounds(j, n), tail)
    {
      j := j - 1;
      BackwardRound(x, c, a, buf, t, n, s, j, tail);
    }
  }

  // The octet a shift by 8 x brings down
  function Octet(v: nat, x: nat): byte
  {
    if x == 0 then v % 256 else Octet(v / 256, x - 1)
  }

  lemma {:induction false} BeFront(x: nat, v: nat)
    ensures Be(x + 1, v) == [Octet(v, x)] + Be(x, v)
  {
    if x > 0 {
      BeFront(x - 1, v / 256);
    }
  }

  method SetCounter(v: nat) returns (t: array<byte>)
    ensures fresh(t) && t.Length == 8 && t[..] == Be(t.Length, v)
  {
    t := new byte[8](i => 0);
    for x := 0 to 8
      invariant t[8 - x..] == Be(x, v)
    {
      BeFront(x, v);
      ghost var low := t[8 - x..];
      t[7 - x] := Octet(v, x);
      assert t[8 - (x + 1)..] == [t[7 - x]] + low;
    }
    assert t[..] == t[0..];
  }

  // Save A, and copy the registers to the output, which may be the input.
  method Split(outbuf: array<byte>, inbuf: array<byte>, len: nat) returns (a: array<byte>)
    requires 8 <= len <= inbuf.Length && len <= outbuf.Length + 8
    modifies outbuf
    ensures fresh(a) && a.Length == 8 && a[..] == old(inbuf[..len])[..8]
    ensures outbuf[..] == Put(old(outbuf[..]), 0, old(inbuf[..len])[8..])
  {
    a := new byte[8](i => 0);
    Replace(a, inbuf[..8]);
    assert inbuf[8..len] == inbuf[..len][8..] && inbuf[..8] == inbuf[..len][..8];
    Copy(outbuf, 0, inbuf[8..len]);
  }

  lemma UnwrapStarts(x: Mixer, a: seq<byte>, e: seq<byte>, rest: seq<byte>, n: nat)
    requires Inverts(x) && |a| == 8 && n >= 2 && |rest| == 8 * n && |e| >= 8 * n && e[..8 * n] == rest
    ensures |Blocks(rest)| == n && Left(x, a, e, Unwrapped(x, Cut(a, rest), 6 * n), n, 6 * n, e[8 * n..])
  {
  }

  lemma UnwrapEnds(x: Mixer, iv: seq<byte>, a: seq<byte>, d: seq<byte>, w: seq<byte>, n: nat, tail: seq<byte>)
    requires Inverts(x) && |iv| == 8 && n >= 2 && |w| == 8 * n + 8
    requires |Blocks(w[8..])| == n && Left(x, a, d, Unwrapped(x, Cut(w[..8], w[8..]), 6 * n), n, 0, tail)
    ensures |d| >= 8 * n && d[8 * n..] == tail
    ensures a == iv ==> WrapWith(x, iv, d[..8 * n], w)
    ensures a != iv ==> forall e :: !WrapWith(x, iv, e, w)
  {
    CutBack(x, iv, d[..8 * n], w, n);
    forall e | WrapWith(x, iv, e, w) ensures a == iv {
      CutBack(x, iv, e, w, n);
    }
  }

  method Recover(ghost x: Mixer, c: Cipher<byte>, iv: seq<byte>, a: array<byte>, buf: array<byte>, n: nat,
                 ghost w: seq<byte>, ghost tail: seq<byte>) returns (good: bool)
    requires Mixes(x, c) && Inverts(x) && |iv| == 8 && |w| == 8 * n + 8 && n >= 2 && a != buf && a.Length == 8
    requires |Blocks(w[8..])| == n && Left(x, a[..], buf[..], Unwrapped(x, Cut(w[..8], w[8..]), 6 * n), n, 6 * n, tail)
    modifies a, buf
    ensures buf.Length >= 8 * n && buf[..][8 * n..] == tail
    ensures good ==> WrapWith(x, iv, buf[..][..8 * n], w)
    ensures !good ==> forall d :: !WrapWith(x, iv, d, w)
  {
    BackwardLoops(x, c, a, buf, n, Unwrapped(x, Cut(w[..8], w[8..]), 6 * n), tail);
    UnwrapEnds(x, iv, a[..], buf[..], w, n, tail);
    good := a[..] == iv;
  }

  method UnwrapBody(ghost x: Mixer, c: Cipher<byte>, iv: seq<byte>, outbuf: array<byte>, inbuf: array<byte>, n: nat, len: nat) returns (good: bool)
    requires Mixes(x, c) && Inverts(x) && |iv| == 8 && n >= 2 && len == 8 * n + 8 <= inbuf.Length && outbuf.Length + 8 >= len
    modifies outbuf
    ensures outbuf[..][len - 8..] == old(outbuf[..][len - 8..])
    ensures good ==> WrapWith(x, iv, outbuf[..][..len - 8], old(inbuf[..len]))
    ensures !good ==> forall d :: !WrapWith(x, iv, d, old(inbuf[..len]))
  {
    ghost var w, d := inbuf[..len], outbuf[..];
    var a := Split(outbuf, inbuf, len);
    PutFront(d, w[8..], 8 * n);
    ghost var e := outbuf[..];
    UnwrapStarts(x, w[..8], e, w[8..], n);
    good := Recover(x, c, iv, a, outbuf, n, w, e[8 * n..]);
  }

  // _gcry_cipher_aeswrap_decrypt: success exactly on what wrapping makes
  method Unwrap(c: Cipher<byte>, iv: Option<seq<byte>>, outbuf: array<byte>, inbuf: array<byte>, len: nat) returns (code: Code)
    requires Lawful(c) && len <= inbuf.Length && |Initial(iv)| == 8
    modifies outbuf
    ensures code == INV_LENGTH <==> c.size != 16
    ensures code == BUFFER_TOO_SHORT <==> c.size == 16 && outbuf.Length + 8 < len
    ensures code == INV_ARG <==> c.size == 16 && outbuf.Length + 8 >= len && (len % 8 != 0 || len < 24)
    ensures code == OK ==>
              && IsWrap(c, Initial(iv), outbuf[..][..len - 8], old(inbuf[..len]))
              && outbuf[..][len - 8..] == old(outbuf[..][len - 8..])
    ensures code == CHECKSUM ==> forall d :: !IsWrap(c, Initial(iv), d, old(inbuf[..len]))
  {
    if c.size != 16 { return INV_LENGTH; }
    if outbuf.Length + 8 < len { return BUFFER_TOO_SHORT; }
    if len % 8 != 0 { return INV_ARG; }
    var n := len / 8;
    if n < 3 { return INV_ARG; }
    var good := UnwrapBody(MixerOf(c), c, Initial(iv), outbuf, inbuf, n - 1, len);
    code := if good then OK else CHECKSUM;
  }

  lemma TakeAll(d: seq<byte>, n: nat)
    requires n == |d|
    ensures d[..n] == d
  {
  }

  method WrapAll(c: Cipher<byte>, iv: Option<seq<byte>>, data: array<byte>, len: nat) returns (w: array<byte>)
    requires Lawful(c) && c.size == 16 && |Initial(iv)| == 8 && len >= 16 && len % 8 == 0 && data.Length == len
    ensures fresh(w) && IsWrap(c, Initial(iv), data[..], w[..])
  {
    w := new byte[len + 8](i => 0);
    TakeAll(data[..], len);
    var code := Wrap(c, iv, w, data, len);
    TakeAll(w[..], len + 8);
  }

  lemma WrapLength(c: Cipher<byte>, iv: seq<byte>, d: seq<byte>, w: seq<byte>)
    requires Lawful(c) && c.size == 16 && |iv| == 8 && IsWrap(c, iv, d, w)
    ensures |w| % 8 == 0 && |w| >= 24 && |d| + 8 == |w|
  {
    LengthWith(MixerOf(c), iv, d, w);
  }

  lemma LengthWith(x: Mixer, iv: seq<byte>, d: seq<byte>, w: seq<byte>)
    requires Inverts(x) && |iv| == 8 && WrapWith(x, iv, d, w)
    ensures |w| % 8 == 0 && |w| >= 24 && |d| + 8 == |w|
  {
  }

  lemma OneResult(c: Cipher<byte>, iv: seq<byte>, d: seq<byte>, w: seq<byte>, b: seq<byte>, code: Code)
    requires Lawful(c) && c.size == 16 && |iv| == 8 && IsWrap(c, iv, d, w) && (code == OK || code == CHECKSUM)
    requires code == OK ==> IsWrap(c, iv, b, w)
    requires code == CHECKSUM ==> forall e :: !IsWrap(c, iv, e, w)
    ensures code == OK && b == d
  {
    if code == OK { WrapUnique(c, iv, d, w, b, w); }
  }

  method UnwrapAll(c: Cipher<byte>, iv: Option<seq<byte>>, w: array<byte>, len: nat, ghost d: seq<byte>) returns (code: Code, back: array<byte>)
    requires Lawful(c) && c.size == 16 && |Initial(iv)| == 8 && IsWrap(c, Initial(iv), d, w[..])
    requires w.Length == len && len % 8 == 0 && len >= 24
    ensures fresh(back) && code == OK && back[..] == d
  {
    back := new byte[len - 8](i => 0);
    TakeAll(w[..], len);
    code := Unwrap(c, iv, back, w, len);
    TakeAll(back[..], len - 8);
    OneResult(c, Initial(iv), d, w[..], back[..], code);
  }

  // Section 2.2 of RFC 3394 as one result: for two registers and more, unwrapping what
  // wrapping wrote succeeds and gives the key data.
  method WrapThenUnwrap(c: Cipher<byte>, iv: Option<seq<byte>>, data: array<byte>, len: nat) returns (code: Code, back: array<byte>)
    requires Lawful(c) && c.size == 16 && |Initial(iv)| == 8 && len >= 16 && len % 8 == 0 && data.Length == len
    ensures code == OK && back[..] == data[..]
  {
    var w := WrapAll(c, iv, data, len);
    WrapLength(c, Initial(iv), data[..], w[..]);
    code, back := UnwrapAll(c, iv, w, w.Length, data[..]);
  }
}
