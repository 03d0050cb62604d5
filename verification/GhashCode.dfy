// The GHASH routines of cipher-gcm.c as they update their tables and buffers: filling
// the table of multiples, one block with the tables, one block bit by bit.
module GhashCode {
  import opened Words
  import opened Gf
  import opened GcmTable
  import opened Ghash

  function XorOctet(a: bv8, b: bv8): bv8 { a ^ b }

  // buf_xor
  function XorBlock(a: seq<bv8>, b: seq<bv8>): (c: seq<bv8>)
    requires |a| == |b|
    ensures |c| == |a|
  {
    seq(|a|, i requires 0 <= i < |a| => XorOctet(a[i], b[i]))
  }

  // One step of GHASH, Y -> (Y + X) H, as section 6.4 of NIST SP 800-38D has it: the
  // bits of Y + X select shifts of H.
  function GhashStep(h: seq<bv8>, y: seq<bv8>, x: seq<bv8>): seq<bv8>
    requires |h| == 16 && |y| == 16 && |x| == 16
  {
    Store(Mul(Ops(), Bits(XorBlock(y, x)), Load(h)))
  }

  // ------------------------------------------------- the table of multiples

  // Element g times the polynomial a nibble spells.
  function Multiple<V>(r: Ring<V>, n: nat, g: V): V
  {
    Mul(r, NibbleBits(n), g)
  }

  lemma MultipleZero<V(!new)>(r: Ring<V>, g: V)
    requires Laws(r)
    ensures Multiple(r, 0, g) == r.zero && Multiple(r, 8, g) == g
  {
    NoBits(r, 3, r.shift(g));
    NoBits(r, 4, g);
    assert NibbleBits(8)[1..] == Falses(3) && NibbleBits(0) == Falses(4);
    Zero(r, g);
  }

  function Falses(n: nat): (s: seq<bool>)
    ensures |s| == n && forall i :: 0 <= i < n ==> !s[i]
  {
    if n == 0 then [] else [false] + Falses(n - 1)
  }

  lemma {:induction false} NoBits<V(!new)>(r: Ring<V>, n: nat, g: V)
    requires Laws(r)
    ensures Mul(r, Falses(n), g) == r.zero
  {
    if n > 0 {
      NoBits(r, n - 1, r.shift(g));
      Zero(r, r.zero);
    }
  }

  // A zero bit at either end.
  lemma ZeroInFront<V(!new)>(r: Ring<V>, c: seq<bool>, g: V)
    requires Laws(r)
    ensures Mul(r, [false] + c, g) == r.shift(Mul(r, c, g))
  {
    assert ([false] + c)[1..] == c;
    Horner(r, [false] + c, g);
    Zero(r, r.shift(Mul(r, c, g)));
  }

  lemma ZeroBehind<V(!new)>(r: Ring<V>, c: seq<bool>, g: V)
    requires Laws(r)
    ensures Mul(r, c + [false], g) == Mul(r, c, g)
  {
    MulConcat(r, c, [false], g);
    assert [false] == Falses(1);
    NoBits(r, 1, Shifts(r, |c|, g));
    Zero(r, Mul(r, c, g));
  }

  lemma MultipleHalf<V(!new)>(r: Ring<V>, i: nat, g: V)
    requires Laws(r) && (i == 1 || i == 2 || i == 4)
    ensures Multiple(r, i, g) == r.shift(Multiple(r, 2 * i, g))
  {
    var c := if i == 1 then [false, false, true] else if i == 2 then [false, true, false] else [true, false, false];
    if i == 1 {
      assert NibbleBits(2) == c + [false] && NibbleBits(1) == [false] + c;
    } else if i == 2 {
      assert NibbleBits(4) == c + [false] && NibbleBits(2) == [false] + c;
    } else {
      assert NibbleBits(8) == c + [false] && NibbleBits(4) == [false] + c;
    }
    ZeroInFront(r, c, g);
    ZeroBehind(r, c, g);
  }

  lemma MultipleAdds<V(!new)>(r: Ring<V>, i: nat, j: nat, g: V)
    requires Laws(r) && (i == 2 || i == 4 || i == 8) && 0 < j < i
    ensures Multiple(r, i + j, g) == r.xor(Multiple(r, i, g), Multiple(r, j, g))
  {
    if i == 2 { } else if i == 4 { } else { }
    MulEither(r, NibbleBits(i), NibbleBits(j), NibbleBits(i + j), g);
  }

  // Entries 4, 2 and 1 of the table by halving.
  method FillPowers<V(!new)>(r: Ring<V>, M: array<V>, ghost g: V)
    requires Laws(r) && M.Length == 16 && M[0] == Multiple(r, 0, g) && M[8] == Multiple(r, 8, g)
    modifies M
    ensures M[0] == Multiple(r, 0, g) && M[1] == Multiple(r, 1, g) && M[2] == Multiple(r, 2, g)
    ensures M[4] == Multiple(r, 4, g) && M[8] == Multiple(r, 8, g)
  {
    var i := 4;
    while i > 0
      invariant i == 4 || i == 2 || i == 1 || i == 0
      invariant M[0] == Multiple(r, 0, g) && M[8] == Multiple(r, 8, g)
      invariant i < 4 ==> M[4] == Multiple(r, 4, g)
      invariant i < 2 ==> M[2] == Multiple(r, 2, g)
      invariant i < 1 ==> M[1] == Multiple(r, 1, g)
    {
      MultipleHalf(r, i, g);
      M[i] := r.shift(M[2 * i]);
      i := i / 2;
    }
  }

  // The entries between one power of two and the next.
  method FillBetween<V(!new)>(r: Ring<V>, M: array<V>, i: nat, ghost g: V)
    requires Laws(r) && M.Length == 16 && (i == 2 || i == 4 || i == 8)
    requires M[i] == Multiple(r, i, g) && forall n :: 0 <= n < i ==> M[n] == Multiple(r, n, g)
    modifies M
    ensures forall n :: 0 <= n < 2 * i ==> M[n] == Multiple(r, n, g)
    ensures forall n :: 2 * i <= n < 16 ==> M[n] == old(M[n])
  {
    for j := 1 to i
      invariant forall n :: 0 <= n < i + j ==> M[n] == Multiple(r, n, g)
      invariant forall n :: 2 * i <= n < 16 ==> M[n] == old(M[n])
    {
      MultipleAdds(r, i, j, g);
      M[i + j] := r.xor(M[i], M[j]);
    }
  }

  // do_fillM, from the loaded subkey on
  method FillMultiples<V(!new)>(r: Ring<V>, g: V) returns (M: array<V>)
    requires Laws(r)
    ensures fresh(M) && M.Length == 16
    ensures forall n :: 0 <= n < 16 ==> M[n] == Multiple(r, n, g)
  {
    M := new V[16](i => r.zero);
    M[8] := g;
    MultipleZero(r, g);
    FillPowers(r, M, g);
    FillBetween(r, M, 2, g);
    FillBetween(r, M, 4, g);
    FillBetween(r, M, 8, g);
  }

  // do_fillM
  method FillM(h: seq<bv8>) returns (M: array<Elt>)
    requires |h| == 16
    ensures fresh(M) && M.Length == 16
    ensures forall n :: 0 <= n < 16 ==> M[n] == Multiple(Ops(), n, Load(h))
  {
    OpsLawful();
    M := FillMultiples(Ops(), Load(h));
  }

  // --------------------------------------------------- a block with the tables

  // The words of a table entry moved down four bits, and those of tmp moved down
  // eight, with the reductions looked up.
  function Down4(v: Elt): Elt
  {
    Elt(Xor(Shr4(v.w0), Shl16(GcmR(LowNibble(v.w3), 0))), Mix4(v.w0, v.w1), Mix4(v.w1, v.w2), Mix4(v.w2, v.w3))
  }

  function Down8(v: Elt): Elt
  {
    Elt(Xor(Shr8(v.w0), Shl16(GcmR(NextNibble(v.w3), LowNibble(v.w3)))), Mix8(v.w0, v.w1), Mix8(v.w1, v.w2), Mix8(v.w2, v.w3))
  }

  lemma DownShifts(v: Elt)
    ensures Down4(v) == Shifts(Ops(), 4, v) && Down8(v) == Shifts(Ops(), 8, v)
  {
    TableRed4(v.w3);
    TableRed8(v.w3);
    Shifts4(v);
    Shifts8(v);
  }

  // Both nibbles of an octet, and the octets behind it.
  lemma OctetStep(b: bv8, rest: seq<bv8>, h: Elt, tmp: Elt)
    requires tmp == Mul(Ops(), Bits(rest), h)
    ensures Mul(Ops(), Bits([b] + rest), h)
            == X(X(Shifts(Ops(), 8, tmp), Multiple(Ops(), FirstHalf(b), h)), Shifts(Ops(), 4, Multiple(Ops(), SecondHalf(b), h)))
  {
    OpsLawful();
    var s, p, q := Shifts(Ops(), 8, tmp), Multiple(Ops(), FirstHalf(b), h), Shifts(Ops(), 4, Multiple(Ops(), SecondHalf(b), h));
    assert ([b] + rest)[1..] == rest;
    HornerPiece(Ops(), OctetBits(b), Bits(rest), h);
    HalvesOfOctet(b);
    HornerPiece(Ops(), NibbleBits(FirstHalf(b)), NibbleBits(SecondHalf(b)), h);
    Rotate(s, p, q);
  }

  lemma Rotate(s: Elt, p: Elt, q: Elt)
    ensures X(X(p, q), s) == X(X(s, p), q)
  {
    XLaws(X(p, q), s, s);
    XLaws(s, p, q);
  }

  // One octet of the block: both its nibbles.
  method OctetIn(b: bv8, ghost rest: seq<bv8>, M: array<Elt>, ghost g: Elt, tmp0: Elt) returns (tmp: Elt)
    requires M.Length == 16 && forall n :: 0 <= n < 16 ==> M[n] == Multiple(Ops(), n, g)
    requires tmp0 == Mul(Ops(), Bits(rest), g)
    ensures tmp == Mul(Ops(), Bits([b] + rest), g)
  {
    OctetStep(b, rest, g, tmp0);
    DownShifts(tmp0);
    DownShifts(M[SecondHalf(b)]);
    tmp := X(Down8(tmp0), M[FirstHalf(b)]);
    tmp := X(tmp, Down4(M[SecondHalf(b)]));
  }

  // do_ghash with the tables
  method GhashTable(result: array<bv8>, buf: seq<bv8>, M: array<Elt>, ghost h: seq<bv8>)
    requires result.Length == 16 && |buf| == 16 && M.Length == 16 && |h| == 16
    requires forall n :: 0 <= n < 16 ==> M[n] == Multiple(Ops(), n, Load(h))
    modifies result
    ensures result[..] == GhashStep(h, old(result[..]), buf)
  {
    var tmp := Octets16(XorBlock(result[..], buf), M, Load(h));
    PutBlock(result, Store(tmp));
  }

  // The loop over the octets of the block, from the last.
  method Octets16(V: seq<bv8>, M: array<Elt>, ghost g: Elt) returns (tmp: Elt)
    requires |V| == 16 && M.Length == 16 && forall n :: 0 <= n < 16 ==> M[n] == Multiple(Ops(), n, g)
    ensures tmp == Mul(Ops(), Bits(V), g)
  {
    var i := 15;
    tmp := FirstStep(V[15], M, g);
    ghost var rest := [V[15]];
    while i > 0
      invariant 0 <= i <= 15 && rest == V[i..]
      invariant tmp == Mul(Ops(), Bits(rest), g)
    {
      i := i - 1;
      tmp := OctetIn(V[i], rest, M, g, tmp);
      rest := [V[i]] + rest;
    }
    assert rest == V;
  }

  method PutBlock(result: array<bv8>, out: seq<bv8>)
    requires result.Length == |out|
    modifies result
    ensures result[..] == out
  {
    forall k | 0 <= k < |out| {
      result[k] := out[k];
    }
  }

  // The first round, with tmp zero.
  method FirstStep(v: bv8, M: array<Elt>, ghost g: Elt) returns (tmp: Elt)
    requires M.Length == 16 && forall n :: 0 <= n < 16 ==> M[n] == Multiple(Ops(), n, g)
    ensures tmp == Mul(Ops(), Bits([v]), g)
  {
    tmp := X(Down4(M[SecondHalf(v)]), M[FirstHalf(v)]);
    FirstStepRight(v, g);
    DownShifts(M[SecondHalf(v)]);
    assert [v] == [v] + [];
  }

  lemma FirstStepRight(v: bv8, g: Elt)
    ensures Mul(Ops(), Bits([v] + []), g) == X(Shifts(Ops(), 4, Multiple(Ops(), SecondHalf(v), g)), Multiple(Ops(), FirstHalf(v), g))
  {
    var p, q := Multiple(Ops(), FirstHalf(v), g), Shifts(Ops(), 4, Multiple(Ops(), SecondHalf(v), g));
    OctetStep(v, [], g, ZERO);
    OpsLawful();
    ShiftZero(Ops());
    ZeroShifts(8);
    XSame(p);
    XLaws(ZERO, p, q);
    XLaws(q, p, p);
  }

  lemma {:induction false} ZeroShifts(n: nat)
    ensures Shifts(Ops(), n, ZERO) == ZERO
  {
    if n > 0 {
      OpsLawful();
      ShiftZero(Ops());
      ZeroShifts(n - 1);
    }
  }

  // ------------------------------------------------------ a block bit by bit

  // do_ghash without tables: V is shifted under the bits of the hash subkey.
  method GhashBits(hsub: seq<bv8>, result: array<bv8>, buf: seq<bv8>)
    requires |hsub| == 16 && result.Length == 16 && |buf| == 16
    modifies result
    ensures result[..] == GhashStep(hsub, old(result[..]), buf)
  {
    ghost var v0 := XorBlock(result[..], buf);
    var V := Load(XorBlock(result[..], buf));
    var T := ZERO;
    OpsLawful();
    Zero(Ops(), Mul(Ops(), Bits(hsub), V));
    for i := 0 to 16
      invariant X(T, Mul(Ops(), Bits(hsub[i..]), V)) == Mul(Ops(), Bits(hsub), Load(v0))
    {
      assert hsub[i..][1..] == hsub[i + 1..];
      T, V := OctetUnder(hsub[i], hsub[i + 1..], T, V);
      assert hsub[i..] == [hsub[i]] + hsub[i + 1..];
    }
    assert hsub[16..] == [];
    Zero(Ops(), T);
    FormsAgree(v0, hsub);
    PutBlock(result, Store(T));
  }

  // The inner loop, over the bits of one octet.
  method OctetUnder(b: bv8, ghost rest: seq<bv8>, T0: Elt, V0: Elt) returns (T: Elt, V: Elt)
    ensures X(T, Mul(Ops(), Bits(rest), V)) == X(T0, Mul(Ops(), Bits([b] + rest), V0))
  {
    T, V := T0, V0;
    ghost var all := OctetBits(b) + Bits(rest);
    assert ([b] + rest)[1..] == rest;
    OpsLawful();
    for j := 0 to 8
      invariant X(T, Mul(Ops(), all[j..], V)) == X(T0, Mul(Ops(), all, V0))
    {
      assert all[j..][1..] == all[j + 1..] && all[j] == OctetBits(b)[j];
      BitUnder(T, all[j..], V);
      if OctetBits(b)[j] {
        T := X(T, V);
      }
      V := Shift(V);
    }
    assert all[8..] == Bits(rest);
  }

  lemma BitUnder(T: Elt, bits: seq<bool>, V: Elt)
    requires bits != []
    ensures X(T, Mul(Ops(), bits, V)) == X(if bits[0] then X(T, V) else T, Mul(Ops(), bits[1..], Shift(V)))
  {
    var rest := Mul(Ops(), bits[1..], Shift(V));
    OpsLawful();
    XLaws(T, V, rest);
    Zero(Ops(), rest);
  }
}
