// Multiplication in a binary field by shifting and adding, as section 6.3 of NIST SP
// 800-38D defines it, over any representation of the elements.
module Gf {

  // Addition with its zero, and multiplication by the polynomial x.
  datatype Ring<!V> = Ring(zero: V, xor: (V, V) -> V, shift: V -> V)

  predicate One<V>(a: V) { true }
  predicate Two<V>(a: V, b: V) { true }
  predicate Three<V>(a: V, b: V, c: V) { true }

  // Addition is an abelian group in which every element is its own inverse, and the
  // shift is additive.
  ghost predicate Laws<V(!new)>(r: Ring<V>)
  {
    && (forall a {:trigger One(a)} :: One(a) ==> r.xor(a, a) == r.zero && r.xor(a, r.zero) == a)
    && (forall a, b {:trigger Two(a, b)} :: Two(a, b) ==>
          r.xor(a, b) == r.xor(b, a) && r.shift(r.xor(a, b)) == r.xor(r.shift(a), r.shift(b)))
    && (forall a, b, c {:trigger Three(a, b, c)} :: Three(a, b, c) ==> r.xor(r.xor(a, b), c) == r.xor(a, r.xor(b, c)))
  }

  lemma Comm<V(!new)>(r: Ring<V>, a: V, b: V)
    requires Laws(r)
    ensures r.xor(a, b) == r.xor(b, a)
  {
    assert Two(a, b);
  }

  lemma Assoc<V(!new)>(r: Ring<V>, a: V, b: V, c: V)
    requires Laws(r)
    ensures r.xor(r.xor(a, b), c) == r.xor(a, r.xor(b, c))
  {
    assert Three(a, b, c);
  }

  lemma Zero<V(!new)>(r: Ring<V>, a: V)
    requires Laws(r)
    ensures r.xor(a, r.zero) == a && r.xor(r.zero, a) == a && r.xor(a, a) == r.zero
  {
    assert One(a);
    Comm(r, r.zero, a);
  }

  lemma ShiftAdds<V(!new)>(r: Ring<V>, a: V, b: V)
    requires Laws(r)
    ensures r.shift(r.xor(a, b)) == r.xor(r.shift(a), r.shift(b))
  {
    assert Two(a, b);
  }

  lemma ShiftZero<V(!new)>(r: Ring<V>)
    requires Laws(r)
    ensures r.shift(r.zero) == r.zero
  {
    ShiftAdds(r, r.zero, r.zero);
    Zero(r, r.zero);
    Zero(r, r.shift(r.zero));
  }

  lemma Swap<V(!new)>(r: Ring<V>, a: V, b: V, c: V, d: V)
    requires Laws(r)
    ensures r.xor(r.xor(a, b), r.xor(c, d)) == r.xor(r.xor(a, c), r.xor(b, d))
  {
    Assoc(r, a, b, r.xor(c, d));
    Assoc(r, b, c, d);
    Comm(r, b, c);
    Assoc(r, c, b, d);
    Assoc(r, a, c, r.xor(b, d));
  }

  // ------------------------------------------------------- multiplication

  function Times<V>(r: Ring<V>, bit: bool, v: V): V
  {
    if bit then v else r.zero
  }

  // The bits of one factor, the first for x^0, select shifts of the other.
  function Mul<V>(r: Ring<V>, bits: seq<bool>, v: V): V
  {
    if bits == [] then r.zero else r.xor(Times(r, bits[0], v), Mul(r, bits[1..], r.shift(v)))
  }

  lemma {:induction false} MulShift<V(!new)>(r: Ring<V>, bits: seq<bool>, v: V)
    requires Laws(r)
    ensures Mul(r, bits, r.shift(v)) == r.shift(Mul(r, bits, v))
  {
    ShiftZero(r);
    if bits != [] {
      MulShift(r, bits[1..], r.shift(v));
      ShiftAdds(r, Times(r, bits[0], v), Mul(r, bits[1..], r.shift(v)));
    }
  }

  // Horner's form.
  lemma Horner<V(!new)>(r: Ring<V>, bits: seq<bool>, v: V)
    requires Laws(r) && bits != []
    ensures Mul(r, bits, v) == r.xor(Times(r, bits[0], v), r.shift(Mul(r, bits[1..], v)))
  {
    MulShift(r, bits[1..], v);
  }

  lemma TimesAdds<V(!new)>(r: Ring<V>, bit: bool, a: V, b: V)
    requires Laws(r)
    ensures Times(r, bit, r.xor(a, b)) == r.xor(Times(r, bit, a), Times(r, bit, b))
  {
    Zero(r, r.zero);
  }

  lemma {:induction false} MulAdds<V(!new)>(r: Ring<V>, bits: seq<bool>, a: V, b: V)
    requires Laws(r)
    ensures Mul(r, bits, r.xor(a, b)) == r.xor(Mul(r, bits, a), Mul(r, bits, b))
  {
    if bits == [] {
      Zero(r, r.zero);
    } else {
      ShiftAdds(r, a, b);
      MulAdds(r, bits[1..], r.shift(a), r.shift(b));
      TimesAdds(r, bits[0], a, b);
      Swap(r, Times(r, bits[0], a), Times(r, bits[0], b),
           Mul(r, bits[1..], r.shift(a)), Mul(r, bits[1..], r.shift(b)));
    }
  }

  lemma {:induction false} MulZero<V(!new)>(r: Ring<V>, bits: seq<bool>)
    requires Laws(r)
    ensures Mul(r, bits, r.zero) == r.zero
  {
    if bits != [] {
      ShiftZero(r);
      MulZero(r, bits[1..]);
      Zero(r, r.zero);
    }
  }

  // Two multiplications commute.
  lemma {:induction false} MulMul<V(!new)>(r: Ring<V>, bs: seq<bool>, cs: seq<bool>, v: V)
    requires Laws(r)
    ensures Mul(r, bs, Mul(r, cs, v)) == Mul(r, cs, Mul(r, bs, v))
  {
    if bs == [] {
      MulZero(r, cs);
    } else {
      MulShift(r, cs, v);
      MulMul(r, bs[1..], cs, r.shift(v));
      MulAdds(r, cs, Times(r, bs[0], v), Mul(r, bs[1..], r.shift(v)));
      MulZero(r, cs);
    }
  }

  // Elements given by their bits: unit is the element of the first bit alone.
  ghost predicate Represents<V(!new)>(r: Ring<V>, bits: V -> seq<bool>, unit: V)
  {
    forall x {:trigger One(x)} :: One(x) ==> Mul(r, bits(x), unit) == x
  }

  function Product<V>(r: Ring<V>, bits: V -> seq<bool>, x: V, y: V): V
  {
    Mul(r, bits(x), y)
  }

  // It does not matter which factor's bits select shifts of which.
  lemma ProductCommutes<V(!new)>(r: Ring<V>, bits: V -> seq<bool>, unit: V, x: V, y: V)
    requires Laws(r) && Represents(r, bits, unit)
    ensures Product(r, bits, x, y) == Product(r, bits, y, x)
  {
    assert One(x) && One(y);
    MulMul(r, bits(x), bits(y), unit);
  }

  // ------------------------------------------------------------- by pieces

  function Shifts<V>(r: Ring<V>, n: nat, v: V): V
  {
    if n == 0 then v else Shifts(r, n - 1, r.shift(v))
  }

  lemma {:induction false} MulConcat<V(!new)>(r: Ring<V>, bs: seq<bool>, cs: seq<bool>, v: V)
    requires Laws(r)
    ensures Mul(r, bs + cs, v) == r.xor(Mul(r, bs, v), Mul(r, cs, Shifts(r, |bs|, v)))
  {
    if bs == [] {
      assert bs + cs == cs;
      Zero(r, Mul(r, cs, v));
    } else {
      assert (bs + cs)[1..] == bs[1..] + cs;
      MulConcat(r, bs[1..], cs, r.shift(v));
      Assoc(r, Times(r, bs[0], v), Mul(r, bs[1..], r.shift(v)), Mul(r, cs, Shifts(r, |bs|, v)));
    }
  }

  lemma {:induction false} MulShifts<V(!new)>(r: Ring<V>, bits: seq<bool>, n: nat, v: V)
    requires Laws(r)
    ensures Mul(r, bits, Shifts(r, n, v)) == Shifts(r, n, Mul(r, bits, v))
  {
    if n > 0 {
      MulShift(r, bits, v);
      MulShifts(r, bits, n - 1, r.shift(v));
    }
  }

  // Horner's form for whole pieces.
  lemma HornerPiece<V(!new)>(r: Ring<V>, bs: seq<bool>, cs: seq<bool>, v: V)
    requires Laws(r)
    ensures Mul(r, bs + cs, v) == r.xor(Mul(r, bs, v), Shifts(r, |bs|, Mul(r, cs, v)))
  {
    MulConcat(r, bs, cs, v);
    MulShifts(r, cs, |bs|, v);
  }

  lemma {:induction false} ShiftsSum<V(!new)>(r: Ring<V>, n: nat, m: nat, v: V)
    ensures Shifts(r, n + m, v) == Shifts(r, m, Shifts(r, n, v))
  {
    if n > 0 {
      ShiftsSum(r, n - 1, m, r.shift(v));
    }
  }

  // Bits of two disjoint selections added up.
  lemma {:induction false} MulEither<V(!new)>(r: Ring<V>, bs: seq<bool>, cs: seq<bool>, ds: seq<bool>, v: V)
    requires Laws(r) && |bs| == |cs| == |ds|
    requires forall i :: 0 <= i < |bs| ==> ds[i] == (bs[i] != cs[i])
    ensures Mul(r, ds, v) == r.xor(Mul(r, bs, v), Mul(r, cs, v))
  {
    if bs == [] {
      Zero(r, r.zero);
    } else {
      MulEither(r, bs[1..], cs[1..], ds[1..], r.shift(v));
      TimesEither(r, bs[0], cs[0], v);
      Swap(r, Times(r, bs[0], v), Times(r, cs[0], v), Mul(r, bs[1..], r.shift(v)), Mul(r, cs[1..], r.shift(v)));
    }
  }

  lemma TimesEither<V(!new)>(r: Ring<V>, b: bool, c: bool, v: V)
    requires Laws(r)
    ensures Times(r, b != c, v) == r.xor(Times(r, b, v), Times(r, c, v))
  {
    Zero(r, v);
    Zero(r, r.zero);
  }

  // Two bits and the rest.
  lemma MulTwo<V(!new)>(r: Ring<V>, c: bool, d: bool, rest: seq<bool>, v: V)
    ensures Mul(r, [c, d] + rest, v)
            == r.xor(Times(r, c, v), r.xor(Times(r, d, r.shift(v)), Mul(r, rest, r.shift(r.shift(v)))))
  {
    assert ([c, d] + rest)[1..] == [d] + rest;
    assert ([d] + rest)[1..] == rest;
  }

  // Two bits of two elements, and the rest.
  function Pair<V>(r: Ring<V>, c: bool, d: bool, v: V, w: V, rest: V): V
  {
    r.xor(Times(r, c, v), r.xor(Times(r, d, w), rest))
  }

  lemma MulFour<V(!new)>(r: Ring<V>, a: bool, b: bool, c: bool, d: bool, rest: seq<bool>, u: V, v: V, w: V, x: V, y: V)
    requires v == r.shift(u) && w == r.shift(v) && x == r.shift(w) && y == r.shift(x)
    ensures Mul(r, [a, b, c, d] + rest, u) == Pair(r, a, b, u, v, Pair(r, c, d, w, x, Mul(r, rest, y)))
  {
    assert [a, b, c, d] + rest == [a, b] + ([c, d] + rest);
    MulTwo(r, a, b, [c, d] + rest, u);
    MulTwo(r, c, d, rest, w);
  }

  // ------------------------------------------------- elements from octets

  predicate At<O>(n: nat, o: O) { true }

  // place(n, o) is octet o in place n of an element; its bits at the front are those of
  // the octet, and eight shifts move it one place on.
  ghost predicate Placing<V(!new), O(!new)>(r: Ring<V>, bitsOf: O -> seq<bool>, place: (nat, O) -> V, unit: V)
  {
    && (forall o {:trigger One(o)} :: One(o) ==> |bitsOf(o)| == 8 && Mul(r, bitsOf(o), unit) == place(0, o))
    && (forall n: nat, o {:trigger At(n, o)} :: At(n, o) && n < 15 ==> Shifts(r, 8, place(n, o)) == place(n + 1, o))
  }

  lemma {:induction false} PlacedAt<V(!new), O(!new)>(r: Ring<V>, bitsOf: O -> seq<bool>, place: (nat, O) -> V, unit: V, n: nat, o: O)
    requires Laws(r) && Placing(r, bitsOf, place, unit) && n < 16
    ensures Mul(r, bitsOf(o), Shifts(r, 8 * n, unit)) == place(n, o)
  {
    assert One(o);
    if n > 0 {
      assert At(n - 1, o);
      PlacedAt(r, bitsOf, place, unit, n - 1, o);
      ShiftsSum(r, 8 * (n - 1), 8, unit);
      MulShifts(r, bitsOf(o), 8, Shifts(r, 8 * (n - 1), unit));
    }
  }

  function AllBits<O>(bitsOf: O -> seq<bool>, os: seq<O>): seq<bool>
  {
    if os == [] then [] else bitsOf(os[0]) + AllBits(bitsOf, os[1..])
  }

  // The sum of octets in their places from n on.
  function PlaceAll<V, O>(r: Ring<V>, place: (nat, O) -> V, os: seq<O>, n: nat): V
  {
    if os == [] then r.zero else r.xor(place(n, os[0]), PlaceAll(r, place, os[1..], n + 1))
  }

  // The polynomial that the bits of some octets spell is the sum of the octets in their
  // places.
  lemma {:induction false} BitsSpell<V(!new), O(!new)>(r: Ring<V>, bitsOf: O -> seq<bool>, place: (nat, O) -> V, unit: V, os: seq<O>, n: nat)
    requires Laws(r) && Placing(r, bitsOf, place, unit) && n + |os| <= 16
    ensures Mul(r, AllBits(bitsOf, os), Shifts(r, 8 * n, unit)) == PlaceAll(r, place, os, n)
    decreases |os|
  {
    if os != [] {
      assert One(os[0]);
      MulConcat(r, bitsOf(os[0]), AllBits(bitsOf, os[1..]), Shifts(r, 8 * n, unit));
      ShiftsSum(r, 8 * n, 8, unit);
      PlacedAt(r, bitsOf, place, unit, n, os[0]);
      BitsSpell(r, bitsOf, place, unit, os[1..], n + 1);
    }
  }
}
