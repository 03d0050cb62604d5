// Big-endian counters kept in byte arrays: the message counters of dh.c and the
// step counter of the AES key wrap.
module Counters {
  import opened Bytes

  // Adding one with carry from the last octet; all-ones wraps to zero.
  function IncBe(s: seq<byte>): (t: seq<byte>)
    ensures |t| == |s|
  {
    if s == [] then [] else
      var last := s[|s| - 1];
      if last < 255 then s[..|s| - 1] + [last + 1] else IncBe(s[..|s| - 1]) + [0]
  }

  // Subtracting one with borrow.
  function DecBe(s: seq<byte>): (t: seq<byte>)
    ensures |t| == |s|
  {
    if s == [] then [] else
      var last := s[|s| - 1];
      if last > 0 then s[..|s| - 1] + [last - 1] else DecBe(s[..|s| - 1]) + [255]
  }

  lemma FromBeSnoc(s: seq<byte>, b: byte)
    ensures FromBe(s + [b]) == FromBe(s) * 256 + b
  {
    assert (s + [b])[..|s|] == s;
  }

  // The carry chain computes the successor modulo 256^n.
  lemma {:induction false} IncBeValue(s: seq<byte>)
    ensures FromBe(IncBe(s)) == (if FromBe(s) + 1 == Pow256(|s|) then 0 else FromBe(s) + 1)
  {
    if s != [] {
      var front, last := s[..|s| - 1], s[|s| - 1];
      IncBeValue(front);
      FromBeSnoc(front, if last < 255 then last + 1 else 0);
      FromBeSnoc(IncBe(front), 0);
    }
  }

  lemma {:induction false} IncOfBe(n: nat, v: nat)
    ensures IncBe(Be(n, v)) == Be(n, v + 1)
  {
    if n > 0 {
      IncOfBe(n - 1, v / 256);
      assert Be(n, v)[..n - 1] == Be(n - 1, v / 256);
    }
  }

  // The borrow chain undoes the carry chain.
  lemma {:induction false} DecIncBe(s: seq<byte>)
    ensures DecBe(IncBe(s)) == s
  {
    if s != [] {
      var front, last := s[..|s| - 1], s[|s| - 1];
      DecIncBe(front);
      assert front + [last] == s;
      if last < 255 {
        assert (front + [last + 1])[..|s| - 1] == front;
      } else {
        assert (IncBe(front) + [0])[..|s| - 1] == IncBe(front);
      }
    }
  }

  // otrl_dh_incctr over the first n octets of a buffer.
  method IncCtr(ctr: array<byte>, n: nat)
    requires n <= ctr.Length
    modifies ctr
    ensures ctr[..n] == IncBe(old(ctr[..n]))
    ensures ctr[n..] == old(ctr[n..])
  {
    var i := n;
    while i > 0
      invariant 0 <= i <= n
      invariant ctr[..i] == old(ctr[..i]) && ctr[n..] == old(ctr[n..])
      invariant forall k :: i <= k < n ==> ctr[k] == 0
      invariant IncBe(old(ctr[..n])) == IncBe(old(ctr[..i])) + ctr[i..n]
    {
      ghost var before := ctr[i..n];
      ghost var prefix := old(ctr[..i]);
      assert prefix[..i - 1] == old(ctr[..i - 1]) && prefix[i - 1] == ctr[i - 1];
      var octet: int := ctr[i - 1];
      ctr[i - 1] := (octet + 1) % 256;
      i := i - 1;
      assert ctr[i..n] == [ctr[i]] + before;
      if ctr[i] != 0 {
        assert IncBe(prefix) == old(ctr[..i]) + [ctr[i]];
        assert ctr[..n] == ctr[..i] + ctr[i..n];
        return;
      }
    }
    assert ctr[..n] == ctr[0..n];
  }

  method DecCtr(ctr: array<byte>, n: nat)
    requires n <= ctr.Length
    modifies ctr
    ensures ctr[..n] == DecBe(old(ctr[..n]))
    ensures ctr[n..] == old(ctr[n..])
  {
    var i := n;
    while i > 0
      invariant 0 <= i <= n
      invariant ctr[..i] == old(ctr[..i]) && ctr[n..] == old(ctr[n..])
      invariant DecBe(old(ctr[..n])) == DecBe(old(ctr[..i])) + ctr[i..n]
    {
      ghost var before := ctr[i..n];
      ghost var prefix := old(ctr[..i]);
      assert prefix[..i - 1] == old(ctr[..i - 1]) && prefix[i - 1] == ctr[i - 1];
      var octet: int := ctr[i - 1];
      ctr[i - 1] := (octet - 1) % 256;
      i := i - 1;
      assert ctr[i..n] == [ctr[i]] + before;
      if ctr[i] != 255 {
        assert DecBe(prefix) == old(ctr[..i]) + [ctr[i]];
        assert ctr[..n] == ctr[..i] + ctr[i..n];
        return;
      }
    }
    assert ctr[..n] == ctr[0..n];
  }

  // The first differing octet decides the order of two numbers.
  lemma {:induction false} FirstDifference(s: seq<byte>, t: seq<byte>, i: nat)
    requires i < |s| == |t| && s[..i] == t[..i] && s[i] < t[i]
    ensures FromBe(s) < FromBe(t)
  {
    if i < |s| - 1 {
      assert s[..|s| - 1][..i] == s[..i] && t[..|t| - 1][..i] == t[..i];
      FirstDifference(s[..|s| - 1], t[..|t| - 1], i);
    } else {
      assert s[..|s| - 1] == t[..|t| - 1];
    }
  }

  // otrl_dh_cmpctr: the sign of the result is the order of the two counters.
  method CmpCtr(ctr1: seq<byte>, ctr2: seq<byte>) returns (c: int)
    requires |ctr1| >= 8 && |ctr2| >= 8
    ensures c < 0 <==> FromBe(ctr1[..8]) < FromBe(ctr2[..8])
    ensures c > 0 <==> FromBe(ctr1[..8]) > FromBe(ctr2[..8])
  {
    for i := 0 to 8
      invariant ctr1[..i] == ctr2[..i]
    {
      var x: int, y: int := ctr1[i], ctr2[i];
      c := x - y;
      if c != 0 {
        ghost var s, t := ctr1[..8], ctr2[..8];
        assert s[..i] == ctr1[..i] && t[..i] == ctr2[..i];
        if c < 0 { FirstDifference(s, t, i); } else { FirstDifference(t, s, i); }
        return c;
      }
    }
    return 0;
  }
}
