// The lengths cipher-cbc.c accepts, and how it counts blocks.
module CbcLengths {
  import opened Cbc
  import opened ModArith

  datatype Code = OK | BUFFER_TOO_SHORT | INV_LENGTH

  // The whole blocks in len octets
  function Full(len: nat, s: nat): nat
    requires s > 0
  {
    if len < s then 0 else 1 + Full(len - s, s)
  }

  lemma {:induction false} FullFits(len: nat, s: nat)
    requires s > 0
    ensures Span(Full(len, s), s) <= len < Span(Full(len, s), s) + s
  {
    if len >= s {
      FullFits(len - s, s);
    }
  }

  lemma {:induction false} FullUnique(len: nat, s: nat, n: nat)
    requires s > 0 && Span(n, s) <= len < Span(n, s) + s
    ensures Full(len, s) == n
  {
    if len >= s {
      FullUnique(len - s, s, n - 1);
    }
  }

  lemma {:induction false} SpanProduct(n: nat, s: nat)
    ensures Span(n, s) == n * s
  {
    if n > 0 {
      SpanProduct(n - 1, s);
      MulDistr(n - 1, 1, s);
    }
  }

  predicate Whole(len: nat, s: nat)
    requires s > 0
  {
    Span(Full(len, s), s) == len
  }

  predicate Admissible(len: nat, s: nat, cts: bool)
    requires s > 0
  {
    Whole(len, s) || (len > s && cts)
  }

  // Stealing leaves a last block, whole or not, and the one before it apart.
  predicate Steals(len: nat, s: nat, cts: bool)
  {
    cts && len > s
  }

  function Kept(len: nat, s: nat): nat
    requires s > 0
  {
    if len <= s + s then 0 else 1 + Kept(len - s, s)
  }

  lemma {:induction false} KeptFits(len: nat, s: nat)
    requires s > 0 && len > s
    ensures Span(Kept(len, s) + 1, s) < len <= Span(Kept(len, s) + 2, s)
  {
    if len > s + s {
      KeptFits(len - s, s);
      assert Span(Kept(len, s) + 2, s) == Span(Kept(len, s) + 1, s) + s;
    }
  }

  lemma {:induction false} KeptUnique(len: nat, s: nat, k: nat)
    requires s > 0 && Span(k + 1, s) < len <= Span(k + 2, s)
    ensures len > s && Kept(len, s) == k
  {
    if k > 0 {
      assert Span(k + 1, s) == Span(k, s) + s && Span(k + 2, s) == Span(k + 1, s) + s;
      KeptUnique(len - s, s, k - 1);
    }
  }

  // inbuflen / blocksize and inbuflen % blocksize
  method Divide(len: nat, s: nat) returns (n: nat, whole: bool)
    requires s > 0
    ensures n == Full(len, s) && whole == Whole(len, s)
  {
    n := len / s;
    whole := len % s == 0;
    ModDivision(len, s);
    SpanProduct(n, s);
    FullUnique(len, s, n);
  }

  // The blocks the code enciphers before it steals: one less when all are whole
  method FrontBlocks(len: nat, s: nat) returns (n: nat)
    requires s > 0 && len > s
    ensures n == Kept(len, s) + 1
  {
    var whole;
    n, whole := Divide(len, s);
    FullFits(len, s);
    if whole { n := n - 1; }
    KeptUnique(len, s, n - 1);
  }
}
