// When exactly a message is put together, what of its characters a number in a fragment's
// header may consist of, and the instance tags a recipient reads there.
module FragmentExact {
  import opened Bytes
  import opened Fragment

  // ------------------------------------------------- when it is complete

  // All readable fragments from some message on, the last message being one of them, are
  // the pieces 1 to n of n.
  ghost predicate AllPieces(msgs: seq<string>, from: nat)
  {
    && from < |msgs| && Read(msgs[|msgs| - 1]).Fragment?
    && var ps := Pieces(msgs[from..]);
       ps.Some? && ps.value != [] && InOrder(ps.value, |ps.value|)
  }

  // All readable fragments from some message on are the first pieces of n.
  ghost predicate FirstPieces(msgs: seq<string>, from: nat, n: nat)
  {
    && from <= |msgs|
    && var ps := Pieces(msgs[from..]);
       ps.Some? && 0 < |ps.value| < n && InOrder(ps.value, n)
  }

  lemma LastPiece(msgs: seq<string>, from: nat)
    requires from < |msgs| && Pieces(msgs[from..]).Some?
    ensures var all, n := Pieces(msgs[from..]).value, |msgs| - 1;
            && Pieces(msgs[..n][from..]).Some?
            && match Read(msgs[n])
               case Plain => false
               case Ignored => all == Pieces(msgs[..n][from..]).value
               case Fragment(p) => all == Pieces(msgs[..n][from..]).value + [p]
  {
    var all := msgs[from..];
    assert all[..|all| - 1] == msgs[..|msgs| - 1][from..];
  }

  lemma RunLast(msgs: seq<string>)
    requires msgs != []
    ensures var (b, _) := Run(EMPTY, msgs[..|msgs| - 1]);
            var (c, x) := Accumulate(b, msgs[|msgs| - 1]);
            Run(EMPTY, msgs).0 == c && Run(EMPTY, msgs).1[|msgs| - 1] == x
  {
    var before, msg := msgs[..|msgs| - 1], msgs[|msgs| - 1];
    var (b, rs) := Run(EMPTY, before);
    var (c, x) := Accumulate(b, msg);
    assert before + [msg] == msgs;
    RunSnoc(EMPTY, before, msg, b, rs, c, x);
  }

  // The first pieces of n are held, ...
  lemma {:induction false} FirstPiecesHeld(msgs: seq<string>, from: nat, n: nat)
    requires FirstPieces(msgs, from, n)
    ensures var ps := Pieces(msgs[from..]).value;
            Run(EMPTY, msgs).0 == Acc(Join(ps), n, |ps|)
    decreases |msgs|
  {
    var ps := Pieces(msgs[from..]).value;
    assert from < |msgs|;
    LastPiece(msgs, from);
    RunLast(msgs);
    var before, msg := msgs[..|msgs| - 1], msgs[|msgs| - 1];
    if Read(msg).Ignored? {
      FirstPiecesHeld(before, from, n);
    } else {
      var qs, p := Pieces(before[from..]).value, Read(msg).piece;
      InOrderSnoc(qs, p, n);
      if qs != [] { FirstPiecesHeld(before, from, n); }
      TakeNextPiece(Run(EMPTY, before).0, qs, p, n);
    }
  }

  lemma InOrderSnoc(qs: seq<Piece>, p: Piece, n: nat)
    requires InOrder(qs + [p], n)
    ensures InOrder(qs, n) && p.k == |qs| + 1 && p.n == n
  {
    assert (qs + [p])[|qs|] == p && forall i :: 0 <= i < |qs| ==> (qs + [p])[i] == qs[i];
  }

  lemma TakeNextPiece(a: Acc, qs: seq<Piece>, p: Piece, n: nat)
    requires p.k == |qs| + 1 && p.n == n && (qs != [] ==> a == Acc(Join(qs), n, |qs|))
    ensures Take(a, p) == Acc(Join(qs + [p]), n, |qs| + 1)
  {
    JoinMore(qs, p);
    if qs == [] {
      assert [] + p.text == p.text;
    }
  }

  // ... and the last one completes them, whatever came before and was ignored in between.
  lemma AllPiecesComplete(msgs: seq<string>, from: nat)
    requires AllPieces(msgs, from)
    ensures Run(EMPTY, msgs).1[|msgs| - 1] == COMPLETE(Join(Pieces(msgs[from..]).value))
  {
    var ps := Pieces(msgs[from..]).value;
    LastPiece(msgs, from);
    RunLast(msgs);
    var before, p := msgs[..|msgs| - 1], Read(msgs[|msgs| - 1]).piece;
    var qs := Pieces(before[from..]).value;
    InOrderSnoc(qs, p, |ps|);
    if qs != [] { FirstPiecesHeld(before, from, |ps|); }
    TakeNextPiece(Run(EMPTY, before).0, qs, p, |ps|);
  }

  lemma OnlyLast(msgs: seq<string>) returns (from: nat)
    requires msgs != [] && Run(EMPTY, msgs).1[|msgs| - 1].COMPLETE?
    ensures AllPieces(msgs, from) && Run(EMPTY, msgs).1[|msgs| - 1] == COMPLETE(Join(Pieces(msgs[from..]).value))
  {
    from := OnlyComplete(msgs);
    RunLast(msgs);
    var f := OnlyComplete(msgs[..|msgs| - 1]);
  }

  // After any messages the last one is called unfragmented exactly when it is no fragment,
  // and complete exactly when all readable fragments from some message on are the pieces 1
  // to n of n, the last message being piece n; then what is returned is their text.  The
  // context holds something exactly when the first pieces of some message wait for the rest.
  lemma CompleteExactly(msgs: seq<string>)
    requires msgs != []
    ensures var (a, rs) := Run(EMPTY, msgs);
            && (rs[|msgs| - 1] == UNFRAGMENTED <==> Read(msgs[|msgs| - 1]) == Plain)
            && (rs[|msgs| - 1].COMPLETE? <==> exists from: nat :: AllPieces(msgs, from))
            && (forall from: nat :: AllPieces(msgs, from) ==> rs[|msgs| - 1] == COMPLETE(Join(Pieces(msgs[from..]).value)))
            && (a != EMPTY <==> exists from: nat, n: nat :: FirstPieces(msgs, from, n))
            && (forall from: nat, n: nat :: FirstPieces(msgs, from, n) ==>
                  a == Acc(Join(Pieces(msgs[from..]).value), n, |Pieces(msgs[from..]).value|))
  {
    var (a, rs) := Run(EMPTY, msgs);
    RunLast(msgs);
    var _ := OnlyComplete(msgs);
    if rs[|msgs| - 1].COMPLETE? { var from := OnlyLast(msgs); }
    forall from: nat | AllPieces(msgs, from) ensures rs[|msgs| - 1] == COMPLETE(Join(Pieces(msgs[from..]).value)) {
      AllPiecesComplete(msgs, from);
    }
    if a != EMPTY {
      var from: nat :| Holds(a, msgs, from);
      assert FirstPieces(msgs, from, a.n);
    }
    forall from: nat, n: nat | FirstPieces(msgs, from, n)
      ensures a == Acc(Join(Pieces(msgs[from..]).value), n, |Pieces(msgs[from..]).value|)
    {
      FirstPiecesHeld(msgs, from, n);
    }
  }

  // ------------------------------------------------------- what is readable

  // The value that digits spell
  function Spelt(ds: string, base: nat): nat
  {
    if ds == [] then 0 else Spelt(ds[..|ds| - 1], base) * base + DigitOf(ds[|ds| - 1])
  }

  function DigitOf(c: char): (d: nat)
    ensures HexDigit(c) ==> d < 16
  {
    if Digit(c) then c as int - '0' as int else if 'a' <= c <= 'f' then c as int - 'a' as int + 10
    else if 'A' <= c <= 'F' then c as int - 'A' as int + 10 else 0
  }

  predicate Spaces(s: string)
  {
    forall i :: 0 <= i < |s| ==> Space(s[i])
  }

  predicate AllDigits(s: string)
  {
    forall i :: 0 <= i < |s| ==> Digit(s[i])
  }

  lemma {:induction false} SpacesSkipped(sp: string, rest: string)
    requires Spaces(sp) && (rest == [] || !Space(rest[0]))
    ensures SkipSpace(sp + rest) == rest
    decreases |sp|
  {
    if sp == [] {
      assert [] + rest == rest;
    } else {
      assert (sp + rest)[1..] == sp[1..] + rest;
      SpacesSkipped(sp[1..], rest);
    }
  }

  lemma SpeltSnoc(xs: string, c: char, base: nat)
    ensures Spelt(xs + [c], base) == Spelt(xs, base) * base + DigitOf(c)
  {
    assert (xs + [c])[..|xs|] == xs;
  }

  lemma {:induction false} DigitsRead(xs: string, ds: string, rest: string)
    requires AllDigits(ds) && (rest == [] || !Digit(rest[0]))
    ensures Digits(Spelt(xs, 10), ds + rest) == (Spelt(xs + ds, 10), rest)
    decreases |ds|
  {
    if ds == [] {
      assert [] + rest == rest && xs + [] == xs;
    } else {
      assert (ds + rest)[1..] == ds[1..] + rest && xs + [ds[0]] + ds[1..] == xs + ds;
      SpeltSnoc(xs, ds[0], 10);
      DigitsRead(xs + [ds[0]], ds[1..], rest);
    }
  }

  // A number may follow spaces and a sign, and is taken modulo 2^16.
  lemma NumberRead(sp: string, sign: string, ds: string, rest: string)
    requires Spaces(sp) && sign in {"", "+", "-"} && ds != [] && AllDigits(ds) && (rest == [] || !Digit(rest[0]))
    ensures ScanDecimal(sp + (sign + (ds + rest))) ==
            Some(((if sign == "-" then 0 - Spelt(ds, 10) else Spelt(ds, 10)) % 65536, rest))
  {
    var u := ds + rest;
    var t := sign + u;
    assert u[0] == ds[0] && t[0] == (if sign == "" then u[0] else sign[0]);
    SpacesSkipped(sp, t);
    assert SkipSign(t) == u;
    assert [] + ds == ds;
    DigitsRead([], ds, rest);
    Negated(Spelt(ds, 10));
  }

  lemma Negated(v: nat)
    ensures (65536 - v % 65536) % 65536 == (0 - v) % 65536
  {
  }

  function Leading(s: string, p: char -> bool): (n: nat)
    ensures n <= |s| && (forall i :: 0 <= i < n ==> p(s[i])) && (n < |s| ==> !p(s[n]))
  {
    if s != [] && p(s[0]) then 1 + Leading(s[1..], p) else 0
  }

  lemma LeadingCut(s: string, p: char -> bool) returns (x: string, y: string)
    ensures s == x + y && (forall i :: 0 <= i < |x| ==> p(x[i])) && (y == [] || !p(y[0]))
  {
    var n := Leading(s, p);
    x, y := s[..n], s[n..];
  }

  // Nothing else is read as a number.
  lemma NumberOnly(s: string) returns (sp: string, sign: string, ds: string, rest: string)
    requires ScanDecimal(s).Some?
    ensures s == sp + (sign + (ds + rest))
    ensures Spaces(sp) && sign in {"", "+", "-"} && ds != [] && AllDigits(ds) && (rest == [] || !Digit(rest[0]))
  {
    var t;
    sp, t := LeadingCut(s, c => Space(c));
    SpacesSkipped(sp, t);
    sign := if t != [] && t[0] == '+' then "+" else if t != [] && t[0] == '-' then "-" else "";
    assert t == sign + SkipSign(t);
    ds, rest := LeadingCut(SkipSign(t), c => Digit(c));
    assert ds[0] == SkipSign(t)[0];
  }

  // A readable fragment has numbers below 2^16 in order, and a text without commas.
  lemma ReadableFragment(msg: string)
    requires Read(msg).Fragment?
    ensures var p := Read(msg).piece;
            0 < p.k <= p.n < 65536 && p.text != [] && ',' !in p.text
  {
  }

  // ------------------------------------------------------ tags in the header

  function HexDigits(acc: nat, s: string): nat
    decreases |s|
  {
    if s != [] && HexDigit(s[0]) then HexDigits(acc * 16 + DigitOf(s[0]), s[1..]) else acc
  }

  // %x: the value is cut to 32 bits.
  function ScanHexValue(s: string): Option<(nat, string)>
  {
    var rest :- ScanHex(s);
    var t := SkipSpace(s);
    var u := SkipSign(t);
    var v := HexDigits(0, if "0x" <= u || "0X" <= u then u[2..] else u);
    Some((if t != [] && t[0] == '-' then (TWO32 - v % TWO32) % TWO32 else v % TWO32, rest))
  }

  // "?OTR|%x|%x,": the tags of the sender and of the recipient
  function HeaderTags(msg: string): Option<(nat, nat)>
  {
    if !("?OTR|" <= msg) then None else
      var (sender, s) :- ScanHexValue(msg[5..]);
      var s :- Literal(s, '|');
      var (recipient, s) :- ScanHexValue(s);
      Some((sender, recipient))
  }

  lemma {:induction false} HexRead(xs: string, ds: string, rest: string)
    requires (forall i :: 0 <= i < |ds| ==> HexDigit(ds[i])) && (rest == [] || !HexDigit(rest[0]))
    ensures HexDigits(Spelt(xs, 16), ds + rest) == Spelt(xs + ds, 16)
    decreases |ds|
  {
    if ds == [] {
      assert [] + rest == rest && xs + [] == xs;
    } else {
      assert (ds + rest)[1..] == ds[1..] + rest && xs + [ds[0]] + ds[1..] == xs + ds;
      SpeltSnoc(xs, ds[0], 16);
      HexRead(xs + [ds[0]], ds[1..], rest);
    }
  }

  lemma {:induction false} PrintedSpelt(v: nat, base: nat, n: nat)
    requires 0 < base <= 16 && v < Power(base, n)
    ensures Spelt(Printed(v, base, n), base) == v
    decreases n
  {
    if n > 0 {
      Quotient(v, base, Power(base, n - 1));
      PrintedSpelt(v / base, base, n - 1);
      SpeltSnoc(Printed(v / base, base, n - 1), DigitChar(v % base), base);
    }
  }

  function Power(base: nat, n: nat): nat
  {
    if n == 0 then 1 else base * Power(base, n - 1)
  }

  lemma Quotient(v: nat, base: nat, p: nat)
    requires 0 < base && v < base * p
    ensures v / base < p && v / base * base + v % base == v
  {
  }

  lemma EightHex()
    ensures Power(16, 8) == TWO32
  {
    assert Power(16, 4) == 65536;
  }

  lemma TagRead(v: nat, rest: string)
    requires v < TWO32 && (rest == [] || !HexDigit(rest[0]))
    ensures ScanHexValue(Printed(v, 16, 8) + rest) == Some((v, rest))
  {
    var p := Printed(v, 16, 8);
    PrintedDigits(v, 16, 8);
    assert (p + rest)[0] == p[0] && (p + rest)[1] == p[1] && HexDigit(p[0]) && HexDigit(p[1]);
    ScanTag(v, rest);
    EightHex();
    PrintedSpelt(v, 16, 8);
    assert [] + p == p;
    HexRead([], p, rest);
    PlainHex(p + rest, rest, v);
  }

  lemma PlainHex(s: string, rest: string, v: nat)
    requires |s| >= 2 && HexDigit(s[0]) && HexDigit(s[1]) && ScanHex(s) == Some(rest) && HexDigits(0, s) == v < TWO32
    ensures ScanHexValue(s) == Some((v, rest))
  {
    assert SkipSpace(s) == s && SkipSign(s) == s;
  }

  // Numbers are printed in five decimal digits, tags in eight hexadecimal ones in lower case.
  lemma NumbersPrinted(v: nat)
    ensures v < 100000 ==> AllDigits(Printed(v, 10, 5)) && Spelt(Printed(v, 10, 5), 10) == v
    ensures v < TWO32 ==> Spelt(Printed(v, 16, 8), 16) == v
    ensures forall i :: 0 <= i < 8 ==> var c := Printed(v, 16, 8)[i]; Digit(c) || 'a' <= c <= 'f'
  {
    PrintedDigits(v, 10, 5);
    LowerCase(v, 8);
    EightHex();
    assert Power(10, 3) == 1000;
    if v < 100000 { PrintedSpelt(v, 10, 5); }
    if v < TWO32 { PrintedSpelt(v, 16, 8); }
  }

  lemma {:induction false} LowerCase(v: nat, n: nat)
    ensures forall i :: 0 <= i < n ==> var c := Printed(v, 16, n)[i]; Digit(c) || 'a' <= c <= 'f'
  {
    if n > 0 {
      LowerCase(v / 16, n - 1);
    }
  }

  // From every fragment of a version 3 context the recipient reads the instance tags the
  // sender's context holds: its own first.
  lemma TagsOfFragment(f: Format, k: nat, n: nat, text: string)
    requires f.version3 && f.auth3 && f.our < TWO32 && f.their < TWO32
    ensures HeaderTags(Shown(f, k, n, text)) == Some((f.our, f.their))
  {
    var s4 := Numbered(k, n, text);
    var s2 := Printed(f.their, 16, 8) + ("," + s4);
    var s0 := Printed(f.our, 16, 8) + ("|" + s2);
    var s := "?OTR|" + s0;
    assert "?OTR|" <= s && s[5..] == s0;
    TagRead(f.our, "|" + s2);
    LiteralIs('|', s2);
    TagRead(f.their, "," + s4);
  }
}
