// Fragmentation and reassembly of messages (proto.c, message.c).
module Fragment {
  import opened Bytes

  // ------------------------------------------------- reading with sscanf

  // One character of the format
  function Literal(s: string, c: char): Option<string>
  {
    if s != [] && s[0] == c then Some(s[1..]) else None
  }

  predicate Space(c: char)
  {
    c == ' ' || '\t' <= c <= '\r'
  }

  predicate Digit(c: char)
  {
    '0' <= c <= '9'
  }

  predicate HexDigit(c: char)
  {
    Digit(c) || 'a' <= c <= 'f' || 'A' <= c <= 'F'
  }

  function SkipSpace(s: string): string
  {
    if s != [] && Space(s[0]) then SkipSpace(s[1..]) else s
  }

  function SkipSign(s: string): string
  {
    if s != [] && (s[0] == '+' || s[0] == '-') then s[1..] else s
  }

  // The digits in front of s, added to a number
  function Digits(acc: nat, s: string): (nat, string)
    decreases |s|
  {
    if s != [] && Digit(s[0]) then Digits(acc * 10 + (s[0] as int - '0' as int), s[1..]) else (acc, s)
  }

  // %hu: the value is cut to 16 bits.
  function ScanDecimal(s: string): Option<(nat, string)>
  {
    var t := SkipSpace(s);
    var u := SkipSign(t);
    if u == [] || !Digit(u[0]) then None else
      var (v, rest) := Digits(0, u);
      Some((if t[0] == '-' then (65536 - v % 65536) % 65536 else v % 65536, rest))
  }

  function SkipHexDigits(s: string): string
  {
    if s != [] && HexDigit(s[0]) then SkipHexDigits(s[1..]) else s
  }

  // %*x
  function ScanHex(s: string): Option<string>
  {
    var t := SkipSign(SkipSpace(s));
    var u := if "0x" <= t || "0X" <= t then t[2..] else t;
    if u == [] || !HexDigit(u[0]) then None else Some(SkipHexDigits(u))
  }

  // %*[^,]
  function UpToComma(s: string): (r: string)
    ensures r <= s && ',' !in r
  {
    if s == [] || s[0] == ',' then [] else [s[0]] + UpToComma(s[1..])
  }

  datatype Piece = Piece(k: nat, n: nat, text: string)

  // "%hu,%hu,%n%*[^,],%n": the piece is what lies between the two positions.
  function ScanPiece(s: string): Option<Piece>
  {
    var (k, s) :- ScanDecimal(s);
    var s :- Literal(s, ',');
    var (n, s) :- ScanDecimal(s);
    var s :- Literal(s, ',');
    var text := UpToComma(s);
    if text == [] then None else
      var rest :- Literal(s[|text|..], ',');
      Some(Piece(k, n, text))
  }

  function ScanTagged(s: string): Option<Piece>
  {
    var s :- ScanHex(s);
    var s :- Literal(s, '|');
    var s :- ScanHex(s);
    var s :- Literal(s, ',');
    ScanPiece(s)
  }

  // What a message is taken for; a fragment that cannot be read, or whose numbers make
  // no sense, is ignored.
  datatype Incoming = Plain | Ignored | Fragment(piece: Piece)

  function Read(msg: string): Incoming
  {
    var tag3 := Find(msg, "?OTR|");
    var tag2 := Find(msg, "?OTR,");
    if tag3.None? && tag2.None? then Plain else
      var p := if tag3.Some? && |tag3.value| >= 5 then ScanTagged(tag3.value[5..])
               else if tag2.Some? && |tag2.value| >= 5 then ScanPiece(tag2.value[5..]) else None;
      if p.Some? && 0 < p.value.k <= p.value.n then Fragment(p.value) else Ignored
  }

  // -------------------------------------------------------- accumulating

  // fragment, fragment_n and fragment_k of context_priv
  datatype Acc = Acc(text: string, n: nat, k: nat)

  const EMPTY := Acc([], 0, 0)

  // Between calls
  predicate Waiting(a: Acc)
  {
    a.k < a.n || a == EMPTY
  }

  datatype Result = UNFRAGMENTED | INCOMPLETE | COMPLETE(text: string)

  function Finish(a: Acc): (Acc, Result)
  {
    if a.n > 0 && a.n == a.k then (EMPTY, COMPLETE(a.text)) else (a, INCOMPLETE)
  }

  function Take(a: Acc, p: Piece): Acc
  {
    if p.k == 1 then Acc(p.text, p.n, 1)
    else if p.n == a.n && p.k == a.k + 1 then Acc(a.text + p.text, a.n, p.k)
    else EMPTY
  }

  // otrl_proto_fragment_accumulate
  function Accumulate(a: Acc, msg: string): (Acc, Result)
  {
    match Read(msg)
    case Plain => (EMPTY, UNFRAGMENTED)
    case Ignored => Finish(a)
    case Fragment(p) => Finish(Take(a, p))
  }

  function Run(a: Acc, msgs: seq<string>): (r: (Acc, seq<Result>))
    ensures |r.1| == |msgs|
    decreases |msgs|
  {
    if msgs == [] then (a, []) else
      var (b, x) := Accumulate(a, msgs[0]);
      var (c, xs) := Run(b, msgs[1..]);
      (c, [x] + xs)
  }

  // ---------------------------------------- what a complete message is made of

  // The readable fragments among some messages; None when a message among them is none.
  function Pieces(msgs: seq<string>): Option<seq<Piece>>
  {
    if msgs == [] then Some([]) else
      var ps :- Pieces(msgs[..|msgs| - 1]);
      match Read(msgs[|msgs| - 1])
      case Plain => None
      case Ignored => Some(ps)
      case Fragment(p) => Some(ps + [p])
  }

  function Join(ps: seq<Piece>): string
  {
    if ps == [] then [] else Join(ps[..|ps| - 1]) + ps[|ps| - 1].text
  }

  // Pieces 1, 2, ..., of n
  predicate InOrder(ps: seq<Piece>, n: nat)
  {
    forall i :: 0 <= i < |ps| ==> ps[i].k == i + 1 && ps[i].n == n
  }

  // The text held is that of all readable fragments since some message, the first of them
  // being piece 1; between calls a message is never complete.
  ghost predicate Held(a: Acc, msgs: seq<string>, from: nat)
  {
    && from <= |msgs| && a.k > 0
    && var ps := Pieces(msgs[from..]);
       ps.Some? && |ps.value| == a.k && InOrder(ps.value, a.n) && Join(ps.value) == a.text
  }

  ghost predicate Holds(a: Acc, msgs: seq<string>, from: nat)
  {
    Held(a, msgs, from) && a.k < a.n
  }

  ghost predicate AccOK(a: Acc, msgs: seq<string>)
  {
    a == EMPTY || exists from: nat :: Holds(a, msgs, from)
  }

  // A message that came back complete: all readable fragments since some message, nothing
  // else in between, numbered 1 to n in order.
  ghost predicate Complete(text: string, msgs: seq<string>, from: nat)
  {
    && from <= |msgs|
    && var ps := Pieces(msgs[from..]);
       ps.Some? && ps.value != [] && InOrder(ps.value, |ps.value|) && Join(ps.value) == text
  }

  lemma PiecesMore(msgs: seq<string>, from: nat, msg: string)
    requires from <= |msgs| && Pieces(msgs[from..]).Some?
    ensures var ps := Pieces(msgs[from..]).value;
            Pieces((msgs + [msg])[from..]) == match Read(msg) case Plain => None case Ignored => Some(ps) case Fragment(p) => Some(ps + [p])
  {
    var all := (msgs + [msg])[from..];
    assert all == msgs[from..] + [msg] && all[..|all| - 1] == msgs[from..];
  }

  lemma PiecesOne(msgs: seq<string>, msg: string, p: Piece)
    requires Read(msg) == Fragment(p)
    ensures Pieces((msgs + [msg])[|msgs|..]) == Some([p])
  {
    assert msgs[|msgs|..] == [] && [] + [p] == [p];
    PiecesMore(msgs, |msgs|, msg);
  }

  lemma JoinMore(ps: seq<Piece>, p: Piece)
    ensures Join(ps + [p]) == Join(ps) + p.text
  {
    assert (ps + [p])[..|ps|] == ps;
  }

  lemma JoinOne(p: Piece)
    ensures Join([p]) == p.text
  {
    assert [p][..0] == [];
  }

  lemma TakeFirst(a: Acc, msgs: seq<string>, msg: string, p: Piece)
    requires Read(msg) == Fragment(p) && p.k == 1
    ensures Held(Take(a, p), msgs + [msg], |msgs|)
  {
    PiecesOne(msgs, msg, p);
    JoinOne(p);
  }

  lemma TakeNext(a: Acc, msgs: seq<string>, msg: string, p: Piece, from: nat)
    requires Read(msg) == Fragment(p) && p.k != 1 && p.n == a.n && p.k == a.k + 1 && Held(a, msgs, from)
    ensures Held(Take(a, p), msgs + [msg], from)
  {
    PiecesMore(msgs, from, msg);
    JoinMore(Pieces(msgs[from..]).value, p);
  }

  // Taking a piece, before looking whether the message is complete
  lemma TakeHolds(a: Acc, msgs: seq<string>, msg: string, p: Piece) returns (from: nat)
    requires AccOK(a, msgs) && Read(msg) == Fragment(p)
    ensures Take(a, p) == EMPTY || (Held(Take(a, p), msgs + [msg], from) && Take(a, p).k <= Take(a, p).n)
  {
    from := |msgs|;
    if p.k == 1 {
      TakeFirst(a, msgs, msg, p);
    } else if p.n == a.n && p.k == a.k + 1 {
      from :| Holds(a, msgs, from);
      TakeNext(a, msgs, msg, p, from);
    }
  }

  // One call keeps the invariant, and what it calls complete is whole.
  lemma AccumulateKeeps(a: Acc, msgs: seq<string>, msg: string) returns (from: nat)
    requires AccOK(a, msgs)
    ensures var (b, res) := Accumulate(a, msg);
            AccOK(b, msgs + [msg]) && (res.COMPLETE? ==> Complete(res.text, msgs + [msg], from))
  {
    from := 0;
    match Read(msg)
    case Plain =>
    case Ignored =>
      if a != EMPTY {
        from :| Holds(a, msgs, from);
        PiecesMore(msgs, from, msg);
        assert Holds(a, msgs + [msg], from);
      }
    case Fragment(p) =>
      from := TakeHolds(a, msgs, msg, p);
      var t := Take(a, p);
      if t != EMPTY && t.k < t.n {
        assert Holds(t, msgs + [msg], from);
      }
  }

  lemma RunFirst(a: Acc, msgs: seq<string>)
    requires msgs != []
    ensures var (b, x) := Accumulate(a, msgs[0]);
            var (c, xs) := Run(b, msgs[1..]);
            Run(a, msgs) == (c, [x] + xs)
  {
  }

  lemma {:induction false} RunSnoc(a: Acc, msgs: seq<string>, msg: string, b: Acc, rs: seq<Result>, c: Acc, x: Result)
    requires Run(a, msgs) == (b, rs) && Accumulate(b, msg) == (c, x)
    ensures Run(a, msgs + [msg]) == (c, rs + [x])
    decreases |msgs|
  {
    if msgs == [] {
      assert [msg][1..] == [] && msgs + [msg] == [msg];
      RunFirst(a, [msg]);
      assert Run(c, []) == (c, []) && [x] + [] == [] + [x];
    } else {
      var (d, y) := Accumulate(a, msgs[0]);
      var (e, ys) := Run(d, msgs[1..]);
      assert (msgs + [msg])[1..] == msgs[1..] + [msg];
      RunSnoc(d, msgs[1..], msg, b, ys, c, x);
      RunFirst(a, msgs + [msg]);
      assert [y] + (ys + [x]) == [y] + ys + [x];
    }
  }

  // Whatever arrives, in any order, with loss, repetition and junk: between calls nothing
  // complete is held, and a message is called complete only when the readable fragments
  // since some message are the pieces 1 to n, in order and without anything else.
  lemma {:induction false} OnlyComplete(msgs: seq<string>) returns (from: nat)
    ensures var (a, rs) := Run(EMPTY, msgs);
            && AccOK(a, msgs) && Waiting(a)
            && (msgs != [] && rs[|msgs| - 1].COMPLETE? ==> Complete(rs[|msgs| - 1].text, msgs, from))
    decreases |msgs|
  {
    from := 0;
    if msgs != [] {
      var before, msg := msgs[..|msgs| - 1], msgs[|msgs| - 1];
      var f := OnlyComplete(before);
      assert before + [msg] == msgs;
      var (b, rs) := Run(EMPTY, before);
      var (c, x) := Accumulate(b, msg);
      RunSnoc(EMPTY, before, msg, b, rs, c, x);
      from := AccumulateKeeps(b, before, msg);
    }
  }

  // ------------------------------------------------------------ creating

  // %05hu and %08x: the low digits of v in a base up to 16
  function DigitChar(d: nat): (c: char)
    requires d < 16
    ensures d < 10 ==> Digit(c) && c as int - '0' as int == d
    ensures HexDigit(c)
  {
    if d < 10 then ('0' as int + d) as char else ('a' as int + d - 10) as char
  }

  function Printed(v: nat, base: nat, n: nat): (s: string)
    requires 0 < base <= 16
    ensures |s| == n
  {
    if n == 0 then [] else Printed(v / base, base, n - 1) + [DigitChar(v % base)]
  }

  // The version and the instance tags of the context, and the version of its auth, which
  // alone decides the form of the header.
  datatype Format = Format(version3: bool, auth3: bool, our: nat, their: nat)

  // The context reckons without the tags that its auth prints.
  predicate Mismatch(f: Format)
  {
    f.auth3 && !f.version3
  }

  function HeaderLen(f: Format): nat
  {
    if f.version3 then 37 else 19
  }

  // "%05hu,%05hu,%s,"
  function Numbered(k: nat, n: nat, text: string): (s: string)
    ensures |s| == 13 + |text|
  {
    Printed(k, 10, 5) + ("," + (Printed(n, 10, 5) + ("," + (text + ","))))
  }

  // "?OTR,..." or "?OTR|%08x|%08x,..."
  function Whole(f: Format, k: nat, n: nat, text: string): (s: string)
    ensures |s| == |text| + if f.auth3 then 36 else 18
  {
    if f.auth3 then "?OTR|" + (Printed(f.our, 16, 8) + ("|" + (Printed(f.their, 16, 8) + ("," + Numbered(k, n, text)))))
    else "?OTR," + Numbered(k, n, text)
  }

  // One fragment, cut where snprintf stops
  function Shown(f: Format, k: nat, n: nat, text: string): (s: string)
    ensures |s| <= |text| + HeaderLen(f)
  {
    var all := Whole(f, k, n, text);
    if |all| <= |text| + HeaderLen(f) then all else all[..|text| + HeaderLen(f)]
  }

  function PieceLen(size: nat, m: string): (l: nat)
    ensures l <= |m| && l <= size
  {
    if |m| < size then |m| else size
  }

  // Fragments cur to count of what is left of the message
  function Created(f: Format, size: nat, m: string, cur: nat, count: nat): (r: seq<string>)
    ensures |r| == if cur <= count then count - cur + 1 else 0
    decreases count + 1 - cur
  {
    if cur > count then [] else
      var l := PieceLen(size, m);
      [Shown(f, cur, count, m[..l])] + Created(f, size, m[l..], cur + 1, count)
  }

  lemma CreatedSnoc(f: Format, size: nat, m: string, cur: nat, count: nat)
    requires cur <= count
    ensures var l := PieceLen(size, m);
            Created(f, size, m, cur, count) == [Shown(f, cur, count, m[..l])] + Created(f, size, m[l..], cur + 1, count)
  {
  }

  // A difference as the cast to size_t takes it, of which there are so many values
  function AsSize(d: int, sizes: nat): nat
    requires 0 - sizes <= d
  {
    if d >= 0 then d else sizes + d
  }

  // otrl_proto_fragment_create; null is the error for too many fragments or none.
  method FragmentCreate(mms: int, count: int, f: Format, message: string, sizes: nat) returns (fragments: array?<string>)
    requires mms >= -0x8000_0000 && sizes >= TWO32
    ensures fragments != null <==> 1 <= count <= 65535
    ensures fragments != null ==> fresh(fragments) && fragments[..] == Created(f, AsSize(mms - HeaderLen(f), sizes), message, 1, count)
  {
    if count < 1 || count > 65535 { return null; }
    var fragmentarray := new string[count](i => "");
    var m, size := message, AsSize(mms - HeaderLen(f), sizes);
    ghost var all := Created(f, size, m, 1, count);
    for i := 0 to count
      invariant fragmentarray[..i] + Created(f, size, m, i + 1, count) == all
    {
      var l := if |m| < size then |m| else size;
      var shown := Shown(f, i + 1, count, m[..l]);
      CreatedSnoc(f, size, m, i + 1, count);
      Regroup(fragmentarray[..i], shown, Created(f, size, m[l..], i + 2, count));
      PutNext(fragmentarray, i, shown);
      m := m[l..];
    }
    TakeAll(fragmentarray[..], count);
    return fragmentarray;
  }

  lemma Regroup(x: seq<string>, s: string, y: seq<string>)
    ensures x + ([s] + y) == x + [s] + y
  {
  }

  lemma TakeAll(x: seq<string>, n: nat)
    requires n == |x|
    ensures x[..n] + [] == x
  {
  }

  method PutNext(a: array<string>, i: nat, s: string)
    requires i < a.Length
    modifies a
    ensures a[..i + 1] == old(a[..i]) + [s]
  {
    a[i] := s;
  }

  // The count fragment_and_send asks for: the message length over the room in a piece,
  // rounded up; in C the quotient is cut towards zero.
  function Asked(len: nat, room: int): int
    requires len > 0 && room != 0
  {
    (if room > 0 then (len - 1) / room else -((len - 1) / -room)) + 1
  }

  function Needed(len: nat, size: nat): nat
    requires len > 0 && size > 0
  {
    Asked(len, size)
  }

  lemma AskedBelow(len: nat, k: nat)
    requires len > 0 && k > 0
    ensures 1 <= Asked(len, 0 - k) <==> len <= k
    ensures len <= k ==> Asked(len, 0 - k) == 1
  {
    if len > k {
      assert (len - 1) / k >= 1 by { assert len - 1 == (len - 1 - k) + k; }
    }
  }

  lemma OnePiece(f: Format, size: nat, m: string)
    requires |m| <= size
    ensures Created(f, size, m, 1, 1) == [Shown(f, 1, 1, m)]
  {
    CreatedSnoc(f, size, m, 1, 1);
    assert m[..|m|] == m;
  }

  // A largest message below the header length limits nothing: the message is refused, or, if
  // it is no longer than what is missing, goes whole into one fragment.
  lemma BelowHeader(f: Format, mms: nat, m: string, sizes: nat)
    requires mms < HeaderLen(f) && m != [] && |m| + HeaderLen(f) <= sizes
    ensures 1 <= Asked(|m|, mms - HeaderLen(f)) <==> |m| <= HeaderLen(f) - mms
    ensures |m| <= HeaderLen(f) - mms ==>
              && Asked(|m|, mms - HeaderLen(f)) == 1
              && Created(f, AsSize(mms - HeaderLen(f), sizes), m, 1, 1) == [Shown(f, 1, 1, m)]
  {
    AskedBelow(|m|, HeaderLen(f) - mms);
    OnePiece(f, AsSize(mms - HeaderLen(f), sizes), m);
  }

  // ---------------------------------------- what was created can be read

  // A number with n zeros appended, and the least number of n + 1 digits
  function Shift(acc: nat, n: nat): nat
  {
    if n == 0 then acc else 10 * Shift(acc, n - 1)
  }

  lemma DigitStep(acc: nat, d: nat, rest: string)
    requires d < 10
    ensures Digits(acc, [DigitChar(d)] + rest) == Digits(acc * 10 + d, rest)
  {
    assert ([DigitChar(d)] + rest)[1..] == rest;
  }

  lemma {:induction false} ScanPrinted(v: nat, n: nat, acc: nat, rest: string)
    requires v < Shift(1, n)
    ensures Digits(acc, Printed(v, 10, n) + rest) == Digits(Shift(acc, n) + v, rest)
    decreases n
  {
    if n == 0 {
      assert [] + rest == rest;
    } else {
      var front, c := Printed(v / 10, 10, n - 1), DigitChar(v % 10);
      assert Printed(v, 10, n) + rest == front + ([c] + rest);
      ScanPrinted(v / 10, n - 1, acc, [c] + rest);
      DigitStep(Shift(acc, n - 1) + v / 10, v % 10, rest);
    }
  }

  lemma {:induction false} PrintedDigits(v: nat, base: nat, n: nat)
    requires 0 < base <= 16
    ensures forall i :: 0 <= i < n ==> HexDigit(Printed(v, base, n)[i]) && (base <= 10 ==> Digit(Printed(v, base, n)[i]))
  {
    if n > 0 {
      PrintedDigits(v / base, base, n - 1);
    }
  }

  lemma ScanFront(p: string, v: nat, rest: string)
    requires p != [] && Digit(p[0]) && v < 65536 && (rest == [] || !Digit(rest[0]))
    requires Digits(0, p + rest) == Digits(v, rest)
    ensures ScanDecimal(p + rest) == Some((v, rest))
  {
    assert (p + rest)[0] == p[0];
  }

  lemma FiveDigits()
    ensures Shift(1, 5) == 100000 && Shift(0, 5) == 0
  {
    assert Shift(1, 3) == 1000 && Shift(0, 3) == 0;
  }

  lemma ScanNumber(v: nat, rest: string)
    requires v < 65536 && (rest == [] || !Digit(rest[0]))
    ensures ScanDecimal(Printed(v, 10, 5) + rest) == Some((v, rest))
  {
    var p := Printed(v, 10, 5);
    PrintedDigits(v, 10, 5);
    assert Digit(p[0]);
    FiveDigits();
    ScanPrinted(v, 5, 0, rest);
    ScanFront(p, v, rest);
  }

  lemma {:induction false} SkipPrinted(s: string, rest: string)
    requires (forall i :: 0 <= i < |s| ==> HexDigit(s[i])) && (rest == [] || !HexDigit(rest[0]))
    ensures SkipHexDigits(s + rest) == rest
    decreases |s|
  {
    if s == [] {
      assert s + rest == rest;
    } else {
      assert (s + rest)[1..] == s[1..] + rest;
      SkipPrinted(s[1..], rest);
    }
  }

  lemma ScanTag(v: nat, rest: string)
    requires rest == [] || !HexDigit(rest[0])
    ensures ScanHex(Printed(v, 16, 8) + rest) == Some(rest)
  {
    var p := Printed(v, 16, 8);
    PrintedDigits(v, 16, 8);
    assert (p + rest)[0] == p[0] && (p + rest)[1] == p[1] && HexDigit(p[0]) && HexDigit(p[1]);
    SkipPrinted(p, rest);
  }

  lemma {:induction false} UpToCommaIs(text: string, rest: string)
    requires ',' !in text
    ensures UpToComma(text + "," + rest) == text
    decreases |text|
  {
    if text != [] {
      assert (text + "," + rest)[1..] == text[1..] + "," + rest;
      UpToCommaIs(text[1..], rest);
    }
  }

  lemma LiteralIs(c: char, rest: string)
    ensures Literal([c] + rest, c) == Some(rest)
  {
  }

  lemma ScanPieceIs(k: nat, n: nat, text: string)
    requires k < 65536 && n < 65536 && text != [] && ',' !in text
    ensures ScanPiece(Numbered(k, n, text)) == Some(Piece(k, n, text))
  {
    var s4 := text + ",";
    var s3 := Printed(n, 10, 5) + ("," + s4);
    ScanNumber(k, "," + s3);
    LiteralIs(',', s3);
    ScanNumber(n, "," + s4);
    LiteralIs(',', s4);
    UpToCommaIs(text, []);
    assert text + "," + [] == s4 && s4[|text|..] == ",";
  }

  // The header decides the form; the text must not end the fragment early, nor, without
  // the tags, be taken for the start of a fragment with tags.
  predicate Readable(f: Format, text: string)
  {
    ',' !in text && (f.auth3 || '|' !in text)
  }

  lemma {:induction false} FindNone(s: string, tag: string, c: char)
    requires c in tag && c !in s
    ensures Find(s, tag) == None
    decreases |s|
  {
    if s != [] {
      FindNone(s[1..], tag, c);
    }
  }

  lemma NoBarInNumber(v: nat)
    ensures '|' !in Printed(v, 10, 5)
  {
    PrintedDigits(v, 10, 5);
  }

  lemma ReadWithoutTags(f: Format, k: nat, n: nat, text: string)
    requires 0 < k <= n < 65536 && text != [] && ',' !in text && '|' !in text && !f.auth3
    ensures Read(Whole(f, k, n, text)) == Fragment(Piece(k, n, text))
  {
    var s := Whole(f, k, n, text);
    NoBarInNumber(k);
    NoBarInNumber(n);
    FindNone(s, "?OTR|", '|');
    assert "?OTR," <= s && s[5..] == Numbered(k, n, text);
    ScanPieceIs(k, n, text);
  }

  lemma ReadWithTags(f: Format, k: nat, n: nat, text: string)
    requires 0 < k <= n < 65536 && text != [] && ',' !in text && f.auth3
    ensures Read(Whole(f, k, n, text)) == Fragment(Piece(k, n, text))
  {
    var s4 := Numbered(k, n, text);
    var s2 := Printed(f.their, 16, 8) + ("," + s4);
    var s0 := Printed(f.our, 16, 8) + ("|" + s2);
    var s := "?OTR|" + s0;
    assert "?OTR|" <= s && s[5..] == s0;
    ScanTag(f.our, "|" + s2);
    LiteralIs('|', s2);
    ScanTag(f.their, "," + s4);
    LiteralIs(',', s4);
    ScanPieceIs(k, n, text);
  }

  // Every fragment is read as the piece it was made from.
  lemma ReadShown(f: Format, k: nat, n: nat, text: string)
    requires 0 < k <= n < 65536 && text != [] && Readable(f, text) && !Mismatch(f)
    ensures Read(Shown(f, k, n, text)) == Fragment(Piece(k, n, text))
  {
    if f.auth3 { ReadWithTags(f, k, n, text); } else { ReadWithoutTags(f, k, n, text); }
  }

  // ------------------------------------------------------ and put together

  // What is left when piece cur of count is next
  predicate Fits(m: string, size: nat, more: nat)
  {
    more * size < |m| <= (more + 1) * size
  }

  lemma FitsNext(m: string, size: nat, more: nat, l: nat)
    requires size > 0 && Fits(m, size, more) && l == PieceLen(size, m)
    ensures 0 < l && (more == 0 ==> l == |m|) && (more > 0 ==> Fits(m[l..], size, more - 1))
  {
    if more > 0 {
      assert more * size == (more - 1) * size + size;
      assert (more - 1) * size >= 0;
    }
  }

  lemma NeededFits(m: string, size: nat)
    requires |m| > 0 && size > 0
    ensures Fits(m, size, Needed(|m|, size) - 1)
  {
    var q, r := (|m| - 1) / size, (|m| - 1) % size;
    assert |m| - 1 == q * size + r;
    assert (q + 1) * size == q * size + size;
  }

  lemma ReadableParts(f: Format, m: string, l: nat)
    requires Readable(f, m) && l <= |m|
    ensures Readable(f, m[..l]) && Readable(f, m[l..])
  {
  }

  // All results but the last say that more is to come.
  predicate Delivers(rs: seq<Result>, m: string)
  {
    rs != [] && rs[|rs| - 1] == COMPLETE(m) && forall i :: 0 <= i < |rs| - 1 ==> rs[i] == INCOMPLETE
  }

  lemma TakeShown(f: Format, a: Acc, k: nat, n: nat, text: string)
    requires 0 < k <= n < 65536 && text != [] && Readable(f, text) && !Mismatch(f)
    requires k == 1 || (a.n == n && a.k == k - 1)
    ensures Accumulate(a, Shown(f, k, n, text))
            == (var done := (if k == 1 then [] else a.text) + text; if k == n then (EMPTY, COMPLETE(done)) else (Acc(done, n, k), INCOMPLETE))
  {
    ReadShown(f, k, n, text);
    assert [] + text == text;
  }

  lemma CreatedRun(f: Format, size: nat, a: Acc, m: string, cur: nat, count: nat, l: nat, b: Acc, x: Result)
    requires cur <= count && l == PieceLen(size, m) && Accumulate(a, Shown(f, cur, count, m[..l])) == (b, x)
    ensures var (c, xs) := Run(b, Created(f, size, m[l..], cur + 1, count));
            Run(a, Created(f, size, m, cur, count)) == (c, [x] + xs)
  {
    var msgs := Created(f, size, m, cur, count);
    CreatedSnoc(f, size, m, cur, count);
    RunFirst(a, msgs);
    assert msgs[1..] == Created(f, size, m[l..], cur + 1, count);
  }

  lemma DeliversMore(xs: seq<Result>, m: string)
    requires Delivers(xs, m)
    ensures Delivers([INCOMPLETE] + xs, m)
  {
  }

  lemma Rejoined(done: string, m: string, l: nat)
    requires l <= |m|
    ensures done + m[..l] + m[l..] == done + m && (l == |m| ==> m[..l] == m)
  {
  }

  lemma {:induction false} RestDelivered(f: Format, size: nat, a: Acc, done: string, m: string, cur: nat, count: nat)
    requires size > 0 && 0 < cur <= count < 65536 && Fits(m, size, count - cur) && Readable(f, m) && !Mismatch(f)
    requires if cur == 1 then done == [] else a == Acc(done, count, cur - 1)
    ensures var (b, rs) := Run(a, Created(f, size, m, cur, count)); b == EMPTY && Delivers(rs, done + m)
    decreases count - cur
  {
    var l := PieceLen(size, m);
    FitsNext(m, size, count - cur, l);
    ReadableParts(f, m, l);
    TakeShown(f, a, cur, count, m[..l]);
    Rejoined(done, m, l);
    var (b, x) := Accumulate(a, Shown(f, cur, count, m[..l]));
    CreatedRun(f, size, a, m, cur, count, l, b, x);
    if cur < count {
      RestDelivered(f, size, b, done + m[..l], m[l..], cur + 1, count);
      DeliversMore(Run(b, Created(f, size, m[l..], cur + 1, count)).1, done + m);
    }
  }

  // ---------------------------------------- a header longer than reckoned

  function Commas(s: string): nat
  {
    if s == [] then 0 else (if s[0] == ',' then 1 else 0) + Commas(s[1..])
  }

  lemma {:induction false} CommasSum(s: string, t: string)
    ensures Commas(s + t) == Commas(s) + Commas(t)
    decreases |s|
  {
    if s == [] {
      assert s + t == t;
    } else {
      assert (s + t)[1..] == s[1..] + t;
      CommasSum(s[1..], t);
    }
  }

  lemma {:induction false} CommasNone(s: string)
    requires ',' !in s
    ensures Commas(s) == 0
    decreases |s|
  {
    if s != [] { CommasNone(s[1..]); }
  }

  // What a conversion leaves over has no more commas.
  lemma {:induction false} SpaceCommas(s: string)
    ensures Commas(SkipSpace(s)) <= Commas(s)
    decreases |s|
  {
    if s != [] { SpaceCommas(s[1..]); }
  }

  lemma {:induction false} HexDigitsCommas(s: string)
    ensures Commas(SkipHexDigits(s)) <= Commas(s)
    decreases |s|
  {
    if s != [] { HexDigitsCommas(s[1..]); }
  }

  lemma {:induction false} DigitsCommas(acc: nat, s: string)
    ensures Commas(Digits(acc, s).1) <= Commas(s)
    decreases |s|
  {
    if s != [] && Digit(s[0]) { DigitsCommas(acc * 10 + (s[0] as int - '0' as int), s[1..]); }
  }

  lemma {:induction false} TextCommas(s: string)
    ensures Commas(s[|UpToComma(s)|..]) <= Commas(s)
    decreases |s|
  {
    if s != [] && s[0] != ',' {
      assert s[|UpToComma(s)|..] == s[1..][|UpToComma(s[1..])|..];
      TextCommas(s[1..]);
    }
  }

  lemma SignCommas(s: string)
    ensures Commas(SkipSign(s)) <= Commas(s)
  {
  }

  lemma PrefixCommas(s: string)
    requires |s| >= 2
    ensures Commas(s[2..]) <= Commas(s)
  {
    assert s[1..][1..] == s[2..];
  }

  lemma HexCommas(s: string)
    ensures ScanHex(s).Some? ==> Commas(ScanHex(s).value) <= Commas(s)
  {
    var v := SkipSign(SkipSpace(s));
    SpaceCommas(s);
    SignCommas(SkipSpace(s));
    if "0x" <= v || "0X" <= v { PrefixCommas(v); }
    HexDigitsCommas(if "0x" <= v || "0X" <= v then v[2..] else v);
  }

  lemma DecimalCommas(s: string)
    ensures ScanDecimal(s).Some? ==> Commas(ScanDecimal(s).value.1) <= Commas(s)
  {
    SpaceCommas(s);
    SignCommas(SkipSpace(s));
    DigitsCommas(0, SkipSign(SkipSpace(s)));
  }

  lemma PieceCommas(s: string)
    ensures ScanPiece(s).Some? ==> Commas(s) >= 3
  {
    if ScanPiece(s).Some? {
      var r1 := ScanDecimal(s).value.1;
      var r2 := Literal(r1, ',').value;
      var r3 := ScanDecimal(r2).value.1;
      var r4 := Literal(r3, ',').value;
      DecimalCommas(s);
      DecimalCommas(r2);
      TextCommas(r4);
    }
  }

  // A fragment with tags has four commas.
  lemma TaggedCommas(s: string)
    ensures ScanTagged(s).Some? ==> Commas(s) >= 4
  {
    if ScanTagged(s).Some? {
      var r1 := ScanHex(s).value;
      var r2 := Literal(r1, '|').value;
      var r3 := ScanHex(r2).value;
      var r4 := Literal(r3, ',').value;
      HexCommas(s);
      HexCommas(r2);
      PieceCommas(r4);
    }
  }

  lemma NoCommaPrinted(v: nat, base: nat, n: nat)
    requires 0 < base <= 16
    ensures Commas(Printed(v, base, n)) == 0
  {
    PrintedDigits(v, base, n);
    CommasNone(Printed(v, base, n));
  }

  lemma NumberedCommas(k: nat, n: nat, text: string)
    requires ',' !in text
    ensures Commas(Numbered(k, n, text)) == 3
  {
    var s3 := text + ",";
    var s2 := Printed(n, 10, 5) + ("," + s3);
    CommasNone(text);
    CommasSum(text, ",");
    CommasSum(",", s3);
    NoCommaPrinted(n, 10, 5);
    CommasSum(Printed(n, 10, 5), "," + s3);
    CommasSum(",", s2);
    NoCommaPrinted(k, 10, 5);
    CommasSum(Printed(k, 10, 5), "," + s2);
  }

  lemma WholeCommas(f: Format, k: nat, n: nat, text: string)
    requires ',' !in text && f.auth3
    ensures Commas(Whole(f, k, n, text)[5..]) == 4 && "?OTR|" <= Whole(f, k, n, text)
  {
    var s4 := Numbered(k, n, text);
    var s2 := Printed(f.their, 16, 8) + ("," + s4);
    NumberedCommas(k, n, text);
    CommasSum(",", s4);
    NoCommaPrinted(f.their, 16, 8);
    CommasSum(Printed(f.their, 16, 8), "," + s4);
    CommasSum("|", s2);
    NoCommaPrinted(f.our, 16, 8);
    CommasSum(Printed(f.our, 16, 8), "|" + s2);
    assert Whole(f, k, n, text)[5..] == Printed(f.our, 16, 8) + ("|" + s2);
  }

  lemma WholeEnds(f: Format, k: nat, n: nat, text: string)
    ensures var all := Whole(f, k, n, text); all[|all| - 1] == ','
  {
  }

  lemma CutCommas(s: string, n: nat)
    requires s != [] && n < |s| && s[|s| - 1] == ','
    ensures Commas(s[..n]) < Commas(s)
  {
    var last := |s| - 1;
    assert s == s[..last] + "," && s[..last] == s[..n] + s[n..last];
    CommasSum(s[..last], ",");
    CommasSum(s[..n], s[n..last]);
  }

  // The header with tags is longer than a context of another version reckons: snprintf
  // cuts the end of the fragment off, and it cannot be read.
  lemma Unreadable(f: Format, k: nat, n: nat, text: string)
    requires ',' !in text && Mismatch(f)
    ensures Read(Shown(f, k, n, text)) == Ignored
  {
    var all, cut := Whole(f, k, n, text), |text| + 19;
    var s := Shown(f, k, n, text);
    WholeCommas(f, k, n, text);
    WholeEnds(f, k, n, text);
    assert s == all[..cut] && s[5..] == all[5..][..cut - 5] && "?OTR|" <= s;
    CutCommas(all[5..], cut - 5);
    TaggedCommas(s[5..]);
  }

  predicate Nothing(rs: seq<Result>)
  {
    forall i :: 0 <= i < |rs| ==> rs[i] == INCOMPLETE
  }

  lemma NothingMore(rs: seq<Result>)
    requires Nothing(rs)
    ensures Nothing([INCOMPLETE] + rs)
  {
  }

  lemma NothingDelivers(rs: seq<Result>, m: string)
    requires Nothing(rs)
    ensures !Delivers(rs, m)
  {
  }

  predicate AllSuch(p: string -> bool, msgs: seq<string>)
  {
    msgs == [] || (p(msgs[0]) && AllSuch(p, msgs[1..]))
  }

  lemma AllSuchMore(p: string -> bool, s: string, msgs: seq<string>)
    requires p(s) && AllSuch(p, msgs)
    ensures AllSuch(p, [s] + msgs)
  {
    assert ([s] + msgs)[1..] == msgs;
  }

  // What holds of every fragment of readable text holds of all that are created.
  lemma {:induction false} CreatedSuch(f: Format, size: nat, m: string, cur: nat, count: nat, p: string -> bool)
    requires Readable(f, m)
    requires forall k: nat, text: string {:trigger Shown(f, k, count, text)} :: Readable(f, text) ==> p(Shown(f, k, count, text))
    ensures AllSuch(p, Created(f, size, m, cur, count))
    decreases count + 1 - cur
  {
    if cur <= count {
      var l := PieceLen(size, m);
      ReadableParts(f, m, l);
      CreatedSuch(f, size, m[l..], cur + 1, count, p);
      CreatedSnoc(f, size, m, cur, count);
      AllSuchMore(p, Shown(f, cur, count, m[..l]), Created(f, size, m[l..], cur + 1, count));
    }
  }

  // Fragments that cannot be read change nothing.
  lemma {:induction false} IgnoredRun(a: Acc, msgs: seq<string>, p: string -> bool)
    requires Waiting(a) && AllSuch(p, msgs) && forall s {:trigger p(s)} :: p(s) ==> Read(s) == Ignored
    ensures Run(a, msgs).0 == a && Nothing(Run(a, msgs).1)
    decreases |msgs|
  {
    if msgs != [] {
      assert Accumulate(a, msgs[0]) == (a, INCOMPLETE);
      RunFirst(a, msgs);
      IgnoredRun(a, msgs[1..], p);
      NothingMore(Run(a, msgs[1..]).1);
    }
  }

  lemma AllLost(f: Format, size: nat, m: string, a: Acc, count: nat)
    requires Readable(f, m) && Mismatch(f) && Waiting(a)
    ensures Nothing(Run(a, Created(f, size, m, 1, count)).1)
  {
    var p := (s: string) => Read(s) == Ignored;
    forall k: nat, text: string | Readable(f, text) ensures p(Shown(f, k, count, text)) {
      Unreadable(f, k, count, text);
    }
    CreatedSuch(f, size, m, 1, count, p);
    IgnoredRun(a, Created(f, size, m, 1, count), p);
  }

  lemma CountedExactly(f: Format, size: nat, m: string, a: Acc, count: nat)
    requires size > 0 && 0 < count <= 65535 && Fits(m, size, count - 1) && Readable(f, m) && Waiting(a)
    ensures Delivers(Run(a, Created(f, size, m, 1, count)).1, m) <==> !Mismatch(f)
  {
    if !Mismatch(f) {
      RestDelivered(f, size, a, [], m, 1, count);
      assert [] + m == m;
    } else {
      AllLost(f, size, m, a, count);
      NothingDelivers(Run(a, Created(f, size, m, 1, count)).1, m);
    }
  }

  // The fragments of a message, fed in order to any context, are put together again,
  // exactly when the sender's context reckons with the tags that its auth prints.
  lemma ReassembledExactly(f: Format, mms: nat, m: string, a: Acc, size: nat, count: nat)
    requires mms == size + HeaderLen(f) && size > 0 && m != [] && count == Needed(|m|, size) <= 65535
    requires Readable(f, m) && Waiting(a)
    ensures Delivers(Run(a, Created(f, size, m, 1, count)).1, m) <==> !Mismatch(f)
  {
    NeededFits(m, size);
    CountedExactly(f, size, m, a, count);
  }

  // No fragment is longer than the largest message the network takes.
  lemma {:induction false} FragmentsFit(f: Format, mms: nat, m: string, cur: nat, count: nat)
    requires mms >= HeaderLen(f)
    ensures forall s :: s in Created(f, mms - HeaderLen(f), m, cur, count) ==> |s| <= mms
    decreases count + 1 - cur
  {
    if cur <= count {
      FragmentsFit(f, mms, m[PieceLen(mms - HeaderLen(f), m)..], cur + 1, count);
    }
  }

  // The accumulator as otrl_proto_fragment_accumulate updates it in context_priv
  class FragmentBuffer {
    var fragment: string
    var fragmentN: nat
    var fragmentK: nat

    function Now(): Acc
      reads this
    {
      Acc(fragment, fragmentN, fragmentK)
    }

    constructor ()
      ensures Now() == EMPTY
    {
      fragment, fragmentN, fragmentK := [], 0, 0;
    }

    method Discard()
      modifies this
      ensures Now() == EMPTY
    {
      fragment, fragmentN, fragmentK := [], 0, 0;
    }

    method OnMessage(msg: string) returns (res: Result)
      modifies this
      ensures (Now(), res) == Accumulate(old(Now()), msg)
    {
      var incoming := Read(msg);
      if incoming.Plain? {
        Discard();
        return UNFRAGMENTED;
      }
      if incoming.Fragment? {
        Store(incoming.piece);
      }
      res := INCOMPLETE;
      if fragmentN > 0 && fragmentN == fragmentK {
        res := COMPLETE(fragment);
        Discard();
      }
    }

    method Store(p: Piece)
      modifies this
      ensures Now() == Take(old(Now()), p)
    {
      if p.k == 1 {
        fragment, fragmentN, fragmentK := p.text, p.n, p.k;
      } else if p.n == fragmentN && p.k == fragmentK + 1 {
        fragment, fragmentK := fragment + p.text, p.k;
      } else {
        Discard();
      }
    }
  }
}
