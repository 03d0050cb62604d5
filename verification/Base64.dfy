// The base64 envelope around messages (b64.c).
module Base64 {
  import opened Bytes

  // The two tables, by ranges: cb64 and, below 64, cd64 without its offset.
  function Char(v: nat): (c: char)
    requires v < 64
    ensures Value(c) == Some(v)
  {
    if v < 26 then ('A' as int + v) as char
    else if v < 52 then ('a' as int + v - 26) as char
    else if v < 62 then ('0' as int + v - 52) as char
    else if v == 62 then '+' else '/'
  }

  function Value(c: char): (v: Option<nat>)
    ensures v.Some? ==> v.value < 64
  {
    if 'A' <= c <= 'Z' then Some(c as int - 'A' as int)
    else if 'a' <= c <= 'z' then Some(c as int - 'a' as int + 26)
    else if '0' <= c <= '9' then Some(c as int - '0' as int + 52)
    else if c == '+' then Some(62) else if c == '/' then Some(63) else None
  }

  // ------------------------------------------------------------ encoding

  // encodeblock, for one to three octets
  function EncodeBlock(d: seq<byte>): (s: string)
    requires 1 <= |d| <= 3
    ensures |s| == 4
  {
    var in0, in1, in2 := d[0], if |d| > 1 then d[1] else 0, if |d| > 2 then d[2] else 0;
    [Char(in0 / 4), Char(in0 % 4 * 16 + in1 / 16)]
    + (if |d| > 1 then [Char(in1 % 16 * 4 + in2 / 64)] else "=")
    + (if |d| > 2 then [Char(in2 % 64)] else "=")
  }

  function Encoded(d: seq<byte>): (s: string)
    ensures |s| == (|d| + 2) / 3 * 4
    decreases |d|
  {
    if |d| > 2 then EncodeBlock(d[..3]) + Encoded(d[3..]) else if |d| > 0 then EncodeBlock(d) else []
  }

  // otrl_base64_encode
  method Encode(data: seq<byte>) returns (base64data: string)
    ensures base64data == Encoded(data)
  {
    base64data := [];
    var rest := data;
    while |rest| > 2
      invariant base64data + Encoded(rest) == Encoded(data)
      decreases |rest|
    {
      var block, more := EncodeBlock(rest[..3]), Encoded(rest[3..]);
      assert base64data + (block + more) == base64data + block + more;
      base64data := base64data + block;
      rest := rest[3..];
    }
    if |rest| > 0 {
      base64data := base64data + EncodeBlock(rest);
    } else {
      assert base64data + [] == base64data;
    }
  }

  // ------------------------------------------------------------ decoding

  predicate Sextets(b: seq<nat>)
  {
    |b| <= 4 && forall i :: 0 <= i < |b| ==> b[i] < 64
  }

  // decode, for up to four values of six bits; what the shifts push out of the octet is lost.
  function DecodeBlock(b: seq<nat>): (d: seq<byte>)
    requires Sextets(b)
    ensures |d| == if |b| > 1 then |b| - 1 else 0
  {
    if |b| < 2 then [] else
      [b[0] * 4 + b[1] / 16]
      + (if |b| > 2 then [b[1] % 16 * 16 + b[2] / 4] else [])
      + (if |b| > 3 then [b[2] % 4 * 64 + b[3]] else [])
  }

  // What is decoded of s when the values in acc wait for their block: characters outside
  // the alphabet are skipped, the first '=' ends, and a short block at the end is dropped.
  function Decoded(acc: seq<nat>, s: string): (d: seq<byte>)
    requires Sextets(acc) && |acc| < 4
    decreases |s|
  {
    if s == [] then [] else
    if s[0] == '=' then DecodeBlock(acc) else
    if Value(s[0]).None? then Decoded(acc, s[1..]) else
      var b := acc + [Value(s[0]).value];
      if |b| == 4 then DecodeBlock(b) + Decoded([], s[1..]) else Decoded(b, s[1..])
  }

  // The room the caller provides
  function MaxDecodedSize(len: nat): nat
  {
    (len + 3) / 4 * 3
  }

  lemma {:induction false} DecodedFits(acc: seq<nat>, s: string)
    requires Sextets(acc) && |acc| < 4
    ensures |Decoded(acc, s)| * 4 <= (|acc| + |s|) * 3
    decreases |s|
  {
    if s != [] && s[0] != '=' {
      if Value(s[0]).None? {
        DecodedFits(acc, s[1..]);
      } else {
        var b := acc + [Value(s[0]).value];
        DecodedFits(if |b| == 4 then [] else b, s[1..]);
      }
    }
  }

  // otrl_base64_decode, into a buffer of the size promised
  method Decode(data: array<byte>, base64data: string) returns (datalen: nat)
    requires data.Length >= MaxDecodedSize(|base64data|)
    modifies data
    ensures datalen <= data.Length && data[..datalen] == Decoded([], base64data)
  {
    var s, b64: seq<nat> := base64data, [];
    datalen := 0;
    DecodedFits([], base64data);
    while s != []
      invariant datalen <= data.Length && Sextets(b64) && |b64| < 4
      invariant datalen * 4 + (|b64| + |s|) * 3 <= data.Length * 4
      invariant data[..datalen] + Decoded(b64, s) == Decoded([], base64data)
      decreases |s|
    {
      var b := s[0];
      s := s[1..];
      if b == '=' {
        datalen := Append(data, datalen, DecodeBlock(b64));
        return;
      }
      var v := Value(b);
      if v.Some? {
        b64 := b64 + [v.value];
        if |b64| == 4 {
          ghost var done, rest := data[..datalen], Decoded([], s);
          assert done + (DecodeBlock(b64) + rest) == done + DecodeBlock(b64) + rest;
          datalen := Append(data, datalen, DecodeBlock(b64));
          b64 := [];
        }
      }
    }
    assert data[..datalen] + [] == data[..datalen];
  }

  method Append(data: array<byte>, at: nat, d: seq<byte>) returns (datalen: nat)
    requires at + |d| <= data.Length
    modifies data
    ensures datalen == at + |d| && data[..datalen] == old(data[..at]) + d
  {
    for i := 0 to |d|
      invariant data[..at + i] == old(data[..at]) + d[..i]
    {
      data[at + i] := d[i];
    }
    datalen := at + |d|;
  }

  // ------------------------------------------------------ decode of encode

  lemma Bits(a: byte, b: byte)
    ensures a % 4 * 16 + b / 16 < 64
    ensures (a % 4 * 16 + b / 16) / 16 == a % 4 && (a % 4 * 16 + b / 16) % 16 == b / 16
    ensures a / 4 * 4 + a % 4 == a
  {
  }

  lemma MoreBits(b: byte, c: byte)
    ensures b % 16 * 4 + c / 64 < 64
    ensures (b % 16 * 4 + c / 64) / 4 == b % 16 && (b % 16 * 4 + c / 64) % 4 == c / 64
    ensures b / 16 * 16 + b % 16 == b && c / 64 * 64 + c % 64 == c
  {
  }

  lemma BlockBits(a: byte, b: byte, c: byte)
    ensures Sextets([a / 4, a % 4 * 16 + b / 16, b % 16 * 4 + c / 64, c % 64])
    ensures DecodeBlock([a / 4, a % 4 * 16 + b / 16, b % 16 * 4 + c / 64, c % 64]) == [a, b, c]
  {
    Bits(a, b);
    MoreBits(b, c);
  }

  lemma ShortBits(a: byte, b: byte)
    ensures Sextets([a / 4, a % 4 * 16 + b / 16, b % 16 * 4]) && Sextets([a / 4, a % 4 * 16])
    ensures DecodeBlock([a / 4, a % 4 * 16 + b / 16, b % 16 * 4]) == [a, b]
    ensures DecodeBlock([a / 4, a % 4 * 16]) == [a]
  {
    Bits(a, b);
    Bits(a, 0);
    MoreBits(b, 0);
  }

  // One character of the alphabet
  lemma DecodedChar(acc: seq<nat>, v: nat, s: string)
    requires Sextets(acc) && |acc| < 3 && v < 64
    ensures Sextets(acc + [v]) && Decoded(acc, [Char(v)] + s) == Decoded(acc + [v], s)
  {
    assert ([Char(v)] + s)[1..] == s;
  }

  lemma DecodedFourth(acc: seq<nat>, v: nat, s: string)
    requires Sextets(acc) && |acc| == 3 && v < 64
    ensures Sextets(acc + [v]) && Decoded(acc, [Char(v)] + s) == DecodeBlock(acc + [v]) + Decoded([], s)
  {
    assert ([Char(v)] + s)[1..] == s;
  }

  lemma DecodedTwo(v: nat, w: nat, s: string)
    requires v < 64 && w < 64
    ensures Decoded([], [Char(v)] + ([Char(w)] + s)) == Decoded([v, w], s)
  {
    var none: seq<nat> := [];
    DecodedChar(none, v, [Char(w)] + s);
    assert none + [v] == [v] && [v] + [w] == [v, w];
    DecodedChar([v], w, s);
  }

  lemma DecodedFour(v: nat, w: nat, x: nat, y: nat, s: string)
    requires v < 64 && w < 64 && x < 64 && y < 64
    ensures Decoded([], [Char(v)] + ([Char(w)] + ([Char(x)] + ([Char(y)] + s)))) == DecodeBlock([v, w, x, y]) + Decoded([], s)
  {
    DecodedTwo(v, w, [Char(x)] + ([Char(y)] + s));
    DecodedChar([v, w], x, [Char(y)] + s);
    assert [v, w] + [x] == [v, w, x] && [v, w, x] + [y] == [v, w, x, y];
    DecodedFourth([v, w, x], y, s);
  }

  lemma FullBlock(d: seq<byte>, s: string)
    requires |d| == 3
    ensures Decoded([], EncodeBlock(d) + s) == d + Decoded([], s)
  {
    var v, w, x, y := d[0] / 4, d[0] % 4 * 16 + d[1] / 16, d[1] % 16 * 4 + d[2] / 64, d[2] % 64;
    BlockBits(d[0], d[1], d[2]);
    DecodedFour(v, w, x, y, s);
    assert EncodeBlock(d) + s == [Char(v)] + ([Char(w)] + ([Char(x)] + ([Char(y)] + s)));
    assert d == [d[0], d[1], d[2]];
  }

  lemma LastTwo(d: seq<byte>)
    requires |d| == 2
    ensures Decoded([], EncodeBlock(d)) == d
  {
    var v, w, x := d[0] / 4, d[0] % 4 * 16 + d[1] / 16, d[1] % 16 * 4;
    ShortBits(d[0], d[1]);
    assert EncodeBlock(d) == [Char(v)] + ([Char(w)] + ([Char(x)] + "="));
    DecodedTwo(v, w, [Char(x)] + "=");
    assert [v, w] + [x] == [v, w, x];
    DecodedChar([v, w], x, "=");
    EqualsEnds([v, w, x]);
  }

  lemma LastOne(d: seq<byte>)
    requires |d| == 1
    ensures Decoded([], EncodeBlock(d)) == d
  {
    var v, w := d[0] / 4, d[0] % 4 * 16;
    ShortBits(d[0], 0);
    assert EncodeBlock(d) == [Char(v)] + ([Char(w)] + "==");
    DecodedTwo(v, w, "==");
  }

  lemma EqualsEnds(acc: seq<nat>)
    requires Sextets(acc) && |acc| < 4
    ensures Decoded(acc, "=") == DecodeBlock(acc)
  {
  }

  // Decoding what was encoded gives the octets back, for every length.
  lemma {:induction false} DecodedEncoded(d: seq<byte>)
    ensures Decoded([], Encoded(d)) == d
    decreases |d|
  {
    if |d| > 2 {
      FullBlock(d[..3], Encoded(d[3..]));
      DecodedEncoded(d[3..]);
      assert d[..3] + d[3..] == d;
    } else if |d| > 0 {
      if |d| == 2 { LastTwo(d); } else { LastOne(d); }
    }
  }

  // ------------------------------------------------------- any characters

  // The alphabet of section 4 of RFC 4648, eight letters a row
  function Row(k: nat): (r: string)
    ensures |r| == 8
  {
    match k
    case 0 => "ABCDEFGH"
    case 1 => "IJKLMNOP"
    case 2 => "QRSTUVWX"
    case 3 => "YZabcdef"
    case 4 => "ghijklmn"
    case 5 => "opqrstuv"
    case 6 => "wxyz0123"
    case _ => "456789+/"
  }

  lemma CharInRow(k: nat, i: nat)
    requires k < 8 && i < 8
    ensures Char(8 * k + i) == Row(k)[i]
  {
  }

  lemma CharInAlphabet(v: nat)
    requires v < 64
    ensures Char(v) == Row(v / 8)[v % 8]
  {
    CharInRow(v / 8, v % 8);
  }

  // Both tables are that alphabet.
  lemma Alphabet(c: char, v: nat)
    requires v < 64
    ensures Char(v) == Row(v / 8)[v % 8]
    ensures Value(c) == Some(v) <==> c == Row(v / 8)[v % 8]
  {
    CharInAlphabet(v);
  }

  // The letters in front of the first equals sign
  function Letters(s: string): nat
  {
    if s == [] || s[0] == '=' then 0 else (if Value(s[0]).Some? then 1 else 0) + Letters(s[1..])
  }

  // Three octets for every four letters in front of the first equals sign; the letters
  // over make one octet less than they are, but only if an equals sign follows.
  lemma {:induction false} OctetsDecoded(acc: seq<nat>, s: string, n: nat, m: nat)
    requires Sextets(acc) && |acc| < 4 && |acc| + Letters(s) == 4 * n + m && m < 4
    ensures |Decoded(acc, s)| == 3 * n + (if '=' in s && m > 1 then m - 1 else 0)
    decreases |s|
  {
    if s != [] && s[0] != '=' {
      assert s == [s[0]] + s[1..];
      if Value(s[0]).None? {
        OctetsDecoded(acc, s[1..], n, m);
      } else {
        var b := acc + [Value(s[0]).value];
        if |b| == 4 { OctetsDecoded([], s[1..], n - 1, m); } else { OctetsDecoded(b, s[1..], n, m); }
      }
    }
  }

  // The octets of a block are the bits of its letters from the front; the bits over, which
  // need not be zeros, are lost.
  lemma BlockSpells(b: seq<nat>)
    requires Sextets(b)
    ensures |b| == 4 ==> ((b[0] * 64 + b[1]) * 64 + b[2]) * 64 + b[3] == FromBe(DecodeBlock(b))
    ensures |b| == 3 ==> (b[0] * 64 + b[1]) * 64 + b[2] == FromBe(DecodeBlock(b)) * 4 + b[2] % 4
    ensures |b| == 2 ==> b[0] * 64 + b[1] == FromBe(DecodeBlock(b)) * 16 + b[1] % 16
  {
    if |b| == 4 {
      FromBe3(b[0] * 4 + b[1] / 16, b[1] % 16 * 16 + b[2] / 4, b[2] % 4 * 64 + b[3]);
    } else if |b| == 3 {
      FromBe2(b[0] * 4 + b[1] / 16, b[1] % 16 * 16 + b[2] / 4);
    }
  }

  lemma FromBe2(x: byte, y: byte)
    ensures FromBe([x] + [y]) == 256 * x + y
  {
    assert ([x] + [y])[..1] == [x] && FromBe([x]) == x;
  }

  lemma FromBe3(x: byte, y: byte, z: byte)
    ensures FromBe([x] + [y] + [z]) == 256 * (256 * x + y) + z
  {
    FromBe2(x, y);
    assert ([x] + [y] + [z])[..2] == [x] + [y];
  }

  // --------------------------------------------------------------- junk

  // The characters that mean something: those of the alphabet, and the equals sign
  function Meaning(s: string): string
  {
    if s == [] then [] else (if Value(s[0]).Some? || s[0] == '=' then [s[0]] else []) + Meaning(s[1..])
  }

  // Nothing else is looked at.
  lemma {:induction false} MeaningDecoded(acc: seq<nat>, s: string)
    requires Sextets(acc) && |acc| < 4
    ensures Decoded(acc, s) == Decoded(acc, Meaning(s))
    decreases |s|
  {
    if s != [] && s[0] != '=' {
      if Value(s[0]).None? {
        assert [] + Meaning(s[1..]) == Meaning(s[1..]);
        MeaningDecoded(acc, s[1..]);
      } else {
        var b := acc + [Value(s[0]).value];
        assert Meaning(s)[1..] == Meaning(s[1..]);
        MeaningDecoded(if |b| == 4 then [] else b, s[1..]);
      }
    }
  }

  lemma {:induction false} JunkAnywhere(acc: seq<nat>, s: string, junk: char, t: string)
    requires Sextets(acc) && |acc| < 4 && Value(junk).None? && junk != '='
    ensures Decoded(acc, s + [junk] + t) == Decoded(acc, s + t)
    decreases |s|
  {
    var with, without := s + [junk] + t, s + t;
    if s == [] {
      assert with == [junk] + t && with[1..] == t && without == t;
    } else {
      assert with[0] == without[0] == s[0] && with[1..] == s[1..] + [junk] + t && without[1..] == s[1..] + t;
      if s[0] != '=' {
        if Value(s[0]).None? {
          JunkAnywhere(acc, s[1..], junk, t);
        } else {
          var b := acc + [Value(s[0]).value];
          JunkAnywhere(if |b| == 4 then [] else b, s[1..], junk, t);
        }
      }
    }
  }

  // ----------------------------------------------------------- the envelope

  // otrl_base64_otr_encode
  function Envelope(d: seq<byte>): string
  {
    "?OTR:" + Encoded(d) + "."
  }

  // strchr, up to the character
  function Before(s: string, c: char): (r: Option<string>)
    ensures r.Some? ==> |r.value| < |s|
  {
    if s == [] then None else if s[0] == c then Some([]) else
      var r :- Before(s[1..], c);
      Some([s[0]] + r)
  }

  // otrl_base64_otr_decode: what lies between the first tag and the next period
  function Opened(msg: string): Option<seq<byte>>
  {
    var s :- Find(msg, "?OTR:");
    var t :- Before(s, '.');
    if |t| < 5 then None else Some(Decoded([], t[5..]))
  }

  lemma {:induction false} NoPeriod(d: seq<byte>)
    ensures '.' !in Encoded(d)
    decreases |d|
  {
    if |d| > 2 {
      NoPeriod(d[3..]);
    }
  }

  lemma {:induction false} BeforeIs(s: string, c: char, t: string)
    requires c !in s
    ensures Before(s + [c] + t, c) == Some(s)
    decreases |s|
  {
    if s == [] {
      assert (s + [c] + t)[0] == c;
    } else {
      assert (s + [c] + t)[1..] == s[1..] + [c] + t && [s[0]] + s[1..] == s;
      BeforeIs(s[1..], c, t);
    }
  }

  lemma OpenedBody(body: string, behind: string)
    requires '.' !in body
    ensures Opened("?OTR:" + body + "." + behind) == Some(Decoded([], body))
  {
    var s := "?OTR:" + body;
    assert "?OTR:" <= s + "." + behind;
    BeforeIs(s, '.', behind);
    assert s[5..] == body;
  }

  // What was put in an envelope comes out, whatever follows the period, and whatever
  // characters that mean nothing came in between, any number of them anywhere.
  lemma OpenedEnvelope(d: seq<byte>, body: string, behind: string)
    requires Meaning(body) == Encoded(d) && '.' !in body
    ensures Opened(Envelope(d) + behind) == Some(d)
    ensures Opened("?OTR:" + body + "." + behind) == Some(d)
  {
    NoPeriod(d);
    DecodedEncoded(d);
    OpenedBody(Encoded(d), behind);
    OpenedBody(body, behind);
    MeaningDecoded([], body);
  }
}
