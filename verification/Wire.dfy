// The octets themselves: what integers, arrays, records and whole data messages look like on
// the wire, in what order, with nothing left to the reader that goes with the writer.
module Wire {
  import opened Bytes
  import opened Serial
  import opened Dh
  import opened Tlv
  import opened DataMessage
  import opened Ratchet
  import DataLayout

  // ------------------------------------------------------------- integers

  function Spelt(a: nat, b: nat, c: nat, d: nat): nat
  {
    0x100_0000 * a + 0x1_0000 * b + 0x100 * c + d
  }

  lemma FourOctets(s: seq<byte>)
    requires |s| == 4
    ensures FromBe(s) == Spelt(s[0], s[1], s[2], s[3])
  {
    var one, two, three := s[..1], s[..2], s[..3];
    assert three[..2] == two && two[..1] == one && one[..0] == [];
    assert FromBe(one) == s[0];
    assert FromBe(two) == FromBe(one) * 256 + s[1];
    assert FromBe(three) == FromBe(two) * 256 + s[2];
  }

  // A length or key number: four octets, the most significant first
  lemma IntOctets(v: nat, s: seq<byte>)
    requires v < TWO32 && |s| == 4
    ensures s == WriteInt(v) <==> Spelt(s[0], s[1], s[2], s[3]) == v
    ensures ReadInt(s) == Some((v, [])) <==> Spelt(s[0], s[1], s[2], s[3]) == v
  {
    Pow256Of4();
    FourOctets(s);
    BeRoundTrip(4, v);
    BeOfFromBe(s);
    assert s[..4] == s && s[4..] == [];
  }

  // An MPI: the only string that spells the number and does not start with a zero octet
  lemma MpiIs(v: nat, s: seq<byte>)
    ensures s == Mpi(v) <==> FromBe(s) == v && (s != [] ==> s[0] != 0)
  {
    MpiStarts(v);
    if FromBe(s) == v && (s != [] ==> s[0] != 0) { MpiOnly(v, s); }
  }

  lemma {:induction false} MpiOnly(v: nat, s: seq<byte>)
    requires FromBe(s) == v && (s != [] ==> s[0] != 0)
    ensures s == Mpi(v)
    decreases |s|
  {
    if s != [] {
      var front, last := s[..|s| - 1], s[|s| - 1];
      assert s == front + [last] && v / 256 == FromBe(front) && v % 256 == last;
      MpiOnly(v / 256, front);
      if front != [] { MpiStarts(v / 256); }
      MpiStep(v, front, last);
    }
  }

  lemma MpiStep(v: nat, front: seq<byte>, last: byte)
    requires front == Mpi(v / 256) && last == v % 256 && (front == [] ==> last != 0) && (v / 256 > 0 ==> front != [])
    ensures front + [last] == Mpi(v)
  {
  }

  lemma {:induction false} MpiStarts(v: nat)
    ensures v > 0 ==> Mpi(v) != [] && Mpi(v)[0] != 0
  {
    if v > 255 {
      MpiStarts(v / 256);
    } else if v > 0 {
      assert Mpi(v / 256) == [];
    }
  }

  // ------------------------------------------------------ arrays and records

  lemma {:induction false} FirstMpi(v: nat, vs: seq<nat>)
    ensures WriteMpis([v] + vs) == WriteMpi(v) + WriteMpis(vs)
  {
    if vs == [] {
      OneMpi(v);
      assert [v] + vs == [v];
    } else {
      var front, last := vs[..|vs| - 1], vs[|vs| - 1];
      FirstMpi(v, front);
      LastMpi([v] + front, last);
      LastMpi(front, last);
      Spliced(v, front, last, vs);
      Regrouped(WriteMpis([v] + vs), WriteMpis([v] + front), WriteMpi(v), WriteMpis(front), WriteMpi(last), WriteMpis(vs));
    }
  }

  lemma Spliced(v: nat, front: seq<nat>, last: nat, vs: seq<nat>)
    requires vs != [] && front == vs[..|vs| - 1] && last == vs[|vs| - 1]
    ensures [v] + front + [last] == [v] + vs && front + [last] == vs
  {
  }

  lemma Regrouped(e: seq<byte>, a: seq<byte>, b: seq<byte>, c: seq<byte>, d: seq<byte>, f: seq<byte>)
    requires e == a + d && a == b + c && f == c + d
    ensures e == b + f
  {
  }

  lemma OneMpi(v: nat)
    ensures WriteMpis([v]) == WriteMpi(v) + WriteMpis([])
  {
    assert [v][..0] == [];
  }

  lemma LastMpi(front: seq<nat>, last: nat)
    ensures WriteMpis(front + [last]) == WriteMpis(front) + WriteMpi(last)
  {
    assert (front + [last])[..|front|] == front;
  }

  // An array is its count, and then each MPI behind its length, in order.
  lemma ArrayOctets(v: nat, vs: seq<nat>)
    ensures SerializedMpis(vs) == Be(4, |vs|) + WriteMpis(vs)
    ensures WriteMpis([]) == [] && WriteMpis([v] + vs) == Be(4, |Mpi(v)|) + Mpi(v) + WriteMpis(vs)
  {
    FirstMpi(v, vs);
  }

  // A record is its type and its length, two octets each with the more significant one
  // first, and then its value; the records stand behind the text and a zero octet.
  lemma RecordOctets(text: seq<byte>, t: Tlv, ts: seq<Tlv>)
    requires WellFormed(t)
    ensures Payload(text, ts) == text + [0] + Serialized(ts) && Serialized([]) == []
    ensures Serialized([t] + ts) == [t.typ / 256, t.typ % 256, |t.data| / 256, |t.data| % 256] + t.data + Serialized(ts)
  {
    var all := [t] + ts;
    assert all[0] == t && all[1..] == ts;
    assert Serialized(all) == TlvBytes(t) + Serialized(ts);
  }

  // A whole record is there: four octets, and as many more as they say.
  predicate Whole(s: seq<byte>)
  {
    |s| >= 4 && Word(s[2], s[3]) <= |s| - 4
  }

  lemma FirstRecord(t: Tlv, rest: seq<byte>, s: seq<byte>)
    requires WellFormed(t) && s == TlvBytes(t) + rest
    ensures Parsed(s) == [t] + Parsed(rest)
  {
    var len := |t.data|;
    assert s[0] == Short(t.typ)[0] && s[1] == Short(t.typ)[1] && s[2] == Short(len)[0] && s[3] == Short(len)[1];
    ShortWord(t.typ);
    ShortWord(len);
    assert s[4..4 + len] == t.data && s[4 + len..] == rest;
  }

  // What is read of any octets: the whole records they start with, up to where none is.
  lemma {:induction false} ParsedRecords(ts: seq<Tlv>, rest: seq<byte>)
    requires AllWellFormed(ts) && !Whole(rest)
    ensures Parsed(Serialized(ts) + rest) == ts
  {
    if ts == [] {
      assert Serialized(ts) + rest == rest;
    } else {
      assert ts[0] in ts && ts == [ts[0]] + ts[1..];
      ParsedRecords(ts[1..], rest);
      assert Serialized(ts) + rest == TlvBytes(ts[0]) + (Serialized(ts[1..]) + rest);
      FirstRecord(ts[0], Serialized(ts[1..]) + rest, Serialized(ts) + rest);
    }
  }

  // Any octets are such records and such a rest.
  lemma {:induction false} EveryString(s: seq<byte>) returns (rest: seq<byte>)
    ensures AllWellFormed(Parsed(s)) && !Whole(rest) && s == Serialized(Parsed(s)) + rest
    decreases |s|
  {
    ParsedWellFormed(s);
    if Whole(s) {
      var len := Word(s[2], s[3]);
      var t := Tlv(Word(s[0], s[1]), s[4..4 + len]);
      var tail := s[4 + len..];
      rest := EveryString(tail);
      RecordBack(t, s, len);
      FirstRecord(t, tail, s);
      SerializedFirst(t, Parsed(tail));
      InFront(s, TlvBytes(t), tail, Serialized(Parsed(tail)), rest);
    } else {
      rest := s;
      assert [] + s == s;
    }
  }

  lemma InFront(s: seq<byte>, a: seq<byte>, tail: seq<byte>, b: seq<byte>, rest: seq<byte>)
    requires s == a + tail && tail == b + rest
    ensures s == a + b + rest
  {
  }

  lemma SerializedFirst(t: Tlv, ts: seq<Tlv>)
    ensures Serialized([t] + ts) == TlvBytes(t) + Serialized(ts)
  {
    assert ([t] + ts)[1..] == ts;
  }

  lemma RecordBack(t: Tlv, s: seq<byte>, len: nat)
    requires |s| >= 4 && len == Word(s[2], s[3]) <= |s| - 4 && t == Tlv(Word(s[0], s[1]), s[4..4 + len])
    ensures s == TlvBytes(t) + s[4 + len..]
  {
    WordShort(s[0], s[1]);
    WordShort(s[2], s[3]);
    assert s == [s[0], s[1]] + [s[2], s[3]] + s[4..4 + len] + s[4 + len..];
  }

  lemma WordShort(a: byte, b: byte)
    ensures Short(Word(a, b)) == [a, b]
  {
  }

  // -------------------------------------------------------- a data message

  // The octets of the next message, one field after the other: version, kind, the two
  // instance tags, flags, the number of our older key, that of their newest one, our newest
  // key, the counter, the text enciphered under it, the MAC of all this, the keys revealed.
  lemma MessageOctets(pr: Prims, st: Priv, text: seq<byte>, tlvs: seq<Tlv>, flags: byte,
                      tags: seq<byte>, fl: seq<byte>, y: seq<byte>, ctr: nat, data: seq<byte>, maced: seq<byte>)
    requires ValidVersion(st.version) && st.encrypted && st.theirKeyid != 0
    requires tags == (if st.version == 3 then Be(4, st.ourInstance) + Be(4, st.theirInstance) else [])
    requires fl == (if st.version >= 2 then [flags] else []) && y == Mpi(st.ourKey.pub)
    requires ctr == (st.s10.sendctr + 1) % (TWO32 * TWO32) && data == CtrCrypt(pr, st.s10.sendenc, ctr, Payload(text, tlvs))
    requires maced == [0, st.version, 3] + tags + fl + Be(4, (st.ourKeyid + TWO32 - 1) % TWO32) + Be(4, st.theirKeyid)
                      + Be(4, |y|) + y + Be(8, ctr) + Be(4, |data|) + data
    ensures var r := CreateData(pr, st, text, tlvs, flags);
            && r.Some? && r.value.1 == maced + pr.hmac(st.s10.sendmackey, maced) + Be(4, |st.saved|) + st.saved
            && r.value.2 == st.s10.extrakey
            && r.value.0 == st.(s10 := st.s10.(sendctr := (st.s10.sendctr + 1) % (TWO32 * TWO32)), saved := [], numSaved := 0)
  {
    var f := NextFields(pr, st, Payload(text, tlvs));
    NextSays(pr, st, Payload(text, tlvs), f);
    MacedOf(st, flags, f, tags, fl, y, maced);
    CreatedIs(pr, st, text, tlvs, flags, f, maced);
  }

  lemma MacedOf(st: Priv, flags: byte, f: Fields, tags: seq<byte>, fl: seq<byte>, y: seq<byte>, maced: seq<byte>)
    requires ValidVersion(st.version) && y == Mpi(f.nextY) && fl == (if st.version >= 2 then [flags] else [])
    requires tags == (if st.version == 3 then Be(4, st.ourInstance) + Be(4, st.theirInstance) else [])
    requires maced == [0, st.version, 3] + tags + fl + Be(4, f.sender) + Be(4, f.recipient)
                      + Be(4, |y|) + y + Be(8, f.ctr) + Be(4, |f.data|) + f.data
    ensures HeaderBytes(HeaderOf(st, flags)) + FieldBytes(f) == maced
  {
    MacedInOrder(st, flags, f, [0, st.version, 3], tags, fl, Be(4, f.sender), Be(4, f.recipient), Be(4, |y|), y, Be(8, f.ctr),
                 Be(4, |f.data|), f.data, maced);
  }

  lemma MacedInOrder(st: Priv, flags: byte, f: Fields, h: seq<byte>, tags: seq<byte>, fl: seq<byte>, a: seq<byte>, b: seq<byte>,
                     n: seq<byte>, y: seq<byte>, c: seq<byte>, m: seq<byte>, d: seq<byte>, maced: seq<byte>)
    requires ValidVersion(st.version) && h == [0, st.version, 3] && fl == (if st.version >= 2 then [flags] else [])
    requires tags == (if st.version == 3 then Be(4, st.ourInstance) + Be(4, st.theirInstance) else [])
    requires a == Be(4, f.sender) && b == Be(4, f.recipient) && n == Be(4, |y|) && y == Mpi(f.nextY)
    requires c == Be(8, f.ctr) && m == Be(4, |d|) && d == f.data
    requires maced == h + tags + fl + a + b + n + y + c + m + d
    ensures HeaderBytes(HeaderOf(st, flags)) + FieldBytes(f) == maced
  {
    HeaderParts(st, flags, h, tags, fl);
    FieldsInOrder(f, a, b, n, y, c, m, d);
    Joined(HeaderBytes(HeaderOf(st, flags)), FieldBytes(f), h, tags, fl, a, b, n, y, c, m, d, maced);
  }

  lemma NextSays(pr: Prims, st: Priv, payload: seq<byte>, f: Fields)
    requires f == NextFields(pr, st, payload)
    ensures DataLayout.FieldsSay(st, f) && f.data == CtrCrypt(pr, st.s10.sendenc, f.ctr, payload)
  {
    Pow256Of8();
  }

  lemma CreatedIs(pr: Prims, st: Priv, text: seq<byte>, tlvs: seq<Tlv>, flags: byte, f: Fields, maced: seq<byte>)
    requires ValidVersion(st.version) && st.encrypted && st.theirKeyid != 0 && f == NextFields(pr, st, Payload(text, tlvs))
    requires maced == HeaderBytes(HeaderOf(st, flags)) + FieldBytes(f)
    ensures var r := CreateData(pr, st, text, tlvs, flags);
            && r.Some? && r.value.1 == maced + pr.hmac(st.s10.sendmackey, maced) + Be(4, |st.saved|) + st.saved
            && r.value.2 == st.s10.extrakey
            && r.value.0 == st.(s10 := st.s10.(sendctr := (st.s10.sendctr + 1) % (TWO32 * TWO32)), saved := [], numSaved := 0)
  {
  }

  lemma HeaderParts(st: Priv, flags: byte, h: seq<byte>, tags: seq<byte>, fl: seq<byte>)
    requires ValidVersion(st.version) && h == [0, st.version, 3] && fl == (if st.version >= 2 then [flags] else [])
    requires tags == (if st.version == 3 then Be(4, st.ourInstance) + Be(4, st.theirInstance) else [])
    ensures HeaderBytes(HeaderOf(st, flags)) == h + (tags + fl)
  {
    DataLayout.HeaderSays(st, flags);
  }

  lemma FieldsInOrder(f: Fields, a: seq<byte>, b: seq<byte>, n: seq<byte>, y: seq<byte>, c: seq<byte>, m: seq<byte>, d: seq<byte>)
    requires a == Be(4, f.sender) && b == Be(4, f.recipient) && n == Be(4, |y|) && y == Mpi(f.nextY)
    requires c == Be(8, f.ctr) && m == Be(4, |d|) && d == f.data
    ensures FieldBytes(f) == a + b + (n + y) + c + m + d
  {
  }

  lemma Joined(hb: seq<byte>, fb: seq<byte>, h: seq<byte>, t: seq<byte>, g: seq<byte>, a: seq<byte>, b: seq<byte>, n: seq<byte>,
               y: seq<byte>, c: seq<byte>, m: seq<byte>, d: seq<byte>, all: seq<byte>)
    requires hb == h + (t + g) && fb == a + b + (n + y) + c + m + d && all == h + t + g + a + b + n + y + c + m + d
    ensures hb + fb == all
  {
  }
}
