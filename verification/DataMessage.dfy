// The octets of a data message: what otrl_proto_create_data writes and how
// otrl_proto_accept_data reads it back.
module DataMessage {
  import opened Bytes
  import opened Serial

  datatype Header = Header(version: nat, ourInstance: nat, theirInstance: nat, flags: byte)

  predicate ValidVersion(v: nat)
  {
    1 <= v <= 3
  }

  datatype Fields = Fields(sender: nat, recipient: nat, nextY: nat, ctr: nat, data: seq<byte>)

  // Every field fits where it is written.
  ghost predicate FieldsFit(f: Fields)
  {
    && f.sender < TWO32 && f.recipient < TWO32
    && Printable(f.nextY)
    && f.ctr < Pow256(8)
    && |f.data| < TWO32
  }

  function HeaderBytes(h: Header): seq<byte>
    requires ValidVersion(h.version)
  {
    [0, h.version, 3]
    + (if h.version == 3 then WriteInt(h.ourInstance) + WriteInt(h.theirInstance) else [])
    + (if h.version >= 2 then [h.flags] else [])
  }

  function FieldBytes(f: Fields): seq<byte>
  {
    WriteInt(f.sender) + WriteInt(f.recipient) + WriteMpi(f.nextY) + Be(8, f.ctr) + WriteInt(|f.data|) + f.data
  }

  // The authenticated part, then the MAC and the revealed MAC keys.
  function Assemble(maced: seq<byte>, mac: seq<byte>, revealed: seq<byte>): seq<byte>
  {
    maced + mac + WriteInt(|revealed|) + revealed
  }

  // A message as the receiver sees it: maced is the part the MAC covers.
  datatype Received = Received(flags: byte, fields: Fields, maced: seq<byte>, mac: seq<byte>)

  // skip_header, the instance tags and the flags
  function ReadHeader(raw: seq<byte>): (r: Option<(byte, seq<byte>)>)
    ensures r.Some? ==> |r.value.1| <= |raw|
  {
    var (h, s) :- ReadBytes(raw, 3);
    if h[0] != 0 || h[2] != 3 || !ValidVersion(h[1]) then None else
      var (tags, s) :- ReadBytes(s, if h[1] == 3 then 8 else 0);
      var (flags, s) :- ReadBytes(s, if h[1] >= 2 then 1 else 0);
      Some((if h[1] >= 2 then flags[0] else 0, s))
  }

  function ReadFields(s: seq<byte>): (r: Option<(Fields, seq<byte>)>)
    ensures r.Some? ==> |r.value.1| <= |s| && r.value.0.ctr < Pow256(8)
  {
    var (sender, s) :- ReadInt(s);
    var (recipient, s) :- ReadInt(s);
    var (nextY, s) :- ReadMpi(s);
    var (ctr, s) :- ReadBytes(s, 8);
    var (datalen, s) :- ReadInt(s);
    var (data, s) :- ReadBytes(s, datalen);
    Some((Fields(sender, recipient, nextY, FromBe(ctr), data), s))
  }

  // MAC, revealed keys (skipped), and nothing after them
  function ReadTrailer(s: seq<byte>): (r: Option<seq<byte>>)
    ensures r.Some? ==> |r.value| == 20
  {
    var (mac, s) :- ReadBytes(s, 20);
    var (reveallen, s) :- ReadInt(s);
    var (revealed, s) :- ReadBytes(s, reveallen);
    if s != [] then None else Some(mac)
  }

  function Parse(raw: seq<byte>): Option<Received>
  {
    var (flags, s) :- ReadHeader(raw);
    var (fields, s) :- ReadFields(s);
    var mac :- ReadTrailer(s);
    Some(Received(flags, fields, raw[..|raw| - |s|], mac))
  }

  // ----------------------------------------------------------- round trip

  lemma ReadWriteHeader(h: Header, rest: seq<byte>)
    requires ValidVersion(h.version)
    ensures ReadHeader(HeaderBytes(h) + rest) == Some((if h.version >= 2 then h.flags else 0, rest))
  {
    var tags := if h.version == 3 then WriteInt(h.ourInstance) + WriteInt(h.theirInstance) else [];
    var flags := if h.version >= 2 then [h.flags] else [];
    assert HeaderBytes(h) + rest == [0, h.version, 3] + (tags + (flags + rest));
    ReadWriteBytes([0, h.version, 3], tags + (flags + rest));
    ReadWriteBytes(tags, flags + rest);
    ReadWriteBytes(flags, rest);
  }

  lemma ReadWriteFields(f: Fields, rest: seq<byte>)
    requires FieldsFit(f)
    ensures ReadFields(FieldBytes(f) + rest) == Some((f, rest))
  {
    var t5 := f.data + rest;
    var t4 := WriteInt(|f.data|) + t5;
    var t3 := Be(8, f.ctr) + t4;
    var t2 := WriteMpi(f.nextY) + t3;
    var t1 := WriteInt(f.recipient) + t2;
    assert FieldBytes(f) + rest == WriteInt(f.sender) + t1;
    ReadWriteInt(f.sender, t1);
    ReadWriteInt(f.recipient, t2);
    ReadWriteMpi(f.nextY, t3);
    ReadWriteBytes(Be(8, f.ctr), t4);
    BeRoundTrip(8, f.ctr);
    ReadWriteInt(|f.data|, t5);
    ReadWriteBytes(f.data, rest);
  }

  lemma ReadWriteTrailer(mac: seq<byte>, revealed: seq<byte>)
    requires |mac| == 20 && |revealed| < TWO32
    ensures ReadTrailer(mac + WriteInt(|revealed|) + revealed) == Some(mac)
  {
    var t := WriteInt(|revealed|) + revealed;
    assert mac + WriteInt(|revealed|) + revealed == mac + t;
    ReadWriteBytes(mac, t);
    ReadWriteInt(|revealed|, revealed);
    ReadWriteBytes(revealed, []);
    assert revealed + [] == revealed;
  }

  // What is written is read back field by field, and the MAC covers exactly the
  // octets the sender computed it over.
  lemma ParseAssembled(h: Header, f: Fields, maced: seq<byte>, mac: seq<byte>, revealed: seq<byte>)
    requires ValidVersion(h.version) && FieldsFit(f) && |mac| == 20 && |revealed| < TWO32
    requires maced == HeaderBytes(h) + FieldBytes(f)
    ensures Parse(Assemble(maced, mac, revealed)) ==
            Some(Received(if h.version >= 2 then h.flags else 0, f, maced, mac))
  {
    var raw := Assemble(maced, mac, revealed);
    var s1, s2 := SplitAssembled(h, f, maced, mac, revealed, raw);
    ParseSteps(raw, maced, if h.version >= 2 then h.flags else 0, s1, f, s2, mac);
  }

  lemma SplitAssembled(h: Header, f: Fields, maced: seq<byte>, mac: seq<byte>, revealed: seq<byte>, raw: seq<byte>)
    returns (s1: seq<byte>, s2: seq<byte>)
    requires ValidVersion(h.version) && FieldsFit(f) && |mac| == 20 && |revealed| < TWO32
    requires maced == HeaderBytes(h) + FieldBytes(f) && raw == Assemble(maced, mac, revealed)
    ensures ReadHeader(raw) == Some((if h.version >= 2 then h.flags else 0, s1))
    ensures ReadFields(s1) == Some((f, s2))
    ensures ReadTrailer(s2) == Some(mac)
    ensures raw == maced + s2
  {
    s2 := mac + WriteInt(|revealed|) + revealed;
    s1 := FieldBytes(f) + s2;
    AssembledParts(HeaderBytes(h), FieldBytes(f), mac, revealed);
    ReadWriteHeader(h, s1);
    ReadWriteFields(f, s2);
    ReadWriteTrailer(mac, revealed);
  }

  lemma AssembledParts(hb: seq<byte>, fb: seq<byte>, mac: seq<byte>, revealed: seq<byte>)
    ensures var trailer := mac + WriteInt(|revealed|) + revealed;
            && Assemble(hb + fb, mac, revealed) == hb + (fb + trailer)
            && Assemble(hb + fb, mac, revealed) == (hb + fb) + trailer
  {
  }

  lemma ParseSteps(raw: seq<byte>, maced: seq<byte>, flags: byte, s1: seq<byte>, f: Fields, s2: seq<byte>, mac: seq<byte>)
    requires ReadHeader(raw) == Some((flags, s1)) && ReadFields(s1) == Some((f, s2)) && ReadTrailer(s2) == Some(mac)
    requires raw == maced + s2
    ensures Parse(raw) == Some(Received(flags, f, maced, mac))
  {
    assert raw[..|raw| - |s2|] == maced;
  }
}
