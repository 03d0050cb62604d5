// What a data message says, octet by octet, and who takes it: everything in it is read
// back, the instance tags and the revealed MAC keys included, and a message is accepted
// exactly when the keys it names are held, the MAC is theirs and the counter is new.
module DataLayout {
  import opened Bytes
  import opened Serial
  import opened Dh
  import opened Tlv
  import opened DataMessage
  import opened Ratchet
  import opened ModArith
  import Base64

  // ------------------------------------------------------- reading it all

  datatype Wire = Wire(head: seq<byte>, tags: (nat, nat), flags: seq<byte>, fields: Fields, mac: seq<byte>, revealed: seq<byte>)

  function ReadTags(s: seq<byte>): Option<((nat, nat), seq<byte>)>
  {
    var (sender, s) :- ReadInt(s);
    var (recipient, s) :- ReadInt(s);
    Some(((sender, recipient), s))
  }

  function ReadEnd(s: seq<byte>): Option<(seq<byte>, seq<byte>)>
  {
    var (mac, s) :- ReadBytes(s, 20);
    var (n, s) :- ReadInt(s);
    var (revealed, s) :- ReadBytes(s, n);
    if s == [] then Some((mac, revealed)) else None
  }

  function ReadWire(raw: seq<byte>): Option<Wire>
  {
    var (head, s) :- ReadBytes(raw, 3);
    var (tags, s) :- if head[1] == 3 then ReadTags(s) else Some(((0, 0), s));
    var (flags, s) :- ReadBytes(s, if head[1] >= 2 then 1 else 0);
    var (fields, s) :- ReadFields(s);
    var (mac, revealed) :- ReadEnd(s);
    Some(Wire(head, tags, flags, fields, mac, revealed))
  }

  // ------------------------------------------------------ what is created

  ghost predicate SendFits(pr: Prims, st: Priv, payload: seq<byte>)
    requires pr.p > 0
  {
    && TableOK(pr, st) && ValidVersion(st.version) && Generated(pr, st.ourKey)
    && st.ourInstance < TWO32 && st.theirInstance < TWO32 && |st.saved| < TWO32 && |payload| < TWO32
  }

  // The key numbers, the key and the counter of the next message
  ghost predicate FieldsSay(st: Priv, f: Fields)
  {
    && f.sender == (st.ourKeyid + TWO32 - 1) % TWO32 && f.recipient == st.theirKeyid
    && f.nextY == st.ourKey.pub && f.ctr == (st.s10.sendctr + 1) % (TWO32 * TWO32)
  }

  lemma NextFit(pr: Prims, st: Priv, payload: seq<byte>)
    requires PrimsOK(pr) && SendFits(pr, st, payload)
    ensures FieldsFit(NextFields(pr, st, payload)) && FieldsSay(st, NextFields(pr, st, payload))
  {
    Pow256Of8();
    MpiMonotone(st.ourKey.pub, pr.p);
  }

  lemma EndRead(mac: seq<byte>, revealed: seq<byte>)
    requires |mac| == 20 && |revealed| < TWO32
    ensures ReadEnd(mac + (WriteInt(|revealed|) + revealed)) == Some((mac, revealed))
  {
    ReadWriteBytes(mac, WriteInt(|revealed|) + revealed);
    ReadWriteInt(|revealed|, revealed);
    ReadWriteBytes(revealed, []);
    assert revealed + [] == revealed;
  }

  lemma TagsRead(a: nat, b: nat, rest: seq<byte>)
    requires a < TWO32 && b < TWO32
    ensures ReadTags(WriteInt(a) + WriteInt(b) + rest) == Some(((a, b), rest))
  {
    assert WriteInt(a) + WriteInt(b) + rest == WriteInt(a) + (WriteInt(b) + rest);
    ReadWriteInt(a, WriteInt(b) + rest);
    ReadWriteInt(b, rest);
  }

  // Whatever is written in this order is read as it was meant.
  lemma WireRead(raw: seq<byte>, head: seq<byte>, tags: seq<byte>, a: nat, b: nat, flags: seq<byte>, f: Fields, mac: seq<byte>, revealed: seq<byte>)
    requires |head| == 3 && a < TWO32 && b < TWO32 && |flags| == (if head[1] >= 2 then 1 else 0)
    requires tags == if head[1] == 3 then WriteInt(a) + WriteInt(b) else []
    requires FieldsFit(f) && |mac| == 20 && |revealed| < TWO32
    requires raw == head + (tags + (flags + (FieldBytes(f) + (mac + (WriteInt(|revealed|) + revealed)))))
    ensures ReadWire(raw) == Some(Wire(head, if head[1] == 3 then (a, b) else (0, 0), flags, f, mac, revealed))
  {
    var t1 := mac + (WriteInt(|revealed|) + revealed);
    var t2 := FieldBytes(f) + t1;
    var t3 := flags + t2;
    ReadWriteBytes(head, tags + t3);
    if head[1] == 3 { TagsRead(a, b, t3); } else { assert tags + t3 == t3; }
    ReadWriteBytes(flags, t2);
    ReadWriteFields(f, t1);
    EndRead(mac, revealed);
  }

  // The header of a message of a context
  lemma HeaderSays(st: Priv, flags: byte)
    requires ValidVersion(st.version)
    ensures HeaderBytes(HeaderOf(st, flags)) ==
            [0, st.version, 3]
            + ((if st.version == 3 then WriteInt(st.ourInstance) + WriteInt(st.theirInstance) else [])
               + (if st.version >= 2 then [flags] else []))
  {
  }

  lemma PiecesRead(raw: seq<byte>, head: seq<byte>, tags: seq<byte>, a: nat, b: nat, flags: seq<byte>, f: Fields,
                   maced: seq<byte>, mac: seq<byte>, revealed: seq<byte>)
    requires |head| == 3 && a < TWO32 && b < TWO32 && |flags| == (if head[1] >= 2 then 1 else 0)
    requires tags == if head[1] == 3 then WriteInt(a) + WriteInt(b) else []
    requires FieldsFit(f) && |mac| == 20 && |revealed| < TWO32
    requires maced == head + (tags + flags) + FieldBytes(f) && raw == maced + mac + WriteInt(|revealed|) + revealed
    ensures ReadWire(raw) == Some(Wire(head, if head[1] == 3 then (a, b) else (0, 0), flags, f, mac, revealed))
  {
    Regrouped(head, tags, flags, FieldBytes(f), mac, WriteInt(|revealed|), revealed);
    WireRead(raw, head, tags, a, b, flags, f, mac, revealed);
  }

  lemma MacSpan(raw: seq<byte>, maced: seq<byte>, mac: seq<byte>, n: seq<byte>, revealed: seq<byte>)
    requires |mac| == 20 && |n| == 4 && raw == maced + mac + n + revealed
    ensures |raw| >= 24 + |revealed| && raw[..|raw| - 24 - |revealed|] == maced
  {
  }

  lemma Regrouped(h: seq<byte>, t: seq<byte>, g: seq<byte>, f: seq<byte>, m: seq<byte>, n: seq<byte>, r: seq<byte>)
    ensures (h + (t + g) + f) + m + n + r == h + (t + (g + (f + (m + (n + r)))))
  {
  }

  // What a reader of all the octets finds
  ghost predicate Says(pr: Prims, st: Priv, payload: seq<byte>, flags: byte, raw: seq<byte>, w: Option<Wire>)
  {
    && w.Some? && w.value.head == [0, st.version, 3]
    && w.value.tags == (if st.version == 3 then (st.ourInstance, st.theirInstance) else (0, 0))
    && w.value.flags == (if st.version >= 2 then [flags] else [])
    && FieldsSay(st, w.value.fields)
    && w.value.fields.data == CtrCrypt(pr, st.s10.sendenc, w.value.fields.ctr, payload)
    && w.value.revealed == st.saved && |raw| >= 24 + |st.saved|
    && w.value.mac == pr.hmac(st.s10.sendmackey, raw[..|raw| - 24 - |st.saved|])
  }

  lemma PiecesSay(pr: Prims, st: Priv, payload: seq<byte>, flags: byte, f: Fields, fl: seq<byte>, maced: seq<byte>, raw: seq<byte>, w: Option<Wire>)
    requires ValidVersion(st.version) && FieldsSay(st, f) && f.data == CtrCrypt(pr, st.s10.sendenc, f.ctr, payload)
    requires fl == (if st.version >= 2 then [flags] else [])
    requires |raw| >= 24 + |st.saved| && raw[..|raw| - 24 - |st.saved|] == maced
    requires w == Some(Wire([0, st.version, 3], if st.version == 3 then (st.ourInstance, st.theirInstance) else (0, 0), fl, f,
                            pr.hmac(st.s10.sendmackey, maced), st.saved))
    ensures Says(pr, st, payload, flags, raw, w)
  {
  }

  lemma AssembledSays(pr: Prims, st: Priv, payload: seq<byte>, flags: byte, f: Fields, tags: seq<byte>, fl: seq<byte>, maced: seq<byte>,
                      mac: seq<byte>, raw: seq<byte>, w: Option<Wire>, head: seq<byte>)
    requires ValidVersion(st.version) && st.ourInstance < TWO32 && st.theirInstance < TWO32 && |st.saved| < TWO32
    requires FieldsFit(f) && FieldsSay(st, f) && |mac| == 20 && mac == pr.hmac(st.s10.sendmackey, maced) && head == [0, st.version, 3]
    requires f.data == CtrCrypt(pr, st.s10.sendenc, f.ctr, payload)
    requires tags == (if st.version == 3 then WriteInt(st.ourInstance) + WriteInt(st.theirInstance) else [])
    requires fl == (if st.version >= 2 then [flags] else [])
    requires maced == head + (tags + fl) + FieldBytes(f)
    requires raw == maced + mac + WriteInt(|st.saved|) + st.saved && w == ReadWire(raw)
    ensures Says(pr, st, payload, flags, raw, w)
  {
    PiecesRead(raw, head, tags, st.ourInstance, st.theirInstance, fl, f, maced, mac, st.saved);
    MacSpan(raw, maced, mac, WriteInt(|st.saved|), st.saved);
    PiecesSay(pr, st, payload, flags, f, fl, maced, raw, w);
  }

  // A message is refused exactly before a session exists; otherwise reading it gives back
  // the version, both instance tags, the flags, the key numbers, our newest key, the next
  // counter, the MAC of everything in front of it, and all the octets saved for revealing.
  lemma CreatedSays(pr: Prims, st: Priv, text: seq<byte>, tlvs: seq<Tlv>, flags: byte)
    requires PrimsOK(pr) && SendFits(pr, st, Payload(text, tlvs))
    ensures var r := CreateData(pr, st, text, tlvs, flags);
            && (r.None? <==> !st.encrypted || st.theirKeyid == 0)
            && (r.Some? ==> Says(pr, st, Payload(text, tlvs), flags, r.value.1, ReadWire(r.value.1)))
  {
    if CanSend(st) {
      var f := NextFields(pr, st, Payload(text, tlvs));
      var tags := if st.version == 3 then WriteInt(st.ourInstance) + WriteInt(st.theirInstance) else [];
      var fl := if st.version >= 2 then [flags] else [];
      var maced := HeaderBytes(HeaderOf(st, flags)) + FieldBytes(f);
      NextFit(pr, st, Payload(text, tlvs));
      HeaderSays(st, flags);
      var raw := Assemble(maced, pr.hmac(st.s10.sendmackey, maced), st.saved);
      AssembledSays(pr, st, Payload(text, tlvs), flags, f, tags, fl, maced, pr.hmac(st.s10.sendmackey, maced), raw, ReadWire(raw),
                    [0, st.version, 3]);
      CreatedRaw(pr, st, text, tlvs, flags, maced);
    }
  }

  lemma CreatedRaw(pr: Prims, st: Priv, text: seq<byte>, tlvs: seq<Tlv>, flags: byte, maced: seq<byte>)
    requires ValidVersion(st.version) && CanSend(st)
    requires maced == HeaderBytes(HeaderOf(st, flags)) + FieldBytes(NextFields(pr, st, Payload(text, tlvs)))
    ensures var r := CreateData(pr, st, text, tlvs, flags);
            r.Some? && r.value.1 == Assemble(maced, pr.hmac(st.s10.sendmackey, maced), st.saved)
  {
  }

  // ------------------------------------------------------- the tags in text

  // otrl_proto_instance
  function Instance(msg: string): Option<(nat, nat)>
  {
    if !("?OTR:AAM" <= msg) || |msg| < 21 then None else
      var (tags, _) :- ReadTags(Base64.Decoded([], msg[9..21]));
      Some(tags)
  }

  lemma FirstBlocks(raw: seq<byte>)
    requires |raw| >= 12
    ensures |Base64.Encoded(raw)| >= 16 && Base64.Encoded(raw)[..4] == Base64.EncodeBlock(raw[..3])
    ensures Base64.Encoded(raw)[4..16] == Base64.Encoded(raw[3..12])
  {
    var a, b := raw[3..], raw[3..12];
    assert Base64.Encoded(raw) == Base64.EncodeBlock(raw[..3]) + Base64.Encoded(a);
    PrefixEncoded(a, b);
  }

  lemma PrefixEncoded(a: seq<byte>, b: seq<byte>)
    requires |b| == 9 <= |a| && b == a[..9]
    ensures |Base64.Encoded(a)| >= 12 && Base64.Encoded(a)[..12] == Base64.Encoded(b)
  {
    OneBlock(a, b);
    OneBlock(a[3..], b[3..]);
    OneBlock(a[6..], b[6..]);
    assert b[3..][3..] == b[6..] && b[6..][3..] == [] && a[3..][3..] == a[6..];
  }

  lemma OneBlock(a: seq<byte>, b: seq<byte>)
    requires 3 <= |b| <= |a| && b == a[..|b|]
    ensures Base64.Encoded(a) == Base64.EncodeBlock(a[..3]) + Base64.Encoded(a[3..])
    ensures Base64.Encoded(b) == Base64.EncodeBlock(a[..3]) + Base64.Encoded(b[3..])
  {
    assert b[..3] == a[..3];
  }

  // Octets 3 to 10 of a data message of version 3, seen from its text
  lemma InstanceOfOctets(raw: seq<byte>, a: nat, b: nat)
    requires |raw| >= 12 && a < TWO32 && b < TWO32
    requires raw[..3] == [0, 3, 3] && raw[3..7] == WriteInt(a) && raw[7..11] == WriteInt(b)
    ensures "?OTR:AAMD" <= Base64.Envelope(raw) && Instance(Base64.Envelope(raw)) == Some((a, b))
  {
    FirstBlocks(raw);
    HeadBlock(raw[..3]);
    MarkOf(Base64.Encoded(raw));
    Base64.DecodedEncoded(raw[3..12]);
    assert raw[3..12] == WriteInt(a) + WriteInt(b) + raw[11..12];
    TagsRead(a, b, raw[11..12]);
  }

  lemma MarkOf(e: string)
    requires |e| >= 16 && e[..4] == "AAMD"
    ensures var msg := "?OTR:" + e + "."; "?OTR:AAMD" <= msg && "?OTR:AAM" <= msg && |msg| >= 21 && msg[9..21] == e[4..16]
  {
    assert ("?OTR:" + e + ".")[..9] == "?OTR:" + e[..4];
    assert "?OTR:AAMD"[..8] == "?OTR:AAM";
  }

  // The first four characters name the version and the kind of a message.
  lemma HeadBlock(d: seq<byte>)
    requires |d| == 3 && d[0] == 0 && 1 <= d[1] <= 3 && d[2] < 64
    ensures Base64.EncodeBlock(d)[..3] == (if d[1] == 3 then "AAM" else if d[1] == 2 then "AAI" else "AAE")
    ensures d == [0, 3, 3] ==> Base64.EncodeBlock(d) == "AAMD"
  {
  }

  lemma RawTags(raw: seq<byte>, a: nat, b: nat, flags: byte, hb: seq<byte>, fb: seq<byte>, rest: seq<byte>)
    requires a < TWO32 && b < TWO32 && fb != []
    requires hb == [0, 3, 3] + ((WriteInt(a) + WriteInt(b)) + [flags]) && raw == (hb + fb) + rest
    ensures "?OTR:AAMD" <= Base64.Envelope(raw) && Instance(Base64.Envelope(raw)) == Some((a, b))
  {
    HeadOctets(raw, a, b, flags, hb, fb + rest);
    InstanceOfOctets(raw, a, b);
  }

  lemma HeadOctets(raw: seq<byte>, a: nat, b: nat, flags: byte, hb: seq<byte>, rest: seq<byte>)
    requires hb == [0, 3, 3] + ((WriteInt(a) + WriteInt(b)) + [flags]) && raw == hb + rest
    ensures |raw| >= 12 && raw[..3] == [0, 3, 3] && raw[3..7] == WriteInt(a) && raw[7..11] == WriteInt(b)
  {
    assert hb[..3] == [0, 3, 3] && hb[3..7] == WriteInt(a) && hb[7..11] == WriteInt(b);
    assert raw[..12] == hb;
  }

  // The text of a message of a version 3 context starts with the mark of its kind, and the
  // recipient reads both instance tags from it: ours first.
  lemma TagsOfCreated(pr: Prims, st: Priv, text: seq<byte>, tlvs: seq<Tlv>, flags: byte)
    requires PrimsOK(pr) && SendFits(pr, st, Payload(text, tlvs)) && st.version == 3 && st.encrypted && st.theirKeyid != 0
    ensures var r := CreateData(pr, st, text, tlvs, flags);
            && r.Some? && "?OTR:AAMD" <= Base64.Envelope(r.value.1)
            && Instance(Base64.Envelope(r.value.1)) == Some((st.ourInstance, st.theirInstance))
  {
    var hb, fb := HeaderBytes(HeaderOf(st, flags)), FieldBytes(NextFields(pr, st, Payload(text, tlvs)));
    HeaderSays(st, flags);
    CreatedRaw(pr, st, text, tlvs, flags, hb + fb);
    CreatedTags(CreateData(pr, st, text, tlvs, flags).value.1, st, flags, hb, fb, pr.hmac(st.s10.sendmackey, hb + fb));
  }

  lemma CreatedTags(raw: seq<byte>, st: Priv, flags: byte, hb: seq<byte>, fb: seq<byte>, mac: seq<byte>)
    requires st.ourInstance < TWO32 && st.theirInstance < TWO32 && fb != []
    requires hb == [0, 3, 3] + ((WriteInt(st.ourInstance) + WriteInt(st.theirInstance)) + [flags])
    requires raw == Assemble(hb + fb, mac, st.saved)
    ensures "?OTR:AAMD" <= Base64.Envelope(raw) && Instance(Base64.Envelope(raw)) == Some((st.ourInstance, st.theirInstance))
  {
    assert raw == (hb + fb) + (mac + WriteInt(|st.saved|) + st.saved);
    RawTags(raw, st.ourInstance, st.theirInstance, flags, hb, fb, mac + WriteInt(|st.saved|) + st.saved);
  }

  // -------------------------------------------------------- who takes it

  // The key of ours, and that of theirs, that a message names
  function OursNamed(st: Priv, id: nat): Option<Keypair>
  {
    if id == 0 then None else
    if id == st.ourKeyid then Some(st.ourKey) else
    if id == (st.ourKeyid + TWO32 - 1) % TWO32 then Some(st.ourOldKey) else None
  }

  function TheirsNamed(st: Priv, id: nat): Option<nat>
  {
    if id == 0 || st.theirKeyid == 0 then None else
    if id == st.theirKeyid then st.theirY else
    if id == (st.theirKeyid + TWO32 - 1) % TWO32 then st.theirOldY else None
  }

  lemma NamedAreKnown(pr: Prims, st: Priv, f: Fields)
    requires PrimsOK(pr) && TableOK(pr, st)
    ensures KeysKnown(st, f) <==> OursNamed(st, f.recipient).Some? && TheirsNamed(st, f.sender).Some?
  {
  }

  // What becomes of a message that can be read: it is accepted exactly when both keys it
  // names are held, its MAC is the one under the session of these two keys, and its counter
  // is above the last one accepted under them.  It is decrypted with that session.
  function Verdict(pr: Prims, st: Priv, m: Received): Outcome
    requires pr.p > 0
  {
    var ours, theirs := OursNamed(st, m.fields.recipient), TheirsNamed(st, m.fields.sender);
    if ours.None? || theirs.None? then Conflict else
      var s := DhSession(pr, ours.value, theirs.value);
      var last := Slot(st, if m.fields.recipient == st.ourKeyid then 0 else 1, if m.fields.sender == st.theirKeyid then 0 else 1);
      if m.mac != pr.hmac(s.rcvmackey, m.maced) || m.fields.ctr <= last.rcvctr then Conflict else
        var data := CtrCrypt(pr, s.rcvenc, m.fields.ctr, m.fields.data);
        Plain(TextOf(data), TlvsOf(data), m.flags, s.extrakey)
  }

  lemma SlotNamed(pr: Prims, st: Priv, f: Fields)
    requires PrimsOK(pr) && TableOK(pr, st) && KeysKnown(st, f)
    ensures OursNamed(st, f.recipient).Some? && TheirsNamed(st, f.sender).Some?
    ensures RowOf(st, f) == (if f.recipient == st.ourKeyid then 0 else 1) && ColumnOf(st, f) == (if f.sender == st.theirKeyid then 0 else 1)
    ensures SessionOf(pr, Slot(st, RowOf(st, f), ColumnOf(st, f)), OursNamed(st, f.recipient).value, TheirsNamed(st, f.sender).value)
  {
    NamedAreKnown(pr, st, f);
    SlotIsSession(pr, st, f);
    IndexInTable(st, f);
  }

  lemma TakesExactly(pr: Prims, st: Priv, m: Received, freshPriv: nat)
    requires PrimsOK(pr) && TableOK(pr, st) && KeysKnown(st, m.fields)
    ensures AcceptParsed(pr, st, m, freshPriv).1 == Verdict(pr, st, m)
  {
    SlotNamed(pr, st, m.fields);
  }

  lemma AcceptsExactly(pr: Prims, st: Priv, raw: seq<byte>, m: Option<Received>, freshPriv: nat)
    requires PrimsOK(pr) && TableOK(pr, st) && m == Parse(raw)
    ensures AcceptData(pr, st, raw, freshPriv).1 == (if m.None? then InvValue else Verdict(pr, st, m.value))
  {
    if m.Some? {
      NamedAreKnown(pr, st, m.value.fields);
      if KeysKnown(st, m.value.fields) { TakesExactly(pr, st, m.value, freshPriv); }
    }
  }

  // ------------------------------------------------------- the session keys

  // The shared secret as it is hashed: four octets of length and its digits.  The end with
  // the larger public key sends under the octet 1 and receives under the octet 2.
  lemma SessionOctets(pr: Prims, kp: Keypair, y: nat)
    requires PrimsOK(pr)
    ensures var z := Mpi(Powm(y, kp.priv, pr.p));
            var one, two := pr.sha1([1] + (Be(4, |z|) + z))[..16], pr.sha1([2] + (Be(4, |z|) + z))[..16];
            var s := DhSession(pr, kp, y);
            && s.sendenc == (if kp.pub > y then one else two) && s.rcvenc == (if kp.pub > y then two else one)
            && s.sendmackey == pr.sha1(s.sendenc) && s.rcvmackey == pr.sha1(s.rcvenc)
            && s.extrakey == pr.sha256([255] + (Be(4, |z|) + z))
            && s.sendctr == s.rcvctr == 0 && !s.sendmacused && !s.rcvmacused
  {
  }
}
