// Two honest parties, started by matching exchanges, over channels that lose
// messages but keep their order: every data message delivered is accepted and gives
// back exactly what was sent.
module Delivery {
  import opened Bytes
  import opened Serial
  import opened Dh
  import opened Tlv
  import opened DataMessage
  import opened Ratchet
  import opened Bookkeeping
  import opened RatchetRuns
  import opened Windows

  // A message on its way, with what its sender put in and got back.
  datatype Packet = Packet(raw: seq<byte>, header: Header, fields: Fields, saved: seq<byte>,
                           text: seq<byte>, tlvs: seq<Tlv>, extrakey: seq<byte>)

  // ------------------------------------------------ keys of the two ends

  // Every key pair one end has had, by number.
  ghost predicate Owns(pr: Prims, x: Priv, keys: map<nat, Keypair>)
    requires pr.p > 0
  {
    && x.ourKeyid > 1 && x.ourKeyid in keys && x.ourKeyid - 1 in keys
    && x.ourKey == keys[x.ourKeyid] && x.ourOldKey == keys[x.ourKeyid - 1]
    && (forall k :: k in keys ==> k <= x.ourKeyid && Generated(pr, keys[k]))
  }

  // What one end believes about the keys of the other.
  ghost predicate Knows(y: Priv, keys: map<nat, Keypair>)
  {
    && y.theirKeyid > 0 && y.theirKeyid in keys && y.theirY == Some(keys[y.theirKeyid].pub)
    && (y.theirOldY.Some? ==> y.theirKeyid - 1 in keys && y.theirOldY == Some(keys[y.theirKeyid - 1].pub))
  }

  ghost predicate Apart(xKeys: map<nat, Keypair>, yKeys: map<nat, Keypair>)
  {
    forall i, j :: i in xKeys && j in yKeys ==> xKeys[i].pub != yKeys[j].pub
  }

  // A message as otrl_proto_create_data makes it with the keys it names.
  ghost predicate WellMade(pr: Prims, xKeys: map<nat, Keypair>, yKeys: map<nat, Keypair>, k: Packet)
    requires pr.p > 0
  {
    && k.fields.sender in xKeys && k.fields.sender + 1 in xKeys && k.fields.recipient in yKeys
    && k.fields.sender > 0 && k.fields.recipient > 0
    && ValidVersion(k.header.version) && FieldsFit(k.fields) && |k.saved| < TWO32
    && CString(k.text) && AllWellFormed(k.tlvs)
    && k.fields.nextY == xKeys[k.fields.sender + 1].pub
    && MadeWith(pr, DhSession(pr, xKeys[k.fields.sender], yKeys[k.fields.recipient].pub), k)
  }

  ghost predicate MadeWith(pr: Prims, s: Sess, k: Packet)
    requires ValidVersion(k.header.version)
  {
    var maced := HeaderBytes(k.header) + FieldBytes(k.fields);
    && k.raw == Assemble(maced, pr.hmac(s.sendmackey, maced), k.saved)
    && k.fields.data == CtrCrypt(pr, s.sendenc, k.fields.ctr, Payload(k.text, k.tlvs))
    && k.extrakey == s.extrakey
  }

  function FlagsOf(h: Header): byte
  {
    if h.version >= 2 then h.flags else 0
  }

  // ------------------------------------------------ accepting such a message

  ghost predicate CanTake(y: Priv, f: Fields)
  {
    KeyidsFit(y) && KeysKnown(y, f) && SlotOf(y, f).rcvctr < f.ctr
  }

  lemma PickedKeys(pr: Prims, y: Priv, xKeys: map<nat, Keypair>, yKeys: map<nat, Keypair>, f: Fields)
    requires pr.p > 0 && KeyidsFit(y) && KeysKnown(y, f) && Owns(pr, y, yKeys) && Knows(y, xKeys)
    ensures f.recipient in yKeys && (if f.recipient == y.ourKeyid then y.ourKey else y.ourOldKey) == yKeys[f.recipient]
    ensures f.sender in xKeys && (if f.sender == y.theirKeyid then y.theirY else y.theirOldY) == Some(xKeys[f.sender].pub)
  {
  }

  lemma MirrorThrough(pr: Prims, s: Sess, t: Sess, kp: Keypair, y: nat)
    requires pr.p > 0 && SessionOf(pr, t, kp, y) && Mirrored(s, DhSession(pr, kp, y))
    ensures Mirrored(s, t)
  {
    var d := DhSession(pr, kp, y);
    assert t.(sendctr := 0, rcvctr := 0, sendmacused := false, rcvmacused := false) == d;
  }

  // The slot the receiver picks mirrors the session the sender used.
  lemma SlotMirrors(pr: Prims, y: Priv, xKeys: map<nat, Keypair>, yKeys: map<nat, Keypair>, f: Fields)
    requires PrimsOK(pr) && TableOK(pr, y) && y.encrypted && KeysKnown(y, f)
    requires Owns(pr, y, yKeys) && Knows(y, xKeys) && Apart(xKeys, yKeys)
    requires f.sender in xKeys && f.recipient in yKeys && Generated(pr, xKeys[f.sender])
    ensures Mirrored(DhSession(pr, xKeys[f.sender], yKeys[f.recipient].pub), SlotOf(y, f))
  {
    SlotIsSession(pr, y, f);
    PickedKeys(pr, y, xKeys, yKeys, f);
    MirrorSlot(pr, SlotOf(y, f), xKeys[f.sender], yKeys[f.recipient]);
  }

  lemma MirrorSlot(pr: Prims, t: Sess, a: Keypair, b: Keypair)
    requires PrimsOK(pr) && Generated(pr, a) && Generated(pr, b) && a.pub != b.pub && SessionOf(pr, t, b, a.pub)
    ensures Mirrored(DhSession(pr, a, b.pub), t)
  {
    SessionMirror(pr, a, b);
    MirrorThrough(pr, DhSession(pr, a, b.pub), t, b, a.pub);
  }

  lemma TakeWellMade(pr: Prims, y: Priv, xKeys: map<nat, Keypair>, yKeys: map<nat, Keypair>, k: Packet, freshPriv: nat)
    requires Ready(pr, y) && Owns(pr, y, yKeys) && Knows(y, xKeys) && Apart(xKeys, yKeys)
    requires WellMade(pr, xKeys, yKeys, k) && Generated(pr, xKeys[k.fields.sender]) && CanTake(y, k.fields)
    ensures AcceptData(pr, y, k.raw, freshPriv) ==
            (Rotations(pr, Taken(y, k.fields), k.fields, freshPriv), Plain(k.text, k.tlvs, FlagsOf(k.header), k.extrakey))
  {
    var f := k.fields;
    var maced := HeaderBytes(k.header) + FieldBytes(f);
    var s := DhSession(pr, xKeys[f.sender], yKeys[f.recipient].pub);
    SlotMirrors(pr, y, xKeys, yKeys, f);
    ParseAssembled(k.header, f, maced, pr.hmac(s.sendmackey, maced), k.saved);
    CtrInvolution(pr, s.sendenc, f.ctr, Payload(k.text, k.tlvs));
    PayloadRoundTrip(k.text, k.tlvs);
    IndexInTable(y, f);
  }

  // ----------------------------------------------------- a conversation

  // The two ends, the messages from a to b and from b to a, and the keys used so far.
  datatype Config = Config(a: Priv, b: Priv, ab: seq<Packet>, ba: seq<Packet>,
                           aKeys: map<nat, Keypair>, bKeys: map<nat, Keypair>)

  // What one end, or the channel towards it, may do.
  datatype Happening =
    | Speak(text: seq<byte>, tlvs: seq<Tlv>, flags: byte)
    | Hear(freshPriv: nat)
    | Lose

  datatype Turn = Turn(first: bool, what: Happening)

  function Swap(c: Config): Config
  {
    Config(c.b, c.a, c.ba, c.ab, c.bKeys, c.aKeys)
  }

  function Made(pr: Prims, x: Priv, text: seq<byte>, tlvs: seq<Tlv>, flags: byte): Option<(Priv, Packet)>
    requires ValidVersion(x.version)
  {
    var (x1, raw, extrakey) :- CreateData(pr, x, text, tlvs, flags);
    Some((x1, Packet(raw, HeaderOf(x, flags), NextFields(pr, x, Payload(text, tlvs)), x.saved, text, tlvs, extrakey)))
  }

  // a takes the head of its channel and is left in state a1.
  function Heard(c: Config, a1: Priv): Config
    requires c.ba != []
  {
    c.(a := a1, ba := c.ba[1..], aKeys := c.aKeys[a1.ourKeyid := a1.ourKey])
  }

  function Act(pr: Prims, c: Config, what: Happening): Config
    requires pr.p > 0 && KeyidsFit(c.a) && ValidVersion(c.a.version)
  {
    match what
    case Speak(text, tlvs, flags) =>
      var r := Made(pr, c.a, text, tlvs, flags);
      if r.None? then c else c.(a := r.value.0, ab := c.ab + [r.value.1])
    case Hear(freshPriv) =>
      if c.ba == [] then c else Heard(c, AcceptData(pr, c.a, c.ba[0].raw, freshPriv).0)
    case Lose => if c.ba == [] then c else c.(ba := c.ba[1..])
  }

  // What the environment may choose: a C string and a chain of records that fit the
  // length fields, and fresh keys the other end does not have.
  ghost predicate Allowed(pr: Prims, c: Config, what: Happening)
    requires pr.p > 0
  {
    match what
    case Speak(text, tlvs, flags) =>
      CString(text) && AllWellFormed(tlvs) && |Payload(text, tlvs)| < TWO32
    case Hear(freshPriv) => forall j :: j in c.bKeys ==> c.bKeys[j].pub != GenKeypair(pr, freshPriv).pub
    case Lose => true
  }

  function Triples(ch: seq<Packet>): (ts: seq<Triple>)
    ensures |ts| == |ch|
  {
    seq(|ch|, i requires 0 <= i < |ch| => TripleOf(ch[i].fields))
  }

  ghost predicate AllWellMade(pr: Prims, xKeys: map<nat, Keypair>, yKeys: map<nat, Keypair>, ch: seq<Packet>)
    requires pr.p > 0
  {
    forall i :: 0 <= i < |ch| ==> WellMade(pr, xKeys, yKeys, ch[i])
  }

  ghost predicate Linked(pr: Prims, x: Priv, xKeys: map<nat, Keypair>, y: Priv, yKeys: map<nat, Keypair>, ch: seq<Packet>)
    requires pr.p > 0
  {
    && Ready(pr, x) && Owns(pr, x, xKeys) && Knows(y, xKeys)
    && AllWellMade(pr, xKeys, yKeys, ch) && OneWay(CoreOf(x), CoreOf(y), Triples(ch))
  }

  ghost predicate Good(pr: Prims, c: Config)
    requires pr.p > 0
  {
    && Apart(c.aKeys, c.bKeys)
    && Linked(pr, c.a, c.aKeys, c.b, c.bKeys, c.ab)
    && Linked(pr, c.b, c.bKeys, c.a, c.aKeys, c.ba)
  }

  // Room for n more turns before a number wraps: a turn saves four MAC keys at most.
  ghost predicate Wide(st: Priv, n: nat)
  {
    && |st.saved| + 80 * n < TWO32
    && st.ourKeyid + n < TWO32 && st.theirKeyid + n < TWO32 && st.s10.sendctr + n < TWO64 && st.s00.sendctr == 0
  }

  // ------------------------------------------------------------- speaking

  lemma PubPrintable(pr: Prims, kp: Keypair)
    requires PrimsOK(pr) && Generated(pr, kp)
    ensures Printable(kp.pub)
  {
    MpiMonotone(kp.pub, pr.p);
  }

  lemma MadeWellMade(pr: Prims, x: Priv, xKeys: map<nat, Keypair>, yKeys: map<nat, Keypair>, text: seq<byte>, tlvs: seq<Tlv>, flags: byte)
    requires Ready(pr, x) && Owns(pr, x, xKeys) && Knows(x, yKeys) && x.s10.sendctr + 1 < TWO64
    requires CString(text) && AllWellFormed(tlvs) && |Payload(text, tlvs)| < TWO32 && |x.saved| < TWO32
    ensures var r := Made(pr, x, text, tlvs, flags);
            && r.Some? && r.value.0 == AfterSend(x)
            && WellMade(pr, xKeys, yKeys, r.value.1)
            && TripleOf(r.value.1.fields) == Next(CoreOf(x))
  {
    NumbersStep(x.ourKeyid, x.s10.sendctr);
    MadeFits(pr, x, Payload(text, tlvs));
    UsesOldKey(pr, x, xKeys, yKeys);
  }

  lemma MadeFits(pr: Prims, x: Priv, payload: seq<byte>)
    requires PrimsOK(pr) && KeyidsFit(x) && Generated(pr, x.ourKey) && |payload| < TWO32
    ensures FieldsFit(NextFields(pr, x, payload))
  {
    Pow256Of8();
    PubPrintable(pr, x.ourKey);
  }

  lemma UsesOldKey(pr: Prims, x: Priv, xKeys: map<nat, Keypair>, yKeys: map<nat, Keypair>)
    requires Ready(pr, x) && Owns(pr, x, xKeys) && Knows(x, yKeys)
    ensures SameKeys(x.s10, DhSession(pr, xKeys[x.ourKeyid - 1], yKeys[x.theirKeyid].pub))
  {
    assert SessionOf(pr, x.s10, x.ourOldKey, x.theirY.value);
    assert x.s10.(sendctr := 0, rcvctr := 0, sendmacused := false, rcvmacused := false)
        == DhSession(pr, xKeys[x.ourKeyid - 1], yKeys[x.theirKeyid].pub);
  }

  lemma TriplesSnoc(ch: seq<Packet>, k: Packet)
    ensures Triples(ch + [k]) == Triples(ch) + [TripleOf(k.fields)]
  {
  }

  lemma TriplesTail(ch: seq<Packet>)
    requires ch != []
    ensures Triples(ch[1..]) == Triples(ch)[1..]
  {
  }

  lemma SpeakerLinked(pr: Prims, x: Priv, xKeys: map<nat, Keypair>, y: Priv, yKeys: map<nat, Keypair>, ch: seq<Packet>, k: Packet)
    requires pr.p > 0 && Linked(pr, x, xKeys, y, yKeys, ch) && Ready(pr, AfterSend(x)) && WellMade(pr, xKeys, yKeys, k)
    requires x.s10.sendctr + 1 < TWO64 && y.ourKeyid - 1 <= x.theirKeyid && TripleOf(k.fields) == Next(CoreOf(x))
    ensures Linked(pr, AfterSend(x), xKeys, y, yKeys, ch + [k])
  {
    CoreSend(x);
    SendKeeps(CoreOf(x), CoreOf(y), Triples(ch));
    TriplesSnoc(ch, k);
  }

  lemma ListenerSpoke(pr: Prims, x: Priv, xKeys: map<nat, Keypair>, y: Priv, yKeys: map<nat, Keypair>, ch: seq<Packet>)
    requires pr.p > 0 && Linked(pr, x, xKeys, y, yKeys, ch) && y.s10.sendctr + 1 < TWO64
    ensures Linked(pr, x, xKeys, AfterSend(y), yKeys, ch)
  {
    CoreSend(y);
    ReceiverSends(CoreOf(x), CoreOf(y), Triples(ch));
  }

  lemma SpeakKeeps(pr: Prims, c: Config, text: seq<byte>, tlvs: seq<Tlv>, flags: byte)
    requires PrimsOK(pr) && Good(pr, c) && Wide(c.a, 1) && Allowed(pr, c, Speak(text, tlvs, flags))
    ensures Good(pr, Act(pr, c, Speak(text, tlvs, flags)))
  {
    MadeWellMade(pr, c.a, c.aKeys, c.bKeys, text, tlvs, flags);
    CreateDataTable(pr, c.a, text, tlvs, flags);
    var k := Made(pr, c.a, text, tlvs, flags).value.1;
    SpeakerLinked(pr, c.a, c.aKeys, c.b, c.bKeys, c.ab, k);
    ListenerSpoke(pr, c.b, c.bKeys, c.a, c.aKeys, c.ba);
  }

  // -------------------------------------------------------------- hearing

  // The rotations a message causes, seen from the channel it came on.
  lemma ReceiverRotations(pr: Prims, cx: Core, y: Priv, f: Fields, freshPriv: nat, ts: seq<Triple>)
    requires PrimsOK(pr) && TableOK(pr, y) && y.encrypted && y.ourKeyid + 1 < TWO32 && y.theirKeyid + 1 < TWO32
    requires OneWay(cx, CoreOf(y), ts) && f.sender < cx.our
    requires forall k :: 0 <= k < |ts| ==> f.sender <= ts[k].sender && f.recipient <= ts[k].recipient
    ensures OneWay(cx, CoreOf(Rotations(pr, y, f, freshPriv)), ts)
  {
    var y1 := y;
    if f.recipient == y.ourKeyid {
      var r, s := CoreRotateDh(pr, y, freshPriv);
      ReceiverRow(cx, CoreOf(y), ts, r, s);
      y1 := RotateDh(pr, y, freshPriv);
    }
    RotateDhTable(pr, y, freshPriv);
    if f.sender == y1.theirKeyid {
      var r, s := CoreRotateY(pr, y1, f.nextY);
      ReceiverColumn(cx, CoreOf(y1), ts, r, s);
    }
  }

  // The same rotations seen from the channel this end sends on.
  lemma SenderRotations(pr: Prims, x: Priv, cy: Core, f: Fields, freshPriv: nat, ts: seq<Triple>)
    requires PrimsOK(pr) && TableOK(pr, x) && x.encrypted && x.ourKeyid + 1 < TWO32 && x.theirKeyid + 1 < TWO32
    requires OneWay(CoreOf(x), cy, ts) && f.recipient <= cy.their
    ensures OneWay(CoreOf(Rotations(pr, x, f, freshPriv)), cy, ts)
  {
    var x1 := x;
    if f.recipient == x.ourKeyid {
      var r, s := CoreRotateDh(pr, x, freshPriv);
      SenderRow(CoreOf(x), cy, ts, r, s);
      x1 := RotateDh(pr, x, freshPriv);
    }
    RotateDhTable(pr, x, freshPriv);
    if f.sender == x1.theirKeyid {
      var r, s := CoreRotateY(pr, x1, f.nextY);
      SenderColumn(CoreOf(x1), cy, ts, r, s);
    }
  }

  // The head of the channel names keys the receiver holds, and is new to it.
  lemma HeadCanBeTaken(pr: Prims, x: Priv, xKeys: map<nat, Keypair>, y: Priv, yKeys: map<nat, Keypair>, ch: seq<Packet>)
    requires pr.p > 0 && Linked(pr, x, xKeys, y, yKeys, ch) && ch != [] && x.theirKeyid <= y.ourKeyid && Ready(pr, y) && y.ourKeyid > 0
    ensures CanTake(y, ch[0].fields)
    ensures InWindow(CoreOf(y), PairOf(ch[0].fields))
    ensures CoreOf(Taken(y, ch[0].fields)) == Marked(CoreOf(y), PairOf(ch[0].fields), ch[0].fields.ctr)
    ensures ch[0].fields.ctr < TWO64
  {
    var f := ch[0].fields;
    assert WellMade(pr, xKeys, yKeys, ch[0]);
    Pow256Of8();
    HeadInWindow(CoreOf(x), CoreOf(y), Triples(ch));
    NamesKnown(y, f);
    PairInWindow(y, f);
    CoreSlot(y, RowOf(y, f), ColumnOf(y, f), SlotOf(y, f).(rcvmacused := true, rcvctr := f.ctr));
  }

  lemma NamesKnown(y: Priv, f: Fields)
    requires KeyidsFit(y) && y.ourKeyid > 0 && y.theirKeyid > 0 && f.sender > 0 && f.recipient > 0
    requires InWindow(CoreOf(y), PairOf(f))
    ensures KeysKnown(y, f)
  {
  }

  ghost predicate OurKeysMoved(pr: Prims, y: Priv, z: Priv, f: Fields, freshPriv: nat)
    requires pr.p > 0
  {
    if f.recipient == y.ourKeyid then
      z.ourKeyid == y.ourKeyid + 1 && z.ourKey == GenKeypair(pr, freshPriv) && z.ourOldKey == y.ourKey
    else z.ourKeyid == y.ourKeyid && z.ourKey == y.ourKey && z.ourOldKey == y.ourOldKey
  }

  ghost predicate TheirKeysMoved(y: Priv, z: Priv, f: Fields)
  {
    if f.sender == y.theirKeyid then
      z.theirKeyid == y.theirKeyid + 1 && z.theirY == Some(f.nextY) && z.theirOldY == y.theirY
    else z.theirKeyid == y.theirKeyid && z.theirY == y.theirY && z.theirOldY == y.theirOldY
  }

  lemma RotationsKeys(pr: Prims, y: Priv, f: Fields, freshPriv: nat)
    requires pr.p > 0 && y.ourKeyid + 1 < TWO32 && y.theirKeyid + 1 < TWO32
    ensures OurKeysMoved(pr, y, Rotations(pr, y, f, freshPriv), f, freshPriv)
    ensures TheirKeysMoved(y, Rotations(pr, y, f, freshPriv), f)
  {
    NumbersUp(y.ourKeyid);
    NumbersUp(y.theirKeyid);
  }

  ghost predicate Extends(keys: map<nat, Keypair>, more: map<nat, Keypair>)
  {
    forall k :: k in keys ==> k in more && more[k] == keys[k]
  }

  lemma OwnsMore(pr: Prims, y: Priv, z: Priv, keys: map<nat, Keypair>, f: Fields, freshPriv: nat)
    requires pr.p > 0 && Owns(pr, y, keys) && OurKeysMoved(pr, y, z, f, freshPriv)
    ensures Owns(pr, z, keys[z.ourKeyid := z.ourKey]) && Extends(keys, keys[z.ourKeyid := z.ourKey])
    ensures forall k :: k in keys[z.ourKeyid := z.ourKey] ==>
              (k in keys && keys[z.ourKeyid := z.ourKey][k] == keys[k]) || keys[z.ourKeyid := z.ourKey][k] == GenKeypair(pr, freshPriv)
  {
  }

  lemma KnowsMore(y: Priv, z: Priv, keys: map<nat, Keypair>, f: Fields)
    requires Knows(y, keys) && TheirKeysMoved(y, z, f)
    requires f.sender in keys && f.sender + 1 in keys && f.nextY == keys[f.sender + 1].pub
    ensures Knows(z, keys)
  {
  }

  lemma KnowsExtended(y: Priv, keys: map<nat, Keypair>, more: map<nat, Keypair>)
    requires Knows(y, keys) && Extends(keys, more)
    ensures Knows(y, more)
  {
  }

  lemma WellMadeExtended(pr: Prims, xKeys: map<nat, Keypair>, yKeys: map<nat, Keypair>, k: Packet,
                         xMore: map<nat, Keypair>, yMore: map<nat, Keypair>)
    requires pr.p > 0 && WellMade(pr, xKeys, yKeys, k) && Extends(xKeys, xMore) && Extends(yKeys, yMore)
    ensures WellMade(pr, xMore, yMore, k)
  {
  }

  lemma AllExtended(pr: Prims, xKeys: map<nat, Keypair>, yKeys: map<nat, Keypair>, ch: seq<Packet>,
                    xMore: map<nat, Keypair>, yMore: map<nat, Keypair>)
    requires pr.p > 0 && AllWellMade(pr, xKeys, yKeys, ch) && Extends(xKeys, xMore) && Extends(yKeys, yMore)
    ensures AllWellMade(pr, xMore, yMore, ch)
  {
    forall i | 0 <= i < |ch|
      ensures WellMade(pr, xMore, yMore, ch[i])
    {
      WellMadeExtended(pr, xKeys, yKeys, ch[i], xMore, yMore);
    }
  }

  lemma HeardInOrder(pr: Prims, cx: Core, y: Priv, ch: seq<Packet>, f: Fields, freshPriv: nat)
    requires Ready(pr, y) && ch != [] && ch[0].fields == f && CanTake(y, f) && f.ctr < TWO64
    requires OneWay(cx, CoreOf(y), Triples(ch)) && InWindow(CoreOf(y), PairOf(f))
    requires y.ourKeyid + 1 < TWO32 && y.theirKeyid + 1 < TWO32
    requires CoreOf(Taken(y, f)) == Marked(CoreOf(y), PairOf(f), f.ctr)
    ensures OneWay(cx, CoreOf(Rotations(pr, Taken(y, f), f, freshPriv)), Triples(ch[1..]))
  {
    TakenTable(pr, y, f);
    ReceiverMarks(cx, CoreOf(y), Triples(ch));
    HeadIsLeast(Triples(ch));
    ReceiverRotations(pr, cx, Taken(y, f), f, freshPriv, Triples(ch)[1..]);
    TriplesTail(ch);
  }

  lemma HeardKeys(pr: Prims, y: Priv, xKeys: map<nat, Keypair>, f: Fields, freshPriv: nat)
    requires pr.p > 0 && KeyidsFit(y) && KeysKnown(y, f) && Knows(y, xKeys)
    requires y.ourKeyid + 1 < TWO32 && y.theirKeyid + 1 < TWO32
    requires f.sender in xKeys && f.sender + 1 in xKeys && f.nextY == xKeys[f.sender + 1].pub
    ensures Knows(Rotations(pr, Taken(y, f), f, freshPriv), xKeys)
  {
    TakenKeepsKeys(y, f);
    RotationsKeys(pr, Taken(y, f), f, freshPriv);
    KnowsMore(Taken(y, f), Rotations(pr, Taken(y, f), f, freshPriv), xKeys, f);
  }

  lemma HeadIsLeast(ts: seq<Triple>)
    requires InOrder(ts) && ts != []
    ensures forall k :: 0 <= k < |ts[1..]| ==> ts[0].sender <= ts[1..][k].sender && ts[0].recipient <= ts[1..][k].recipient
  {
  }

  lemma TakenKeepsKeys(y: Priv, f: Fields)
    requires KeyidsFit(y) && KeysKnown(y, f)
    ensures var t := Taken(y, f);
            && t.theirKeyid == y.theirKeyid && t.theirY == y.theirY && t.theirOldY == y.theirOldY
            && t.ourKeyid == y.ourKeyid && t.ourKey == y.ourKey && t.ourOldKey == y.ourOldKey
            && t.version == y.version && t.encrypted == y.encrypted
  {
    IndexInTable(y, f);
  }

  // The same end as the sender of the other channel.
  lemma HearerInOrder(pr: Prims, x: Priv, cy: Core, ts: seq<Triple>, f: Fields, freshPriv: nat)
    requires Ready(pr, x) && CanTake(x, f) && f.ctr < TWO64 && OneWay(CoreOf(x), cy, ts)
    requires x.ourKeyid + 1 < TWO32 && x.theirKeyid + 1 < TWO32 && f.recipient <= cy.their
    requires InWindow(CoreOf(x), PairOf(f)) && CoreOf(Taken(x, f)) == Marked(CoreOf(x), PairOf(f), f.ctr)
    ensures OneWay(CoreOf(Rotations(pr, Taken(x, f), f, freshPriv)), cy, ts)
  {
    TakenTable(pr, x, f);
    SenderMarks(CoreOf(x), cy, ts, PairOf(f), f.ctr);
    SenderRotations(pr, Taken(x, f), cy, f, freshPriv, ts);
  }

  lemma HearerReady(pr: Prims, x: Priv, keys: map<nat, Keypair>, f: Fields, freshPriv: nat) returns (more: map<nat, Keypair>)
    requires Ready(pr, x) && CanTake(x, f) && f.ctr < TWO64 && Owns(pr, x, keys)
    requires x.ourKeyid + 1 < TWO32 && x.theirKeyid + 1 < TWO32
    ensures var z := Rotations(pr, Taken(x, f), f, freshPriv);
            Ready(pr, z) && Owns(pr, z, more) && more == keys[z.ourKeyid := z.ourKey]
    ensures Extends(keys, more)
    ensures forall k :: k in more ==> (k in keys && more[k] == keys[k]) || more[k] == GenKeypair(pr, freshPriv)
  {
    TakenTable(pr, x, f);
    TakenKeepsKeys(x, f);
    var z := Rotations(pr, Taken(x, f), f, freshPriv);
    RotationsKeys(pr, Taken(x, f), f, freshPriv);
    OwnsMore(pr, x, z, keys, f, freshPriv);
    RotationsTable(pr, Taken(x, f), f, freshPriv);
    RotationsKeepVersion(pr, Taken(x, f), f, freshPriv);
    more := keys[z.ourKeyid := z.ourKey];
  }

  // ------------------------------------------------- everything, turn by turn

  // The head of the channel towards a is accepted; z is a's state after it.
  lemma HearTakes(pr: Prims, c: Config, freshPriv: nat) returns (z: Priv, more: map<nat, Keypair>)
    requires PrimsOK(pr) && Good(pr, c) && Wide(c.a, 1) && c.ba != []
    ensures AcceptData(pr, c.a, c.ba[0].raw, freshPriv) ==
            (z, Plain(c.ba[0].text, c.ba[0].tlvs, FlagsOf(c.ba[0].header), c.ba[0].extrakey))
    ensures Ready(pr, z) && Owns(pr, z, more) && more == c.aKeys[z.ourKeyid := z.ourKey] && Extends(c.aKeys, more)
    ensures forall k :: k in more ==> (k in c.aKeys && more[k] == c.aKeys[k]) || more[k] == GenKeypair(pr, freshPriv)
    ensures Knows(z, c.bKeys)
    ensures OneWay(CoreOf(c.b), CoreOf(z), Triples(c.ba[1..])) && OneWay(CoreOf(z), CoreOf(c.b), Triples(c.ab))
  {
    var k, f := c.ba[0], c.ba[0].fields;
    HeadCanBeTaken(pr, c.b, c.bKeys, c.a, c.aKeys, c.ba);
    assert WellMade(pr, c.bKeys, c.aKeys, k);
    TakeWellMade(pr, c.a, c.bKeys, c.aKeys, k, freshPriv);
    z := Rotations(pr, Taken(c.a, f), f, freshPriv);
    more := HearerReady(pr, c.a, c.aKeys, f, freshPriv);
    HeardKeys(pr, c.a, c.bKeys, f, freshPriv);
    HeardInOrder(pr, CoreOf(c.b), c.a, c.ba, f, freshPriv);
    HeadRecipient(c, f);
    HearerInOrder(pr, c.a, CoreOf(c.b), Triples(c.ab), f, freshPriv);
  }

  lemma HeardLinked(pr: Prims, x: Priv, xKeys: map<nat, Keypair>, y: Priv, yKeys: map<nat, Keypair>, ch: seq<Packet>,
                    z: Priv, more: map<nat, Keypair>)
    requires pr.p > 0 && Linked(pr, x, xKeys, y, yKeys, ch) && ch != []
    requires Knows(z, xKeys) && OneWay(CoreOf(x), CoreOf(z), Triples(ch[1..])) && Extends(yKeys, more)
    ensures Linked(pr, x, xKeys, z, more, ch[1..])
  {
    AllExtended(pr, xKeys, yKeys, ch[1..], xKeys, more);
  }

  lemma HearerLinked(pr: Prims, x: Priv, xKeys: map<nat, Keypair>, y: Priv, yKeys: map<nat, Keypair>, ch: seq<Packet>,
                     z: Priv, more: map<nat, Keypair>)
    requires pr.p > 0 && Linked(pr, x, xKeys, y, yKeys, ch) && Extends(xKeys, more)
    requires Ready(pr, z) && Owns(pr, z, more) && OneWay(CoreOf(z), CoreOf(y), Triples(ch))
    ensures Linked(pr, z, more, y, yKeys, ch)
  {
    KnowsExtended(y, xKeys, more);
    AllExtended(pr, xKeys, yKeys, ch, more, yKeys);
  }

  lemma HeardGood(pr: Prims, c: Config, freshPriv: nat, z: Priv, more: map<nat, Keypair>)
    requires pr.p > 0 && Good(pr, c) && Allowed(pr, c, Hear(freshPriv)) && c.ba != []
    requires Ready(pr, z) && Owns(pr, z, more) && more == c.aKeys[z.ourKeyid := z.ourKey] && Extends(c.aKeys, more)
    requires forall k :: k in more ==> (k in c.aKeys && more[k] == c.aKeys[k]) || more[k] == GenKeypair(pr, freshPriv)
    requires Knows(z, c.bKeys)
    requires OneWay(CoreOf(c.b), CoreOf(z), Triples(c.ba[1..])) && OneWay(CoreOf(z), CoreOf(c.b), Triples(c.ab))
    ensures Good(pr, Heard(c, z))
  {
    HeardLinked(pr, c.b, c.bKeys, c.a, c.aKeys, c.ba, z, more);
    HearerLinked(pr, c.a, c.aKeys, c.b, c.bKeys, c.ab, z, more);
  }

  lemma HearKeeps(pr: Prims, c: Config, freshPriv: nat)
    requires PrimsOK(pr) && Good(pr, c) && Wide(c.a, 1) && Allowed(pr, c, Hear(freshPriv)) && c.ba != []
    ensures Good(pr, Act(pr, c, Hear(freshPriv)))
  {
    var z, more := HearTakes(pr, c, freshPriv);
    HeardGood(pr, c, freshPriv, z, more);
  }

  lemma HeadRecipient(c: Config, f: Fields)
    requires c.ba != [] && f == c.ba[0].fields && InFlight(CoreOf(c.b), CoreOf(c.a), Triples(c.ba))
    ensures f.recipient <= c.b.theirKeyid
  {
    assert Triples(c.ba)[0] == TripleOf(f);
  }

  lemma LoseKeeps(pr: Prims, c: Config)
    requires PrimsOK(pr) && Good(pr, c)
    ensures Good(pr, Act(pr, c, Lose))
  {
    if c.ba != [] {
      LoseHead(CoreOf(c.b), CoreOf(c.a), Triples(c.ba));
      TriplesTail(c.ba);
    }
  }

  // A turn of either end; the second end plays the mirror image of the first.
  function Side(c: Config, t: Turn): Config
  {
    if t.first then c else Swap(c)
  }

  function TakeTurn(pr: Prims, c: Config, t: Turn): Config
    requires pr.p > 0 && Ready(pr, c.a) && Ready(pr, c.b)
  {
    if t.first then Act(pr, c, t.what) else Swap(Act(pr, Swap(c), t.what))
  }

  function OutcomeAt(pr: Prims, c: Config, what: Happening): Outcome
    requires pr.p > 0 && Ready(pr, c.a)
  {
    if what.Hear? && c.ba != [] then AcceptData(pr, c.a, c.ba[0].raw, what.freshPriv).1 else Conflict
  }

  // What a turn hands to the user of the end that hears, beside the message taken.
  function Given(c: Config, what: Happening, r: Outcome): seq<(Packet, Outcome)>
  {
    if what.Hear? && c.ba != [] then [(c.ba[0], r)] else []
  }

  function Outcomes(pr: Prims, c: Config, t: Turn): seq<(Packet, Outcome)>
    requires pr.p > 0 && Ready(pr, c.a) && Ready(pr, c.b)
  {
    Given(Side(c, t), t.what, OutcomeAt(pr, Side(c, t), t.what))
  }

  lemma ActReady(pr: Prims, c: Config, what: Happening)
    requires pr.p > 0 && Ready(pr, c.a) && Ready(pr, c.b)
    ensures Ready(pr, Act(pr, c, what).a) && Act(pr, c, what).b == c.b
  {
    match what
    case Speak(text, tlvs, flags) =>
      AfterReady(pr, c.a, Send(text, tlvs, flags));
      assert Act(pr, c, what).a == After(pr, c.a, Send(text, tlvs, flags));
    case Hear(freshPriv) => if c.ba != [] { AfterReady(pr, c.a, Recv(c.ba[0].raw, freshPriv)); }
    case Lose =>
  }

  function Play(pr: Prims, c: Config, turns: seq<Turn>): (r: (Config, seq<(Packet, Outcome)>))
    requires pr.p > 0 && Ready(pr, c.a) && Ready(pr, c.b)
    decreases |turns|
  {
    if turns == [] then (c, []) else
      ActReady(pr, Side(c, turns[0]), turns[0].what);
      var (last, outcomes) := Play(pr, TakeTurn(pr, c, turns[0]), turns[1..]);
      (last, Outcomes(pr, c, turns[0]) + outcomes)
  }

  ghost predicate AllowedPlay(pr: Prims, c: Config, turns: seq<Turn>)
    requires pr.p > 0 && Ready(pr, c.a) && Ready(pr, c.b)
    decreases |turns|
  {
    turns == [] ||
    (ActReady(pr, Side(c, turns[0]), turns[0].what);
     Allowed(pr, Side(c, turns[0]), turns[0].what) && AllowedPlay(pr, TakeTurn(pr, c, turns[0]), turns[1..]))
  }

  // The user of a receiving end gets the text, the records, the flags and the extra
  // key that the sender put in and got.
  predicate Exact(o: (Packet, Outcome))
  {
    o.1 == Plain(o.0.text, o.0.tlvs, FlagsOf(o.0.header), o.0.extrakey)
  }

  predicate AllExact(os: seq<(Packet, Outcome)>)
  {
    forall i :: 0 <= i < |os| ==> Exact(os[i])
  }

  lemma UsedLength(s: Sess)
    requires SlotShape(s)
    ensures |Ratchet.UsedKeys(s)| <= 20
  {
  }

  lemma RevealedLength(st: Priv, s1: Sess, s2: Sess)
    requires SlotShape(s1) && SlotShape(s2)
    ensures |RevealMacs(st, s1, s2).saved| <= |st.saved| + 40
  {
    UsedLength(s1);
    UsedLength(s2);
  }

  lemma SavedGrows(pr: Prims, st: Priv, f: Fields, freshPriv: nat)
    requires PrimsOK(pr) && TableOK(pr, st)
    ensures |Rotations(pr, st, f, freshPriv).saved| <= |st.saved| + 80
  {
    RevealedLength(st, st.s10, st.s11);
    RotateDhTable(pr, st, freshPriv);
    var st1 := if f.recipient == st.ourKeyid then RotateDh(pr, st, freshPriv) else st;
    RevealedLength(st1, st1.s01, st1.s11);
  }

  lemma RotationsWide(pr: Prims, st: Priv, f: Fields, freshPriv: nat, n: nat)
    requires PrimsOK(pr) && TableOK(pr, st) && Wide(st, n + 1)
    ensures Wide(Rotations(pr, st, f, freshPriv), n)
  {
    SavedGrows(pr, st, f, freshPriv);
    RotationsNumbers(pr, st, f, freshPriv);
    var st1 := if f.recipient == st.ourKeyid then RotateDh(pr, st, freshPriv) else st;
    assert st1.s10.sendctr <= st.s10.sendctr && st1.s00.sendctr == 0;
  }

  lemma AcceptWide(pr: Prims, st: Priv, raw: seq<byte>, freshPriv: nat, n: nat)
    requires Ready(pr, st) && Wide(st, n + 1)
    ensures Wide(AcceptData(pr, st, raw, freshPriv).0, n)
  {
    AuthenticCases(pr, st, raw, freshPriv);
    var parsed := Parse(raw);
    if parsed.Some? && Authentic(pr, st, parsed.value) {
      var f := parsed.value.fields;
      PutKeepsWide(st, f, SlotOf(st, f).(rcvmacused := true), n + 1);
      PutKeepsWide(st, f, SlotOf(st, f).(rcvmacused := true, rcvctr := f.ctr), n + 1);
      ParsedCtrFits(raw);
      TakenTable(pr, st, f);
      RotationsWide(pr, Taken(st, f), f, freshPriv, n);
    }
  }

  lemma PutKeepsWide(st: Priv, f: Fields, s: Sess, n: nat)
    requires KeyidsFit(st) && KeysKnown(st, f) && Wide(st, n) && s.sendctr == SlotOf(st, f).sendctr
    ensures Wide(PutSlot(st, f, s), n)
  {
    IndexInTable(st, f);
  }

  lemma ActWide(pr: Prims, c: Config, what: Happening, n: nat)
    requires Ready(pr, c.a) && Wide(c.a, n + 1)
    ensures Wide(Act(pr, c, what).a, n)
  {
    match what
    case Speak(text, tlvs, flags) => NextCtrSmall(c.a.s10.sendctr);
    case Hear(freshPriv) => if c.ba != [] { AcceptWide(pr, c.a, c.ba[0].raw, freshPriv, n); }
    case Lose =>
  }

  lemma NextCtrSmall(ctr: nat)
    ensures NextCtr(ctr) <= ctr + 1
  {
  }

  lemma ActGood(pr: Prims, c: Config, what: Happening)
    requires PrimsOK(pr) && Good(pr, c) && Wide(c.a, 1) && Allowed(pr, c, what)
    ensures Good(pr, Act(pr, c, what))
  {
    match what
    case Speak(text, tlvs, flags) => SpeakKeeps(pr, c, text, tlvs, flags);
    case Hear(freshPriv) => if c.ba != [] { HearKeeps(pr, c, freshPriv); }
    case Lose => LoseKeeps(pr, c);
  }

  lemma SwapGood(pr: Prims, c: Config)
    requires pr.p > 0 && Good(pr, c)
    ensures Good(pr, Swap(c))
  {
  }

  lemma TurnKeeps(pr: Prims, c: Config, t: Turn)
    requires PrimsOK(pr) && Good(pr, c) && Wide(c.a, 1) && Wide(c.b, 1) && Allowed(pr, Side(c, t), t.what)
    ensures Good(pr, TakeTurn(pr, c, t))
  {
    if t.first {
      ActGood(pr, c, t.what);
    } else {
      SwapGood(pr, c);
      ActGood(pr, Swap(c), t.what);
      SwapGood(pr, Act(pr, Swap(c), t.what));
    }
  }

  lemma TurnExact(pr: Prims, c: Config, t: Turn)
    requires PrimsOK(pr) && Good(pr, c) && Wide(c.a, 1) && Wide(c.b, 1) && Allowed(pr, Side(c, t), t.what)
    ensures AllExact(Outcomes(pr, c, t))
  {
    SwapGood(pr, c);
    HeadExact(pr, Side(c, t), t.what);
    GivenExact(Side(c, t), t.what, OutcomeAt(pr, Side(c, t), t.what));
  }

  lemma GivenExact(c: Config, what: Happening, r: Outcome)
    requires what.Hear? && c.ba != [] ==> Exact((c.ba[0], r))
    ensures AllExact(Given(c, what, r))
  {
  }

  lemma AllExactConcat(os: seq<(Packet, Outcome)>, more: seq<(Packet, Outcome)>)
    requires AllExact(os) && AllExact(more)
    ensures AllExact(os + more)
  {
  }

  lemma HeadExact(pr: Prims, s: Config, what: Happening)
    requires PrimsOK(pr) && Good(pr, s) && Wide(s.a, 1)
    ensures what.Hear? && s.ba != [] ==> Exact((s.ba[0], OutcomeAt(pr, s, what)))
  {
    if what.Hear? && s.ba != [] {
      var z, more := HearTakes(pr, s, what.freshPriv);
    }
  }

  lemma TurnWide(pr: Prims, c: Config, t: Turn, n: nat)
    requires PrimsOK(pr) && Ready(pr, c.a) && Ready(pr, c.b) && Wide(c.a, n + 1) && Wide(c.b, n + 1)
    ensures Ready(pr, TakeTurn(pr, c, t).a) && Ready(pr, TakeTurn(pr, c, t).b)
    ensures Wide(TakeTurn(pr, c, t).a, n) && Wide(TakeTurn(pr, c, t).b, n)
  {
    ActReady(pr, Side(c, t), t.what);
    ActWide(pr, Side(c, t), t.what, n);
  }

  // In every run, each message delivered is accepted and gives back exactly what its
  // sender put in.
  lemma {:induction false} EveryDeliveryExact(pr: Prims, c: Config, turns: seq<Turn>)
    requires PrimsOK(pr) && Good(pr, c) && Wide(c.a, |turns|) && Wide(c.b, |turns|)
    requires AllowedPlay(pr, c, turns)
    ensures AllExact(Play(pr, c, turns).1)
    decreases |turns|
  {
    if turns != [] {
      TurnKeeps(pr, c, turns[0]);
      TurnExact(pr, c, turns[0]);
      TurnWide(pr, c, turns[0], |turns| - 1);
      EveryDeliveryExact(pr, TakeTurn(pr, c, turns[0]), turns[1..]);
      AllExactConcat(Outcomes(pr, c, turns[0]), Play(pr, TakeTurn(pr, c, turns[0]), turns[1..]).1);
    }
  }

  // ----------------------------------------------------------- the start

  function FirstKeys(x: Priv): map<nat, Keypair>
  {
    if x.ourKeyid == 0 then map[] else map[x.ourKeyid - 1 := x.ourOldKey, x.ourKeyid := x.ourKey]
  }

  function FirstConfig(a: Priv, b: Priv): Config
  {
    Config(a, b, [], [], FirstKeys(a), FirstKeys(b))
  }

  // Each end took part in the exchange with the older of its keys.
  ghost predicate Matching(x: Priv, y: Priv)
  {
    y.theirKeyid == x.ourKeyid - 1 && y.theirY == Some(x.ourOldKey.pub)
  }

  ghost predicate HasKeys(pr: Prims, x: Priv)
    requires pr.p > 0
  {
    x.ourKeyid > 1 && Generated(pr, x.ourKey) && Generated(pr, x.ourOldKey)
  }

  lemma MatchingStart(pr: Prims, a: Priv, b: Priv)
    requires PrimsOK(pr) && Start(pr, a) && Start(pr, b) && HasKeys(pr, a) && HasKeys(pr, b)
    requires Matching(a, b) && Matching(b, a) && Apart(FirstKeys(a), FirstKeys(b))
    ensures Good(pr, FirstConfig(a, b))
  {
    StartLinked(pr, a, b);
    StartLinked(pr, b, a);
  }

  lemma StartLinked(pr: Prims, x: Priv, y: Priv)
    requires PrimsOK(pr) && Start(pr, x) && Start(pr, y) && HasKeys(pr, x) && HasKeys(pr, y) && Matching(x, y)
    ensures Linked(pr, x, FirstKeys(x), y, FirstKeys(y), [])
  {
  }

  // go_encrypted at both ends leaves matching states when the two exchanges agree,
  // as the authenticated key exchange promises.
  lemma ExchangesMatch(pr: Prims, sa: Priv, sb: Priv, authA: AuthResult, authB: AuthResult, sameA: bool, sameB: bool, ra: nat, rb: nat)
    requires PrimsOK(pr) && authA.theirPub != authA.ourDh.pub && authB.theirPub != authB.ourDh.pub
    requires authA.ourKeyid + 1 < TWO32 && authB.ourKeyid + 1 < TWO32 && KeyidsFit(sa) && KeyidsFit(sb)
    requires NewExchange(sa, authA, sameA) && NewExchange(sb, authB, sameB)
    requires authA.theirPub == authB.ourDh.pub && authA.theirKeyid == authB.ourKeyid
    requires authB.theirPub == authA.ourDh.pub && authB.theirKeyid == authA.ourKeyid
    ensures var a := GoEncrypted(pr, sa, authA, sameA, ra);
            var b := GoEncrypted(pr, sb, authB, sameB, rb);
            Matching(a, b) && Matching(b, a)
  {
    EncryptedNumbers(pr, sa, authA, sameA, ra);
    EncryptedNumbers(pr, sb, authB, sameB, rb);
  }
}
