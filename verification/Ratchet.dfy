// The key ratchet of a conversation: what the data-message routines of proto.c
// and go_encrypted of message.c do to the private part of a context, as
// functions on a value.  ConnContext is the same thing updated in place.
module Ratchet {
  import opened Bytes
  import opened Serial
  import opened Dh
  import opened Tlv
  import opened DataMessage

  // context_priv, with msgstate, the protocol version and the instance tags of the
  // context.  sIJ is sesskeys[I][J]: our key number ourKeyid-I with their key number
  // theirKeyid-J.
  datatype Priv = Priv(
    encrypted: bool, version: nat, ourInstance: nat, theirInstance: nat,
    theirKeyid: nat, theirY: Option<nat>, theirOldY: Option<nat>,
    ourKeyid: nat, ourKey: Keypair, ourOldKey: Keypair,
    s00: Sess, s01: Sess, s10: Sess, s11: Sess,
    numSaved: nat, saved: seq<byte>)

  // Unsigned 32-bit key numbers.
  function Inc32(k: nat): nat
  {
    (k + 1) % TWO32
  }

  function Dec32(k: nat): nat
  {
    (k + TWO32 - 1) % TWO32
  }

  const TWO64: nat := TWO32 * TWO32

  // otrl_dh_incctr on the top half of a counter block
  function NextCtr(c: nat): nat
  {
    (c + 1) % TWO64
  }

  function Slot(st: Priv, i: nat, j: nat): Sess
    requires i < 2 && j < 2
  {
    if i == 0 then (if j == 0 then st.s00 else st.s01) else (if j == 0 then st.s10 else st.s11)
  }

  function SetSlot(st: Priv, i: nat, j: nat, s: Sess): Priv
    requires i < 2 && j < 2
  {
    if i == 0 then (if j == 0 then st.(s00 := s) else st.(s01 := s))
    else (if j == 0 then st.(s10 := s) else st.(s11 := s))
  }

  // --------------------------------------------------------- reveal_macs

  function UsedKeys(s: Sess): seq<byte>
  {
    (if s.rcvmacused then s.rcvmackey else []) + (if s.sendmacused then s.sendmackey else [])
  }

  function UsedCount(s: Sess): nat
  {
    (if s.rcvmacused then 1 else 0) + (if s.sendmacused then 1 else 0)
  }

  function RevealMacs(st: Priv, s1: Sess, s2: Sess): Priv
  {
    st.(saved := st.saved + UsedKeys(s1) + UsedKeys(s2),
        numSaved := st.numSaved + UsedCount(s1) + UsedCount(s2))
  }

  // ---------------------------------------------------------- rotations

  function SessionOrBlank(pr: Prims, kp: Keypair, y: Option<nat>): Sess
    requires pr.p > 0
  {
    if y.Some? then DhSession(pr, kp, y.value) else BlankSession()
  }

  // rotate_dh_keys: row 1 goes to the reveal list, row 0 takes its place, and a new
  // key of ours comes in as row 0.
  function RotateDh(pr: Prims, st: Priv, priv: nat): Priv
    requires pr.p > 0
  {
    NewRow(pr, ShiftRows(st), GenKeypair(pr, priv))
  }

  function ShiftRows(st: Priv): Priv
  {
    RevealMacs(st, st.s10, st.s11).(ourOldKey := st.ourKey, s10 := st.s00, s11 := st.s01)
  }

  function NewRow(pr: Prims, st: Priv, newKey: Keypair): Priv
    requires pr.p > 0
  {
    PutRow(st, newKey, SessionOrBlank(pr, newKey, st.theirY), SessionOrBlank(pr, newKey, st.theirOldY))
  }

  function PutRow(st: Priv, newKey: Keypair, s: Sess, t: Sess): Priv
  {
    st.(ourKey := newKey, ourKeyid := Inc32(st.ourKeyid), s00 := s, s01 := t)
  }

  // rotate_y_keys: the same for the columns and their keys.
  function RotateY(pr: Prims, st: Priv, newY: nat): Priv
    requires pr.p > 0
  {
    NewColumn(pr, ShiftColumns(st), newY)
  }

  function ShiftColumns(st: Priv): Priv
  {
    RevealMacs(st, st.s01, st.s11).(theirOldY := st.theirY, s01 := st.s00, s11 := st.s10)
  }

  function NewColumn(pr: Prims, st: Priv, newY: nat): Priv
    requires pr.p > 0
  {
    PutColumn(st, newY, DhSession(pr, st.ourKey, newY), DhSession(pr, st.ourOldKey, newY))
  }

  function PutColumn(st: Priv, newY: nat, s: Sess, t: Sess): Priv
  {
    st.(theirY := Some(newY), theirKeyid := Inc32(st.theirKeyid), s00 := s, s10 := t)
  }

  // ------------------------------------------------------------- sending

  function HeaderOf(st: Priv, flags: byte): Header
  {
    Header(st.version, st.ourInstance, st.theirInstance, flags)
  }

  predicate CanSend(st: Priv)
  {
    st.encrypted && st.theirKeyid != 0
  }

  // The fields of the next message: it is encrypted with our older key and their
  // newest one, and carries our newest key.
  function NextFields(pr: Prims, st: Priv, payload: seq<byte>): Fields
  {
    var ctr := NextCtr(st.s10.sendctr);
    Fields(Dec32(st.ourKeyid), st.theirKeyid, st.ourKey.pub, ctr, CtrCrypt(pr, st.s10.sendenc, ctr, payload))
  }

  function AfterSend(st: Priv): Priv
  {
    st.(s10 := st.s10.(sendctr := NextCtr(st.s10.sendctr)), saved := [], numSaved := 0)
  }

  // otrl_proto_create_data: None is the CONFLICT error, otherwise the new state,
  // the raw message (before base64) and the extra key.
  function CreateData(pr: Prims, st: Priv, text: seq<byte>, tlvs: seq<Tlv>, flags: byte): Option<(Priv, seq<byte>, seq<byte>)>
    requires ValidVersion(st.version)
  {
    if !CanSend(st) then None else
      var maced := HeaderBytes(HeaderOf(st, flags)) + FieldBytes(NextFields(pr, st, Payload(text, tlvs)));
      Some((AfterSend(st), Assemble(maced, pr.hmac(st.s10.sendmackey, maced), st.saved), st.s10.extrakey))
  }

  // ----------------------------------------------------------- receiving

  // The error codes of otrl_proto_accept_data, or what it hands to its caller.
  datatype Outcome =
    | InvValue
    | Conflict
    | Plain(text: seq<byte>, tlvs: seq<Tlv>, flags: byte, extrakey: seq<byte>)

  // The key numbers a message claims to use are ones we hold.
  predicate KeysKnown(st: Priv, f: Fields)
  {
    && st.theirKeyid != 0
    && (f.sender == st.theirKeyid || f.sender == Dec32(st.theirKeyid))
    && (f.recipient == st.ourKeyid || f.recipient == Dec32(st.ourKeyid))
    && f.sender != 0 && f.recipient != 0
    && (f.sender == Dec32(st.theirKeyid) ==> st.theirOldY.Some?)
  }

  // The unsigned subtraction that picks the slot.
  function RowOf(st: Priv, f: Fields): nat
  {
    (st.ourKeyid + TWO32 - f.recipient) % TWO32
  }

  function ColumnOf(st: Priv, f: Fields): nat
  {
    (st.theirKeyid + TWO32 - f.sender) % TWO32
  }

  ghost predicate KeyidsFit(st: Priv)
  {
    st.ourKeyid < TWO32 && st.theirKeyid < TWO32
  }

  // The index computed on receipt is always 0 or 1, even across a wrap of the
  // 32-bit key numbers.
  lemma IndexInTable(st: Priv, f: Fields)
    requires KeyidsFit(st) && KeysKnown(st, f)
    ensures RowOf(st, f) == (if f.recipient == st.ourKeyid then 0 else 1)
    ensures ColumnOf(st, f) == (if f.sender == st.theirKeyid then 0 else 1)
  {
  }

  // After the MAC and the counter were checked: remember the counter and rotate
  // whichever keys the message makes obsolete.
  function Rotations(pr: Prims, st: Priv, f: Fields, freshPriv: nat): Priv
    requires pr.p > 0
  {
    var st1 := if f.recipient == st.ourKeyid then RotateDh(pr, st, freshPriv) else st;
    if f.sender == st1.theirKeyid then RotateY(pr, st1, f.nextY) else st1
  }

  function AcceptData(pr: Prims, st: Priv, raw: seq<byte>, freshPriv: nat): (Priv, Outcome)
    requires pr.p > 0 && KeyidsFit(st)
  {
    match Parse(raw)
    case None => (st, InvValue)
    case Some(m) =>
      if !KeysKnown(st, m.fields) then (st, Conflict) else
        AcceptParsed(pr, st, m, freshPriv)
  }

  function AcceptParsed(pr: Prims, st: Priv, m: Received, freshPriv: nat): (Priv, Outcome)
    requires pr.p > 0 && KeyidsFit(st) && KeysKnown(st, m.fields)
  {
    IndexInTable(st, m.fields);
    var f, i, j := m.fields, RowOf(st, m.fields), ColumnOf(st, m.fields);
    var sess := Slot(st, i, j);
    if m.mac != pr.hmac(sess.rcvmackey, m.maced) then (st, Conflict) else
      var sess1 := sess.(rcvmacused := true);
      if f.ctr <= sess.rcvctr then (SetSlot(st, i, j, sess1), Conflict) else
        var data := CtrCrypt(pr, sess.rcvenc, f.ctr, f.data);
        (Rotations(pr, SetSlot(st, i, j, sess1.(rcvctr := f.ctr)), f, freshPriv),
         Plain(TextOf(data), TlvsOf(data), m.flags, sess.extrakey))
  }

  // --------------------------------------------------------- go_encrypted

  // What the authenticated key exchange leaves in context->auth.
  datatype AuthResult = AuthResult(theirPub: nat, theirKeyid: nat, ourDh: Keypair, ourKeyid: nat, version: nat)

  predicate SameOldKey(st: Priv, auth: AuthResult)
  {
    Dec32(st.ourKeyid) == auth.ourKeyid && st.ourOldKey.pub == auth.ourDh.pub
  }

  // The keys of the exchange are the ones already in use.
  predicate IsRefresh(st: Priv, auth: AuthResult, samePrint: bool)
  {
    && st.encrypted && samePrint && SameOldKey(st, auth)
    && (|| (st.theirKeyid > 0 && st.theirKeyid == auth.theirKeyid && st.theirY == Some(auth.theirPub))
        || (st.theirKeyid > 1 && st.theirKeyid - 1 == auth.theirKeyid && st.theirOldY == Some(auth.theirPub)))
  }

  // Only column 0 is rebuilt; column 1 keeps whatever it held, and theirOldY being
  // absent says so.
  function GoEncrypted(pr: Prims, st: Priv, auth: AuthResult, samePrint: bool, freshPriv: nat): Priv
    requires pr.p > 0
  {
    if auth.theirPub == auth.ourDh.pub || IsRefresh(st, auth, samePrint) then st else
      var st1 := SetTheirs(st, auth);
      var st2 := if SameOldKey(st, auth) then st1 else TakeKey(pr, st1, auth, freshPriv);
      RebuildColumn(pr, st2, auth.theirPub)
  }

  function SetTheirs(st: Priv, auth: AuthResult): Priv
  {
    st.(version := auth.version, theirKeyid := auth.theirKeyid, theirY := Some(auth.theirPub), theirOldY := None)
  }

  // The key of the exchange becomes our older key, a new one our current key.
  function TakeKey(pr: Prims, st: Priv, auth: AuthResult, freshPriv: nat): Priv
    requires pr.p > 0
  {
    st.(ourOldKey := auth.ourDh, ourKey := GenKeypair(pr, freshPriv), ourKeyid := Inc32(auth.ourKeyid))
  }

  function RebuildColumn(pr: Prims, st: Priv, y: nat): Priv
    requires pr.p > 0
  {
    st.(s00 := DhSession(pr, st.ourKey, y), s10 := DhSession(pr, st.ourOldKey, y), encrypted := true)
  }

  // otrl_context_priv_new, before any exchange
  function NewPriv(version: nat, ourInstance: nat, theirInstance: nat): Priv
  {
    Priv(false, version, ourInstance, theirInstance, 0, None, None, 0, Keypair(0, 0), Keypair(0, 0),
         BlankSession(), BlankSession(), BlankSession(), BlankSession(), 0, [])
  }

  // -------------------------------------------------- the table invariant

  // A slot holds the session of a key of ours with a key of theirs: everything but
  // the counters and the used marks is what deriving it afresh would give.
  ghost predicate SessionOf(pr: Prims, s: Sess, kp: Keypair, y: nat)
    requires pr.p > 0
  {
    s.(sendctr := 0, rcvctr := 0, sendmacused := false, rcvmacused := false) == DhSession(pr, kp, y)
  }

  ghost predicate SlotShape(s: Sess)
  {
    !s.sendmacused && |s.rcvmackey| == 20 && s.sendctr < TWO64 && s.rcvctr < TWO64
  }

  // sesskeys[i][j] is the session of our key ourKeyid-i with their key
  // theirKeyid-j, column 1 being meaningful only when their older key is known; the
  // reveal buffer holds exactly numSaved keys of 20 octets.
  ghost predicate TableOK(pr: Prims, st: Priv)
    requires pr.p > 0
  {
    && KeyidsFit(st)
    && (st.theirY.Some? ==> SessionOf(pr, st.s00, st.ourKey, st.theirY.value) && SessionOf(pr, st.s10, st.ourOldKey, st.theirY.value))
    && (st.theirOldY.Some? ==>
          st.theirY.Some? && SessionOf(pr, st.s01, st.ourKey, st.theirOldY.value) && SessionOf(pr, st.s11, st.ourOldKey, st.theirOldY.value))
    && SlotShape(st.s00) && SlotShape(st.s01) && SlotShape(st.s10) && SlotShape(st.s11)
    && |st.saved| == 20 * st.numSaved
    && (st.encrypted || st.theirKeyid != 0 ==> st.theirY.Some?)
  }

  lemma NewPrivTable(pr: Prims, version: nat, ourInstance: nat, theirInstance: nat)
    requires PrimsOK(pr)
    ensures TableOK(pr, NewPriv(version, ourInstance, theirInstance))
  {
  }

  lemma RotateDhTable(pr: Prims, st: Priv, priv: nat)
    requires PrimsOK(pr) && TableOK(pr, st)
    ensures TableOK(pr, RotateDh(pr, st, priv))
  {
  }

  lemma RotateYTable(pr: Prims, st: Priv, newY: nat)
    requires PrimsOK(pr) && TableOK(pr, st) && st.theirY.Some?
    ensures TableOK(pr, RotateY(pr, st, newY))
  {
  }

  lemma CreateDataTable(pr: Prims, st: Priv, text: seq<byte>, tlvs: seq<Tlv>, flags: byte)
    requires PrimsOK(pr) && TableOK(pr, st) && ValidVersion(st.version)
    ensures var r := CreateData(pr, st, text, tlvs, flags);
            r.Some? ==> TableOK(pr, r.value.0) && r.value.0.saved == []
  {
  }

  // Counters and used marks may change without touching the keys of a slot.
  ghost predicate SameKeys(s: Sess, t: Sess)
  {
    && s.live == t.live && s.sendenc == t.sendenc && s.rcvenc == t.rcvenc
    && s.sendmackey == t.sendmackey && s.rcvmackey == t.rcvmackey && s.extrakey == t.extrakey
  }

  lemma SetSlotTable(pr: Prims, st: Priv, i: nat, j: nat, s: Sess)
    requires PrimsOK(pr) && TableOK(pr, st) && i < 2 && j < 2
    requires SlotShape(s) && SameKeys(s, Slot(st, i, j))
    ensures TableOK(pr, SetSlot(st, i, j, s))
  {
    if i == 0 {
      if j == 0 { } else { }
    } else {
      if j == 0 { } else { }
    }
  }

  lemma ParsedCtrFits(raw: seq<byte>)
    ensures Parse(raw).Some? ==> Parse(raw).value.fields.ctr < TWO64
  {
    Pow256Of8();
  }

  lemma RotationsTable(pr: Prims, st: Priv, f: Fields, freshPriv: nat)
    requires PrimsOK(pr) && TableOK(pr, st) && st.theirY.Some?
    ensures TableOK(pr, Rotations(pr, st, f, freshPriv)) && Rotations(pr, st, f, freshPriv).encrypted == st.encrypted
  {
    if f.recipient == st.ourKeyid {
      RotateDhTable(pr, st, freshPriv);
      RotateDhTheirs(pr, st, freshPriv);
      var st1 := RotateDh(pr, st, freshPriv);
      MaybeRotateY(pr, st1, f.sender == st1.theirKeyid, f.nextY);
    } else {
      MaybeRotateY(pr, st, f.sender == st.theirKeyid, f.nextY);
    }
  }

  lemma RotateDhTheirs(pr: Prims, st: Priv, priv: nat)
    requires pr.p > 0
    ensures var st1 := RotateDh(pr, st, priv); st1.theirY == st.theirY && st1.theirKeyid == st.theirKeyid && st1.encrypted == st.encrypted
  {
  }

  lemma MaybeRotateY(pr: Prims, st: Priv, rotate: bool, newY: nat)
    requires PrimsOK(pr) && TableOK(pr, st) && st.theirY.Some?
    ensures var st1 := if rotate then RotateY(pr, st, newY) else st; TableOK(pr, st1) && st1.encrypted == st.encrypted
  {
    RotateYTable(pr, st, newY);
  }

  lemma AcceptDataTable(pr: Prims, st: Priv, raw: seq<byte>, freshPriv: nat)
    requires PrimsOK(pr) && TableOK(pr, st)
    ensures TableOK(pr, AcceptData(pr, st, raw, freshPriv).0)
    ensures AcceptData(pr, st, raw, freshPriv).0.encrypted == st.encrypted
  {
    ParsedCtrFits(raw);
    var parsed := Parse(raw);
    if parsed.Some? && KeysKnown(st, parsed.value.fields) {
      AcceptParsedTable(pr, st, parsed.value, freshPriv);
    }
  }

  // Nothing happens, or the slot is marked, or it is marked and the keys rotate.
  lemma AcceptParsedCases(pr: Prims, st: Priv, m: Received, freshPriv: nat) returns (i: nat, j: nat, s: Sess, s': Sess)
    requires pr.p > 0 && KeyidsFit(st) && KeysKnown(st, m.fields)
    ensures i < 2 && j < 2 && s == Slot(st, i, j).(rcvmacused := true) && s' == s.(rcvctr := m.fields.ctr)
    ensures var t := AcceptParsed(pr, st, m, freshPriv).0;
            t == st || t == SetSlot(st, i, j, s) || t == Rotations(pr, SetSlot(st, i, j, s'), m.fields, freshPriv)
  {
    IndexInTable(st, m.fields);
    i, j := RowOf(st, m.fields), ColumnOf(st, m.fields);
    s := Slot(st, i, j).(rcvmacused := true);
    s' := s.(rcvctr := m.fields.ctr);
  }

  lemma AcceptParsedTable(pr: Prims, st: Priv, m: Received, freshPriv: nat)
    requires PrimsOK(pr) && TableOK(pr, st) && KeysKnown(st, m.fields) && m.fields.ctr < TWO64
    ensures TableOK(pr, AcceptParsed(pr, st, m, freshPriv).0)
    ensures AcceptParsed(pr, st, m, freshPriv).0.encrypted == st.encrypted
  {
    var i, j, s, s' := AcceptParsedCases(pr, st, m, freshPriv);
    var t := AcceptParsed(pr, st, m, freshPriv).0;
    AnyCaseTable(pr, st, m.fields, freshPriv, i, j, s, s', t);
  }

  lemma AnyCaseTable(pr: Prims, st: Priv, f: Fields, freshPriv: nat, i: nat, j: nat, s: Sess, s': Sess, t: Priv)
    requires PrimsOK(pr) && TableOK(pr, st) && st.theirY.Some? && i < 2 && j < 2
    requires s == Slot(st, i, j).(rcvmacused := true) && s' == s.(rcvctr := f.ctr) && f.ctr < TWO64
    requires t == st || t == SetSlot(st, i, j, s) || t == Rotations(pr, SetSlot(st, i, j, s'), f, freshPriv)
    ensures TableOK(pr, t) && t.encrypted == st.encrypted
  {
    var st1 := MarkedTable(pr, st, i, j, s);
    var st2 := MarkedTable(pr, st, i, j, s');
    RotationsTable(pr, st2, f, freshPriv);
  }

  lemma MarkedTable(pr: Prims, st: Priv, i: nat, j: nat, s: Sess) returns (st1: Priv)
    requires PrimsOK(pr) && TableOK(pr, st) && i < 2 && j < 2
    requires SlotShape(s) && SameKeys(s, Slot(st, i, j))
    ensures st1 == SetSlot(st, i, j, s) && TableOK(pr, st1)
    ensures st1.theirY == st.theirY && st1.encrypted == st.encrypted
  {
    st1 := SetSlot(st, i, j, s);
    SetSlotTable(pr, st, i, j, s);
  }

  // The slot a message is checked against is a live session of exactly the two keys
  // the message names.
  lemma SlotIsSession(pr: Prims, st: Priv, f: Fields)
    requires PrimsOK(pr) && TableOK(pr, st) && KeysKnown(st, f)
    ensures var kp := if f.recipient == st.ourKeyid then st.ourKey else st.ourOldKey;
            var y := if f.sender == st.theirKeyid then st.theirY else st.theirOldY;
            && RowOf(st, f) < 2 && ColumnOf(st, f) < 2 && y.Some?
            && SessionOf(pr, Slot(st, RowOf(st, f), ColumnOf(st, f)), kp, y.value)
            && Slot(st, RowOf(st, f), ColumnOf(st, f)).live
  {
    IndexInTable(st, f);
  }

  lemma GoEncryptedTable(pr: Prims, st: Priv, auth: AuthResult, samePrint: bool, freshPriv: nat)
    requires PrimsOK(pr) && TableOK(pr, st) && auth.theirKeyid < TWO32
    ensures TableOK(pr, GoEncrypted(pr, st, auth, samePrint, freshPriv))
  {
  }
}
