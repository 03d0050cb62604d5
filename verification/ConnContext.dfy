// The private part of a context updated in place, routine by routine, with the
// table invariant of Ratchet as its validity.
module ConnContext {
  import opened Bytes
  import opened Serial
  import opened Dh
  import opened Tlv
  import opened DataMessage
  import opened Ratchet

  class ConnContextPriv {
    var encrypted: bool
    var version: nat
    var ourInstance: nat
    var theirInstance: nat
    var theirKeyid: nat
    var theirY: Option<nat>
    var theirOldY: Option<nat>
    var ourKeyid: nat
    var ourDhKey: Keypair
    var ourOldDhKey: Keypair
    const sesskeys: array2<Sess>
    var numsavedkeys: nat
    var savedMacKeys: seq<byte>

    ghost predicate Shape()
    {
      sesskeys.Length0 == 2 && sesskeys.Length1 == 2
    }

    function Now(): Priv
      requires Shape()
      reads this, sesskeys
    {
      Priv(encrypted, version, ourInstance, theirInstance, theirKeyid, theirY, theirOldY,
           ourKeyid, ourDhKey, ourOldDhKey,
           sesskeys[0, 0], sesskeys[0, 1], sesskeys[1, 0], sesskeys[1, 1],
           numsavedkeys, savedMacKeys)
    }

    ghost predicate Valid(pr: Prims)
      reads this, sesskeys
    {
      Shape() && PrimsOK(pr) && TableOK(pr, Now())
    }

    // otrl_context_priv_new
    constructor (v: nat, our: nat, their: nat)
      ensures Shape() && fresh(sesskeys) && Now() == NewPriv(v, our, their)
    {
      encrypted, version, ourInstance, theirInstance := false, v, our, their;
      theirKeyid, theirY, theirOldY := 0, None, None;
      ourKeyid, ourDhKey, ourOldDhKey := 0, Keypair(0, 0), Keypair(0, 0);
      sesskeys := new Sess[2, 2]((i, j) => BlankSession());
      numsavedkeys, savedMacKeys := 0, [];
    }

    // reveal_macs: the buffer is enlarged once, then each used key is moved to its
    // place while numsavedkeys is bumped.
    method RevealMacKeys(sess1: Sess, sess2: Sess)
      requires Shape() && |savedMacKeys| == 20 * numsavedkeys
      requires KeyLengths(sess1) && KeyLengths(sess2)
      modifies this`numsavedkeys, this`savedMacKeys
      ensures Now() == RevealMacs(old(Now()), sess1, sess2)
    {
      var numnew := UsedCount(sess1) + UsedCount(sess2);
      if numnew == 0 { return; }
      var newmacs := savedMacKeys + Zeros(20 * numnew);
      newmacs := MoveKeys(newmacs, sess1);
      newmacs := MoveKeys(newmacs, sess2);
      savedMacKeys := newmacs;
    }

    static predicate KeyLengths(s: Sess)
    {
      |s.rcvmackey| == 20 && (s.sendmacused ==> |s.sendmackey| == 20)
    }

    // The used keys of one session, behind the keys already in the buffer.
    method MoveKeys(buf: seq<byte>, sess: Sess) returns (newmacs: seq<byte>)
      requires KeyLengths(sess) && 20 * (numsavedkeys + UsedCount(sess)) <= |buf|
      modifies this`numsavedkeys
      ensures numsavedkeys == old(numsavedkeys) + UsedCount(sess)
      ensures |newmacs| == |buf|
      ensures newmacs[..20 * numsavedkeys] == buf[..20 * old(numsavedkeys)] + UsedKeys(sess)
    {
      newmacs := buf;
      if sess.rcvmacused {
        newmacs := Moved(newmacs, 20 * numsavedkeys, sess.rcvmackey);
        numsavedkeys := numsavedkeys + 1;
      }
      if sess.sendmacused {
        newmacs := Moved(newmacs, 20 * numsavedkeys, sess.sendmackey);
        numsavedkeys := numsavedkeys + 1;
      }
    }

    static function Zeros(n: nat): (z: seq<byte>)
      ensures |z| == n
    {
      if n == 0 then [] else [0] + Zeros(n - 1)
    }

    // memmove of a key into a buffer
    static function Moved(buf: seq<byte>, at: nat, key: seq<byte>): (out: seq<byte>)
      requires at + |key| <= |buf|
      ensures |out| == |buf| && out[..at + |key|] == buf[..at] + key
    {
      buf[..at] + key + buf[at + |key|..]
    }

    method RotateDhKeys(pr: Prims, priv: nat)
      requires pr.p > 0 && Shape() && |savedMacKeys| == 20 * numsavedkeys
      requires KeyLengths(sesskeys[1, 0]) && KeyLengths(sesskeys[1, 1])
      modifies this, sesskeys
      ensures Now() == RotateDh(pr, old(Now()), priv)
    {
      MoveRow();
      var newKey := GenKeypair(pr, priv);
      MakeRow(newKey, SessionOrBlank(pr, newKey, theirY), SessionOrBlank(pr, newKey, theirOldY));
    }

    method MoveRow()
      requires Shape() && |savedMacKeys| == 20 * numsavedkeys
      requires KeyLengths(sesskeys[1, 0]) && KeyLengths(sesskeys[1, 1])
      modifies this, sesskeys
      ensures Now() == ShiftRows(old(Now()))
    {
      ourOldDhKey := ourDhKey;
      RevealMacKeys(sesskeys[1, 0], sesskeys[1, 1]);
      sesskeys[1, 0] := sesskeys[0, 0];
      sesskeys[1, 1] := sesskeys[0, 1];
    }

    method MakeRow(newKey: Keypair, sess0: Sess, sess1: Sess)
      requires Shape()
      modifies this, sesskeys
      ensures Now() == PutRow(old(Now()), newKey, sess0, sess1)
    {
      ourDhKey := newKey;
      ourKeyid := Inc32(ourKeyid);
      sesskeys[0, 0] := sess0;
      sesskeys[0, 1] := sess1;
    }

    method RotateYKeys(pr: Prims, newY: nat)
      requires pr.p > 0 && Shape() && |savedMacKeys| == 20 * numsavedkeys
      requires KeyLengths(sesskeys[0, 1]) && KeyLengths(sesskeys[1, 1])
      modifies this, sesskeys
      ensures Now() == RotateY(pr, old(Now()), newY)
    {
      MoveColumn();
      MakeColumn(newY, DhSession(pr, ourDhKey, newY), DhSession(pr, ourOldDhKey, newY));
    }

    method MoveColumn()
      requires Shape() && |savedMacKeys| == 20 * numsavedkeys
      requires KeyLengths(sesskeys[0, 1]) && KeyLengths(sesskeys[1, 1])
      modifies this, sesskeys
      ensures Now() == ShiftColumns(old(Now()))
    {
      theirOldY := theirY;
      RevealMacKeys(sesskeys[0, 1], sesskeys[1, 1]);
      sesskeys[0, 1] := sesskeys[0, 0];
      sesskeys[1, 1] := sesskeys[1, 0];
    }

    method MakeColumn(newY: nat, sess0: Sess, sess1: Sess)
      requires Shape()
      modifies this, sesskeys
      ensures Now() == PutColumn(old(Now()), newY, sess0, sess1)
    {
      theirY := Some(newY);
      theirKeyid := Inc32(theirKeyid);
      sesskeys[0, 0] := sess0;
      sesskeys[1, 0] := sess1;
    }

    // otrl_proto_create_data
    method Create(pr: Prims, text: seq<byte>, tlvs: seq<Tlv>, flags: byte)
      returns (r: Option<(seq<byte>, seq<byte>)>)
      requires Valid(pr) && ValidVersion(version)
      modifies this, sesskeys
      ensures match CreateData(pr, old(Now()), text, tlvs, flags)
              case None => r == None && Now() == old(Now())
              case Some((st, raw, extrakey)) => r == Some((raw, extrakey)) && Now() == st
    {
      if !encrypted || theirKeyid == 0 { return None; }
      var ctr := NextCtr(sesskeys[1, 0].sendctr);
      sesskeys[1, 0] := sesskeys[1, 0].(sendctr := ctr);
      var sess := sesskeys[1, 0];
      var data := CtrCrypt(pr, sess.sendenc, ctr, Payload(text, tlvs));
      var fields := Fields(Dec32(ourKeyid), theirKeyid, ourDhKey.pub, ctr, data);
      var maced := HeaderBytes(Header(version, ourInstance, theirInstance, flags)) + FieldBytes(fields);
      var raw := Assemble(maced, pr.hmac(sess.sendmackey, maced), savedMacKeys);
      if |savedMacKeys| > 0 {
        savedMacKeys := [];
        numsavedkeys := 0;
      }
      return Some((raw, sess.extrakey));
    }

    // otrl_proto_accept_data
    method Accept(pr: Prims, raw: seq<byte>, freshPriv: nat) returns (r: Outcome)
      requires Valid(pr)
      modifies this, sesskeys
      ensures (Now(), r) == AcceptData(pr, old(Now()), raw, freshPriv)
    {
      ParsedCtrFits(raw);
      var parsed := Parse(raw);
      if parsed.None? { return InvValue; }
      if !KeysKnown(Now(), parsed.value.fields) { return Conflict; }
      r := AcceptKnown(pr, parsed.value, freshPriv);
    }

    method AcceptKnown(pr: Prims, m: Received, freshPriv: nat) returns (r: Outcome)
      requires Valid(pr) && KeysKnown(Now(), m.fields) && m.fields.ctr < TWO64
      modifies this, sesskeys
      ensures (Now(), r) == AcceptParsed(pr, old(Now()), m, freshPriv)
    {
      var f := m.fields;
      IndexInTable(Now(), f);
      var i, j := RowOf(Now(), f), ColumnOf(Now(), f);
      var sess := sesskeys[i, j];
      if m.mac != pr.hmac(sess.rcvmackey, m.maced) { return Conflict; }
      MarkSlot(i, j, sess.(rcvmacused := true));
      if f.ctr <= sess.rcvctr { return Conflict; }
      SetSlotTable(pr, old(Now()), i, j, sess.(rcvmacused := true, rcvctr := f.ctr));
      MarkSlot(i, j, sess.(rcvmacused := true, rcvctr := f.ctr));
      var data := CtrCrypt(pr, sess.rcvenc, f.ctr, f.data);
      Rotate(pr, f, freshPriv);
      r := Deliver(data, m.flags, sess.extrakey);
    }

    method MarkSlot(i: nat, j: nat, sess: Sess)
      requires Shape() && i < 2 && j < 2
      modifies sesskeys
      ensures Now() == SetSlot(old(Now()), i, j, sess)
    {
      sesskeys[i, j] := sess;
    }

    method Rotate(pr: Prims, f: Fields, freshPriv: nat)
      requires Valid(pr) && theirY.Some?
      modifies this, sesskeys
      ensures Now() == Rotations(pr, old(Now()), f, freshPriv)
    {
      RotateDhTable(pr, Now(), freshPriv);
      if f.recipient == ourKeyid {
        RotateDhKeys(pr, freshPriv);
      }
      if f.sender == theirKeyid {
        RotateYKeys(pr, f.nextY);
      }
    }

    static method Deliver(data: seq<byte>, flags: byte, extrakey: seq<byte>) returns (r: Outcome)
      ensures r == Plain(TextOf(data), TlvsOf(data), flags, extrakey)
    {
      var nul := FindNul(data);
      var rest := if nul < |data| then data[nul + 1..] else [];
      var tlvs := ParseTlvs(rest);
      return Plain(data[..nul], tlvs, flags, extrakey);
    }

    // go_encrypted
    method GoPrivate(pr: Prims, auth: AuthResult, samePrint: bool, freshPriv: nat)
      requires pr.p > 0 && Shape()
      modifies this, sesskeys
      ensures Now() == GoEncrypted(pr, old(Now()), auth, samePrint, freshPriv)
    {
      if auth.theirPub == auth.ourDh.pub { return; }
      if IsRefresh(Now(), auth, samePrint) { return; }
      var keep := SameOldKey(Now(), auth);
      CopyAuth(auth);
      if !keep {
        AdoptKey(pr, auth, freshPriv);
      }
      RemakeColumn(pr, auth.theirPub);
    }

    method CopyAuth(auth: AuthResult)
      requires Shape()
      modifies this
      ensures Now() == SetTheirs(old(Now()), auth)
    {
      version := auth.version;
      theirKeyid := auth.theirKeyid;
      theirY := Some(auth.theirPub);
      theirOldY := None;
    }

    method AdoptKey(pr: Prims, auth: AuthResult, freshPriv: nat)
      requires pr.p > 0 && Shape()
      modifies this
      ensures Now() == TakeKey(pr, old(Now()), auth, freshPriv)
    {
      ourOldDhKey := auth.ourDh;
      ourDhKey := GenKeypair(pr, freshPriv);
      ourKeyid := Inc32(auth.ourKeyid);
    }

    method RemakeColumn(pr: Prims, y: nat)
      requires pr.p > 0 && Shape()
      modifies this, sesskeys
      ensures Now() == RebuildColumn(pr, old(Now()), y)
    {
      sesskeys[0, 0] := DhSession(pr, ourDhKey, y);
      sesskeys[1, 0] := DhSession(pr, ourOldDhKey, y);
      encrypted := true;
    }
  }
}
