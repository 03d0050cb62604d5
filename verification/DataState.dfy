// What receiving a message leaves in the context, field by field: which keys it makes
// obsolete, which sessions the table then holds, and which MAC keys are due to be revealed.
module DataState {
  import opened Bytes
  import opened Dh
  import opened DataMessage
  import opened Ratchet
  import DataLayout

  // The MAC key of a session, if something was verified with it
  function Due(s: Sess): seq<byte>
  {
    if s.rcvmacused then s.rcvmackey else []
  }

  function Took(s: Sess, ctr: nat): Sess
  {
    s.(rcvmacused := true, rcvctr := ctr)
  }

  // The numbers and keys: the message used our newest key (row), theirs (col)
  ghost predicate KeysAfter(pr: Prims, st: Priv, f: Fields, freshPriv: nat, x: Priv, row: bool, col: bool)
    requires pr.p > 0
  {
    && x.ourKeyid == (if row then (st.ourKeyid + 1) % TWO32 else st.ourKeyid)
    && x.ourKey == (if row then GenKeypair(pr, freshPriv) else st.ourKey) && x.ourOldKey == (if row then st.ourKey else st.ourOldKey)
    && x.theirKeyid == (if col then (st.theirKeyid + 1) % TWO32 else st.theirKeyid)
    && x.theirY == (if col then Some(f.nextY) else st.theirY) && x.theirOldY == (if col then st.theirY else st.theirOldY)
  }

  // The sessions that fall out, our older key's first, and of these their newest key's first
  ghost predicate DueAfter(st: Priv, x: Priv, row: bool, col: bool)
  {
    x.saved == st.saved + (if row then Due(st.s10) + Due(st.s11) else [])
               + (if col then Due(st.s01) + (if row then [] else Due(st.s11)) else [])
  }

  ghost predicate SessionsAfter(pr: Prims, st: Priv, f: Fields, x: Priv, row: bool, col: bool)
    requires pr.p > 0
  {
    match (row, col)
    case (false, false) => x.s00 == st.s00 && x.s01 == st.s01 && x.s10 == st.s10 && x.s11 == Took(st.s11, f.ctr)
    case (true, false) =>
      && x.s00 == SessionOrBlank(pr, x.ourKey, st.theirY) && x.s01 == SessionOrBlank(pr, x.ourKey, st.theirOldY)
      && x.s10 == st.s00 && x.s11 == Took(st.s01, f.ctr)
    case (false, true) =>
      && x.s00 == DhSession(pr, st.ourKey, f.nextY) && x.s01 == st.s00
      && x.s10 == DhSession(pr, st.ourOldKey, f.nextY) && x.s11 == Took(st.s10, f.ctr)
    case (true, true) =>
      && x.s00 == DhSession(pr, x.ourKey, f.nextY) && x.s01 == SessionOrBlank(pr, x.ourKey, st.theirY)
      && x.s10 == DhSession(pr, st.ourKey, f.nextY) && x.s11 == Took(st.s00, f.ctr)
  }

  // The rest of the context
  ghost predicate RestSame(st: Priv, x: Priv)
  {
    x.encrypted == st.encrypted && x.version == st.version && x.ourInstance == st.ourInstance && x.theirInstance == st.theirInstance
  }

  ghost predicate MovedOn(pr: Prims, st: Priv, f: Fields, freshPriv: nat, x: Priv)
    requires pr.p > 0
  {
    var row, col := f.recipient == st.ourKeyid, f.sender == st.theirKeyid;
    KeysAfter(pr, st, f, freshPriv, x, row, col) && DueAfter(st, x, row, col) && SessionsAfter(pr, st, f, x, row, col) && RestSame(st, x)
  }

  ghost predicate NoneSent(st: Priv)
  {
    !st.s00.sendmacused && !st.s01.sendmacused && !st.s10.sendmacused && !st.s11.sendmacused
  }

  lemma Fallen(st: Priv, s: Sess, t: Sess)
    requires !s.sendmacused && !t.sendmacused
    ensures RevealMacs(st, s, t).saved == st.saved + Due(s) + Due(t)
  {
    assert Due(s) + [] == Due(s) && Due(t) + [] == Due(t);
  }

  lemma RowMoves(pr: Prims, st: Priv, priv: nat)
    requires pr.p > 0 && NoneSent(st)
    ensures var x := RotateDh(pr, st, priv);
            && x.saved == st.saved + Due(st.s10) + Due(st.s11)
            && x.ourKeyid == (st.ourKeyid + 1) % TWO32 && x.ourKey == GenKeypair(pr, priv) && x.ourOldKey == st.ourKey
            && x.s10 == st.s00 && x.s11 == st.s01
            && x.s00 == SessionOrBlank(pr, x.ourKey, st.theirY) && x.s01 == SessionOrBlank(pr, x.ourKey, st.theirOldY)
            && x.theirKeyid == st.theirKeyid && x.theirY == st.theirY && x.theirOldY == st.theirOldY && RestSame(st, x)
            && NoneSent(x) && Due(x.s01) == []
  {
    Fallen(st, st.s10, st.s11);
  }

  lemma ColumnMoves(pr: Prims, st: Priv, y: nat)
    requires pr.p > 0 && NoneSent(st)
    ensures var x := RotateY(pr, st, y);
            && x.saved == st.saved + Due(st.s01) + Due(st.s11)
            && x.theirKeyid == (st.theirKeyid + 1) % TWO32 && x.theirY == Some(y) && x.theirOldY == st.theirY
            && x.s01 == st.s00 && x.s11 == st.s10
            && x.s00 == DhSession(pr, st.ourKey, y) && x.s10 == DhSession(pr, st.ourOldKey, y)
            && x.ourKeyid == st.ourKeyid && x.ourKey == st.ourKey && x.ourOldKey == st.ourOldKey && RestSame(st, x)
  {
    Fallen(st, st.s01, st.s11);
  }

  lemma SumsSame(saved: seq<byte>, a: seq<byte>, b: seq<byte>, c: seq<byte>)
    ensures saved + a + b + [] + c == saved + (a + b) + (c + []) && saved + [] + (a + b) == saved + a + b
    ensures saved + (a + b) + [] == saved + a + b && saved + [] + [] == saved
  {
  }

  // From the state in which the message's slot is marked
  lemma RotationsMove(pr: Prims, st: Priv, f: Fields, freshPriv: nat, st0: Priv)
    requires PrimsOK(pr) && TableOK(pr, st) && KeysKnown(st, f)
    requires var row, col := f.recipient == st.ourKeyid, f.sender == st.theirKeyid;
             st0 == (if row then (if col then st.(s00 := Took(st.s00, f.ctr)) else st.(s01 := Took(st.s01, f.ctr)))
                     else (if col then st.(s10 := Took(st.s10, f.ctr)) else st.(s11 := Took(st.s11, f.ctr))))
    ensures MovedOn(pr, st, f, freshPriv, Rotations(pr, st0, f, freshPriv))
  {
    SumsSame(st.saved, Due(st.s10), Due(st.s11), Due(st.s01));
    SumsSame(st.saved, Due(st.s01), Due(st.s11), []);
    if f.recipient == st.ourKeyid {
      RowMoves(pr, st0, freshPriv);
      if f.sender == st.theirKeyid {
        ColumnMoves(pr, RotateDh(pr, st0, freshPriv), f.nextY);
      }
    } else if f.sender == st.theirKeyid {
      ColumnMoves(pr, st0, f.nextY);
    }
  }

  lemma Steps(pr: Prims, st: Priv, m: Received, freshPriv: nat, i: nat, j: nat, slot: Sess)
    requires pr.p > 0 && KeyidsFit(st) && KeysKnown(st, m.fields) && i == RowOf(st, m.fields) && j == ColumnOf(st, m.fields)
    requires i < 2 && j < 2 && slot == Slot(st, i, j)
    ensures var (x, out) := AcceptParsed(pr, st, m, freshPriv);
            if m.mac != pr.hmac(slot.rcvmackey, m.maced) then x == st && out == Conflict
            else if m.fields.ctr <= slot.rcvctr then x == SetSlot(st, i, j, slot.(rcvmacused := true)) && out == Conflict
            else x == Rotations(pr, SetSlot(st, i, j, Took(slot, m.fields.ctr)), m.fields, freshPriv) && out.Plain?
  {
  }

  // A message that is refused changes nothing, but that the MAC key which verified an old
  // counter is marked as used; one that is taken moves the context on.
  lemma AcceptedMoves(pr: Prims, st: Priv, m: Received, freshPriv: nat)
    requires PrimsOK(pr) && TableOK(pr, st) && KeysKnown(st, m.fields)
    ensures var f := m.fields;
            var (x, out) := AcceptParsed(pr, st, m, freshPriv);
            var s := DhSession(pr, DataLayout.OursNamed(st, f.recipient).value, DataLayout.TheirsNamed(st, f.sender).value);
            && (m.mac != pr.hmac(s.rcvmackey, m.maced) ==> x == st && out == Conflict)
            && (out.Plain? ==> MovedOn(pr, st, f, freshPriv, x))
            && (m.mac == pr.hmac(s.rcvmackey, m.maced) && !out.Plain? ==>
                  exists i: nat, j: nat :: i < 2 && j < 2 && x == SetSlot(st, i, j, Slot(st, i, j).(rcvmacused := true))
                     && (i == 0 <==> f.recipient == st.ourKeyid) && (j == 0 <==> f.sender == st.theirKeyid))
  {
    var f := m.fields;
    DataLayout.NamedAreKnown(pr, st, f);
    DataLayout.SlotNamed(pr, st, f);
    IndexInTable(st, f);
    var i, j := RowOf(st, f), ColumnOf(st, f);
    Steps(pr, st, m, freshPriv, i, j, Slot(st, i, j));
    RotationsMove(pr, st, f, freshPriv, SetSlot(st, i, j, Took(Slot(st, i, j), f.ctr)));
  }
}
