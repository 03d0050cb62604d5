// Whole runs of one session against an arbitrary network: what is sent is any
// sequence of calls, what is received any sequence of octet strings.
module RatchetRuns {
  import opened Bytes
  import opened Dh
  import opened Tlv
  import opened DataMessage
  import opened Ratchet
  import opened Bookkeeping

  datatype Event =
    | Send(text: seq<byte>, tlvs: seq<Tlv>, flags: byte)
    | Recv(raw: seq<byte>, freshPriv: nat)

  // ------------------------------------------------------------ the runs

  ghost predicate Ready(pr: Prims, st: Priv)
  {
    PrimsOK(pr) && TableOK(pr, st) && st.encrypted && ValidVersion(st.version)
  }

  function CellOf(s: Sess): Cell
  {
    Cell(s.sendctr, s.rcvctr, s.rcvmacused, s.rcvmackey)
  }

  // What the bookkeeping is about: key numbers, counters, used marks and MAC keys.
  function CoreOf(st: Priv): Core
  {
    Core(st.ourKeyid, st.theirKeyid, st.theirOldY.Some?,
         CellOf(st.s00), CellOf(st.s01), CellOf(st.s10), CellOf(st.s11), st.saved)
  }

  function After(pr: Prims, st: Priv, e: Event): Priv
    requires pr.p > 0 && KeyidsFit(st) && ValidVersion(st.version)
  {
    match e
    case Send(text, tlvs, flags) =>
      var r := CreateData(pr, st, text, tlvs, flags);
      if r.Some? then r.value.0 else st
    case Recv(raw, freshPriv) => AcceptData(pr, st, raw, freshPriv).0
  }

  lemma AfterReady(pr: Prims, st: Priv, e: Event)
    requires Ready(pr, st)
    ensures Ready(pr, After(pr, st, e))
  {
    match e
    case Send(text, tlvs, flags) => CreateDataTable(pr, st, text, tlvs, flags);
    case Recv(raw, freshPriv) =>
      AcceptDataTable(pr, st, raw, freshPriv);
      AcceptKeepsVersion(pr, st, raw, freshPriv);
  }

  lemma RotationsKeepVersion(pr: Prims, st: Priv, f: Fields, freshPriv: nat)
    requires pr.p > 0
    ensures Rotations(pr, st, f, freshPriv).version == st.version
  {
  }

  lemma AcceptKeepsVersion(pr: Prims, st: Priv, raw: seq<byte>, freshPriv: nat)
    requires pr.p > 0 && KeyidsFit(st)
    ensures AcceptData(pr, st, raw, freshPriv).0.version == st.version
  {
    var parsed := Parse(raw);
    if parsed.Some? && KeysKnown(st, parsed.value.fields) {
      var f := parsed.value.fields;
      IndexInTable(st, f);
      RotationsKeepVersion(pr, SetSlot(st, RowOf(st, f), ColumnOf(st, f),
        Slot(st, RowOf(st, f), ColumnOf(st, f)).(rcvmacused := true, rcvctr := f.ctr)), f, freshPriv);
    }
  }

  // ------------------------------------------------------- what is logged

  function TripleOf(f: Fields): Triple
  {
    Triple(f.sender, f.recipient, f.ctr)
  }

  function PairOf(f: Fields): Pair
  {
    Pair(f.recipient, f.sender)
  }

  function SlotOf(st: Priv, f: Fields): Sess
    requires KeyidsFit(st) && KeysKnown(st, f)
  {
    IndexInTable(st, f);
    Slot(st, RowOf(st, f), ColumnOf(st, f))
  }

  // The message names keys we hold and its MAC is right.
  predicate Authentic(pr: Prims, st: Priv, m: Received)
    requires KeyidsFit(st)
  {
    KeysKnown(st, m.fields) && m.mac == pr.hmac(SlotOf(st, m.fields).rcvmackey, m.maced)
  }

  // The slots the rotations for an accepted message drop, st being the state with the
  // message's slot already marked.
  function RetiredFor(pr: Prims, st: Priv, f: Fields, freshPriv: nat): seq<Retired>
    requires pr.p > 0
  {
    var st1 := if f.recipient == st.ourKeyid then RotateDh(pr, st, freshPriv) else st;
    (if f.recipient == st.ourKeyid then RetiredRow(CoreOf(st)) else [])
    + (if f.sender == st1.theirKeyid then RetiredColumn(CoreOf(st1)) else [])
  }

  function Observe(pr: Prims, st: Priv, log: Log, e: Event): Log
    requires pr.p > 0 && KeyidsFit(st) && ValidVersion(st.version)
  {
    match e
    case Send(text, tlvs, flags) =>
      if !CanSend(st) then log else
        var f := NextFields(pr, st, Payload(text, tlvs));
        log.(sent := log.sent + [TripleOf(f)], revealed := log.revealed + st.saved)
    case Recv(raw, freshPriv) =>
      var parsed := Parse(raw);
      if parsed.None? || !Authentic(pr, st, parsed.value) then log else
        var f := parsed.value.fields;
        var log1 := log.(verified := log.verified[PairOf(f) := SlotOf(st, f).rcvmackey]);
        if AcceptData(pr, st, raw, freshPriv).1.Plain? then
          log1.(accepted := log1.accepted + [TripleOf(f)],
                retired := log1.retired + RetiredFor(pr, Taken(st, f), f, freshPriv))
        else log1
  }

  function PutSlot(st: Priv, f: Fields, s: Sess): Priv
    requires KeyidsFit(st) && KeysKnown(st, f)
  {
    IndexInTable(st, f);
    SetSlot(st, RowOf(st, f), ColumnOf(st, f), s)
  }

  // The state when a message has been accepted, before the rotations.
  function Taken(st: Priv, f: Fields): Priv
    requires KeyidsFit(st) && KeysKnown(st, f)
  {
    PutSlot(st, f, SlotOf(st, f).(rcvmacused := true, rcvctr := f.ctr))
  }

  function Run(pr: Prims, st: Priv, log: Log, evs: seq<Event>): (Priv, Log)
    requires Ready(pr, st)
    decreases |evs|
  {
    if evs == [] then (st, log) else
      AfterReady(pr, st, evs[0]);
      Run(pr, After(pr, st, evs[0]), Observe(pr, st, log, evs[0]), evs[1..])
  }

  // ------------------------------------------- steps seen as bookkeeping

  // A slot just derived, or blank.
  ghost predicate Unused(x: Cell)
  {
    x.send == 0 && x.rcv == 0 && !x.used
  }

  lemma DerivedUnused(pr: Prims, kp: Keypair, y: Option<nat>)
    requires pr.p > 0
    ensures Unused(CellOf(SessionOrBlank(pr, kp, y)))
  {
  }

  lemma CorePutRow(st: Priv, k: Keypair, s: Sess, t: Sess)
    requires st.ourKeyid + 1 < TWO32 && !st.s10.sendmacused && !st.s11.sendmacused
    ensures CoreOf(PutRow(ShiftRows(st), k, s, t)) == RowStep(CoreOf(st), CellOf(s), CellOf(t))
  {
    RevealKeys(st, st.s10, st.s11);
  }

  lemma CorePutColumn(st: Priv, y: nat, s: Sess, t: Sess)
    requires st.theirKeyid + 1 < TWO32 && !st.s01.sendmacused && !st.s11.sendmacused && st.theirY.Some?
    ensures CoreOf(PutColumn(ShiftColumns(st), y, s, t)) == ColumnStep(CoreOf(st), CellOf(s), CellOf(t))
  {
    RevealKeys(st, st.s01, st.s11);
  }

  lemma CoreRotateDh(pr: Prims, st: Priv, priv: nat) returns (x: Cell, y: Cell)
    requires pr.p > 0 && st.ourKeyid + 1 < TWO32 && !st.s10.sendmacused && !st.s11.sendmacused
    ensures CoreOf(RotateDh(pr, st, priv)) == RowStep(CoreOf(st), x, y) && Unused(x) && Unused(y)
  {
    var k := GenKeypair(pr, priv);
    var s, t := SessionOrBlank(pr, k, st.theirY), SessionOrBlank(pr, k, st.theirOldY);
    DerivedUnused(pr, k, st.theirY);
    DerivedUnused(pr, k, st.theirOldY);
    CorePutRow(st, k, s, t);
    x, y := CellOf(s), CellOf(t);
  }

  lemma CoreRotateY(pr: Prims, st: Priv, newY: nat) returns (x: Cell, y: Cell)
    requires pr.p > 0 && st.theirKeyid + 1 < TWO32 && !st.s01.sendmacused && !st.s11.sendmacused && st.theirY.Some?
    ensures CoreOf(RotateY(pr, st, newY)) == ColumnStep(CoreOf(st), x, y) && Unused(x) && Unused(y)
  {
    var s, t := DhSession(pr, st.ourKey, newY), DhSession(pr, st.ourOldKey, newY);
    DerivedUnused(pr, st.ourKey, Some(newY));
    DerivedUnused(pr, st.ourOldKey, Some(newY));
    CorePutColumn(st, newY, s, t);
    x, y := CellOf(s), CellOf(t);
  }

  lemma RevealKeys(st: Priv, s: Sess, t: Sess)
    requires !s.sendmacused && !t.sendmacused
    ensures RevealMacs(st, s, t).saved == st.saved + Octets(CellOf(s)) + Octets(CellOf(t))
  {
  }

  lemma CoreSend(st: Priv)
    requires st.s10.sendctr < TWO64 - 1
    ensures CoreOf(AfterSend(st)) == SendStep(CoreOf(st))
  {
  }

  lemma CoreSlot(st: Priv, i: nat, j: nat, s: Sess)
    requires i < 2 && j < 2
    ensures CoreOf(SetSlot(st, i, j, s)) == SetCell(CoreOf(st), i, j, CellOf(s))
    ensures CellOf(Slot(st, i, j)) == CellAt(CoreOf(st), i, j)
  {
  }

  lemma PairInWindow(st: Priv, f: Fields)
    requires KeyidsFit(st) && KeysKnown(st, f) && st.ourKeyid > 0
    ensures InWindow(CoreOf(st), PairOf(f))
    ensures CellFor(CoreOf(st), PairOf(f)) == CellOf(SlotOf(st, f))
    ensures RowOf(st, f) == st.ourKeyid - f.recipient && ColumnOf(st, f) == st.theirKeyid - f.sender
  {
    IndexInTable(st, f);
    CoreSlot(st, RowOf(st, f), ColumnOf(st, f), SlotOf(st, f));
  }

  // ------------------------------------------- one event keeps everything

  // Room for n more events before a key number or a counter could wrap.
  ghost predicate Room(st: Priv, log: Log, n: nat)
  {
    && 0 < st.ourKeyid && st.ourKeyid + n < TWO32 && 0 < st.theirKeyid && st.theirKeyid + n < TWO32
    && |log.sent| + n < TWO64
  }

  lemma SendLogged(pr: Prims, st: Priv, log: Log, text: seq<byte>, tlvs: seq<Tlv>, flags: byte)
    requires Ready(pr, st) && Room(st, log, 1) && st.s10.sendctr < TWO64 - 1
    ensures After(pr, st, Send(text, tlvs, flags)) == AfterSend(st)
    ensures Observe(pr, st, log, Send(text, tlvs, flags)) == LogSend(CoreOf(st), log)
  {
    NumbersStep(st.ourKeyid, st.s10.sendctr);
    NextTriple(pr, st, Payload(text, tlvs));
  }

  lemma NumbersStep(k: nat, c: nat)
    requires 0 < k < TWO32 && c < TWO64 - 1
    ensures Dec32(k) == k - 1 && NextCtr(c) == c + 1
  {
  }

  lemma NextTriple(pr: Prims, st: Priv, payload: seq<byte>)
    ensures TripleOf(NextFields(pr, st, payload)) == Triple(Dec32(st.ourKeyid), st.theirKeyid, NextCtr(st.s10.sendctr))
  {
  }

  lemma SendEvent(pr: Prims, st: Priv, log: Log, saved0: seq<byte>, text: seq<byte>, tlvs: seq<Tlv>, flags: byte)
    requires Ready(pr, st) && Inv(CoreOf(st), log, saved0) && Room(st, log, 1)
    ensures var e := Send(text, tlvs, flags);
            Inv(CoreOf(After(pr, st, e)), Observe(pr, st, log, e), saved0) && Room(After(pr, st, e), Observe(pr, st, log, e), 0)
  {
    SendLogged(pr, st, log, text, tlvs, flags);
    CoreSend(st);
    InvSend(CoreOf(st), log, saved0);
  }

  lemma TakenEvent(pr: Prims, st: Priv, log: Log, saved0: seq<byte>, f: Fields)
    requires Ready(pr, st) && Inv(CoreOf(st), log, saved0) && st.ourKeyid > 0
    requires KeysKnown(st, f) && SlotOf(st, f).rcvctr < f.ctr
    ensures var log1 := log.(verified := log.verified[PairOf(f) := SlotOf(st, f).rcvmackey]);
            Mid(CoreOf(Taken(st, f)), log1.(accepted := log1.accepted + [TripleOf(f)]), saved0)
  {
    PairInWindow(st, f);
    CoreSlot(st, RowOf(st, f), ColumnOf(st, f), SlotOf(st, f).(rcvmacused := true, rcvctr := f.ctr));
    InvAccept(CoreOf(st), log, saved0, PairOf(f), f.ctr);
  }

  lemma ReplayEvent(pr: Prims, st: Priv, log: Log, saved0: seq<byte>, f: Fields)
    requires Ready(pr, st) && Inv(CoreOf(st), log, saved0) && st.ourKeyid > 0 && KeysKnown(st, f)
    ensures var log1 := log.(verified := log.verified[PairOf(f) := SlotOf(st, f).rcvmackey]);
            Inv(CoreOf(PutSlot(st, f, SlotOf(st, f).(rcvmacused := true))), log1, saved0)
  {
    PairInWindow(st, f);
    CoreSlot(st, RowOf(st, f), ColumnOf(st, f), SlotOf(st, f).(rcvmacused := true));
    InvReplay(CoreOf(st), log, saved0, PairOf(f));
  }

  lemma MaybeRow(pr: Prims, st: Priv, log: Log, saved0: seq<byte>, f: Fields, freshPriv: nat)
    requires PrimsOK(pr) && TableOK(pr, st) && Mid(CoreOf(st), log, saved0) && st.ourKeyid + 1 < TWO32
    ensures f.recipient == st.ourKeyid ==>
              Mid(CoreOf(RotateDh(pr, st, freshPriv)), log.(retired := log.retired + RetiredRow(CoreOf(st))), saved0)
  {
    var x, y := CoreRotateDh(pr, st, freshPriv);
    MidRow(CoreOf(st), log, saved0, x, y);
  }

  lemma MaybeColumn(pr: Prims, st: Priv, log: Log, saved0: seq<byte>, f: Fields)
    requires PrimsOK(pr) && TableOK(pr, st) && Mid(CoreOf(st), log, saved0) && st.theirKeyid + 1 < TWO32 && st.theirY.Some?
    ensures f.sender == st.theirKeyid ==>
              Inv(CoreOf(RotateY(pr, st, f.nextY)), log.(retired := log.retired + RetiredColumn(CoreOf(st))), saved0)
    ensures st.theirOldY.Some? ==> Inv(CoreOf(st), log, saved0)
  {
    var x, y := CoreRotateY(pr, st, f.nextY);
    MidColumn(CoreOf(st), log, saved0, x, y);
  }

  lemma RotationsEvent(pr: Prims, st: Priv, log: Log, saved0: seq<byte>, f: Fields, freshPriv: nat)
    requires PrimsOK(pr) && TableOK(pr, st) && st.encrypted
    requires Mid(CoreOf(st), log, saved0) && st.ourKeyid + 1 < TWO32 && st.theirKeyid + 1 < TWO32
    requires f.sender == st.theirKeyid || st.theirOldY.Some?
    ensures Inv(CoreOf(Rotations(pr, st, f, freshPriv)),
                log.(retired := log.retired + RetiredFor(pr, st, f, freshPriv)), saved0)
  {
    MaybeRow(pr, st, log, saved0, f, freshPriv);
    RotateDhTable(pr, st, freshPriv);
    var st1 := if f.recipient == st.ourKeyid then RotateDh(pr, st, freshPriv) else st;
    var r1 := if f.recipient == st.ourKeyid then RetiredRow(CoreOf(st)) else [];
    assert log.retired + [] == log.retired;
    var log1 := log.(retired := log.retired + r1);
    MaybeColumn(pr, st1, log1, saved0, f);
    RetiredParts(log, r1, RetiredColumn(CoreOf(st1)));
  }

  lemma RetiredParts(log: Log, r: seq<Retired>, s: seq<Retired>)
    ensures log.retired + r + s == log.retired + (r + s) && log.retired + r + [] == log.retired + r && r + [] == r
  {
  }

  // What an authentic message does to the state.
  lemma AuthenticCases(pr: Prims, st: Priv, raw: seq<byte>, freshPriv: nat)
    requires pr.p > 0 && KeyidsFit(st)
    ensures var (st1, r) := AcceptData(pr, st, raw, freshPriv);
            var parsed := Parse(raw);
            if parsed.None? || !Authentic(pr, st, parsed.value) then st1 == st && !r.Plain?
            else
              var f := parsed.value.fields;
              if f.ctr <= SlotOf(st, f).rcvctr then
                !r.Plain? && st1 == PutSlot(st, f, SlotOf(st, f).(rcvmacused := true))
              else
                r.Plain? && st1 == Rotations(pr, Taken(st, f), f, freshPriv)
  {
  }

  lemma TakenTable(pr: Prims, st: Priv, f: Fields)
    requires PrimsOK(pr) && TableOK(pr, st) && KeysKnown(st, f) && f.ctr < TWO64
    ensures TableOK(pr, Taken(st, f))
    ensures var t := Taken(st, f);
            t.encrypted == st.encrypted && t.ourKeyid == st.ourKeyid && t.theirKeyid == st.theirKeyid && t.theirOldY == st.theirOldY
  {
    IndexInTable(st, f);
    SetSlotTable(pr, st, RowOf(st, f), ColumnOf(st, f), SlotOf(st, f).(rcvmacused := true, rcvctr := f.ctr));
  }

  lemma RecvEvent(pr: Prims, st: Priv, log: Log, saved0: seq<byte>, raw: seq<byte>, freshPriv: nat)
    requires Ready(pr, st) && Inv(CoreOf(st), log, saved0) && Room(st, log, 1)
    ensures var e := Recv(raw, freshPriv);
            Inv(CoreOf(After(pr, st, e)), Observe(pr, st, log, e), saved0)
  {
    AuthenticCases(pr, st, raw, freshPriv);
    var parsed := Parse(raw);
    if parsed.Some? && Authentic(pr, st, parsed.value) {
      var f := parsed.value.fields;
      if f.ctr <= SlotOf(st, f).rcvctr {
        ReplayEvent(pr, st, log, saved0, f);
      } else {
        AcceptEvent(pr, st, log, saved0, f, freshPriv, raw);
      }
    }
  }

  lemma AcceptEvent(pr: Prims, st: Priv, log: Log, saved0: seq<byte>, f: Fields, freshPriv: nat, raw: seq<byte>)
    requires Ready(pr, st) && Inv(CoreOf(st), log, saved0) && Room(st, log, 1)
    requires Parse(raw).Some? && Parse(raw).value.fields == f && KeysKnown(st, f) && SlotOf(st, f).rcvctr < f.ctr
    ensures Inv(CoreOf(Rotations(pr, Taken(st, f), f, freshPriv)),
                log.(verified := log.verified[PairOf(f) := SlotOf(st, f).rcvmackey],
                     accepted := log.accepted + [TripleOf(f)],
                     retired := log.retired + RetiredFor(pr, Taken(st, f), f, freshPriv)), saved0)
  {
    ParsedCtrFits(raw);
    TakenTable(pr, st, f);
    TakenEvent(pr, st, log, saved0, f);
    var log1 := log.(verified := log.verified[PairOf(f) := SlotOf(st, f).rcvmackey], accepted := log.accepted + [TripleOf(f)]);
    RotationsEvent(pr, Taken(st, f), log1, saved0, f, freshPriv);
  }

  // Key numbers move by at most one with every event.
  lemma RotationsNumbers(pr: Prims, st: Priv, f: Fields, freshPriv: nat)
    requires pr.p > 0 && st.ourKeyid + 1 < TWO32 && st.theirKeyid + 1 < TWO32
    ensures var st1 := Rotations(pr, st, f, freshPriv);
            st.ourKeyid <= st1.ourKeyid <= st.ourKeyid + 1 && st.theirKeyid <= st1.theirKeyid <= st.theirKeyid + 1
  {
    NumbersUp(st.ourKeyid);
    NumbersUp(st.theirKeyid);
    RotateNumbers(pr, st, freshPriv, f.nextY);
    RotateNumbers(pr, RotateDh(pr, st, freshPriv), freshPriv, f.nextY);
  }

  lemma NumbersUp(k: nat)
    requires k + 1 < TWO32
    ensures Inc32(k) == k + 1
  {
  }

  lemma RotateNumbers(pr: Prims, st: Priv, priv: nat, y: nat)
    requires pr.p > 0
    ensures var d := RotateDh(pr, st, priv); d.ourKeyid == Inc32(st.ourKeyid) && d.theirKeyid == st.theirKeyid
    ensures var d := RotateY(pr, st, y); d.ourKeyid == st.ourKeyid && d.theirKeyid == Inc32(st.theirKeyid)
  {
  }

  lemma RecvRoom(pr: Prims, st: Priv, log: Log, raw: seq<byte>, freshPriv: nat, n: nat)
    requires Ready(pr, st) && Room(st, log, n + 1)
    ensures var e := Recv(raw, freshPriv); Room(After(pr, st, e), Observe(pr, st, log, e), n)
  {
    AuthenticCases(pr, st, raw, freshPriv);
    var parsed := Parse(raw);
    if parsed.Some? && Authentic(pr, st, parsed.value) {
      var f := parsed.value.fields;
      ParsedCtrFits(raw);
      TakenTable(pr, st, f);
      RotationsNumbers(pr, Taken(st, f), f, freshPriv);
    }
  }

  lemma StepInv(pr: Prims, st: Priv, log: Log, saved0: seq<byte>, e: Event, n: nat)
    requires Ready(pr, st) && Inv(CoreOf(st), log, saved0) && Room(st, log, n + 1)
    ensures Inv(CoreOf(After(pr, st, e)), Observe(pr, st, log, e), saved0)
    ensures Room(After(pr, st, e), Observe(pr, st, log, e), n)
  {
    match e
    case Send(text, tlvs, flags) =>
      SendEvent(pr, st, log, saved0, text, tlvs, flags);
      SendLogged(pr, st, log, text, tlvs, flags);
    case Recv(raw, freshPriv) =>
      RecvEvent(pr, st, log, saved0, raw, freshPriv);
      RecvRoom(pr, st, log, raw, freshPriv, n);
  }

  lemma {:induction false} RunInv(pr: Prims, st: Priv, log: Log, saved0: seq<byte>, evs: seq<Event>)
    requires Ready(pr, st) && Inv(CoreOf(st), log, saved0) && Room(st, log, |evs|)
    ensures var (st1, log1) := Run(pr, st, log, evs); Inv(CoreOf(st1), log1, saved0) && Ready(pr, st1)
    decreases |evs|
  {
    if evs != [] {
      AfterReady(pr, st, evs[0]);
      StepInv(pr, st, log, saved0, evs[0], |evs| - 1);
      RunInv(pr, After(pr, st, evs[0]), Observe(pr, st, log, evs[0]), saved0, evs[1..]);
    }
  }

  // --------------------------------------------------------- the theorems

  // The state a session starts in.
  ghost predicate Start(pr: Prims, st: Priv)
  {
    && Ready(pr, st) && st.theirOldY.None? && st.ourKeyid > 0 && st.theirKeyid > 0
    && Unused(CellOf(st.s00)) && Unused(CellOf(st.s10))
  }

  // The exchange brought something new: no session yet, another fingerprint, another key or
  // number of ours than the older one in use, or a key of theirs that is neither their
  // current nor their older one under its number.
  ghost predicate NewExchange(st: Priv, auth: AuthResult, samePrint: bool)
  {
    || !st.encrypted || !samePrint
    || auth.ourDh.pub != st.ourOldKey.pub || auth.ourKeyid != (st.ourKeyid + TWO32 - 1) % TWO32
    || (&& !(st.theirY == Some(auth.theirPub) && st.theirKeyid == auth.theirKeyid)
        && !(st.theirOldY == Some(auth.theirPub) && st.theirKeyid == auth.theirKeyid + 1))
  }

  // An exchange over the keys in use, or with ourselves, changes nothing.
  lemma RefreshKeeps(pr: Prims, st: Priv, auth: AuthResult, samePrint: bool, freshPriv: nat)
    requires pr.p > 0 && auth.theirKeyid > 0
    requires auth.theirPub == auth.ourDh.pub || !NewExchange(st, auth, samePrint)
    ensures GoEncrypted(pr, st, auth, samePrint, freshPriv) == st
  {
  }

  // What go_encrypted leaves of a new exchange.
  lemma EncryptedNumbers(pr: Prims, st: Priv, auth: AuthResult, samePrint: bool, freshPriv: nat)
    requires pr.p > 0 && auth.theirPub != auth.ourDh.pub && NewExchange(st, auth, samePrint)
    requires auth.ourKeyid + 1 < TWO32 && KeyidsFit(st)
    ensures var x := GoEncrypted(pr, st, auth, samePrint, freshPriv);
            && x.theirKeyid == auth.theirKeyid && x.theirY == Some(auth.theirPub)
            && x.ourKeyid == auth.ourKeyid + 1 && x.ourOldKey.pub == auth.ourDh.pub
            && x.version == auth.version && x.theirOldY == None && x.encrypted
    ensures var x := GoEncrypted(pr, st, auth, samePrint, freshPriv); Unused(CellOf(x.s00)) && Unused(CellOf(x.s10))
  {
    NumbersUp(auth.ourKeyid);
    BeforeOf(st.ourKeyid, auth.ourKeyid);
    var y := SetTheirs(st, auth);
    RebuildKeeps(pr, if SameOldKey(st, auth) then y else TakeKey(pr, y, auth, freshPriv), auth.theirPub);
  }

  // The same with the keys and sessions: our keys are kept when the exchange used our older
  // one under its number, and replaced otherwise; what waits to be revealed stays.
  lemma EncryptedKeys(pr: Prims, st: Priv, auth: AuthResult, samePrint: bool, freshPriv: nat)
    requires pr.p > 0 && auth.theirPub != auth.ourDh.pub && NewExchange(st, auth, samePrint)
    ensures var x := GoEncrypted(pr, st, auth, samePrint, freshPriv);
            var kept := auth.ourDh.pub == st.ourOldKey.pub && auth.ourKeyid == (st.ourKeyid + TWO32 - 1) % TWO32;
            && (kept ==> x.ourOldKey == st.ourOldKey && x.ourKey == st.ourKey)
            && (!kept ==> x.ourOldKey == auth.ourDh && x.ourKey == GenKeypair(pr, freshPriv))
            && x.s00 == DhSession(pr, x.ourKey, auth.theirPub) && x.s10 == DhSession(pr, x.ourOldKey, auth.theirPub)
            && x.saved == st.saved && x.numSaved == st.numSaved && x.s01 == st.s01 && x.s11 == st.s11
            && x.ourInstance == st.ourInstance && x.theirInstance == st.theirInstance
  {
  }

  lemma BeforeOf(k: nat, m: nat)
    requires k < TWO32 && m + 1 < TWO32
    ensures Dec32(k) == m ==> k == m + 1
  {
  }

  lemma RebuildKeeps(pr: Prims, st: Priv, y: nat)
    requires pr.p > 0
    ensures var x := RebuildColumn(pr, st, y);
            && x.theirKeyid == st.theirKeyid && x.theirY == st.theirY
            && x.ourKeyid == st.ourKeyid && x.ourOldKey == st.ourOldKey
            && x.version == st.version && x.theirOldY == st.theirOldY && x.encrypted
    ensures var x := RebuildColumn(pr, st, y); Unused(CellOf(x.s00)) && Unused(CellOf(x.s10))
  {
    DerivedUnused(pr, st.ourKey, Some(y));
    DerivedUnused(pr, st.ourOldKey, Some(y));
  }

  // go_encrypted starts one from every new exchange.
  lemma GoEncryptedStarts(pr: Prims, st: Priv, auth: AuthResult, samePrint: bool, freshPriv: nat)
    requires PrimsOK(pr) && TableOK(pr, st) && ValidVersion(auth.version)
    requires 0 < auth.theirKeyid < TWO32 && auth.ourKeyid + 1 < TWO32
    requires auth.theirPub != auth.ourDh.pub && NewExchange(st, auth, samePrint)
    ensures Start(pr, GoEncrypted(pr, st, auth, samePrint, freshPriv))
  {
    GoEncryptedTable(pr, st, auth, samePrint, freshPriv);
    EncryptedNumbers(pr, st, auth, samePrint, freshPriv);
  }

  // The key numbers do not wrap in a run of n events.
  ghost predicate Fits(st: Priv, n: nat)
  {
    st.ourKeyid + n < TWO32 && st.theirKeyid + n < TWO32
  }

  lemma StartInv(pr: Prims, st: Priv)
    requires Start(pr, st)
    ensures Inv(CoreOf(st), EMPTY_LOG, st.saved)
  {
    assert [] + st.saved == st.saved + [];
  }

  // No two messages of a session are created with the same keys and counter.
  lemma NoCounterReuse(pr: Prims, st: Priv, evs: seq<Event>)
    requires Start(pr, st) && Fits(st, |evs|)
    ensures Distinct(Run(pr, st, EMPTY_LOG, evs).1.sent)
  {
    StartInv(pr, st);
    RunInv(pr, st, EMPTY_LOG, st.saved, evs);
  }

  // No (sender, recipient, counter) is accepted twice, whatever the network delivers.
  lemma NoReplay(pr: Prims, st: Priv, evs: seq<Event>)
    requires Start(pr, st) && Fits(st, |evs|)
    ensures Distinct(Run(pr, st, EMPTY_LOG, evs).1.accepted)
  {
    StartInv(pr, st);
    RunInv(pr, st, EMPTY_LOG, st.saved, evs);
  }

  // Octets revealed so far and octets waiting are, in order, the keys retired; the
  // keys that verified a message and have left the table were retired exactly once
  // each, those still in the table not at all.
  lemma MacKeysConserved(pr: Prims, st: Priv, evs: seq<Event>)
    requires Start(pr, st) && Fits(st, |evs|)
    ensures var (st1, log) := Run(pr, st, EMPTY_LOG, evs);
            && log.revealed + st1.saved == st.saved + Keys(log.retired)
            && |st1.saved| == 20 * st1.numSaved
            && (forall p :: p in log.verified ==> (IsRetired(log.retired, p) <==> !InWindow(CoreOf(st1), p)))
            && (forall p :: InWindow(CoreOf(st1), p) ==>
                  && (CellFor(CoreOf(st1), p).used <==> p in log.verified)
                  && (p in log.verified ==> CellFor(CoreOf(st1), p).key == log.verified[p]))
            && (forall k :: 0 <= k < |log.retired| && log.retired[k].pair.Some? ==>
                  var p := log.retired[k].pair.value; p in log.verified && log.retired[k].key == log.verified[p])
            && (forall k, l :: 0 <= k < l < |log.retired| && log.retired[k].pair.Some? ==>
                  log.retired[k].pair != log.retired[l].pair)
  {
    StartInv(pr, st);
    RunInv(pr, st, EMPTY_LOG, st.saved, evs);
  }

  // The key of a session that could still accept a message is never in the list: a
  // message naming a retired pair is refused.
  lemma RetiredRefused(pr: Prims, st: Priv, evs: seq<Event>, f: Fields)
    requires Start(pr, st) && Fits(st, |evs|)
    ensures var (st1, log) := Run(pr, st, EMPTY_LOG, evs);
            IsRetired(log.retired, PairOf(f)) ==> !KeysKnown(st1, f)
  {
    StartInv(pr, st);
    RunInv(pr, st, EMPTY_LOG, st.saved, evs);
    var (st1, log) := Run(pr, st, EMPTY_LOG, evs);
    if KeysKnown(st1, f) && st1.ourKeyid > 0 {
      PairInWindow(st1, f);
    }
  }
}
