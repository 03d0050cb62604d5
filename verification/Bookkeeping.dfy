// The numbers of the ratchet without the cryptography: which counters and MAC keys
// sit in which slot while the key numbers move on.
module Bookkeeping {
  import opened Bytes

  // A slot: its two counters, and the receive MAC key with its used mark.
  datatype Cell = Cell(send: nat, rcv: nat, used: bool, key: seq<byte>)

  // cIJ belongs to our key number our-I and their key number their-J; column 1 is
  // meaningful when oldKnown.
  datatype Core = Core(our: int, their: int, oldKnown: bool, c00: Cell, c01: Cell, c10: Cell, c11: Cell, saved: seq<byte>)

  // A session: the number of our key and of their key.
  datatype Pair = Pair(our: int, their: int)

  // The key numbers and counter of a message.
  datatype Triple = Triple(sender: int, recipient: int, ctr: nat)

  // A receive MAC key moved to the reveal list, with the session it belongs to; a
  // slot of column 1 left over from an earlier session belongs to no pair.
  datatype Retired = Retired(pair: Option<Pair>, key: seq<byte>)

  // What an observer writes down: the messages created, the messages accepted, the
  // key each session verified a MAC with, the keys moved to the reveal list, and the
  // octets revealed in the messages created.
  datatype Log = Log(sent: seq<Triple>, accepted: seq<Triple>, verified: map<Pair, seq<byte>>,
                     retired: seq<Retired>, revealed: seq<byte>)

  const EMPTY_LOG := Log([], [], map[], [], [])

  // ----------------------------------------------------------- the steps

  function Octets(c: Cell): seq<byte>
  {
    if c.used then c.key else []
  }

  function SendStep(c: Core): Core
  {
    c.(c10 := c.c10.(send := c.c10.send + 1), saved := [])
  }

  function CellAt(c: Core, i: nat, j: nat): Cell
    requires i < 2 && j < 2
  {
    if i == 0 then (if j == 0 then c.c00 else c.c01) else (if j == 0 then c.c10 else c.c11)
  }

  function SetCell(c: Core, i: nat, j: nat, x: Cell): Core
    requires i < 2 && j < 2
  {
    if i == 0 then (if j == 0 then c.(c00 := x) else c.(c01 := x))
    else (if j == 0 then c.(c10 := x) else c.(c11 := x))
  }

  function RowStep(c: Core, x: Cell, y: Cell): Core
  {
    Core(c.our + 1, c.their, c.oldKnown, x, y, c.c00, c.c01, c.saved + Octets(c.c10) + Octets(c.c11))
  }

  function ColumnStep(c: Core, x: Cell, y: Cell): Core
  {
    Core(c.our, c.their + 1, true, x, c.c00, y, c.c10, c.saved + Octets(c.c01) + Octets(c.c11))
  }

  // ----------------------------------------------- no counter used twice

  predicate Distinct<T(==)>(s: seq<T>)
  {
    forall i, j :: 0 <= i < j < |s| ==> s[i] != s[j]
  }

  lemma DistinctSnoc<T>(s: seq<T>, x: T)
    requires Distinct(s) && x !in s
    ensures Distinct(s + [x])
  {
  }

  ghost predicate SentInv(c: Core, sent: seq<Triple>)
  {
    && c.c00.send == 0 && c.c10.send <= |sent|
    && (forall t :: t in sent ==> t.sender < c.our && t.recipient <= c.their)
    && (forall t :: t in sent && t.sender == c.our - 1 && t.recipient == c.their ==> t.ctr <= c.c10.send)
    && Distinct(sent)
  }

  lemma SendSent(c: Core, sent: seq<Triple>)
    requires SentInv(c, sent)
    ensures SentInv(SendStep(c), sent + [Triple(c.our - 1, c.their, c.c10.send + 1)])
  {
    DistinctSnoc(sent, Triple(c.our - 1, c.their, c.c10.send + 1));
  }

  lemma SetCellSent(c: Core, sent: seq<Triple>, i: nat, j: nat, x: Cell)
    requires SentInv(c, sent) && i < 2 && j < 2 && x.send == CellAt(c, i, j).send
    ensures SentInv(SetCell(c, i, j, x), sent)
  {
  }

  lemma RotateSent(c: Core, sent: seq<Triple>, x: Cell, y: Cell)
    requires SentInv(c, sent) && x.send == 0
    ensures SentInv(RowStep(c, x, y), sent)
    ensures y.send == 0 ==> SentInv(ColumnStep(c, x, y), sent)
  {
  }

  // ------------------------------------------------ no message taken twice

  ghost predicate AcceptedInv(c: Core, accepted: seq<Triple>)
  {
    && (forall t :: t in accepted ==> c.oldKnown && t.recipient <= c.our && t.sender <= c.their)
    && (forall t :: t in accepted && t.recipient == c.our ==>
          && (t.sender == c.their ==> t.ctr <= c.c00.rcv)
          && (t.sender == c.their - 1 ==> t.ctr <= c.c01.rcv))
    && (forall t :: t in accepted && t.recipient == c.our - 1 ==>
          && (t.sender == c.their ==> t.ctr <= c.c10.rcv)
          && (t.sender == c.their - 1 ==> t.ctr <= c.c11.rcv))
    && Distinct(accepted)
  }

  // While accepting, before the rotations, the condition on oldKnown waits for the
  // rotation the first message always causes.
  ghost predicate Accepting(c: Core, accepted: seq<Triple>)
  {
    AcceptedInv(c.(oldKnown := true), accepted)
  }

  lemma CounterAccepted(c: Core, accepted: seq<Triple>, i: nat, j: nat, ctr: nat, x: Cell)
    requires AcceptedInv(c, accepted) && i < 2 && j < 2
    requires CellAt(c, i, j).rcv < ctr && x.rcv == ctr
    ensures Accepting(SetCell(c, i, j, x), accepted + [Triple(c.their - j, c.our - i, ctr)])
  {
    DistinctSnoc(accepted, Triple(c.their - j, c.our - i, ctr));
    if i == 0 {
      if j == 0 { } else { }
    } else {
      if j == 0 { } else { }
    }
  }

  lemma RotateAccepted(c: Core, accepted: seq<Triple>, x: Cell, y: Cell)
    requires Accepting(c, accepted)
    ensures Accepting(RowStep(c, x, y), accepted)
    ensures AcceptedInv(ColumnStep(c, x, y), accepted)
  {
  }

  // ---------------------------------------------- conservation of MAC keys

  predicate InWindow(c: Core, p: Pair)
  {
    (p.our == c.our || p.our == c.our - 1) && (p.their == c.their || (c.oldKnown && p.their == c.their - 1))
  }

  function CellFor(c: Core, p: Pair): Cell
    requires InWindow(c, p)
  {
    CellAt(c, c.our - p.our, c.their - p.their)
  }

  function Keys(retired: seq<Retired>): seq<byte>
  {
    if retired == [] then [] else Keys(retired[..|retired| - 1]) + retired[|retired| - 1].key
  }

  // The window has moved past a pair: no later message can name it.
  predicate Gone(c: Core, p: Pair)
  {
    p.our < c.our - 1 || p.their < c.their - 1
  }

  ghost predicate IsRetired(retired: seq<Retired>, p: Pair)
  {
    exists k :: 0 <= k < |retired| && retired[k].pair == Some(p)
  }

  // Every key that verified a message is in its slot, marked used, as long as the
  // slot can be named, and from then on exactly once in the reveal list.
  ghost predicate UsedMarks(c: Core, verified: map<Pair, seq<byte>>)
  {
    forall p :: InWindow(c, p) ==>
      && (CellFor(c, p).used <==> p in verified)
      && (p in verified ==> CellFor(c, p).key == verified[p])
  }

  ghost predicate RetiredMarks(c: Core, verified: map<Pair, seq<byte>>, retired: seq<Retired>)
  {
    && (forall k :: 0 <= k < |retired| && retired[k].pair.Some? ==>
          var p := retired[k].pair.value;
          Gone(c, p) && p in verified && retired[k].key == verified[p])
    && (forall k, l :: 0 <= k < l < |retired| && retired[k].pair.Some? ==> retired[k].pair != retired[l].pair)
    && (forall p :: p in verified && !InWindow(c, p) ==> IsRetired(retired, p))
    && (forall p :: p in verified ==> p.our <= c.our && p.their <= c.their)
  }

  // Octets already sent, octets waiting, and the keys retired since the start.
  ghost predicate Conserved(c: Core, log: Log, saved0: seq<byte>)
  {
    log.revealed + c.saved == saved0 + Keys(log.retired)
  }

  lemma SendMarks(c: Core, verified: map<Pair, seq<byte>>, retired: seq<Retired>)
    requires UsedMarks(c, verified) && RetiredMarks(c, verified, retired)
    ensures UsedMarks(SendStep(c), verified) && RetiredMarks(SendStep(c), verified, retired)
  {
    var d := SendStep(c);
    assert forall p :: InWindow(d, p) ==> InWindow(c, p) && CellFor(d, p).(send := 0) == CellFor(c, p).(send := 0);
    assert forall p :: Gone(d, p) == Gone(c, p);
  }

  lemma SendConserved(c: Core, log: Log, saved0: seq<byte>)
    requires Conserved(c, log, saved0)
    ensures Conserved(SendStep(c), log.(revealed := log.revealed + c.saved), saved0)
  {
    assert log.revealed + c.saved + [] == log.revealed + c.saved;
  }

  // A MAC was right: the slot is marked and the pair counts as verified.
  lemma MarkRetired(c: Core, verified: map<Pair, seq<byte>>, retired: seq<Retired>, p: Pair, x: Cell, key: seq<byte>)
    requires RetiredMarks(c, verified, retired) && InWindow(c, p)
    ensures RetiredMarks(SetCell(c, c.our - p.our, c.their - p.their, x), verified[p := key], retired)
  {
    var d := SetCell(c, c.our - p.our, c.their - p.their, x);
    assert forall q :: InWindow(d, q) == InWindow(c, q) && Gone(d, q) == Gone(c, q);
  }

  lemma MarkUsed(c: Core, verified: map<Pair, seq<byte>>, p: Pair, ctr: nat)
    requires UsedMarks(c, verified) && InWindow(c, p)
    ensures var x := CellFor(c, p);
            UsedMarks(SetCell(c, c.our - p.our, c.their - p.their, x.(used := true, rcv := ctr)), verified[p := x.key])
  {
    var x := CellFor(c, p);
    var d := SetCell(c, c.our - p.our, c.their - p.their, x.(used := true, rcv := ctr));
    forall q | InWindow(d, q)
      ensures CellFor(d, q).used <==> q in verified[p := x.key]
      ensures q in verified[p := x.key] ==> CellFor(d, q).key == verified[p := x.key][q]
    {
      if q != p {
        assert CellFor(d, q) == CellFor(c, q);
      }
    }
  }

  // The two slots that leave the table with a rotation.
  function UsedKey(c: Cell, pair: Option<Pair>): seq<Retired>
  {
    if c.used then [Retired(pair, c.key)] else []
  }

  function OldPair(c: Core, our: int): Option<Pair>
  {
    if c.oldKnown then Some(Pair(our, c.their - 1)) else None
  }

  function RetiredRow(c: Core): seq<Retired>
  {
    UsedKey(c.c10, Some(Pair(c.our - 1, c.their))) + UsedKey(c.c11, OldPair(c, c.our - 1))
  }

  function RetiredColumn(c: Core): seq<Retired>
  {
    UsedKey(c.c01, OldPair(c, c.our)) + UsedKey(c.c11, OldPair(c, c.our - 1))
  }

  lemma {:induction false} KeysConcat(r: seq<Retired>, s: seq<Retired>)
    ensures Keys(r + s) == Keys(r) + Keys(s)
  {
    if s == [] {
      assert r + s == r;
    } else {
      assert (r + s)[..|r + s| - 1] == r + s[..|s| - 1];
      KeysConcat(r, s[..|s| - 1]);
    }
  }

  lemma KeysOfUsed(c: Cell, d: Cell, p: Option<Pair>, q: Option<Pair>)
    ensures Keys(UsedKey(c, p) + UsedKey(d, q)) == Octets(c) + Octets(d)
  {
    KeysConcat(UsedKey(c, p), UsedKey(d, q));
    assert Keys([Retired(p, c.key)]) == c.key by { assert [Retired(p, c.key)][..0] == []; }
    assert Keys([Retired(q, d.key)]) == d.key by { assert [Retired(q, d.key)][..0] == []; }
  }

  // What is appended to the list: sessions just leaving the window, all the verified
  // ones among them, each once and with the key it verified.
  ghost predicate Leaving(c: Core, d: Core, verified: map<Pair, seq<byte>>, r: seq<Retired>)
  {
    && c.our <= d.our && c.their <= d.their
    && (forall k :: 0 <= k < |r| && r[k].pair.Some? ==>
          var p := r[k].pair.value;
          InWindow(c, p) && Gone(d, p) && p in verified && r[k].key == verified[p])
    && (forall k, l :: 0 <= k < l < |r| && r[k].pair.Some? ==> r[k].pair != r[l].pair)
    && (forall p :: InWindow(c, p) && p in verified && !InWindow(d, p) ==> IsRetired(r, p))
  }

  lemma RetireMore(c: Core, d: Core, verified: map<Pair, seq<byte>>, retired: seq<Retired>, r: seq<Retired>)
    requires RetiredMarks(c, verified, retired) && Leaving(c, d, verified, r)
    ensures RetiredMarks(d, verified, retired + r)
  {
    var all := retired + r;
    forall k | 0 <= k < |all| && all[k].pair.Some?
      ensures Gone(d, all[k].pair.value) && all[k].pair.value in verified && all[k].key == verified[all[k].pair.value]
    {
      assert all[k] == if k < |retired| then retired[k] else r[k - |retired|];
    }
    forall k, l | 0 <= k < l < |all| && all[k].pair.Some?
      ensures all[k].pair != all[l].pair
    {
      assert all[k] == if k < |retired| then retired[k] else r[k - |retired|];
      assert all[l] == if l < |retired| then retired[l] else r[l - |retired|];
    }
    forall p | p in verified && !InWindow(d, p)
      ensures IsRetired(all, p)
    {
      if InWindow(c, p) {
        var k :| 0 <= k < |r| && r[k].pair == Some(p);
        assert all[|retired| + k].pair == Some(p);
      } else {
        var k :| 0 <= k < |retired| && retired[k].pair == Some(p);
        assert all[k].pair == Some(p);
      }
    }
  }

  lemma UsedKeys(x: Cell, y: Cell, p: Option<Pair>, q: Option<Pair>) returns (r: seq<Retired>)
    ensures r == UsedKey(x, p) + UsedKey(y, q)
    ensures |r| == (if x.used then 1 else 0) + (if y.used then 1 else 0)
    ensures x.used ==> r[0] == Retired(p, x.key)
    ensures y.used ==> r[|r| - 1] == Retired(q, y.key)
  {
    r := UsedKey(x, p) + UsedKey(y, q);
  }

  // The slot x of the pair p is about to leave the window.
  ghost predicate OnTheWayOut(c: Core, d: Core, x: Cell, p: Option<Pair>)
  {
    p.Some? ==> InWindow(c, p.value) && Gone(d, p.value) && CellFor(c, p.value) == x
  }

  lemma SlotLeaves(c: Core, d: Core, x: Cell, p: Option<Pair>, verified: map<Pair, seq<byte>>)
    requires UsedMarks(c, verified) && OnTheWayOut(c, d, x, p) && p.Some? && x.used
    ensures InWindow(c, p.value) && Gone(d, p.value) && p.value in verified && x.key == verified[p.value]
  {
  }

  // Two slots leave, and no other.
  lemma TwoLeave(c: Core, d: Core, x: Cell, y: Cell, p: Option<Pair>, q: Option<Pair>, verified: map<Pair, seq<byte>>)
    requires UsedMarks(c, verified) && c.our <= d.our && c.their <= d.their
    requires OnTheWayOut(c, d, x, p) && OnTheWayOut(c, d, y, q) && (p.Some? ==> p != q)
    requires forall o :: InWindow(c, o) && !InWindow(d, o) ==> p == Some(o) || q == Some(o)
    ensures Leaving(c, d, verified, UsedKey(x, p) + UsedKey(y, q))
  {
    var r := UsedKeys(x, y, p, q);
    forall k | 0 <= k < |r| && r[k].pair.Some?
      ensures var o := r[k].pair.value; InWindow(c, o) && Gone(d, o) && o in verified && r[k].key == verified[o]
    {
      if k == 0 && x.used { SlotLeaves(c, d, x, p, verified); } else { SlotLeaves(c, d, y, q, verified); }
    }
    forall o | InWindow(c, o) && o in verified && !InWindow(d, o)
      ensures IsRetired(r, o)
    {
      if p == Some(o) { assert r[0].pair == Some(o); } else { assert r[|r| - 1].pair == Some(o); }
    }
  }

  lemma RowLeaves(c: Core, x: Cell, y: Cell, verified: map<Pair, seq<byte>>)
    requires UsedMarks(c, verified)
    ensures Leaving(c, RowStep(c, x, y), verified, RetiredRow(c))
  {
    TwoLeave(c, RowStep(c, x, y), c.c10, c.c11, Some(Pair(c.our - 1, c.their)), OldPair(c, c.our - 1), verified);
  }

  lemma ColumnLeaves(c: Core, x: Cell, y: Cell, verified: map<Pair, seq<byte>>)
    requires UsedMarks(c, verified)
    ensures Leaving(c, ColumnStep(c, x, y), verified, RetiredColumn(c))
  {
    TwoLeave(c, ColumnStep(c, x, y), c.c01, c.c11, OldPair(c, c.our), OldPair(c, c.our - 1), verified);
  }

  lemma RowUsed(c: Core, x: Cell, y: Cell, verified: map<Pair, seq<byte>>)
    requires UsedMarks(c, verified) && !x.used && !y.used
    requires forall p :: p in verified ==> p.our <= c.our && p.their <= c.their
    ensures UsedMarks(RowStep(c, x, y), verified)
  {
    var d := RowStep(c, x, y);
    forall p | InWindow(d, p)
      ensures CellFor(d, p).used <==> p in verified
      ensures p in verified ==> CellFor(d, p).key == verified[p]
    {
      if p.our == c.our {
        assert InWindow(c, p) && CellFor(c, p) == CellFor(d, p);
      }
    }
  }

  lemma ColumnUsed(c: Core, x: Cell, y: Cell, verified: map<Pair, seq<byte>>)
    requires UsedMarks(c, verified) && !x.used && !y.used
    requires forall p :: p in verified ==> p.our <= c.our && p.their <= c.their
    ensures UsedMarks(ColumnStep(c, x, y), verified)
  {
    var d := ColumnStep(c, x, y);
    forall p | InWindow(d, p)
      ensures CellFor(d, p).used <==> p in verified
      ensures p in verified ==> CellFor(d, p).key == verified[p]
    {
      if p.their == c.their {
        assert InWindow(c, p) && CellFor(c, p) == CellFor(d, p);
      }
    }
  }

  lemma RetireKeys(log: Log, saved: seq<byte>, saved0: seq<byte>, x: Cell, y: Cell, p: Option<Pair>, q: Option<Pair>)
    requires log.revealed + saved == saved0 + Keys(log.retired)
    ensures log.revealed + (saved + Octets(x) + Octets(y)) == saved0 + Keys(log.retired + (UsedKey(x, p) + UsedKey(y, q)))
  {
    KeysOfUsed(x, y, p, q);
    KeysConcat(log.retired, UsedKey(x, p) + UsedKey(y, q));
    Conserve(log.revealed, saved, saved0, Keys(log.retired), Octets(x), Octets(y));
  }

  lemma RowRetired(c: Core, verified: map<Pair, seq<byte>>, retired: seq<Retired>, x: Cell, y: Cell)
    requires UsedMarks(c, verified) && RetiredMarks(c, verified, retired)
    ensures RetiredMarks(RowStep(c, x, y), verified, retired + RetiredRow(c))
  {
    RowLeaves(c, x, y, verified);
    RetireMore(c, RowStep(c, x, y), verified, retired, RetiredRow(c));
  }

  lemma ColumnRetired(c: Core, verified: map<Pair, seq<byte>>, retired: seq<Retired>, x: Cell, y: Cell)
    requires UsedMarks(c, verified) && RetiredMarks(c, verified, retired)
    ensures RetiredMarks(ColumnStep(c, x, y), verified, retired + RetiredColumn(c))
  {
    ColumnLeaves(c, x, y, verified);
    RetireMore(c, ColumnStep(c, x, y), verified, retired, RetiredColumn(c));
  }

  lemma RotateConserved(c: Core, log: Log, saved0: seq<byte>, x: Cell, y: Cell)
    requires Conserved(c, log, saved0)
    ensures Conserved(RowStep(c, x, y), log.(retired := log.retired + RetiredRow(c)), saved0)
    ensures Conserved(ColumnStep(c, x, y), log.(retired := log.retired + RetiredColumn(c)), saved0)
  {
    RetireKeys(log, c.saved, saved0, c.c10, c.c11, Some(Pair(c.our - 1, c.their)), OldPair(c, c.our - 1));
    RetireKeys(log, c.saved, saved0, c.c01, c.c11, OldPair(c, c.our), OldPair(c, c.our - 1));
  }

  lemma Conserve(revealed: seq<byte>, saved: seq<byte>, saved0: seq<byte>, keys: seq<byte>, a: seq<byte>, b: seq<byte>)
    requires revealed + saved == saved0 + keys
    ensures revealed + (saved + a + b) == saved0 + (keys + (a + b))
  {
    calc {
      revealed + (saved + a + b);
      (revealed + saved) + (a + b);
      (saved0 + keys) + (a + b);
      saved0 + (keys + (a + b));
    }
  }

  // ------------------------------------------------- all of it, step by step

  ghost predicate Inv(c: Core, log: Log, saved0: seq<byte>)
  {
    && SentInv(c, log.sent) && AcceptedInv(c, log.accepted)
    && UsedMarks(c, log.verified) && RetiredMarks(c, log.verified, log.retired) && Conserved(c, log, saved0)
  }

  // Between taking a message and the rotations it causes.
  ghost predicate Mid(c: Core, log: Log, saved0: seq<byte>)
  {
    && SentInv(c, log.sent) && Accepting(c, log.accepted)
    && UsedMarks(c, log.verified) && RetiredMarks(c, log.verified, log.retired) && Conserved(c, log, saved0)
  }

  function LogSend(c: Core, log: Log): Log
  {
    log.(sent := log.sent + [Triple(c.our - 1, c.their, c.c10.send + 1)], revealed := log.revealed + c.saved)
  }

  function LogVerified(c: Core, log: Log, p: Pair): Log
    requires InWindow(c, p)
  {
    log.(verified := log.verified[p := CellFor(c, p).key])
  }

  function LogAccepted(log: Log, p: Pair, ctr: nat): Log
  {
    log.(accepted := log.accepted + [Triple(p.their, p.our, ctr)])
  }

  lemma InvSend(c: Core, log: Log, saved0: seq<byte>)
    requires Inv(c, log, saved0)
    ensures Inv(SendStep(c), LogSend(c, log), saved0)
  {
    SendSent(c, log.sent);
    SendMarks(c, log.verified, log.retired);
    SendConserved(c, log, saved0);
  }

  function Marked(c: Core, p: Pair, ctr: nat): Core
    requires InWindow(c, p)
  {
    SetCell(c, c.our - p.our, c.their - p.their, CellFor(c, p).(used := true, rcv := ctr))
  }

  // A replay only leaves the used mark.
  lemma InvReplay(c: Core, log: Log, saved0: seq<byte>, p: Pair)
    requires Inv(c, log, saved0) && InWindow(c, p)
    ensures Inv(Marked(c, p, CellFor(c, p).rcv), LogVerified(c, log, p), saved0)
  {
    var x := CellFor(c, p).(used := true);
    SetCellSent(c, log.sent, c.our - p.our, c.their - p.their, x);
    MarkUsed(c, log.verified, p, x.rcv);
    MarkRetired(c, log.verified, log.retired, p, x, x.key);
  }

  lemma InvAccept(c: Core, log: Log, saved0: seq<byte>, p: Pair, ctr: nat)
    requires Inv(c, log, saved0) && InWindow(c, p) && CellFor(c, p).rcv < ctr
    ensures Mid(Marked(c, p, ctr), LogAccepted(LogVerified(c, log, p), p, ctr), saved0)
  {
    var x := CellFor(c, p).(used := true, rcv := ctr);
    SetCellSent(c, log.sent, c.our - p.our, c.their - p.their, x);
    CounterAccepted(c, log.accepted, c.our - p.our, c.their - p.their, ctr, x);
    MarkUsed(c, log.verified, p, ctr);
    MarkRetired(c, log.verified, log.retired, p, x, x.key);
  }

  lemma MidRow(c: Core, log: Log, saved0: seq<byte>, x: Cell, y: Cell)
    requires Mid(c, log, saved0) && x.send == 0 && !x.used && !y.used
    ensures Mid(RowStep(c, x, y), log.(retired := log.retired + RetiredRow(c)), saved0)
  {
    RotateSent(c, log.sent, x, y);
    RotateAccepted(c, log.accepted, x, y);
    RowUsed(c, x, y, log.verified);
    RowRetired(c, log.verified, log.retired, x, y);
    RotateConserved(c, log, saved0, x, y);
  }

  lemma MidColumn(c: Core, log: Log, saved0: seq<byte>, x: Cell, y: Cell)
    requires Mid(c, log, saved0) && x.send == 0 && y.send == 0 && !x.used && !y.used
    ensures Inv(ColumnStep(c, x, y), log.(retired := log.retired + RetiredColumn(c)), saved0)
  {
    RotateSent(c, log.sent, x, y);
    RotateAccepted(c, log.accepted, x, y);
    ColumnUsed(c, x, y, log.verified);
    ColumnRetired(c, log.verified, log.retired, x, y);
    RotateConserved(c, log, saved0, x, y);
  }
}
