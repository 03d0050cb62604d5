// Any number of honest contexts running the key exchange against a network that
// delivers whatever it likes, except forged signatures and MACs.
module AkeRuns {
  import opened Bytes
  import opened Dh
  import opened Ake

  datatype Role = Initiator | Responder

  // Which long-term key generated a DH key, for which role, under which number.
  datatype Origin = Origin(me: nat, role: Role, keyid: nat)

  // The contexts of the honest parties; the DH keys they generated; all the DH keys
  // they generated or stored; the messages they prepared for sending; the exchanges
  // they finished, in order.
  datatype World = World(ctx: map<nat, Info>, dh: map<nat, Origin>, seen: set<nat>, sent: set<Msg>, done: seq<Done>)

  datatype Event =
    | Start(who: nat, version: nat, r: seq<byte>, freshPub: nat)
    | Deliver(who: nat, msg: Msg, freshPub: nat)

  predicate Honest(w: World, key: nat)
  {
    exists i :: i in w.ctx && w.ctx[i].me == key
  }

  function TailOf(m: Msg): Option<Tail>
  {
    match m
    case RevealSig(_, _, rest) => rest
    case Signature(_, tail) => Some(tail)
    case _ => None
  }

  ghost predicate SignedBefore(w: World, sig: Sig)
  {
    exists m :: m in w.sent && TailOf(m).Some? && TailOf(m).value.sealed.body.Whole? && TailOf(m).value.sealed.body.sig == sig
  }

  ghost predicate MacedBefore(w: World, mac: Mac)
  {
    exists m :: m in w.sent && TailOf(m).Some? && TailOf(m).value.mac == mac
  }

  // Signatures by honest long-term keys, and MACs under the secret of two honest DH
  // keys, come out of messages honest parties prepared.
  ghost predicate Plausible(w: World, m: Msg)
  {
    TailOf(m).Some? ==>
      var t := TailOf(m).value;
      && (t.sealed.body.Whole? && Honest(w, t.sealed.body.sig.signer) ==> SignedBefore(w, t.sealed.body.sig))
      && (t.mac.secret <= w.dh.Keys ==> MacedBefore(w, t.mac))
  }

  // Dropping, repeating and reordering what was sent is among what the network may do.
  lemma ReplayPlausible(w: World, m: Msg)
    requires m in w.sent
    ensures Plausible(w, m)
  {
  }

  ghost predicate Allowed(w: World, e: Event)
  {
    && e.freshPub !in w.seen
    && (e.Deliver? ==> Plausible(w, e.msg))
  }

  // ----------------------------------------------------------------- steps

  function React(env: Env, a: Info, e: Event): (Info, Result)
  {
    match e
    case Start(_, version, r, freshPub) => (StartV23(env, a, version, r, freshPub), SEND)
    case Deliver(_, msg, freshPub) => Handle(env, a, msg, freshPub)
  }

  function Elements<T>(o: Option<T>): set<T>
  {
    if o.Some? then {o.value} else {}
  }

  function List<T>(o: Option<T>): seq<T>
  {
    if o.Some? then [o.value] else []
  }

  function MoreKeys(dh: map<nat, Origin>, a: Info, freshPub: nat, role: Role): map<nat, Origin>
  {
    if a.ourPub == Some(freshPub) then dh[freshPub := Origin(a.me, role, a.ourKeyid)] else dh
  }

  function Record(w: World, who: nat, a: Info, res: Result, freshPub: nat, role: Role): World
  {
    World(w.ctx[who := a],
          MoreKeys(w.dh, a, freshPub, role),
          w.seen + Elements(a.ourPub) + Elements(a.theirPub),
          w.sent + Elements(a.lastauthmsg),
          w.done + List(res.done))
  }

  function Step(env: Env, w: World, e: Event): World
  {
    if e.who !in w.ctx then w else
      var (a, res) := React(env, w.ctx[e.who], e);
      Record(w, e.who, a, res, e.freshPub, RoleOf(e))
  }

  function Run(env: Env, w: World, evs: seq<Event>): World
    decreases |evs|
  {
    if evs == [] then w else Run(env, Step(env, w, evs[0]), evs[1..])
  }

  ghost predicate AllowedRun(env: Env, w: World, evs: seq<Event>)
    decreases |evs|
  {
    evs == [] || (Allowed(w, evs[0]) && AllowedRun(env, Step(env, w, evs[0]), evs[1..]))
  }

  ghost predicate Initial(w: World)
  {
    && (forall i :: i in w.ctx ==> w.ctx[i] == NewInfo(w.ctx[i].me, w.ctx[i].isMaster))
    && w.dh == map[] && w.seen == {} && w.sent == {} && w.done == []
  }

  // ------------------------------------------------------------- agreement

  // The peer's side of an exchange that d finished: same two DH keys, same session
  // id, the other half, and each holds the number the other used.
  predicate PeerOf(env: Env, d: Done, e: Done)
  {
    && e.me == d.peer && e.peer == d.me
    && e.ourPub == d.theirPub && e.theirPub == d.ourPub
    && e.sessionId == d.sessionId && e.half == SECOND_HALF_BOLD
    && e.theirKeyid == d.ourKeyid && e.ourKeyid == d.theirKeyid
  }

  ghost predicate AgreedAt(env: Env, w: World, j: nat)
    requires j < |w.done|
  {
    w.done[j].half == FIRST_HALF_BOLD && Honest(w, w.done[j].peer) ==>
      exists k :: 0 <= k < j && PeerOf(env, w.done[j], w.done[k])
  }

  // ---------------------------------------------------------- the invariant

  // A context holds a key it generated, in the role its state says.
  ghost predicate InfoOK(env: Env, dh: map<nat, Origin>, seen: set<nat>, a: Info)
  {
    && ((a.authstate == AWAITING_DHKEY || a.authstate == AWAITING_SIG) ==> HasOrigin(dh, a, Initiator))
    && (a.authstate == AWAITING_REVEALSIG ==> HasOrigin(dh, a, Responder))
    && (a.authstate == AWAITING_SIG ==>
          (a.theirPub.Some? && a.keys == Some({a.ourPub.value, a.theirPub.value}) && a.sessionId == env.sid(a.keys.value)))
    && Elements(a.ourPub) <= seen && Elements(a.theirPub) <= seen
  }

  ghost predicate HasOrigin(dh: map<nat, Origin>, a: Info, role: Role)
  {
    a.ourPub.Some? && a.ourPub.value in dh && dh[a.ourPub.value] == Origin(a.me, role, a.ourKeyid)
  }

  // A finished exchange of the second kind names, when its peer's DH key is honest,
  // the long-term key that generated it and the number it was signed under.
  ghost predicate SecondOK(dh: map<nat, Origin>, d: Done)
  {
    d.half == SECOND_HALF_BOLD && d.theirPub in dh ==>
      dh[d.theirPub] == Origin(d.peer, Initiator, d.theirKeyid)
  }

  // An honest Signature Message was prepared by a context that finished with exactly
  // what it signs.
  ghost predicate FinishedAs(env: Env, done: seq<Done>, c: Content)
  {
    exists k :: 0 <= k < |done| && Finished(env, done[k], c)
  }

  predicate Finished(env: Env, d: Done, c: Content)
  {
    && d.half == SECOND_HALF_BOLD && d.me == c.pubkey && d.ourPub == c.first && d.theirPub == c.second
    && d.ourKeyid == c.keyid && d.sessionId == env.sid(c.secret)
  }

  // Whatever a message of an honest party carries, it signed and MACed itself.
  ghost predicate SentOK(env: Env, dh: map<nat, Origin>, done: seq<Done>, m: Msg)
  {
    TailOf(m).Some? ==>
      var t := TailOf(m).value;
      && t.sealed.body.Whole?
      && t == Sealing(t.sealed)
      && var c := t.sealed.body.sig.content;
      && t.sealed == PubkeyAuth(c.secret, c.prime, c.first, c.second, c.pubkey, c.keyid)
      && c.secret == {c.first, c.second}
      && (c.prime ==> FinishedAs(env, done, c))
      && (!c.prime ==> c.first in dh && dh[c.first] == Origin(c.pubkey, Initiator, c.keyid))
  }

  ghost predicate Inv(env: Env, w: World)
  {
    && (forall i :: i in w.ctx ==> InfoOK(env, w.dh, w.seen, w.ctx[i]) && Elements(w.ctx[i].lastauthmsg) <= w.sent)
    && w.dh.Keys <= w.seen
    && (forall m :: m in w.sent ==> SentOK(env, w.dh, w.done, m))
    && (forall k :: 0 <= k < |w.done| ==> SecondOK(w.dh, w.done[k]) && w.done[k].theirPub in w.seen)
    && (forall j :: 0 <= j < |w.done| ==> AgreedAt(env, w, j))
  }

  // ------------------------------------------------ what one message does

  // A reaction that keeps the DH key: no key is recorded.
  ghost predicate SameKey(a: Info, b: Info)
  {
    b.me == a.me && b.ourPub == a.ourPub
  }

  ghost predicate Fresh(dh: map<nat, Origin>, seen: set<nat>, a: Info, freshPub: nat)
  {
    dh.Keys <= seen && Elements(a.ourPub) <= seen && freshPub !in seen
  }

  lemma StartKeeps(env: Env, dh: map<nat, Origin>, seen: set<nat>, a: Info, version: nat, r: seq<byte>, freshPub: nat)
    ensures var b := StartV23(env, a, version, r, freshPub);
            && b.me == a.me
            && InfoOK(env, MoreKeys(dh, b, freshPub, Initiator), seen + Elements(b.ourPub) + Elements(b.theirPub), b)
            && b.lastauthmsg.Some? && TailOf(b.lastauthmsg.value).None?
  {
  }

  lemma CommitKeeps(env: Env, dh: map<nat, Origin>, seen: set<nat>, a: Info, m: Msg, version: nat, freshPub: nat)
    requires m.Commit? && InfoOK(env, dh, seen, a) && Fresh(dh, seen, a, freshPub)
    ensures var (b, res) := HandleCommit(a, m, version, freshPub);
            && b.me == a.me && res.done.None?
            && InfoOK(env, MoreKeys(dh, b, freshPub, Responder), seen + Elements(b.ourPub) + Elements(b.theirPub), b)
            && (b.lastauthmsg == a.lastauthmsg || (b.lastauthmsg.Some? && TailOf(b.lastauthmsg.value).None?))
  {
  }

  lemma KeyKeeps(env: Env, dh: map<nat, Origin>, seen: set<nat>, a: Info, m: Msg)
    requires m.Key? && InfoOK(env, dh, seen, a)
    ensures var (b, res) := HandleKey(env, a, m);
            && SameKey(a, b) && res.done.None?
            && InfoOK(env, dh, seen + Elements(b.ourPub) + Elements(b.theirPub), b)
            && (b.lastauthmsg == a.lastauthmsg || (b.lastauthmsg.Some? && SentOK(env, dh, [], b.lastauthmsg.value)))
  {
  }

  // The tail b's context accepted.
  ghost predicate Accepted(b: Info, t: Tail, prime: bool, d: Done)
  {
    && t.sealed.body.Whole?
    && t.mac == Mac({d.ourPub, d.theirPub}, prime, t.sealed)
    && var body := t.sealed.body;
    && body.sig == Sig(body.pubkey, Content({d.ourPub, d.theirPub}, prime, d.theirPub, d.ourPub, body.pubkey, body.keyid))
    && d.peer == body.pubkey && d.theirKeyid == body.keyid && d.me == b.me
  }

  lemma SignatureKeeps(env: Env, dh: map<nat, Origin>, seen: set<nat>, a: Info, m: Msg)
    requires m.Signature? && InfoOK(env, dh, seen, a)
    ensures var (b, res) := HandleSignature(a, m);
            && SameKey(a, b)
            && InfoOK(env, dh, seen, b) && Elements(b.theirPub) <= seen
            && (b.lastauthmsg == a.lastauthmsg || b.lastauthmsg == None)
            && (res.done.Some? ==>
                  var d := res.done.value;
                  && Accepted(b, m.tail, true, d) && d.half == FIRST_HALF_BOLD
                  && d.ourPub in dh && dh[d.ourPub] == Origin(d.me, Initiator, d.ourKeyid)
                  && d.sessionId == env.sid({d.ourPub, d.theirPub}) && d.theirPub in seen)
  {
  }

  // What the end that finishes on a Reveal Signature Message has checked and prepared.
  ghost predicate SecondDone(env: Env, dh: map<nat, Origin>, b: Info, t: Tail, d: Done)
  {
    && Accepted(b, t, false, d) && d.half == SECOND_HALF_BOLD
    && d.ourPub in dh && dh[d.ourPub] == Origin(d.me, Responder, d.ourKeyid)
    && d.sessionId == env.sid({d.ourPub, d.theirPub}) && b.theirPub == Some(d.theirPub)
    && b.lastauthmsg.Some? && SentOK(env, dh, [d], b.lastauthmsg.value)
  }

  lemma SignatureSent(env: Env, dh: map<nat, Origin>, a: Info, d: Done)
    requires a.ourPub.Some? && a.theirPub.Some? && a.keys == Some({a.ourPub.value, a.theirPub.value})
    requires d.half == SECOND_HALF_BOLD && d.me == a.me && d.ourKeyid == a.ourKeyid
    requires d.ourPub == a.ourPub.value && d.theirPub == a.theirPub.value && d.sessionId == env.sid(a.keys.value)
    ensures SentOK(env, dh, [d], SignatureMessage(a))
  {
    assert Finished(env, [d][0], Content(a.keys.value, true, d.ourPub, d.theirPub, d.me, d.ourKeyid));
  }

  lemma CheckRevealKeeps(env: Env, dh: map<nat, Origin>, a: Info, t: Tail)
    requires HasOrigin(dh, a, Responder)
    requires a.keys.Some? ==> a.theirPub.Some? && a.keys == Some({a.ourPub.value, a.theirPub.value}) && a.sessionId == env.sid(a.keys.value)
    ensures var (b, res) := CheckReveal(a, t);
            && SameKey(a, b) && b.theirPub == a.theirPub
            && ((b.authstate == a.authstate && b.ourKeyid == a.ourKeyid) || b.authstate == NONE)
            && (res.done.None? ==> b.lastauthmsg == a.lastauthmsg)
            && (res.done.Some? ==> SecondDone(env, dh, b, t, res.done.value))
  {
    var (b, res) := CheckReveal(a, t);
    if res.done.Some? {
      var (a1, good) := CheckPubkeyAuth(a, t.sealed, a.keys.value, false, false);
      SignatureSent(env, dh, a1, res.done.value);
    }
  }

  lemma RevealKeeps(env: Env, dh: map<nat, Origin>, seen: set<nat>, a: Info, m: Msg)
    requires m.RevealSig? && InfoOK(env, dh, seen, a)
    ensures var (b, res) := HandleRevealsig(env, a, m);
            && SameKey(a, b)
            && InfoOK(env, dh, seen + Elements(b.ourPub) + Elements(b.theirPub), b)
            && (res.done.None? ==> b.lastauthmsg == a.lastauthmsg)
            && (res.done.Some? ==> m.rest.Some? && SecondDone(env, dh, b, m.rest.value, res.done.value))
  {
    var a1 := a.(r := m.r);
    if m.rest.Some? && a.authstate == AWAITING_REVEALSIG {
      var gx := OpenCommit(env, a1);
      if gx.Some? && gx.value.Some? {
        CheckRevealKeeps(env, dh, WithKeys(env, a1, gx.value.value), m.rest.value);
      }
    }
  }

  // -------------------------------------------------- why finishing agrees

  // The end that finishes on a Reveal Signature Message: if the peer's DH key is
  // honest, its MAC comes from an honest message, and the only honest messages MACed
  // under that secret with the unprimed key are the initiator's.
  lemma SecondNames(env: Env, w: World, b: Info, t: Tail, d: Done)
    requires Inv(env, w) && SecondDone(env, w.dh, b, t, d)
    requires t.mac.secret <= w.dh.Keys ==> MacedBefore(w, t.mac)
    ensures SecondOK(w.dh, d)
  {
    if d.theirPub in w.dh {
      var m :| m in w.sent && TailOf(m).Some? && TailOf(m).value.mac == t.mac;
      assert SentOK(env, w.dh, w.done, m);
      var c := t.sealed.body.sig.content;
      assert c.first in {d.ourPub, d.theirPub};
    }
  }

  // The end that finishes on a Signature Message: the signature comes from an honest
  // message, whose sender finished with the keys it signs.
  lemma FirstAgrees(env: Env, w: World, b: Info, t: Tail, d: Done) returns (k: nat)
    requires Inv(env, w) && Accepted(b, t, true, d)
    requires d.ourPub in w.dh && w.dh[d.ourPub] == Origin(d.me, Initiator, d.ourKeyid)
    requires d.sessionId == env.sid({d.ourPub, d.theirPub})
    requires SignedBefore(w, t.sealed.body.sig)
    ensures k < |w.done| && PeerOf(env, d, w.done[k])
  {
    var sig := t.sealed.body.sig;
    var m :| m in w.sent && TailOf(m).Some? && TailOf(m).value.sealed.body.Whole? && TailOf(m).value.sealed.body.sig == sig;
    assert SentOK(env, w.dh, w.done, m);
    k :| 0 <= k < |w.done| && Finished(env, w.done[k], sig.content);
    assert SecondOK(w.dh, w.done[k]);
  }

  // ------------------------------------------------ the invariant is kept

  ghost predicate Grows(dh: map<nat, Origin>, more: map<nat, Origin>, seen: set<nat>)
  {
    && (forall k :: k in dh ==> k in more && more[k] == dh[k])
    && (forall k :: k in more && k !in dh ==> k !in seen)
  }

  lemma InfoGrows(env: Env, dh: map<nat, Origin>, more: map<nat, Origin>, seen: set<nat>, wider: set<nat>, a: Info)
    requires InfoOK(env, dh, seen, a) && Grows(dh, more, seen) && seen <= wider
    ensures InfoOK(env, more, wider, a)
  {
  }

  lemma SentGrows(env: Env, dh: map<nat, Origin>, more: map<nat, Origin>, seen: set<nat>, done: seq<Done>, longer: seq<Done>, m: Msg)
    requires SentOK(env, dh, done, m) && Grows(dh, more, seen)
    requires forall d :: d in done ==> d in longer
    ensures SentOK(env, more, longer, m)
  {
    if TailOf(m).Some? && TailOf(m).value.sealed.body.sig.content.prime {
      var c := TailOf(m).value.sealed.body.sig.content;
      var k :| 0 <= k < |done| && Finished(env, done[k], c);
      assert done[k] in longer;
      var l :| 0 <= l < |longer| && longer[l] == done[k];
      assert Finished(env, longer[l], c);
    }
  }

  lemma SecondGrows(dh: map<nat, Origin>, more: map<nat, Origin>, seen: set<nat>, d: Done)
    requires SecondOK(dh, d) && d.theirPub in seen && Grows(dh, more, seen)
    ensures SecondOK(more, d)
  {
  }

  // What a reaction leaves behind, whatever the handler.
  ghost predicate Reacted(env: Env, w: World, a: Info, b: Info, res: Result, e: Event, dh: map<nat, Origin>)
  {
    && b.me == a.me
    && Grows(w.dh, dh, w.seen)
    && dh.Keys <= w.seen + Elements(b.ourPub)
    && InfoOK(env, dh, w.seen + Elements(b.ourPub) + Elements(b.theirPub), b)
    && (b.lastauthmsg.Some? && b.lastauthmsg != a.lastauthmsg ==> SentOK(env, dh, List(res.done), b.lastauthmsg.value))
    && (res.done.Some? ==> DoneOK(env, w, b, dh, res.done.value))
  }

  ghost predicate DoneOK(env: Env, w: World, b: Info, dh: map<nat, Origin>, d: Done)
  {
    && SecondOK(dh, d) && d.theirPub in w.seen + Elements(b.theirPub)
    && (d.half == FIRST_HALF_BOLD && Honest(w, d.peer) ==> exists k :: 0 <= k < |w.done| && PeerOf(env, d, w.done[k]))
  }

  lemma ReactSignature(env: Env, w: World, i: nat, e: Event)
    requires Inv(env, w) && i in w.ctx && e.Deliver? && e.msg.Signature? && Allowed(w, e)
    ensures var (b, res) := React(env, w.ctx[i], e); Reacted(env, w, w.ctx[i], b, res, e, w.dh)
  {
    SignatureKeeps(env, w.dh, w.seen, w.ctx[i], e.msg);
    var (b, res) := HandleSignature(w.ctx[i], e.msg);
    if res.done.Some? && Honest(w, res.done.value.peer) {
      var k := FirstAgrees(env, w, b, e.msg.tail, res.done.value);
    }
  }

  lemma ReactReveal(env: Env, w: World, i: nat, e: Event)
    requires Inv(env, w) && i in w.ctx && e.Deliver? && e.msg.RevealSig? && Allowed(w, e)
    ensures var (b, res) := React(env, w.ctx[i], e); Reacted(env, w, w.ctx[i], b, res, e, w.dh)
  {
    RevealKeeps(env, w.dh, w.seen, w.ctx[i], e.msg);
    var (b, res) := HandleRevealsig(env, w.ctx[i], e.msg);
    if res.done.Some? {
      SecondNames(env, w, b, e.msg.rest.value, res.done.value);
    }
  }

  lemma ReactKey(env: Env, w: World, i: nat, e: Event)
    requires Inv(env, w) && i in w.ctx && e.Deliver? && e.msg.Key? && Allowed(w, e)
    ensures var (b, res) := React(env, w.ctx[i], e); Reacted(env, w, w.ctx[i], b, res, e, w.dh)
  {
    KeyKeeps(env, w.dh, w.seen, w.ctx[i], e.msg);
  }

  lemma ReactNewKey(env: Env, w: World, i: nat, e: Event, role: Role)
    requires Inv(env, w) && i in w.ctx && Allowed(w, e)
    requires (e.Start? && role == Initiator) || (e.Deliver? && e.msg.Commit? && role == Responder)
    ensures var (b, res) := React(env, w.ctx[i], e);
            Reacted(env, w, w.ctx[i], b, res, e, MoreKeys(w.dh, b, e.freshPub, role))
  {
    assert InfoOK(env, w.dh, w.seen, w.ctx[i]);
    if e.Start? {
      StartKeeps(env, w.dh, w.seen, w.ctx[i], e.version, e.r, e.freshPub);
    } else {
      CommitKeeps(env, w.dh, w.seen, w.ctx[i], e.msg, e.msg.version, e.freshPub);
    }
  }

  // The other handlers generate no key.
  lemma NoNewKey(env: Env, w: World, i: nat, e: Event)
    requires Inv(env, w) && i in w.ctx && Allowed(w, e) && e.Deliver? && !e.msg.Commit?
    ensures var (b, res) := React(env, w.ctx[i], e); MoreKeys(w.dh, b, e.freshPub, Responder) == w.dh
  {
    var (b, res) := React(env, w.ctx[i], e);
    assert InfoOK(env, w.dh, w.seen, w.ctx[i]);
    match e.msg
    case Key(_, _) => KeyKeeps(env, w.dh, w.seen, w.ctx[i], e.msg);
    case RevealSig(_, _, _) => RevealKeeps(env, w.dh, w.seen, w.ctx[i], e.msg);
    case Signature(_, _) => SignatureKeeps(env, w.dh, w.seen, w.ctx[i], e.msg);
  }

  function RoleOf(e: Event): Role
  {
    if e.Start? then Initiator else Responder
  }

  lemma ReactKeeps(env: Env, w: World, i: nat, e: Event)
    requires Inv(env, w) && i in w.ctx && Allowed(w, e)
    ensures var (b, res) := React(env, w.ctx[i], e);
            Reacted(env, w, w.ctx[i], b, res, e, MoreKeys(w.dh, b, e.freshPub, RoleOf(e)))
  {
    if e.Start? || e.msg.Commit? {
      ReactNewKey(env, w, i, e, RoleOf(e));
    } else {
      NoNewKey(env, w, i, e);
      match e.msg
      case Key(_, _) => ReactKey(env, w, i, e);
      case RevealSig(_, _, _) => ReactReveal(env, w, i, e);
      case Signature(_, _) => ReactSignature(env, w, i, e);
    }
  }

  lemma RecordContexts(env: Env, w: World, i: nat, b: Info, res: Result, e: Event)
    requires Inv(env, w) && i in w.ctx
    requires Reacted(env, w, w.ctx[i], b, res, e, MoreKeys(w.dh, b, e.freshPub, RoleOf(e)))
    ensures var v := Record(w, i, b, res, e.freshPub, RoleOf(e));
            forall j :: j in v.ctx ==> InfoOK(env, v.dh, v.seen, v.ctx[j]) && Elements(v.ctx[j].lastauthmsg) <= v.sent
  {
    var v := Record(w, i, b, res, e.freshPub, RoleOf(e));
    forall j | j in v.ctx
      ensures InfoOK(env, v.dh, v.seen, v.ctx[j]) && Elements(v.ctx[j].lastauthmsg) <= v.sent
    {
      if j != i {
        InfoGrows(env, w.dh, v.dh, w.seen, v.seen, w.ctx[j]);
      }
    }
  }

  lemma RecordSent(env: Env, w: World, i: nat, b: Info, res: Result, e: Event)
    requires Inv(env, w) && i in w.ctx
    requires Reacted(env, w, w.ctx[i], b, res, e, MoreKeys(w.dh, b, e.freshPub, RoleOf(e)))
    ensures var v := Record(w, i, b, res, e.freshPub, RoleOf(e));
            forall m :: m in v.sent ==> SentOK(env, v.dh, v.done, m)
  {
    var v := Record(w, i, b, res, e.freshPub, RoleOf(e));
    forall m | m in v.sent
      ensures SentOK(env, v.dh, v.done, m)
    {
      if m in w.sent {
        SentGrows(env, w.dh, v.dh, w.seen, w.done, v.done, m);
      } else {
        SentGrows(env, v.dh, v.dh, w.seen, List(res.done), v.done, m);
      }
    }
  }

  lemma RecordDone(env: Env, w: World, i: nat, b: Info, res: Result, e: Event)
    requires Inv(env, w) && i in w.ctx
    requires Reacted(env, w, w.ctx[i], b, res, e, MoreKeys(w.dh, b, e.freshPub, RoleOf(e)))
    ensures var v := Record(w, i, b, res, e.freshPub, RoleOf(e));
            forall k :: 0 <= k < |v.done| ==> SecondOK(v.dh, v.done[k]) && v.done[k].theirPub in v.seen
  {
    var v := Record(w, i, b, res, e.freshPub, RoleOf(e));
    forall k | 0 <= k < |v.done|
      ensures SecondOK(v.dh, v.done[k]) && v.done[k].theirPub in v.seen
    {
      if k < |w.done| {
        assert v.done[k] == w.done[k];
        SecondGrows(w.dh, v.dh, w.seen, w.done[k]);
      }
    }
  }

  lemma SameHonest(w: World, i: nat, b: Info, res: Result, freshPub: nat, role: Role, key: nat)
    requires i in w.ctx && b.me == w.ctx[i].me
    ensures Honest(Record(w, i, b, res, freshPub, role), key) <==> Honest(w, key)
  {
    var v := Record(w, i, b, res, freshPub, role);
    if Honest(w, key) {
      var j :| j in w.ctx && w.ctx[j].me == key;
      assert j in v.ctx && v.ctx[j].me == key;
    }
    if Honest(v, key) {
      var j :| j in v.ctx && v.ctx[j].me == key;
      assert j in w.ctx && w.ctx[j].me == key;
    }
  }

  lemma RecordAgreed(env: Env, w: World, i: nat, b: Info, res: Result, e: Event)
    requires Inv(env, w) && i in w.ctx
    requires Reacted(env, w, w.ctx[i], b, res, e, MoreKeys(w.dh, b, e.freshPub, RoleOf(e)))
    ensures var v := Record(w, i, b, res, e.freshPub, RoleOf(e));
            forall j :: 0 <= j < |v.done| ==> AgreedAt(env, v, j)
  {
    var v := Record(w, i, b, res, e.freshPub, RoleOf(e));
    forall j | 0 <= j < |v.done|
      ensures AgreedAt(env, v, j)
    {
      SameHonest(w, i, b, res, e.freshPub, RoleOf(e), v.done[j].peer);
      if v.done[j].half == FIRST_HALF_BOLD && Honest(v, v.done[j].peer) {
        if j < |w.done| {
          assert AgreedAt(env, w, j);
          var k :| 0 <= k < j && PeerOf(env, w.done[j], w.done[k]);
          assert PeerOf(env, v.done[j], v.done[k]);
        } else {
          var k :| 0 <= k < |w.done| && PeerOf(env, v.done[j], w.done[k]);
          assert PeerOf(env, v.done[j], v.done[k]);
        }
      }
    }
  }

  lemma StepInv(env: Env, w: World, e: Event)
    requires Inv(env, w) && Allowed(w, e)
    ensures Inv(env, Step(env, w, e))
  {
    if e.who in w.ctx {
      var (b, res) := React(env, w.ctx[e.who], e);
      ReactKeeps(env, w, e.who, e);
      RecordContexts(env, w, e.who, b, res, e);
      RecordSent(env, w, e.who, b, res, e);
      RecordDone(env, w, e.who, b, res, e);
      RecordAgreed(env, w, e.who, b, res, e);
    }
  }

  lemma {:induction false} RunInv(env: Env, w: World, evs: seq<Event>)
    requires Inv(env, w) && AllowedRun(env, w, evs)
    ensures Inv(env, Run(env, w, evs))
    decreases |evs|
  {
    if evs != [] {
      StepInv(env, w, evs[0]);
      RunInv(env, Step(env, w, evs[0]), evs[1..]);
    }
  }

  // Whenever an exchange is finished on a Signature Message of an honest peer, that
  // peer had finished its side before, on a Reveal Signature Message, with the same two
  // DH keys, the same session id, the other half of it in bold, each end holding the
  // key number the other signed.
  lemma Agreement(env: Env, w: World, evs: seq<Event>, j: nat)
    requires Initial(w) && AllowedRun(env, w, evs) && j < |Run(env, w, evs).done|
    ensures AgreedAt(env, Run(env, w, evs), j)
  {
    RunInv(env, w, evs);
  }

  // The other side: an exchange finished on a Reveal Signature Message whose DH key is
  // honest was started by the peer it names, with that key and the number it holds.
  lemma RevealAgreement(env: Env, w: World, evs: seq<Event>, j: nat)
    requires Initial(w) && AllowedRun(env, w, evs) && j < |Run(env, w, evs).done|
    ensures SecondOK(Run(env, w, evs).dh, Run(env, w, evs).done[j])
  {
    RunInv(env, w, evs);
  }
}
