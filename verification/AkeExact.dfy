// What becomes of every message of the key exchange, in every state; and that the key a
// responder finishes with opens a commitment it was handed before.
module AkeExact {
  import opened Bytes
  import opened Serial
  import opened Dh
  import opened Ake
  import opened AkeRuns
  import Counters

  // ----------------------------------------------------- Reveal Signature

  // An authenticator of a peer: public key, key number and signature over both DH keys, the
  // sender's first, readable and MACed under the secret of the two.
  predicate Vouches(t: Tail, prime: bool, theirs: nat, ours: nat)
  {
    && t.mac == Mac({ours, theirs}, prime, t.sealed) && t.sealed.secret == {ours, theirs} && t.sealed.prime == prime
    && t.sealed.body.Whole? && t.sealed.body.keyid != 0
    && t.sealed.body.sig == Sig(t.sealed.body.pubkey, Content({ours, theirs}, prime, theirs, ours, t.sealed.body.pubkey, t.sealed.body.keyid))
  }

  datatype Fate = Ignored | Refused | Finished(peer: nat, theirPub: nat, theirKeyid: nat)

  // A readable Reveal Signature Message is ignored when none is awaited, or when the
  // commitment decrypted with its r does not have the hash committed to.  It is refused when
  // there is not exactly one integer in the commitment, this is no key in range, or the
  // authenticator does not vouch for it.
  function RevealFate(env: Env, a: Info, m: Msg): Fate
    requires m.RevealSig?
  {
    if |m.r| != 16 || m.rest.None? then Refused else
    if a.authstate != AWAITING_REVEALSIG || a.ourPub.None? then Ignored else
      var gx := CtrCrypt(env.pr, m.r, 0, a.encgx);
      if env.pr.sha256(gx) != a.hashgx then Ignored else
        match ReadMpi(gx)
        case None => Refused
        case Some((pub, rest)) =>
          if rest != [] || pub < 2 || pub > env.pr.p - 2 || !Vouches(m.rest.value, false, pub, a.ourPub.value) then Refused
          else Finished(m.rest.value.sealed.body.pubkey, pub, m.rest.value.sealed.body.keyid)
  }

  function ResultOf(env: Env, a: Info, fate: Fate, half: Half, answers: bool): Result
    requires fate.Finished? ==> a.ourPub.Some?
  {
    match fate
    case Ignored => OK
    case Refused => FAIL
    case Finished(peer, pub, keyid) =>
      Result(false, answers, Some(Done(a.me, peer, a.ourPub.value, pub, a.ourKeyid, keyid, env.sid({a.ourPub.value, pub}), half)))
  }

  // A refused message leaves the exchange where it was.
  predicate StillWaiting(a: Info, b: Info)
  {
    && b.authstate == a.authstate && b.ourPub == a.ourPub && b.ourKeyid == a.ourKeyid && b.encgx == a.encgx && b.hashgx == a.hashgx
    && b.lastauthmsg == a.lastauthmsg && b.version == a.version && b.initiated == a.initiated && b.half == a.half
  }

  // A finished exchange is over, and its results stay for the caller to take.
  predicate Ended(a: Info, b: Info, fate: Fate, half: Half)
    requires fate.Finished?
  {
    && b.authstate == NONE && b.ourKeyid == 0 && b.ourPub == a.ourPub && b.half == half
    && b.theirPub == Some(fate.theirPub) && b.theirKeyid == fate.theirKeyid && b.theirFingerprint == Some(fate.peer)
    && b.version == a.version && b.initiated == a.initiated
  }

  // The answer to a Reveal Signature Message vouches for our key, if it has a number.
  predicate Answers(a: Info, last: Option<Msg>, theirPub: nat)
  {
    && a.ourPub.Some? && last.Some? && last.value.Signature? && last.value.version == a.version
    && Vouches(last.value.tail, true, a.ourPub.value, theirPub) == (a.ourKeyid != 0)
  }

  predicate Met(env: Env, a: Info, x: (Info, Result), fate: Fate)
  {
    && (fate.Finished? ==> a.ourPub.Some?) && x.1 == ResultOf(env, a, fate, SECOND_HALF_BOLD, true)
    && (fate.Refused? ==> StillWaiting(a, x.0))
    && (fate.Finished? ==> Ended(a, x.0, fate, SECOND_HALF_BOLD) && Answers(a, x.0.lastauthmsg, fate.theirPub))
  }

  // What is checked once the key of the commitment is known
  function CheckFate(a: Info, t: Tail): Fate
    requires a.ourPub.Some? && a.theirPub.Some?
  {
    if a.keys.Some? && Vouches(t, false, a.theirPub.value, a.ourPub.value)
    then Finished(t.sealed.body.pubkey, a.theirPub.value, t.sealed.body.keyid) else Refused
  }

  lemma CheckMeets(env: Env, a: Info, t: Tail)
    requires a.ourPub.Some? && a.theirPub.Some?
    requires a.keys.Some? ==> a.keys.value == {a.ourPub.value, a.theirPub.value} && a.sessionId == env.sid(a.keys.value)
    ensures Met(env, a, CheckReveal(a, t), CheckFate(a, t))
  {
  }

  lemma OpenedMeets(env: Env, a: Info, r: seq<byte>, pub: nat, t: Tail, x: (Info, Result))
    requires a.ourPub.Some? && x == CheckReveal(WithKeys(env, a.(r := r), pub), t)
    ensures Met(env, a, x, if pub < 2 || pub > env.pr.p - 2 || !Vouches(t, false, pub, a.ourPub.value) then Refused
                           else Finished(t.sealed.body.pubkey, pub, t.sealed.body.keyid))
  {
    var a1 := WithKeys(env, a.(r := r), pub);
    CheckMeets(env, a1, t);
    SameParts(env, a, a1, x, CheckFate(a1, t));
  }

  lemma SameParts(env: Env, a: Info, b: Info, x: (Info, Result), fate: Fate)
    requires Met(env, b, x, fate) && fate != Ignored && a.me == b.me && StillWaiting(a, b)
    ensures Met(env, a, x, fate)
  {
  }

  // Every Reveal Signature Message meets its fate; one that is ignored changes nothing but r.
  lemma RevealTakes(env: Env, a: Info, m: Msg)
    requires m.RevealSig? && (a.authstate == AWAITING_REVEALSIG ==> a.ourPub.Some?)
    ensures Met(env, a, HandleRevealsig(env, a, m), RevealFate(env, a, m))
    ensures RevealFate(env, a, m) == Ignored ==> HandleRevealsig(env, a, m).0 == a.(r := m.r)
  {
    if |m.r| == 16 && m.rest.Some? && a.authstate == AWAITING_REVEALSIG {
      var gx := CtrCrypt(env.pr, m.r, 0, a.encgx);
      if env.pr.sha256(gx) == a.hashgx && ReadMpi(gx).Some? && ReadMpi(gx).value.1 == [] {
        OpenedMeets(env, a, m.r, ReadMpi(gx).value.0, m.rest.value, HandleRevealsig(env, a, m));
      }
    }
  }

  // ------------------------------------------------------------- Signature

  // The stream of c' moves on with every authenticator decrypted, so a second one cannot be
  // read.
  function SignatureFate(a: Info, m: Msg): Fate
    requires m.Signature?
  {
    if a.authstate != AWAITING_SIG then Ignored else
    if a.ourPub.None? || a.theirPub.None? || a.keys.None? || a.encpMoved then Refused else
    if !Vouches(m.tail, true, a.theirPub.value, a.ourPub.value) then Refused else
      Finished(m.tail.sealed.body.pubkey, a.theirPub.value, m.tail.sealed.body.keyid)
  }

  lemma SignatureTakes(env: Env, a: Info, m: Msg)
    requires m.Signature? && KeysAgree(env, a)
    ensures HandleSignature(a, m).1 == ResultOf(env, a, SignatureFate(a, m), FIRST_HALF_BOLD, false)
    ensures SignatureFate(a, m) == Ignored ==> HandleSignature(a, m).0 == a
    ensures SignatureFate(a, m).Refused? ==> StillWaiting(a, HandleSignature(a, m).0)
    ensures SignatureFate(a, m).Finished? ==>
              Ended(a, HandleSignature(a, m).0, SignatureFate(a, m), FIRST_HALF_BOLD) && HandleSignature(a, m).0.lastauthmsg == None
  {
  }

  // The keys derived are those of the two DH keys held.
  predicate KeysAgree(env: Env, a: Info)
  {
    a.keys.Some? && a.ourPub.Some? && a.theirPub.Some? ==>
      a.keys.value == {a.ourPub.value, a.theirPub.value} && a.sessionId == env.sid(a.keys.value)
  }

  // ---------------------------------------------------- D-H Key and Commit

  // A D-H Key Message is answered with the r committed to, once, in the version asked for
  // and for a key in range; and again for the same key.
  lemma KeyTakes(env: Env, a: Info, m: Msg)
    requires m.Key? && (a.authstate == AWAITING_DHKEY ==> a.ourPub.Some?)
    ensures var (b, res) := HandleKey(env, a, m);
            if a.authstate == AWAITING_DHKEY && m.version == a.version then
              if 2 <= m.pub <= env.pr.p - 2 then
                && res == SEND && b.authstate == AWAITING_SIG && b.theirPub == Some(m.pub) && b.ourPub == a.ourPub
                && KeysAgree(env, b) && b.keys.Some? && !b.encpMoved
                && b == a.(theirPub := b.theirPub, keys := b.keys, encpMoved := false, sessionId := b.sessionId,
                           lastauthmsg := b.lastauthmsg, authstate := AWAITING_SIG)
                && b.lastauthmsg.Some? && b.lastauthmsg.value.RevealSig?
                && b.lastauthmsg.value.r == a.r && b.lastauthmsg.value.version == a.version
                && b.lastauthmsg.value.rest.Some? && Vouches(b.lastauthmsg.value.rest.value, false, a.ourPub.value, m.pub) == (a.ourKeyid != 0)
              else res == FAIL && b.authstate == AWAITING_DHKEY
            else
              b == a && res == if a.authstate == AWAITING_SIG && a.theirPub == Some(m.pub) then SEND else OK
  {
  }

  // memcmp compares octets of one length as big-endian numbers.
  lemma {:induction false} GreaterNumber(s: seq<byte>, t: seq<byte>)
    requires |s| == |t|
    ensures Greater(s, t) <==> FromBe(s) > FromBe(t)
  {
    if s != [] {
      assert s == [s[0]] + s[1..] && t == [t[0]] + t[1..];
      if s[0] == t[0] {
        GreaterNumber(s[1..], t[1..]);
        FromBeFront(s[0], s[1..]);
        FromBeFront(t[0], t[1..]);
      } else if s[0] < t[0] {
        Counters.FirstDifference(s, t, 0);
      } else {
        Counters.FirstDifference(t, s, 0);
      }
    }
  }

  // A new context of the same owner, but for the half of the session id shown in bold
  function Fresh(a: Info): Info
  {
    NewInfo(a.me, a.isMaster).(half := a.half)
  }

  // A D-H Commit Message with a hash of 32 octets is always answered: with our own
  // commitment when that is the greater number and we are no master, with the key we sent
  // before when one is awaited, and otherwise with a fresh key, all that was held forgotten.
  lemma CommitTakes(a: Info, m: Msg, version: nat, freshPub: nat)
    requires m.Commit? && (a.authstate == AWAITING_DHKEY ==> |a.hashgx| == 32)
    ensures var (b, res) := HandleCommit(a, m, version, freshPub);
            if |m.hashgx| != 32 then res == FAIL && b == a.(version := version) else
              && res == SEND
              && if a.authstate == AWAITING_DHKEY && !a.isMaster && FromBe(a.hashgx) > FromBe(m.hashgx) then
                   b == a.(version := version)
                 else if a.authstate == AWAITING_REVEALSIG then
                   b == a.(version := version, encgx := m.encgx, hashgx := m.hashgx)
                 else
                   b == Fresh(a).(version := version, ourPub := Some(freshPub), ourKeyid := 1, encgx := m.encgx, hashgx := m.hashgx,
                                  lastauthmsg := Some(Key(version, freshPub)), authstate := AWAITING_REVEALSIG)
  {
    if |m.hashgx| == 32 && a.authstate == AWAITING_DHKEY { GreaterNumber(a.hashgx, m.hashgx); }
  }

  // Starting forgets all that was held, and commits to the key.
  lemma StartCommits(env: Env, a: Info, version: nat, r: seq<byte>, pub: nat)
    requires Printable(pub)
    ensures var b := StartV23(env, a, version, r, pub);
            && b == StartV23(env, Fresh(a), version, r, pub)
            && b.authstate == AWAITING_DHKEY && b.ourPub == Some(pub) && b.ourKeyid == 1 && b.initiated && b.r == r
            && b.lastauthmsg == Some(Commit(version, b.encgx, b.hashgx))
            && OpensTo(env, b.lastauthmsg.value, r, pub)
  {
    CtrInvolution(env.pr, r, 0, WriteMpi(pub));
    ReadWriteMpi(pub, []);
    assert WriteMpi(pub) + [] == WriteMpi(pub);
  }

  // ------------------------------------------- what a commitment commits to

  // r decrypts the commitment to the key, and the hash is that of what it decrypts to.
  predicate OpensTo(env: Env, m: Msg, r: seq<byte>, pub: nat)
    requires m.Commit?
  {
    var gx := CtrCrypt(env.pr, r, 0, m.encgx);
    env.pr.sha256(gx) == m.hashgx && ReadMpi(gx) == Some((pub, []))
  }

  ghost predicate HandedAt(who: nat, evs: seq<Event>, i: nat, a: Info)
    requires i < |evs|
  {
    && evs[i].Deliver? && evs[i].who == who && evs[i].msg.Commit?
    && evs[i].msg.encgx == a.encgx && evs[i].msg.hashgx == a.hashgx
  }

  // A responder holds a commitment it was handed.
  ghost predicate Handed(who: nat, evs: seq<Event>, a: Info)
  {
    a.authstate == AWAITING_REVEALSIG ==> exists i: nat :: i < |evs| && HandedAt(who, evs, i, a)
  }

  lemma HandedLater(who: nat, evs: seq<Event>, e: Event, a: Info)
    requires Handed(who, evs, a)
    ensures Handed(who, evs + [e], a)
  {
    if a.authstate == AWAITING_REVEALSIG {
      var i: nat :| i < |evs| && HandedAt(who, evs, i, a);
      assert HandedAt(who, evs + [e], i, a);
    }
  }

  // A reaction that leaves a context waiting for a Reveal Signature Message either was to a
  // commitment or left the one held.
  lemma HandedNow(env: Env, a: Info, evs: seq<Event>, e: Event)
    requires Handed(e.who, evs, a)
    ensures Handed(e.who, evs + [e], React(env, a, e).0)
  {
    var b := React(env, a, e).0;
    HandedLater(e.who, evs, e, a);
    if b.authstate == AWAITING_REVEALSIG {
      if e.Deliver? && e.msg.Commit? && |e.msg.hashgx| == 32 {
        assert HandedAt(e.who, evs + [e], |evs|, b);
      } else {
        SameCommitment(env, a, e);
        var i: nat :| i < |evs + [e]| && HandedAt(e.who, evs + [e], i, a);
        assert HandedAt(e.who, evs + [e], i, b);
      }
    }
  }

  lemma SameCommitment(env: Env, a: Info, e: Event)
    requires React(env, a, e).0.authstate == AWAITING_REVEALSIG && !(e.Deliver? && e.msg.Commit? && |e.msg.hashgx| == 32)
    ensures a.authstate == AWAITING_REVEALSIG && React(env, a, e).0.encgx == a.encgx && React(env, a, e).0.hashgx == a.hashgx
  {
    if e.Deliver? && e.msg.RevealSig? { RevealKeeps(env, a, e.msg); }
  }

  lemma RevealKeeps(env: Env, a: Info, m: Msg)
    requires m.RevealSig? && HandleRevealsig(env, a, m).0.authstate == AWAITING_REVEALSIG
    ensures var b := HandleRevealsig(env, a, m).0; a.authstate == AWAITING_REVEALSIG && b.encgx == a.encgx && b.hashgx == a.hashgx
  {
  }

  lemma StepHanded(env: Env, w: World, evs: seq<Event>, e: Event)
    requires forall k :: k in w.ctx ==> Handed(k, evs, w.ctx[k])
    ensures forall k :: k in Step(env, w, e).ctx ==> Handed(k, evs + [e], Step(env, w, e).ctx[k])
  {
    var w1 := Step(env, w, e);
    forall k | k in w1.ctx ensures Handed(k, evs + [e], w1.ctx[k]) {
      if k == e.who { HandedNow(env, w.ctx[k], evs, e); } else { HandedLater(k, evs, e, w.ctx[k]); }
    }
  }

  lemma {:induction false} RunHanded(env: Env, w: World, before: seq<Event>, evs: seq<Event>)
    requires forall k :: k in w.ctx ==> Handed(k, before, w.ctx[k])
    ensures forall k :: k in Run(env, w, evs).ctx ==> Handed(k, before + evs, Run(env, w, evs).ctx[k])
    decreases |evs|
  {
    if evs == [] {
      assert before + evs == before;
    } else {
      StepHanded(env, w, before, evs[0]);
      RunHanded(env, Step(env, w, evs[0]), before + [evs[0]], evs[1..]);
      assert before + [evs[0]] + evs[1..] == before + evs;
    }
  }

  // Whatever the network does: when a context finishes an exchange on a Reveal Signature
  // Message, the peer's key in it is what a commitment delivered to this context before
  // opens to, with the r revealed.
  lemma CommitmentOpened(env: Env, w: World, evs: seq<Event>, e: Event)
    requires Initial(w) && e.who in Run(env, w, evs).ctx && e.Deliver? && e.msg.RevealSig?
    requires React(env, Run(env, w, evs).ctx[e.who], e).1.done.Some?
    ensures var d := React(env, Run(env, w, evs).ctx[e.who], e).1.done.value;
            exists i: nat :: i < |evs| && evs[i].Deliver? && evs[i].who == e.who && evs[i].msg.Commit?
                             && OpensTo(env, evs[i].msg, e.msg.r, d.theirPub)
  {
    RunHanded(env, w, [], evs);
    assert [] + evs == evs;
    var a := Run(env, w, evs).ctx[e.who];
    var i: nat :| i < |evs| && HandedAt(e.who, evs, i, a);
    FinishedOpens(env, a, e.msg);
    assert OpensTo(env, evs[i].msg, e.msg.r, React(env, a, e).1.done.value.theirPub);
  }

  lemma FinishedOpens(env: Env, a: Info, m: Msg)
    requires m.RevealSig? && HandleRevealsig(env, a, m).1.done.Some?
    ensures OpensTo(env, Commit(0, a.encgx, a.hashgx), m.r, HandleRevealsig(env, a, m).1.done.value.theirPub)
  {
  }
}
