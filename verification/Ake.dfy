// The authenticated key exchange (auth.c), version 2 and 3 messages, as functions on
// the authentication state.  The commitment is octets; Diffie-Hellman, the keys
// derived from it, MACs and signatures are symbols.
module Ake {
  import opened Bytes
  import opened Serial
  import opened Dh

  datatype AuthState = NONE | AWAITING_DHKEY | AWAITING_REVEALSIG | AWAITING_SIG | V1_SETUP

  datatype Half = FIRST_HALF_BOLD | SECOND_HALF_BOLD

  // The shared secret of two public keys: the same whichever end computes it.
  type Secret = set<nat>

  // What a long-term key signs: a MAC, under the key m1 (or m1', when prime) of a
  // secret, of the signer's DH key, the other DH key, the long-term key and a key
  // number.
  datatype Content = Content(secret: Secret, prime: bool, first: nat, second: nat, pubkey: nat, keyid: nat)
  datatype Sig = Sig(signer: nat, content: Content)

  // What an authenticator decrypts to: a public key, a key number and a signature; it
  // may end behind the public key, or before.
  datatype Body = Unreadable | KeyOnly(pubkey: nat) | Whole(pubkey: nat, keyid: nat, sig: Sig)

  // The encrypted authenticator, under c or c'.  Its MAC is under m2 or m2'.
  datatype Sealed = Sealed(secret: Secret, prime: bool, body: Body)
  datatype Mac = Mac(secret: Secret, prime: bool, sealed: Sealed)
  datatype Tail = Tail(sealed: Sealed, mac: Mac)

  // The tail of a Reveal Signature Message is None when what follows r does not parse.
  datatype Msg =
    | Commit(version: nat, encgx: seq<byte>, hashgx: seq<byte>)
    | Key(version: nat, pub: nat)
    | RevealSig(version: nat, r: seq<byte>, rest: Option<Tail>)
    | Signature(version: nat, tail: Tail)

  // OtrlAuthInfo.  keys stands for the six cipher and MAC handles; encpMoved says the
  // stream of enc_cp was used.
  datatype Info = Info(
    me: nat, isMaster: bool, authstate: AuthState,
    ourPub: Option<nat>, ourKeyid: nat,
    encgx: seq<byte>, r: seq<byte>, hashgx: seq<byte>,
    theirPub: Option<nat>, theirKeyid: nat, keys: Option<Secret>, encpMoved: bool,
    theirFingerprint: Option<nat>, initiated: bool, version: nat,
    sessionId: seq<byte>, half: Half, lastauthmsg: Option<Msg>)

  // The primitives, the session id of a secret, and the AES-CTR stream of r.
  datatype Env = Env(pr: Prims, sid: Secret -> seq<byte>)

  // What the callback for a finished exchange is told.
  datatype Done = Done(me: nat, peer: nat, ourPub: nat, theirPub: nat, ourKeyid: nat, theirKeyid: nat,
                       sessionId: seq<byte>, half: Half)

  datatype Result = Result(err: bool, havemsg: bool, done: Option<Done>)

  const OK := Result(false, false, None)
  const SEND := Result(false, true, None)
  const FAIL := Result(true, false, None)

  // n octets of zero
  function Zeros(n: nat): (z: seq<byte>)
    ensures |z| == n
  {
    seq<byte>(n, i => 0)
  }

  // otrl_auth_clear; the half of the session id shown in bold is left alone.
  function Clear(a: Info): Info
  {
    a.(authstate := NONE, ourPub := None, ourKeyid := 0, encgx := [], r := Zeros(16), hashgx := Zeros(32),
       theirPub := None, theirKeyid := 0, keys := None, encpMoved := false,
       theirFingerprint := None, initiated := false, version := 0, sessionId := [], lastauthmsg := None)
  }

  // otrl_auth_new
  function NewInfo(me: nat, isMaster: bool): Info
  {
    Info(me, isMaster, NONE, None, 0, [], Zeros(16), Zeros(32), None, 0, None, false, None, false, 0, [], FIRST_HALF_BOLD, None)
  }

  // ------------------------------------------------------------- starting

  // otrl_auth_start_v23, the random r and the freshPub public key given
  function StartV23(env: Env, a: Info, version: nat, r: seq<byte>, pub: nat): Info
  {
    var gx := WriteMpi(pub);
    var encgx := CtrCrypt(env.pr, r, 0, gx);
    var hashgx := env.pr.sha256(gx);
    Clear(a).(initiated := true, version := version, ourPub := Some(pub), ourKeyid := 1, r := r,
              encgx := encgx, hashgx := hashgx, lastauthmsg := Some(Commit(version, encgx, hashgx)),
              authstate := AWAITING_DHKEY)
  }

  // ----------------------------------------------------- D-H Commit Message

  // memcmp(s, t) > 0
  predicate Greater(s: seq<byte>, t: seq<byte>)
  {
    s != [] && (t == [] || s[0] > t[0] || (s[0] == t[0] && Greater(s[1..], t[1..])))
  }

  // Take the commitment, and answer with a freshPub key.
  function TakeCommit(a: Info, m: Msg, version: nat, pub: nat): Info
    requires m.Commit?
  {
    Clear(a).(version := version, ourPub := Some(pub), ourKeyid := 1, encgx := m.encgx, hashgx := m.hashgx,
              lastauthmsg := Some(Key(version, pub)), authstate := AWAITING_REVEALSIG)
  }

  // otrl_auth_handle_commit: the caller sends lastauthmsg when there is no error.
  function HandleCommit(a: Info, m: Msg, version: nat, pub: nat): (Info, Result)
    requires m.Commit?
  {
    var a := a.(version := version);
    if |m.hashgx| != 32 then (a, FAIL) else
      match a.authstate
      case NONE => (TakeCommit(a, m, version, pub), SEND)
      case AWAITING_SIG => (TakeCommit(a, m, version, pub), SEND)
      case V1_SETUP => (TakeCommit(a, m, version, pub), SEND)
      case AWAITING_DHKEY =>
        if !a.isMaster && Greater(a.hashgx, m.hashgx) then (a, SEND) else (TakeCommit(a, m, version, pub), SEND)
      case AWAITING_REVEALSIG => (a.(encgx := m.encgx, hashgx := m.hashgx), SEND)
  }

  // -------------------------------------------------- authenticators

  // otrl_dh_compute_v2_auth_keys: None when their key is out of range.
  function AuthKeys(env: Env, ourPub: Option<nat>, theirPub: nat): Option<Secret>
  {
    if ourPub.None? || theirPub < 2 || theirPub > env.pr.p - 2 then None else Some({ourPub.value, theirPub})
  }

  // calculate_pubkey_auth
  function PubkeyAuth(secret: Secret, prime: bool, ourPub: nat, theirPub: nat, me: nat, keyid: nat): Sealed
  {
    Sealed(secret, prime, Whole(me, keyid, Sig(me, Content(secret, prime, ourPub, theirPub, me, keyid))))
  }

  function Sealing(sealed: Sealed): Tail
  {
    Tail(sealed, Mac(sealed.secret, sealed.prime, sealed))
  }

  // check_pubkey_auth: the fingerprint is stored before the key number and the
  // signature are looked at; moved says the stream cipher was used before.
  function CheckPubkeyAuth(a: Info, sealed: Sealed, secret: Secret, prime: bool, moved: bool): (Info, bool)
    requires a.ourPub.Some? && a.theirPub.Some?
  {
    if moved || sealed.secret != secret || sealed.prime != prime || sealed.body.Unreadable? then (a, false) else
      var b := sealed.body;
      var a1 := a.(theirFingerprint := Some(b.pubkey));
      if b.Whole? && b.keyid != 0 && b.sig == Sig(b.pubkey, Content(secret, prime, a.theirPub.value, a.ourPub.value, b.pubkey, b.keyid))
      then (a1.(theirKeyid := b.keyid), true) else (a1, false)
  }

  function DoneOf(a: Info): Done
    requires a.ourPub.Some? && a.theirPub.Some? && a.theirFingerprint.Some?
  {
    Done(a.me, a.theirFingerprint.value, a.ourPub.value, a.theirPub.value, a.ourKeyid, a.theirKeyid, a.sessionId, a.half)
  }

  // -------------------------------------------------------- D-H Key Message

  // Store the key, derive the six handles; the session id changes only on success.
  function WithKeys(env: Env, a: Info, theirPub: nat): Info
  {
    var keys := AuthKeys(env, a.ourPub, theirPub);
    a.(theirPub := Some(theirPub), keys := keys, encpMoved := false,
       sessionId := if keys.Some? then env.sid(keys.value) else a.sessionId)
  }

  function RevealMessage(a: Info): Msg
    requires a.keys.Some? && a.ourPub.Some? && a.theirPub.Some?
  {
    RevealSig(a.version, a.r, Some(Sealing(PubkeyAuth(a.keys.value, false, a.ourPub.value, a.theirPub.value, a.me, a.ourKeyid))))
  }

  // otrl_auth_handle_key
  function HandleKey(env: Env, a: Info, m: Msg): (Info, Result)
    requires m.Key?
  {
    match a.authstate
    case AWAITING_DHKEY =>
      if m.version != a.version then (a, OK) else
        var a1 := WithKeys(env, a, m.pub);
        if a1.keys.None? then (a1, FAIL) else
          (a1.(lastauthmsg := Some(RevealMessage(a1)), authstate := AWAITING_SIG), SEND)
    case AWAITING_SIG => (a, if a.theirPub == Some(m.pub) then SEND else OK)
    case NONE => (a, OK)
    case AWAITING_REVEALSIG => (a, OK)
    case V1_SETUP => (a, OK)
  }

  // ------------------------------------------------ Reveal Signature Message

  // Decrypt the commitment with the revealed r: None if the hash differs, otherwise
  // the key in it when it is exactly one integer.
  function OpenCommit(env: Env, a: Info): Option<Option<nat>>
  {
    var gx := CtrCrypt(env.pr, a.r, 0, a.encgx);
    if env.pr.sha256(gx) != a.hashgx then None else
      match ReadMpi(gx)
      case None => Some(None)
      case Some((pub, rest)) => Some(if rest == [] then Some(pub) else None)
  }

  function SignatureMessage(a: Info): Msg
    requires a.keys.Some? && a.ourPub.Some? && a.theirPub.Some?
  {
    Signature(a.version, Sealing(PubkeyAuth(a.keys.value, true, a.ourPub.value, a.theirPub.value, a.me, a.ourKeyid)))
  }

  // otrl_auth_handle_revealsig: r is overwritten before anything is looked at.
  function HandleRevealsig(env: Env, a: Info, m: Msg): (Info, Result)
    requires m.RevealSig?
  {
    if |m.r| != 16 then (a, FAIL) else
    var a := a.(r := m.r);
    if m.rest.None? then (a, FAIL) else
      match a.authstate
      case AWAITING_REVEALSIG =>
        var gx := OpenCommit(env, a);
        if gx.None? then (a, OK) else
        if gx.value.None? then (a, FAIL) else
          CheckReveal(WithKeys(env, a, gx.value.value), m.rest.value)
      case NONE => (a, OK)
      case AWAITING_DHKEY => (a, OK)
      case AWAITING_SIG => (a, OK)
      case V1_SETUP => (a, OK)
  }

  function CheckReveal(a: Info, t: Tail): (Info, Result)
  {
    if a.keys.None? || a.ourPub.None? || a.theirPub.None? || t.mac != Mac(a.keys.value, false, t.sealed) then (a, FAIL) else
      var (a1, good) := CheckPubkeyAuth(a, t.sealed, a.keys.value, false, false);
      if !good then (a1, FAIL) else FinishSecond(a1)
  }

  function FinishSecond(a: Info): (Info, Result)
    requires a.keys.Some? && a.ourPub.Some? && a.theirPub.Some? && a.theirFingerprint.Some?
  {
    var a1 := a.(lastauthmsg := Some(SignatureMessage(a)), half := SECOND_HALF_BOLD);
    (a1.(ourKeyid := 0, authstate := NONE), Result(false, true, Some(DoneOf(a1))))
  }

  // ------------------------------------------------------- Signature Message

  // otrl_auth_handle_signature
  function HandleSignature(a: Info, m: Msg): (Info, Result)
    requires m.Signature?
  {
    match a.authstate
    case AWAITING_SIG =>
      if a.keys.None? || a.ourPub.None? || a.theirPub.None? || m.tail.mac != Mac(a.keys.value, true, m.tail.sealed) then (a, FAIL) else
        var (a1, good) := CheckPubkeyAuth(a, m.tail.sealed, a.keys.value, true, a.encpMoved);
        var a2 := a1.(encpMoved := true);
        if !good then (a2, FAIL) else FinishFirst(a2)
    case NONE => (a, OK)
    case AWAITING_DHKEY => (a, OK)
    case AWAITING_REVEALSIG => (a, OK)
    case V1_SETUP => (a, OK)
  }

  function FinishFirst(a: Info): (Info, Result)
    requires a.ourPub.Some? && a.theirPub.Some? && a.theirFingerprint.Some?
  {
    var a1 := a.(half := FIRST_HALF_BOLD);
    (a1.(lastauthmsg := None, ourKeyid := 0, authstate := NONE), Result(false, false, Some(DoneOf(a1))))
  }

  // The dispatch of an incoming message of the exchange.
  function Handle(env: Env, a: Info, m: Msg, freshPub: nat): (Info, Result)
  {
    match m
    case Commit(version, _, _) => HandleCommit(a, m, version, freshPub)
    case Key(_, _) => HandleKey(env, a, m)
    case RevealSig(_, _, _) => HandleRevealsig(env, a, m)
    case Signature(_, _) => HandleSignature(a, m)
  }

  // ----------------------------------------- an exchange nobody interferes with

  lemma CommitOpens(env: Env, b: Info, r: seq<byte>, pub: nat)
    requires Printable(pub)
    requires b.r == r && b.encgx == CtrCrypt(env.pr, r, 0, WriteMpi(pub)) && b.hashgx == env.pr.sha256(WriteMpi(pub))
    ensures OpenCommit(env, b) == Some(Some(pub))
  {
    CtrInvolution(env.pr, r, 0, WriteMpi(pub));
    ReadWriteMpi(pub, []);
    assert WriteMpi(pub) + [] == WriteMpi(pub);
  }

  predicate InRange(env: Env, pub: nat)
  {
    2 <= pub <= env.pr.p - 2
  }

  // What a context that waits for the answer to its commitment, or to its key, has sent.
  predicate Held(b: Info)
  {
    && (b.authstate == AWAITING_DHKEY ==> b.lastauthmsg.Some? && b.lastauthmsg.value.Commit?)
    && (b.authstate == AWAITING_REVEALSIG ==>
          && b.ourPub.Some? && b.ourKeyid == 1
          && b.lastauthmsg.Some? && b.lastauthmsg.value.Key? && b.lastauthmsg.value.pub == b.ourPub.value)
  }

  // Every context starts with this, and keeps it whatever it is handed.
  lemma HeldKept(env: Env, a: Info, m: Msg, version: nat, r: seq<byte>, freshPub: nat)
    requires Held(a)
    ensures Held(StartV23(env, a, version, r, freshPub)) && Held(Handle(env, a, m, freshPub).0)
  {
    if m.RevealSig? {
      HeldReveal(env, a, m);
    }
  }

  lemma HeldReveal(env: Env, a: Info, m: Msg)
    requires Held(a) && m.RevealSig?
    ensures Held(HandleRevealsig(env, a, m).0)
  {
    if |m.r| == 16 && m.rest.Some? && a.authstate == AWAITING_REVEALSIG {
      var a1 := a.(r := m.r);
      var gx := OpenCommit(env, a1);
      if gx.Some? && gx.value.Some? {
        HeldCheck(WithKeys(env, a1, gx.value.value), m.rest.value);
      }
    }
  }

  lemma HeldCheck(a: Info, t: Tail)
    requires Held(a)
    ensures Held(CheckReveal(a, t).0)
  {
  }

  // Whether a commitment to this hash, in this version, is answered with a key message
  // in that version.  A context that committed itself answers unless its own hash wins;
  // one that has sent its key sends the same message again, in the version it had.
  predicate Answers(b: Info, hashgx: seq<byte>, version: nat)
  {
    && (b.authstate == AWAITING_DHKEY ==> b.isMaster || !Greater(b.hashgx, hashgx))
    && (b.authstate == AWAITING_REVEALSIG ==> b.lastauthmsg.Some? && b.lastauthmsg.value.version == version)
  }

  // The key of the answer
  function AnswerKey(b: Info, freshPub: nat): nat
  {
    if b.authstate == AWAITING_REVEALSIG && b.ourPub.Some? then b.ourPub.value else freshPub
  }

  // The first two messages.
  lemma FirstHalfCompletes(env: Env, a: Info, b: Info, version: nat, r: seq<byte>, x: nat, freshPub: nat, y: nat)
    requires y == AnswerKey(b, freshPub) && InRange(env, x) && InRange(env, y) && |env.pr.sha256(WriteMpi(x))| == 32
    requires Held(b) && Answers(b, env.pr.sha256(WriteMpi(x)), version)
    ensures var a1 := StartV23(env, a, version, r, x);
            var (b1, r1) := HandleCommit(b, a1.lastauthmsg.value, version, freshPub);
            && b1.lastauthmsg == Some(Key(version, y)) && r1 == SEND
            && b1.authstate == AWAITING_REVEALSIG && b1.ourPub == Some(y) && b1.ourKeyid == 1 && b1.me == b.me && b1.version == version
            && b1.encgx == CtrCrypt(env.pr, r, 0, WriteMpi(x)) && b1.hashgx == env.pr.sha256(WriteMpi(x))
            && var (a2, r2) := HandleKey(env, a1, b1.lastauthmsg.value);
            && r2 == SEND
            && a2.authstate == AWAITING_SIG && a2.keys == Some({x, y}) && !a2.encpMoved && a2.sessionId == env.sid({x, y})
            && a2.ourPub == Some(x) && a2.theirPub == Some(y) && a2.ourKeyid == 1 && a2.me == a.me && a2.version == version
            && a2.lastauthmsg == Some(RevealSig(version, r, Some(Sealing(PubkeyAuth({x, y}, false, x, y, a.me, 1)))))
  {
  }

  // The initiator gets on to the Reveal Signature Message exactly when its commitment is
  // answered: otherwise it is outbid, or sent a key of another version, which it ignores.
  lemma AnswersExactly(env: Env, a: Info, b: Info, version: nat, r: seq<byte>, x: nat, freshPub: nat, other: nat)
    requires InRange(env, x) && InRange(env, AnswerKey(b, freshPub)) && |env.pr.sha256(WriteMpi(x))| == 32 && Held(b)
    ensures var a1 := StartV23(env, a, version, r, x);
            var (b1, r1) := HandleCommit(b, a1.lastauthmsg.value, version, freshPub);
            && r1 == SEND && b1.lastauthmsg.Some?
            && (Handle(env, a1, b1.lastauthmsg.value, other).0.authstate == AWAITING_SIG <==> Answers(b, a1.hashgx, version))
  {
    var a1 := StartV23(env, a, version, r, x);
    if Answers(b, a1.hashgx, version) {
      FirstHalfCompletes(env, a, b, version, r, x, freshPub, AnswerKey(b, freshPub));
    } else {
      var b1 := HandleCommit(b, a1.lastauthmsg.value, version, freshPub).0;
      NoKeyNoProgress(env, a1, b1.lastauthmsg.value, other);
    }
  }

  lemma NoKeyNoProgress(env: Env, a: Info, m: Msg, freshPub: nat)
    requires a.authstate == AWAITING_DHKEY && (m.Commit? || (m.Key? && m.version != a.version))
    ensures Handle(env, a, m, freshPub).0.authstate != AWAITING_SIG
  {
  }

  lemma RevealCompletes(env: Env, b: Info, me: nat, r: seq<byte>, x: nat, y: nat)
    requires InRange(env, x) && Printable(x) && |r| == 16
    requires b.authstate == AWAITING_REVEALSIG && b.ourPub == Some(y) && b.ourKeyid == 1
    requires b.encgx == CtrCrypt(env.pr, r, 0, WriteMpi(x)) && b.hashgx == env.pr.sha256(WriteMpi(x))
    ensures var (b2, r3) := HandleRevealsig(env, b, RevealSig(b.version, r, Some(Sealing(PubkeyAuth({x, y}, false, x, y, me, 1)))));
            && b2.lastauthmsg == Some(Signature(b.version, Sealing(PubkeyAuth({x, y}, true, y, x, b.me, 1))))
            && r3.done == Some(Done(b.me, me, y, x, 1, 1, env.sid({x, y}), SECOND_HALF_BOLD))
  {
    CommitOpens(env, b.(r := r), r, x);
    assert {y, x} == {x, y};
  }

  lemma SignatureCompletes(env: Env, a: Info, peer: nat, x: nat, y: nat)
    requires a.authstate == AWAITING_SIG && a.keys == Some({x, y}) && !a.encpMoved && a.sessionId == env.sid({x, y})
    requires a.ourPub == Some(x) && a.theirPub == Some(y) && a.ourKeyid == 1
    ensures HandleSignature(a, Signature(a.version, Sealing(PubkeyAuth({x, y}, true, y, x, peer, 1)))).1.done
            == Some(Done(a.me, peer, x, y, 1, 1, env.sid({x, y}), FIRST_HALF_BOLD))
  {
  }

  // When the four messages arrive in turn, both ends finish, and on the same exchange,
  // whatever state the responder was in that answers the commitment.
  lemma ExchangeCompletes(env: Env, a: Info, b: Info, version: nat, r: seq<byte>, x: nat, freshPub: nat)
    requires InRange(env, x) && InRange(env, AnswerKey(b, freshPub)) && Printable(x) && |r| == 16 && |env.pr.sha256(WriteMpi(x))| == 32
    requires Held(b) && Answers(b, env.pr.sha256(WriteMpi(x)), version)
    ensures var y := AnswerKey(b, freshPub);
            var a1 := StartV23(env, a, version, r, x);
            var (b1, r1) := HandleCommit(b, a1.lastauthmsg.value, version, freshPub);
            b1.lastauthmsg.Some? && b1.lastauthmsg.value.Key? &&
            var (a2, r2) := HandleKey(env, a1, b1.lastauthmsg.value);
            a2.lastauthmsg.Some? && a2.lastauthmsg.value.RevealSig? &&
            var (b2, r3) := HandleRevealsig(env, b1, a2.lastauthmsg.value);
            b2.lastauthmsg.Some? && b2.lastauthmsg.value.Signature? &&
            var (a3, r4) := HandleSignature(a2, b2.lastauthmsg.value);
            && r3.done == Some(Done(b.me, a.me, y, x, 1, 1, env.sid({x, y}), SECOND_HALF_BOLD))
            && r4.done == Some(Done(a.me, b.me, x, y, 1, 1, env.sid({x, y}), FIRST_HALF_BOLD))
  {
    var y := AnswerKey(b, freshPub);
    FirstHalfCompletes(env, a, b, version, r, x, freshPub, y);
    var a1 := StartV23(env, a, version, r, x);
    var b1 := HandleCommit(b, a1.lastauthmsg.value, version, freshPub).0;
    var a2 := HandleKey(env, a1, b1.lastauthmsg.value).0;
    RevealCompletes(env, b1, a.me, r, x, y);
    SignatureCompletes(env, a2, b.me, x, y);
  }

  lemma {:induction false} GreaterOneWay(s: seq<byte>, t: seq<byte>)
    requires |s| == |t| && s != t
    ensures Greater(s, t) <==> !Greater(t, s)
  {
    if s[0] == t[0] {
      assert s == [s[0]] + s[1..] && t == [t[0]] + t[1..];
      GreaterOneWay(s[1..], t[1..]);
    }
  }

  // When two contexts, neither a master, start at once, their commitments cross: exactly
  // one of them is answered, and the other end sends its own again, unchanged.
  lemma CrossedCommits(env: Env, a: Info, b: Info, version: nat, r: seq<byte>, r': seq<byte>, x: nat, y: nat, freshPub: nat)
    requires !a.isMaster && !b.isMaster
    requires |env.pr.sha256(WriteMpi(x))| == |env.pr.sha256(WriteMpi(y))| == 32 && env.pr.sha256(WriteMpi(x)) != env.pr.sha256(WriteMpi(y))
    ensures var a1, b1 := StartV23(env, a, version, r, x), StartV23(env, b, version, r', y);
            var wins := Greater(a1.hashgx, b1.hashgx);
            && Answers(b1, a1.hashgx, version) == wins && Answers(a1, b1.hashgx, version) == !wins
            && Held(a1) && Held(b1)
            && (wins ==> HandleCommit(a1, b1.lastauthmsg.value, version, freshPub) == (a1, SEND))
            && (!wins ==> HandleCommit(b1, a1.lastauthmsg.value, version, freshPub) == (b1, SEND))
  {
    GreaterOneWay(env.pr.sha256(WriteMpi(x)), env.pr.sha256(WriteMpi(y)));
  }
}
