// OtrlAuthInfo updated in place by the handlers of auth.c.
module AuthInfo {
  import opened Bytes
  import opened Serial
  import opened Dh
  import opened Ake

  class OtrlAuthInfo {
    const me: nat
    const isMaster: bool
    var authstate: AuthState
    var ourDh: Option<nat>
    var ourKeyid: nat
    var encgx: seq<byte>
    var r: seq<byte>
    var hashgx: seq<byte>
    var theirPub: Option<nat>
    var theirKeyid: nat
    var keys: Option<Secret>
    var encpMoved: bool
    var theirFingerprint: Option<nat>
    var initiated: bool
    var protocolVersion: nat
    var secureSessionId: seq<byte>
    var sessionIdHalf: Half
    var lastauthmsg: Option<Msg>

    function Now(): Info
      reads this
    {
      Info(me, isMaster, authstate, ourDh, ourKeyid, encgx, r, hashgx, theirPub, theirKeyid, keys, encpMoved,
           theirFingerprint, initiated, protocolVersion, secureSessionId, sessionIdHalf, lastauthmsg)
    }

    // otrl_auth_new
    constructor (me: nat, isMaster: bool)
      ensures Now() == NewInfo(me, isMaster)
    {
      this.me, this.isMaster := me, isMaster;
      authstate, ourDh, ourKeyid := NONE, None, 0;
      encgx, r, hashgx := [], Zeros(16), Zeros(32);
      theirPub, theirKeyid, keys, encpMoved := None, 0, None, false;
      theirFingerprint, initiated, protocolVersion := None, false, 0;
      secureSessionId, sessionIdHalf, lastauthmsg := [], FIRST_HALF_BOLD, None;
    }

    // otrl_auth_clear
    method Reset()
      modifies this
      ensures Now() == Clear(old(Now()))
    {
      ResetOwn();
      ResetCommit();
      ResetPeer();
      ResetRest();
    }

    method ResetOwn()
      modifies this
      ensures Now() == old(Now()).(authstate := NONE, ourPub := None, ourKeyid := 0)
    {
      authstate, ourDh, ourKeyid := NONE, None, 0;
    }

    method ResetRest()
      modifies this
      ensures Now() == old(Now()).(initiated := false, version := 0, lastauthmsg := None)
    {
      initiated, protocolVersion, lastauthmsg := false, 0, None;
    }

    method ResetCommit()
      modifies this
      ensures Now() == old(Now()).(encgx := [], r := Zeros(16), hashgx := Zeros(32))
    {
      encgx := [];
      r := Zeros(16);
      hashgx := Zeros(32);
    }

    method ResetPeer()
      modifies this
      ensures Now() == old(Now()).(theirPub := None, theirKeyid := 0, keys := None, encpMoved := false,
                                   theirFingerprint := None, sessionId := [])
    {
      theirPub := None;
      theirKeyid := 0;
      keys := None;
      encpMoved := false;
      theirFingerprint := None;
      secureSessionId := [];
    }

    // otrl_auth_start_v23
    method Start(env: Env, version: nat, random: seq<byte>, pub: nat)
      modifies this
      ensures Now() == StartV23(env, old(Now()), version, random, pub)
    {
      Reset();
      initiated, protocolVersion := true, version;
      ourDh, ourKeyid := Some(pub), 1;
      MakeCommit(env, random, pub);
      SendCommit(version);
    }

    method MakeCommit(env: Env, random: seq<byte>, pub: nat)
      modifies this
      ensures Now() == old(Now()).(r := random, encgx := CtrCrypt(env.pr, random, 0, WriteMpi(pub)), hashgx := env.pr.sha256(WriteMpi(pub)))
    {
      r := random;
      encgx := WriteMpi(pub);
      hashgx := env.pr.sha256(encgx);
      encgx := CtrCrypt(env.pr, r, 0, encgx);
    }

    method SendCommit(version: nat)
      modifies this
      ensures Now() == old(Now()).(lastauthmsg := Some(Commit(version, old(encgx), old(hashgx))), authstate := AWAITING_DHKEY)
    {
      lastauthmsg := Some(Commit(version, encgx, hashgx));
      authstate := AWAITING_DHKEY;
    }

    method AcceptCommit(m: Msg, version: nat, pub: nat)
      requires m.Commit?
      modifies this
      ensures Now() == TakeCommit(old(Now()), m, version, pub)
    {
      Reset();
      protocolVersion := version;
      ourDh, ourKeyid := Some(pub), 1;
      encgx, hashgx := m.encgx, m.hashgx;
      lastauthmsg := Some(Key(version, pub));
      authstate := AWAITING_REVEALSIG;
    }

    // otrl_auth_handle_commit
    method OnCommit(m: Msg, version: nat, pub: nat) returns (res: Result)
      requires m.Commit?
      modifies this
      ensures (Now(), res) == HandleCommit(old(Now()), m, version, pub)
    {
      protocolVersion := version;
      if |m.hashgx| != 32 { return FAIL; }
      match authstate {
        case NONE => AcceptCommit(m, version, pub);
        case AWAITING_SIG => AcceptCommit(m, version, pub);
        case V1_SETUP => AcceptCommit(m, version, pub);
        case AWAITING_DHKEY =>
          if isMaster || !Greater(hashgx, m.hashgx) {
            AcceptCommit(m, version, pub);
          }
        case AWAITING_REVEALSIG =>
          encgx, hashgx := m.encgx, m.hashgx;
      }
      return SEND;
    }

    method ComputeKeys(env: Env, pub: nat)
      modifies this
      ensures Now() == WithKeys(env, old(Now()), pub)
    {
      theirPub := Some(pub);
      keys, encpMoved := AuthKeys(env, ourDh, pub), false;
      if keys.Some? {
        secureSessionId := env.sid(keys.value);
      }
    }

    // otrl_auth_handle_key
    method OnKey(env: Env, m: Msg) returns (res: Result)
      requires m.Key?
      modifies this
      ensures (Now(), res) == HandleKey(env, old(Now()), m)
    {
      match authstate {
        case AWAITING_DHKEY =>
          if m.version != protocolVersion { return OK; }
          ComputeKeys(env, m.pub);
          if keys.None? { return FAIL; }
          lastauthmsg := Some(RevealMessage(Now()));
          authstate := AWAITING_SIG;
          return SEND;
        case AWAITING_SIG => return if theirPub == Some(m.pub) then SEND else OK;
        case NONE => return OK;
        case AWAITING_REVEALSIG => return OK;
        case V1_SETUP => return OK;
      }
    }

    // check_pubkey_auth
    method CheckAuth(sealed: Sealed, secret: Secret, prime: bool, moved: bool) returns (good: bool)
      requires ourDh.Some? && theirPub.Some?
      modifies this
      ensures (Now(), good) == CheckPubkeyAuth(old(Now()), sealed, secret, prime, moved)
    {
      if moved || sealed.secret != secret || sealed.prime != prime || sealed.body.Unreadable? { return false; }
      var b := sealed.body;
      theirFingerprint := Some(b.pubkey);
      if b.KeyOnly? || b.keyid == 0 { return false; }
      if b.sig != Sig(b.pubkey, Content(secret, prime, theirPub.value, ourDh.value, b.pubkey, b.keyid)) { return false; }
      theirKeyid := b.keyid;
      return true;
    }

    // otrl_auth_handle_revealsig
    method OnRevealsig(env: Env, m: Msg) returns (res: Result)
      requires m.RevealSig?
      modifies this
      ensures (Now(), res) == HandleRevealsig(env, old(Now()), m)
    {
      if |m.r| != 16 { return FAIL; }
      r := m.r;
      if m.rest.None? { return FAIL; }
      match authstate {
        case AWAITING_REVEALSIG =>
          var gx := OpenCommit(env, Now());
          if gx.None? { return OK; }
          if gx.value.None? { return FAIL; }
          ComputeKeys(env, gx.value.value);
          res := FinishReveal(m.rest.value);
        case NONE => return OK;
        case AWAITING_DHKEY => return OK;
        case AWAITING_SIG => return OK;
        case V1_SETUP => return OK;
      }
    }

    method FinishReveal(t: Tail) returns (res: Result)
      modifies this
      ensures (Now(), res) == CheckReveal(old(Now()), t)
    {
      if keys.None? || ourDh.None? || theirPub.None? { return FAIL; }
      if t.mac != Mac(keys.value, false, t.sealed) { return FAIL; }
      var good := CheckAuth(t.sealed, keys.value, false, false);
      if !good { return FAIL; }
      res := FinishSecondHalf();
    }

    method FinishSecondHalf() returns (res: Result)
      requires keys.Some? && ourDh.Some? && theirPub.Some? && theirFingerprint.Some?
      modifies this
      ensures (Now(), res) == FinishSecond(old(Now()))
    {
      lastauthmsg := Some(SignatureMessage(Now()));
      sessionIdHalf := SECOND_HALF_BOLD;
      res := Result(false, true, Some(DoneOf(Now())));
      ourKeyid, authstate := 0, NONE;
    }

    method FinishSignature() returns (res: Result)
      requires ourDh.Some? && theirPub.Some? && theirFingerprint.Some?
      modifies this
      ensures (Now(), res) == FinishFirst(old(Now()))
    {
      sessionIdHalf := FIRST_HALF_BOLD;
      res := Result(false, false, Some(DoneOf(Now())));
      lastauthmsg, ourKeyid, authstate := None, 0, NONE;
    }

    // otrl_auth_handle_signature
    method OnSignature(m: Msg) returns (res: Result)
      requires m.Signature?
      modifies this
      ensures (Now(), res) == HandleSignature(old(Now()), m)
    {
      match authstate {
        case AWAITING_SIG =>
          if keys.None? || ourDh.None? || theirPub.None? { return FAIL; }
          if m.tail.mac != Mac(keys.value, true, m.tail.sealed) { return FAIL; }
          var good := CheckAuth(m.tail.sealed, keys.value, true, encpMoved);
          encpMoved := true;
          if !good { return FAIL; }
          res := FinishSignature();
        case NONE => return OK;
        case AWAITING_DHKEY => return OK;
        case AWAITING_REVEALSIG => return OK;
        case V1_SETUP => return OK;
      }
    }
  }
}
