// Diffie-Hellman key pairs and the session keys derived from them (dh.c).
module Dh {
  import opened Bytes
  import opened Serial
  import opened ModArith

  // The primitives the protocol is built on, as arbitrary functions: two hash
  // functions, HMAC-SHA1, and AES in counter mode seen as the keystream octet at
  // a position for a key and the top half of the counter block.
  datatype Prims = Prims(
    p: nat, g: nat,
    sha1: seq<byte> -> seq<byte>,
    sha256: seq<byte> -> seq<byte>,
    hmac: (seq<byte>, seq<byte>) -> seq<byte>,
    keystream: (seq<byte>, nat, nat) -> byte)

  ghost predicate PrimsOK(pr: Prims)
  {
    && pr.p > 2
    && Printable(pr.p)
    && (forall m :: |pr.sha1(m)| == 20)
    && (forall k, m :: |pr.hmac(k, m)| == 20)
  }

  datatype Keypair = Keypair(priv: nat, pub: nat)

  // otrl_dh_gen_keypair, the random exponent given
  function GenKeypair(pr: Prims, priv: nat): Keypair
    requires pr.p > 0
  {
    Keypair(priv, Powm(pr.g, priv, pr.p))
  }

  ghost predicate Generated(pr: Prims, kp: Keypair)
    requires pr.p > 0
  {
    kp == GenKeypair(pr, kp.priv)
  }

  // DH_sesskeys.  The counters are the top halves of the counter blocks (the
  // bottom halves are always zero); live says the cipher and MAC handles exist.
  datatype Sess = Sess(
    live: bool, sendctr: nat, rcvctr: nat,
    sendenc: seq<byte>, rcvenc: seq<byte>,
    sendmackey: seq<byte>, sendmacused: bool,
    rcvmackey: seq<byte>, rcvmacused: bool,
    extrakey: seq<byte>)

  const ZERO20: seq<byte> := [0, 0, 0, 0, 0, 0, 0, 0, 0, 0, 0, 0, 0, 0, 0, 0, 0, 0, 0, 0]

  // otrl_dh_session_blank
  function BlankSession(): Sess
  {
    Sess(false, 0, 0, [], [], ZERO20, false, ZERO20, false, [])
  }

  // Tag octet, length and digits of the shared secret.
  function Tagged(tag: byte, gab: nat): seq<byte>
  {
    [tag] + WriteMpi(gab)
  }

  function EncKey(pr: Prims, tag: byte, gab: nat): seq<byte>
  {
    var h := pr.sha1(Tagged(tag, gab));
    if |h| < 16 then h else h[..16]
  }

  // otrl_dh_session: the "high" end, whose public key is larger, sends with tag 1.
  function DhSession(pr: Prims, kp: Keypair, y: nat): Sess
    requires pr.p > 0
  {
    var gab := Powm(y, kp.priv, pr.p);
    var (sendbyte, rcvbyte) := if kp.pub > y then (1, 2) else (2, 1);
    var sendenc := EncKey(pr, sendbyte, gab);
    var rcvenc := EncKey(pr, rcvbyte, gab);
    Sess(true, 0, 0, sendenc, rcvenc, pr.sha1(sendenc), false, pr.sha1(rcvenc), false, pr.sha256(Tagged(0xff, gab)))
  }

  // What one end sends with is what the other end receives with.
  ghost predicate Mirrored(s: Sess, t: Sess)
  {
    && s.sendenc == t.rcvenc && s.sendmackey == t.rcvmackey
    && t.sendenc == s.rcvenc && t.sendmackey == s.rcvmackey
    && s.extrakey == t.extrakey
  }

  // Two ends derive mirrored sessions exactly when their public keys differ: with
  // equal keys both take the "low" role, which only a collision of the hash saves.
  lemma SessionMirror(pr: Prims, a: Keypair, b: Keypair)
    requires PrimsOK(pr) && Generated(pr, a) && Generated(pr, b)
    ensures Mirrored(DhSession(pr, a, b.pub), DhSession(pr, b, a.pub))
            <==> (a.pub != b.pub || EncKey(pr, 1, Powm(b.pub, a.priv, pr.p)) == EncKey(pr, 2, Powm(b.pub, a.priv, pr.p)))
  {
    PowmCommutes(pr.g, a.priv, b.priv, pr.p);
  }

  // ------------------------------------------------ counter mode encryption

  function CtrCrypt(pr: Prims, key: seq<byte>, ctr: nat, data: seq<byte>): (out: seq<byte>)
    ensures |out| == |data|
  {
    seq<byte>(|data|, i requires 0 <= i < |data| => Xor(data[i], pr.keystream(key, ctr, i)))
  }

  lemma CtrInvolution(pr: Prims, key: seq<byte>, ctr: nat, data: seq<byte>)
    ensures CtrCrypt(pr, key, ctr, CtrCrypt(pr, key, ctr, data)) == data
  {
    var out := CtrCrypt(pr, key, ctr, data);
    forall i | 0 <= i < |data|
      ensures CtrCrypt(pr, key, ctr, out)[i] == data[i]
    {
      XorInvolution(data[i], pr.keystream(key, ctr, i));
    }
  }
}
