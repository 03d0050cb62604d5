// The part of a cipher handle (cipher-internal.h) that the modes of operation update.
module Handle {
  import opened BlockCipher

  class CipherHandle<O(!new)> {
    const c: Cipher<O>
    const iv: array<O>
    const ctr: array<O>
    const lastiv: array<O>
    var unused: nat

    ghost predicate Valid()
    {
      && Lawful(c) && iv.Length == ctr.Length == lastiv.Length == c.size
      && iv != ctr && iv != lastiv && ctr != lastiv
    }

    // A buffer of the caller's is none of the handle's own.
    ghost predicate Apart(buf: array<O>)
    {
      buf != iv && buf != ctr && buf != lastiv
    }

    // After gcry_cipher_setiv and gcry_cipher_setctr
    constructor (cipher: Cipher<O>, start: seq<O>, count: seq<O>)
      requires Lawful(cipher) && |start| == |count| == cipher.size
      ensures Valid() && c == cipher && iv[..] == start && ctr[..] == count && unused == 0
      ensures fresh(iv) && fresh(ctr) && fresh(lastiv)
    {
      c := cipher;
      iv := new O[|start|](i requires 0 <= i < |start| => start[i]);
      ctr := new O[|count|](i requires 0 <= i < |count| => count[i]);
      lastiv := new O[|start|](i => cipher.zero);
      unused := 0;
    }
  }
}
