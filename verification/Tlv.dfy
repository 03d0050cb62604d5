// Type-length-value records, and the plaintext they travel behind (tlv.c and the
// two ends of a data message in proto.c).
module Tlv {
  import opened Bytes

  datatype Tlv = Tlv(typ: nat, data: seq<byte>)

  predicate WellFormed(t: Tlv)
  {
    t.typ < 0x1_0000 && |t.data| < 0x1_0000
  }

  predicate AllWellFormed(ts: seq<Tlv>)
  {
    forall t :: t in ts ==> WellFormed(t)
  }

  function Short(v: nat): (s: seq<byte>)
    ensures |s| == 2
  {
    [v / 256 % 256, v % 256]
  }

  function Word(hi: int, lo: int): int
  {
    hi * 256 + lo
  }

  lemma ShortWord(v: nat)
    requires v < 0x1_0000
    ensures Word(Short(v)[0], Short(v)[1]) == v
  {
    assert v == v / 256 * 256 + v % 256;
  }

  function TlvBytes(t: Tlv): seq<byte>
  {
    Short(t.typ) + Short(|t.data|) + t.data
  }

  // otrl_tlv_serialize
  function Serialized(ts: seq<Tlv>): seq<byte>
  {
    if ts == [] then [] else TlvBytes(ts[0]) + Serialized(ts[1..])
  }

  // otrl_tlv_parse: stops at the first record that does not fit.
  function Parsed(s: seq<byte>): seq<Tlv>
    decreases |s|
  {
    if |s| < 4 then [] else
      var typ := Word(s[0], s[1]);
      var len := Word(s[2], s[3]);
      if |s| - 4 < len then [] else [Tlv(typ, s[4..4 + len])] + Parsed(s[4 + len..])
  }

  lemma {:induction false} ParseSerialized(ts: seq<Tlv>)
    requires AllWellFormed(ts)
    ensures Parsed(Serialized(ts)) == ts
  {
    if ts != [] {
      var t, s, len := ts[0], Serialized(ts), |ts[0].data|;
      ParseSerialized(ts[1..]);
      assert s == TlvBytes(t) + Serialized(ts[1..]);
      assert t in ts;
      assert s[0] == Short(t.typ)[0] && s[1] == Short(t.typ)[1];
      assert s[2] == Short(len)[0] && s[3] == Short(len)[1];
      ShortWord(t.typ);
      ShortWord(len);
      assert Word(s[0], s[1]) == t.typ && Word(s[2], s[3]) == len;
      assert s[4..4 + len] == t.data;
      assert s[4 + len..] == Serialized(ts[1..]);
      assert Parsed(s) == [Tlv(t.typ, t.data)] + Parsed(s[4 + len..]);
    }
  }

  // What the parser returns is always well formed, whatever the octets.
  lemma {:induction false} ParsedWellFormed(s: seq<byte>)
    ensures AllWellFormed(Parsed(s))
    decreases |s|
  {
    if |s| >= 4 {
      var len := Word(s[2], s[3]);
      if |s| - 4 >= len {
        ParsedWellFormed(s[4 + len..]);
      }
    }
  }

  // The loop of otrl_tlv_parse: the cursor moves over the buffer while records are
  // appended to the chain.
  method ParseTlvs(serialized: seq<byte>) returns (tlvs: seq<Tlv>)
    ensures tlvs == Parsed(serialized)
  {
    tlvs := [];
    var s := serialized;
    while |s| >= 4
      invariant tlvs + Parsed(s) == Parsed(serialized)
      decreases |s|
    {
      var typ := Word(s[0], s[1]);
      var len := Word(s[2], s[3]);
      if |s| - 4 < len { break; }
      tlvs := tlvs + [Tlv(typ, s[4..4 + len])];
      s := s[4 + len..];
    }
  }

  function SerialLength(ts: seq<Tlv>): nat
  {
    if ts == [] then 0 else |ts[0].data| + 4 + SerialLength(ts[1..])
  }

  lemma {:induction false} SerializedLength(ts: seq<Tlv>)
    ensures |Serialized(ts)| == SerialLength(ts)
  {
    if ts != [] {
      SerializedLength(ts[1..]);
    }
  }

  // otrl_tlv_seriallen
  method SerialLen(ts: seq<Tlv>) returns (totlen: nat)
    ensures totlen == |Serialized(ts)|
  {
    SerializedLength(ts);
    totlen := 0;
    for i := 0 to |ts|
      invariant totlen + SerialLength(ts[i..]) == SerialLength(ts)
    {
      assert ts[i..][1..] == ts[i + 1..];
      totlen := totlen + |ts[i].data| + 4;
    }
  }

  // -------------------------------------- the plaintext of a data message

  // A C string: no octet is NUL.
  predicate CString(s: seq<byte>)
  {
    forall i :: 0 <= i < |s| ==> s[i] != 0
  }

  // Text, a NUL, and the records.
  function Payload(text: seq<byte>, ts: seq<Tlv>): seq<byte>
  {
    text + [0] + Serialized(ts)
  }

  // Where the scan for the NUL stops.
  function NulIndex(s: seq<byte>): (i: nat)
    ensures i <= |s| && (i < |s| ==> s[i] == 0) && CString(s[..i])
  {
    if s == [] || s[0] == 0 then 0 else
      var j := NulIndex(s[1..]);
      assert s[..j + 1] == [s[0]] + s[1..][..j];
      j + 1
  }

  function TextOf(data: seq<byte>): seq<byte>
  {
    data[..NulIndex(data)]
  }

  function TlvsOf(data: seq<byte>): seq<Tlv>
  {
    var i := NulIndex(data);
    Parsed(if i < |data| then data[i + 1..] else [])
  }

  lemma {:induction false} NulIndexUnique(s: seq<byte>, i: nat)
    requires i < |s| && s[i] == 0 && CString(s[..i])
    ensures NulIndex(s) == i
  {
    if i > 0 {
      assert s[..i][0] == s[0];
      assert s[1..][..i - 1] == s[..i][1..];
      NulIndexUnique(s[1..], i - 1);
    }
  }

  lemma PayloadRoundTrip(text: seq<byte>, ts: seq<Tlv>)
    requires CString(text) && AllWellFormed(ts)
    ensures TextOf(Payload(text, ts)) == text
    ensures TlvsOf(Payload(text, ts)) == ts
  {
    var s := Payload(text, ts);
    assert s[..|text|] == text && s[|text|] == 0;
    NulIndexUnique(s, |text|);
    assert s[|text| + 1..] == Serialized(ts);
    ParseSerialized(ts);
  }

  // The scan at the end of otrl_proto_accept_data.
  method FindNul(data: seq<byte>) returns (nul: nat)
    ensures nul == NulIndex(data)
  {
    nul := 0;
    while nul < |data| && data[nul] != 0
      invariant nul <= |data| && CString(data[..nul])
      invariant NulIndex(data) == nul + NulIndex(data[nul..])
    {
      assert data[nul..][1..] == data[nul + 1..];
      nul := nul + 1;
    }
  }
}
