// Reading and writing the fields of a message (the macros of serial.h): a
// reader consumes a prefix of the buffer and hands back the rest, or fails.
module Serial {
  import opened Bytes

  // read_int
  function ReadInt(s: seq<byte>): (r: Option<(nat, seq<byte>)>)
    ensures r.Some? ==> r.value.0 < TWO32 && |r.value.1| == |s| - 4
  {
    if |s| < 4 then None else
      Pow256Of4();
      Some((FromBe(s[..4]), s[4..]))
  }

  // require_len followed by moving the cursor
  function ReadBytes(s: seq<byte>, n: nat): (r: Option<(seq<byte>, seq<byte>)>)
    ensures r.Some? ==> s == r.value.0 + r.value.1 && |r.value.0| == n
  {
    if |s| < n then None else Some((s[..n], s[n..]))
  }

  // read_mpi: a zero length stands for zero
  function ReadMpi(s: seq<byte>): (r: Option<(nat, seq<byte>)>)
    ensures r.Some? ==> |r.value.1| < |s|
  {
    match ReadInt(s)
    case None => None
    case Some((n, rest)) =>
      match ReadBytes(rest, n)
      case None => None
      case Some((digits, rest')) => Some((FromBe(digits), rest'))
  }

  // write_int
  function WriteInt(v: nat): (s: seq<byte>)
    ensures |s| == 4
  {
    Be(4, v)
  }

  // write_mpi
  function WriteMpi(v: nat): seq<byte>
  {
    WriteInt(|Mpi(v)|) + Mpi(v)
  }

  // A value whose printed length fits the 32-bit length field.
  predicate Printable(v: nat)
  {
    |Mpi(v)| < TWO32
  }

  lemma ReadWriteInt(v: nat, rest: seq<byte>)
    requires v < TWO32
    ensures ReadInt(WriteInt(v) + rest) == Some((v, rest))
  {
    Pow256Of4();
    BeRoundTrip(4, v);
    assert (WriteInt(v) + rest)[..4] == WriteInt(v);
    assert (WriteInt(v) + rest)[4..] == rest;
  }

  lemma ReadWriteBytes(d: seq<byte>, rest: seq<byte>)
    ensures ReadBytes(d + rest, |d|) == Some((d, rest))
  {
    assert (d + rest)[..|d|] == d;
    assert (d + rest)[|d|..] == rest;
  }

  lemma ReadWriteMpi(v: nat, rest: seq<byte>)
    requires Printable(v)
    ensures ReadMpi(WriteMpi(v) + rest) == Some((v, rest))
  {
    assert WriteMpi(v) + rest == WriteInt(|Mpi(v)|) + (Mpi(v) + rest);
    ReadWriteInt(|Mpi(v)|, Mpi(v) + rest);
    ReadWriteBytes(Mpi(v), rest);
  }

  // ------------------------------------------------- arrays of MPIs (sm.c)

  function WriteMpis(vs: seq<nat>): seq<byte>
  {
    if vs == [] then [] else WriteMpis(vs[..|vs| - 1]) + WriteMpi(vs[|vs| - 1])
  }

  function ReadMpis(s: seq<byte>, n: nat): (r: Option<(seq<nat>, seq<byte>)>)
    ensures r.Some? ==> |r.value.0| == n
  {
    if n == 0 then Some(([], s)) else
      match ReadMpis(s, n - 1)
      case None => None
      case Some((vs, rest)) =>
        match ReadMpi(rest)
        case None => None
        case Some((v, rest')) => Some((vs + [v], rest'))
  }

  lemma {:induction false} ReadWriteMpis(vs: seq<nat>, rest: seq<byte>)
    requires forall v :: v in vs ==> Printable(v)
    ensures ReadMpis(WriteMpis(vs) + rest, |vs|) == Some((vs, rest))
  {
    if vs == [] {
      assert WriteMpis(vs) + rest == rest;
    } else {
      var front, last := vs[..|vs| - 1], vs[|vs| - 1];
      ReadWriteMpis(front, WriteMpi(last) + rest);
      ReadWriteMpi(last, rest);
      ReadMpisStep(WriteMpis(front), WriteMpi(last), front, last, rest);
      assert front + [last] == vs;
    }
  }

  lemma ReadMpisStep(a: seq<byte>, b: seq<byte>, front: seq<nat>, last: nat, rest: seq<byte>)
    requires ReadMpis(a + (b + rest), |front|) == Some((front, b + rest))
    requires ReadMpi(b + rest) == Some((last, rest))
    ensures ReadMpis(a + b + rest, |front| + 1) == Some((front + [last], rest))
  {
    assert a + b + rest == a + (b + rest);
  }

  // The whole buffer serialize_mpi_array builds.
  function SerializedMpis(vs: seq<nat>): seq<byte>
  {
    WriteInt(|vs|) + WriteMpis(vs)
  }

  // What unserialize_mpi_array accepts; octets after the last MPI are not looked at.
  function UnserializedMpis(s: seq<byte>, expcount: nat): (r: Option<seq<nat>>)
    ensures r.Some? ==> |r.value| == expcount
  {
    match ReadInt(s)
    case None => None
    case Some((count, rest)) =>
      if count != expcount then None else
        match ReadMpis(rest, count)
        case None => None
        case Some((vs, _)) => Some(vs)
  }

  lemma SerializeRoundTrip(vs: seq<nat>, trailing: seq<byte>)
    requires |vs| < TWO32 && forall v :: v in vs ==> Printable(v)
    ensures UnserializedMpis(SerializedMpis(vs) + trailing, |vs|) == Some(vs)
    ensures forall n :: n != |vs| ==> UnserializedMpis(SerializedMpis(vs) + trailing, n) == None
  {
    assert SerializedMpis(vs) + trailing == WriteInt(|vs|) + (WriteMpis(vs) + trailing);
    ReadWriteInt(|vs|, WriteMpis(vs) + trailing);
    ReadWriteMpis(vs, trailing);
  }

  // ------------------------------------------ the loops that do the copying

  function TotalSize(vs: seq<nat>): nat
  {
    if vs == [] then 0 else TotalSize(vs[..|vs| - 1]) + |Mpi(vs[|vs| - 1])|
  }

  lemma {:induction false} WriteMpisLength(vs: seq<nat>)
    ensures |WriteMpis(vs)| == 4 * |vs| + TotalSize(vs)
  {
    if vs != [] {
      WriteMpisLength(vs[..|vs| - 1]);
    }
  }

  // What the buffer holds once the first i MPIs are written.
  ghost function Written(vs: seq<nat>, i: nat): seq<byte>
    requires i <= |vs|
  {
    WriteInt(|vs|) + WriteMpis(vs[..i])
  }

  lemma WrittenStep(vs: seq<nat>, i: nat)
    requires i < |vs|
    ensures Written(vs, i + 1) == Written(vs, i) + WriteMpi(vs[i])
  {
    assert vs[..i + 1][..i] == vs[..i];
  }

  lemma {:induction false} WrittenFits(vs: seq<nat>, i: nat)
    requires i <= |vs|
    ensures |Written(vs, i)| <= |Written(vs, |vs|)| == (|vs| + 1) * 4 + TotalSize(vs)
    decreases |vs| - i
  {
    if i < |vs| {
      WrittenStep(vs, i);
      WrittenFits(vs, i + 1);
    } else {
      assert vs[..i] == vs;
      WriteMpisLength(vs);
    }
  }

  // serialize_mpi_array: sizes first, then one pass that writes each length
  // and copies each printed MPI octet by octet.
  method SerializeMpiArray(mpis: seq<nat>) returns (buffer: array<byte>)
    ensures fresh(buffer)
    ensures buffer[..] == SerializedMpis(mpis)
  {
    var count := |mpis|;
    var totalsize := SumSizes(mpis);
    WrittenFits(mpis, 0);
    buffer := new byte[(count + 1) * 4 + totalsize](_ => 0);
    var bufp := WriteBufInt(buffer, 0, count);
    for i := 0 to count
      invariant bufp == |Written(mpis, i)| <= buffer.Length
      invariant buffer[..bufp] == Written(mpis, i)
    {
      WrittenStep(mpis, i);
      WrittenFits(mpis, i + 1);
      bufp := WriteBufMpi(buffer, bufp, mpis[i]);
    }
    assert mpis[..count] == mpis;
  }

  method SumSizes(mpis: seq<nat>) returns (totalsize: nat)
    ensures totalsize == TotalSize(mpis)
  {
    totalsize := 0;
    for i := 0 to |mpis|
      invariant totalsize == TotalSize(mpis[..i])
    {
      totalsize := totalsize + |Mpi(mpis[i])|;
      assert mpis[..i + 1][..i] == mpis[..i];
    }
    assert mpis[..|mpis|] == mpis;
  }

  // One length and the digits behind it, copied octet by octet.
  method WriteBufMpi(buffer: array<byte>, start: nat, v: nat) returns (bufp: nat)
    requires start + |WriteMpi(v)| <= buffer.Length
    modifies buffer
    ensures bufp == start + |WriteMpi(v)|
    ensures buffer[..bufp] == old(buffer[..start]) + WriteMpi(v)
  {
    var digits := Mpi(v);
    bufp := WriteBufInt(buffer, start, |digits|);
    ghost var done := buffer[..bufp];
    for j := 0 to |digits|
      invariant buffer[..bufp + j] == done + digits[..j]
    {
      buffer[bufp + j] := digits[j];
      assert buffer[..bufp + j + 1] == buffer[..bufp + j] + [digits[j]];
    }
    bufp := bufp + |digits|;
    assert digits[..|digits|] == digits;
  }

  // write_int at a cursor; the octets before the cursor stay as they are.
  method WriteBufInt(buf: array<byte>, bufp: nat, x: nat) returns (bufp': nat)
    requires bufp + 4 <= buf.Length
    modifies buf
    ensures bufp' == bufp + 4
    ensures buf[..bufp'] == old(buf[..bufp]) + WriteInt(x)
    ensures buf[bufp'..] == old(buf[bufp'..])
  {
    buf[bufp] := x / 0x100_0000 % 256;
    buf[bufp + 1] := x / 0x1_0000 % 256;
    buf[bufp + 2] := x / 0x100 % 256;
    buf[bufp + 3] := x % 256;
    bufp' := bufp + 4;
    WriteIntOctets(x);
  }

  lemma WriteIntOctets(x: nat)
    ensures WriteInt(x) == [x / 0x100_0000 % 256, x / 0x1_0000 % 256, x / 0x100 % 256, x % 256]
  {
    assert x / 256 / 256 == x / 0x1_0000 && x / 256 / 256 / 256 == x / 0x100_0000;
    assert Be(1, x / 256 / 256 / 256) == [x / 0x100_0000 % 256];
    assert Be(2, x / 256 / 256) == [x / 0x100_0000 % 256, x / 0x1_0000 % 256];
    assert Be(3, x / 256) == [x / 0x100_0000 % 256, x / 0x1_0000 % 256, x / 0x100 % 256];
  }

  // unserialize_mpi_array: the cursor moves forward through the buffer.
  method UnserializeMpiArray(expcount: nat, buffer: seq<byte>) returns (mpis: Option<seq<nat>>)
    ensures mpis == UnserializedMpis(buffer, expcount)
  {
    var head := ReadInt(buffer);
    if head.None? { return None; }
    var thecount, bufp := head.value.0, head.value.1;
    if thecount != expcount { return None; }
    var body := UnserializeBody(bufp, thecount);
    return if body.None? then None else Some(body.value.0);
  }

  method UnserializeBody(body: seq<byte>, thecount: nat) returns (r: Option<(seq<nat>, seq<byte>)>)
    ensures r == ReadMpis(body, thecount)
  {
    var bufp, vs: seq<nat> := body, [];
    for i := 0 to thecount
      invariant ReadMpis(body, i) == Some((vs, bufp))
    {
      var next := ReadMpi(bufp);
      if next.None? {
        assert ReadMpis(body, i + 1) == None;
        ReadMpisFails(body, i + 1, thecount);
        return None;
      }
      vs := vs + [next.value.0];
      bufp := next.value.1;
      assert ReadMpis(body, i + 1) == Some((vs, bufp));
    }
    return Some((vs, bufp));
  }

  lemma {:induction false} ReadMpisFails(s: seq<byte>, i: nat, n: nat)
    requires i <= n && ReadMpis(s, i) == None
    ensures ReadMpis(s, n) == None
  {
    if i < n {
      ReadMpisFails(s, i, n - 1);
    }
  }
}
