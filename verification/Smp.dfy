// The Socialist Millionaires' Protocol (sm.c): the state each side keeps, the
// zero-knowledge proofs, and the five steps.  The hash is any function, random
// exponents are arguments, and the group is any Group.
module Smp {
  import opened Bytes
  import opened Serial
  import opened ModArith
  import opened Group

  datatype Prog = Ok | Cheated | Failed | Succeeded

  // otrl_sm_hash(version, a, b): b is absent when one MPI is hashed.
  type Hash = (nat, nat, Option<nat>) -> nat

  // OtrlSMState; g1 is the NULL-able generator that marks an initialised state.
  datatype State = State(
    secret: nat, x2: nat, x3: nat, g1: Option<nat>, g2: nat, g3: nat, g3o: nat,
    p: nat, q: nat, pab: nat, qab: nat, receivedQuestion: bool, prog: Prog)

  // otrl_sm_state_init
  function Initialised(gr: Group, st: State): State
  {
    State(0, 0, 0, Some(gr.g), 0, 0, 0, 0, 0, 0, 0, false, Ok)
  }

  function InitIfNeeded(gr: Group, st: State): State
  {
    if st.g1.None? then Initialised(gr, st) else st
  }

  predicate Usable(gr: Group)
  {
    gr.p > 2 && gr.q > 0
  }

  // ----------------------------------------------------------- range checks

  predicate GroupElem(gr: Group, g: nat)
  {
    2 <= g && g + 2 <= gr.p
  }

  predicate Expon(gr: Group, x: nat)
  {
    1 <= x < gr.q
  }

  // -------------------------------------------------- zero-knowledge proofs

  // c = h(g^r), d = r - x c
  function ProveKnowLog(gr: Group, h: Hash, g: nat, x: nat, r: nat, version: nat): (nat, nat)
    requires Usable(gr)
  {
    var c := h(version, Powm(g, r, gr.p), None);
    (c, Response(gr, r, x, c))
  }

  // gcry_mpi_mulm then gcry_mpi_subm, both modulo the order
  function Response(gr: Group, r: nat, x: nat, c: nat): (d: nat)
    requires Usable(gr)
    ensures d < gr.q
  {
    (r - (x * c) % gr.q) % gr.q
  }

  // What the check hashes: the prover's commitment, recomputed from its response.
  function KnowLogTag(gr: Group, c: nat, d: nat, g: nat, x: nat): nat
    requires Usable(gr)
  {
    (Powm(g, d, gr.p) * Powm(x, c, gr.p)) % gr.p
  }

  predicate KnowsLog(gr: Group, h: Hash, c: nat, d: nat, g: nat, x: nat, version: nat)
    requires Usable(gr)
  {
    h(version, KnowLogTag(gr, c, d, g, x), None) == c
  }

  // c = h(g3^r1, g1^r1 g2^r2), d1 = r1 - r c, d2 = r2 - secret c
  function ProveEqualCoords(gr: Group, h: Hash, st: State, r: nat, r1: nat, r2: nat, version: nat): (nat, nat, nat)
    requires Usable(gr) && st.g1.Some?
  {
    var c := h(version, Powm(st.g3, r1, gr.p),
               Some((Powm(st.g1.value, r1, gr.p) * Powm(st.g2, r2, gr.p)) % gr.p));
    (c, Response(gr, r1, r, c), Response(gr, r2, st.secret, c))
  }

  function EqualCoordsTag(gr: Group, c: nat, d1: nat, d2: nat, p: nat, q: nat, st: State): (nat, nat)
    requires Usable(gr) && st.g1.Some?
  {
    ((Powm(st.g3, d1, gr.p) * Powm(p, c, gr.p)) % gr.p,
     (Powm(q, c, gr.p) * ((Powm(st.g1.value, d1, gr.p) * Powm(st.g2, d2, gr.p)) % gr.p)) % gr.p)
  }

  predicate EqualCoords(gr: Group, h: Hash, c: nat, d1: nat, d2: nat, p: nat, q: nat, st: State, version: nat)
    requires Usable(gr) && st.g1.Some?
  {
    var tag := EqualCoordsTag(gr, c, d1, d2, p, q, st);
    c == h(version, tag.0, Some(tag.1))
  }

  // c = h(g1^r, qab^r), d = r - x3 c
  function ProveEqualLogs(gr: Group, h: Hash, st: State, r: nat, version: nat): (nat, nat)
    requires Usable(gr) && st.g1.Some?
  {
    var c := h(version, Powm(st.g1.value, r, gr.p), Some(Powm(st.qab, r, gr.p)));
    (c, Response(gr, r, st.x3, c))
  }

  function EqualLogsTag(gr: Group, c: nat, d: nat, r: nat, st: State): (nat, nat)
    requires Usable(gr) && st.g1.Some?
  {
    ((Powm(st.g1.value, d, gr.p) * Powm(st.g3o, c, gr.p)) % gr.p,
     (Powm(st.qab, d, gr.p) * Powm(r, c, gr.p)) % gr.p)
  }

  predicate EqualLogs(gr: Group, h: Hash, c: nat, d: nat, r: nat, st: State, version: nat)
    requires Usable(gr) && st.g1.Some?
  {
    var tag := EqualLogsTag(gr, c, d, r, st);
    c == h(version, tag.0, Some(tag.1))
  }

  // ------------------------------------------------------------- messages

  const MSG1_LEN := 6
  const MSG2_LEN := 11
  const MSG3_LEN := 8
  const MSG4_LEN := 3

  predicate InRange1(gr: Group, m: seq<nat>)
    requires |m| == MSG1_LEN
  {
    GroupElem(gr, m[0]) && Expon(gr, m[2]) && GroupElem(gr, m[3]) && Expon(gr, m[5])
  }

  predicate InRange2(gr: Group, m: seq<nat>)
    requires |m| == MSG2_LEN
  {
    && GroupElem(gr, m[0]) && GroupElem(gr, m[3]) && GroupElem(gr, m[6]) && GroupElem(gr, m[7])
    && Expon(gr, m[2]) && Expon(gr, m[5]) && Expon(gr, m[9]) && Expon(gr, m[10])
  }

  predicate InRange3(gr: Group, m: seq<nat>)
    requires |m| == MSG3_LEN
  {
    && GroupElem(gr, m[0]) && GroupElem(gr, m[1]) && GroupElem(gr, m[5])
    && Expon(gr, m[3]) && Expon(gr, m[4]) && Expon(gr, m[7])
  }

  predicate InRange4(gr: Group, m: seq<nat>)
    requires |m| == MSG4_LEN
  {
    GroupElem(gr, m[0]) && Expon(gr, m[2])
  }

  // ---------------------------------------------------------------- steps

  datatype Rnd1 = Rnd1(x2: nat, x3: nat, r2: nat, r3: nat)
  datatype Rnd2 = Rnd2(r2: nat, r3: nat, r: nat, r5: nat, r6: nat)
  datatype Rnd3 = Rnd3(r: nat, r5: nat, r6: nat, r7: nat)

  function Step1(gr: Group, h: Hash, st0: State, secret: nat, rnd: Rnd1): (State, seq<nat>)
    requires Usable(gr)
  {
    var st := InitIfNeeded(gr, st0);
    var st' := st.(secret := secret, receivedQuestion := false, x2 := rnd.x2, x3 := rnd.x3, prog := Ok);
    var g1 := st.g1.value;
    var (c2, d2) := ProveKnowLog(gr, h, g1, rnd.x2, rnd.r2, 1);
    var (c3, d3) := ProveKnowLog(gr, h, g1, rnd.x3, rnd.r3, 2);
    (st', [Powm(g1, rnd.x2, gr.p), c2, d2, Powm(g1, rnd.x3, gr.p), c3, d3])
  }

  // The second component says whether the step returned without an error.
  function Step2a(gr: Group, h: Hash, st0: State, input: seq<byte>, question: bool, x2: nat, x3: nat): (State, bool)
    requires Usable(gr)
  {
    var st := InitIfNeeded(gr, st0).(receivedQuestion := question, prog := Cheated);
    match UnserializedMpis(input, MSG1_LEN)
    case None => (st, false)
    case Some(m) => if InRange1(gr, m) then AcceptMsg1(gr, h, st, m, x2, x3) else (st, false)
  }

  function AcceptMsg1(gr: Group, h: Hash, st: State, m: seq<nat>, x2: nat, x3: nat): (State, bool)
    requires Usable(gr) && st.g1.Some? && |m| == MSG1_LEN
  {
    var st1 := st.(g3o := m[3]);
    if !KnowsLog(gr, h, m[1], m[2], st.g1.value, m[0], 1) || !KnowsLog(gr, h, m[4], m[5], st.g1.value, m[3], 2) then
      (st1, false)
    else
      (st1.(x2 := x2, x3 := x3, g2 := Powm(m[0], x2, gr.p), g3 := Powm(m[3], x3, gr.p), prog := Ok), true)
  }

  function Step2b(gr: Group, h: Hash, st: State, secret: nat, rnd: Rnd2): (State, seq<nat>)
    requires Usable(gr) && st.g1.Some?
  {
    var g1 := st.g1.value;
    var (c2, d2) := ProveKnowLog(gr, h, g1, st.x2, rnd.r2, 3);
    var (c3, d3) := ProveKnowLog(gr, h, g1, st.x3, rnd.r3, 4);
    var st' := PickPQ(gr, st.(secret := secret), rnd.r);
    var (cp, d5, d6) := ProveEqualCoords(gr, h, st', rnd.r, rnd.r5, rnd.r6, 5);
    (st', [Powm(g1, st.x2, gr.p), c2, d2, Powm(g1, st.x3, gr.p), c3, d3, st'.p, st'.q, cp, d5, d6])
  }

  // P = g3^r, Q = g1^r g2^secret
  function PickPQ(gr: Group, st: State, r: nat): State
    requires Usable(gr) && st.g1.Some?
  {
    st.(p := Powm(st.g3, r, gr.p),
        q := (Powm(st.g1.value, r, gr.p) * Powm(st.g2, st.secret, gr.p)) % gr.p)
  }

  function Step3(gr: Group, h: Hash, st0: State, input: seq<byte>, rnd: Rnd3): (State, Option<seq<nat>>)
    requires Usable(gr) && st0.g1.Some?
  {
    var st := st0.(prog := Cheated);
    match UnserializedMpis(input, MSG2_LEN)
    case None => (st, None)
    case Some(m) => if InRange2(gr, m) then AcceptMsg2(gr, h, st, m, rnd) else (st, None)
  }

  function AcceptMsg2(gr: Group, h: Hash, st: State, m: seq<nat>, rnd: Rnd3): (State, Option<seq<nat>>)
    requires Usable(gr) && st.g1.Some? && |m| == MSG2_LEN
  {
    var (st2, ok) := CheckMsg2(gr, h, st, m);
    if !ok then (st2, None) else
      var (st4, reply) := ReplyMsg2(gr, h, st2, m[6], m[7], rnd);
      (st4, Some(reply))
  }

  // Everything step 3 checks before Alice picks her own P and Q.
  function CheckMsg2(gr: Group, h: Hash, st: State, m: seq<nat>): (r: (State, bool))
    requires Usable(gr) && st.g1.Some? && |m| == MSG2_LEN
    ensures r.0.g1 == st.g1
  {
    var st1 := st.(g3o := m[3]);
    if !KnowsLog(gr, h, m[1], m[2], st.g1.value, m[0], 3) || !KnowsLog(gr, h, m[4], m[5], st.g1.value, m[3], 4) then
      (st1, false)
    else
      var st2 := st1.(g2 := Powm(m[0], st.x2, gr.p), g3 := Powm(m[3], st.x3, gr.p));
      (st2, EqualCoords(gr, h, m[8], m[9], m[10], m[6], m[7], st2, 5))
  }

  function ReplyMsg2(gr: Group, h: Hash, st: State, pb: nat, qb: nat, rnd: Rnd3): (State, seq<nat>)
    requires Usable(gr) && st.g1.Some?
  {
    var st3 := PickPQ(gr, st, rnd.r);
    var (cp, d5, d6) := ProveEqualCoords(gr, h, st3, rnd.r, rnd.r5, rnd.r6, 6);
    var st4 := Divide(gr, st3, st3.p, pb, st3.q, qb);
    var (cr, d7) := ProveEqualLogs(gr, h, st4, rnd.r7, 7);
    (st4.(prog := Ok), [st3.p, st3.q, cp, d5, d6, Powm(st4.qab, st4.x3, gr.p), cr, d7])
  }

  // Pa/Pb and Qa/Qb
  function Divide(gr: Group, st: State, pa: nat, pb: nat, qa: nat, qb: nat): State
    requires Usable(gr)
  {
    st.(pab := (pa * Invm(pb, gr.p)) % gr.p, qab := (qa * Invm(qb, gr.p)) % gr.p)
  }

  // The message is produced whatever the verdict; the verdict is in prog.
  function Step4(gr: Group, h: Hash, st0: State, input: seq<byte>, r8: nat): (State, Option<seq<nat>>)
    requires Usable(gr) && st0.g1.Some?
  {
    var st := st0.(prog := Cheated);
    match UnserializedMpis(input, MSG3_LEN)
    case None => (st, None)
    case Some(m) => if InRange3(gr, m) then AcceptMsg3(gr, h, st, m, r8) else (st, None)
  }

  function AcceptMsg3(gr: Group, h: Hash, st: State, m: seq<nat>, r8: nat): (State, Option<seq<nat>>)
    requires Usable(gr) && st.g1.Some? && |m| == MSG3_LEN
  {
    if !EqualCoords(gr, h, m[2], m[3], m[4], m[0], m[1], st, 6) then (st, None) else
      var st1 := Divide(gr, st, m[0], st.p, m[1], st.q);
      if !EqualLogs(gr, h, m[6], m[7], m[5], st1, 7) then (st1, None) else
        var (cr, d7) := ProveEqualLogs(gr, h, st1, r8, 8);
        (Verdict(gr, st1, m[5]), Some([Powm(st1.qab, st1.x3, gr.p), cr, d7]))
  }

  // Rab = R^x3 against Pa/Pb
  function Verdict(gr: Group, st: State, r: nat): State
    requires Usable(gr)
  {
    st.(prog := if Powm(r, st.x3, gr.p) == st.pab then Succeeded else Failed)
  }

  function Step5(gr: Group, h: Hash, st0: State, input: seq<byte>): State
    requires Usable(gr) && st0.g1.Some?
  {
    var st := st0.(prog := Cheated);
    match UnserializedMpis(input, MSG4_LEN)
    case None => st
    case Some(m) =>
      if !InRange4(gr, m) || !EqualLogs(gr, h, m[1], m[2], m[0], st, 8) then st else Verdict(gr, st, m[0])
  }

  // --------------------------------------------- the state updated in place

  class OtrlSMState {
    var secret: nat
    var x2: nat
    var x3: nat
    var g1: Option<nat>
    var g2: nat
    var g3: nat
    var g3o: nat
    var p: nat
    var q: nat
    var pab: nat
    var qab: nat
    var receivedQuestion: bool
    var prog: Prog

    function Now(): State
      reads this
    {
      State(secret, x2, x3, g1, g2, g3, g3o, p, q, pab, qab, receivedQuestion, prog)
    }

    // otrl_sm_state_new
    constructor ()
      ensures Now() == State(0, 0, 0, None, 0, 0, 0, 0, 0, 0, 0, false, Ok)
    {
      secret, x2, x3, g1, g2, g3, g3o := 0, 0, 0, None, 0, 0, 0;
      p, q, pab, qab, receivedQuestion, prog := 0, 0, 0, 0, false, Ok;
    }

    method StateInit(gr: Group)
      modifies this
      ensures Now() == Initialised(gr, old(Now()))
    {
      secret, x2, x3, g1 := 0, 0, 0, Some(gr.g);
      ClearGroup();
      ClearPoints();
      receivedQuestion, prog := false, Ok;
    }

    method ClearPoints()
      modifies this
      ensures Now() == old(Now()).(p := 0, q := 0, pab := 0, qab := 0)
    {
      p, q, pab, qab := 0, 0, 0, 0;
    }

    method ClearGroup()
      modifies this
      ensures Now() == old(Now()).(g2 := 0, g3 := 0, g3o := 0)
    {
      g2, g3, g3o := 0, 0, 0;
    }

    method DoStep1(gr: Group, h: Hash, secretMpi: nat, rnd: Rnd1) returns (output: array<byte>)
      requires Usable(gr)
      modifies this
      ensures var (st, msg) := Step1(gr, h, old(Now()), secretMpi, rnd);
              Now() == st && output[..] == SerializedMpis(msg)
    {
      if g1.None? { StateInit(gr); }
      secret := secretMpi;
      receivedQuestion := false;
      x2 := rnd.x2;
      x3 := rnd.x3;
      var g2a := Powm(g1.value, x2, gr.p);
      var (c2, d2) := ProveKnowLog(gr, h, g1.value, x2, rnd.r2, 1);
      var g3a := Powm(g1.value, x3, gr.p);
      var (c3, d3) := ProveKnowLog(gr, h, g1.value, x3, rnd.r3, 2);
      output := SerializeMpiArray([g2a, c2, d2, g3a, c3, d3]);
      prog := Ok;
    }

    method DoStep2a(gr: Group, h: Hash, input: seq<byte>, question: bool, rx2: nat, rx3: nat) returns (ok: bool)
      requires Usable(gr)
      modifies this
      ensures (Now(), ok) == Step2a(gr, h, old(Now()), input, question, rx2, rx3)
    {
      if g1.None? { StateInit(gr); }
      receivedQuestion := question;
      prog := Cheated;
      var msg1 := UnserializeMpiArray(MSG1_LEN, input);
      if msg1.None? { return false; }
      if !InRange1(gr, msg1.value) { return false; }
      ok := TakeMsg1(gr, h, msg1.value, rx2, rx3);
    }

    method TakeMsg1(gr: Group, h: Hash, m: seq<nat>, rx2: nat, rx3: nat) returns (ok: bool)
      requires Usable(gr) && g1.Some? && |m| == MSG1_LEN
      modifies this
      ensures (Now(), ok) == AcceptMsg1(gr, h, old(Now()), m, rx2, rx3)
    {
      g3o := m[3];
      if !KnowsLog(gr, h, m[1], m[2], g1.value, m[0], 1) { return false; }
      if !KnowsLog(gr, h, m[4], m[5], g1.value, m[3], 2) { return false; }
      x2 := rx2;
      x3 := rx3;
      g2 := Powm(m[0], x2, gr.p);
      g3 := Powm(m[3], x3, gr.p);
      prog := Ok;
      return true;
    }

    method DoStep2b(gr: Group, h: Hash, secretMpi: nat, rnd: Rnd2) returns (output: array<byte>)
      requires Usable(gr) && g1.Some?
      modifies this
      ensures var (st, msg) := Step2b(gr, h, old(Now()), secretMpi, rnd);
              Now() == st && output[..] == SerializedMpis(msg)
    {
      secret := secretMpi;
      var g2b := Powm(g1.value, x2, gr.p);
      var (c2, d2) := ProveKnowLog(gr, h, g1.value, x2, rnd.r2, 3);
      var g3b := Powm(g1.value, x3, gr.p);
      var (c3, d3) := ProveKnowLog(gr, h, g1.value, x3, rnd.r3, 4);
      p := Powm(g3, rnd.r, gr.p);
      var qb1 := Powm(g1.value, rnd.r, gr.p);
      var qb2 := Powm(g2, secret, gr.p);
      q := (qb1 * qb2) % gr.p;
      var (cp, d5, d6) := ProveEqualCoords(gr, h, Now(), rnd.r, rnd.r5, rnd.r6, 5);
      output := SerializeMpiArray([g2b, c2, d2, g3b, c3, d3, p, q, cp, d5, d6]);
    }

    method DoStep3(gr: Group, h: Hash, input: seq<byte>, rnd: Rnd3) returns (output: Option<array<byte>>)
      requires Usable(gr) && g1.Some?
      modifies this
      ensures var (st, msg) := Step3(gr, h, old(Now()), input, rnd);
              && Now() == st && output.Some? == msg.Some?
              && (output.Some? ==> output.value[..] == SerializedMpis(msg.value))
    {
      prog := Cheated;
      var msg2 := UnserializeMpiArray(MSG2_LEN, input);
      if msg2.None? { return None; }
      var m := msg2.value;
      if !InRange2(gr, m) { return None; }
      var ok := TakeMsg2(gr, h, m);
      if !ok { return None; }
      var out := SendMsg3(gr, h, m[6], m[7], rnd);
      return Some(out);
    }

    method TakeMsg2(gr: Group, h: Hash, m: seq<nat>) returns (ok: bool)
      requires Usable(gr) && g1.Some? && |m| == MSG2_LEN
      modifies this
      ensures (Now(), ok) == CheckMsg2(gr, h, old(Now()), m)
    {
      g3o := m[3];
      if !KnowsLog(gr, h, m[1], m[2], g1.value, m[0], 3) { return false; }
      if !KnowsLog(gr, h, m[4], m[5], g1.value, m[3], 4) { return false; }
      g2 := Powm(m[0], x2, gr.p);
      g3 := Powm(m[3], x3, gr.p);
      ok := EqualCoords(gr, h, m[8], m[9], m[10], m[6], m[7], Now(), 5);
    }

    method SendMsg3(gr: Group, h: Hash, pb: nat, qb: nat, rnd: Rnd3) returns (output: array<byte>)
      requires Usable(gr) && g1.Some?
      modifies this
      ensures var (st, msg) := ReplyMsg2(gr, h, old(Now()), pb, qb, rnd);
              Now() == st && output[..] == SerializedMpis(msg)
    {
      p := Powm(g3, rnd.r, gr.p);
      var qa1 := Powm(g1.value, rnd.r, gr.p);
      var qa2 := Powm(g2, secret, gr.p);
      q := (qa1 * qa2) % gr.p;
      var (cp, d5, d6) := ProveEqualCoords(gr, h, Now(), rnd.r, rnd.r5, rnd.r6, 6);
      var inv := Invm(pb, gr.p);
      pab := (p * inv) % gr.p;
      inv := Invm(qb, gr.p);
      qab := (q * inv) % gr.p;
      var ra := Powm(qab, x3, gr.p);
      var (cr, d7) := ProveEqualLogs(gr, h, Now(), rnd.r7, 7);
      output := SerializeMpiArray([p, q, cp, d5, d6, ra, cr, d7]);
      prog := Ok;
    }

    method DoStep4(gr: Group, h: Hash, input: seq<byte>, r8: nat) returns (output: Option<array<byte>>, comp: bool)
      requires Usable(gr) && g1.Some?
      modifies this
      ensures var (st, msg) := Step4(gr, h, old(Now()), input, r8);
              && Now() == st && output.Some? == msg.Some?
              && (output.Some? ==> output.value[..] == SerializedMpis(msg.value))
              && comp == (st.prog == Succeeded)
    {
      prog := Cheated;
      var msg3 := UnserializeMpiArray(MSG3_LEN, input);
      if msg3.None? { return None, false; }
      var m := msg3.value;
      if !InRange3(gr, m) { return None, false; }
      if !EqualCoords(gr, h, m[2], m[3], m[4], m[0], m[1], Now(), 6) { return None, false; }
      var inv := Invm(p, gr.p);
      pab := (m[0] * inv) % gr.p;
      inv := Invm(q, gr.p);
      qab := (m[1] * inv) % gr.p;
      if !EqualLogs(gr, h, m[6], m[7], m[5], Now(), 7) { return None, false; }
      var rb := Powm(qab, x3, gr.p);
      var (cr, d7) := ProveEqualLogs(gr, h, Now(), r8, 8);
      var out := SerializeMpiArray([rb, cr, d7]);
      var rab := Powm(m[5], x3, gr.p);
      comp := rab == pab;
      prog := if comp then Succeeded else Failed;
      return Some(out), comp;
    }

    method DoStep5(gr: Group, h: Hash, input: seq<byte>) returns (comp: bool)
      requires Usable(gr) && g1.Some?
      modifies this
      ensures Now() == Step5(gr, h, old(Now()), input)
      ensures comp == (prog == Succeeded)
    {
      prog := Cheated;
      var msg4 := UnserializeMpiArray(MSG4_LEN, input);
      if msg4.None? { return false; }
      var m := msg4.value;
      if !InRange4(gr, m) { return false; }
      if !EqualLogs(gr, h, m[1], m[2], m[0], Now(), 8) { return false; }
      var rab := Powm(m[0], x3, gr.p);
      comp := rab == pab;
      prog := if comp then Succeeded else Failed;
    }
  }
}
