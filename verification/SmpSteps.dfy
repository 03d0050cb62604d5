// What the steps of the protocol let through: every octet string is either taken, and then
// its numbers are in range and every proof in it opens, or it leaves the state cheated.
module SmpSteps {
  import opened Bytes
  import opened ModArith
  import opened Serial
  import opened Smp
  import Group
  import SmpSound

  // a^d b^c: the commitment that a response d opens at the challenge c
  function Opened(gr: Group.Group, a: nat, d: nat, b: nat, c: nat): nat
    requires gr.p > 0
  {
    (Powm(a, d, gr.p) * Powm(b, c, gr.p)) % gr.p
  }

  // b^c (a^d e^f)
  function OpenedPair(gr: Group.Group, b: nat, c: nat, a: nat, d: nat, e: nat, f: nat): nat
    requires gr.p > 0
  {
    (Powm(b, c, gr.p) * Opened(gr, a, d, e, f)) % gr.p
  }

  // A number a message may carry as an element, and as a response
  predicate Element(gr: Group.Group, x: nat)
  {
    2 <= x <= gr.p - 2
  }

  predicate Response(gr: Group.Group, d: nat)
  {
    1 <= d < gr.q
  }

  function Generator(gr: Group.Group, st: State): nat
  {
    if st.g1.Some? then st.g1.value else gr.g
  }

  // Starting: a state not used before is set up first; a running one is overwritten in
  // what the first message depends on, and in nothing else.
  lemma Step1Starts(gr: Group.Group, h: Hash, st: State, secret: nat, rnd: Rnd1)
    requires Usable(gr)
    ensures var (st1, m) := Step1(gr, h, st, secret, rnd);
            var g1 := Generator(gr, st);
            && st1 == (if st.g1.Some? then st else State(0, 0, 0, Some(gr.g), 0, 0, 0, 0, 0, 0, 0, false, Ok))
                      .(secret := secret, x2 := rnd.x2, x3 := rnd.x3, receivedQuestion := false, prog := Ok)
            && |m| == 6 && m[0] == Powm(g1, rnd.x2, gr.p) && m[3] == Powm(g1, rnd.x3, gr.p)
            && m[1] == h(1, Powm(g1, rnd.r2, gr.p), None) && m[4] == h(2, Powm(g1, rnd.r3, gr.p), None)
            && (m[2] + rnd.x2 * m[1] - rnd.r2) % gr.q == 0 && (m[5] + rnd.x3 * m[4] - rnd.r3) % gr.q == 0
  {
    Responds(gr, rnd.r2, rnd.x2, h(1, Powm(Generator(gr, st), rnd.r2, gr.p), None));
    Responds(gr, rnd.r3, rnd.x3, h(2, Powm(Generator(gr, st), rnd.r3, gr.p), None));
  }

  // A response and the challenge times the secret add up to the random exponent.
  lemma Responds(gr: Group.Group, r: nat, x: nat, c: nat)
    requires Usable(gr)
    ensures (Smp.Response(gr, r, x, c) + x * c - r) % gr.q == 0
  {
    var q, y := gr.q, x * c;
    ModDivision(y, q);
    ModDivision(r - y % q, q);
    var k := y / q - (r - y % q) / q;
    assert Smp.Response(gr, r, x, c) + y - r == k * q by { MulDistr(y / q, -((r - y % q) / q), q); }
    ModAddMultiple(0, k, q);
  }

  // ----------------------------------------------------------- message 1

  predicate Good1(gr: Group.Group, h: Hash, g1: nat, m: seq<nat>)
    requires gr.p > 0 && |m| == 6
  {
    && Element(gr, m[0]) && Element(gr, m[3]) && Response(gr, m[2]) && Response(gr, m[5])
    && m[1] == h(1, Opened(gr, g1, m[2], m[0], m[1]), None)
    && m[4] == h(2, Opened(gr, g1, m[5], m[3], m[4]), None)
  }

  lemma Step2aTakes(gr: Group.Group, h: Hash, st: State, input: seq<byte>, question: bool, x2: nat, x3: nat)
    requires Usable(gr)
    ensures var m := UnserializedMpis(input, 6);
            var (st1, ok) := Step2a(gr, h, st, input, question, x2, x3);
            && (ok <==> m.Some? && Good1(gr, h, Generator(gr, st), m.value))
            && st1.prog == (if ok then Ok else Cheated) && st1.receivedQuestion == question
            && st1 == InitIfNeeded(gr, st).(x2 := st1.x2, x3 := st1.x3, g2 := st1.g2, g3 := st1.g3, g3o := st1.g3o,
                                            receivedQuestion := question, prog := st1.prog)
            && (ok ==> st1.x2 == x2 && st1.x3 == x3 && st1.g3o == m.value[3]
                       && st1.g2 == Powm(m.value[0], x2, gr.p) && st1.g3 == Powm(m.value[3], x3, gr.p))
  {
  }

  // The quotient of two elements
  function Over(gr: Group.Group, a: nat, b: nat): nat
    requires gr.p > 1
  {
    (a * Invm(b, gr.p)) % gr.p
  }

  // ----------------------------------------------------------- message 2

  predicate Good2(gr: Group.Group, h: Hash, g1: nat, g2: nat, g3: nat, m: seq<nat>)
    requires gr.p > 0 && |m| == 11
  {
    && Element(gr, m[0]) && Element(gr, m[3]) && Element(gr, m[6]) && Element(gr, m[7])
    && Response(gr, m[2]) && Response(gr, m[5]) && Response(gr, m[9]) && Response(gr, m[10])
    && m[1] == h(3, Opened(gr, g1, m[2], m[0], m[1]), None)
    && m[4] == h(4, Opened(gr, g1, m[5], m[3], m[4]), None)
    && m[8] == h(5, Opened(gr, g3, m[9], m[6], m[8]), Some(OpenedPair(gr, m[7], m[8], g1, m[9], g2, m[10])))
  }

  lemma Step3Takes(gr: Group.Group, h: Hash, st: State, input: seq<byte>, rnd: Rnd3)
    requires Usable(gr) && st.g1.Some?
    ensures var m := UnserializedMpis(input, 11);
            var (st1, reply) := Step3(gr, h, st, input, rnd);
            && (reply.Some? <==> m.Some? && Good2(gr, h, st.g1.value, Powm(m.value[0], st.x2, gr.p), Powm(m.value[3], st.x3, gr.p), m.value))
            && st1.prog == (if reply.Some? then Ok else Cheated)
            && (reply.Some? ==> st1.g2 == Powm(m.value[0], st.x2, gr.p) && st1.g3 == Powm(m.value[3], st.x3, gr.p) && st1.g3o == m.value[3])
            && (reply.Some? ==> Picked(gr, st1, rnd.r) && st1.pab == Over(gr, st1.p, m.value[6]) && st1.qab == Over(gr, st1.q, m.value[7]))
            && st1 == st.(g2 := st1.g2, g3 := st1.g3, g3o := st1.g3o, p := st1.p, q := st1.q, pab := st1.pab, qab := st1.qab, prog := st1.prog)
  {
  }

  // P = g3^r and Q = g1^r g2^secret
  predicate Picked(gr: Group.Group, st: State, r: nat)
    requires gr.p > 0
  {
    st.g1.Some? && st.p == Powm(st.g3, r, gr.p) && st.q == (Powm(st.g1.value, r, gr.p) * Powm(st.g2, st.secret, gr.p)) % gr.p
  }

  // Answering message 1 stores the secret, and P and Q.
  lemma Step2bPicks(gr: Group.Group, h: Hash, st: State, secret: nat, rnd: Rnd2)
    requires Usable(gr) && st.g1.Some?
    ensures var (st1, m) := Step2b(gr, h, st, secret, rnd);
            && Picked(gr, st1, rnd.r) && st1 == st.(secret := secret, p := st1.p, q := st1.q)
            && |m| == 11 && m[0] == Powm(st.g1.value, st.x2, gr.p) && m[3] == Powm(st.g1.value, st.x3, gr.p) && m[6] == st1.p && m[7] == st1.q
  {
  }

  // ----------------------------------------------------------- message 3

  predicate Good3(gr: Group.Group, h: Hash, st: State, g1: nat, qab: nat, m: seq<nat>)
    requires gr.p > 0 && |m| == 8
  {
    && Element(gr, m[0]) && Element(gr, m[1]) && Element(gr, m[5])
    && Response(gr, m[3]) && Response(gr, m[4]) && Response(gr, m[7])
    && m[2] == h(6, Opened(gr, st.g3, m[3], m[0], m[2]), Some(OpenedPair(gr, m[1], m[2], g1, m[3], st.g2, m[4])))
    && m[6] == h(7, Opened(gr, g1, m[7], st.g3o, m[6]), Some(Opened(gr, qab, m[7], m[5], m[6])))
  }

  lemma Step4Takes(gr: Group.Group, h: Hash, st: State, input: seq<byte>, r8: nat)
    requires Usable(gr) && st.g1.Some?
    ensures var m := UnserializedMpis(input, 8);
            var (st1, reply) := Step4(gr, h, st, input, r8);
            && (reply.Some? <==> m.Some? && Good3(gr, h, st, st.g1.value, Over(gr, m.value[1], st.q), m.value))
            && (reply.Some? ==> st1.pab == Over(gr, m.value[0], st.p) && st1.qab == Over(gr, m.value[1], st.q)
                                && reply.value[0] == Powm(st1.qab, st.x3, gr.p))
            && st1 == st.(pab := st1.pab, qab := st1.qab, prog := st1.prog)
            && st1.prog == (if reply.None? then Cheated
                            else if Powm(m.value[5], st.x3, gr.p) == Over(gr, m.value[0], st.p) then Succeeded else Failed)
  {
  }

  // ----------------------------------------------------------- message 4

  predicate Good4(gr: Group.Group, h: Hash, st: State, g1: nat, m: seq<nat>)
    requires gr.p > 0 && |m| == 3
  {
    && Element(gr, m[0]) && Response(gr, m[2])
    && m[1] == h(8, Opened(gr, g1, m[2], st.g3o, m[1]), Some(Opened(gr, st.qab, m[2], m[0], m[1])))
  }

  lemma Step5Takes(gr: Group.Group, h: Hash, st: State, input: seq<byte>)
    requires Usable(gr) && st.g1.Some?
    ensures var m := UnserializedMpis(input, 3);
            Step5(gr, h, st, input) == st.(prog :=
              if m.None? || !Good4(gr, h, st, st.g1.value, m.value) then Cheated
              else if Powm(m.value[0], st.x3, gr.p) == st.pab then Succeeded else Failed)
  {
  }

  // ------------------------------------------------ what a taken message proves

  // Two messages 1 with one first element, both taken, whose commitments agree under
  // challenges that differ: the sender holds the exponent of that element.
  lemma Step2aProves(gr: Group.Group, h: Hash, h': Hash, st: State, input: seq<byte>, input': seq<byte>, question: bool, x2: nat, x3: nat,
                     m: seq<nat>, m': seq<nat>)
    requires Group.GroupOK(gr) && Prime(gr.p) && Generator(gr, st) == gr.g
    requires UnserializedMpis(input, 6) == Some(m) && UnserializedMpis(input', 6) == Some(m') && m[0] == m'[0]
    requires Step2a(gr, h, st, input, question, x2, x3).1 && Step2a(gr, h', st, input', question, x2, x3).1
    requires Opened(gr, gr.g, m[2], m[0], m[1]) == Opened(gr, gr.g, m'[2], m'[0], m'[1]) && (m[1] - m'[1]) % gr.q != 0
    ensures SmpSound.UpToSign(gr, m[0], Powm(gr.g, SmpSound.Extracted(gr.q, m[1], m[2], m'[1], m'[2]), gr.p))
  {
    Step2aTakes(gr, h, st, input, question, x2, x3);
    Step2aTakes(gr, h', st, input', question, x2, x3);
    SmpSound.TwoTags(gr, gr.g, m[0], m[1], m[2], m'[1], m'[2]);
  }

  // Two messages 4 with one element, both answered with a verdict: it is the quotient of
  // the two Q to the exponent of Bob's third generator, but for the signs.
  lemma Step5Proves(gr: Group.Group, h: Hash, h': Hash, st: State, input: seq<byte>, input': seq<byte>, m: seq<nat>, m': seq<nat>)
    requires Group.GroupOK(gr) && Prime(gr.p) && st.g1 == Some(gr.g) && 0 < st.g3o < gr.p && 0 < st.qab < gr.p
    requires UnserializedMpis(input, 3) == Some(m) && UnserializedMpis(input', 3) == Some(m') && m[0] == m'[0]
    requires Step5(gr, h, st, input).prog != Cheated && Step5(gr, h', st, input').prog != Cheated
    requires Opened(gr, gr.g, m[2], st.g3o, m[1]) == Opened(gr, gr.g, m'[2], st.g3o, m'[1])
    requires Opened(gr, st.qab, m[2], m[0], m[1]) == Opened(gr, st.qab, m'[2], m'[0], m'[1]) && (m[1] - m'[1]) % gr.q != 0
    ensures var e := SmpSound.Extracted(gr.q, m[1], m[2], m'[1], m'[2]);
            && SmpSound.UpToSign(gr, st.g3o, Powm(gr.g, e, gr.p)) && SmpSound.UpToSign(gr, m[0], Powm(st.qab, e, gr.p))
  {
    Step5Takes(gr, h, st, input);
    Step5Takes(gr, h', st, input');
    SmpSound.TwoTags(gr, gr.g, st.g3o, m[1], m[2], m'[1], m'[2]);
    SmpSound.TwoTags(gr, st.qab, m[0], m[1], m[2], m'[1], m'[2]);
  }
}
