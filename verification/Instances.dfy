// Choosing among the instances of a correspondent (context.c): the loop compares message
// state and trust both at once, not one before the other.
module Instances {

  datatype MsgState = PLAINTEXT | ENCRYPTED | FINISHED

  // A context of the group: its state, whether its fingerprint is trusted, and when it
  // last received anything.
  datatype Instance = Instance(msgstate: MsgState, trusted: bool, lastrecv: nat)

  function Level(s: MsgState): nat
  {
    match s
    case PLAINTEXT => 0
    case FINISHED => 1
    case ENCRYPTED => 2
  }

  // At least as good in state and in trust
  predicate AtLeast(x: Instance, y: Instance)
  {
    Level(x.msgstate) >= Level(y.msgstate) && (y.trusted ==> x.trusted)
  }

  predicate Same(x: Instance, y: Instance)
  {
    x.msgstate == y.msgstate && x.trusted == y.trusted
  }

  // Better in one and no worse in the other
  predicate Beats(x: Instance, y: Instance)
  {
    AtLeast(x, y) && !Same(x, y)
  }

  // Nothing among the first n beats c, and nothing of the same level is more recent.
  predicate BestOf(group: seq<Instance>, n: nat, c: Instance)
    requires n <= |group|
  {
    forall j :: 0 <= j < n ==> !Beats(group[j], c) && (Same(group[j], c) ==> group[j].lastrecv <= c.lastrecv)
  }

  // Going through the group once, a context gives way to one that beats it, and to one of
  // its level that is no less recent.
  function Choice(group: seq<Instance>, n: nat, start: nat): (c: nat)
    requires n <= |group| && start < |group|
    ensures c < |group|
  {
    if n == 0 then start else
      var c := Choice(group, n - 1, start);
      var (x, y) := (group[n - 1], group[c]);
      if Beats(x, y) || (Same(x, y) && x.lastrecv >= y.lastrecv) then n - 1 else c
  }

  // otrl_context_find_recent_secure_instance on the contexts of one master, from any of them
  method FindRecentSecureInstance(group: seq<Instance>, context: nat) returns (cresult: nat)
    requires context < |group|
    ensures cresult < |group| && BestOf(group, |group|, group[cresult]) && AtLeast(group[cresult], group[context])
    ensures forall j :: cresult < j < |group| && Same(group[j], group[cresult]) ==> group[j].lastrecv < group[cresult].lastrecv
    ensures cresult == Choice(group, |group|, context)
  {
    cresult := context;
    for curp := 0 to |group|
      invariant cresult < |group| && BestOf(group, curp, group[cresult]) && AtLeast(group[cresult], group[context])
      invariant forall j :: cresult < j < curp && Same(group[j], group[cresult]) ==> group[j].lastrecv < group[cresult].lastrecv
      invariant cresult == Choice(group, curp, context)
    {
      var best, cur := group[cresult], group[curp];
      var stateImproved, trustImproved := false, false;
      if best.msgstate == cur.msgstate {
      } else if cur.msgstate == ENCRYPTED || (best.msgstate == PLAINTEXT && cur.msgstate == FINISHED) {
        stateImproved := true;
      } else {
        continue;
      }
      if best.trusted == cur.trusted {
      } else if cur.trusted {
        trustImproved := true;
      } else {
        continue;
      }
      if stateImproved || trustImproved || cur.lastrecv >= best.lastrecv {
        cresult := curp;
      }
    }
  }

  // At least as good as all of the group, in both
  predicate Top(group: seq<Instance>, best: nat)
    requires best < |group|
  {
    forall j :: 0 <= j < |group| ==> AtLeast(group[best], group[j])
  }

  // If one instance is at least as good as all others in both, the call finds one of its
  // level wherever it starts, and among those the most recent.
  lemma BestFound(group: seq<Instance>, best: nat, r: nat)
    requires best < |group| && r < |group| && BestOf(group, |group|, group[r]) && Top(group, best)
    ensures Same(group[r], group[best])
    ensures forall j :: 0 <= j < |group| && Same(group[j], group[best]) ==> group[j].lastrecv <= group[r].lastrecv
  {
    assert AtLeast(group[best], group[r]) && !Beats(group[best], group[r]);
  }

  // A call from an instance that nothing beats finds one of its level: where there are
  // two such levels, the result depends on the start.
  lemma StaysAtLevel(group: seq<Instance>, context: nat, r: nat)
    requires context < |group| && r < |group| && BestOf(group, |group|, group[r]) && AtLeast(group[r], group[context])
    requires forall j :: 0 <= j < |group| ==> !Beats(group[j], group[context])
    ensures Same(group[r], group[context])
  {
    assert !Beats(group[r], group[context]);
  }

  // What calls from every start of the group returned, by the contract of the call
  predicate Returned(group: seq<Instance>, rs: seq<nat>)
  {
    && |rs| == |group|
    && forall i :: 0 <= i < |rs| ==> rs[i] < |group| && BestOf(group, |group|, group[rs[i]]) && AtLeast(group[rs[i]], group[i])
  }

  // The level of the result is independent of the start exactly when some instance is at
  // least as good as all others.
  lemma OneLevel(group: seq<Instance>, rs: seq<nat>)
    requires |group| > 0 && Returned(group, rs)
    ensures (exists b: nat :: b < |group| && Top(group, b))
            <==> forall i, k :: 0 <= i < |rs| && 0 <= k < |rs| ==> Same(group[rs[i]], group[rs[k]])
  {
    if b: nat :| b < |group| && Top(group, b) {
      forall i | 0 <= i < |rs| ensures Same(group[rs[i]], group[b]) { BestFound(group, b, rs[i]); }
    }
    if forall i, k :: 0 <= i < |rs| && 0 <= k < |rs| ==> Same(group[rs[i]], group[rs[k]]) {
      forall j | 0 <= j < |group| ensures AtLeast(group[rs[0]], group[j]) {
        assert Same(group[rs[0]], group[rs[j]]) && AtLeast(group[rs[j]], group[j]);
      }
      assert Top(group, rs[0]);
    }
  }

  // For instance an encrypted session that is not trusted, and a trusted one that ended.
  method TwoAnswers(t: nat) returns (group: seq<Instance>, r: nat, s: nat)
    ensures r == 0 && s == 1 && |group| == 2
  {
    group := [Instance(ENCRYPTED, false, t), Instance(FINISHED, true, t)];
    r := FindRecentSecureInstance(group, 0);
    StaysAtLevel(group, 0, r);
    s := FindRecentSecureInstance(group, 1);
    StaysAtLevel(group, 1, s);
  }
}
