// The list of contexts of a user state (context.c): linked in place, with back pointers,
// sorted by names and instance.
module ContextList {
  import opened Instances

  // ----------------------------------------------------------- the order

  // strcmp
  function Cmp(s: string, t: string): int
  {
    if s == [] then (if t == [] then 0 else -1) else
    if t == [] then 1 else
    if s[0] == t[0] then Cmp(s[1..], t[1..]) else if s[0] < t[0] then -1 else 1
  }

  lemma {:induction false} CmpSound(s: string, t: string)
    ensures Cmp(s, t) == 0 <==> s == t
    ensures (Cmp(s, t) > 0 <==> Cmp(t, s) < 0) && (Cmp(s, t) < 0 <==> Cmp(t, s) > 0)
    decreases |s|
  {
    if s != [] && t != [] && s[0] == t[0] {
      CmpSound(s[1..], t[1..]);
      assert s == [s[0]] + s[1..] && t == [t[0]] + t[1..];
    }
  }

  lemma {:induction false} CmpTransitive(s: string, t: string, u: string)
    requires Cmp(s, t) < 0 && Cmp(t, u) < 0
    ensures Cmp(s, u) < 0
    decreases |s|
  {
    if s != [] && t != [] && u != [] && s[0] == t[0] == u[0] {
      CmpTransitive(s[1..], t[1..], u[1..]);
    }
  }

  datatype Names = Names(user: string, account: string, protocol: string)
  datatype Key = Key(names: Names, instance: nat)

  function CmpNames(a: Names, b: Names): int
  {
    if Cmp(a.user, b.user) != 0 then Cmp(a.user, b.user) else
    if Cmp(a.account, b.account) != 0 then Cmp(a.account, b.account) else Cmp(a.protocol, b.protocol)
  }

  function CmpKey(a: Key, b: Key): int
  {
    if CmpNames(a.names, b.names) != 0 then CmpNames(a.names, b.names) else a.instance - b.instance
  }

  predicate Less(a: Key, b: Key)
  {
    CmpKey(a, b) < 0
  }

  lemma NamesSound(a: Names, b: Names)
    ensures CmpNames(a, b) == 0 <==> a == b
    ensures (CmpNames(a, b) > 0 <==> CmpNames(b, a) < 0) && (CmpNames(a, b) < 0 <==> CmpNames(b, a) > 0)
  {
    CmpSound(a.user, b.user);
    CmpSound(a.account, b.account);
    CmpSound(a.protocol, b.protocol);
  }

  lemma NamesTransitive(a: Names, b: Names, c: Names)
    requires CmpNames(a, b) < 0 && CmpNames(b, c) < 0
    ensures CmpNames(a, c) < 0
  {
    CmpSound(a.user, b.user);
    CmpSound(b.user, c.user);
    CmpSound(a.account, b.account);
    CmpSound(b.account, c.account);
    if Cmp(a.user, b.user) < 0 && Cmp(b.user, c.user) < 0 { CmpTransitive(a.user, b.user, c.user); }
    if Cmp(a.account, b.account) < 0 && Cmp(b.account, c.account) < 0 { CmpTransitive(a.account, b.account, c.account); }
    if Cmp(a.protocol, b.protocol) < 0 && Cmp(b.protocol, c.protocol) < 0 { CmpTransitive(a.protocol, b.protocol, c.protocol); }
  }

  lemma KeySound(a: Key, b: Key)
    ensures Less(a, b) || a == b || Less(b, a)
    ensures !(Less(a, b) && Less(b, a)) && !Less(a, a)
  {
    NamesSound(a.names, b.names);
    NamesSound(a.names, a.names);
  }

  lemma LessTransitive(a: Key, b: Key, c: Key)
    requires Less(a, b) && Less(b, c)
    ensures Less(a, c)
  {
    NamesSound(a.names, b.names);
    NamesSound(b.names, c.names);
    if CmpNames(a.names, b.names) != 0 && CmpNames(b.names, c.names) != 0 {
      NamesTransitive(a.names, b.names, c.names);
    }
  }

  // Where s and t first differ s has the lesser character, or it ends.
  ghost predicate Precedes(s: string, t: string)
  {
    exists k: nat :: DiffersAt(s, t, k)
  }

  predicate DiffersAt(s: string, t: string, k: nat)
  {
    k <= |s| && k < |t| && (forall i :: 0 <= i < k ==> s[i] == t[i]) && (k == |s| || s[k] < t[k])
  }

  lemma {:induction false} CmpIs(s: string, t: string)
    ensures Cmp(s, t) < 0 <==> Precedes(s, t)
    decreases |s|
  {
    if s == [] || t == [] || s[0] != t[0] {
      if Cmp(s, t) < 0 { assert DiffersAt(s, t, 0); }
    } else {
      CmpIs(s[1..], t[1..]);
      if k: nat :| DiffersAt(s[1..], t[1..], k) {
        assert DiffersAt(s, t, k + 1);
      }
      if k: nat :| DiffersAt(s, t, k) {
        assert DiffersAt(s[1..], t[1..], k - 1);
      }
    }
  }

  // The order of the list: by user, then account, then protocol, then instance
  lemma OrderIs(a: Key, b: Key)
    ensures Less(a, b) <==>
            || Precedes(a.names.user, b.names.user)
            || (a.names.user == b.names.user && Precedes(a.names.account, b.names.account))
            || (a.names.user == b.names.user && a.names.account == b.names.account && Precedes(a.names.protocol, b.names.protocol))
            || (a.names == b.names && a.instance < b.instance)
  {
    CmpIs(a.names.user, b.names.user);
    CmpIs(a.names.account, b.names.account);
    CmpIs(a.names.protocol, b.names.protocol);
    CmpSound(a.names.user, b.names.user);
    CmpSound(a.names.account, b.names.account);
    CmpSound(a.names.protocol, b.names.protocol);
  }

  lemma StaysAbove(key: Key, a: Key, b: Key)
    requires !Less(a, key) && Less(a, b)
    ensures !Less(b, key)
  {
    if Less(b, key) { LessTransitive(a, b, key); }
  }

  // The contexts between two of the same names have these names.
  lemma NamesBetween(a: Key, b: Key, c: Key)
    requires Less(a, b) && Less(b, c) && a.names == c.names
    ensures b.names == a.names
  {
    NamesSound(a.names, b.names);
    NamesSound(b.names, c.names);
  }

  // ------------------------------------------------------------ the nodes

  const MASTER := 0
  const MIN_VALID_INSTAG := 0x100

  class Context {
    const key: Key
    var msgstate: MsgState
    var next: Context?
    var tous: Context?
    var mContext: Context?

    // new_context
    constructor (key: Key)
      ensures this.key == key && msgstate == PLAINTEXT && mContext == this
    {
      this.key := key;
      msgstate := PLAINTEXT;
      next, tous := null, null;
      mContext := this;
    }
  }

  function At(l: seq<Context>, i: int): Context?
  {
    if 0 <= i < |l| then l[i] else null
  }

  // A place, for quantifiers over places to be instantiated at by name
  predicate Spot(j: nat) { true }

  predicate Sorted(l: seq<Context>)
  {
    |l| < 2 || (Less(l[0].key, l[1].key) && Sorted(l[1..]))
  }

  lemma {:induction false} SortedPair(l: seq<Context>, i: nat, j: nat)
    requires Sorted(l) && i < j < |l|
    ensures Less(l[i].key, l[j].key)
    decreases |l|
  {
    if i > 0 {
      SortedPair(l[1..], i - 1, j - 1);
    } else if j > 1 {
      SortedPair(l[1..], 0, j - 1);
      LessTransitive(l[0].key, l[1].key, l[j].key);
    }
  }

  lemma {:induction false} SortedOf(l: seq<Context>)
    requires forall j: nat {:trigger Spot(j)} :: Spot(j) && j + 1 < |l| ==> Less(l[j].key, l[j + 1].key)
    ensures Sorted(l)
    decreases |l|
  {
    if |l| >= 2 {
      assert Spot(0);
      forall j: nat | Spot(j) && j + 1 < |l[1..]| ensures Less(l[1..][j].key, l[1..][j + 1].key) {
        assert Spot(j + 1);
      }
      SortedOf(l[1..]);
    }
  }

  predicate Distinct(l: seq<Context>)
  {
    forall i, j :: 0 <= i < j < |l| ==> l[i] != l[j]
  }

  // Each node points to the next, and back to the one whose pointer points to it; null
  // stands for the root.
  ghost predicate Linked(root: Context?, l: seq<Context>)
    reads l`next, l`tous
  {
    root == At(l, 0) && forall i: nat {:trigger Spot(i)} :: Spot(i) && i < |l| ==> l[i].next == At(l, i + 1) && l[i].tous == At(l, i - 1)
  }

  lemma SortedDistinct(l: seq<Context>)
    requires Sorted(l)
    ensures Distinct(l)
  {
    forall i, j | 0 <= i < j < |l| ensures l[i] != l[j] {
      SortedPair(l, i, j);
      KeySound(l[i].key, l[j].key);
    }
  }

  lemma AboveFrom(l: seq<Context>, key: Key, i: nat, j: nat)
    requires Sorted(l) && i < j < |l| && !Less(l[i].key, key)
    ensures !Less(l[j].key, key)
  {
    SortedPair(l, i, j);
    StaysAbove(key, l[i].key, l[j].key);
  }

  // Everything before place i is less than the key.
  predicate Passed(l: seq<Context>, key: Key, i: nat)
  {
    i <= |l| && forall j: nat {:trigger Spot(j)} :: Spot(j) && j < i ==> Less(l[j].key, key)
  }

  // Nothing from there is.
  predicate Beyond(l: seq<Context>, key: Key, i: nat)
  {
    forall j: nat {:trigger Spot(j)} :: Spot(j) && i <= j < |l| ==> !Less(l[j].key, key)
  }

  predicate Place(l: seq<Context>, key: Key, i: nat)
  {
    Passed(l, key, i) && Beyond(l, key, i)
  }

  lemma BeyondFrom(l: seq<Context>, key: Key, i: nat)
    requires Sorted(l) && (i < |l| ==> !Less(l[i].key, key))
    ensures Beyond(l, key, i)
  {
    forall j: nat | Spot(j) && i <= j < |l| ensures !Less(l[j].key, key) {
      if i < j { AboveFrom(l, key, i, j); }
    }
  }

  function Inserted(l: seq<Context>, x: Context, i: nat): (m: seq<Context>)
    requires i <= |l|
    ensures |m| == |l| + 1 && m[i] == x
    ensures forall j :: 0 <= j < i ==> m[j] == l[j]
    ensures forall j :: i <= j < |l| ==> m[j + 1] == l[j]
  {
    l[..i] + [x] + l[i..]
  }

  lemma AtPlace(l: seq<Context>, key: Key, i: nat)
    requires Place(l, key, i)
    ensures i > 0 ==> Less(l[i - 1].key, key)
    ensures i < |l| && l[i].key != key ==> Less(key, l[i].key)
  {
    if i > 0 { assert Spot(i - 1); }
    if i < |l| {
      assert Spot(i);
      KeySound(key, l[i].key);
    }
  }

  // What stands at a place once x was put at place i
  function Shifted(l: seq<Context>, x: Context, i: nat, j: nat): Context
    requires i <= |l| && j <= |l|
  {
    if j < i then l[j] else if j == i then x else l[j - 1]
  }

  lemma InsertedAt(l: seq<Context>, x: Context, i: nat, j: nat)
    requires i <= |l| && j <= |l|
    ensures Inserted(l, x, i)[j] == Shifted(l, x, i, j)
  {
    if j > i { assert Inserted(l, x, i)[(j - 1) + 1] == l[j - 1]; }
  }

  // Neighbours after a key was put in its place
  lemma PairInserted(l: seq<Context>, x: Context, i: nat, a: nat)
    requires i <= |l| && a < |l|
    requires (i > 0 ==> Less(l[i - 1].key, x.key)) && (i < |l| ==> Less(x.key, l[i].key))
    requires (a + 1 < i ==> Less(l[a].key, l[a + 1].key)) && (a > i ==> Less(l[a - 1].key, l[a].key))
    ensures Less(Shifted(l, x, i, a).key, Shifted(l, x, i, a + 1).key)
  {
  }

  lemma Neighbours(l: seq<Context>, a: nat)
    requires Sorted(l) && a < |l|
    ensures (a + 1 < |l| ==> Less(l[a].key, l[a + 1].key)) && (a > 0 ==> Less(l[a - 1].key, l[a].key))
  {
    if a + 1 < |l| { SortedPair(l, a, a + 1); }
    if a > 0 { SortedPair(l, a - 1, a); }
  }

  lemma SortedInsert(l: seq<Context>, x: Context, i: nat)
    requires Sorted(l) && Place(l, x.key, i) && forall j :: 0 <= j < |l| ==> l[j].key != x.key
    ensures Sorted(Inserted(l, x, i))
  {
    var m := Inserted(l, x, i);
    AtPlace(l, x.key, i);
    forall a: nat | Spot(a) && a + 1 < |m| ensures Less(m[a].key, m[a + 1].key) {
      InsertedAt(l, x, i, a);
      InsertedAt(l, x, i, a + 1);
      Neighbours(l, a);
      PairInserted(l, x, i, a);
    }
    SortedOf(m);
  }

  // Without the n elements from i on
  function Removed(l: seq<Context>, i: nat, n: nat): (m: seq<Context>)
    requires i + n <= |l|
    ensures |m| == |l| - n
    ensures forall j :: 0 <= j < i ==> m[j] == l[j]
    ensures forall j :: i <= j < |m| ==> m[j] == l[j + n]
  {
    l[..i] + l[i + n..]
  }

  // Where element j of what is left was before
  function Origin(i: nat, n: nat, j: nat): (k: nat)
    ensures j <= k
  {
    if j < i then j else j + n
  }

  lemma Origins(l: seq<Context>, i: nat, n: nat, a: nat, b: nat)
    requires i + n <= |l| && a < b && b + n < |l|
    ensures Origin(i, n, a) < Origin(i, n, b) < |l|
    ensures Removed(l, i, n)[a] == l[Origin(i, n, a)] && Removed(l, i, n)[b] == l[Origin(i, n, b)]
  {
  }

  lemma PairRemoved(l: seq<Context>, i: nat, n: nat, a: nat, b: nat)
    requires Sorted(l) && i + n <= |l| && a < b && b + n < |l|
    ensures Less(Removed(l, i, n)[a].key, Removed(l, i, n)[b].key)
  {
    Origins(l, i, n, a, b);
    SortedPair(l, Origin(i, n, a), Origin(i, n, b));
  }

  lemma SortedRemove(l: seq<Context>, i: nat, n: nat)
    requires Sorted(l) && i + n <= |l|
    ensures Sorted(Removed(l, i, n))
  {
    var m := Removed(l, i, n);
    forall a: nat | Spot(a) && a + 1 < |m| ensures Less(m[a].key, m[a + 1].key) {
      PairRemoved(l, i, n, a, a + 1);
    }
    SortedOf(m);
  }

  // A master is its own; a child is filed under a context of the same names.
  ghost predicate Filed(l: seq<Context>)
    reads l`mContext
  {
    forall i :: 0 <= i < |l| ==>
      l[i].mContext != null && l[i].mContext.key.names == l[i].key.names && (l[i].key.instance == MASTER ==> l[i].mContext == l[i])
  }

  lemma FiledInsert(l: seq<Context>, node: Context, i: nat)
    requires Filed(l) && i <= |l| && Filed([node])
    ensures Filed(Inserted(l, node, i))
  {
    assert [node][0] == node;
    var m := Inserted(l, node, i);
    forall j | 0 <= j < |m| ensures Filed([m[j]]) {
      if j > i { assert m[j] == l[j - 1]; }
    }
    assert forall j :: 0 <= j < |m| ==> [m[j]][0] == m[j];
  }

  // A context otrl_context_find would return: any of the names for the master's number,
  // which is less than any other
  predicate Known(l: seq<Context>, names: Names, instance: nat)
  {
    exists j :: 0 <= j < |l| && l[j].key.names == names && (instance < MIN_VALID_INSTAG || l[j].key.instance == instance)
  }

  predicate Contains(l: seq<Context>, key: Key)
  {
    exists j :: 0 <= j < |l| && l[j].key == key
  }

  // c is the context of its names with the least number.
  predicate First(l: seq<Context>, c: Context)
  {
    c in l && forall j :: 0 <= j < |l| && l[j].key.names == c.key.names ==> l[j].key.instance >= c.key.instance
  }

  ghost predicate FiledFirst(l: seq<Context>, c: Context)
    reads c`mContext
  {
    c.mContext != null && c.mContext.key.names == c.key.names && First(l, c.mContext)
  }

  // What stands where the key belongs decides whether it is known.
  lemma KnownAtPlace(l: seq<Context>, names: Names, instance: nat, key: Key, i: nat)
    requires Sorted(l) && key == Key(names, if instance < MIN_VALID_INSTAG then MASTER else instance) && Place(l, key, i)
    ensures Known(l, names, instance) <==>
            i < |l| && l[i].key.names == names && (instance < MIN_VALID_INSTAG || l[i].key.instance == instance)
    ensures i < |l| && l[i].key.names == names && instance < MIN_VALID_INSTAG ==> First(l, l[i])
  {
    forall j | 0 <= j < |l| && l[j].key.names == names && (instance < MIN_VALID_INSTAG || l[j].key.instance == instance)
      ensures i <= j && l[i].key.names == names && l[i].key.instance <= l[j].key.instance && (instance >= MIN_VALID_INSTAG ==> i == j)
    {
      NamesSound(names, names);
      assert Spot(i) && Spot(j);
      if i < j {
        SortedPair(l, i, j);
        KeySound(key, l[i].key);
        KeySound(key, l[j].key);
        NotAbove(key, l[i].key, l[j].key);
      }
    }
  }

  // Filed under the first of its names, a new context is filed under the master exactly
  // when there was one.
  lemma MasterWasThere(l: seq<Context>, x: Context, i: nat, m: Context, names: Names)
    requires i <= |l| && First(Inserted(l, x, i), m) && m.key.names == x.key.names == names && x.key.instance != MASTER
    ensures m.key.instance == MASTER <==> Contains(l, Key(names, MASTER))
  {
    var n := Inserted(l, x, i);
    if m.key.instance == MASTER {
      var j :| 0 <= j < |n| && n[j] == m;
      assert l[if j < i then j else j - 1] == m;
    }
    if Contains(l, Key(names, MASTER)) {
      var j :| 0 <= j < |l| && l[j].key == Key(names, MASTER);
      assert n[if j < i then j else j + 1] == l[j];
    }
  }

  lemma NotContained(l: seq<Context>, names: Names, instance: nat, key: Key)
    requires !Known(l, names, instance) && key == Key(names, if instance < MIN_VALID_INSTAG then MASTER else instance)
    ensures !Contains(l, key)
  {
  }

  lemma InsertedKnown(l: seq<Context>, x: Context, i: nat)
    requires i <= |l|
    ensures x in Inserted(l, x, i) && Known(Inserted(l, x, i), x.key.names, MASTER)
    ensures forall o :: o in Inserted(l, x, i) ==> o == x || o in l
  {
    assert Inserted(l, x, i)[i] == x;
  }

  lemma InsertedWithin(l: seq<Context>, x: Context, i: nat)
    requires i <= |l|
    ensures forall k :: 0 <= k <= |l| ==> Inserted(l, x, i)[k] == x || Inserted(l, x, i)[k] in l
  {
  }

  lemma OnlyOne(l: seq<Context>, x: Context, i: nat)
    requires i <= |l| && !Known(l, x.key.names, MASTER)
    ensures First(Inserted(l, x, i), x)
  {
    var m := Inserted(l, x, i);
    assert m[i] == x;
    forall j | 0 <= j < |m| && j != i ensures m[j].key.names != x.key.names {
      assert m[j] == l[if j < i then j else j - 1];
    }
  }

  // A key between two of the same names
  lemma NotAbove(a: Key, b: Key, c: Key)
    requires !Less(b, a) && Less(b, c) && a.names == c.names
    ensures b.names == c.names && b.instance < c.instance && a.instance <= b.instance
  {
    NamesSound(a.names, b.names);
    NamesSound(b.names, c.names);
  }

  // c is filed under the master of its names, and that is in the list.
  ghost predicate Under(l: seq<Context>, c: Context)
    reads c`mContext
  {
    c.mContext != null && c.mContext in l && c.mContext.key == Key(c.key.names, MASTER)
  }

  ghost predicate Mastered(l: seq<Context>)
    reads l`mContext
  {
    forall j: nat {:trigger Spot(j)} :: Spot(j) && j < |l| ==> Under(l, l[j])
  }

  lemma InsertedHas(l: seq<Context>, x: Context, i: nat, o: Context)
    requires i <= |l| && o in l
    ensures o in Inserted(l, x, i)
  {
    var j :| 0 <= j < |l| && l[j] == o;
    assert Inserted(l, x, i)[if j < i then j else j + 1] == o;
  }

  // Adding keeps every context filed under a listed master exactly when the new one is.
  lemma MasteredInserted(l: seq<Context>, x: Context, i: nat)
    requires Mastered(l) && i <= |l|
    ensures Mastered(Inserted(l, x, i)) <==> Under(Inserted(l, x, i), x)
  {
    var m := Inserted(l, x, i);
    assert Spot(i) && m[i] == x;
    if Under(m, x) {
      forall j: nat | Spot(j) && j < |m| ensures Under(m, m[j]) {
        InsertedAt(l, x, i, j);
        if j != i {
          assert Spot(if j < i then j else j - 1);
          InsertedHas(l, x, i, m[j].mContext);
        }
      }
    }
  }

  // A new context is filed under itself or, when it is not a master, the first of its names.
  ghost predicate NewlyFiled(l: seq<Context>, x: Context, i: nat)
    requires i <= |l|
    reads x`mContext
  {
    if x.key.instance == MASTER then x.mContext == x
    else FiledFirst(Inserted(l, x, i), x) && (x.mContext.key.instance == MASTER <==> Contains(l, Key(x.key.names, MASTER)))
  }

  lemma NewlyUnder(l: seq<Context>, x: Context, i: nat)
    requires Mastered(l) && i <= |l| && NewlyFiled(l, x, i)
    ensures Mastered(Inserted(l, x, i)) <==> x.key.instance == MASTER || Contains(l, Key(x.key.names, MASTER))
  {
    MasteredInserted(l, x, i);
    InsertedKnown(l, x, i);
  }

  // The pointers around place i, once a node was put there
  lemma LinkedInsert(root: Context?, l: seq<Context>, node: Context, i: nat)
    requires i <= |l| && root == (if i == 0 then node else At(l, 0))
    requires node.next == At(l, i) && node.tous == At(l, i - 1)
    requires forall j: nat {:trigger Spot(j)} :: Spot(j) && j < |l| ==> l[j].next == (if j + 1 == i then node else At(l, j + 1)) && l[j].tous == (if j == i then node else At(l, j - 1))
    ensures Linked(root, Inserted(l, node, i))
  {
    var m := Inserted(l, node, i);
    forall j: nat | Spot(j) && j < |m| ensures m[j].next == At(m, j + 1) && m[j].tous == At(m, j - 1) {
      if j > i { assert Spot(j - 1) && m[j] == l[j - 1]; }
    }
  }

  // What is left of the contexts behind m when those filed under it at the front are gone
  ghost function Others(rest: seq<Context>, m: Context): seq<Context>
    reads rest`mContext
  {
    if rest != [] && rest[0].mContext == m then Others(rest[1..], m) else rest
  }

  lemma {:induction false} OthersWithin(rest: seq<Context>, m: Context)
    ensures forall o :: o in Others(rest, m) ==> o in rest
  {
    if rest != [] && rest[0].mContext == m { OthersWithin(rest[1..], m); }
  }

  lemma PartWithin(pre: seq<Context>, x: Context, r: seq<Context>, rest: seq<Context>)
    requires forall o :: o in r ==> o in rest
    ensures forall i :: 0 <= i < |pre + [x] + r| ==> (pre + [x] + r)[i] in pre + [x] + rest
  {
  }

  // All of these are in plaintext.
  ghost predicate Plain(rest: seq<Context>, m: Context)
    reads rest`mContext, rest`msgstate
  {
    rest != [] && rest[0].mContext == m ==> rest[0].msgstate == PLAINTEXT && Plain(rest[1..], m)
  }

  // What forgetting c takes for granted of those that go with it, and what it leaves
  ghost predicate MayForget(c: Context, rest: seq<Context>)
    reads c`msgstate, rest`mContext, rest`msgstate
  {
    c.msgstate == PLAINTEXT && (c.key.instance == MASTER ==> Plain(rest, c))
  }

  ghost function Left(pre: seq<Context>, c: Context, rest: seq<Context>): seq<Context>
    reads rest`mContext
  {
    pre + if c.key.instance == MASTER then Others(rest, c) else rest
  }

  lemma SplitRemoved(l: seq<Context>, pre: seq<Context>, x: Context, rest: seq<Context>)
    requires l == pre + [x] + rest
    ensures l[|pre|] == x && Removed(l, |pre|, 1) == pre + rest
  {
  }

  // The node behind a place
  lemma NextIs(root: Context?, l: seq<Context>, pre: seq<Context>, x: Context, rest: seq<Context>)
    requires Linked(root, l) && l == pre + [x] + rest
    ensures x.next == At(rest, 0)
  {
    assert Spot(|pre|);
  }

  lemma FiledRemove(l: seq<Context>, i: nat, n: nat)
    requires Filed(l) && i + n <= |l|
    ensures Filed(Removed(l, i, n))
  {
    var m := Removed(l, i, n);
    forall j | 0 <= j < |m| ensures m[j] == l[Origin(i, n, j)] && Origin(i, n, j) < |l| {
    }
  }

  lemma OwnMaster(l: seq<Context>, pre: seq<Context>, m: Context, rest: seq<Context>)
    requires Filed(l) && l == pre + [m] + rest && m.key.instance == MASTER
    ensures m.mContext == m
  {
    assert l[|pre|] == m;
  }

  // -------------------------------------------------- forgetting a group

  // The contexts of other names, in order
  function Without(l: seq<Context>, names: Names): seq<Context>
  {
    if l == [] then [] else (if l[0].key.names == names then [] else [l[0]]) + Without(l[1..], names)
  }

  lemma {:induction false} WithoutHas(l: seq<Context>, names: Names, o: Context)
    ensures o in Without(l, names) <==> o in l && o.key.names != names
  {
    if l != [] {
      assert l == [l[0]] + l[1..];
      WithoutHas(l[1..], names, o);
    }
  }

  ghost predicate GroupPlaintext(l: seq<Context>, names: Names)
    reads l`msgstate
  {
    forall o :: o in l && o.key.names == names ==> o.msgstate == PLAINTEXT
  }

  lemma {:induction false} WithoutNone(l: seq<Context>, names: Names)
    requires forall o :: o in l ==> o.key.names != names
    ensures Without(l, names) == l
  {
    if l != [] {
      assert l[0] in l;
      WithoutNone(l[1..], names);
    }
  }

  lemma {:induction false} WithoutPre(pre: seq<Context>, m: Context, rest: seq<Context>)
    requires forall o :: o in pre ==> o.key.names != m.key.names
    ensures Without(pre + [m] + rest, m.key.names) == pre + Without(rest, m.key.names)
  {
    if pre == [] {
      assert pre + [m] + rest == [m] + rest;
    } else {
      assert pre[0] in pre && (pre + [m] + rest)[1..] == pre[1..] + [m] + rest;
      WithoutPre(pre[1..], m, rest);
    }
  }

  // Behind a master, in a list where each is filed under its master: the group is a run.
  lemma {:induction false} RunIsGroup(rest: seq<Context>, m: Context)
    requires Sorted([m] + rest)
    requires forall o :: o in rest ==> (o.mContext == m <==> o.key.names == m.key.names)
    ensures Others(rest, m) == Without(rest, m.key.names)
    ensures Plain(rest, m) <==> GroupPlaintext(rest, m.key.names)
  {
    if rest != [] {
      var c, tail := rest[0], rest[1..];
      assert rest == [c] + tail && c in rest;
      if c.mContext == m {
        SortedBehind(m, c, tail);
        RunIsGroup(tail, m);
      } else {
        NoneBehind(m, rest);
        WithoutNone(rest, m.key.names);
      }
    }
  }

  lemma SortedBehind(m: Context, c: Context, tail: seq<Context>)
    requires Sorted([m] + ([c] + tail))
    ensures Sorted([m] + tail)
  {
    var l := [m] + ([c] + tail);
    assert Removed(l, 1, 1) == [m] + tail;
    SortedRemove(l, 1, 1);
  }

  lemma NoneBehind(m: Context, rest: seq<Context>)
    requires Sorted([m] + rest) && rest != [] && rest[0].key.names != m.key.names
    ensures forall o :: o in rest ==> o.key.names != m.key.names
  {
    var l := [m] + rest;
    forall o | o in rest ensures o.key.names != m.key.names {
      var j :| 0 <= j < |rest| && rest[j] == o;
      assert l[0] == m && l[1] == rest[0] && l[j + 1] == o;
      SortedPair(l, 0, 1);
      if j > 0 {
        SortedPair(l, 1, j + 1);
        if o.key.names == m.key.names { NamesBetween(m.key, rest[0].key, o.key); }
      }
    }
  }

  // Nothing before a master has its names.
  lemma NoneBefore(l: seq<Context>, pre: seq<Context>, m: Context, rest: seq<Context>)
    requires Sorted(l) && l == pre + [m] + rest && m.key.instance == MASTER
    ensures forall o :: o in pre ==> o.key.names != m.key.names
  {
    forall o | o in pre ensures o.key.names != m.key.names {
      var j :| 0 <= j < |pre| && pre[j] == o;
      assert l[j] == o && l[|pre|] == m;
      SortedPair(l, j, |pre|);
      NamesSound(o.key.names, m.key.names);
    }
  }

  // There is one context of a key.
  lemma OneOfKey(l: seq<Context>, a: Context, b: Context)
    requires Sorted(l) && a in l && b in l && a.key == b.key
    ensures a == b
  {
    var i :| 0 <= i < |l| && l[i] == a;
    var j :| 0 <= j < |l| && l[j] == b;
    KeySound(a.key, a.key);
    if i < j { SortedPair(l, i, j); } else if j < i { SortedPair(l, j, i); }
  }

  lemma UnderIn(l: seq<Context>, o: Context)
    requires Mastered(l) && o in l
    ensures Under(l, o)
  {
    var j: nat :| j < |l| && l[j] == o;
    assert Spot(j);
  }

  lemma {:induction false} SortedTail(pre: seq<Context>, t: seq<Context>)
    requires Sorted(pre + t)
    ensures Sorted(t)
  {
    if pre == [] {
      assert pre + t == t;
    } else {
      assert (pre + t)[1..] == pre[1..] + t;
      SortedTail(pre[1..], t);
    }
  }

  // When each is filed under its master, forgetting a master takes out just the contexts of
  // its names, and looks at the state of just these.
  lemma GroupGone(l: seq<Context>, pre: seq<Context>, m: Context, rest: seq<Context>)
    requires Sorted(l) && Mastered(l) && l == pre + [m] + rest && m.key.instance == MASTER
    ensures pre + Others(rest, m) == Without(l, m.key.names)
    ensures m.msgstate == PLAINTEXT && Plain(rest, m) <==> GroupPlaintext(l, m.key.names)
  {
    NoneBefore(l, pre, m, rest);
    WithoutPre(pre, m, rest);
    forall o | o in rest ensures o.mContext == m <==> o.key.names == m.key.names {
      UnderIn(l, o);
      assert m in l;
      if o.key.names == m.key.names { OneOfKey(l, o.mContext, m); }
    }
    assert pre + [m] + rest == pre + ([m] + rest);
    SortedTail(pre, [m] + rest);
    RunIsGroup(rest, m);
    assert m in l;
  }

  // Behind a master and filed under it there is no other master.
  lemma NotMaster(l: seq<Context>, pre: seq<Context>, m: Context, c: Context, rest: seq<Context>)
    requires Sorted(l) && Filed(l) && l == pre + [m] + ([c] + rest) && c.mContext == m
    ensures c.key.instance != MASTER
  {
    assert l[|pre|] == m && l[|pre| + 1] == c;
    SortedPair(l, |pre|, |pre| + 1);
    KeySound(m.key, m.key);
  }

  lemma MasteredWithout(l: seq<Context>, names: Names)
    requires Mastered(l)
    ensures Mastered(Without(l, names))
  {
    var m := Without(l, names);
    forall j: nat | Spot(j) && j < |m| ensures Under(m, m[j]) {
      WithoutHas(l, names, m[j]);
      UnderIn(l, m[j]);
      WithoutHas(l, names, m[j].mContext);
    }
  }

  // An instance is nobody's master.
  lemma MasteredRemove(l: seq<Context>, pre: seq<Context>, c: Context, rest: seq<Context>)
    requires Mastered(l) && l == pre + [c] + rest && c.key.instance != MASTER
    ensures Mastered(pre + rest)
  {
    var m := pre + rest;
    forall j: nat | Spot(j) && j < |m| ensures Under(m, m[j]) {
      assert m[j] in m && m[j] in l;
      UnderIn(l, m[j]);
    }
  }

  lemma LeftWithin(pre: seq<Context>, c: Context, rest: seq<Context>)
    ensures forall i :: 0 <= i < |Left(pre, c, rest)| ==> Left(pre, c, rest)[i] in pre + [c] + rest
  {
    OthersWithin(rest, c);
  }

  lemma LeftMastered(l: seq<Context>, pre: seq<Context>, c: Context, rest: seq<Context>)
    requires Sorted(l) && Filed(l) && Mastered(l) && l == pre + [c] + rest
    ensures Mastered(Left(pre, c, rest))
    ensures c.key.instance == MASTER ==> Left(pre, c, rest) == Without(l, c.key.names)
    ensures c.key.instance == MASTER ==> (MayForget(c, rest) <==> GroupPlaintext(l, c.key.names))
  {
    if c.key.instance == MASTER {
      GroupGone(l, pre, c, rest);
      MasteredWithout(l, c.key.names);
    } else {
      MasteredRemove(l, pre, c, rest);
    }
  }

  // The pointers around place i, once its node was taken out
  lemma LinkedRemove(root: Context?, l: seq<Context>, i: nat)
    requires i < |l| && root == (if i == 0 then At(l, 1) else At(l, 0))
    requires forall j: nat {:trigger Spot(j)} :: Spot(j) && j < |l| && j != i ==> l[j].next == (if j + 1 == i then At(l, i + 1) else At(l, j + 1)) && l[j].tous == (if j == i + 1 then At(l, i - 1) else At(l, j - 1))
    ensures Linked(root, Removed(l, i, 1))
  {
    var m := Removed(l, i, 1);
    forall j: nat | Spot(j) && j < |m| ensures m[j].next == At(m, j + 1) && m[j].tous == At(m, j - 1) {
      if j >= i { assert Spot(j + 1) && m[j] == l[j + 1]; }
    }
  }

  // ------------------------------------------------------------- the list

  class UserState {
    var contextRoot: Context?
    ghost var list: seq<Context>

    ghost predicate Valid()
      reads this, list`next, list`tous, list`mContext
    {
      Linked(contextRoot, list) && Sorted(list) && Filed(list)
    }

    constructor ()
      ensures Valid() && list == []
    {
      contextRoot := null;
      list := [];
    }

    // The loop of otrl_context_find
    method FindPlace(key: Key) returns (prev: Context?, cur: Context?, ghost i: nat)
      requires Valid()
      ensures Place(list, key, i) && cur == At(list, i) && prev == At(list, i - 1)
    {
      prev, cur, i := Advance(key);
      BeyondFrom(list, key, i);
    }

    method Advance(key: Key) returns (prev: Context?, cur: Context?, ghost i: nat)
      requires Linked(contextRoot, list)
      ensures Passed(list, key, i) && cur == At(list, i) && prev == At(list, i - 1)
      ensures i < |list| ==> !Less(list[i].key, key)
    {
      prev, cur, i := null, contextRoot, 0;
      while cur != null && Less(cur.key, key)
        invariant Passed(list, key, i) && cur == At(list, i) && prev == At(list, i - 1)
        decreases |list| - i
      {
        assert Spot(i);
        prev, cur := cur, cur.next;
        i := i + 1;
      }
    }

    // A new node between two neighbours
    method Link(node: Context, prev: Context?, cur: Context?, ghost i: nat)
      requires Linked(contextRoot, list) && i <= |list| && cur == At(list, i) && prev == At(list, i - 1)
      requires node !in list && Distinct(list)
      modifies `contextRoot, `list, node`next, node`tous, list`next, list`tous
      ensures list == Inserted(old(list), node, i) && Linked(contextRoot, list)
    {
      node.next := cur;
      if cur != null { cur.tous := node; }
      if prev == null { contextRoot := node; } else { prev.next := node; }
      node.tous := prev;
      LinkedInsert(contextRoot, list, node, i);
      list := Inserted(list, node, i);
    }

    // *(context->tous) = context->next and back
    method Unlink(context: Context, ghost i: nat)
      requires Linked(contextRoot, list) && i < |list| && list[i] == context
      requires Distinct(list)
      modifies `contextRoot, `list, list`next, list`tous
      ensures list == Removed(old(list), i, 1) && Linked(contextRoot, list)
    {
      assert Spot(i) && Spot(i + 1) && (i > 0 ==> Spot(i - 1));
      if context.tous == null { contextRoot := context.next; } else { context.tous.next := context.next; }
      if context.next != null { context.next.tous := context.tous; }
      LinkedRemove(contextRoot, list, i);
      list := Removed(list, i, 1);
    }

    // The key otrl_context_find looks for: the names, and the instance when it is one
    function Wanted(names: Names, instance: nat): Key
    {
      Key(names, if instance < MIN_VALID_INSTAG then MASTER else instance)
    }

    // Put a new context where the key belongs.
    method Insert(key: Key, prev: Context?, cur: Context?, ghost i: nat) returns (newctx: Context)
      requires Valid() && Place(list, key, i) && cur == At(list, i) && prev == At(list, i - 1)
      requires !Contains(list, key)
      modifies `contextRoot, `list, list`next, list`tous
      ensures Valid() && fresh(newctx) && newctx.key == key && newctx.msgstate == PLAINTEXT && newctx.mContext == newctx
      ensures list == Inserted(old(list), newctx, i)
    {
      newctx := new Context(key);
      SortedDistinct(list);
      SortedInsert(list, newctx, i);
      Enter(newctx, prev, cur, i);
    }

    method Enter(newctx: Context, prev: Context?, cur: Context?, ghost i: nat)
      requires Valid() && i <= |list| && cur == At(list, i) && prev == At(list, i - 1) && newctx !in list && Distinct(list)
      requires Sorted(Inserted(list, newctx, i)) && newctx.mContext == newctx
      modifies `contextRoot, `list, newctx`next, newctx`tous, list`next, list`tous
      ensures Valid() && list == Inserted(old(list), newctx, i)
    {
      Link(newctx, prev, cur, i);
      FiledInsert(old(list), newctx, i);
    }

    // Add a context that is not known, before it is filed.
    method AddUnfiled(names: Names, instance: nat, prev: Context?, cur: Context?, ghost i: nat) returns (ctx: Context)
      requires Valid() && !Known(list, names, instance)
      requires Place(list, Wanted(names, instance), i) && cur == At(list, i) && prev == At(list, i - 1)
      modifies `contextRoot, `list, list`next, list`tous
      ensures Valid() && fresh(ctx) && ctx.key == Wanted(names, instance) && ctx.msgstate == PLAINTEXT && list == Inserted(old(list), ctx, i)
      ensures ctx.mContext == ctx
      ensures ctx in list && Known(list, names, MASTER) && (instance == MASTER ==> First(list, ctx))
    {
      NotContained(list, names, instance, Wanted(names, instance));
      ctx := Insert(Wanted(names, instance), prev, cur, i);
      InsertedKnown(old(list), ctx, i);
      if instance == MASTER {
        OnlyOne(old(list), ctx, i);
      }
    }

    // The search of otrl_context_find, for the master or for an instance
    method Search(names: Names, instance: nat) returns (found: bool, prev: Context?, cur: Context?, ghost i: nat)
      requires Valid()
      ensures found <==> Known(list, names, instance)
      ensures found ==> cur != null && cur in list && cur.key.names == names
      ensures found && instance >= MIN_VALID_INSTAG ==> cur.key.instance == instance
      ensures found && instance < MIN_VALID_INSTAG ==> First(list, cur)
      ensures Place(list, Wanted(names, instance), i) && cur == At(list, i) && prev == At(list, i - 1)
    {
      prev, cur, i := FindPlace(Wanted(names, instance));
      KnownAtPlace(list, names, instance, Wanted(names, instance), i);
      found := cur != null && cur.key.names == names && (instance < MIN_VALID_INSTAG || cur.key.instance == instance);
    }

    // newctx->m_context: the call for the master finds one, the new context being there if
    // no other, and so adds nothing.
    method FileUnder(newctx: Context, names: Names, ghost l: seq<Context>, ghost at: nat)
      requires Valid() && newctx in list && newctx.key.names == names && newctx.key.instance != MASTER && Known(list, names, MASTER)
      requires at <= |l| && list == Inserted(l, newctx, at)
      modifies `contextRoot, `list, newctx`mContext, list`next, list`tous
      ensures Valid() && list == old(list) && NewlyFiled(l, newctx, at)
      decreases 1
    {
      var m, added, i := Find(names, MASTER, true);
      SetMaster(newctx, m);
      MasterWasThere(l, newctx, at, m, names);
    }

    method SetMaster(newctx: Context, m: Context)
      requires Valid() && newctx in list && newctx.key.names == m.key.names && newctx.key.instance != MASTER
      modifies newctx`mContext
      ensures Valid() && newctx.mContext == m
    {
      newctx.mContext := m;
    }

    // What otrl_context_find does when it has found nothing
    method Add(names: Names, instance: nat, prev: Context?, cur: Context?, ghost at: nat) returns (newctx: Context)
      requires Valid() && !Known(list, names, instance) && (instance == MASTER || instance >= MIN_VALID_INSTAG)
      requires Place(list, Wanted(names, instance), at) && cur == At(list, at) && prev == At(list, at - 1)
      modifies `contextRoot, `list, list`next, list`tous
      ensures Valid() && fresh(newctx) && newctx.key == Key(names, instance) && newctx.msgstate == PLAINTEXT
      ensures list == Inserted(old(list), newctx, at) && NewlyFiled(old(list), newctx, at) && newctx in list
      ensures instance == MASTER ==> First(list, newctx)
      decreases instance, 1
    {
      if instance == MASTER {
        newctx := AddUnfiled(names, instance, prev, cur, at);
      } else {
        newctx := AddChild(names, instance, prev, cur, at);
      }
    }

    method AddChild(names: Names, instance: nat, prev: Context?, cur: Context?, ghost at: nat) returns (newctx: Context)
      requires Valid() && !Known(list, names, instance) && instance >= MIN_VALID_INSTAG
      requires Place(list, Wanted(names, instance), at) && cur == At(list, at) && prev == At(list, at - 1)
      modifies `contextRoot, `list, list`next, list`tous
      ensures Valid() && fresh(newctx) && newctx.key == Key(names, instance) && newctx.msgstate == PLAINTEXT
      ensures list == Inserted(old(list), newctx, at) && NewlyFiled(old(list), newctx, at) && newctx in list
      decreases instance, 0
    {
      newctx := AddUnfiled(names, instance, prev, cur, at);
      InsertedWithin(old(list), newctx, at);
      FileUnder(newctx, names, old(list), at);
    }

    // otrl_context_find, for the master and for instances; at is the place of a new context.
    method Find(names: Names, instance: nat, add: bool) returns (ctx: Context?, added: bool, ghost at: nat)
      requires Valid() && (instance == MASTER || instance >= MIN_VALID_INSTAG)
      modifies `contextRoot, `list, list`next, list`tous
      ensures Valid() && (ctx == null <==> !add && !Known(old(list), names, instance))
      ensures added <==> add && !Known(old(list), names, instance)
      ensures !added ==> list == old(list)
      ensures ctx != null ==> ctx in list && ctx.key.names == names && (instance >= MIN_VALID_INSTAG ==> ctx.key.instance == instance)
      ensures ctx != null && instance == MASTER ==> First(list, ctx)
      ensures added ==> fresh(ctx) && ctx.key == Key(names, instance) && ctx.msgstate == PLAINTEXT
      ensures added ==> at <= |old(list)| && list == Inserted(old(list), ctx, at) && NewlyFiled(old(list), ctx, at)
      ensures old(Mastered(list)) ==>
                (Mastered(list) <==> !added || instance == MASTER || Contains(old(list), Key(names, MASTER)))
      decreases instance, 2
    {
      var prev, cur, found;
      found, prev, cur, at := Search(names, instance);
      if found { return cur, false, at; }
      if !add { return null, false, at; }
      var newctx := Add(names, instance, prev, cur, at);
      if old(Mastered(list)) { NewlyUnder(old(list), newctx, at); }
      return newctx, true, at;
    }

    method Remove(context: Context, ghost i: nat)
      requires Valid() && i < |list| && list[i] == context
      modifies `contextRoot, `list, list`next, list`tous
      ensures Valid() && list == Removed(old(list), i, 1)
    {
      SortedDistinct(list);
      SortedRemove(list, i, 1);
      FiledRemove(list, i, 1);
      Unlink(context, i);
    }

    // The first loop of otrl_context_forget
    method GroupPlain(context: Context, ghost pre: seq<Context>, ghost rest: seq<Context>) returns (plain: bool)
      requires Linked(contextRoot, list) && list == pre + [context] + rest && context.mContext == context
      ensures plain <==> context.msgstate == PLAINTEXT && Plain(rest, context)
    {
      var c: Context? := context;
      ghost var l: seq<Context>, r: seq<Context> := pre, [context] + rest;
      while c != null && c.mContext == context.mContext
        invariant list == l + r && c == At(r, 0)
        invariant Plain(r, context) <==> Plain([context] + rest, context)
        decreases |r|
      {
        if c.msgstate != PLAINTEXT { return false; }
        assert r == [c] + r[1..];
        NextIs(contextRoot, list, l, c, r[1..]);
        c, l, r := c.next, l + [c], r[1..];
      }
      return true;
    }

    // otrl_context_forget on an instance, and the end of it on a master
    method ForgetOne(context: Context, ghost pre: seq<Context>, ghost rest: seq<Context>) returns (code: nat)
      requires Valid() && list == pre + [context] + rest
      modifies `contextRoot, `list, list`next, list`tous
      ensures Valid() && code == (if context.msgstate == PLAINTEXT then 0 else 1)
      ensures list == if code == 0 then pre + rest else old(list)
    {
      if context.msgstate != PLAINTEXT { return 1; }
      SplitRemoved(list, pre, context, rest);
      Remove(context, |pre|);
      return 0;
    }

    // The second loop: whatever is behind the master and filed under it is forgotten.
    method ForgetChildren(context: Context, ghost pre: seq<Context>, ghost rest: seq<Context>)
      requires Valid() && list == pre + [context] + rest && Plain(rest, context)
      modifies `contextRoot, `list, list`next, list`tous
      ensures Valid() && list == pre + [context] + Others(rest, context)
      decreases |rest|, 1
    {
      ghost var r := rest;
      NextIs(contextRoot, list, pre, context, rest);
      var c := context.next;
      while c != null && c.mContext == context
        invariant Valid() && list == pre + [context] + r && c == At(r, 0)
        invariant |r| <= |rest| && forall o :: o in r ==> o in rest
        invariant Plain(r, context) && Others(r, context) == Others(rest, context)
        decreases |r|
      {
        PartWithin(pre, context, r, rest);
        assert forall i :: 0 <= i < |list| ==> list[i] in old(list);
        c := ForgetNext(context, c, pre, r);
        r := r[1..];
      }
    }

    method ForgetNext(context: Context, c: Context, ghost pre: seq<Context>, ghost r: seq<Context>) returns (next: Context?)
      requires Valid() && list == pre + [context] + r && r != [] && c == r[0] && c.mContext == context && c.msgstate == PLAINTEXT
      modifies `contextRoot, `list, list`next, list`tous
      ensures Valid() && list == pre + [context] + r[1..] && next == At(r[1..], 0)
      decreases |r|, 0
    {
      assert r == [c] + r[1..];
      NotMaster(list, pre, context, c, r[1..]);
      assert list == (pre + [context]) + [c] + r[1..];
      var code := Forget(c, pre + [context], r[1..]);
      NextIs(contextRoot, list, pre, context, r[1..]);
      return context.next;
    }

    // otrl_context_forget: 1 when the context, or one of those that would go with it, is not
    // in plaintext; then nothing was done.
    method Forget(context: Context, ghost pre: seq<Context>, ghost rest: seq<Context>) returns (code: nat)
      requires Valid() && list == pre + [context] + rest
      modifies `contextRoot, `list, list`next, list`tous
      ensures Valid()
      ensures code == if old(MayForget(context, rest)) then 0 else 1
      ensures list == if code == 0 then old(Left(pre, context, rest)) else old(list)
      decreases |rest|, 2
    {
      if context.msgstate != PLAINTEXT { return 1; }
      if context.key.instance == MASTER {
        OwnMaster(list, pre, context, rest);
        var plain := GroupPlain(context, pre, rest);
        if !plain { return 1; }
        ForgetChildren(context, pre, rest);
        OthersWithin(rest, context);
        PartWithin(pre, context, Others(rest, context), rest);
        assert forall i :: 0 <= i < |list| ==> list[i] in old(list);
        code := ForgetOne(context, pre, Others(rest, context));
      } else {
        code := ForgetOne(context, pre, rest);
      }
    }

    // The same call on a list where each context is filed under its master: the master and
    // all contexts of its names go, or nothing does.
    method ForgetGroup(context: Context, ghost pre: seq<Context>, ghost rest: seq<Context>) returns (code: nat)
      requires Valid() && Mastered(list) && list == pre + [context] + rest
      modifies `contextRoot, `list, list`next, list`tous
      ensures Valid() && Mastered(list)
      ensures context.key.instance == MASTER ==>
                && code == (if old(GroupPlaintext(list, context.key.names)) then 0 else 1)
                && list == if code == 0 then Without(old(list), context.key.names) else old(list)
    {
      ghost var l, kept := list, Left(pre, context, rest);
      LeftMastered(l, pre, context, rest);
      LeftWithin(pre, context, rest);
      code := Forget(context, pre, rest);
      assert Mastered(l) && Mastered(kept);
    }
  }

  // ------------------------------------------------- a child left behind

  lemma LessInstance(a: Key, b: Key)
    requires a.names == b.names
    ensures Less(a, b) <==> a.instance < b.instance
  {
    NamesSound(a.names, b.names);
  }

  lemma FirstOfTwo(first: Context, x: Context, names: Names)
    requires first.key.names == x.key.names == names && first.key.instance < x.key.instance
    ensures !First([first, x], x)
  {
    assert [first, x][0] == first;
  }

  lemma ComesLast(first: Context, x: Context, i: nat)
    requires i <= 1 && Sorted(Inserted([first], x, i)) && first.key.names == x.key.names && first.key.instance < x.key.instance
    ensures Inserted([first], x, i) == [first, x]
  {
    if i == 0 { LessInstance(x.key, first.key); }
  }

  // Two instances added where there is no master: the second is filed under the first.
  method TwoInstances(names: Names, low: nat, high: nat) returns (us: UserState, first: Context, child: Context)
    requires MIN_VALID_INSTAG <= low < high
    ensures fresh(us) && us.Valid() && us.list == [first, child] && fresh(first) && fresh(child)
    ensures first.msgstate == PLAINTEXT && first.key.instance != MASTER && child.mContext == first
  {
    us := new UserState();
    var added; ghost var at;
    first, added, at := us.Find(names, low, true);
    assert us.list == [first];
    child, added, at := us.Find(names, high, true);
    ComesLast(first, child, at);
    FirstOfTwo(first, child, names);
  }

  // Once the first is forgotten, the second points to a context that is gone.
  method ChildLeftBehind(names: Names, low: nat, high: nat) returns (us: UserState, child: Context)
    requires MIN_VALID_INSTAG <= low < high
    ensures us.Valid() && us.list == [child] && child.mContext != null && child.mContext != child
  {
    var first;
    us, first, child := TwoInstances(names, low, high);
    assert us.list == [] + [first] + [child] && us.list[0] != us.list[1] by {
      SortedDistinct(us.list);
    }
    var code := us.Forget(first, [], [child]);
    assert us.list == [] + [child];
  }
}
