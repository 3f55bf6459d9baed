/**
 What the user store means, without pools or links: the users newest first, and how many
 slots were ever handed out.  Runs of additions and deletions behave like a map by name.
 */
module StoreModel {
  import opened UserData
  import opened Chains

  /** List slot 0 holds the sentinel, so this many users fit; slots are never reused. */
  const CAPACITY: nat := POOL_NODES - 1

  datatype State = State(contents: seq<User>, added: nat)

  datatype Op = Add(user: User) | Delete(name: string)

  predicate DistinctNames(s: seq<User>) {
    forall i, j :: 0 <= i < j < |s| ==> s[i].name != s[j].name
  }

  /** No two users have that name. */
  predicate OnlyOnce(s: seq<User>, name: string) {
    forall i, j :: 0 <= i < j < |s| && s[i].name == name ==> s[j].name != name
  }

  /** Position of the first user with that name; the length if there is none. */
  function IndexOf(s: seq<User>, name: string): (i: nat)
    ensures i <= |s|
    ensures i < |s| ==> s[i].name == name
    ensures forall j :: 0 <= j < i ==> s[j].name != name
  {
    if s == [] || s[0].name == name then 0 else 1 + IndexOf(s[1..], name)
  }

  /** The next state and the return code of one operation. */
  function Apply(s: State, op: Op): (State, int) {
    match op
    case Add(u) =>
      if IndexOf(s.contents, u.name) < |s.contents| then (s, 1)
      else if s.added >= CAPACITY then (s, -1)
      else (State([u] + s.contents, s.added + 1), 0)
    case Delete(name) =>
      var i := IndexOf(s.contents, name);
      if i == |s.contents| then (s, -1) else (s.(contents := Without(s.contents, i)), 0)
  }

  /** Some user has that name. */
  ghost predicate Named(s: seq<User>, name: string) {
    exists u <- s :: u.name == name
  }

  lemma NamedIndex(s: seq<User>, name: string)
    ensures Named(s, name) <==> IndexOf(s, name) < |s|
  {
    if u :| u in s && u.name == name {
      var j :| 0 <= j < |s| && s[j] == u;
    }
  }

  /** An addition is refused with 1 for a taken name and with -1 for a used-up pool; otherwise the
      new user stands in front of all others, who stay as they are. */
  lemma AddMeans(s: State, u: User)
    ensures
      var (t, rc) := Apply(s, Add(u));
      && (rc == 1 <==> Named(s.contents, u.name))
      && (rc == -1 <==> !Named(s.contents, u.name) && s.added >= 200999)
      && (rc == 0 <==> !Named(s.contents, u.name) && s.added < 200999)
      && (rc == 0 ==> t.contents == [u] + s.contents && t.added == s.added + 1)
      && (rc != 0 ==> t == s)
  {
    NamedIndex(s.contents, u.name);
  }

  /** A deletion takes out the first user of that name and leaves the others as they are; -1 if
      there is none. */
  lemma DeleteMeans(s: State, name: string) returns (a: seq<User>, u: User, b: seq<User>)
    ensures
      var (t, rc) := Apply(s, Delete(name));
      && (rc == 0 <==> Named(s.contents, name)) && (rc == -1 <==> !Named(s.contents, name))
      && (rc == 0 ==>
            && s.contents == a + [u] + b && u.name == name && !Named(a, name)
            && t.contents == a + b && t.added == s.added)
      && (rc == -1 ==> t == s)
  {
    var i := IndexOf(s.contents, name);
    NamedIndex(s.contents, name);
    a, b := s.contents, [];
    u := User("", "", "", "", "", "");
    if i < |s.contents| {
      a, u, b := s.contents[..i], s.contents[i], s.contents[i + 1..];
    }
  }

  function Run(s: State, ops: seq<Op>): (State, seq<int>)
    decreases |ops|
  {
    if ops == [] then (s, [])
    else
      var (s1, rc) := Apply(s, ops[0]);
      var (s2, rcs) := Run(s1, ops[1..]);
      (s2, [rc] + rcs)
  }

  // ---- the store as a map ----------------------------------------------------------------

  datatype Directory = Directory(users: map<string, User>, added: nat)

  function ApplyToMap(d: Directory, op: Op): (Directory, int) {
    match op
    case Add(u) =>
      if u.name in d.users then (d, 1)
      else if d.added >= CAPACITY then (d, -1)
      else (Directory(d.users[u.name := u], d.added + 1), 0)
    case Delete(name) =>
      if name in d.users then (d.(users := d.users - {name}), 0) else (d, -1)
  }

  function RunOnMap(d: Directory, ops: seq<Op>): (Directory, seq<int>)
    decreases |ops|
  {
    if ops == [] then (d, [])
    else
      var (d1, rc) := ApplyToMap(d, ops[0]);
      var (d2, rcs) := RunOnMap(d1, ops[1..]);
      (d2, [rc] + rcs)
  }

  /** Users by name; of two users with one name the newer one counts. */
  function ToMap(s: seq<User>): map<string, User> {
    if s == [] then map[] else ToMap(s[1..])[s[0].name := s[0]]
  }

  function ToDirectory(s: State): Directory {
    Directory(ToMap(s.contents), s.added)
  }

  lemma {:induction false} MapLookup(s: seq<User>, name: string)
    ensures name in ToMap(s) <==> IndexOf(s, name) < |s|
    ensures name in ToMap(s) ==> ToMap(s)[name] == s[IndexOf(s, name)]
  {
    if s != [] {
      MapLookup(s[1..], name);
    }
  }

  lemma DistinctTail(s: seq<User>)
    requires DistinctNames(s) && s != []
    ensures DistinctNames(s[1..]) && s[0].name !in ToMap(s[1..])
  {
    var r := s[1..];
    assert forall j :: 0 <= j < |r| ==> r[j] == s[j + 1];
    MapLookup(r, s[0].name);
  }

  lemma {:induction false} MapSize(s: seq<User>)
    requires DistinctNames(s)
    ensures |ToMap(s)| == |s|
  {
    if s != [] {
      DistinctTail(s);
      MapSize(s[1..]);
    }
  }

  lemma {:induction false} MapWithout(s: seq<User>, i: nat)
    requires DistinctNames(s) && i < |s|
    ensures ToMap(Without(s, i)) == ToMap(s) - {s[i].name}
    ensures DistinctNames(Without(s, i))
  {
    DistinctTail(s);
    var r := s[1..];
    if i == 0 {
      assert Without(s, 0) == r;
    } else {
      assert r[i - 1] == s[i] && s[0].name != s[i].name;
      MapWithout(r, i - 1);
      WithoutTail(s, i);
      assert ToMap(Without(s, i)) == ToMap(Without(r, i - 1))[s[0].name := s[0]];
    }
  }

  /** One operation keeps names distinct and does to the map what it does to the list. */
  lemma StepRefinesMap(s: State, op: Op)
    requires DistinctNames(s.contents)
    ensures DistinctNames(Apply(s, op).0.contents)
    ensures (ToDirectory(Apply(s, op).0), Apply(s, op).1) == ApplyToMap(ToDirectory(s), op)
  {
    match op
    case Add(u) =>
      MapLookup(s.contents, u.name);
      assert ([u] + s.contents)[1..] == s.contents;
    case Delete(name) =>
      MapLookup(s.contents, name);
      var i := IndexOf(s.contents, name);
      if i < |s.contents| {
        MapWithout(s.contents, i);
      }
  }

  /** Over every run, the store answers as a map by name would, with the same return codes. */
  lemma {:induction false} RunRefinesMap(s: State, ops: seq<Op>)
    requires DistinctNames(s.contents)
    ensures DistinctNames(Run(s, ops).0.contents)
    ensures (ToDirectory(Run(s, ops).0), Run(s, ops).1) == RunOnMap(ToDirectory(s), ops)
    decreases |ops|
  {
    if ops != [] {
      StepRefinesMap(s, ops[0]);
      RunRefinesMap(Apply(s, ops[0]).0, ops[1..]);
    }
  }

  /** At most CAPACITY additions ever succeed, and every user present was added once. */
  lemma {:induction false} RunBounds(s: State, ops: seq<Op>)
    requires |s.contents| <= s.added <= CAPACITY
    ensures
      var (t, rcs) := Run(s, ops);
      && |t.contents| <= t.added <= CAPACITY
      && |rcs| == |ops|
      && t.added == s.added + Successes(ops, rcs, true)
      && |t.contents| + Successes(ops, rcs, false) == |s.contents| + Successes(ops, rcs, true)
    decreases |ops|
  {
    if ops != [] {
      RunBounds(Apply(s, ops[0]).0, ops[1..]);
      var (t, rcs) := Run(s, ops);
      assert rcs[1..] == Run(Apply(s, ops[0]).0, ops[1..]).1;
    }
  }

  /** How many additions (or deletions) of a run returned 0. */
  function Successes(ops: seq<Op>, rcs: seq<int>, additions: bool): nat
    requires |rcs| == |ops|
    decreases |ops|
  {
    if ops == [] then 0
    else (if rcs[0] == 0 && ops[0].Add? == additions then 1 else 0) + Successes(ops[1..], rcs[1..], additions)
  }
}
