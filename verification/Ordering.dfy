/** Inorder sequences sorted by user name, and where a search for a name can end up. */
module Ordering {
  import opened Names
  import opened Trees

  predicate InNames(s: seq<Entry>, names: seq<string>) {
    forall e <- s :: 0 < e.user < |names|
  }

  /** Sorted by name; equal names may be neighbours. */
  predicate Ordered(s: seq<Entry>, names: seq<string>) {
    && InNames(s, names)
    && forall i, j :: 0 <= i < j < |s| ==> Leq(names[s[i].user], names[s[j].user])
  }

  predicate AllLeq(s: seq<Entry>, names: seq<string>, name: string) {
    forall e <- s :: 0 < e.user < |names| && Leq(names[e.user], name)
  }

  predicate AllAbove(s: seq<Entry>, names: seq<string>, name: string) {
    forall e <- s :: 0 < e.user < |names| && Less(name, names[e.user])
  }

  predicate Absent(s: seq<Entry>, names: seq<string>, name: string) {
    forall e <- s :: 0 < e.user < |names| && names[e.user] != name
  }

  /** Insertion into a sorted sequence, behind all entries with the same name. */
  function InsertEntry(s: seq<Entry>, e: Entry, names: seq<string>): seq<Entry>
    requires InNames(s, names) && 0 < e.user < |names|
  {
    if s == [] || Less(names[e.user], names[s[0].user]) then [e] + s
    else [s[0]] + InsertEntry(s[1..], e, names)
  }

  lemma {:induction false} InsertBetween(a: seq<Entry>, e: Entry, b: seq<Entry>, names: seq<string>)
    requires InNames(a, names) && InNames(b, names) && InNames(a + b, names) && 0 < e.user < |names|
    requires AllLeq(a, names, names[e.user]) && AllAbove(b, names, names[e.user])
    ensures InsertEntry(a + b, e, names) == a + [e] + b
  {
    if a == [] {
      assert a + b == b;
    } else {
      Trichotomy(names[a[0].user], names[e.user]);
      assert (a + b)[1..] == a[1..] + b && (a + b)[0] == a[0];
      InsertBetween(a[1..], e, b, names);
      assert [a[0]] + (a[1..] + [e] + b) == a + [e] + b;
    }
  }

  lemma AllGreater(s: seq<Entry>, names: seq<string>, name: string)
    requires s != [] && Ordered(s, names) && Less(name, names[s[0].user])
    ensures AllAbove(s, names, name)
  {
    forall i | 0 <= i < |s|
      ensures Less(name, names[s[i].user])
    {
      Trichotomy(names[s[0].user], names[s[0].user]);
      Compare(name, names[s[0].user], names[s[i].user]);
    }
  }

  lemma FirstGreater(s: seq<Entry>, names: seq<string>, name: string) returns (k: nat)
    requires Ordered(s, names)
    ensures k <= |s| && AllLeq(s[..k], names, name) && AllAbove(s[k..], names, name)
  {
    k := 0;
    while k < |s| && !Less(name, names[s[k].user])
      invariant k <= |s| && AllLeq(s[..k], names, name)
    {
      Trichotomy(name, names[s[k].user]);
      k := k + 1;
    }
    if k < |s| {
      assert s == s[..k] + s[k..];
      OrderedParts(s[..k], s[k..], names);
      AllGreater(s[k..], names, name);
    }
  }

  /** The new entry stands behind all entries that are not greater and before all that are. */
  lemma InsertedBehind(s: seq<Entry>, e: Entry, names: seq<string>) returns (a: seq<Entry>, b: seq<Entry>)
    requires Ordered(s, names) && 0 < e.user < |names|
    ensures s == a + b && InsertEntry(s, e, names) == a + [e] + b
    ensures forall x <- a :: 0 < x.user < |names| && !Less(names[e.user], names[x.user])
    ensures forall x <- b :: 0 < x.user < |names| && Less(names[e.user], names[x.user])
  {
    var k := FirstGreater(s, names, names[e.user]);
    a, b := s[..k], s[k..];
    assert s == a + b;
    InsertBetween(a, e, b, names);
    forall x | x in a
      ensures !Less(names[e.user], names[x.user])
    {
      Trichotomy(names[e.user], names[x.user]);
    }
  }

  lemma InsertedOrdered(a: seq<Entry>, e: Entry, b: seq<Entry>, names: seq<string>)
    requires Ordered(a + b, names) && 0 < e.user < |names|
    requires InNames(a, names) && InNames(b, names)
    requires AllLeq(a, names, names[e.user]) && AllAbove(b, names, names[e.user])
    ensures Ordered(a + [e] + b, names)
  {
    var s, r := a + b, a + [e] + b;
    forall i, j | 0 <= i < j < |r|
      ensures Leq(names[r[i].user], names[r[j].user])
    {
      var i', j' := if i < |a| then i else i - 1, if j < |a| then j else j - 1;
      if i != |a| && j != |a| {
        assert r[i] == s[i'] && r[j] == s[j'];
      } else if j == |a| {
        assert r[i] == a[i];
      } else {
        assert r[j] == b[j - |a| - 1];
      }
    }
  }

  lemma RemovedOrdered(a: seq<Entry>, e: Entry, b: seq<Entry>, names: seq<string>)
    requires Ordered(a + [e] + b, names)
    ensures Ordered(a + b, names)
  {
    var s, r := a + [e] + b, a + b;
    forall i | 0 <= i < |r|
      ensures r[i] == s[if i < |a| then i else i + 1]
    {
    }
  }

  lemma OrderedParts(a: seq<Entry>, b: seq<Entry>, names: seq<string>)
    requires Ordered(a + b, names)
    ensures Ordered(a, names) && Ordered(b, names)
    ensures forall i, j :: 0 <= i < |a| && 0 <= j < |b| ==> Leq(names[a[i].user], names[b[j].user])
  {
    var s := a + b;
    assert forall i :: 0 <= i < |a| ==> s[i] == a[i];
    forall j | 0 <= j < |b|
      ensures s[|a| + j] == b[j]
    {
    }
    forall i, j | 0 <= i < j < |b|
      ensures Leq(names[b[i].user], names[b[j].user])
    {
      assert Leq(names[s[|a| + i].user], names[s[|a| + j].user]);
    }
    forall i, j | 0 <= i < |a| && 0 <= j < |b|
      ensures Leq(names[a[i].user], names[b[j].user])
    {
      assert Leq(names[s[i].user], names[s[|a| + j].user]);
    }
  }

  /** Around an entry of a sorted sequence: what one comparison with it rules out. */
  lemma TurnAt(l: seq<Entry>, e: Entry, r: seq<Entry>, names: seq<string>, name: string)
    requires Ordered(l + [e] + r, names)
    ensures InNames(l, names) && InNames(r, names) && 0 < e.user < |names|
    ensures Leq(names[e.user], name) ==> AllLeq(l, names, name)
    ensures Less(name, names[e.user]) ==> AllAbove(r, names, name)
    ensures Less(names[e.user], name) ==> Absent(l, names, name)
    ensures Less(name, names[e.user]) ==> Absent(r, names, name)
  {
    OrderedParts(l + [e], r, names);
    OrderedParts(l, [e], names);
    assert (l + [e])[|l|] == e && [e][0] == e;
    forall i | 0 <= i < |l|
      ensures Leq(names[e.user], name) ==> Leq(names[l[i].user], name)
      ensures Less(names[e.user], name) ==> names[l[i].user] != name
    {
      assert Leq(names[l[i].user], names[[e][0].user]);
      Compare(names[l[i].user], names[e.user], name);
    }
    forall i | 0 <= i < |r|
      ensures Less(name, names[e.user]) ==> Less(name, names[r[i].user])
      ensures Less(name, names[e.user]) ==> names[r[i].user] != name
    {
      assert Leq(names[(l + [e])[|l|].user], names[r[i].user]);
      Compare(name, names[e.user], names[r[i].user]);
    }
  }

  /** At a node of a sorted tree, below path k. */
  lemma Turn(k: Path, t: Tree, names: seq<string>, name: string)
    requires t.Node? && Ordered(Inorder(Fill(k, t)), names)
    ensures InNames(Inorder(t.left), names) && InNames(Inorder(t.right), names)
    ensures InNames(Before(k), names) && InNames(After(k), names) && 0 < t.e.user < |names|
    ensures Leq(names[t.e.user], name) ==> AllLeq(Inorder(t.left), names, name)
    ensures Less(name, names[t.e.user]) ==> AllAbove(Inorder(t.right), names, name)
    ensures Less(names[t.e.user], name) ==> Absent(Inorder(t.left), names, name)
    ensures Less(name, names[t.e.user]) ==> Absent(Inorder(t.right), names, name)
  {
    FillInorder(k, t);
    OrderedParts(Before(k) + Inorder(t), After(k), names);
    OrderedParts(Before(k), Inorder(t), names);
    TurnAt(Inorder(t.left), t.e, Inorder(t.right), names, name);
  }

  /** The step of a search below t, towards side s. */
  function Step(s: Side, k: Path, t: Tree): Path
    requires t.Node?
  {
    Down(k, t.e, t.color, s, if s == LeftSide then t.right else t.left)
  }

  function Below(s: Side, t: Tree): Tree
    requires t.Node?
  {
    if s == LeftSide then t.left else t.right
  }

  /** Everything passed on the way to k is before, or after, the position of name. */
  predicate Heading(k: Path, names: seq<string>, name: string) {
    && AllLeq(Before(k), names, name) && AllAbove(After(k), names, name)
  }

  /** Each step on the way to k went where a descent for name goes. */
  predicate Descent(k: Path, names: seq<string>, name: string) {
    k.Down? ==>
      && 0 < k.e.user < |names| && (k.side == LeftSide <==> Less(name, names[k.e.user]))
      && Descent(k.up, names, name)
  }

  /** The tree with a red leaf for e where a descent for its name ends. */
  function Placed(t: Tree, e: Entry, names: seq<string>): Tree
    requires e.user < |names|
  {
    if t.Leaf? then Node(Leaf, e, Red, Leaf)
    else if t.e.user < |names| && Less(names[e.user], names[t.e.user]) then t.(left := Placed(t.left, e, names))
    else t.(right := Placed(t.right, e, names))
  }

  /** The colour of the node below which that leaf hangs; above is the colour above t. */
  function ColorAbove(t: Tree, names: seq<string>, name: string, above: Color): Color {
    if t.Leaf? then above
    else
      ColorAbove(if t.e.user < |names| && Less(name, names[t.e.user]) then t.left else t.right, names, name, t.color)
  }

  lemma {:induction false} DescentPlaces(k: Path, t: Tree, e: Entry, names: seq<string>)
    requires e.user < |names| && Descent(k, names, names[e.user])
    ensures Placed(Fill(k, t), e, names) == Fill(k, Placed(t, e, names))
    ensures ColorAbove(Fill(k, t), names, names[e.user], Black)
         == ColorAbove(t, names, names[e.user], if k.Top? then Black else k.color)
  {
    if k.Down? {
      DescentPlaces(k.up, Join(k.side, t, k.e, k.color, k.sibling), e, names);
    }
  }

  /** Nothing passed on the way to k bears the name. */
  predicate Missed(k: Path, names: seq<string>, name: string) {
    && Absent(Before(k), names, name) && Absent(After(k), names, name)
  }

  lemma StepSides(s: Side, k: Path, t: Tree)
    requires t.Node?
    ensures Fill(Step(s, k, t), Below(s, t)) == Fill(k, t)
    ensures Before(Step(s, k, t)) == if s == LeftSide then Before(k) else Before(k) + Inorder(t.left) + [t.e]
    ensures After(Step(s, k, t)) == if s == LeftSide then [t.e] + Inorder(t.right) + After(k) else After(k)
  {
  }

  lemma Concatenated(a: seq<Entry>, e: Entry, b: seq<Entry>, names: seq<string>, name: string)
    ensures AllLeq(a + b + [e], names, name) <==>
              AllLeq(a, names, name) && AllLeq(b, names, name) && AllLeq([e], names, name)
    ensures AllAbove([e] + a + b, names, name) <==>
              AllAbove([e], names, name) && AllAbove(a, names, name) && AllAbove(b, names, name)
    ensures Absent(a + b + [e], names, name) <==>
              Absent(a, names, name) && Absent(b, names, name) && Absent([e], names, name)
    ensures Absent([e] + a + b, names, name) <==>
              Absent([e], names, name) && Absent(a, names, name) && Absent(b, names, name)
  {
    assert forall x :: x in a + b + [e] <==> x in a || x in b || x in [e];
    assert forall x :: x in [e] + a + b <==> x in [e] || x in a || x in b;
  }

  /** One step of a descent for insertion keeps heading for the position of name. */
  lemma HeadingStep(k: Path, t: Tree, names: seq<string>, name: string)
    requires t.Node? && Ordered(Inorder(Fill(k, t)), names) && Heading(k, names, name)
    ensures 0 < t.e.user < |names|
    ensures
      var s := if Less(name, names[t.e.user]) then LeftSide else RightSide;
      Fill(Step(s, k, t), Below(s, t)) == Fill(k, t) && Heading(Step(s, k, t), names, name)
  {
    Turn(k, t, names, name);
    Trichotomy(name, names[t.e.user]);
    Trichotomy(names[t.e.user], name);
    if Less(name, names[t.e.user]) {
      StepSides(LeftSide, k, t);
      Concatenated(Inorder(t.right), t.e, After(k), names, name);
    } else {
      StepSides(RightSide, k, t);
      Concatenated(Before(k), t.e, Inorder(t.left), names, name);
    }
  }

  /** One step of a search leaves no entry with that name behind. */
  lemma MissedStep(k: Path, t: Tree, names: seq<string>, name: string)
    requires t.Node? && Ordered(Inorder(Fill(k, t)), names) && Missed(k, names, name)
    ensures 0 < t.e.user < |names|
    ensures t.e in Inorder(Fill(k, t))
    ensures names[t.e.user] != name ==>
      var s := if Less(name, names[t.e.user]) then LeftSide else RightSide;
      Fill(Step(s, k, t), Below(s, t)) == Fill(k, t) && Missed(Step(s, k, t), names, name)
  {
    Turn(k, t, names, name);
    Trichotomy(name, names[t.e.user]);
    Trichotomy(names[t.e.user], name);
    FillInorder(k, t);
    assert t.e in Inorder(t);
    if Less(name, names[t.e.user]) {
      StepSides(LeftSide, k, t);
      Concatenated(Inorder(t.right), t.e, After(k), names, name);
    } else {
      StepSides(RightSide, k, t);
      Concatenated(Before(k), t.e, Inorder(t.left), names, name);
    }
  }

  /** How many nodes a search for name looks at. */
  function SearchSteps(t: Tree, names: seq<string>, name: string): nat {
    if t.Leaf? then 0
    else if t.e.user >= |names| || names[t.e.user] == name then 1
    else 1 + SearchSteps(if Less(name, names[t.e.user]) then t.left else t.right, names, name)
  }

  /** The user that a search for name finds; 0 if there is none. */
  function SearchUser(t: Tree, names: seq<string>, name: string): nat {
    if t.Leaf? then 0
    else if t.e.user >= |names| || names[t.e.user] == name then t.e.user
    else SearchUser(if Less(name, names[t.e.user]) then t.left else t.right, names, name)
  }

  /** What one comparison of a search settles. */
  lemma SearchTurn(k: Path, t: Tree, names: seq<string>, name: string)
    requires t.Node? && Ordered(Inorder(Fill(k, t)), names) && Missed(k, names, name)
    ensures 0 < t.e.user < |names| && t.e in Inorder(Fill(k, t))
    ensures
      var cmp := StrCmp(name, names[t.e.user]);
      var s := if cmp < 0 then LeftSide else RightSide;
      if cmp == 0 then
        names[t.e.user] == name && SearchSteps(t, names, name) == 1 && SearchUser(t, names, name) == t.e.user
      else
        && Fill(Step(s, k, t), Below(s, t)) == Fill(k, t) && Missed(Step(s, k, t), names, name)
        && SearchSteps(t, names, name) == 1 + SearchSteps(Below(s, t), names, name)
        && SearchUser(t, names, name) == SearchUser(Below(s, t), names, name)
  {
    MissedStep(k, t, names, name);
    Trichotomy(name, names[t.e.user]);
  }

  lemma MissedAll(k: Path, names: seq<string>, name: string)
    requires Ordered(Inorder(Fill(k, Leaf)), names) && Missed(k, names, name)
    ensures Absent(Inorder(Fill(k, Leaf)), names, name)
  {
    FillInorder(k, Leaf);
    assert Inorder(Fill(k, Leaf)) == Before(k) + After(k);
  }

  /** The slot of the last entry; 0 if there is none. */
  function LastId(s: seq<Entry>): nat {
    if s == [] then 0 else s[|s| - 1].id
  }

  lemma EndOfDescent(k: Path)
    ensures Inorder(Fill(k, Leaf)) == Before(k) + After(k)
  {
    FillInorder(k, Leaf);
    assert Before(k) + Inorder(Leaf) == Before(k);
  }

  /** What a search finds bears the name, and it finds something if the name is there. */
  lemma {:induction false} SearchMeans(k: Path, t: Tree, names: seq<string>, name: string)
    requires Ordered(Inorder(Fill(k, t)), names) && Missed(k, names, name)
    ensures
      var u := SearchUser(t, names, name);
      if u == 0 then Absent(Inorder(Fill(k, t)), names, name)
      else u < |names| && names[u] == name && exists e <- Inorder(Fill(k, t)) :: e.user == u
    decreases t
  {
    if t.Leaf? {
      MissedAll(k, names, name);
    } else {
      SearchTurn(k, t, names, name);
      Trichotomy(name, names[t.e.user]);
      if names[t.e.user] != name {
        var s := if StrCmp(name, names[t.e.user]) < 0 then LeftSide else RightSide;
        SearchMeans(Step(s, k, t), Below(s, t), names, name);
      }
    }
  }

  /** Everything passed on the way to k is less than name, or not less. */
  predicate Parting(k: Path, names: seq<string>, name: string) {
    && (forall e <- Before(k) :: 0 < e.user < |names| && Less(names[e.user], name))
    && (forall e <- After(k) :: 0 < e.user < |names| && Leq(name, names[e.user]))
  }

  /** So the last entry before k is the greatest of those with smaller names: they all come
      before k, and none behind it is one of them. */
  lemma PartingMeans(k: Path, names: seq<string>, name: string, e: Entry)
    requires Parting(k, names, name) && Ordered(Before(k) + After(k), names) && e in Before(k) + After(k)
    ensures 0 < e.user < |names|
    ensures Less(names[e.user], name) ==>
      && Before(k) != []
      && var last := Before(k)[|Before(k)| - 1];
      0 < last.user < |names| && Less(names[last.user], name) && Leq(names[e.user], names[last.user])
    ensures !Less(names[e.user], name) ==> e in After(k)
    ensures e in After(k) ==> !Less(names[e.user], name)
  {
    Trichotomy(names[e.user], name);
    Trichotomy(name, names[e.user]);
    if e in Before(k) {
      var i :| 0 <= i < |Before(k)| && Before(k)[i] == e;
      OrderedParts(Before(k), After(k), names);
      Trichotomy(names[e.user], names[e.user]);
    }
  }

  /** One step of a search for the predecessor of name. */
  lemma PartingStep(k: Path, t: Tree, names: seq<string>, name: string)
    requires t.Node? && Ordered(Inorder(Fill(k, t)), names) && Parting(k, names, name)
    ensures 0 < t.e.user < |names|
    ensures
      var s := if Leq(name, names[t.e.user]) then LeftSide else RightSide;
      && Fill(Step(s, k, t), Below(s, t)) == Fill(k, t) && Parting(Step(s, k, t), names, name)
      && LastId(Before(Step(s, k, t))) == if s == LeftSide then LastId(Before(k)) else t.e.id
  {
    Turn(k, t, names, name);
    Neighbours(k, t, names);
    Trichotomy(name, names[t.e.user]);
    Trichotomy(names[t.e.user], name);
    if Leq(name, names[t.e.user]) {
      StepSides(LeftSide, k, t);
      forall e <- Inorder(t.right)
        ensures Leq(name, names[e.user])
      {
        Compare(name, names[t.e.user], names[e.user]);
      }
    } else {
      StepSides(RightSide, k, t);
      forall e <- Inorder(t.left)
        ensures Less(names[e.user], name)
      {
        Compare(names[e.user], names[t.e.user], name);
      }
    }
  }

  lemma Neighbours(k: Path, t: Tree, names: seq<string>)
    requires t.Node? && Ordered(Inorder(Fill(k, t)), names)
    ensures InNames(Inorder(t.left), names) && InNames(Inorder(t.right), names) && 0 < t.e.user < |names|
    ensures forall e <- Inorder(t.left) :: Leq(names[e.user], names[t.e.user])
    ensures forall e <- Inorder(t.right) :: Leq(names[t.e.user], names[e.user])
  {
    Turn(k, t, names, "");
    FillInorder(k, t);
    OrderedParts(Before(k) + Inorder(t), After(k), names);
    OrderedParts(Before(k), Inorder(t), names);
    var l, r := Inorder(t.left), Inorder(t.right);
    OrderedParts(l + [t.e], r, names);
    OrderedParts(l, [t.e], names);
    assert (l + [t.e])[|l|] == t.e && [t.e][0] == t.e;
  }

  lemma Compare(a: string, b: string, c: string)
    ensures Leq(a, b) && Leq(b, c) ==> Leq(a, c)
    ensures Less(a, b) && Leq(b, c) ==> Less(a, c) && a != c
    ensures Leq(a, b) && Less(b, c) ==> Less(a, c) && a != c
    ensures Less(a, b) ==> Leq(a, b)
  {
    if Leq(a, b) && Leq(b, c) {
      LeqTransitive(a, b, c);
    }
    Trichotomy(a, c);
  }
}
