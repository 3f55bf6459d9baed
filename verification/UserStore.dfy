/** The user store of src/user_store.c: two pools, the linked list and its tree index. */
module UserStore {
  import opened Names
  import opened Trees
  import opened Pools
  import opened Ordering
  import opened UserData
  import opened Chains
  import opened StoreModel
  import opened UserIndex

  const NO_USER := User("", "", "", "", "", "")

  /** List slots of the users in a sequence of tree entries. */
  function UsersOf(s: seq<Entry>): (u: seq<nat>)
    ensures |u| == |s|
    ensures forall i :: 0 <= i < |s| ==> u[i] == s[i].user
  {
    seq(|s|, i requires 0 <= i < |s| => s[i].user)
  }

  lemma UsersOfMember(s: seq<Entry>, u: nat)
    ensures u in UsersOf(s) <==> exists e <- s :: e.user == u
  {
    var us := UsersOf(s);
    if u in us {
      var i :| 0 <= i < |us| && us[i] == u;
      assert s[i] in s;
    }
    if e :| e in s && e.user == u {
      var i :| 0 <= i < |s| && s[i] == e;
      assert us[i] == u;
    }
  }

  lemma {:induction false} UsersInserted(s: seq<Entry>, e: Entry, names: seq<string>)
    requires InNames(s, names) && 0 < e.user < |names|
    ensures multiset(UsersOf(InsertEntry(s, e, names))) == multiset(UsersOf(s)) + multiset{e.user}
  {
    if s == [] || Less(names[e.user], names[s[0].user]) {
      UsersCons(e, s);
    } else {
      var r := InsertEntry(s[1..], e, names);
      UsersInserted(s[1..], e, names);
      UsersCons(s[0], r);
      UsersCons(s[0], s[1..]);
      assert s == [s[0]] + s[1..];
    }
  }

  lemma UsersCons(e: Entry, s: seq<Entry>)
    ensures multiset(UsersOf([e] + s)) == multiset{e.user} + multiset(UsersOf(s))
  {
    assert UsersOf([e] + s) == [e.user] + UsersOf(s);
  }

  lemma SamePrefixes(s: seq<Entry>, r: seq<Entry>, at: nat)
    requires at < |s| && r == s[..at] + s[at + 1..]
    ensures UsersOf(r) == Without(UsersOf(s), at)
  {
    var us, vs := UsersOf(s), UsersOf(r);
    forall k | 0 <= k < |vs|
      ensures vs[k] == Without(us, at)[k]
    {
      assert r[k] == s[if k < at then k else k + 1];
    }
  }

  lemma UsersRemoved(s: seq<Entry>, at: nat)
    requires at < |s|
    ensures multiset(UsersOf(s[..at] + s[at + 1..])) == multiset(UsersOf(s)) - multiset{s[at].user}
  {
    SamePrefixes(s, s[..at] + s[at + 1..], at);
    WithoutMultiset(UsersOf(s), at);
  }

  lemma WithoutMultiset<T>(s: seq<T>, i: nat)
    requires i < |s|
    ensures multiset(Without(s, i)) == multiset(s) - multiset{s[i]}
  {
    assert s == s[..i] + [s[i]] + s[i + 1..];
  }

  lemma OrderedFrame(s: seq<Entry>, names: seq<string>, names': seq<string>)
    requires Ordered(s, names) && |names'| == |names|
    requires forall e <- s :: e.user < |names| ==> names'[e.user] == names[e.user]
    ensures Ordered(s, names')
  {
    assert forall i :: 0 <= i < |s| ==> s[i] in s;
  }

  /** The slot found by name is the one at the position of the name. */
  lemma {:induction false} SlotOfIndex(h: seq<ListNode>, chain: seq<nat>, name: string)
    requires Within(chain, |h|)
    ensures
      var i := IndexOf(Contents(h, chain), name);
      SlotOf(h, chain, name) == if i < |chain| then chain[i] else 0
  {
    if chain != [] {
      var s := Contents(h, chain);
      assert s[1..] == Contents(h, chain[1..]);
      if s[0].name != name {
        SlotOfIndex(h, chain[1..], name);
        var j := IndexOf(s[1..], name);
        assert IndexOf(s, name) == 1 + j;
        assert j < |chain| - 1 ==> chain[1..][j] == chain[j + 1];
      }
    }
  }

  /** A slot of the chain that bears the name keeps the search from failing. */
  lemma InChain(h: seq<ListNode>, chain: seq<nat>, name: string, u: nat)
    requires Within(chain, |h|) && u in chain && u < |h| && h[u].data.name == name
    ensures SlotOf(h, chain, name) != 0
  {
    SlotOfIndex(h, chain, name);
    var k :| 0 <= k < |chain| && chain[k] == u;
    assert Contents(h, chain)[k].name == name;
  }

  /** The only slot of the chain that bears the name is the one found. */
  lemma SlotOfOnly(h: seq<ListNode>, chain: seq<nat>, name: string, u: nat)
    requires Within(chain, |h|) && OnlyOnce(Contents(h, chain), name)
    requires u in chain && u < |h| && h[u].data.name == name
    ensures SlotOf(h, chain, name) == u
  {
    var k :| 0 <= k < |chain| && chain[k] == u;
    SlotOfIndex(h, chain, name);
    OnlyIndex(Contents(h, chain), name, k);
  }

  lemma OnlyIndex(s: seq<User>, name: string, k: nat)
    requires OnlyOnce(s, name) && k < |s| && s[k].name == name
    ensures IndexOf(s, name) == k
  {
    var i := IndexOf(s, name);
    assert i <= k && s[i].name == name;
  }

  class Store {
    const lists: array<ListNode>
    const trees: array<TreeNode>
    const index: Index
    var headerRoot: nat
    var size: int
    var listNextFree: nat
    var treeNextFree: nat
    ghost var chain: seq<nat>  // list slots in link order

    /** Pools, list and tree are well formed, each on its own. */
    ghost predicate Apart()
      reads this, lists, trees, index
    {
      && index.nodes == trees && index.users == lists
      && lists.Length == trees.Length == POOL_NODES
      && 1 <= listNextFree == treeNextFree <= POOL_NODES
      && index.Valid()
      && Linked(lists[..], 0, chain) && Within(chain, listNextFree)
      && (forall i <- Ids(index.tree) :: i < treeNextFree)
    }

    /** List and tree hold the same users. */
    ghost predicate Consistent()
      reads this, lists, trees, index
    {
      Apart() && multiset(UsersOf(Inorder(index.tree))) == multiset(chain)
    }

    ghost predicate Valid()
      reads this, lists, trees, index
    {
      Consistent() && headerRoot == index.root
    }

    /** The users newest first, and the number of slots used up. */
    ghost function Abs(): State
      reads this, lists, trees, index
      requires Apart()
    {
      State(Contents(lists[..], chain), listNextFree - 1)
    }

    /** The list slot that the index finds for a name. */
    ghost function Indexed(name: string): nat
      reads this, lists, trees, index
      requires Apart()
    {
      SearchUser(index.tree, NamesOf(lists[..]), name)
    }

    /** The list slot that the list search finds. */
    ghost function Listed(name: string): nat
      reads this, lists, trees, index
      requires Apart()
    {
      SlotOf(lists[..], chain, name)
    }

    constructor ()
      ensures Valid() && fresh(lists) && fresh(trees) && fresh(index)
      ensures Abs() == State([], 0) && size == 0
    {
      var l := new ListNode[POOL_NODES](_ => ListNode(NO_USER, 0, false));
      var t := new TreeNode[POOL_NODES](_ => TreeNode(0, 0, 0, 0, Red, false));
      t[0] := TreeNode(0, 0, 0, 0, Black, true);
      l[0] := ListNode(NO_USER, 0, true);
      lists, trees := l, t;
      index := new Index(t, l);
      headerRoot, size := 0, 0;
      listNextFree, treeNextFree := 1, 1;
      chain := [];
    }

    /** The next list slot, cleared and marked used; 0 when the pool is exhausted. */
    method ListAlloc() returns (n: nat)
      requires 0 < listNextFree && lists.Length == POOL_NODES
      modifies this`listNextFree, lists
      ensures n == if old(listNextFree) < POOL_NODES then old(listNextFree) else 0
      ensures n == 0 ==> listNextFree == old(listNextFree) && lists[..] == old(lists[..])
      ensures n != 0 ==>
        listNextFree == n + 1 && lists[..] == old(lists[..])[n := ListNode(NO_USER, 0, true)]
    {
      if listNextFree >= POOL_NODES {
        return 0;
      }
      n := listNextFree;
      listNextFree := n + 1;
      lists[n] := ListNode(NO_USER, 0, true);
    }

    /** The next tree slot, likewise. */
    method TreeAlloc() returns (n: nat)
      requires 0 < treeNextFree && trees.Length == POOL_NODES
      modifies this`treeNextFree, trees
      ensures n == if old(treeNextFree) < POOL_NODES then old(treeNextFree) else 0
      ensures n == 0 ==> treeNextFree == old(treeNextFree) && trees[..] == old(trees[..])
      ensures n != 0 ==>
        treeNextFree == n + 1 && trees[..] == old(trees[..])[n := TreeNode(0, 0, 0, 0, Red, true)]
    {
      if treeNextFree >= POOL_NODES {
        return 0;
      }
      n := treeNextFree;
      treeNextFree := n + 1;
      trees[n] := TreeNode(0, 0, 0, 0, Red, true);
    }

    /** Linear search of the list. */
    method Find(name: string) returns (cur: nat)
      requires Apart()
      ensures cur == Listed(name)
    {
      cur := lists[0].next;
      ghost var prev, rest := 0, chain;
      while cur != 0
        invariant Linked(lists[..], prev, rest) && cur == lists[prev].next
        invariant Within(rest, |lists[..]|) && SlotOf(lists[..], rest, name) == SlotOf(lists[..], chain, name)
        decreases |rest|
      {
        if lists[cur].used && lists[cur].data.name == name {
          return;
        }
        prev, rest := cur, rest[1..];
        cur := lists[cur].next;
      }
    }

    /** Search by the tree index: it succeeds exactly when the list search does, with the same
        slot if no two users share the name. */
    method FindIndex(name: string) returns (cur: nat)
      requires Consistent()
      ensures cur == Indexed(name)
      ensures cur == 0 <==> Listed(name) == 0
      ensures cur != 0 ==> cur in chain && cur < lists.Length && lists[cur].data.name == name
      ensures OnlyOnce(Abs().contents, name) ==> cur == Listed(name)
    {
      cur := index.Find(name);
      SearchAgrees(lists[..], chain, index.tree, name);
    }

    /** A user just linked into the list, in the newest slot, is not in the tree yet. */
    ghost predicate HalfInserted()
      reads this, lists, trees, index
    {
      && index.nodes == trees && index.users == lists
      && lists.Length == trees.Length == POOL_NODES
      && 1 <= treeNextFree && listNextFree == treeNextFree + 1 && listNextFree <= POOL_NODES
      && index.Valid()
      && Linked(lists[..], 0, chain) && Within(chain, listNextFree)
      && (forall i <- Ids(index.tree) :: i < treeNextFree)
      && chain != [] && chain[0] == treeNextFree
      && multiset(UsersOf(Inorder(index.tree))) == multiset(chain[1..])
    }

    /** Fills a list slot and links it in behind the sentinel. */
    method PlaceUser(node: nat, elem: User)
      requires 0 < node < lists.Length
      modifies lists
      ensures
        var h := old(lists[..]);
        lists[..] == h[node := ListNode(elem, h[0].next, h[node].used)][0 := h[0].(next := node)]
    {
      lists[node] := lists[node].(data := elem);
      lists[node] := lists[node].(next := lists[0].next);
      lists[0] := lists[0].(next := node);
    }

    /** A new list slot behind the sentinel. */
    method TakeListSlot(elem: User) returns (node: nat)
      requires 0 < listNextFree && lists.Length == POOL_NODES
      modifies this`listNextFree, lists
      ensures node == if old(listNextFree) < POOL_NODES then old(listNextFree) else 0
      ensures node == 0 ==> listNextFree == old(listNextFree) && lists[..] == old(lists[..])
      ensures node != 0 ==>
        var h := old(lists[..]);
        listNextFree == node + 1 && lists[..] == h[node := ListNode(elem, h[0].next, true)][0 := h[0].(next := node)]
    {
      ghost var h := lists[..];
      node := ListAlloc();
      if node != 0 {
        PlaceUser(node, elem);
        assert h[node := ListNode(NO_USER, 0, true)][node := ListNode(elem, h[0].next, true)]
            == h[node := ListNode(elem, h[0].next, true)];
      }
    }

    /** Puts a user into a new list slot behind the sentinel. */
    method LinkUser(elem: User) returns (node: nat)
      requires Consistent()
      modifies this`listNextFree, this`chain, lists
      ensures node == if old(listNextFree) < POOL_NODES then old(listNextFree) else 0
      ensures node == 0 ==>
        && Consistent() && chain == old(chain)
        && listNextFree == old(listNextFree) && lists[..] == old(lists[..])
      ensures node != 0 ==>
        && HalfInserted() && chain == [node] + old(chain)
        && Contents(lists[..], chain) == [elem] + old(Contents(lists[..], chain))
    {
      ghost var h, c := lists[..], chain;
      node := TakeListSlot(elem);
      if node == 0 {
        return;
      }
      chain := InFront(h, lists[..], c, node, elem, Inorder(index.tree));
    }

    /** A new tree slot for a list slot; it cannot be lacking, as the two pools are used up
        in lockstep. */
    method NewTreeNode(node: nat) returns (tn: nat)
      requires index.nodes == trees && index.users == lists && trees.Length == POOL_NODES
      requires 0 < treeNextFree < POOL_NODES && index.Valid()
      requires forall i <- Ids(index.tree) :: i < treeNextFree
      modifies this`treeNextFree, trees
      ensures tn == old(treeNextFree) && treeNextFree == tn + 1
      ensures trees[tn].user == node && trees[tn].used
      ensures index.Valid() && tn !in Ids(index.tree)
    {
      tn := TreeAlloc();
      if tn == 0 {
        assert false;
        return;
      }
      trees[tn] := trees[tn].(user := node, left := 0, right := 0, parent := 0, color := Red);
      RepFrame(old(trees[..]), trees[..], index.tree, 0);
    }

    /** The index with the newest tree slot, which holds the user of list slot node, put in. */
    method InsertNode(node: nat, ghost s: seq<Entry>) returns (rc: int)
      requires Apart() && 0 < node < lists.Length && 1 < treeNextFree && treeNextFree - 1 !in Ids(index.tree)
      requires trees[treeNextFree - 1].user == node && trees[treeNextFree - 1].used
      requires s == InsertEntry(Inorder(index.tree), Entry(treeNextFree - 1, node), NamesOf(lists[..]))
      requires multiset(UsersOf(s)) == multiset(chain)
      modifies trees, index
      ensures Consistent() && rc == 0
    {
      ghost var h := lists[..];
      rc := index.Insert(node, treeNextFree);
      assert lists[..] == h;
      assert Inorder(index.tree) == s;
    }

    /** Puts the newest list slot into a new tree slot and into the tree. */
    method IndexUser(node: nat) returns (rc: int)
      requires HalfInserted() && node == chain[0]
      modifies this`treeNextFree, trees, index
      ensures Consistent() && rc == 0
    {
      ghost var h := lists[..];
      ghost var s := HeadIndexed(Inorder(index.tree), Entry(treeNextFree, node), NamesOf(h), chain);
      var tn := NewTreeNode(node);
      assert lists[..] == h;
      rc := InsertNode(node, s);
    }

    /** Common part of adding and loading: one user into both pools, the list and the tree. */
    method Append(elem: User) returns (rc: int)
      requires Consistent()
      modifies this`listNextFree, this`treeNextFree, this`chain, lists, trees, index
      ensures Consistent()
      ensures rc == if old(listNextFree) < POOL_NODES then 0 else -1
      ensures rc == -1 ==> lists[..] == old(lists[..]) && trees[..] == old(trees[..]) && chain == old(chain)
      ensures rc == -1 ==> index.root == old(index.root) && Abs() == old(Abs())
      ensures rc == 0 ==> Abs() == State([elem] + old(Abs().contents), old(Abs().added) + 1)
      ensures rc == 0 ==> chain == [old(listNextFree)] + old(chain)
    {
      ghost var s, t := Contents(lists[..], chain), trees[..];
      var node := LinkUser(elem);
      assert trees[..] == t;
      if node == 0 {
        return -1;
      }
      ghost var h := lists[..];
      rc := IndexUser(node);
      assert lists[..] == h;
    }

    method LoadNext(users: seq<User>, n: nat, ghost s: State) returns (rc: int)
      requires Consistent() && n < |users| && Abs() == Loaded(s, users, n)
      modifies this`listNextFree, this`treeNextFree, this`chain, lists, trees, index
      ensures Consistent() && rc == if s.added + n < CAPACITY then 0 else -1
      ensures Abs() == Loaded(s, users, if rc == 0 then n + 1 else n)
    {
      NextLoaded(s, users, n);
      rc := Append(users[n]);
    }

    /** The loop over the parsed users, until the pool is used up. */
    method LoadUsers(users: seq<User>) returns (loaded: nat)
      requires Consistent()
      modifies this`listNextFree, this`treeNextFree, this`chain, lists, trees, index
      ensures Consistent()
      ensures loaded == if |users| <= CAPACITY - old(Abs().added) then |users| else CAPACITY - old(Abs().added)
      ensures Abs() == Loaded(old(Abs()), users, loaded)
    {
      ghost var s := Abs();
      loaded := 0;
      NothingLoaded(s, users);
      while loaded < |users|
        invariant Consistent() && loaded <= |users| && s.added + loaded <= CAPACITY
        invariant Abs() == Loaded(s, users, loaded)
      {
        var rc := LoadNext(users, loaded, s);
        if rc != 0 {
          break;
        }
        loaded := loaded + 1;
      }
    }

    /** Loading parsed records at start-up: no check for taken names, and the header is only
        written at the end, where its size also counts a skipped heading line. */
    method Load(users: seq<User>, headingLine: bool) returns (loaded: nat)
      requires Valid()
      modifies this, lists, trees, index
      ensures Valid()
      ensures loaded == if |users| <= CAPACITY - old(Abs().added) then |users| else CAPACITY - old(Abs().added)
      ensures Abs() == Loaded(old(Abs()), users, loaded)
      ensures size == loaded + if headingLine then 1 else 0
    {
      loaded := LoadUsers(users);
      Commit(loaded + (if headingLine then 1 else 0) - size);
    }

    /** The header after an operation: the new size, and the root the tree has now. */
    method Commit(delta: int)
      requires Apart()
      modifies this`size, this`headerRoot
      ensures Apart() && Abs() == old(Abs()) && size == old(size) + delta
      ensures headerRoot == index.root && (Consistent() <==> old(Consistent()))
    {
      ghost var h, t, c, r := lists[..], trees[..], chain, index.tree;
      size := size + delta;
      headerRoot := index.root;
      assert lists[..] == h && trees[..] == t && chain == c && index.tree == r;
    }

    /** Adds a user and updates the header. */
    method AddNew(elem: User) returns (rc: int)
      requires Valid()
      modifies this, lists, trees, index
      ensures Valid()
      ensures rc == if old(listNextFree) < POOL_NODES then 0 else -1
      ensures rc == -1 ==>
        Abs() == old(Abs()) && lists[..] == old(lists[..]) && trees[..] == old(trees[..]) && chain == old(chain)
      ensures rc == 0 ==> Abs() == State([elem] + old(Abs().contents), old(Abs().added) + 1)
      ensures size == old(size) + if rc == 0 then 1 else 0
    {
      rc := Append(elem);
      if rc != 0 {
        return;
      }
      Commit(1);
    }

    /** Adds a user unless the name is taken; 1 if it is, -1 if the pools are exhausted. */
    method Add(elem: User) returns (rc: int)
      requires Valid()
      modifies this, lists, trees, index
      ensures Valid()
      ensures Abs() == Apply(old(Abs()), Op.Add(elem)).0
      ensures rc == Apply(old(Abs()), Op.Add(elem)).1
      ensures size == old(size) + if rc == 0 then 1 else 0
      ensures rc != 0 ==> lists[..] == old(lists[..]) && trees[..] == old(trees[..]) && chain == old(chain)
    {
      var dup := Find(elem.name);
      ghost var s := Abs();
      SlotOfIndex(lists[..], chain, elem.name);
      assert dup == 0 <==> IndexOf(s.contents, elem.name) == |s.contents|;
      if dup != 0 {
        return 1;
      }
      rc := AddNew(elem);
    }

    /** The position of the first user bearing the name, its slot and the slot before it. */
    method Seek(name: string) returns (prev: nat, cur: nat, ghost i: nat)
      requires Consistent()
      ensures i == IndexOf(Contents(lists[..], chain), name)
      ensures i < |chain| ==> cur == chain[i] && 0 < cur < lists.Length && prev != cur
      ensures i == |chain| ==> cur == 0
      ensures cur == Listed(name)
      ensures prev == (if i == 0 then 0 else chain[i - 1]) && prev < lists.Length
    {
      prev := 0;
      cur := lists[prev].next;
      i := 0;
      ghost var rest := chain;
      while cur != 0
        invariant i <= |chain| && rest == chain[i..] && prev < lists.Length && cur == lists[prev].next
        invariant Linked(lists[..], prev, rest)
        invariant prev == if i == 0 then 0 else chain[i - 1]
        invariant forall j :: 0 <= j < i ==> lists[chain[j]].data.name != name
        decreases |chain| - i
      {
        SuffixStep(chain, i, rest);
        if lists[cur].used && lists[cur].data.name == name {
          break;
        }
        prev := cur;
        cur := lists[cur].next;
        i := i + 1;
        rest := rest[1..];
      }
      if cur == 0 && i < |chain| {
        assert false;
      }
      FoundInList(lists[..], chain, name, i);
    }

    /** The user in list slot cur is unlinked already, but still in the tree. */
    ghost predicate HalfDeleted(cur: nat)
      reads this, lists, trees, index
    {
      && Apart() && 0 < cur < lists.Length
      && multiset(UsersOf(Inorder(index.tree))) == multiset(chain) + multiset{cur}
    }

    /** Unlinks position i of the list and marks its slot unused. */
    method UnlinkUser(prev: nat, cur: nat, ghost i: nat)
      requires Consistent() && i < |chain| && cur == chain[i] && 0 < cur < lists.Length && prev != cur
      requires prev == (if i == 0 then 0 else chain[i - 1]) && prev < lists.Length
      modifies this`chain, lists
      ensures HalfDeleted(cur) && NamesOf(lists[..]) == old(NamesOf(lists[..]))
      ensures Abs() == old(State(Without(Abs().contents, i), Abs().added))
    {
      ghost var h, c := lists[..], chain;
      lists[prev] := lists[prev].(next := lists[cur].next);
      lists[cur] := lists[cur].(used := false);
      ghost var h' := lists[..];
      Unlinked(h, h', c, i);
      ShorterChain(c, i);
      chain := Without(c, i);
      assert lists[..] == h';
    }

    /** Takes a user of that name out of the tree: the one that a search finds. */
    method UnindexUser(name: string, ghost cur: nat)
      requires HalfDeleted(cur) && name == lists[cur].data.name
      modifies trees, index
      ensures Apart() && Abs() == old(Abs())
      ensures Consistent() <==> old(Indexed(name)) == cur
    {
      ghost var h, c, s := lists[..], chain, Inorder(index.tree);
      StillThere(h, c, s, cur);
      var rc, at := index.Delete(name);
      assert lists[..] == h && chain == c;
      ghost var s' := LastIndexed(c, s, cur, at);
      assert Inorder(index.tree) == s';
    }

    /** Removes the user at position i of the list, which bears the name. */
    method DeletePresent(name: string, prev: nat, cur: nat, ghost i: nat)
      requires Consistent() && i < |chain| && cur == chain[i] && 0 < cur < lists.Length && prev != cur
      requires prev == (if i == 0 then 0 else chain[i - 1]) && prev < lists.Length
      requires lists[cur].data.name == name
      modifies this, lists, trees, index
      ensures Apart() && headerRoot == index.root && size == old(size) - 1
      ensures Abs() == old(State(Without(Abs().contents, i), Abs().added))
      ensures Consistent() <==> old(Indexed(name)) == cur
    {
      ghost var t, names := index.tree, NamesOf(lists[..]);
      UnlinkUser(prev, cur, i);
      assert index.tree == t && NamesOf(lists[..]) == names;
      UnindexUser(name, cur);
      Commit(-1);
    }

    /** Removes the user with that name from the list and one of that name from the tree; -1 if
        there is none.  They stay in step exactly if both searches find the same user, which is
        sure if no two users share the name. */
    method Delete(name: string) returns (rc: int)
      requires Valid()
      modifies this, lists, trees, index
      ensures Apart() && headerRoot == index.root
      ensures Abs() == Apply(old(Abs()), Op.Delete(name)).0
      ensures rc == Apply(old(Abs()), Op.Delete(name)).1
      ensures size == old(size) - if rc == 0 then 1 else 0
      ensures Valid() <==> old(Indexed(name)) == old(Listed(name))
      ensures OnlyOnce(old(Abs().contents), name) ==> Valid()
      ensures rc != 0 ==> lists[..] == old(lists[..]) && trees[..] == old(trees[..]) && chain == old(chain)
    {
      SearchAgrees(lists[..], chain, index.tree, name);
      ghost var s, u, l := Abs(), Indexed(name), Listed(name);
      ghost var r := Apply(s, Op.Delete(name));
      assert OnlyOnce(s.contents, name) ==> u == l;
      var prev, cur, i := Seek(name);
      assert cur != 0 ==> s.contents[i] == lists[cur].data;
      assert cur == l && r == if cur == 0 then (s, -1) else (State(Without(s.contents, i), s.added), 0);
      if cur == 0 {
        return -1;
      }
      DeletePresent(name, prev, cur, i);
      rc := 0;
    }

    /** Without repeated names both searches find the same slot for every name. */
    lemma SearchesAgree()
      requires Consistent() && DistinctNames(Abs().contents)
      ensures forall name :: Indexed(name) == Listed(name)
    {
      forall name
        ensures Indexed(name) == Listed(name)
      {
        SearchAgrees(lists[..], chain, index.tree, name);
      }
    }

    method PerformOne(op: Op) returns (rc: int)
      requires Valid() && DistinctNames(Abs().contents)
      modifies this, lists, trees, index
      ensures Valid() && DistinctNames(Abs().contents) && (Abs(), rc) == Apply(old(Abs()), op)
      ensures size - |Abs().contents| == old(size - |Abs().contents|)
    {
      StepRefinesMap(Abs(), op);
      match op
      case Add(user) => rc := Add(user);
      case Delete(name) => rc := Delete(name);
    }

    /** Any run of additions and deletions: list and index stay in step and answer alike, as the
        abstract store and so as a map by name, and the header size counts along. */
    method Perform(ops: seq<Op>) returns (rcs: seq<int>)
      requires Valid() && DistinctNames(Abs().contents)
      modifies this, lists, trees, index
      ensures Valid() && DistinctNames(Abs().contents) && (Abs(), rcs) == Run(old(Abs()), ops)
      ensures forall name :: Indexed(name) == Listed(name)
      ensures size - |Abs().contents| == old(size - |Abs().contents|)
      decreases |ops|
    {
      rcs := [];
      if ops != [] {
        var rc := PerformOne(ops[0]);
        rcs := Perform(ops[1..]);
        rcs := [rc] + rcs;
      }
      SearchesAgree();
    }
  }

  /** Loading users of different names. */
  lemma LoadedDistinct(users: seq<User>, n: nat)
    requires DistinctNames(users) && n <= |users|
    ensures DistinctNames(Reversed(users[..n]))
  {
  }

  /** From start-up on: load users of different names into an initialised store, then add and
      delete at will. */
  method StartAndPerform(users: seq<User>, headingLine: bool, ops: seq<Op>)
      returns (store: Store, loaded: nat, rcs: seq<int>)
    requires DistinctNames(users)
    ensures store.Valid() && loaded == if |users| <= CAPACITY then |users| else CAPACITY
    ensures (store.Abs(), rcs) == Run(State(Reversed(users[..loaded]), loaded), ops)
    ensures forall name :: store.Indexed(name) == store.Listed(name)
    ensures store.size == |store.Abs().contents| + if headingLine then 1 else 0
  {
    store := new Store();
    loaded := store.Load(users, headingLine);
    assert Reversed(users[..loaded]) + [] == Reversed(users[..loaded]);
    LoadedDistinct(users, loaded);
    rcs := store.Perform(ops);
  }

  lemma Unlinked(h: seq<ListNode>, h': seq<ListNode>, c: seq<nat>, i: nat)
    requires Linked(h, 0, c) && i < |c| && Bypass(h, h', 0, c, i)
    requires Within(c, |h|)
    ensures Linked(h', 0, Without(c, i)) && Within(Without(c, i), |h'|)
    ensures Contents(h', Without(c, i)) == Without(Contents(h, c), i)
    ensures NamesOf(h') == NamesOf(h)
  {
    Bypassed(h, h', 0, c, i);
  }

  /** A chain without one of its slots. */
  lemma ShorterChain(c: seq<nat>, i: nat)
    requires i < |c|
    ensures multiset(c) == multiset(Without(c, i)) + multiset{c[i]}
    ensures forall n :: Within(c, n) ==> Within(Without(c, i), n)
  {
    WithoutMultiset(c, i);
    assert c[i] in multiset(c);
    forall n | Within(c, n)
      ensures Within(Without(c, i), n)
    {
      assert forall k :: 0 <= k < |c| - 1 ==> Without(c, i)[k] == c[if k < i then k else k + 1];
    }
  }

  /** The user in a slot that the tree indexes. */
  lemma StillThere(h: seq<ListNode>, chain: seq<nat>, s: seq<Entry>, cur: nat)
    requires cur < |h| && multiset(UsersOf(s)) == multiset(chain) + multiset{cur}
    ensures !Absent(s, NamesOf(h), h[cur].data.name)
  {
    assert cur in multiset(UsersOf(s));
    UsersOfMember(s, cur);
  }

  /** Taking an entry out leaves exactly the listed users in the tree, if it is the right one. */
  lemma LastIndexed(chain: seq<nat>, s: seq<Entry>, cur: nat, at: nat) returns (s': seq<Entry>)
    requires multiset(UsersOf(s)) == multiset(chain) + multiset{cur} && at < |s|
    ensures s' == s[..at] + s[at + 1..]
    ensures multiset(UsersOf(s')) == multiset(chain) <==> s[at].user == cur
  {
    s' := s[..at] + s[at + 1..];
    UsersRemoved(s, at);
    OneForOne(multiset(chain), cur, s[at].user);
  }

  lemma OneForOne(m: multiset<nat>, a: nat, b: nat)
    ensures m + multiset{a} - multiset{b} == m <==> a == b
  {
    if a != b {
      assert (m + multiset{a} - multiset{b})[a] == m[a] + 1;
    }
  }

  /** With the same users in list and tree, both searches succeed or both fail, and they find
      the same slot if the name occurs once. */
  lemma SearchAgrees(h: seq<ListNode>, chain: seq<nat>, t: Tree, name: string)
    requires Within(chain, |h|) && multiset(UsersOf(Inorder(t))) == multiset(chain)
    requires Ordered(Inorder(t), NamesOf(h))
    ensures
      var u, l := SearchUser(t, NamesOf(h), name), SlotOf(h, chain, name);
      && (u == 0 <==> l == 0)
      && (u != 0 ==> u in chain && u < |h| && h[u].data.name == name)
      && (OnlyOnce(Contents(h, chain), name) ==> u == l)
  {
    SearchMeans(Top, t, NamesOf(h), name);
    var u := SearchUser(t, NamesOf(h), name);
    if u == 0 {
      NotIndexed(h, chain, Inorder(t), name);
    } else {
      UsersOfMember(Inorder(t), u);
      assert u in multiset(chain);
      InChain(h, chain, name, u);
      if OnlyOnce(Contents(h, chain), name) {
        SlotOfOnly(h, chain, name, u);
      }
    }
  }

  /** With two users of one name the searches may differ: inserting both into an empty index, as
      loading them does, puts the second below the first, and the list has it in front. */
  lemma TwinsDiffer(h: seq<ListNode>, name: string)
    requires |h| > 2 && h[1].data.name == h[2].data.name == name
    ensures
      var names, a, b := NamesOf(h), Entry(1, 1), Entry(2, 2);
      var one := Paint(Placed(Leaf, a, names), Black);
      var two := Paint(Placed(one, b, names), Black);
      && ColorAbove(Leaf, names, name, Black) == ColorAbove(one, names, name, Black) == Black
      && two == Node(Leaf, a, Black, Node(Leaf, b, Red, Leaf))
      && SearchUser(two, names, name) == 1 && SlotOf(h, [2, 1], name) == 2
  {
    Trichotomy(name, name);
  }

  function Reversed<T>(s: seq<T>): (r: seq<T>)
    ensures |r| == |s|
    ensures forall i :: 0 <= i < |s| ==> r[i] == s[|s| - 1 - i]
  {
    if s == [] then [] else Reversed(s[1..]) + [s[0]]
  }

  /** The store after loading the first n users, each in front of those before it. */
  function Loaded(s: State, users: seq<User>, n: nat): State
    requires n <= |users|
  {
    State(Reversed(users[..n]) + s.contents, s.added + n)
  }

  lemma NothingLoaded(s: State, users: seq<User>)
    ensures Loaded(s, users, 0) == s
  {
    assert Reversed(users[..0]) + s.contents == s.contents;
  }

  lemma NextLoaded(s: State, users: seq<User>, n: nat)
    requires n < |users|
    ensures Loaded(s, users, n + 1)
         == State([users[n]] + Loaded(s, users, n).contents, Loaded(s, users, n).added + 1)
  {
    assert Reversed(users[..n + 1]) + s.contents == [users[n]] + (Reversed(users[..n]) + s.contents);
  }

  lemma SuffixStep(s: seq<nat>, i: nat, rest: seq<nat>)
    requires i <= |s| && rest == s[i..] && rest != []
    ensures i < |s| && rest[0] == s[i] && rest[1..] == s[i + 1..]
  {
  }

  lemma FoundInList(h: seq<ListNode>, chain: seq<nat>, name: string, i: nat)
    requires Within(chain, |h|) && i <= |chain| && (i < |chain| ==> h[chain[i]].data.name == name)
    requires forall j :: 0 <= j < i ==> h[chain[j]].data.name != name
    ensures IndexOf(Contents(h, chain), name) == i
    ensures SlotOf(h, chain, name) == if i < |chain| then chain[i] else 0
  {
    FoundAt(Contents(h, chain), name, i);
    SlotOfIndex(h, chain, name);
  }

  lemma FoundAt(s: seq<User>, name: string, i: nat)
    requires i <= |s| && (i < |s| ==> s[i].name == name)
    requires forall j :: 0 <= j < i ==> s[j].name != name
    ensures IndexOf(s, name) == i
  {
  }

  /** Indexing the head of the chain completes the index. */
  lemma HeadIndexed(s: seq<Entry>, e: Entry, names: seq<string>, chain: seq<nat>) returns (s': seq<Entry>)
    requires InNames(s, names) && 0 < e.user < |names|
    requires chain != [] && chain[0] == e.user && multiset(UsersOf(s)) == multiset(chain[1..])
    ensures s' == InsertEntry(s, e, names) && multiset(UsersOf(s')) == multiset(chain)
  {
    s' := InsertEntry(s, e, names);
    UsersInserted(s, e, names);
    HeadMultiset(chain);
  }

  lemma HeadMultiset<T>(s: seq<T>)
    requires s != []
    ensures multiset(s) == multiset{s[0]} + multiset(s[1..])
  {
    assert s == [s[0]] + s[1..];
  }

  /** A user in a new slot behind the sentinel is the new head of the list. */
  lemma InFront(h: seq<ListNode>, h': seq<ListNode>, chain: seq<nat>, n: nat, elem: User, s: seq<Entry>)
      returns (chain': seq<nat>)
    requires Linked(h, 0, chain) && Within(chain, n) && 0 < n < |h|
    requires h' == h[n := ListNode(elem, h[0].next, true)][0 := h[0].(next := n)]
    requires multiset(UsersOf(s)) == multiset(chain) && Ordered(s, NamesOf(h))
    ensures chain' == [n] + chain && chain'[0] == n && chain'[1..] == chain
    ensures Linked(h', 0, chain') && Within(chain', n + 1)
    ensures Contents(h', chain') == [elem] + Contents(h, chain)
    ensures Ordered(s, NamesOf(h'))
  {
    chain' := [n] + chain;
    Prepended(h, h', 0, chain, n);
    StillIndexed(h, h', chain, n, s);
  }

  /** The tree does not notice a slot that it does not index. */
  lemma StillIndexed(h: seq<ListNode>, h': seq<ListNode>, chain: seq<nat>, n: nat, s: seq<Entry>)
    requires Within(chain, |h|) && n !in chain && 0 < n < |h| && |h'| == |h|
    requires multiset(UsersOf(s)) == multiset(chain) && Ordered(s, NamesOf(h))
    requires forall i :: 0 <= i < |h| && i != n ==> h'[i].data == h[i].data
    ensures Ordered(s, NamesOf(h'))
  {
    forall e <- s
      ensures e.user != n
    {
      IndexedListed(s, chain, e);
    }
    OrderedFrame(s, NamesOf(h), NamesOf(h'));
  }

  lemma IndexedListed(s: seq<Entry>, chain: seq<nat>, e: Entry)
    requires multiset(UsersOf(s)) == multiset(chain) && e in s
    ensures e.user in chain
  {
    UsersOfMember(s, e.user);
    assert e.user in multiset(UsersOf(s));
  }

  /** A name that the index lacks is not in the list either. */
  lemma NotIndexed(h: seq<ListNode>, chain: seq<nat>, s: seq<Entry>, name: string)
    requires Within(chain, |h|) && multiset(UsersOf(s)) == multiset(chain)
    requires Absent(s, NamesOf(h), name)
    ensures SlotOf(h, chain, name) == 0
  {
    SlotOfIndex(h, chain, name);
    var i := IndexOf(Contents(h, chain), name);
    if i < |chain| {
      assert chain[i] in multiset(chain);
      UsersOfMember(s, chain[i]);
    }
  }
}
