/** The offset-based red-black tree of src/user_index.c. */
module UserIndex {
  import opened Names
  import opened Trees
  import opened Pools
  import opened Rotations
  import opened Fixups
  import opened Ordering
  import opened Splices
  import opened Heights
  import opened UserData

  class Index {
    const nodes: array<TreeNode>
    const users: array<ListNode>
    var root: nat
    var size: int
    ghost var tree: Tree  // the tree that the pool represents

    ghost predicate Valid()
      reads this, nodes, users
    {
      && Stores(nodes[..], root, tree)
      && RedBlack(tree)
      && size == |Inorder(tree)|
      && Ordered(Inorder(tree), NamesOf(users[..]))
    }

    constructor (nodes: array<TreeNode>, users: array<ListNode>)
      requires nodes.Length > 0 && nodes[0].color == Black
      ensures Valid() && Inorder(tree) == []
      ensures this.nodes == nodes && this.users == users
    {
      this.nodes := nodes;
      this.users := users;
      root := 0;
      size := 0;
      tree := Leaf;
    }

    method LeftRotate(x: nat, ghost k: Path, ghost t: Tree)
      requires Stores(nodes[..], root, Fill(k, t))
      requires CanRotate(LeftSide, t) && x == Root(t)
      modifies this`root, nodes
      ensures Stores(nodes[..], root, Fill(k, Rotate(LeftSide, t)))
      ensures Inorder(Fill(k, Rotate(LeftSide, t))) == Inorder(Fill(k, t))
      ensures SameOutside(old(nodes[..]), nodes[..], Ids(Fill(k, t))) && nodes[0] == old(nodes[0])
    {
      ghost var h := nodes[..];
      RotationShape(h, LeftSide, k, t);
      var y := nodes[x].right;
      nodes[x] := nodes[x].(right := nodes[y].left);
      if nodes[y].left != 0 {
        nodes[nodes[y].left] := nodes[nodes[y].left].(parent := x);
      }
      nodes[y] := nodes[y].(parent := nodes[x].parent);
      if nodes[x].parent == 0 {
        root := y;
      } else if x == nodes[nodes[x].parent].left {
        nodes[nodes[x].parent] := nodes[nodes[x].parent].(left := y);
      } else {
        nodes[nodes[x].parent] := nodes[nodes[x].parent].(right := y);
      }
      nodes[y] := nodes[y].(left := x);
      nodes[x] := nodes[x].(parent := y);
      ghost var h' := nodes[..];
      assert Relinked(h, h', LeftSide, k, t);
      RotationStored(h, h', LeftSide, k, t);
    }

    method RightRotate(x: nat, ghost k: Path, ghost t: Tree)
      requires Stores(nodes[..], root, Fill(k, t))
      requires CanRotate(RightSide, t) && x == Root(t)
      modifies this`root, nodes
      ensures Stores(nodes[..], root, Fill(k, Rotate(RightSide, t)))
      ensures Inorder(Fill(k, Rotate(RightSide, t))) == Inorder(Fill(k, t))
      ensures SameOutside(old(nodes[..]), nodes[..], Ids(Fill(k, t))) && nodes[0] == old(nodes[0])
    {
      ghost var h := nodes[..];
      RotationShape(h, RightSide, k, t);
      var y := nodes[x].left;
      nodes[x] := nodes[x].(left := nodes[y].right);
      if nodes[y].right != 0 {
        nodes[nodes[y].right] := nodes[nodes[y].right].(parent := x);
      }
      nodes[y] := nodes[y].(parent := nodes[x].parent);
      if nodes[x].parent == 0 {
        root := y;
      } else if x == nodes[nodes[x].parent].right {
        nodes[nodes[x].parent] := nodes[nodes[x].parent].(right := y);
      } else {
        nodes[nodes[x].parent] := nodes[nodes[x].parent].(left := y);
      }
      nodes[y] := nodes[y].(right := x);
      nodes[x] := nodes[x].(parent := y);
      ghost var h' := nodes[..];
      assert Relinked(h, h', RightSide, k, t);
      RotationStored(h, h', RightSide, k, t);
    }

    /** One colour write.  Blackening the NIL sentinel changes nothing. */
    method SetColor(i: nat, c: Color, ghost k: Path, ghost t: Tree)
      requires Stores(nodes[..], root, Fill(k, t))
      requires i == Root(t) && (t.Leaf? ==> c == Black)
      modifies nodes
      ensures Stores(nodes[..], root, Fill(k, Paint(t, c)))
      ensures Inorder(Fill(k, Paint(t, c))) == Inorder(Fill(k, t))
      ensures Ids(Fill(k, Paint(t, c))) == Ids(Fill(k, t))
      ensures SameOutside(old(nodes[..]), nodes[..], Ids(Fill(k, t)))
      ensures nodes[0] == old(nodes[0])
    {
      ghost var h := nodes[..];
      SplitRep(h, k, t);
      nodes[i] := nodes[i].(color := c);
      PaintStored(h, nodes[..], k, t, c);
    }

    /** Parent a left child, uncle black: at most two rotations end the climb. */
    method RaiseLeft(z0: nat, ghost k0: Path, ghost t0: Tree)
        returns (z: nat, ghost k: Path, ghost t: Tree)
      requires Stores(nodes[..], root, Fill(k0, t0)) && Climbing(k0, t0) && z0 == Root(t0)
      requires k0.Down? && k0.color == Red && k0.up.Down? && k0.up.side == LeftSide
      requires ColorOf(k0.up.sibling) == Black
      modifies this`root, nodes
      ensures Stores(nodes[..], root, Fill(k, t)) && Climbing(k, t) && z == Root(t)
      ensures Inorder(Fill(k, t)) == Inorder(Fill(k0, t0))
      ensures UnderBlack(k) && Depth(k) < Depth(k0)
      ensures SameOutside(old(nodes[..]), nodes[..], Ids(Fill(k0, t0))) && nodes[0] == old(nodes[0])
    {
      z, k, t := z0, k0, t0;
      Family(nodes[..], k, t);
      InorderIds(Fill(k, t));
      var zp := nodes[z].parent;
      if z == nodes[zp].right {
        Straightened(k, t);
        z := zp;
        LeftRotate(z, k.up, Above(k, t));
        k, t := StraightPath(k, t), StraightTree(k, t);
        InorderIds(Fill(k, t));
        Family(nodes[..], k, t);
        zp := nodes[z].parent;
      }
      Family(nodes[..], k.up, Above(k, t));
      var zpp := nodes[zp].parent;
      Raised(k, t);
      ghost var p := Above(k.(color := Black), t);
      SetColor(zp, Black, k.up, Above(k, t));
      SetColor(zpp, Red, k.up.up, Above(k.up, p));
      RightRotate(zpp, k.up.up, Join(k.side, p, k.up.e, Red, k.up.sibling));
      k := RaisedPath(k);
    }

    /** One turn of the insertion loop, the parent being a left child. */
    method ClimbLeft(z0: nat, ghost k0: Path, ghost t0: Tree)
        returns (z: nat, ghost k: Path, ghost t: Tree)
      requires Stores(nodes[..], root, Fill(k0, t0)) && Climbing(k0, t0) && z0 == Root(t0)
      requires k0.Down? && k0.color == Red && k0.up.Down? && k0.up.side == LeftSide
      modifies this`root, nodes
      ensures Stores(nodes[..], root, Fill(k, t)) && Climbing(k, t) && z == Root(t)
      ensures Inorder(Fill(k, t)) == Inorder(Fill(k0, t0))
      ensures Depth(k) < Depth(k0)
      ensures SameOutside(old(nodes[..]), nodes[..], Ids(Fill(k0, t0))) && nodes[0] == old(nodes[0])
    {
      Family(nodes[..], k0, t0);
      Family(nodes[..], k0.up, Above(k0, t0));
      var zp := nodes[z0].parent;
      var zpp := nodes[zp].parent;
      var y := nodes[zpp].right;
      if nodes[y].color == Red {
        RecoloredClimbs(k0, t0);
        ghost var p := Above(k0.(color := Black), t0);
        SetColor(zp, Black, k0.up, Above(k0, t0));
        SetColor(y, Black, ToSibling(k0.up, p), k0.up.sibling);
        SetColor(zpp, Red, k0.up.up, Join(k0.up.side, p, k0.up.e, k0.up.color, Paint(k0.up.sibling, Black)));
        z, k, t := zpp, k0.up.up, Recolored(k0, t0);
      } else {
        z, k, t := RaiseLeft(z0, k0, t0);
      }
    }

    /** Parent a right child, uncle black: at most two rotations end the climb. */
    method RaiseRight(z0: nat, ghost k0: Path, ghost t0: Tree)
        returns (z: nat, ghost k: Path, ghost t: Tree)
      requires Stores(nodes[..], root, Fill(k0, t0)) && Climbing(k0, t0) && z0 == Root(t0)
      requires k0.Down? && k0.color == Red && k0.up.Down? && k0.up.side == RightSide
      requires ColorOf(k0.up.sibling) == Black
      modifies this`root, nodes
      ensures Stores(nodes[..], root, Fill(k, t)) && Climbing(k, t) && z == Root(t)
      ensures Inorder(Fill(k, t)) == Inorder(Fill(k0, t0))
      ensures UnderBlack(k) && Depth(k) < Depth(k0)
      ensures SameOutside(old(nodes[..]), nodes[..], Ids(Fill(k0, t0))) && nodes[0] == old(nodes[0])
    {
      z, k, t := z0, k0, t0;
      Family(nodes[..], k, t);
      InorderIds(Fill(k, t));
      var zp := nodes[z].parent;
      if z == nodes[zp].left {
        Straightened(k, t);
        z := zp;
        RightRotate(z, k.up, Above(k, t));
        k, t := StraightPath(k, t), StraightTree(k, t);
        InorderIds(Fill(k, t));
        Family(nodes[..], k, t);
        zp := nodes[z].parent;
      }
      Family(nodes[..], k.up, Above(k, t));
      var zpp := nodes[zp].parent;
      Raised(k, t);
      ghost var p := Above(k.(color := Black), t);
      SetColor(zp, Black, k.up, Above(k, t));
      SetColor(zpp, Red, k.up.up, Above(k.up, p));
      LeftRotate(zpp, k.up.up, Join(k.side, p, k.up.e, Red, k.up.sibling));
      k := RaisedPath(k);
    }

    /** One turn of the insertion loop, the parent being a right child. */
    method ClimbRight(z0: nat, ghost k0: Path, ghost t0: Tree)
        returns (z: nat, ghost k: Path, ghost t: Tree)
      requires Stores(nodes[..], root, Fill(k0, t0)) && Climbing(k0, t0) && z0 == Root(t0)
      requires k0.Down? && k0.color == Red && k0.up.Down? && k0.up.side == RightSide
      modifies this`root, nodes
      ensures Stores(nodes[..], root, Fill(k, t)) && Climbing(k, t) && z == Root(t)
      ensures Inorder(Fill(k, t)) == Inorder(Fill(k0, t0))
      ensures Depth(k) < Depth(k0)
      ensures SameOutside(old(nodes[..]), nodes[..], Ids(Fill(k0, t0))) && nodes[0] == old(nodes[0])
    {
      Family(nodes[..], k0, t0);
      Family(nodes[..], k0.up, Above(k0, t0));
      var zp := nodes[z0].parent;
      var zpp := nodes[zp].parent;
      var y := nodes[zpp].left;
      if nodes[y].color == Red {
        RecoloredClimbs(k0, t0);
        ghost var p := Above(k0.(color := Black), t0);
        SetColor(zp, Black, k0.up, Above(k0, t0));
        SetColor(y, Black, ToSibling(k0.up, p), k0.up.sibling);
        SetColor(zpp, Red, k0.up.up, Join(k0.up.side, p, k0.up.e, k0.up.color, Paint(k0.up.sibling, Black)));
        z, k, t := zpp, k0.up.up, Recolored(k0, t0);
      } else {
        z, k, t := RaiseRight(z0, k0, t0);
      }
    }

    method InsertFixup(z0: nat, ghost k0: Path, ghost t0: Tree)
        returns (ghost t': Tree)
      requires Stores(nodes[..], root, Fill(k0, t0)) && Climbing(k0, t0) && z0 == Root(t0)
      modifies this`root, nodes
      ensures Stores(nodes[..], root, t') && RedBlack(t')
      ensures Inorder(t') == Inorder(Fill(k0, t0))
      ensures k0.Top? || k0.color == Black ==> t' == Paint(Fill(k0, t0), Black)
      ensures SameOutside(old(nodes[..]), nodes[..], Ids(Fill(k0, t0))) && nodes[0] == old(nodes[0])
    {
      var z := z0;
      ghost var k, t := k0, t0;
      Family(nodes[..], k, t);
      while nodes[nodes[z].parent].color == Red
        invariant Stores(nodes[..], root, Fill(k, t)) && Climbing(k, t) && z == Root(t)
        invariant z < nodes.Length && nodes[z].parent == Parent(k) < nodes.Length
        invariant k.Down? ==> nodes[nodes[z].parent].color == k.color
        invariant Inorder(Fill(k, t)) == Inorder(Fill(k0, t0))
        invariant k0.Top? || k0.color == Black ==> k == k0 && t == t0
        invariant SameOutside(old(nodes[..]), nodes[..], Ids(Fill(k0, t0))) && nodes[0] == old(nodes[0])
        decreases Depth(k)
      {
        Grandparent(k, t);
        Family(nodes[..], k, t);
        Family(nodes[..], k.up, Above(k, t));
        InorderIds(Fill(k, t));
        InorderIds(Fill(k0, t0));
        if nodes[z].parent == nodes[nodes[nodes[z].parent].parent].left {
          z, k, t := ClimbLeft(z, k, t);
        } else {
          z, k, t := ClimbRight(z, k, t);
        }
        Family(nodes[..], k, t);
      }
      InsertDone(k, t);
      InorderIds(Fill(k, t));
      InorderIds(Fill(k0, t0));
      SetColor(root, Black, Top, Fill(k, t));
      t' := Paint(Fill(k, t), Black);
    }

    /** The descent of an insertion: the future parent, and the path to the free place. */
    method FindPlace(name: string) returns (y: nat, ghost k: Path)
      requires Stores(nodes[..], root, tree) && Ordered(Inorder(tree), NamesOf(users[..]))
      ensures Fill(k, Leaf) == tree && y == Parent(k)
      ensures Heading(k, NamesOf(users[..]), name)
      ensures Descent(k, NamesOf(users[..]), name)
    {
      var x := root;
      ghost var t := tree;
      y, k := 0, Top;
      while x != 0
        invariant Fill(k, t) == tree && x == Root(t) && y == Parent(k)
        invariant Heading(k, NamesOf(users[..]), name)
        invariant Descent(k, NamesOf(users[..]), name)
        decreases t
      {
        SplitRep(nodes[..], k, t);
        HeadingStep(k, t, NamesOf(users[..]), name);
        y := x;
        if nodes[x].user != 0 && StrCmp(name, users[nodes[x].user].data.name) < 0 {
          x := nodes[x].left;
          k, t := Step(LeftSide, k, t), t.left;
        } else {
          x := nodes[x].right;
          k, t := Step(RightSide, k, t), t.right;
        }
      }
      SplitRep(nodes[..], k, t);
    }

    /** The slot with the greatest name below that of a node's user, and the slot under which
        the search for it ends; 0 if there is none. */
    method FindPredecessor(node: nat) returns (pre: nat, parent: nat, ghost k: Path)
      requires Valid() && node < nodes.Length && nodes[node].user < users.Length
      ensures nodes[node].user == 0 ==> pre == parent == 0
      ensures nodes[node].user != 0 ==>
        && Fill(k, Leaf) == tree && parent == Parent(k)
        && Inorder(tree) == Before(k) + After(k)
        && Parting(k, NamesOf(users[..]), users[nodes[node].user].data.name)
        && pre == LastId(Before(k))
    {
      pre, parent, k := 0, 0, Top;
      ghost var names := NamesOf(users[..]);
      ghost var name := names[nodes[node].user];
      var x := root;
      ghost var t := tree;
      while x != 0
        invariant Fill(k, t) == tree && x == Root(t) && parent == Parent(k)
        invariant nodes[node].user == 0 ==> k == Top
        invariant Parting(k, names, name) && pre == LastId(Before(k))
        decreases t
      {
        SplitRep(nodes[..], k, t);
        PartingStep(k, t, names, name);
        var xu, nu := nodes[x].user, nodes[node].user;
        if xu == 0 || nu == 0 {
          break;
        }
        parent := x;
        if StrCmp(users[nu].data.name, users[xu].data.name) <= 0 {
          x := nodes[x].left;
          k, t := Step(LeftSide, k, t), t.left;
        } else {
          pre := x;
          x := nodes[x].right;
          k, t := Step(RightSide, k, t), t.right;
        }
      }
      SplitRep(nodes[..], k, t);
      EndOfDescent(k);
    }

    /** Hangs slot z, red and childless, where the descent for its user's name ends. */
    method Attach(z: nat, user: nat) returns (ghost k: Path, ghost u: Tree)
      requires Stores(nodes[..], root, tree) && Ordered(Inorder(tree), NamesOf(users[..]))
      requires 0 < user < users.Length && 0 < z < nodes.Length && z !in Ids(tree)
      requires nodes[z].user == user && nodes[z].used
      modifies this`root, nodes
      ensures u == Node(Leaf, Entry(z, user), Red, Leaf)
      ensures Fill(k, Leaf) == tree && Heading(k, NamesOf(users[..]), users[user].data.name)
      ensures Descent(k, NamesOf(users[..]), users[user].data.name)
      ensures Stores(nodes[..], root, Fill(k, u))
      ensures SameOutside(old(nodes[..]), nodes[..], Ids(tree) + {z}) && nodes[0] == old(nodes[0])
    {
      nodes[z] := nodes[z].(left := 0, right := 0, color := Red);
      RepFrame(old(nodes[..]), nodes[..], tree, 0);
      var y;
      y, k := FindPlace(users[user].data.name);
      u := Node(Leaf, Entry(z, user), Red, Leaf);
      Family(nodes[..], k, Leaf);
      FillIds(k, Leaf);
      SplitRep(nodes[..], k, Leaf);
      ghost var h := nodes[..];
      nodes[z] := nodes[z].(parent := y);
      if y == 0 {
        root := z;
      } else if nodes[y].user != 0 && StrCmp(users[user].data.name, users[nodes[y].user].data.name) < 0 {
        nodes[y] := nodes[y].(left := z);
      } else {
        nodes[y] := nodes[y].(right := z);
      }
      Grafted(h, nodes[..], k, u);
    }

    /** Links the tree slot allocated last, z == treeNextFree - 1, whose user the caller has set. */
    method Insert(user: nat, treeNextFree: nat) returns (rc: int)
      requires Valid() && user < users.Length
      requires user != 0 ==>
        && 1 < treeNextFree <= nodes.Length && treeNextFree - 1 !in Ids(tree)
        && nodes[treeNextFree - 1].user == user && nodes[treeNextFree - 1].used
      modifies this, nodes
      ensures Valid()
      ensures rc == (if user == 0 then -1 else 0)
      ensures user == 0 ==> tree == old(tree) && nodes[..] == old(nodes[..])
      ensures user != 0 ==>
        && Inorder(tree) == InsertEntry(old(Inorder(tree)), Entry(treeNextFree - 1, user), NamesOf(users[..]))
        && Ids(tree) == old(Ids(tree)) + {treeNextFree - 1}
        && SameOutside(old(nodes[..]), nodes[..], Ids(tree)) && nodes[0] == old(nodes[0])
      ensures user != 0 ==>
        var names, e, t := NamesOf(users[..]), Entry(treeNextFree - 1, user), old(tree);
        ColorAbove(t, names, names[user], Black) == Black ==> tree == Paint(Placed(t, e, names), Black)
    {
      if user == 0 {
        return -1;
      }
      var z := treeNextFree - 1;
      var k, u := Attach(z, user);
      size := size + 1;
      NewRedSound(k, u);
      ghost var s' := NewRedOrder(k, u, NamesOf(users[..]), Inorder(tree));
      NewRedPlaced(k, u, NamesOf(users[..]), tree);
      ghost var t := InsertFixup(z, k, u);
      InorderIds(t);
      InorderIds(Fill(k, u));
      assert Inorder(t) == s';
      tree := t;
      rc := 0;
    }

    /** Deletion, x a left child with a red sibling: rotate the sibling up. */
    method LowerRedSiblingLeft(x: nat, ghost k0: Path, ghost t: Tree) returns (ghost k: Path)
      requires Stores(nodes[..], root, Fill(k0, t)) && Short(k0, t) && x == Root(t)
      requires x < nodes.Length && nodes[x].parent == Parent(k0)
      requires k0.Down? && k0.side == LeftSide && k0.sibling.Node? && k0.sibling.color == Red
      modifies this`root, nodes
      ensures Stores(nodes[..], root, Fill(k, t)) && Short(k, t) && nodes[x].parent == Parent(k)
      ensures k.Down? && k.side == LeftSide && k.color == Red && Depth(k) == Depth(k0) + 1
      ensures k.sibling.Node? && k.sibling.color == Black
      ensures Inorder(Fill(k, t)) == Inorder(Fill(k0, t))
      ensures SameOutside(old(nodes[..]), nodes[..], Ids(Fill(k0, t))) && nodes[0] == old(nodes[0])
    {
      k := k0;
      Family(nodes[..], k, t);
      RedSibling(k, t);
      var xp := nodes[x].parent;
      var w := nodes[xp].right;
      SetColor(w, Black, ToSibling(k, t), k.sibling);
      ghost var s := Paint(k.sibling, Black);
      SetColor(xp, Red, k.up, Join(k.side, t, k.e, k.color, s));
      LeftRotate(xp, k.up, Join(k.side, t, k.e, Red, s));
      k := RedSiblingPath(k);
      Family(nodes[..], k, t);
    }

    /** Deletion, x a left child, sibling black with a red near child only. */
    method BringNephewLeft(x: nat, ghost k0: Path, ghost t: Tree) returns (ghost k: Path)
      requires Stores(nodes[..], root, Fill(k0, t)) && Short(k0, t) && x == Root(t)
      requires x < nodes.Length && nodes[x].parent == Parent(k0)
      requires k0.Down? && k0.side == LeftSide && k0.sibling.Node? && k0.sibling.color == Black
      requires !BlackNephews(k0) && ColorOf(k0.sibling.right) == Black
      modifies this`root, nodes
      ensures Stores(nodes[..], root, Fill(k, t)) && Short(k, t) && nodes[x].parent == Parent(k)
      ensures k.Down? && k.side == LeftSide && k.sibling.Node? && k.sibling.color == Black
      ensures ColorOf(k.sibling.right) == Red
      ensures Inorder(Fill(k, t)) == Inorder(Fill(k0, t))
      ensures SameOutside(old(nodes[..]), nodes[..], Ids(Fill(k0, t))) && nodes[0] == old(nodes[0])
    {
      k := k0;
      Family(nodes[..], k, t);
      NearNephew(k, t);
      ghost var ws, n := ToSibling(k, t), k.sibling.left;
      ghost var near := Down(ws, k.sibling.e, k.sibling.color, LeftSide, k.sibling.right);
      Family(nodes[..], near, n);
      var w := nodes[nodes[x].parent].right;
      SetColor(nodes[w].left, Black, near, n);
      ghost var w1 := Join(k.side, Paint(n, Black), k.sibling.e, Black, k.sibling.right);
      SetColor(w, Red, ws, w1);
      RightRotate(w, ws, Paint(w1, Red));
      k := NearNephewPath(k);
      Family(nodes[..], k, t);
    }

    /** Deletion, x a left child, sibling black with a red far child: one rotation ends the loop. */
    method RepayLeft(x: nat, ghost k: Path, ghost t: Tree)
      requires Stores(nodes[..], root, Fill(k, t)) && Short(k, t) && x == Root(t)
      requires x < nodes.Length && nodes[x].parent == Parent(k) && ColorOf(t) == Black
      requires k.Down? && k.side == LeftSide && k.sibling.Node? && k.sibling.color == Black
      requires ColorOf(k.sibling.right) == Red
      modifies this`root, nodes
      ensures Stores(nodes[..], root, Fill(k.up, Repaid(k, t))) && RedBlack(Fill(k.up, Repaid(k, t)))
      ensures Inorder(Fill(k.up, Repaid(k, t))) == Inorder(Fill(k, t))
      ensures SameOutside(old(nodes[..]), nodes[..], Ids(Fill(k, t))) && nodes[0] == old(nodes[0])
    {
      Family(nodes[..], k, t);
      FarNephew(k, t);
      ghost var far, n := k.sibling.right, k.sibling.left;
      var xp := nodes[x].parent;
      var w := nodes[xp].right;
      SetColor(w, nodes[xp].color, ToSibling(k, t), k.sibling);
      ghost var w1 := Paint(k.sibling, k.color);
      SetColor(xp, Black, k.up, Join(k.side, t, k.e, k.color, w1));
      ghost var p := Down(Down(k.up, k.e, Black, RightSide, t), w1.e, k.color, RightSide, n);
      Family(nodes[..], p, far);
      SetColor(nodes[w].right, Black, p, far);
      ghost var w2 := Join(k.side, n, w1.e, k.color, Paint(far, Black));
      LeftRotate(xp, k.up, Join(k.side, t, k.e, Black, w2));
    }

    /** Deletion, x a left child with a black sibling. */
    method SettleLeft(x0: nat, ghost k0: Path, ghost t0: Tree)
        returns (x: nat, ghost k: Path, ghost t: Tree)
      requires Stores(nodes[..], root, Fill(k0, t0)) && Short(k0, t0) && x0 == Root(t0)
      requires x0 < nodes.Length && nodes[x0].parent == Parent(k0) && ColorOf(t0) == Black
      requires k0.Down? && k0.side == LeftSide && k0.sibling.Node? && k0.sibling.color == Black
      modifies this`root, nodes
      ensures Stores(nodes[..], root, Fill(k, t)) && Short(k, t) && x == Root(t)
      ensures x < nodes.Length && nodes[x].parent == Parent(k)
      ensures Inorder(Fill(k, t)) == Inorder(Fill(k0, t0))
      ensures (k.Top? && ColorOf(t) == Black) || (k == k0.up && ColorOf(t) == k0.color)
      ensures SameOutside(old(nodes[..]), nodes[..], Ids(Fill(k0, t0))) && nodes[0] == old(nodes[0])
    {
      x, k, t := x0, k0, t0;
      Family(nodes[..], k, t);
      Nephews(nodes[..], k, t);
      var xp := nodes[x].parent;
      var w := nodes[xp].right;
      if nodes[nodes[w].left].color == Black && nodes[nodes[w].right].color == Black {
        PushedUpShort(k, t);
        SetColor(w, Red, ToSibling(k, t), k.sibling);
        x, k, t := xp, k.up, PushedUp(k, t);
      } else {
        if nodes[nodes[w].right].color == Black {
          k := BringNephewLeft(x, k, t);
          InorderIds(Fill(k, t));
          InorderIds(Fill(k0, t0));
        }
        RepayLeft(x, k, t);
        FillNode(k.up, Repaid(k, t));
        x, k, t := root, Top, Fill(k.up, Repaid(k, t));
        assert Sound(Paint(t, Black));
      }
      Family(nodes[..], k, t);
    }

    /** One turn of the deletion loop, x being a left child. */
    method LiftLeft(x0: nat, ghost k0: Path, ghost t0: Tree)
        returns (x: nat, ghost k: Path, ghost t: Tree)
      requires Stores(nodes[..], root, Fill(k0, t0)) && Short(k0, t0) && x0 == Root(t0)
      requires x0 < nodes.Length && nodes[x0].parent == Parent(k0) && ColorOf(t0) == Black
      requires k0.Down? && k0.side == LeftSide
      modifies this`root, nodes
      ensures Stores(nodes[..], root, Fill(k, t)) && Short(k, t) && x == Root(t)
      ensures x < nodes.Length && nodes[x].parent == Parent(k)
      ensures Inorder(Fill(k, t)) == Inorder(Fill(k0, t0))
      ensures 2 * Depth(k) + Weight(ColorOf(t)) < 2 * Depth(k0) + 1
      ensures SameOutside(old(nodes[..]), nodes[..], Ids(Fill(k0, t0))) && nodes[0] == old(nodes[0])
    {
      k := k0;
      Family(nodes[..], k, t0);
      ShortSibling(k, t0);
      if nodes[nodes[nodes[x0].parent].right].color == Red {
        k := LowerRedSiblingLeft(x0, k, t0);
        InorderIds(Fill(k, t0));
        InorderIds(Fill(k0, t0));
      }
      x, k, t := SettleLeft(x0, k, t0);
    }

    /** Deletion, x a right child with a red sibling: rotate the sibling up. */
    method LowerRedSiblingRight(x: nat, ghost k0: Path, ghost t: Tree) returns (ghost k: Path)
      requires Stores(nodes[..], root, Fill(k0, t)) && Short(k0, t) && x == Root(t)
      requires x < nodes.Length && nodes[x].parent == Parent(k0)
      requires k0.Down? && k0.side == RightSide && k0.sibling.Node? && k0.sibling.color == Red
      modifies this`root, nodes
      ensures Stores(nodes[..], root, Fill(k, t)) && Short(k, t) && nodes[x].parent == Parent(k)
      ensures k.Down? && k.side == RightSide && k.color == Red && Depth(k) == Depth(k0) + 1
      ensures k.sibling.Node? && k.sibling.color == Black
      ensures Inorder(Fill(k, t)) == Inorder(Fill(k0, t))
      ensures SameOutside(old(nodes[..]), nodes[..], Ids(Fill(k0, t))) && nodes[0] == old(nodes[0])
    {
      k := k0;
      Family(nodes[..], k, t);
      RedSibling(k, t);
      var xp := nodes[x].parent;
      var w := nodes[xp].left;
      SetColor(w, Black, ToSibling(k, t), k.sibling);
      ghost var s := Paint(k.sibling, Black);
      SetColor(xp, Red, k.up, Join(k.side, t, k.e, k.color, s));
      RightRotate(xp, k.up, Join(k.side, t, k.e, Red, s));
      k := RedSiblingPath(k);
      Family(nodes[..], k, t);
    }

    /** Deletion, x a right child, sibling black with a red near child only. */
    method BringNephewRight(x: nat, ghost k0: Path, ghost t: Tree) returns (ghost k: Path)
      requires Stores(nodes[..], root, Fill(k0, t)) && Short(k0, t) && x == Root(t)
      requires x < nodes.Length && nodes[x].parent == Parent(k0)
      requires k0.Down? && k0.side == RightSide && k0.sibling.Node? && k0.sibling.color == Black
      requires !BlackNephews(k0) && ColorOf(k0.sibling.left) == Black
      modifies this`root, nodes
      ensures Stores(nodes[..], root, Fill(k, t)) && Short(k, t) && nodes[x].parent == Parent(k)
      ensures k.Down? && k.side == RightSide && k.sibling.Node? && k.sibling.color == Black
      ensures ColorOf(k.sibling.left) == Red
      ensures Inorder(Fill(k, t)) == Inorder(Fill(k0, t))
      ensures SameOutside(old(nodes[..]), nodes[..], Ids(Fill(k0, t))) && nodes[0] == old(nodes[0])
    {
      k := k0;
      Family(nodes[..], k, t);
      NearNephew(k, t);
      ghost var ws, n := ToSibling(k, t), k.sibling.right;
      ghost var near := Down(ws, k.sibling.e, k.sibling.color, RightSide, k.sibling.left);
      Family(nodes[..], near, n);
      var w := nodes[nodes[x].parent].left;
      SetColor(nodes[w].right, Black, near, n);
      ghost var w1 := Join(k.side, Paint(n, Black), k.sibling.e, Black, k.sibling.left);
      SetColor(w, Red, ws, w1);
      LeftRotate(w, ws, Paint(w1, Red));
      k := NearNephewPath(k);
      Family(nodes[..], k, t);
    }

    /** Deletion, x a right child, sibling black with a red far child: one rotation ends the loop. */
    method RepayRight(x: nat, ghost k: Path, ghost t: Tree)
      requires Stores(nodes[..], root, Fill(k, t)) && Short(k, t) && x == Root(t)
      requires x < nodes.Length && nodes[x].parent == Parent(k) && ColorOf(t) == Black
      requires k.Down? && k.side == RightSide && k.sibling.Node? && k.sibling.color == Black
      requires ColorOf(k.sibling.left) == Red
      modifies this`root, nodes
      ensures Stores(nodes[..], root, Fill(k.up, Repaid(k, t))) && RedBlack(Fill(k.up, Repaid(k, t)))
      ensures Inorder(Fill(k.up, Repaid(k, t))) == Inorder(Fill(k, t))
      ensures SameOutside(old(nodes[..]), nodes[..], Ids(Fill(k, t))) && nodes[0] == old(nodes[0])
    {
      Family(nodes[..], k, t);
      FarNephew(k, t);
      ghost var far, n := k.sibling.left, k.sibling.right;
      var xp := nodes[x].parent;
      var w := nodes[xp].left;
      SetColor(w, nodes[xp].color, ToSibling(k, t), k.sibling);
      ghost var w1 := Paint(k.sibling, k.color);
      SetColor(xp, Black, k.up, Join(k.side, t, k.e, k.color, w1));
      ghost var p := Down(Down(k.up, k.e, Black, LeftSide, t), w1.e, k.color, LeftSide, n);
      Family(nodes[..], p, far);
      SetColor(nodes[w].left, Black, p, far);
      ghost var w2 := Join(k.side, n, w1.e, k.color, Paint(far, Black));
      RightRotate(xp, k.up, Join(k.side, t, k.e, Black, w2));
    }

    /** Deletion, x a right child with a black sibling. */
    method SettleRight(x0: nat, ghost k0: Path, ghost t0: Tree)
        returns (x: nat, ghost k: Path, ghost t: Tree)
      requires Stores(nodes[..], root, Fill(k0, t0)) && Short(k0, t0) && x0 == Root(t0)
      requires x0 < nodes.Length && nodes[x0].parent == Parent(k0) && ColorOf(t0) == Black
      requires k0.Down? && k0.side == RightSide && k0.sibling.Node? && k0.sibling.color == Black
      modifies this`root, nodes
      ensures Stores(nodes[..], root, Fill(k, t)) && Short(k, t) && x == Root(t)
      ensures x < nodes.Length && nodes[x].parent == Parent(k)
      ensures Inorder(Fill(k, t)) == Inorder(Fill(k0, t0))
      ensures (k.Top? && ColorOf(t) == Black) || (k == k0.up && ColorOf(t) == k0.color)
      ensures SameOutside(old(nodes[..]), nodes[..], Ids(Fill(k0, t0))) && nodes[0] == old(nodes[0])
    {
      x, k, t := x0, k0, t0;
      Family(nodes[..], k, t);
      Nephews(nodes[..], k, t);
      var xp := nodes[x].parent;
      var w := nodes[xp].left;
      if nodes[nodes[w].right].color == Black && nodes[nodes[w].left].color == Black {
        PushedUpShort(k, t);
        SetColor(w, Red, ToSibling(k, t), k.sibling);
        x, k, t := xp, k.up, PushedUp(k, t);
      } else {
        if nodes[nodes[w].left].color == Black {
          k := BringNephewRight(x, k, t);
          InorderIds(Fill(k, t));
          InorderIds(Fill(k0, t0));
        }
        RepayRight(x, k, t);
        FillNode(k.up, Repaid(k, t));
        x, k, t := root, Top, Fill(k.up, Repaid(k, t));
        assert Sound(Paint(t, Black));
      }
      Family(nodes[..], k, t);
    }

    /** One turn of the deletion loop, x being a right child. */
    method LiftRight(x0: nat, ghost k0: Path, ghost t0: Tree)
        returns (x: nat, ghost k: Path, ghost t: Tree)
      requires Stores(nodes[..], root, Fill(k0, t0)) && Short(k0, t0) && x0 == Root(t0)
      requires x0 < nodes.Length && nodes[x0].parent == Parent(k0) && ColorOf(t0) == Black
      requires k0.Down? && k0.side == RightSide
      modifies this`root, nodes
      ensures Stores(nodes[..], root, Fill(k, t)) && Short(k, t) && x == Root(t)
      ensures x < nodes.Length && nodes[x].parent == Parent(k)
      ensures Inorder(Fill(k, t)) == Inorder(Fill(k0, t0))
      ensures 2 * Depth(k) + Weight(ColorOf(t)) < 2 * Depth(k0) + 1
      ensures SameOutside(old(nodes[..]), nodes[..], Ids(Fill(k0, t0))) && nodes[0] == old(nodes[0])
    {
      k := k0;
      Family(nodes[..], k, t0);
      ShortSibling(k, t0);
      if nodes[nodes[nodes[x0].parent].left].color == Red {
        k := LowerRedSiblingRight(x0, k, t0);
        InorderIds(Fill(k, t0));
        InorderIds(Fill(k0, t0));
      }
      x, k, t := SettleRight(x0, k, t0);
    }

    method DeleteFixup(x0: nat, ghost k0: Path, ghost t0: Tree) returns (ghost t': Tree)
      requires Stores(nodes[..], root, Fill(k0, t0)) && Short(k0, t0) && x0 == Root(t0)
      requires x0 < nodes.Length && nodes[x0].parent == Parent(k0)
      modifies this`root, nodes
      ensures Stores(nodes[..], root, t') && RedBlack(t')
      ensures Inorder(t') == Inorder(Fill(k0, t0))
      ensures SameOutside(old(nodes[..]), nodes[..], Ids(Fill(k0, t0))) && nodes[0] == old(nodes[0])
    {
      var x := x0;
      ghost var k, t := k0, t0;
      Family(nodes[..], k, t);
      while x != root && nodes[x].color == Black
        invariant Stores(nodes[..], root, Fill(k, t)) && Short(k, t) && x == Root(t)
        invariant x < nodes.Length && nodes[x].parent == Parent(k) && nodes[x].color == ColorOf(t)
        invariant Inorder(Fill(k, t)) == Inorder(Fill(k0, t0))
        invariant SameOutside(old(nodes[..]), nodes[..], Ids(Fill(k0, t0))) && nodes[0] == old(nodes[0])
        decreases 2 * Depth(k) + Weight(ColorOf(t))
      {
        Family(nodes[..], k, t);
        ShortSibling(k, t);
        InorderIds(Fill(k, t));
        InorderIds(Fill(k0, t0));
        if x == nodes[nodes[x].parent].left {
          x, k, t := LiftLeft(x, k, t);
        } else {
          x, k, t := LiftRight(x, k, t);
        }
        Family(nodes[..], k, t);
      }
      NotRoot(nodes[..], k, t);
      DeleteDone(k, t);
      InorderIds(Fill(k, t));
      InorderIds(Fill(k0, t0));
      SetColor(x, Black, k, t);
      t' := Fill(k, Paint(t, Black));
    }

    method Minimum(node: nat, ghost k: Path, ghost t: Tree)
        returns (m: nat, ghost inner: Path, ghost mt: Tree)
      requires Stores(nodes[..], root, Fill(k, t)) && t.Node? && node == Root(t)
      ensures Fill(inner, mt) == t && Before(inner) == []
      ensures mt.Node? && mt.left.Leaf? && m == Root(mt)
    {
      m, inner, mt := node, Top, t;
      Surroundings(nodes[..], k, t);
      while nodes[m].left != 0
        invariant Fill(inner, mt) == t && Before(inner) == []
        invariant mt.Node? && m == Root(mt) && m < nodes.Length && nodes[m].left == Root(mt.left)
        decreases mt
      {
        m := nodes[m].left;
        inner, mt := Down(inner, mt.e, mt.color, LeftSide, mt.right), mt.left;
        ComposeFill(inner, k, mt);
        Surroundings(nodes[..], Compose(inner, k), mt);
      }
      ComposeFill(inner, k, mt);
      Surroundings(nodes[..], Compose(inner, k), mt);
    }

    method Transplant(u: nat, v: nat)
      requires u < nodes.Length && v < nodes.Length && nodes[u].parent < nodes.Length
      modifies this`root, nodes
      ensures nodes[..] == Transplanted(old(nodes[..]), u, v)
      ensures SameOutside(old(nodes[..]), nodes[..], {v, old(nodes[u].parent), 0})
      ensures root == if old(nodes[u].parent) == 0 then v else old(root)
    {
      if nodes[u].parent == 0 {
        root := v;
      } else if u == nodes[nodes[u].parent].left {
        nodes[nodes[u].parent] := nodes[nodes[u].parent].(left := v);
      } else {
        nodes[nodes[u].parent] := nodes[nodes[u].parent].(right := v);
      }
      nodes[v] := nodes[v].(parent := nodes[u].parent);
    }

    /** y, unlinked from its old place, takes z's parent, left subtree and colour. */
    method Supplant(z: nat, y: nat)
      requires z < nodes.Length && y < nodes.Length && z != y
      requires nodes[z].parent < nodes.Length && nodes[z].left < nodes.Length && nodes[z].parent != z
      modifies this`root, nodes
      ensures nodes[..] == Supplanted(old(nodes[..]), z, y)
      ensures SameOutside(old(nodes[..]), nodes[..], {y, old(nodes[z].parent), nodes[y].left, 0})
      ensures root == if old(nodes[z].parent) == 0 then y else old(root)
    {
      Transplant(z, y);
      nodes[y] := nodes[y].(left := nodes[z].left);
      nodes[nodes[y].left] := nodes[nodes[y].left].(parent := y);
      nodes[y] := nodes[y].(color := nodes[z].color);
    }

    /** The successor y of z is its right child, and takes its place. */
    method MoveChild(z: nat, y: nat, x: nat, ghost inner: Path, ghost k: Path, ghost t: Tree, ghost m: Tree)
      requires Stores(nodes[..], root, Fill(k, t)) && Successor(inner, t, m) && t.left.Node? && inner.Top?
      requires z == Root(t) && y == Root(m) && x == Root(m.right)
      modifies this`root, nodes
      ensures Stores(nodes[..], root, Fill(k, Succeeded(inner, t, m)))
      ensures x < nodes.Length && nodes[x].parent == y
      ensures SameOutside(old(nodes[..]), nodes[..], Ids(Fill(k, t)) + {0})
    {
      ghost var h := nodes[..];
      SuccessorSlots(h, inner, k, t, m);
      SuccessorOutside(h, inner, k, t, m);
      RootOfFill(k, t, Succeeded(inner, t, m));
      nodes[x] := nodes[x].(parent := y);
      ghost var g := nodes[..];
      Supplant(z, y);
      AdjacentReplaced(h, g, nodes[..], inner, k, t, m);
    }

    /** The right subtree of z goes to y. */
    method Rehang(z: nat, y: nat)
      requires z < nodes.Length && y < nodes.Length && nodes[z].right < nodes.Length
      modifies nodes
      ensures nodes[..] == Rehung(old(nodes[..]), z, y)
    {
      nodes[y] := nodes[y].(right := nodes[z].right);
      nodes[nodes[y].right] := nodes[nodes[y].right].(parent := y);
    }

    /** The successor y of z is further down: its right subtree x moves up to its parent. */
    method MoveDistant(z: nat, y: nat, x: nat, ghost inner: Path, ghost k: Path, ghost t: Tree, ghost m: Tree)
      requires Stores(nodes[..], root, Fill(k, t)) && Successor(inner, t, m) && t.left.Node? && inner.Down?
      requires z == Root(t) && y == Root(m) && x == Root(m.right)
      modifies this`root, nodes
      ensures Stores(nodes[..], root, Fill(k, Succeeded(inner, t, m)))
      ensures x < nodes.Length && nodes[x].parent == Parent(inner)
      ensures SameOutside(old(nodes[..]), nodes[..], Ids(Fill(k, t)) + {0})
    {
      ghost var h := nodes[..];
      SuccessorSlots(h, inner, k, t, m);
      SuccessorOutside(h, inner, k, t, m);
      RootOfFill(k, t, Succeeded(inner, t, m));
      Transplant(y, x);
      Rehang(z, y);
      Supplant(z, y);
      DistantReplaced(h, nodes[..], inner, k, t, m);
    }

    /** Deletion of a node with two children: its successor takes its place. */
    method UnlinkInner(z: nat, ghost k0: Path, ghost t0: Tree)
        returns (x: nat, yColor: Color, ghost k: Path, ghost t: Tree)
      requires Stores(nodes[..], root, Fill(k0, t0)) && RedBlack(Fill(k0, t0))
      requires t0.Node? && t0.left.Node? && t0.right.Node? && z == Root(t0)
      modifies this`root, nodes
      ensures Stores(nodes[..], root, Fill(k, t)) && x == Root(t)
      ensures x < nodes.Length && nodes[x].parent == Parent(k)
      ensures yColor == Black ==> Short(k, t)
      ensures yColor == Red ==> RedBlack(Fill(k, t))
      ensures Inorder(Fill(k, t)) == Before(k0) + Inorder(t0.left) + Inorder(t0.right) + After(k0)
      ensures SameOutside(old(nodes[..]), nodes[..], Ids(Fill(k0, t0)) + {0})
    {
      Surroundings(nodes[..], k0, t0);
      var y, inner, m := Minimum(nodes[z].right, Down(k0, t0.e, t0.color, RightSide, t0.left), t0.right);
      SuccessorPaths(inner, k0, t0, m);
      SuccessorSlots(nodes[..], inner, k0, t0, m);
      SuccessorSound(inner, k0, t0, m);
      SuccessorInorder(inner, k0, t0, m);
      k, t := ToSuccessor(inner, k0, t0.(e := m.e)), m.right;
      yColor := nodes[y].color;
      x := nodes[y].right;
      if nodes[y].parent == z {
        MoveChild(z, y, x, inner, k0, t0, m);
      } else {
        MoveDistant(z, y, x, inner, k0, t0, m);
      }
    }

    /** The search loop of a deletion: the node bearing the name, or NIL. */
    method Locate(name: string) returns (z: nat, ghost k: Path, ghost t: Tree)
      requires Valid()
      ensures Fill(k, t) == tree && z == Root(t) && (z == 0 <==> t.Leaf?)
      ensures t.Node? ==> z < nodes.Length && 0 < t.e.user < users.Length && users[t.e.user].data.name == name
      ensures t.Node? ==> nodes[z].user == t.e.user && t.e in Inorder(tree)
      ensures t.Leaf? ==> Absent(Inorder(tree), NamesOf(users[..]), name)
      ensures SearchUser(tree, NamesOf(users[..]), name) == if t.Leaf? then 0 else t.e.user
    {
      ghost var names := NamesOf(users[..]);
      z, k, t := root, Top, tree;
      while z != 0
        invariant Fill(k, t) == tree && z == Root(t)
        invariant Missed(k, names, name)
        invariant SearchUser(t, names, name) == SearchUser(tree, names, name)
        decreases t
      {
        SplitRep(nodes[..], k, t);
        SearchTurn(k, t, names, name);
        var zu := nodes[z].user;
        if zu == 0 {
          break;
        }
        var cmp := StrCmp(name, users[zu].data.name);
        if cmp == 0 {
          break;
        }
        if cmp < 0 {
          z := nodes[z].left;
          k, t := Step(LeftSide, k, t), t.left;
        } else {
          z := nodes[z].right;
          k, t := Step(RightSide, k, t), t.right;
        }
      }
      SplitRep(nodes[..], k, t);
      if t.Leaf? {
        MissedAll(k, names, name);
      }
    }

    /** The list slot of a user with that name, or 0. */
    method Find(name: string) returns (user: nat)
      requires Valid()
      ensures user == SearchUser(tree, NamesOf(users[..]), name)
      ensures user != 0 ==>
        user < users.Length && users[user].data.name == name && exists e <- Inorder(tree) :: e.user == user
      ensures user == 0 ==> Absent(Inorder(tree), NamesOf(users[..]), name)
    {
      var z, k, t := Locate(name);
      user := if z == 0 then 0 else nodes[z].user;
    }

    /** The same search, counting the nodes visited: at most 2 * log2(size + 1) of them. */
    method FindWithSteps(name: string) returns (user: nat, steps: nat)
      requires Valid()
      ensures user != 0 ==>
        user < users.Length && users[user].data.name == name && exists e <- Inorder(tree) :: e.user == user
      ensures user == 0 ==> Absent(Inorder(tree), NamesOf(users[..]), name)
      ensures user == SearchUser(tree, NamesOf(users[..]), name)
      ensures steps == SearchSteps(tree, NamesOf(users[..]), name)
      ensures Pow2((steps + 1) / 2) <= size + 1
    {
      var x := root;
      ghost var names := NamesOf(users[..]);
      ghost var k, t := Top, tree;
      steps := 0;
      while x != 0
        invariant Fill(k, t) == tree && x == Root(t) && steps == Depth(k)
        invariant Missed(k, names, name)
        invariant SearchUser(t, names, name) == SearchUser(tree, names, name)
        invariant steps + SearchSteps(t, names, name) == SearchSteps(tree, names, name)
        decreases t
      {
        steps := steps + 1;
        SplitRep(nodes[..], k, t);
        SearchTurn(k, t, names, name);
        DepthBound(Step(LeftSide, k, t), t.left);
        var xu := nodes[x].user;
        if xu == 0 {
          break;
        }
        var cmp := StrCmp(name, users[xu].data.name);
        if cmp == 0 {
          return xu, steps;
        }
        if cmp < 0 {
          x := nodes[x].left;
          k, t := Step(LeftSide, k, t), t.left;
        } else {
          x := nodes[x].right;
          k, t := Step(RightSide, k, t), t.right;
        }
      }
      SplitRep(nodes[..], k, t);
      MissedAll(k, names, name);
      DepthBound(k, t);
      user := 0;
    }

    /** Deletion of a node with at most one subtree t, which moves up. */
    method UnlinkOuter(z: nat, x: nat, ghost k: Path, ghost t0: Tree, ghost t: Tree)
      requires Stores(nodes[..], root, Fill(k, t0)) && OnlyChild(t0, t) && z == Root(t0) && x == Root(t)
      modifies this`root, nodes
      ensures Stores(nodes[..], root, Fill(k, t))
      ensures x < nodes.Length && nodes[x].parent == Parent(k)
      ensures SameOutside(old(nodes[..]), nodes[..], Ids(Fill(k, t0)) + {0})
    {
      Surroundings(nodes[..], k, t0);
      FillIds(k, t0);
      Spliced(nodes[..], k, t0, t);
      Transplant(z, x);
    }

    /** The pointer surgery of a deletion, up to but not including the fixup. */
    method Unlink(z: nat, ghost k0: Path, ghost t0: Tree)
        returns (x: nat, yColor: Color, ghost k: Path, ghost t: Tree)
      requires Stores(nodes[..], root, Fill(k0, t0)) && RedBlack(Fill(k0, t0)) && t0.Node? && z == Root(t0)
      modifies this`root, nodes
      ensures Stores(nodes[..], root, Fill(k, t)) && x == Root(t)
      ensures x < nodes.Length && nodes[x].parent == Parent(k)
      ensures yColor == Black ==> Short(k, t)
      ensures yColor == Red ==> RedBlack(Fill(k, t))
      ensures Inorder(Fill(k, t)) == Before(k0) + Inorder(t0.left) + Inorder(t0.right) + After(k0)
      ensures SameOutside(old(nodes[..]), nodes[..], Ids(Fill(k0, t0)) + {0})
    {
      Surroundings(nodes[..], k0, t0);
      yColor := nodes[z].color;
      if nodes[z].left == 0 {
        x, k, t := nodes[z].right, k0, t0.right;
        OuterTaken(k0, t0, t);
        UnlinkOuter(z, x, k, t0, t);
      } else if nodes[z].right == 0 {
        x, k, t := nodes[z].left, k0, t0.left;
        OuterTaken(k0, t0, t);
        UnlinkOuter(z, x, k, t0, t);
      } else {
        x, yColor, k, t := UnlinkInner(z, k0, t0);
      }
    }

    /** Unlinks node z and marks its slot unused. */
    method Detach(z: nat, ghost k0: Path, ghost t0: Tree)
        returns (x: nat, yColor: Color, ghost k: Path, ghost t: Tree)
      requires Stores(nodes[..], root, Fill(k0, t0)) && RedBlack(Fill(k0, t0)) && t0.Node? && z == Root(t0)
      modifies this`root, nodes
      ensures Stores(nodes[..], root, Fill(k, t)) && x == Root(t)
      ensures x < nodes.Length && nodes[x].parent == Parent(k)
      ensures yColor == Black ==> Short(k, t)
      ensures yColor == Red ==> RedBlack(Fill(k, t))
      ensures Inorder(Fill(k, t)) == Before(k0) + Inorder(t0.left) + Inorder(t0.right) + After(k0)
      ensures Ids(Fill(k, t)) == Ids(Fill(k0, t0)) - {z}
      ensures 0 < z < nodes.Length && !nodes[z].used
      ensures SameOutside(old(nodes[..]), nodes[..], Ids(Fill(k0, t0)) + {0})
    {
      TakenSlots(k0, t0);
      Surroundings(nodes[..], k0, t0);
      x, yColor, k, t := Unlink(z, k0, t0);
      InorderIds(Fill(k, t));
      MarkedUnused(nodes[..], Fill(k, t), z);
      nodes[z] := nodes[z].(used := false);
    }

    /** Takes node z out of the tree and restores the colours. */
    method Remove(z: nat, ghost k0: Path, ghost t0: Tree) returns (ghost t': Tree)
      requires Stores(nodes[..], root, Fill(k0, t0)) && RedBlack(Fill(k0, t0)) && t0.Node? && z == Root(t0)
      modifies this`root, nodes
      ensures Stores(nodes[..], root, t') && RedBlack(t')
      ensures Inorder(t') == Before(k0) + Inorder(t0.left) + Inorder(t0.right) + After(k0)
      ensures z < nodes.Length && !nodes[z].used
      ensures SameOutside(old(nodes[..]), nodes[..], Ids(Fill(k0, t0)) + {0})
    {
      var x, yColor, k, t := Detach(z, k0, t0);
      t' := Fill(k, t);
      if yColor == Black {
        t' := DeleteFixup(x, k, t);
      }
    }

    /** Removes one entry with that name, the one at position at of the inorder sequence. */
    method Delete(name: string) returns (rc: int, ghost at: nat)
      requires Valid()
      modifies this, nodes
      ensures Valid()
      ensures rc == 0 || rc == -1
      ensures rc == -1 ==>
        && Absent(old(Inorder(tree)), NamesOf(users[..]), name)
        && tree == old(tree) && nodes[..] == old(nodes[..])
      ensures rc == 0 ==>
        var s := old(Inorder(tree));
        && at < |s| && users[s[at].user].data.name == name
        && s[at].user == SearchUser(old(tree), NamesOf(users[..]), name)
        && Inorder(tree) == s[..at] + s[at + 1..]
        && Ids(tree) == old(Ids(tree)) - {s[at].id}
        && s[at].id < nodes.Length && !nodes[s[at].id].used
        && SameOutside(old(nodes[..]), nodes[..], old(Ids(tree)) + {0})
    {
      at := 0;
      var z, k0, t0 := Locate(name);
      if z == 0 {
        return -1, 0;
      }
      ghost var s';
      s', at := Taken(k0, t0, NamesOf(users[..]), Inorder(tree));
      ghost var t := Remove(z, k0, t0);
      assert Inorder(t) == s';
      InorderIds(t);
      tree := t;
      size := size - 1;
      rc := 0;
    }
  }

  lemma MarkedUnused(h: Pool, t: Tree, z: nat)
    requires Stores(h, Root(t), t) && 0 < z < |h| && z !in Ids(t)
    ensures Stores(h[z := h[z].(used := false)], Root(t), t)
  {
    RepFrame(h, h[z := h[z].(used := false)], t, 0);
  }

  /** Taking one entry out of a sorted tree. */
  lemma TakenOut(k: Path, t: Tree, names: seq<string>)
    requires t.Node? && Ordered(Inorder(Fill(k, t)), names)
    ensures Ordered(Before(k) + Inorder(t.left) + Inorder(t.right) + After(k), names)
  {
    var p, l, r, q := Before(k), Inorder(t.left), Inorder(t.right), After(k);
    InorderAround(k, t);
    Around(p, l, t.e, r, q);
    RemovedOrdered(p + l, t.e, r + q, names);
  }

  lemma InorderAround(k: Path, t: Tree)
    requires t.Node?
    ensures Inorder(Fill(k, t)) == Before(k) + (Inorder(t.left) + [t.e] + Inorder(t.right)) + After(k)
  {
    FillInorder(k, t);
  }

  /** The position of that entry. */
  lemma TakenAt(k: Path, t: Tree)
    requires t.Node?
    ensures
      var s, s' := Inorder(Fill(k, t)), Before(k) + Inorder(t.left) + Inorder(t.right) + After(k);
      var at := |Before(k)| + |Inorder(t.left)|;
      at < |s| && s[at] == t.e && s' == s[..at] + s[at + 1..] && |s'| == |s| - 1
  {
    InorderAround(k, t);
    Around(Before(k), Inorder(t.left), t.e, Inorder(t.right), After(k));
  }

  /** All about the sequence s' that is left of s. */
  lemma Taken(k: Path, t: Tree, names: seq<string>, s: seq<Entry>) returns (s': seq<Entry>, at: nat)
    requires t.Node? && Distinct(Fill(k, t)) && s == Inorder(Fill(k, t)) && Ordered(s, names)
    ensures s' == Before(k) + Inorder(t.left) + Inorder(t.right) + After(k)
    ensures at < |s| && s[at] == t.e && s' == s[..at] + s[at + 1..] && |s'| == |s| - 1
    ensures Ordered(s', names)
    ensures t.e.id in Ids(Fill(k, t)) && Slots(s') == Ids(Fill(k, t)) - {t.e.id}
  {
    TakenOut(k, t, names);
    TakenAt(k, t);
    TakenSlots(k, t);
    s' := Before(k) + Inorder(t.left) + Inorder(t.right) + After(k);
    at := |Before(k)| + |Inorder(t.left)|;
  }

  lemma Around<T>(p: seq<T>, l: seq<T>, x: T, r: seq<T>, q: seq<T>)
    ensures
      var s, n := p + (l + [x] + r) + q, |p| + |l|;
      && s == (p + l) + [x] + (r + q) && s[n] == x && s[..n] == p + l && s[n + 1..] == r + q
    ensures p + l + r + q == (p + l) + (r + q)
  {
    var s, n := p + (l + [x] + r) + q, |p| + |l|;
    assert s == (p + l) + [x] + (r + q);
    assert s[..n] == p + l;
    assert s[n + 1..] == r + q;
  }

  lemma TakenSlots(k: Path, t: Tree)
    requires t.Node? && Distinct(Fill(k, t))
    ensures Slots(Before(k) + Inorder(t.left) + Inorder(t.right) + After(k)) == Ids(Fill(k, t)) - {t.e.id}
    ensures t.e.id in Ids(Fill(k, t))
  {
    FillIds(k, t);
    SplitDistinct(k, t);
    PathSlots(k);
    InorderIds(t.left);
    InorderIds(t.right);
    assert t.e.id in Ids(t);
    var s' := Before(k) + Inorder(t.left) + Inorder(t.right) + After(k);
    var b, l, r, a := Before(k), Inorder(t.left), Inorder(t.right), After(k);
    assert forall x :: x in s' <==> x in b + a || x in l || x in r;
    assert Slots(s') == PathIds(k) + Ids(t.left) + Ids(t.right);
  }

  lemma OuterTaken(k: Path, t0: Tree, t: Tree)
    requires RedBlack(Fill(k, t0)) && OnlyChild(t0, t)
    ensures t0.color == Black ==> Short(k, t)
    ensures t0.color == Red ==> RedBlack(Fill(k, t))
    ensures Inorder(Fill(k, t)) == Before(k) + Inorder(t0.left) + Inorder(t0.right) + After(k)
  {
    SplitSound(k, t0);
    SplicedSound(k, t0, t);
    FillInorder(k, t);
    OnlyChildInorder(t0, t);
    Middle(Before(k), Inorder(t0.left), Inorder(t0.right), After(k));
  }

  lemma OnlyChildInorder(t0: Tree, t: Tree)
    requires OnlyChild(t0, t)
    ensures Inorder(t) == Inorder(t0.left) + Inorder(t0.right)
  {
    assert [] + Inorder(t) == Inorder(t) && Inorder(t) + [] == Inorder(t);
  }

  lemma Middle<T>(p: seq<T>, l: seq<T>, r: seq<T>, q: seq<T>)
    ensures p + (l + r) + q == p + l + r + q
  {
    assert p + (l + r) == p + l + r;
  }

  /** A red leaf in a free place of a red-black tree. */
  lemma NewRedSound(k: Path, u: Tree)
    requires u.Node? && u.left.Leaf? && u.right.Leaf? && u.color == Red
    requires RedBlack(Fill(k, Leaf))
    ensures Climbing(k, u)
    ensures Ids(Fill(k, u)) == Ids(Fill(k, Leaf)) + {u.e.id}
  {
    SplitSound(k, Leaf);
    FillIds(k, u);
    FillIds(k, Leaf);
  }

  /** Hung where the descent for its name ends, it is in order. */
  lemma NewRedOrder(k: Path, u: Tree, names: seq<string>, s: seq<Entry>) returns (s': seq<Entry>)
    requires u.Node? && u.left.Leaf? && u.right.Leaf?
    requires s == Inorder(Fill(k, Leaf)) && Ordered(s, names)
    requires 0 < u.e.user < |names| && Heading(k, names, names[u.e.user])
    ensures s' == InsertEntry(s, u.e, names) && Inorder(Fill(k, u)) == s'
    ensures |s'| == |s| + 1 && Ordered(s', names)
  {
    FillInorder(k, Leaf);
    FillInorder(k, u);
    var a, b := Before(k), After(k);
    assert s == a + b;
    s' := a + [u.e] + b;
    assert Inorder(Fill(k, u)) == s';
    InsertBetween(a, u.e, b, names);
    InsertedOrdered(a, u.e, b, names);
  }

  /** The tree with it, if the parent is black. */
  lemma NewRedPlaced(k: Path, u: Tree, names: seq<string>, t: Tree)
    requires u.Node? && t == Fill(k, Leaf) && 0 < u.e.user < |names| && u == Node(Leaf, u.e, Red, Leaf)
    requires Descent(k, names, names[u.e.user])
    ensures Placed(t, u.e, names) == Fill(k, u)
    ensures ColorAbove(t, names, names[u.e.user], Black) == Black ==> k.Top? || k.color == Black
  {
    DescentPlaces(k, Leaf, u.e, names);
  }

  /** A new leaf hung below path k. */
  lemma Grafted(h: Pool, h': Pool, k: Path, u: Tree)
    requires Stores(h, Root(Fill(k, Leaf)), Fill(k, Leaf))
    requires u.Node? && u.left.Leaf? && u.right.Leaf? && 0 < u.e.id < |h| && u.e.id !in Ids(Fill(k, Leaf))
    requires |h'| == |h| && h'[u.e.id] == TreeNode(u.e.user, 0, 0, Parent(k), u.color, true)
    requires k.Down? ==> k.e.id < |h| && h'[k.e.id] == h[k.e.id].WithChild(k.side, u.e.id)
    requires forall i :: 0 <= i < |h| && i != u.e.id && (k.Top? || i != k.e.id) ==> h'[i] == h[i]
    ensures Stores(h', Root(Fill(k, u)), Fill(k, u))
    ensures Root(Fill(k, u)) == if k.Top? then u.e.id else Root(Fill(k, Leaf))
  {
    FillIds(k, Leaf);
    if k.Down? {
      SplitRep(h, k, Leaf);
    }
    Replace(h, h', k, Leaf, u);
  }

  lemma Nephews(h: Pool, k: Path, t: Tree)
    requires Stores(h, Root(Fill(k, t)), Fill(k, t)) && k.Down? && k.sibling.Node?
    ensures
      var w := Root(k.sibling);
      && w < |h| && h[w].left < |h| && h[w].right < |h|
      && h[w].left == Root(k.sibling.left) && h[w].right == Root(k.sibling.right)
      && h[h[w].left].color == ColorOf(k.sibling.left)
      && h[h[w].right].color == ColorOf(k.sibling.right)
  {
    SplitRep(h, k, t);
    var w := k.sibling;
    assert Rep(h, w, k.e.id);
    assert Rep(h, w.left, w.e.id) && Rep(h, w.right, w.e.id);
    RepIds(h, w.left, w.e.id);
    RepIds(h, w.right, w.e.id);
    assert w.left.Node? ==> Root(w.left) in Ids(w.left);
    assert w.right.Node? ==> Root(w.right) in Ids(w.right);
  }

  /** Below a path, the root of the subtree is not the root of the tree. */
  lemma NotRoot(h: Pool, k: Path, t: Tree)
    requires Stores(h, Root(Fill(k, t)), Fill(k, t))
    ensures k.Down? ==> Root(t) != Root(Fill(k, t))
  {
    SplitDistinct(k, t);
    RootOfFill(k, t, t);
    FillIds(k, t);
    RepIds(h, Fill(k, t), 0);
    assert t.Node? ==> Root(t) in Ids(t);
  }

  /** What the links around the end of a path say. */
  lemma Family(h: Pool, k: Path, t: Tree)
    requires Stores(h, Root(Fill(k, t)), Fill(k, t))
    ensures Root(t) < |h| && Parent(k) < |h|
    ensures h[Root(t)].color == ColorOf(t)
    ensures t.Node? ==> Root(t) != 0 && h[Root(t)].parent == Parent(k)
    ensures k.Down? ==>
      && Parent(k) != 0 && Parent(k.up) < |h| && Root(k.sibling) < |h|
      && h[Parent(k)].color == k.color && h[Parent(k)].parent == Parent(k.up)
      && h[Parent(k)].Child(k.side) == Root(t)
      && h[Parent(k)].Child(Other(k.side)) == Root(k.sibling)
      && h[Root(k.sibling)].color == ColorOf(k.sibling)
      && (Root(t) == Root(k.sibling) ==> t.Leaf? && k.sibling.Leaf?)
  {
    SplitRep(h, k, t);
    SplitDistinct(k, t);
    RepIds(h, t, Parent(k));
    assert t.Node? ==> Root(t) in Ids(t);
    if k.Down? {
      var j := Join(k.side, t, k.e, k.color, k.sibling);
      assert Rep(h, j, Parent(k.up)) && Distinct(j);
      assert Rep(h, k.sibling, k.e.id);
      assert k.sibling.Node? ==> Root(k.sibling) in Ids(k.sibling);
      SplitRep(h, k.up, j);
      if k.up.Down? {
        assert Rep(h, Join(k.up.side, j, k.up.e, k.up.color, k.up.sibling), Parent(k.up.up));
      }
    }
  }

  lemma PaintStored(h: Pool, h': Pool, k: Path, t: Tree, c: Color)
    requires Stores(h, Root(Fill(k, t)), Fill(k, t)) && (t.Leaf? ==> c == Black)
    requires Root(t) < |h| && h' == h[Root(t) := h[Root(t)].(color := c)]
    ensures Stores(h', Root(Fill(k, t)), Fill(k, Paint(t, c)))
    ensures Inorder(Fill(k, Paint(t, c))) == Inorder(Fill(k, t))
    ensures Ids(Fill(k, Paint(t, c))) == Ids(Fill(k, t))
    ensures t.Node? ==> Root(t) in Ids(Fill(k, t)) && Root(t) != 0
  {
    if t.Node? {
      SplitRep(h, k, t);
      SplitDistinct(k, t);
      RepFrame(h, h', t.left, t.e.id);
      RepFrame(h, h', t.right, t.e.id);
      if k.Down? {
        assert Rep(h, Join(k.side, t, k.e, k.color, k.sibling), Parent(k.up));
      }
      Replace(h, h', k, t, Paint(t, c));
      FillInorder(k, t);
      FillInorder(k, Paint(t, c));
      FillIds(k, t);
      FillIds(k, Paint(t, c));
    } else {
      assert h' == h;
    }
  }
}
