/** Taking a node out of the stored tree: transplants, and a free slot taking a node's place. */
module Splices {
  import opened Trees
  import opened Pools
  import opened Fixups

  /** The link writes of a transplant: v takes over u's place below u's parent. */
  function Transplanted(h: Pool, u: nat, v: nat): Pool
    requires u < |h| && v < |h| && h[u].parent < |h|
  {
    var p := h[u].parent;
    var g := if p == 0 then h else h[p := if u == h[p].left then h[p].(left := v) else h[p].(right := v)];
    g[v := g[v].(parent := g[u].parent)]
  }

  /** The only subtree of a node that lacks the other one. */
  predicate OnlyChild(t: Tree, s: Tree) {
    t.Node? && ((t.left.Leaf? && s == t.right) || (t.right.Leaf? && s == t.left))
  }

  /** The slots around a node at the end of a path. */
  lemma Surroundings(h: Pool, k: Path, t: Tree)
    requires Stores(h, Root(Fill(k, t)), Fill(k, t)) && t.Node?
    ensures Rep(h, t, Parent(k)) && Distinct(t) && Ids(t) !! PathIds(k)
    ensures 0 < Root(t) < |h| && Root(t.left) < |h| && Root(t.right) < |h| && Parent(k) < |h|
    ensures Root(t) !in Ids(t.left) && Root(t) !in Ids(t.right)
    ensures t.left.Node? ==> Root(t.left) != 0 && Root(t.left) in Ids(t.left)
    ensures t.right.Node? ==> Root(t.right) != 0 && Root(t.right) in Ids(t.right)
    ensures k.Top? <==> Parent(k) == 0
    ensures k.Down? ==> Parent(k) !in Ids(t) && h[Parent(k)].Child(k.side) == Root(t)
    ensures k.Down? ==> (k.side == LeftSide <==> h[Parent(k)].left == Root(t))
    ensures 0 !in Ids(Fill(k, t)) && Root(t) in Ids(t)
  {
    SplitRep(h, k, t);
    SplitDistinct(k, t);
    RepIds(h, Fill(k, t), 0);
    RepIds(h, t, Parent(k));
    if k.Down? {
      var j := Join(k.side, t, k.e, k.color, k.sibling);
      assert Rep(h, j, Parent(k.up)) && Distinct(j);
      assert k.sibling.Node? ==> k.sibling.e.id in Ids(k.sibling);
    }
  }

  lemma OnlyChildIds(k: Path, t: Tree, s: Tree)
    requires OnlyChild(t, s) && Distinct(t) && Ids(t) !! PathIds(k)
    ensures Ids(Fill(k, s)) == Ids(Fill(k, t)) - {Root(t)} && Root(t) in Ids(Fill(k, t))
    ensures Distinct(s) && Ids(s) !! PathIds(k) && Ids(s) <= Ids(t)
  {
    FillIds(k, t);
    FillIds(k, s);
  }

  /** A node with at most one subtree, replaced by that subtree. */
  lemma Spliced(h: Pool, k: Path, t: Tree, s: Tree)
    requires Stores(h, Root(Fill(k, t)), Fill(k, t)) && OnlyChild(t, s)
    ensures Root(t) < |h| && Root(s) < |h| && h[Root(t)].parent == Parent(k) < |h|
    ensures
      var h' := Transplanted(h, Root(t), Root(s));
      && Stores(h', if k.Top? then Root(s) else Root(Fill(k, t)), Fill(k, s))
      && h'[Root(s)].parent == Parent(k)
      && h'[Root(t)] == h[Root(t)]
  {
    Surroundings(h, k, t);
    OnlyChildIds(k, t, s);
    var h' := Transplanted(h, Root(t), Root(s));
    assert Rep(h, s, Root(t));
    RepReparent(h, h', s, Root(t), Parent(k));
    assert Regrafted(h, h', k, s);
    Replace(h, h', k, t, s);
  }

  /** A red-black tree with such a node taken out is red-black, or one black node short. */
  lemma SplicedSound(k: Path, t: Tree, s: Tree)
    requires Sound(t) && PathSound(k, BlackHeight(t)) && OnlyChild(t, s)
    ensures t.color == Black ==> Short(k, s)
    ensures t.color == Red ==> RedBlack(Fill(k, s))
  {
    assert BlackHeight(t.left) == BlackHeight(t.right) == 0;
    assert BlackHeight(t) == Weight(t.color);
    assert Sound(s) && Sound(Paint(s, Black));
    if t.color == Red {
      JoinSound(k, s);
    }
  }

  /** h' has slot y where h has the root of t. */
  ghost predicate Substituted(h: Pool, h': Pool, k: Path, t: Tree, y: Entry)
    requires t.Node?
  {
    && |h'| == |h| && 0 < y.id < |h|
    && h'[y.id] == TreeNode(y.user, Root(t.left), Root(t.right), Parent(k), t.color, true)
    && (forall c :: (c == Root(t.left) || c == Root(t.right)) && 0 < c < |h| ==> h'[c] == h[c].(parent := y.id))
    && (k.Down? ==> k.e.id < |h| && h'[k.e.id] == h[k.e.id].WithChild(k.side, y.id))
    && (forall i <- Ids(Fill(k, t)) ::
          0 < i < |h| && i != Root(t) && i != Root(t.left) && i != Root(t.right) && (k.Top? || i != k.e.id)
          ==> h'[i] == h[i])
  }

  lemma SubstitutedLocally(h: Pool, h': Pool, k: Path, t: Tree, y: Entry)
    requires Stores(h, Root(Fill(k, t)), Fill(k, t)) && t.Node?
    requires Substituted(h, h', k, t, y) && y.id !in Ids(Fill(k, t))
    ensures Rep(h', t.(e := y), Parent(k)) && Distinct(t.(e := y)) && Ids(t.(e := y)) !! PathIds(k)
    ensures Ids(t.(e := y)) == Ids(t) - {Root(t)} + {y.id}
  {
    Surroundings(h, k, t);
    FillIds(k, t);
    RepIds(h, t.left, Root(t));
    RepIds(h, t.right, Root(t));
    RepReparent(h, h', t.left, Root(t), y.id);
    RepReparent(h, h', t.right, Root(t), y.id);
  }

  /** A free slot that takes over the links of a node, takes its place in the tree. */
  lemma SubstitutedStored(h: Pool, h': Pool, k: Path, t: Tree, y: Entry)
    requires Stores(h, Root(Fill(k, t)), Fill(k, t)) && t.Node?
    requires Substituted(h, h', k, t, y) && y.id !in Ids(Fill(k, t)) && h'[0].color == Black
    ensures Stores(h', if k.Top? then y.id else Root(Fill(k, t)), Fill(k, t.(e := y)))
    ensures Ids(Fill(k, t.(e := y))) == Ids(Fill(k, t)) - {Root(t)} + {y.id}
  {
    Surroundings(h, k, t);
    SubstitutedLocally(h, h', k, t, y);
    FillIds(k, t);
    FillIds(k, t.(e := y));
    assert Regrafted(h, h', k, t.(e := y));
    Replace(h, h', k, t, t.(e := y));
  }

  /** The path to the leftmost node of the right subtree of t. */
  function ToSuccessor(inner: Path, k: Path, t: Tree): Path
    requires t.Node?
  {
    Compose(inner, Down(k, t.e, t.color, RightSide, t.left))
  }

  /** m is the leftmost node of the right subtree of t, and inner leads to it. */
  predicate Successor(inner: Path, t: Tree, m: Tree) {
    t.Node? && t.right == Fill(inner, m) && m.Node? && m.left.Leaf? && Before(inner) == []
  }

  /** The tree once the successor is taken out, and once it has replaced t's root. */
  function Shrunk(inner: Path, t: Tree, m: Tree): Tree
    requires t.Node? && m.Node?
  {
    Node(t.left, t.e, t.color, Fill(inner, m.right))
  }

  function Succeeded(inner: Path, t: Tree, m: Tree): Tree
    requires t.Node? && m.Node?
  {
    Node(t.left, m.e, t.color, Fill(inner, m.right))
  }

  lemma SuccessorPaths(inner: Path, k: Path, t: Tree, m: Tree)
    requires Successor(inner, t, m)
    ensures ToSuccessor(inner, k, t).Down?
    ensures Parent(ToSuccessor(inner, k, t)) == if inner.Top? then Root(t) else Parent(inner)
    ensures Fill(ToSuccessor(inner, k, t), m) == Fill(k, t)
    ensures Fill(ToSuccessor(inner, k, t), m.right) == Fill(k, Shrunk(inner, t, m))
    ensures Fill(ToSuccessor(inner, k, t.(e := m.e)), m.right) == Fill(k, Succeeded(inner, t, m))
    ensures Parent(ToSuccessor(inner, k, t.(e := m.e))) == if inner.Top? then Root(m) else Parent(inner)
    ensures Root(Fill(inner, m.right)) == if inner.Top? then Root(m.right) else Root(t.right)
  {
    var outer := Down(k, t.e, t.color, RightSide, t.left);
    ComposeFill(inner, outer, m);
    ComposeFill(inner, outer, m.right);
    ComposeFill(inner, outer.(e := m.e), m.right);
    RootOfFill(inner, m, m.right);
  }

  lemma InFrontOfRest<T>(a: seq<T>, l: seq<T>, m: seq<T>, b: seq<T>, f: seq<T>, r: seq<T>)
    requires r == m + b
    ensures a + (l + m + b) + f == a + l + r + f
  {
  }

  lemma SuccessorInorder(inner: Path, k: Path, t: Tree, m: Tree)
    requires Successor(inner, t, m)
    ensures Inorder(Fill(k, Succeeded(inner, t, m)))
         == Before(k) + Inorder(t.left) + Inorder(t.right) + After(k)
  {
    FillInorder(inner, m);
    FillInorder(inner, m.right);
    var a, l, b := Before(k), Inorder(t.left), Inorder(Fill(inner, m.right));
    assert Inorder(t.right) == [m.e] + b;
    FillInorder(k, Succeeded(inner, t, m));
    assert Inorder(Succeeded(inner, t, m)) == l + [m.e] + b;
    InFrontOfRest(a, l, [m.e], b, After(k), Inorder(t.right));
  }

  lemma SuccessorSound(inner: Path, k: Path, t: Tree, m: Tree)
    requires Successor(inner, t, m)
    requires RedBlack(Fill(ToSuccessor(inner, k, t), m))
    ensures
      var k' := ToSuccessor(inner, k, t.(e := m.e));
      && (m.color == Black ==> Short(k', m.right))
      && (m.color == Red ==> RedBlack(Fill(k', m.right)))
  {
    SplitSound(ToSuccessor(inner, k, t), m);
    RenameSound(inner, Down(k, t.e, t.color, RightSide, t.left), m.e, BlackHeight(m));
    SplicedSound(ToSuccessor(inner, k, t.(e := m.e)), m, m.right);
  }

  /** y takes over the parent, the left subtree and the colour of z. */
  function Supplanted(h: Pool, z: nat, y: nat): Pool
    requires z < |h| && y < |h| && h[z].parent < |h| && h[z].left < |h| && z != y && z != h[z].parent
  {
    var g := Transplanted(h, z, y);
    var a := g[y := g[y].(left := g[z].left)];
    var b := a[a[y].left := a[a[y].left].(parent := y)];
    b[y := b[y].(color := b[z].color)]
  }

  /** The right subtree of z, which has lost y, becomes the right subtree of y. */
  function Rehung(h: Pool, z: nat, y: nat): Pool
    requires z < |h| && y < |h| && h[z].right < |h|
  {
    var a := h[y := h[y].(right := h[z].right)];
    a[a[y].right := a[a[y].right].(parent := y)]
  }

  /** Supplanted, slot by slot, when the slots involved are different. */
  lemma SupplantedAt(h: Pool, z: nat, y: nat)
    requires z < |h| && y < |h| && h[z].parent < |h| && h[z].left < |h|
    requires z != 0 && y != 0 && z != y && z != h[z].parent && y != h[z].parent
    requires h[z].left !in {0, z, y, h[z].parent}
    ensures
      var h', l, p := Supplanted(h, z, y), h[z].left, h[z].parent;
      && |h'| == |h|
      && h'[y] == h[y].(parent := p, left := l, color := h[z].color)
      && h'[l] == h[l].(parent := y)
      && (p != 0 ==> h'[p] == h[p].WithChild(if z == h[p].left then LeftSide else RightSide, y))
      && (forall i :: 0 <= i < |h| && i != y && i != l && (p == 0 || i != p) ==> h'[i] == h[i])
  {
  }

  /** The slots around a node and its successor. */
  lemma SuccessorSlots(h: Pool, inner: Path, k: Path, t: Tree, m: Tree)
    requires Stores(h, Root(Fill(k, t)), Fill(k, t)) && Successor(inner, t, m) && t.left.Node?
    ensures
      var z, y, x, l, r, p := Root(t), Root(m), Root(m.right), Root(t.left), Root(t.right), Parent(k);
      && 0 < z < |h| && 0 < y < |h| && x < |h| && 0 < l < |h| && 0 < r < |h| && p < |h|
      && z != y && p != z && p != y && l !in {z, y, p} && x != z && x != y && x != l && (x == 0 || x != p)
      && r !in {z, l, p} && (r == y <==> inner.Top?) && (r == x ==> inner.Top?)
      && h[z] == TreeNode(t.e.user, l, r, p, t.color, true)
      && h[y] == TreeNode(m.e.user, 0, x, if inner.Top? then z else Parent(inner), m.color, true)
      && (k.Top? <==> p == 0)
      && (k.Down? ==> h[p].Child(k.side) == z && (k.side == LeftSide <==> h[p].left == z))
      && (inner.Down? ==> Parent(inner) < |h| && Parent(inner) !in {0, z, y, x, l, p})
  {
    SuccessorPaths(inner, k, t, m);
    Surroundings(h, k, t);
    Surroundings(h, ToSuccessor(inner, k, t), m);
    FillIds(inner, m);
    RootOfFill(inner, m, m);
    assert Rep(h, t.right, Root(t));
    SplitDistinct(inner, m);
    RepIds(h, t, Parent(k));
    assert Parent(inner) != 0 ==> inner.Down?;
    assert inner.Down? ==> Parent(inner) in PathIds(inner) && Parent(inner) in Ids(t.right);
    assert m.right.Node? ==> Root(m.right) in Ids(m);
    assert Ids(m) <= Ids(t.right) && Ids(t.right) <= Ids(t) && Ids(t.left) !! Ids(t.right);
  }

  /** All slots written when the successor takes over belong to the tree, or are NIL. */
  lemma SuccessorOutside(h: Pool, inner: Path, k: Path, t: Tree, m: Tree)
    requires Stores(h, Root(Fill(k, t)), Fill(k, t)) && Successor(inner, t, m) && t.left.Node?
    ensures {Root(m), Root(m.right), Root(t.left), Root(t.right), Parent(k), Parent(inner)} <= Ids(Fill(k, t)) + {0}
  {
    SuccessorPaths(inner, k, t, m);
    Surroundings(h, k, t);
    Surroundings(h, ToSuccessor(inner, k, t), m);
    FillIds(inner, m);
    FillIds(k, t);
    assert inner.Down? ==> Parent(inner) in PathIds(inner) && Parent(inner) in Ids(t.right);
  }

  /** The writes for a successor y that is the right child of z, slot by slot, compared with the
      pool in which y is unlinked. */
  lemma AdjacentSlots(h: Pool, z: nat, y: nat)
    requires z < |h| && y < |h| && h[z].parent < |h| && h[z].left < |h| && h[y].right < |h|
    requires z != 0 && y != 0 && z != y && z != h[z].parent && y != h[z].parent
    requires h[z].left !in {0, z, y, h[z].parent} && h[y].parent == z && h[z].right == y
    requires h[y].right !in {z, y, h[z].left} && (h[y].right == 0 || h[y].right != h[z].parent)
    ensures
      var l, x, p := h[z].left, h[y].right, h[z].parent;
      var g, h1 := h[x := h[x].(parent := y)], Transplanted(h, y, x);
      && g[z] == h[z] && h1[z] == h[z].(right := x)
      && var h' := Supplanted(g, z, y);
      && |h'| == |h1| == |h|
      && h'[y] == h1[y].(parent := p, left := l, color := h1[z].color)
      && h'[l] == h1[l].(parent := y) && h'[x] == h1[x].(parent := y)
      && (p != 0 ==> h'[p] == h1[p].WithChild(if z == h1[p].left then LeftSide else RightSide, y))
      && (forall i :: 0 <= i < |h| && i !in {z, y, l, x} && (p == 0 || i != p) ==> h'[i] == h1[i])
  {
    var x := h[y].right;
    SupplantedAt(h[x := h[x].(parent := y)], z, y);
  }

  /** The successor is z's right child: it moves up with its own right subtree. */
  lemma AdjacentReplaced(h: Pool, g: Pool, h': Pool, inner: Path, k: Path, t: Tree, m: Tree)
    requires Stores(h, Root(Fill(k, t)), Fill(k, t)) && Successor(inner, t, m) && t.left.Node? && inner.Top?
    requires Root(m) < |h| && Root(m.right) < |h|
    requires g == h[Root(m.right) := h[Root(m.right)].(parent := Root(m))]
    requires Root(t) < |g| && Root(t) != Root(m) && g[Root(t)].parent < |g| && g[Root(t)].left < |g|
    requires g[Root(t)].parent != Root(t) && h' == Supplanted(g, Root(t), Root(m))
    ensures Stores(h', if k.Top? then Root(m) else Root(Fill(k, t)), Fill(k, Succeeded(inner, t, m)))
    ensures h'[Root(m.right)].parent == Root(m)
  {
    var z, y, x := Root(t), Root(m), Root(m.right);
    var t1 := Shrunk(inner, t, m);
    SuccessorPaths(inner, k, t, m);
    SuccessorSlots(h, inner, k, t, m);
    Spliced(h, ToSuccessor(inner, k, t), m, m.right);
    Surroundings(h, ToSuccessor(inner, k, t), m);
    OnlyChildIds(ToSuccessor(inner, k, t), m, m.right);
    AdjacentSlots(h, z, y);
    var h1 := Transplanted(h, y, x);
    RootOfFill(k, t, t1);
    assert Substituted(h1, h', k, t1, m.e);
    SubstitutedStored(h1, h', k, t1, m.e);
  }

  /** The writes for a successor further down, slot by slot, from the pool h in which it is
      unlinked already. */
  lemma DistantSlots(h: Pool, z: nat, y: nat)
    requires z < |h| && y < |h| && h[z].right < |h| && h[z].parent < |h| && h[z].left < |h|
    requires z != 0 && y != 0 && z != y && z != h[z].parent && y != h[z].parent
    requires h[z].left !in {0, z, y, h[z].parent}
    requires h[z].right !in {0, z, y, h[z].left, h[z].parent}
    ensures
      var g, l, r, p := Rehung(h, z, y), h[z].left, h[z].right, h[z].parent;
      && |g| == |h| && g[z] == h[z]
      && var h' := Supplanted(g, z, y);
      && |h'| == |h|
      && h'[y] == h[y].(parent := p, left := l, right := r, color := h[z].color)
      && h'[l] == h[l].(parent := y) && h'[r] == h[r].(parent := y)
      && (p != 0 ==> h'[p] == h[p].WithChild(if z == h[p].left then LeftSide else RightSide, y))
      && (forall i :: 0 <= i < |h| && i !in {y, l, r} && (p == 0 || i != p) ==> h'[i] == h[i])
  {
    SupplantedAt(Rehung(h, z, y), z, y);
  }

  /** The successor is further down: it is unlinked first. */
  lemma DistantReplaced(h: Pool, h': Pool, inner: Path, k: Path, t: Tree, m: Tree)
    requires Stores(h, Root(Fill(k, t)), Fill(k, t)) && Successor(inner, t, m) && t.left.Node? && inner.Down?
    requires Root(t) < |h| && Root(m) < |h| && h[Root(m)].parent < |h| && Root(m.right) < |h|
    requires
      var z, y := Root(t), Root(m);
      var h1 := Transplanted(h, y, Root(m.right));
      z != y && h1[z].right < |h| &&
      var h2 := Rehung(h1, z, y);
      h2[z].parent < |h| && h2[z].left < |h| && h2[z].parent != z && h' == Supplanted(h2, z, y)
    ensures Stores(h', if k.Top? then Root(m) else Root(Fill(k, t)), Fill(k, Succeeded(inner, t, m)))
    ensures h'[Root(m.right)].parent == Parent(inner)
  {
    var z, y, x := Root(t), Root(m), Root(m.right);
    var t1 := Shrunk(inner, t, m);
    SuccessorPaths(inner, k, t, m);
    SuccessorSlots(h, inner, k, t, m);
    Spliced(h, ToSuccessor(inner, k, t), m, m.right);
    Surroundings(h, ToSuccessor(inner, k, t), m);
    OnlyChildIds(ToSuccessor(inner, k, t), m, m.right);
    var h1 := Transplanted(h, y, x);
    DistantSlots(h1, z, y);
    RootOfFill(k, t, t1);
    assert Substituted(h1, h', k, t1, m.e);
    SubstitutedStored(h1, h', k, t1, m.e);
  }
}
