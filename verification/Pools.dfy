/**
 The node pool: an array of structs linked by slot numbers, and when such a pool represents
 a tree of module Trees.  Slot 0 is the NIL sentinel shared by all leaves.
 */
module Pools {
  import opened Trees

  datatype TreeNode = TreeNode(user: nat, left: nat, right: nat, parent: nat, color: Color, used: bool)
  {
    function Child(s: Side): nat {
      if s == LeftSide then left else right
    }

    function WithChild(s: Side, i: nat): TreeNode {
      if s == LeftSide then this.(left := i) else this.(right := i)
    }
  }

  type Pool = seq<TreeNode>

  /** The subtree t is stored in h, and its root's parent link is p. */
  predicate Rep(h: Pool, t: Tree, p: nat) {
    match t
    case Leaf => true
    case Node(l, e, c, r) =>
      && 0 < e.id < |h|
      && h[e.id] == TreeNode(e.user, Root(l), Root(r), p, c, true)
      && Rep(h, l, e.id) && Rep(h, r, e.id)
  }

  /** The pool and the root link together represent t, with NIL black. */
  predicate Stores(h: Pool, root: nat, t: Tree) {
    && 0 < |h| && h[0].color == Black
    && root == Root(t)
    && Distinct(t)
    && Rep(h, t, 0)
  }

  /** The two pools differ at most in the given slots. */
  predicate SameOutside(h: Pool, h': Pool, s: set<nat>) {
    |h'| == |h| && forall i :: 0 <= i < |h| && i !in s ==> h'[i] == h[i]
  }

  lemma {:induction false} RepIds(h: Pool, t: Tree, p: nat)
    requires Rep(h, t, p)
    ensures forall i <- Ids(t) :: 0 < i < |h|
  {
    if t.Node? {
      RepIds(h, t.left, t.e.id);
      RepIds(h, t.right, t.e.id);
    }
  }

  /** A subtree survives changes elsewhere in the pool. */
  lemma {:induction false} RepFrame(h: Pool, h': Pool, t: Tree, p: nat)
    requires Rep(h, t, p)
    requires |h'| == |h|
    requires forall i <- Ids(t) :: 0 < i < |h| ==> h'[i] == h[i]
    ensures Rep(h', t, p)
  {
    if t.Node? {
      RepFrame(h, h', t.left, t.e.id);
      RepFrame(h, h', t.right, t.e.id);
    }
  }

  /** A subtree also survives being hung below another parent. */
  lemma RepReparent(h: Pool, h': Pool, t: Tree, p: nat, q: nat)
    requires Rep(h, t, p) && Distinct(t)
    requires |h'| == |h|
    requires t.Node? ==> h'[t.e.id] == h[t.e.id].(parent := q)
    requires forall i <- Ids(t) :: i != Root(t) && 0 < i < |h| ==> h'[i] == h[i]
    ensures Rep(h', t, q)
  {
    if t.Node? {
      RepFrame(h, h', t.left, t.e.id);
      RepFrame(h, h', t.right, t.e.id);
    }
  }

  /** Reading one step of a path: the subtree, its parent and the sibling. */
  lemma {:induction false} SplitRep(h: Pool, k: Path, t: Tree)
    requires Rep(h, Fill(k, t), 0)
    ensures Rep(h, t, Parent(k))
    ensures k.Down? ==> Rep(h, Join(k.side, t, k.e, k.color, k.sibling), Parent(k.up))
  {
    if k.Down? {
      SplitRep(h, k.up, Join(k.side, t, k.e, k.color, k.sibling));
    }
  }

  lemma {:induction false} RootOfFill(k: Path, t: Tree, u: Tree)
    ensures k.Down? ==> Root(Fill(k, t)) == Root(Fill(k, u)) && Root(Fill(k, t)) in PathIds(k)
  {
    if k.Down? {
      RootOfFill(k.up, Join(k.side, t, k.e, k.color, k.sibling), Join(k.side, u, k.e, k.color, k.sibling));
    }
  }

  /** h' has subtree u where h has t, below path k: off the subtree everything keeps its
      contents, except the child link of the parent. */
  ghost predicate Regrafted(h: Pool, h': Pool, k: Path, u: Tree) {
    && |h'| == |h|
    && (k.Down? ==> 0 < k.e.id < |h| && h'[k.e.id] == h[k.e.id].WithChild(k.side, Root(u)))
    && forall i <- PathIds(k) :: i != Parent(k) && 0 < i < |h| ==> h'[i] == h[i]
  }

  lemma RegraftedAbove(h: Pool, h': Pool, k: Path, t: Tree, u: Tree)
    requires k.Down? && Distinct(Fill(k, t)) && Rep(h, Fill(k, t), 0)
    requires Rep(h', u, Parent(k)) && Regrafted(h, h', k, u)
    ensures Rep(h', Join(k.side, u, k.e, k.color, k.sibling), Parent(k.up))
    ensures Regrafted(h, h', k.up, Join(k.side, u, k.e, k.color, k.sibling))
  {
    var t' := Join(k.side, t, k.e, k.color, k.sibling);
    SplitRep(h, k, t);
    SplitDistinct(k, t);
    SplitDistinct(k.up, t');
    assert k.e.id in Ids(t');
    assert k.e.id !in Ids(k.sibling) && Rep(h, k.sibling, k.e.id);
    RepFrame(h, h', k.sibling, k.e.id);
    assert Rep(h', Join(k.side, u, k.e, k.color, k.sibling), Parent(k.up));
    if k.up.Down? {
      SplitRep(h, k.up, t');
      assert h[k.up.e.id].Child(k.up.side) == k.e.id;
    }
  }

  /** Replacing the subtree at the end of a path. */
  lemma {:induction false} Replace(h: Pool, h': Pool, k: Path, t: Tree, u: Tree)
    requires Distinct(Fill(k, t)) && Rep(h, Fill(k, t), 0)
    requires Rep(h', u, Parent(k)) && Distinct(u) && Ids(u) !! PathIds(k)
    requires Regrafted(h, h', k, u)
    ensures Rep(h', Fill(k, u), 0) && Distinct(Fill(k, u))
    ensures k.Down? ==> Root(Fill(k, u)) == Root(Fill(k, t))
  {
    JoinDistinct(k, t, u);
    if k.Down? {
      var t', u' := Join(k.side, t, k.e, k.color, k.sibling), Join(k.side, u, k.e, k.color, k.sibling);
      RegraftedAbove(h, h', k, t, u);
      SplitDistinct(k.up, u');
      Replace(h, h', k.up, t', u');
    }
  }
}
