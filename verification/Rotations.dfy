/** What the link writes of one rotation do to the stored tree. */
module Rotations {
  import opened Trees
  import opened Pools

  /** The child that comes up, and the inner grandchild that changes parents. */
  function Riser(s: Side, t: Tree): nat
    requires CanRotate(s, t)
  {
    if s == LeftSide then Root(t.right) else Root(t.left)
  }

  function Inner(s: Side, t: Tree): Tree
    requires CanRotate(s, t)
  {
    if s == LeftSide then t.right.left else t.left.right
  }

  /** The link writes of a rotation of t towards s, below path k. */
  ghost predicate Relinked(h: Pool, h': Pool, s: Side, k: Path, t: Tree)
    requires CanRotate(s, t)
  {
    var x, y, b, p := Root(t), Riser(s, t), Root(Inner(s, t)), Parent(k);
    && |h'| == |h| && x < |h| && y < |h| && b < |h| && p < |h|
    && h'[x] == h[x].WithChild(Other(s), b).(parent := y)
    && h'[y] == h[y].WithChild(s, x).(parent := p)
    && (b != 0 ==> h'[b] == h[b].(parent := x))
    && (k.Down? ==> h'[p] == h[p].WithChild(k.side, y))
    && (forall i :: 0 <= i < |h| && i != x && i != y && (b == 0 || i != b) && (k.Top? || i != p) ==> h'[i] == h[i])
  }

  /** The slots a rotation reads and writes are all different, and linked as the tree says. */
  lemma RotationShape(h: Pool, s: Side, k: Path, t: Tree)
    requires Distinct(Fill(k, t)) && Rep(h, Fill(k, t), 0) && CanRotate(s, t)
    ensures
      var x, y, b, p := Root(t), Riser(s, t), Root(Inner(s, t)), Parent(k);
      && 0 < x < |h| && 0 < y < |h| && b < |h| && p < |h|
      && x != y && b != x && b != y && p != x && p != y && (b == 0 || b != p)
      && h[x].Child(Other(s)) == y && h[y].Child(s) == b && h[x].parent == p
      && (p == 0 <==> k.Top?)
      && (k.Down? ==> h[p].Child(k.side) == x && h[p].Child(Other(k.side)) != x)
      && {x, y} <= Ids(Fill(k, t)) && (k.Down? ==> p in Ids(Fill(k, t)))
      && (b != 0 ==> b in Ids(Fill(k, t)))
  {
    SplitRep(h, k, t);
    SplitDistinct(k, t);
    FillIds(k, t);
    var y := if s == LeftSide then t.right else t.left;
    assert Rep(h, y, Root(t)) && Distinct(y);
    assert y.e.id in Ids(y);
    var b := Inner(s, t);
    assert Rep(h, b, Root(y));
    assert b.Node? ==> b.e.id in Ids(b) && b.e.id in Ids(y);
    if k.Down? {
      var j := Join(k.side, t, k.e, k.color, k.sibling);
      assert Rep(h, j, Parent(k.up)) && Distinct(j);
      assert k.sibling.Node? ==> k.sibling.e.id in Ids(k.sibling);
    }
  }

  lemma RotatedLocally(h: Pool, h': Pool, s: Side, k: Path, t: Tree)
    requires Distinct(t) && Rep(h, t, Parent(k)) && CanRotate(s, t)
    requires k.Down? ==> k.e.id !in Ids(t)
    requires Relinked(h, h', s, k, t)
    ensures Rep(h', Rotate(s, t), Parent(k))
  {
    RepIds(h, t, Parent(k));
    var x, y, b := t.e.id, if s == LeftSide then t.right else t.left, Inner(s, t);
    var a, c := if s == LeftSide then t.left else t.right, if s == LeftSide then y.right else y.left;
    assert Rep(h, y, x) && Distinct(y) && x !in Ids(y) && Ids(a) !! Ids(y);
    assert Rep(h, b, y.e.id) && Rep(h, c, y.e.id) && Rep(h, a, x) && Distinct(b);
    assert y.e.id in Ids(y) && Ids(b) <= Ids(y) && Ids(c) <= Ids(y) && Ids(b) !! Ids(c);
    assert b.Node? ==> b.e.id in Ids(b);
    RepFrame(h, h', a, x);
    RepFrame(h, h', c, y.e.id);
    RepReparent(h, h', b, y.e.id, x);
  }

  lemma RotationStored(h: Pool, h': Pool, s: Side, k: Path, t: Tree)
    requires Stores(h, Root(Fill(k, t)), Fill(k, t)) && CanRotate(s, t)
    requires Relinked(h, h', s, k, t)
    ensures Stores(h', if k.Top? then Riser(s, t) else Root(Fill(k, t)), Fill(k, Rotate(s, t)))
    ensures Inorder(Fill(k, Rotate(s, t))) == Inorder(Fill(k, t))
    ensures SameOutside(h, h', Ids(Fill(k, t))) && h'[0] == h[0]
  {
    SplitRep(h, k, t);
    SplitDistinct(k, t);
    RotateDistinct(s, t);
    RotatedLocally(h, h', s, k, t);
    RotationShape(h, s, k, t);
    RotationOffPath(s, k, t);
    assert Regrafted(h, h', k, Rotate(s, t));
    Replace(h, h', k, t, Rotate(s, t));
    RotateInorder(s, t);
    FillInorder(k, t);
    FillInorder(k, Rotate(s, t));
    FillIds(k, t);
    FillIds(k, Rotate(s, t));
  }

  lemma RotationOffPath(s: Side, k: Path, t: Tree)
    requires CanRotate(s, t) && Ids(t) !! PathIds(k)
    ensures Root(t) !in PathIds(k) && Riser(s, t) !in PathIds(k)
    ensures Inner(s, t).Node? ==> Root(Inner(s, t)) !in PathIds(k)
  {
    var y := if s == LeftSide then t.right else t.left;
    assert y.e.id in Ids(y);
    assert Inner(s, t).Node? ==> Root(Inner(s, t)) in Ids(Inner(s, t)) && Ids(Inner(s, t)) <= Ids(y);
  }
}
