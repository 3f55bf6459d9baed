/**
 The recolouring cases of red-black insertion and deletion, as steps on a path and the
 subtree below it.  Each case is stated once for both sides.
 */
module Fixups {
  import opened Trees

  function Near(s: Side, t: Tree): Tree
    requires t.Node?
  {
    if s == LeftSide then t.left else t.right
  }

  /** The tree of parent and both subtrees, seen from the end of k. */
  function Above(k: Path, t: Tree): Tree
    requires k.Down?
  {
    Join(k.side, t, k.e, k.color, k.sibling)
  }

  /** The path to the sibling of the subtree t at the end of k. */
  function ToSibling(k: Path, t: Tree): Path
    requires k.Down?
  {
    Down(k.up, k.e, k.color, Other(k.side), t)
  }

  // ---- insertion -------------------------------------------------------------------------

  /** Red-black, except that the red root of t may hang below a red parent. */
  predicate Climbing(k: Path, t: Tree) {
    t.Node? && t.color == Red && Sound(t) && PathSound(k, BlackHeight(t))
  }

  /** A red parent has a black parent of its own. */
  lemma Grandparent(k: Path, t: Tree)
    requires Climbing(k, t) && k.Down? && k.color == Red
    ensures k.up.Down? && k.up.color == Black && Sound(k.up.sibling) && PathSound(k.up, BlackHeight(t))
  {
    assert PathSound(k.up, BlackHeight(t));
  }

  /** Red uncle: parent and uncle turn black, the grandparent red. */
  function Recolored(k: Path, t: Tree): Tree
    requires k.Down? && k.up.Down?
  {
    Join(k.up.side, Above(k.(color := Black), t), k.up.e, Red, Paint(k.up.sibling, Black))
  }

  lemma RecoloredClimbs(k: Path, t: Tree)
    requires Climbing(k, t) && k.Down? && k.color == Red
    requires k.up.Down? && ColorOf(k.up.sibling) == Red
    ensures Climbing(k.up.up, Recolored(k, t))
  {
    assert PathSound(k.up, BlackHeight(t)) && PathSound(k.up.up, BlackHeight(t) + 1);
    var p := Above(k.(color := Black), t);
    assert Sound(p) && ColorOf(p) == Black && BlackHeight(p) == BlackHeight(t) + 1;
    var u := Paint(k.up.sibling, Black);
    assert Sound(u) && BlackHeight(u) == BlackHeight(t) + 1;
  }

  /** Black uncle, t an inner grandchild: rotating the parent makes it an outer one. */
  function StraightPath(k: Path, t: Tree): Path
    requires k.Down? && t.Node?
  {
    Down(k.up, t.e, t.color, Other(k.side), Near(k.side, t))
  }

  function StraightTree(k: Path, t: Tree): Tree
    requires k.Down? && t.Node?
  {
    Join(k.side, Near(Other(k.side), t), k.e, k.color, k.sibling)
  }

  lemma Straightened(k: Path, t: Tree)
    requires Climbing(k, t) && k.Down? && k.color == Red && k.up.Down? && k.up.side == Other(k.side)
    ensures CanRotate(k.up.side, Above(k, t))
    ensures Above(StraightPath(k, t), StraightTree(k, t)) == Rotate(k.up.side, Above(k, t))
    ensures Climbing(StraightPath(k, t), StraightTree(k, t))
  {
  }

  /** Black uncle, t an outer grandchild: the parent takes the grandparent's place. */
  function RaisedPath(k: Path): Path
    requires k.Down? && k.up.Down?
  {
    Down(k.up.up, k.e, Black, k.side, Join(k.side, k.sibling, k.up.e, Red, k.up.sibling))
  }

  lemma Raised(k: Path, t: Tree)
    requires Climbing(k, t) && k.Down? && k.color == Red && k.up.Down? && k.up.side == k.side
    requires ColorOf(k.up.sibling) == Black
    ensures
      var g := Join(k.side, Above(k.(color := Black), t), k.up.e, Red, k.up.sibling);
      CanRotate(Other(k.side), g) && Above(RaisedPath(k), t) == Rotate(Other(k.side), g)
    ensures Climbing(RaisedPath(k), t) && UnderBlack(RaisedPath(k))
  {
    assert PathSound(k.up, BlackHeight(t)) && PathSound(k.up.up, BlackHeight(t) + 1);
    var g := Join(k.side, k.sibling, k.up.e, Red, k.up.sibling);
    assert Sound(g) && BlackHeight(g) == BlackHeight(t);
  }

  /** At the end of the climb, blackening the root restores all invariants. */
  lemma InsertDone(k: Path, t: Tree)
    requires Climbing(k, t) && (k.Top? || k.color == Black)
    ensures RedBlack(Paint(Fill(k, t), Black))
  {
    if k.Down? {
      JoinSound(k, t);
    }
  }

  // ---- deletion --------------------------------------------------------------------------

  /** Red-black, except that t is one black node short (and its root may be red). */
  predicate Short(k: Path, t: Tree) {
    Sound(Paint(t, Black)) && PathSound(k, BlackHeight(t) + 1)
  }

  /** The sibling of a short subtree is never NIL. */
  lemma ShortSibling(k: Path, t: Tree)
    requires Short(k, t) && k.Down?
    ensures k.sibling.Node? && Sound(k.sibling) && BlackHeight(k.sibling) == BlackHeight(t) + 1
  {
  }

  /** Red sibling: it moves up, and t gets a black sibling below a red parent. */
  function RedSiblingPath(k: Path): Path
    requires k.Down? && k.sibling.Node?
  {
    Down(Down(k.up, k.sibling.e, Black, k.side, Near(Other(k.side), k.sibling)),
         k.e, Red, k.side, Near(k.side, k.sibling))
  }

  lemma RedSibling(k: Path, t: Tree)
    requires Short(k, t) && k.Down? && k.sibling.Node? && k.sibling.color == Red
    ensures
      var g := Join(k.side, t, k.e, Red, Paint(k.sibling, Black));
      && CanRotate(k.side, g)
      && Above(RedSiblingPath(k).up, Above(RedSiblingPath(k), t)) == Rotate(k.side, g)
    ensures Short(RedSiblingPath(k), t)
    ensures Near(k.side, k.sibling).Node? && Near(k.side, k.sibling).color == Black
  {
  }

  /** Black sibling with black children: the sibling turns red, the parent becomes short. */
  function PushedUp(k: Path, t: Tree): Tree
    requires k.Down?
  {
    Join(k.side, t, k.e, k.color, Paint(k.sibling, Red))
  }

  predicate BlackNephews(k: Path)
    requires k.Down? && k.sibling.Node?
  {
    ColorOf(k.sibling.left) == Black && ColorOf(k.sibling.right) == Black
  }

  lemma PushedUpShort(k: Path, t: Tree)
    requires Short(k, t) && ColorOf(t) == Black && k.Down? && k.sibling.Node?
    requires k.sibling.color == Black && BlackNephews(k)
    ensures Short(k.up, PushedUp(k, t))
  {
    var w := k.sibling;
    assert BlackHeight(Paint(w, Red)) == BlackHeight(t) && Sound(Paint(w, Red));
    assert PathSound(k.up, BlackHeight(t) + 1 + Weight(k.color));
  }

  /** Black sibling with only its near child red: that child becomes the sibling. */
  function NearNephewPath(k: Path): Path
    requires k.Down? && k.sibling.Node? && Near(k.side, k.sibling).Node?
  {
    var w, n := k.sibling, Near(k.side, k.sibling);
    k.(sibling := Join(k.side, Near(k.side, n), n.e, Black,
                       Join(k.side, Near(Other(k.side), n), w.e, Red, Near(Other(k.side), w))))
  }

  lemma NearNephew(k: Path, t: Tree)
    requires Short(k, t) && k.Down? && k.sibling.Node? && k.sibling.color == Black
    requires !BlackNephews(k) && ColorOf(Near(Other(k.side), k.sibling)) == Black
    ensures Near(k.side, k.sibling).Node?
    ensures
      var w, n := k.sibling, Near(k.side, k.sibling);
      var w' := Join(k.side, Paint(n, Black), w.e, Red, Near(Other(k.side), w));
      CanRotate(Other(k.side), w') && Rotate(Other(k.side), w') == NearNephewPath(k).sibling
    ensures Short(NearNephewPath(k), t)
    ensures Near(Other(k.side), NearNephewPath(k).sibling).Node?
    ensures Near(Other(k.side), NearNephewPath(k).sibling).color == Red
  {
    var w, n := k.sibling, Near(k.side, k.sibling);
    assert Sound(w.left) && Sound(w.right) && n.Node? && n.color == Red;
    var r := Join(k.side, Near(Other(k.side), n), w.e, Red, Near(Other(k.side), w));
    assert Sound(r) && BlackHeight(r) == BlackHeight(t);
    assert Sound(NearNephewPath(k).sibling);
  }

  /** Black sibling with a red far child: one rotation pays the missing black node back. */
  function Repaid(k: Path, t: Tree): Tree
    requires k.Down? && k.sibling.Node?
  {
    Join(k.side, Join(k.side, t, k.e, Black, Near(k.side, k.sibling)),
         k.sibling.e, k.color, Paint(Near(Other(k.side), k.sibling), Black))
  }

  lemma FarNephew(k: Path, t: Tree)
    requires Short(k, t) && ColorOf(t) == Black && k.Down? && k.sibling.Node? && k.sibling.color == Black
    requires ColorOf(Near(Other(k.side), k.sibling)) == Red
    ensures
      var w := k.sibling;
      var g := Join(k.side, t, k.e, Black,
                    Join(k.side, Near(k.side, w), w.e, k.color, Paint(Near(Other(k.side), w), Black)));
      CanRotate(k.side, g) && Rotate(k.side, g) == Repaid(k, t)
    ensures RedBlack(Fill(k.up, Repaid(k, t)))
  {
    var w := k.sibling;
    assert Sound(w.left) && Sound(w.right);
    var a := Join(k.side, t, k.e, Black, Near(k.side, w));
    var b := Paint(Near(Other(k.side), w), Black);
    assert Sound(a) && BlackHeight(a) == BlackHeight(t) + 1;
    assert Sound(b) && BlackHeight(b) == BlackHeight(t) + 1;
    assert PathSound(k.up, BlackHeight(t) + 1 + Weight(k.color));
    JoinSound(k.up, Repaid(k, t));
  }

  /** Blackening the root of a short subtree that is red, or the whole tree, settles it. */
  lemma DeleteDone(k: Path, t: Tree)
    requires Short(k, t) && (k.Top? || ColorOf(t) == Red)
    ensures RedBlack(Fill(k, Paint(t, Black)))
  {
    JoinSound(k, Paint(t, Black));
  }
}
