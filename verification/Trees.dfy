/**
 The algebraic side of the user index: red-black trees of pool entries, and paths
 ("zippers") from a subtree up to the root.  Nothing here mentions the node pool; see
 Pools for how a pool of linked nodes represents one of these trees.
 */
module Trees {

  datatype Color = Red | Black

  datatype Side = LeftSide | RightSide

  /** A tree slot together with the list slot of the user it indexes. */
  datatype Entry = Entry(id: nat, user: nat)

  datatype Tree = Leaf | Node(left: Tree, e: Entry, color: Color, right: Tree)

  /** The way up from a subtree: each step names the parent, the side on which the subtree
      hangs below that parent, and the subtree on the other side. */
  datatype Path = Top | Down(up: Path, e: Entry, color: Color, side: Side, sibling: Tree)

  function Other(s: Side): Side {
    if s == LeftSide then RightSide else LeftSide
  }

  function Join(s: Side, near: Tree, e: Entry, color: Color, far: Tree): Tree {
    if s == LeftSide then Node(near, e, color, far) else Node(far, e, color, near)
  }

  /** The whole tree obtained by hanging t at the end of k. */
  function Fill(k: Path, t: Tree): Tree {
    match k
    case Top => t
    case Down(up, e, c, s, sib) => Fill(up, Join(s, t, e, c, sib))
  }

  /** The path that first follows inner, then outer. */
  function Compose(inner: Path, outer: Path): Path {
    match inner
    case Top => outer
    case Down(up, e, c, s, sib) => Down(Compose(up, outer), e, c, s, sib)
  }

  function Depth(k: Path): nat {
    if k.Top? then 0 else 1 + Depth(k.up)
  }

  /** Slot of the root; 0 is the shared NIL sentinel. */
  function Root(t: Tree): nat {
    if t.Leaf? then 0 else t.e.id
  }

  function Parent(k: Path): nat {
    if k.Top? then 0 else k.e.id
  }

  function Inorder(t: Tree): seq<Entry> {
    match t
    case Leaf => []
    case Node(l, e, _, r) => Inorder(l) + [e] + Inorder(r)
  }

  /** Entries left of, and right of, the hole of a path. */
  function Before(k: Path): seq<Entry> {
    match k
    case Top => []
    case Down(up, e, _, s, sib) =>
      if s == LeftSide then Before(up) else Before(up) + Inorder(sib) + [e]
  }

  function After(k: Path): seq<Entry> {
    match k
    case Top => []
    case Down(up, e, _, s, sib) =>
      if s == LeftSide then [e] + Inorder(sib) + After(up) else After(up)
  }

  lemma {:induction false} FillInorder(k: Path, t: Tree)
    ensures Inorder(Fill(k, t)) == Before(k) + Inorder(t) + After(k)
  {
    match k
    case Top =>
    case Down(up, e, c, s, sib) =>
      FillInorder(up, Join(s, t, e, c, sib));
      if s == LeftSide {
        Regroup(Before(up), Inorder(t), [e], Inorder(sib), After(up));
      } else {
        Regroup(Before(up), Inorder(sib), [e], Inorder(t), After(up));
      }
  }

  lemma Regroup<T>(a: seq<T>, b: seq<T>, c: seq<T>, d: seq<T>, f: seq<T>)
    ensures a + (b + c + d) + f == a + b + (c + d + f)
    ensures a + (b + c + d) + f == (a + b + c) + d + f
  {
  }

  lemma {:induction false} FillNode(k: Path, t: Tree)
    requires t.Node?
    ensures Fill(k, t).Node?
  {
    if k.Down? {
      FillNode(k.up, Join(k.side, t, k.e, k.color, k.sibling));
    }
  }

  lemma {:induction false} ComposeFill(inner: Path, outer: Path, t: Tree)
    ensures Fill(Compose(inner, outer), t) == Fill(outer, Fill(inner, t))
  {
    match inner
    case Top =>
    case Down(up, e, c, s, sib) => ComposeFill(up, outer, Join(s, t, e, c, sib));
  }

  // ---- slots -----------------------------------------------------------------------------

  function Ids(t: Tree): set<nat> {
    match t
    case Leaf => {}
    case Node(l, e, _, r) => Ids(l) + {e.id} + Ids(r)
  }

  function PathIds(k: Path): set<nat> {
    match k
    case Top => {}
    case Down(up, e, _, _, sib) => PathIds(up) + {e.id} + Ids(sib)
  }

  /** No slot occurs twice. */
  predicate Distinct(t: Tree) {
    match t
    case Leaf => true
    case Node(l, e, _, r) =>
      e.id !in Ids(l) && e.id !in Ids(r) && Ids(l) !! Ids(r) && Distinct(l) && Distinct(r)
  }

  lemma {:induction false} FillIds(k: Path, t: Tree)
    ensures Ids(Fill(k, t)) == PathIds(k) + Ids(t)
  {
    if k.Down? {
      FillIds(k.up, Join(k.side, t, k.e, k.color, k.sibling));
    }
  }

  /** Slots are determined by the inorder sequence. */
  function Slots(s: seq<Entry>): set<nat> {
    set e <- s :: e.id
  }

  lemma {:induction false} InorderIds(t: Tree)
    ensures Ids(t) == Slots(Inorder(t))
  {
    if t.Node? {
      InorderIds(t.left);
      InorderIds(t.right);
    }
  }

  lemma {:induction false} PathSlots(k: Path)
    ensures PathIds(k) == Slots(Before(k) + After(k))
  {
    if k.Down? {
      PathSlots(k.up);
      InorderIds(k.sibling);
      var b, a := Before(k), After(k);
      assert forall x :: x in b + a <==> x in Before(k.up) + After(k.up) || x in Inorder(k.sibling) || x == k.e;
    }
  }

  lemma {:induction false} SplitDistinct(k: Path, t: Tree)
    requires Distinct(Fill(k, t))
    ensures Distinct(t) && Ids(t) !! PathIds(k)
    ensures k.Down? ==> Distinct(Join(k.side, t, k.e, k.color, k.sibling))
  {
    if k.Down? {
      SplitDistinct(k.up, Join(k.side, t, k.e, k.color, k.sibling));
    }
  }

  lemma {:induction false} JoinDistinct(k: Path, t: Tree, u: Tree)
    requires Distinct(Fill(k, t)) && Distinct(u) && Ids(u) !! PathIds(k)
    ensures Distinct(Fill(k, u))
  {
    if k.Down? {
      SplitDistinct(k, t);
      SplitDistinct(k.up, Join(k.side, t, k.e, k.color, k.sibling));
      JoinDistinct(k.up, Join(k.side, t, k.e, k.color, k.sibling),
                   Join(k.side, u, k.e, k.color, k.sibling));
    }
  }

  // ---- red-black invariants --------------------------------------------------------------

  function ColorOf(t: Tree): Color {
    if t.Leaf? then Black else t.color
  }

  function Weight(c: Color): nat {
    if c == Black then 1 else 0
  }

  /** Black nodes on the leftmost way down. */
  function BlackHeight(t: Tree): nat {
    match t
    case Leaf => 0
    case Node(l, _, c, _) => BlackHeight(l) + Weight(c)
  }

  predicate Balanced(t: Tree) {
    match t
    case Leaf => true
    case Node(l, _, _, r) => BlackHeight(l) == BlackHeight(r) && Balanced(l) && Balanced(r)
  }

  predicate NoRedRed(t: Tree) {
    match t
    case Leaf => true
    case Node(l, _, c, r) =>
      (c == Red ==> ColorOf(l) == Black && ColorOf(r) == Black) && NoRedRed(l) && NoRedRed(r)
  }

  /** Balanced, with no red node below a red node; the root may have either colour. */
  predicate Sound(t: Tree) {
    Balanced(t) && NoRedRed(t)
  }

  predicate RedBlack(t: Tree) {
    Sound(t) && ColorOf(t) == Black
  }

  function Paint(t: Tree, c: Color): Tree {
    if t.Leaf? then t else t.(color := c)
  }

  /** The surroundings are red-black as soon as the hole gets a black root of black height n. */
  predicate PathSound(k: Path, n: nat) {
    match k
    case Top => true
    case Down(up, _, c, _, sib) =>
      && Sound(sib) && BlackHeight(sib) == n
      && (c == Red ==> ColorOf(sib) == Black && up.Down? && up.color == Black)
      && PathSound(up, n + Weight(c))
  }

  predicate UnderBlack(k: Path) {
    k.Down? && k.color == Black
  }

  lemma {:induction false} SplitSound(k: Path, t: Tree)
    requires RedBlack(Fill(k, t))
    ensures Sound(t) && PathSound(k, BlackHeight(t))
    ensures UnderBlack(k) || ColorOf(t) == Black
  {
    if k.Down? {
      SplitSound(k.up, Join(k.side, t, k.e, k.color, k.sibling));
    }
  }

  lemma {:induction false} JoinSound(k: Path, t: Tree)
    requires Sound(t) && PathSound(k, BlackHeight(t))
    requires UnderBlack(k) || ColorOf(t) == Black
    ensures RedBlack(Fill(k, t))
  {
    if k.Down? {
      JoinSound(k.up, Join(k.side, t, k.e, k.color, k.sibling));
    }
  }

  /** Soundness of a path does not depend on which entries sit on it. */
  lemma {:induction false} RenameSound(inner: Path, outer: Path, e: Entry, n: nat)
    requires outer.Down? && PathSound(Compose(inner, outer), n)
    ensures PathSound(Compose(inner, outer.(e := e)), n)
    ensures UnderBlack(Compose(inner, outer)) == UnderBlack(Compose(inner, outer.(e := e)))
  {
    if inner.Down? {
      RenameSound(inner.up, outer, e, n + Weight(inner.color));
    }
  }

  // ---- rotations -------------------------------------------------------------------------

  predicate CanRotate(s: Side, t: Tree) {
    t.Node? && if s == LeftSide then t.right.Node? else t.left.Node?
  }

  /** Rotation towards side s: the child on the other side comes up. */
  function Rotate(s: Side, t: Tree): Tree
    requires CanRotate(s, t)
  {
    if s == LeftSide then
      Node(Node(t.left, t.e, t.color, t.right.left), t.right.e, t.right.color, t.right.right)
    else
      Node(t.left.left, t.left.e, t.left.color, Node(t.left.right, t.e, t.color, t.right))
  }

  lemma RotateInorder(s: Side, t: Tree)
    requires CanRotate(s, t)
    ensures Inorder(Rotate(s, t)) == Inorder(t)
  {
    if s == LeftSide {
      var a, b, c := Inorder(t.left), Inorder(t.right.left), Inorder(t.right.right);
      assert (a + [t.e] + b) + [t.right.e] + c == a + [t.e] + (b + [t.right.e] + c);
    } else {
      var a, b, c := Inorder(t.left.left), Inorder(t.left.right), Inorder(t.right);
      assert (a + [t.left.e] + b) + [t.e] + c == a + [t.left.e] + (b + [t.e] + c);
    }
  }

  lemma RotateDistinct(s: Side, t: Tree)
    requires CanRotate(s, t) && Distinct(t)
    ensures Ids(Rotate(s, t)) == Ids(t)
    ensures Distinct(Rotate(s, t))
  {
    assert Distinct(t.left) && Distinct(t.right);
    if s == LeftSide {
      assert Ids(t.right) == Ids(t.right.left) + {t.right.e.id} + Ids(t.right.right);
      assert Distinct(Node(t.left, t.e, t.color, t.right.left));
    } else {
      assert Ids(t.left) == Ids(t.left.left) + {t.left.e.id} + Ids(t.left.right);
      assert Distinct(Node(t.left.right, t.e, t.color, t.right));
    }
  }
}
