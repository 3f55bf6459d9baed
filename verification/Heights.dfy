/** How deep a search in a red-black tree can go. */
module Heights {
  import opened Trees

  function Pow2(n: nat): nat {
    if n == 0 then 1 else 2 * Pow2(n - 1)
  }

  lemma {:induction false} Pow2Monotone(a: nat, b: nat)
    requires a <= b
    ensures Pow2(a) <= Pow2(b)
  {
    if a < b {
      Pow2Monotone(a, b - 1);
    }
  }

  /** A balanced tree of black height h has at least 2^h - 1 entries. */
  lemma {:induction false} SizeFromBlackHeight(t: Tree)
    requires Balanced(t)
    ensures Pow2(BlackHeight(t)) <= |Inorder(t)| + 1
  {
    if t.Node? {
      SizeFromBlackHeight(t.left);
      SizeFromBlackHeight(t.right);
    }
  }

  /** On a way down, at least every other node is black. */
  lemma {:induction false} BlackOnPath(k: Path, t: Tree)
    requires PathSound(k, BlackHeight(t))
    ensures 2 * (BlackHeight(Fill(k, t)) - BlackHeight(t)) >= Depth(k) + if UnderBlack(k) then 1 else 0
  {
    if k.Down? {
      BlackOnPath(k.up, Join(k.side, t, k.e, k.color, k.sibling));
    }
  }

  /** Passing d nodes on the way down needs at least 2^ceil(d/2) - 1 entries. */
  lemma DepthBound(k: Path, t: Tree)
    requires RedBlack(Fill(k, t))
    ensures Pow2((Depth(k) + 1) / 2) <= |Inorder(Fill(k, t))| + 1
  {
    SplitSound(k, t);
    BlackOnPath(k, t);
    SizeFromBlackHeight(Fill(k, t));
    Pow2Monotone((Depth(k) + 1) / 2, BlackHeight(Fill(k, t)));
  }
}
