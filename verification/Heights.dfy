/** How tall a red-black tree of n items can be. */
module Heights {
  import opened References
  import opened Ordering
  import opened Shape
  import opened Balance

  ghost function Max(a: nat, b: nat): nat { if a < b then b else a }

  /** The number of nodes on the longest path down. */
  ghost function Height(t: Tree): nat { if t.Leaf? then 0 else 1 + Max(Height(t.left), Height(t.right)) }

  ghost function Pow2(n: nat): nat { if n == 0 then 1 else 2 * Pow2(n - 1) }

  lemma {:induction false} Pow2Grows(a: nat, b: nat)
    requires a <= b
    ensures 1 <= Pow2(a) <= Pow2(b)
    decreases b
  {
    if a < b {
      Pow2Grows(a, b - 1);
    } else if a > 0 {
      Pow2Grows(a - 1, b - 1);
    }
  }

  /** Black height h: at most 2h levels, one more under a red root, and at least 2^h - 1 items. */
  lemma {:induction false} HeightAndSize(t: Tree, h: nat)
    requires RB(t, h)
    ensures Height(t) <= 2 * h + if t.IsRed() then 1 else 0
    ensures Pow2(if t.IsRed() then h + 1 else h) <= |t.Items()| + 1
    decreases t
  {
    if t.Branch? {
      var k := if t.red then h else h - 1;
      HeightAndSize(t.left, k);
      HeightAndSize(t.right, k);
      Pow2Grows(k, k + 1);
    }
  }

  /** The height of a tree of n items is at most 2 log2(n + 1). */
  lemma {:induction false} HeightBound(t: Tree)
    requires Balanced(t)
    ensures Pow2((Height(t) + 1) / 2) <= |t.Items()| + 1
  {
    var h := BlackHeight(t);
    HeightAndSize(t, h);
    Pow2Grows((Height(t) + 1) / 2, if t.IsRed() then h + 1 else h);
  }

  /** kLFSRbTreeHeightLimit: the slots of the iterator's path.  A node at depth d needs d slots. */
  const HEIGHT_LIMIT: nat := 64

  /** Every node's ancestors fit into the path. */
  ghost predicate Fits(t: Tree) { Height(t) <= HEIGHT_LIMIT + 1 }

  lemma {:induction false} Pow2Of33()
    ensures Pow2(33) == 0x2_0000_0000
  {
    assert Pow2(11) == 2048;
    Pow2Sum(11, 11);
    Pow2Sum(22, 11);
  }

  lemma {:induction false} Pow2Sum(a: nat, b: nat)
    ensures Pow2(a + b) == Pow2(a) * Pow2(b)
    decreases b
  {
    if b > 0 {
      Pow2Sum(a, b - 1);
    }
  }

  /** Any tree of fewer than 2^33 - 1 items fits, so in particular one of fewer than 2^32. */
  lemma {:induction false} SmallTreesFit(t: Tree)
    requires Balanced(t) && |t.Items()| < 0x1_FFFF_FFFF
    ensures Fits(t)
  {
    HeightBound(t);
    Pow2Of33();
    if Height(t) > 65 {
      Pow2Grows(33, (Height(t) + 1) / 2);
    }
  }
}
