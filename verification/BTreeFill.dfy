/** How full insertion leaves the nodes below the root. */
module BTreeFills {
  import opened Wrappers
  import opened BTree
  import opened BTreeOrder

  /** The fewest keys either half of a split keeps. */
  function MinKeys(order: nat): (r: int)
    ensures r + 1 == (order + 1) / 2
  {
    (order + 1) / 2 - 1
  }

  ghost predicate Filled(t: Tree, order: nat, h: nat)
    decreases h, 1
  {
    MinKeys(order) <= |t.entries| < order && KidsFilled(t, order, h)
  }

  ghost predicate KidsFilled(t: Tree, order: nat, h: nat)
    decreases h, 0
  {
    h > 0 ==>
      && t.left.Some? && Filled(t.left.value, order, h - 1)
      && forall e | e in t.entries :: e.child.Some? && Filled(e.child.value, order, h - 1)
  }

  lemma SplitFilled(t: Tree, order: nat, h: nat)
    requires KidsFilled(t, order, h) && |t.entries| == order && order >= 2
    ensures Filled(SplitNode(t).0, order, h) && Filled(SplitNode(t).1.tree, order, h)
  {
    var m := |t.entries| / 2;
    assert t.entries[m] in t.entries;
    forall e | e in t.entries[..m] || e in Reinsert(t.entries[m + 1..]) ensures e in t.entries {}
  }

  lemma PutBackFilled(t: Tree, r: nat, n: Tree, s: Option<Split>, order: nat, h: nat)
    requires h > 0 && KidsFilled(t, order, h) && r <= |t.entries|
    requires Filled(n, order, h - 1) && (s.Some? ==> Filled(s.value.tree, order, h - 1))
    ensures KidsFilled(PutBack(t, r, n, s), order, h)
  {
    if r > 0 {
      forall e | e in RemoveAt(t.entries, r - 1) ensures e in t.entries {}
    }
  }

  lemma OverflowFills(t: Tree, order: nat, h: nat)
    requires order >= 2 && KidsFilled(t, order, h) && |t.entries| <= order
    ensures var (n, s) := Overflow(t, order);
            && (s.None? ==> n == t && |n.entries| < order)
            && (s.Some? ==> Filled(n, order, h) && Filled(s.value.tree, order, h))
  {
    if |t.entries| == order { SplitFilled(t, order, h); }
  }

  lemma {:induction false} AddBelowFills(t: Tree, d: Device, order: nat, h: nat)
    requires order >= 2 && WellFormed(t, h) && KidsFilled(t, order, h) && |t.entries| < order
    ensures var (n, s) := AddBelow(t, d, order, h);
            && (s.None? ==> KidsFilled(n, order, h) && |t.entries| <= |n.entries| < order)
            && (s.None? && h == 0 ==> n.entries != [])
            && (s.Some? ==> Filled(n, order, h) && Filled(s.value.tree, order, h))
    decreases h
  {
    hide WellFormed, AddBelow, Overflow, PutBack, AddEntry, Rank;
    AddBelowSteps(t, d, order, h);
    if h == 0 {
      OverflowFills(t.(entries := AddEntry(t.entries, d.id, Entry(d, None))), order, h);
    } else {
      var r := Rank(t.entries, d.id);
      assert r > 0 ==> t.entries[r - 1] in t.entries;
      var c := ChildAt(t, r).value;
      var (n, s) := AddBelow(c, d, order, h - 1);
      AddBelowFills(c, d, order, h - 1);
      PutBackFilled(t, r, n, s, order, h);
      PutBackWellFormed(t, r, n, s, h);
      OverflowFills(PutBack(t, r, n, s), order, h);
    }
  }
}
