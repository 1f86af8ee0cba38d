/**
  Orders below 2 keep the walk in order whatever is added. Every insertion splits all the way up, and
  what goes to the right of a split has no devices: all of them stay in the nodes of the left spine.
*/
module BTreeSpines {
  import opened Wrappers
  import opened BTree
  import opened BTreeOrder
  import opened BTreeSorted

  /** At most one key in every node of the left spine, and no devices right of it. */
  ghost predicate Spine(t: Tree, h: nat)
    decreases h
  {
    |t.entries| <= 1 && Childless(t.entries) && (h > 0 ==> t.left.Some? && Spine(t.left.value, h - 1))
  }

  lemma {:induction false} NoDevicesIsSpine(t: Tree, h: nat)
    requires WellFormed(t, h) && Flat(t) == []
    ensures Spine(t, h)
    decreases h
  {
    FlatHasEntries(t.entries);
    if h > 0 {
      FlatSome(t.left.value);
      NoDevicesIsSpine(t.left.value, h - 1);
    }
  }

  /** A node of one or two keys splits: the right half has no keys, and nothing changes its place. */
  lemma SplitSpine(t: Tree, order: nat, h: nat)
    requires order < 2 && 1 <= |t.entries| <= 2 && Childless(t.entries)
    requires h > 0 ==> t.left.Some? && Spine(t.left.value, h - 1)
    ensures var (n, s) := Overflow(t, order);
            && s.Some? && Spine(n, h) && Flat(s.value.tree) == []
            && FlatResult((n, s)) == Flat(t)
  {
    var m := |t.entries| / 2;
    var (n, s) := SplitNode(t);
    assert t.entries[m + 1..] == [];
    assert t.entries[m] in t.entries;
    forall e | e in t.entries[..m] ensures e in t.entries {}
    FlatSplitNode(t);
    FlatNothing();
  }

  lemma ChildlessFlat(left: Option<Tree>, es: seq<Entry>)
    requires Childless(es)
    ensures NonDescending(FlatOption(left) + FlatEntries(es)) <==>
            NonDescending(FlatOption(left)) && KeysSorted(es) && forall e | e in es :: AtMost(FlatOption(left), e.dev.id)
  {
    hide FlatEntries, FlatOption, NonDescending, KeysSorted, Childless;
    LeafFlat(es);
    var a, b := FlatOption(left), FlatEntries(es);
    OrderParts(a, b);
    if AllAtMost(a, b) {
      forall e | e in es ensures AtMost(a, e.dev.id) {
        var i :| 0 <= i < |es| && es[i] == e;
        assert b[i] in b;
      }
    }
    if forall e | e in es :: AtMost(a, e.dev.id) {
      forall x, y | x in a && y in b ensures x.id <= y.id {
        var i :| 0 <= i < |b| && b[i] == y;
        assert es[i] in es;
      }
    }
  }

  ghost predicate SplitsEmpty(n: Tree, s: Option<Split>, h: nat) {
    s.Some? && Spine(n, h) && Flat(s.value.tree) == [] && NonDescending(FlatResult((n, s)))
  }

  lemma LeafSpine(t: Tree, d: Device, order: nat)
    requires order < 2 && WellFormed(t, 0) && Spine(t, 0) && NonDescending(Flat(t))
    ensures var (n, s) := Overflow(t.(entries := AddEntry(t.entries, d.id, Entry(d, None))), order);
            SplitsEmpty(n, s, 0)
  {
    hide Flat, FlatResult, NonDescending;
    LeafAdds(t, d);
    FlatNothing();
    SplitSpine(t.(entries := AddEntry(t.entries, d.id, Entry(d, None))), order, 0);
  }

  /** The split of the left child joins the key of the node. */
  lemma SpineLeft(t: Tree, d: Device, n: Tree, s: Option<Split>, h: nat)
    requires h > 0 && Spine(t, h) && NonDescending(Flat(t)) && SplitsEmpty(n, s, h - 1)
    requires Rank(t.entries, d.id) == 0
    requires multiset(FlatResult((n, s))) == multiset(FlatOption(t.left)) + multiset{d}
    ensures var t' := PutBack(t, 0, n, s);
            && NonDescending(Flat(t')) && Childless(t'.entries) && 1 <= |t'.entries| <= 2
            && t'.left.Some? && Spine(t'.left.value, h - 1)
  {
    hide FlatEntries, Flat, FlatResult, NonDescending, KeysSorted, AtMost, Spine, Before;
    var e, x := s.value, Entry(s.value.dev, Some(s.value.tree));
    SpineParts(t, h);
    AroundRank(t, d.id);
    AddEntrySorted(t.entries, x);
    FlatSome(n);
    FlatSome(e.tree);
    UpParts(n, e);
    OrderParts(Flat(n), [e.dev] + Flat(e.tree));
    AtMostOf(Flat(n), e.dev);
    forall y | y in t.entries ensures AtMost(Flat(n), y.dev.id) {
      WithinBefore(Flat(n), FlatResult((n, s)), FlatOption(t.left), d, y.dev.id);
    }
    ChildlessFlat(Some(n), AddEntry(t.entries, e.dev.id, x));
    FlatOf(PutBack(t, 0, n, s));
  }

  lemma SpineParts(t: Tree, h: nat)
    requires Spine(t, h)
    ensures |t.entries| <= 1 && Childless(t.entries) && (h > 0 ==> t.left.Some? && Spine(t.left.value, h - 1))
  {}

  lemma FlatOf(t: Tree)
    ensures Flat(t) == FlatOption(t.left) + FlatEntries(t.entries)
  {}

  lemma AtMostOf(a: seq<Device>, d: Device)
    ensures AllAtMost(a, [d] + []) ==> AtMost(a, d.id)
  {
    assert d in [d] + [];
  }

  lemma WithinBefore(a: seq<Device>, m: seq<Device>, c: seq<Device>, d: Device, id: nat)
    requires multiset(m) == multiset(c) + multiset{d} && (forall x | x in a :: x in m)
    requires AtMost(c, id) && d.id <= id
    ensures AtMost(a, id)
  {
    forall x | x in a ensures x.id <= id { assert x in multiset(m); }
  }

  /** Right of the key of a node the new device is all there is, and comes up again at once. */
  lemma SpineRight(t: Tree, d: Device, n: Tree, s: Option<Split>, h: nat)
    requires h > 0 && Spine(t, h) && NonDescending(Flat(t)) && SplitsEmpty(n, s, h - 1)
    requires Rank(t.entries, d.id) == 1
    requires multiset(FlatResult((n, s))) == multiset{d}
    ensures var t' := PutBack(t, 1, n, s);
            && NonDescending(Flat(t')) && Childless(t'.entries) && |t'.entries| == 2
            && t'.left.Some? && Spine(t'.left.value, h - 1)
  {
    hide FlatEntries, Flat, FlatResult, NonDescending, KeysSorted, AtMost, Spine, Before;
    var e, es, key := s.value, t.entries, t.entries[0];
    var x, y := Entry(key.dev, Some(n)), Entry(e.dev, Some(e.tree));
    SpineParts(t, h);
    FlatSome(n);
    FlatSome(e.tree);
    UpParts(n, e);
    OnlyOne(Flat(n), e.dev, Flat(e.tree), d);
    FlatOf(t);
    ChildlessFlat(t.left, es);
    assert key in es && RemoveAt(es, 0) == [];
    var es1 := AddEntry([], key.dev.id, x);
    assert es1 == [x];
    OneSorted(x);
    AddEntrySorted(es1, y);
    AtMostMore(FlatOption(t.left), key.dev.id, d.id);
    ChildlessFlat(t.left, AddEntry(es1, e.dev.id, y));
    FlatOf(PutBack(t, 1, n, s));
  }

  lemma OneSorted(e: Entry)
    ensures KeysSorted([e])
  {}

  lemma AtMostMore(a: seq<Device>, id: nat, id': nat)
    requires AtMost(a, id) && id <= id'
    ensures AtMost(a, id')
  {}

  lemma OnlyOne(a: seq<Device>, e: Device, b: seq<Device>, d: Device)
    requires multiset(a + ([e] + b)) == multiset{d}
    ensures a == [] && b == [] && e == d
  {
    assert |multiset(a + ([e] + b))| == |a| + 1 + |b|;
    assert e in multiset(a + ([e] + b));
  }

  /** At an order below 2 one `add_r` keeps the walk in order, whatever ids are stored. */
  lemma {:induction false} AddBelowSpine(t: Tree, d: Device, order: nat, h: nat)
    requires order < 2 && WellFormed(t, h) && Spine(t, h) && NonDescending(Flat(t))
    ensures var (n, s) := AddBelow(t, d, order, h); SplitsEmpty(n, s, h)
    decreases h
  {
    hide *;
    AddBelowSteps(t, d, order, h);
    if h == 0 {
      LeafSpine(t, d, order);
    } else {
      var r := Rank(t.entries, d.id);
      var c := ChildAt(t, r).value;
      var (n, s) := AddBelow(c, d, order, h - 1);
      FlatSome(c);
      AroundRank(t, d.id);
      SpineChild(t, r, h);
      AddBelowSpine(c, d, order, h - 1);
      AddBelowKeeps(c, d, order, h - 1);
      BagIs(c);
      if r == 0 { SpineLeft(t, d, n, s, h); } else { SpineRight(t, d, n, s, h); }
      NodeSplits(PutBack(t, r, n, s), order, h);
    }
  }

  lemma SpineChild(t: Tree, r: nat, h: nat)
    requires h > 0 && WellFormed(t, h) && Spine(t, h) && r <= |t.entries|
    ensures ChildAt(t, r).Some? && Spine(ChildAt(t, r).value, h - 1)
    ensures r == 0 ==> ChildAt(t, r) == t.left
    ensures r > 0 ==> r == 1 && Flat(ChildAt(t, r).value) == []
  {
    if r > 0 {
      assert t.entries[0] in t.entries;
      FlatSome(t.entries[0].child.value);
      NoDevicesIsSpine(t.entries[0].child.value, h - 1);
    }
  }

  lemma NodeSplits(t: Tree, order: nat, h: nat)
    requires order < 2 && 1 <= |t.entries| <= 2 && Childless(t.entries) && NonDescending(Flat(t))
    requires h > 0 && t.left.Some? && Spine(t.left.value, h - 1)
    ensures var (n, s) := Overflow(t, order); SplitsEmpty(n, s, h)
  {
    SplitSpine(t, order, h);
  }
}
