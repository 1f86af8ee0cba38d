/**
  Order 3 keeps the walk in order whatever is added. A split leaves a single key in either half, so
  reinserting swaps nothing. A second key comes into a node only before the key above it.
*/
module BTreeThrees {
  import opened Wrappers
  import opened BTree
  import opened BTreeOrder
  import opened BTreeSorted

  /** At most two keys in every node; with two of them, the first is smaller than the next key of the walk above the node. */
  ghost predicate Fenced(t: Tree, h: nat, k: Option<nat>)
    decreases h, 1
  {
    |t.entries| <= 2 && KeyBefore(t.entries, k) && KidsFenced(t, h, k)
  }

  ghost predicate KidsFenced(t: Tree, h: nat, k: Option<nat>)
    decreases h, 0
  {
    h > 0 ==>
      forall r | 0 <= r <= |t.entries| ::
        ChildAt(t, r).Some? && Fenced(ChildAt(t, r).value, h - 1, FenceAt(t, r, k))
  }

  /** The last key but one is smaller than the fence. */
  ghost predicate KeyBefore(es: seq<Entry>, k: Option<nat>) {
    k.Some? && |es| >= 2 ==> es[|es| - 2].dev.id < k.value
  }

  /** The next key of the walk behind the subtree at rank `r`. */
  function FenceAt(t: Tree, r: nat, k: Option<nat>): Option<nat>
    requires r <= |t.entries|
  {
    if r < |t.entries| then Some(t.entries[r].dev.id) else k
  }

  ghost predicate ResultFenced(n: Tree, s: Option<Split>, h: nat, k: Option<nat>) {
    match s
    case None => Fenced(n, h, k)
    case Some(x) => Fenced(n, h, Some(x.dev.id)) && Fenced(x.tree, h, k) && (k.Some? ==> x.dev.id < k.value)
  }

  lemma ReinsertOne(e: Entry)
    ensures Reinsert([e]) == [e]
  {
    assert [e][1..] == [] && AddEntry([], e.dev.id, e) == [e];
  }

  lemma SplitThree(t: Tree, h: nat, k: Option<nat>)
    requires |t.entries| == 3 && KidsFenced(t, h, k)
    ensures var (n, s) := SplitNode(t); Fenced(n, h, Some(s.dev.id)) && Fenced(s.tree, h, k)
    ensures Reinsert(t.entries[2..]) == t.entries[2..]
  {
    var (n, s) := SplitNode(t);
    var es := t.entries;
    assert es[2..] == [es[2]];
    ReinsertOne(es[2]);
    if h > 0 {
      assert ChildAt(n, 0) == ChildAt(t, 0) && ChildAt(n, 1) == ChildAt(t, 1);
      assert FenceAt(n, 0, Some(s.dev.id)) == FenceAt(t, 0, k) && FenceAt(n, 1, Some(s.dev.id)) == FenceAt(t, 1, k);
      assert ChildAt(s.tree, 0) == ChildAt(t, 2) && ChildAt(s.tree, 1) == ChildAt(t, 3);
      assert FenceAt(s.tree, 0, k) == FenceAt(t, 2, k) && FenceAt(s.tree, 1, k) == FenceAt(t, 3, k);
    }
  }

  lemma OverflowThree(t: Tree, h: nat, k: Option<nat>)
    requires |t.entries| <= 3 && KidsFenced(t, h, k) && KeyBefore(t.entries, k)
    ensures var (n, s) := Overflow(t, 3); ResultFenced(n, s, h, k)
    ensures NonDescending(Flat(t)) && h > 0 ==> NonDescending(FlatResult(Overflow(t, 3)))
  {
    if |t.entries| == 3 {
      SplitThree(t, h, k);
      FlatSplitNode(t);
    } else {
      FlatAlone(t);
    }
  }

  lemma KeyStaysBefore(es: seq<Entry>, r: nat, x: Entry, k: Option<nat>)
    requires r <= |es| <= 2 && KeyBefore(es, k)
    requires (r > 0 ==> es[r - 1].dev.id <= x.dev.id) && (k.Some? ==> x.dev.id < k.value)
    ensures KeyBefore(es[..r] + [x] + es[r..], k)
  {
    assert es[..0] == [];
  }

  lemma FencedPutBack(t: Tree, r: nat, n: Tree, s: Option<Split>, h: nat, k: Option<nat>)
    requires r <= |t.entries| && KeysSorted(t.entries)
    requires 0 < r < |t.entries| ==> t.entries[r - 1].dev.id < t.entries[r].dev.id
    requires s.Some? && r > 0 ==> t.entries[r - 1].dev.id <= s.value.dev.id
    requires s.Some? && r < |t.entries| ==> s.value.dev.id < t.entries[r].dev.id
    requires h > 0 && KidsFenced(t, h, k) && ResultFenced(n, s, h - 1, FenceAt(t, r, k))
    ensures KidsFenced(PutBack(t, r, n, s), h, k)
  {
    hide PutBack, KeysSorted, Fenced;
    var t', m := PutBack(t, r, n, s), |UpEntries(s)|;
    PutBackAt(t, r, n, s);
    forall q | 0 <= q <= |t'.entries|
      ensures ChildAt(t', q).Some? && Fenced(ChildAt(t', q).value, h - 1, FenceAt(t', q, k))
    {
      if q < r {
        assert ChildAt(t', q) == ChildAt(t, q) && FenceAt(t', q, k) == FenceAt(t, q, k);
      } else if q > r + m {
        assert ChildAt(t', q) == ChildAt(t, q - m) && FenceAt(t', q, k) == FenceAt(t, q - m, k);
      } else if q > r {
        assert ChildAt(t', q) == Some(s.value.tree) && FenceAt(t', q, k) == FenceAt(t, r, k);
      } else {
        assert ChildAt(t', q) == Some(n);
      }
    }
  }

  /** `PutBackEntries`, entry by entry. */
  lemma PutBackAt(t: Tree, r: nat, n: Tree, s: Option<Split>)
    requires r <= |t.entries| && KeysSorted(t.entries)
    requires 0 < r < |t.entries| ==> t.entries[r - 1].dev.id < t.entries[r].dev.id
    requires s.Some? && r > 0 ==> t.entries[r - 1].dev.id <= s.value.dev.id
    requires s.Some? && r < |t.entries| ==> s.value.dev.id < t.entries[r].dev.id
    ensures var (t', m) := (PutBack(t, r, n, s), |UpEntries(s)|);
            && t'.left == (if r == 0 then Some(n) else t.left)
            && |t'.entries| == |t.entries| + m
            && (forall q | 0 <= q < r - 1 :: t'.entries[q] == t.entries[q])
            && (r > 0 ==> t'.entries[r - 1] == Entry(t.entries[r - 1].dev, Some(n)))
            && (s.Some? ==> t'.entries[r] == Entry(s.value.dev, Some(s.value.tree)))
            && (forall q | r + m <= q < |t'.entries| :: t'.entries[q] == t.entries[q - m])
  {
    hide *;
    PutBackLeft(t, r, n, s);
    PutBackEntries(t, r, n, s);
    SplicedAt(t.entries, r, n, UpEntries(s), PutBack(t, r, n, s).entries);
    UpEntry(s);
  }

  lemma SplicedAt(es: seq<Entry>, r: nat, n: Tree, u: seq<Entry>, es': seq<Entry>)
    requires r <= |es| && es' == Replaced(es, r, n) + u + es[r..]
    ensures |es'| == |es| + |u|
    ensures forall i | 0 <= i < r - 1 :: es'[i] == es[i]
    ensures r > 0 ==> es'[r - 1] == Entry(es[r - 1].dev, Some(n))
    ensures u != [] ==> es'[r] == u[0]
    ensures forall i | r + |u| <= i < |es'| :: es'[i] == es[i - |u|]
  {
    hide Replaced;
  }

  lemma UpEntry(s: Option<Split>)
    ensures s.None? ==> UpEntries(s) == []
    ensures s.Some? ==> UpEntries(s) == [Entry(s.value.dev, Some(s.value.tree))]
  {}

  lemma PutBackLeft(t: Tree, r: nat, n: Tree, s: Option<Split>)
    requires r <= |t.entries|
    ensures PutBack(t, r, n, s).left == if r == 0 then Some(n) else t.left
  {}

  /** The fence is no smaller than any id below it. */
  ghost predicate Under(s: seq<Device>, d: Device, k: Option<nat>) {
    k.Some? ==> d.id < k.value && AtMost(s, k.value)
  }

  lemma ChildUnder(t: Tree, d: Device, k: Option<nat>)
    requires NonDescending(Flat(t)) && Under(Flat(t), d, k)
    ensures var r := Rank(t.entries, d.id);
            && Under(FlatOption(ChildAt(t, r)), d, FenceAt(t, r, k))
            && (k.Some? && r < |t.entries| ==> t.entries[r].dev.id <= k.value)
  {
    hide Flat, FlatEntries, FlatOption, NonDescending, KeysSorted, Before, ChildAt;
    AroundRank(t, d.id);
    var r := Rank(t.entries, d.id);
    InParts(Before(t, r) + FlatOption(ChildAt(t, r)), FlatEntries(t.entries[r..]));
    InParts(Before(t, r), FlatOption(ChildAt(t, r)));
  }

  lemma LeafThree(t: Tree, d: Device, k: Option<nat>)
    requires WellFormed(t, 0) && Fenced(t, 0, k) && NonDescending(Flat(t)) && Under(Flat(t), d, k)
    ensures var (n, s) := Overflow(t.(entries := AddEntry(t.entries, d.id, Entry(d, None))), 3);
            NonDescending(FlatResult((n, s))) && ResultFenced(n, s, 0, k)
  {
    hide Flat, FlatResult, NonDescending, WellFormed;
    var e, r := Entry(d, None), Rank(t.entries, d.id);
    LeafStaysInOrder(t, d, 3);
    KeyStaysBefore(t.entries, r, e, k);
    OverflowThree(t.(entries := AddEntry(t.entries, d.id, e)), 0, k);
  }

  /** What the split of a child does to the keys of its parent. */
  lemma LevelThree(t: Tree, d: Device, n: Tree, s: Option<Split>, h: nat, k: Option<nat>)
    requires h > 0 && Fenced(t, h, k) && NonDescending(Flat(t)) && Under(Flat(t), d, k)
    requires NonDescending(FlatResult((n, s)))
    requires var r := Rank(t.entries, d.id);
             && multiset(FlatResult((n, s))) == multiset(FlatOption(ChildAt(t, r))) + multiset{d}
             && ResultFenced(n, s, h - 1, FenceAt(t, r, k))
    ensures var t' := PutBack(t, Rank(t.entries, d.id), n, s);
            && NonDescending(Flat(t')) && |t'.entries| <= 3 && KidsFenced(t', h, k) && KeyBefore(t'.entries, k)
  {
    hide Flat, FlatResult, FlatEntries, FlatOption, NonDescending, PutBack, KidsFenced, KeysSorted, ChildAt, Replaced,
         Rank, Before, AllAtMost, Above, Below, AtLeast, WellFormed;
    var r := Rank(t.entries, d.id);
    LevelKeepsOrder(t, d, n, s);
    ChildUnder(t, d, k);
    KeysSortedAt(t);
    FencedPutBack(t, r, n, s, h, k);
    PutBackEntries(t, r, n, s);
    KeysBefore(t.entries, r, n, s, k);
  }

  lemma KeysSortedAt(t: Tree)
    requires NonDescending(Flat(t))
    ensures KeysSorted(t.entries)
  {
    SortedKeys(t);
  }

  lemma KeysBefore(es: seq<Entry>, r: nat, n: Tree, s: Option<Split>, k: Option<nat>)
    requires r <= |es| <= 2 && KeyBefore(es, k)
    requires s.Some? && r > 0 ==> es[r - 1].dev.id <= s.value.dev.id
    requires s.Some? && k.Some? ==> s.value.dev.id < k.value
    ensures KeyBefore(Replaced(es, r, n) + UpEntries(s) + es[r..], k)
  {}

  /** At order 3 one `add_r` keeps the walk in order, whatever ids are stored. */
  lemma {:induction false} AddBelowThree(t: Tree, d: Device, h: nat, k: Option<nat>)
    requires WellFormed(t, h) && Fenced(t, h, k) && NonDescending(Flat(t)) && Under(Flat(t), d, k)
    ensures var (n, s) := AddBelow(t, d, 3, h);
            NonDescending(FlatResult((n, s))) && ResultFenced(n, s, h, k)
    decreases h
  {
    hide *;
    AddBelowSteps(t, d, 3, h);
    if h == 0 {
      LeafThree(t, d, k);
    } else {
      var r := Rank(t.entries, d.id);
      var c := ChildAt(t, r).value;
      var (n, s) := AddBelow(c, d, 3, h - 1);
      FlatSome(c);
      AroundRank(t, d.id);
      ChildUnder(t, d, k);
      FencedChild(t, r, h, k);
      AddBelowThree(c, d, h - 1, FenceAt(t, r, k));
      AddBelowKeeps(c, d, 3, h - 1);
      BagIs(c);
      LevelThree(t, d, n, s, h, k);
      OverflowThree(PutBack(t, r, n, s), h, k);
    }
  }

  lemma FencedChild(t: Tree, r: nat, h: nat, k: Option<nat>)
    requires h > 0 && Fenced(t, h, k) && r <= |t.entries|
    ensures ChildAt(t, r).Some? && Fenced(ChildAt(t, r).value, h - 1, FenceAt(t, r, k))
  {}
}
