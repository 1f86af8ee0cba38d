/**
  When insertion keeps the walk in order. Equal ids may repeat, and a split reinserts its upper
  entries from the back, which swaps equal keys. A swap of two keys is harmless in a leaf but not
  above one, where each key carries a subtree. The subtree between two equal keys holds nothing but that id,
  and insertion fills it with at least `MinKeys` devices, so a few copies are never enough for a swap.
*/
module BTreeSorted {
  import opened Sequences
  import opened Wrappers
  import opened BTree
  import opened BTreeOrder
  import opened BTreeFills

  // ---------------------------------------------------------------- copies

  /** How often an id occurs. */
  function Copies(s: seq<Device>, id: nat): nat {
    if s == [] then 0 else (if s[0].id == id then 1 else 0) + Copies(s[1..], id)
  }

  /** No id occurs more than `c` times. */
  ghost predicate Few(s: seq<Device>, c: nat) {
    forall id :: Copies(s, id) <= c
  }

  lemma {:induction false} CopiesAppend(a: seq<Device>, b: seq<Device>, id: nat)
    ensures Copies(a + b, id) == Copies(a, id) + Copies(b, id)
  {
    if a == [] {
      assert a + b == b;
    } else {
      CopiesAppend(a[1..], b, id);
      assert (a + b)[1..] == a[1..] + b;
    }
  }

  lemma {:induction false} CopiesPermute(s: seq<Device>, t: seq<Device>, id: nat)
    requires multiset(s) == multiset(t)
    ensures Copies(s, id) == Copies(t, id)
  {
    if s == [] {
      assert |multiset(t)| == 0;
    } else {
      assert s[0] in multiset(t);
      var i :| 0 <= i < |t| && t[i] == s[0];
      SplitSeq(t, i);
      DropSame(s, t[..i], t[i + 1..]);
      CopiesPermute(s[1..], t[..i] + t[i + 1..], id);
      CopiesAppend(t[..i], t[i + 1..], id);
      CopiesAppend(t[..i] + [t[i]], t[i + 1..], id);
      CopiesAppend(t[..i], [t[i]], id);
    }
  }

  lemma DropSame(s: seq<Device>, a: seq<Device>, b: seq<Device>)
    requires s != [] && multiset(s) == multiset(a + [s[0]] + b)
    ensures multiset(s[1..]) == multiset(a + b)
  {
    var x := multiset{s[0]};
    assert s == [s[0]] + s[1..];
    assert multiset(s) == x + multiset(s[1..]);
    assert multiset(a + [s[0]] + b) == x + multiset(a + b);
    assert multiset(s[1..]) == multiset(s) - x;
  }

  lemma {:induction false} AllCopies(s: seq<Device>, id: nat)
    requires forall x | x in s :: x.id == id
    ensures Copies(s, id) == |s|
  {
    if s != [] {
      forall x | x in s[1..] ensures x in s {}
      AllCopies(s[1..], id);
    }
  }

  lemma FewPermute(s: seq<Device>, t: seq<Device>, c: nat)
    requires multiset(s) == multiset(t) && Few(s, c)
    ensures Few(t, c)
  {
    forall id ensures Copies(t, id) <= c { CopiesPermute(s, t, id); }
  }

  /** A part of a list has no more copies than the list, in whatever order. */
  lemma FewPart(whole: seq<Device>, part: seq<Device>, rest: seq<Device>, c: nat)
    requires Few(whole, c) && multiset(whole) == multiset(part) + multiset(rest)
    ensures Few(part, c)
  {
    forall id ensures Copies(part, id) <= c {
      CopiesPermute(whole, part + rest, id);
      CopiesAppend(part, rest, id);
    }
  }

  /** Equal ends of an ordered list make all of it copies. */
  lemma EqualEnds(s: seq<Device>, c: nat)
    requires NonDescending(s) && Few(s, c) && |s| > c
    ensures s[0].id < s[|s| - 1].id
  {
    if s[0].id == s[|s| - 1].id {
      forall x | x in s ensures x.id == s[0].id {
        var i :| 0 <= i < |s| && s[i] == x;
      }
      AllCopies(s, s[0].id);
    }
  }

  // ---------------------------------------------------------------- equal keys are never apart

  /** Every child has at least `k` keys. */
  ghost predicate KidsHave(es: seq<Entry>, k: nat) {
    forall e | e in es :: e.child.Some? && |e.child.value.entries| >= k
  }

  lemma FlatHas(t: Tree)
    ensures |Flat(t)| >= |t.entries|
  {
    FlatHasEntries(t.entries);
  }

  lemma NextKey(es: seq<Entry>, i: nat)
    requires i + 1 < |es|
    ensures FlatEntries(es)
         == FlatEntries(es[..i]) + ([es[i].dev] + FlatOption(es[i].child) + [es[i + 1].dev])
            + (FlatOption(es[i + 1].child) + FlatEntries(es[i + 2..]))
  {
    hide FlatEntries, FlatOption;
    FlatAround(es, i);
    FlatAround(es[i + 1..], 0);
    assert es[i + 1..][1..] == es[i + 2..] && es[i + 1..][..0] == [];
    assert FlatEntries([]) == [] by { FlatNothing(); }
    RegroupKey(FlatEntries(es[..i]), es[i].dev, FlatOption(es[i].child), es[i + 1].dev,
               FlatOption(es[i + 1].child), FlatEntries(es[i + 2..]));
  }

  lemma RegroupKey(a: seq<Device>, d: Device, c: seq<Device>, e: Device, f: seq<Device>, b: seq<Device>)
    ensures a + ([d] + (c + ([] + ([e] + (f + b))))) == a + ([d] + c + [e]) + (f + b)
  {}

  lemma KeysApart(es: seq<Entry>, k: nat)
    requires NonDescending(FlatEntries(es)) && Few(FlatEntries(es), k + 1) && KidsHave(es, k)
    ensures KeysAscending(es)
  {
    hide FlatEntries, FlatOption, NonDescending, Few;
    SortedEntries(es);
    forall i, j | 0 <= i < j < |es| ensures es[i].dev.id < es[j].dev.id {
      NextKey(es, i);
      var a, c := FlatEntries(es[..i]), [es[i].dev] + FlatOption(es[i].child) + [es[i + 1].dev];
      var b := FlatOption(es[i + 1].child) + FlatEntries(es[i + 2..]);
      OrderParts(a + c, b);
      OrderParts(a, c);
      FewPart(FlatEntries(es), c, a + b, k + 1);
      assert es[i] in es;
      FlatSome(es[i].child.value);
      FlatHas(es[i].child.value);
      EqualEnds(c, k + 1);
    }
  }

  // ---------------------------------------------------------------- one insertion

  /** What comes up from between `a` and `key` is smaller than `key`, or there are too many copies of it. */
  lemma Crossing(a: seq<Device>, c: seq<Device>, key: Device, b: seq<Device>,
                 low: seq<Device>, up: seq<Device>, d: Device, k: nat)
    requires Few(a + c + ([key] + b) + [d], k + 1)
    requires multiset(low + up) == multiset(c) + multiset{d}
    requires NonDescending(low + up) && AtMost(c, key.id) && d.id < key.id && |up| > k
    ensures up[0].id < key.id
  {
    hide NonDescending, Few;
    if up[0].id >= key.id {
      AllOfKey(c, low, up, d, key.id);
      Rearrange(a, c, key, b, low, up, d);
      InParts(up, [key]);
      TooManyAlike(up + [key], key.id, k + 1);
      FewPart(a + c + ([key] + b) + [d], up + [key], a + low + b, k + 1);
    }
  }

  lemma AllOfKey(c: seq<Device>, low: seq<Device>, up: seq<Device>, d: Device, id: nat)
    requires multiset(low + up) == multiset(c) + multiset{d}
    requires NonDescending(low + up) && AtMost(c, id) && d.id < id && up != [] && up[0].id >= id
    ensures forall x | x in up :: x.id == id
  {
    OrderParts(low, up);
    forall x | x in up ensures x.id == id {
      assert x in multiset(low + up);
      assert x in multiset(c) || x == d;
      var i :| 0 <= i < |up| && up[i] == x;
      assert up[0].id <= up[i].id;
    }
  }

  lemma Rearrange(a: seq<Device>, c: seq<Device>, key: Device, b: seq<Device>,
                  low: seq<Device>, up: seq<Device>, d: Device)
    requires multiset(low + up) == multiset(c) + multiset{d}
    ensures multiset(a + c + ([key] + b) + [d]) == multiset(up + [key]) + multiset(a + low + b)
  {
    assert multiset(low) + multiset(up) == multiset(c) + multiset{d};
    var x, y, z := multiset(a), multiset(b), multiset{key};
    assert multiset(a + c + ([key] + b) + [d]) == x + y + z + (multiset(c) + multiset{d});
    assert multiset(up + [key]) + multiset(a + low + b) == x + y + z + (multiset(low) + multiset(up));
  }

  lemma TooManyAlike(s: seq<Device>, id: nat, c: nat)
    requires (forall x | x in s :: x.id == id) && |s| > c
    ensures !Few(s, c)
  {
    AllCopies(s, id);
    TooMany(s, id, c);
  }

  lemma TooMany(s: seq<Device>, id: nat, c: nat)
    requires Copies(s, id) > c
    ensures !Few(s, c)
  {}

  /** A split that comes up behind rank `r` has a smaller id than the next key. */
  lemma UpBeforeNext(t: Tree, d: Device, n: Tree, s: Split, k: nat)
    requires NonDescending(Flat(t)) && NonDescending(FlatResult((n, Some(s)))) && |s.tree.entries| >= k
    requires Few(Flat(t) + [d], k + 1)
    requires Rank(t.entries, d.id) < |t.entries|
    requires var c := ChildAt(t, Rank(t.entries, d.id));
             multiset(FlatResult((n, Some(s)))) == multiset(FlatOption(c)) + multiset{d}
    ensures s.dev.id < t.entries[Rank(t.entries, d.id)].dev.id
  {
    hide *;
    var r := Rank(t.entries, d.id);
    AroundRank(t, d.id);
    UpParts(n, s);
    FlatHas(s.tree);
    FlatAround(t.entries[r..], 0);
    assert t.entries[r..][..0] == [];
    FlatNothing();
    var rest := FlatOption(t.entries[r].child) + FlatEntries(t.entries[r..][1..]);
    var key := t.entries[r].dev;
    assert FlatEntries(t.entries[r..]) == [key] + rest;
    Crossing(Before(t, r), FlatOption(ChildAt(t, r)), key, rest, Flat(n), [s.dev] + Flat(s.tree), d, k);
  }

  lemma UpParts(n: Tree, s: Split)
    ensures FlatResult((n, Some(s))) == Flat(n) + ([s.dev] + Flat(s.tree))
  {
    FlatSome(s.tree);
  }

  /** The subtrees below `t` have at least `k` keys each; with `k == 0` nothing is asked of them. */
  ghost predicate Stocked(t: Tree, order: nat, h: nat, k: nat) {
    k == 0 || (order >= 2 && k == MinKeys(order) && KidsFilled(t, order, h) && |t.entries| < order)
  }

  lemma StockedChild(t: Tree, r: nat, order: nat, h: nat, k: nat)
    requires h > 0 && WellFormed(t, h) && Stocked(t, order, h, k) && r <= |t.entries|
    ensures ChildAt(t, r).Some? && Stocked(ChildAt(t, r).value, order, h - 1, k)
    ensures |ChildAt(t, r).value.entries| >= k && KidsHave(t.entries, k)
  {
    forall e | e in t.entries ensures e.child.Some? && |e.child.value.entries| >= k {
      assert k > 0 ==> Filled(e.child.value, order, h - 1);
    }
    if r > 0 { assert t.entries[r - 1] in t.entries; }
    assert k > 0 ==> Filled(ChildAt(t, r).value, order, h - 1);
  }

  lemma StockedResult(t: Tree, d: Device, order: nat, h: nat, k: nat)
    requires WellFormed(t, h) && Stocked(t, order, h, k) && |t.entries| >= k
    ensures var (n, s) := AddBelow(t, d, order, h);
            |n.entries| >= k && (s.Some? ==> |s.value.tree.entries| >= k)
  {
    if k > 0 {
      AddBelowFills(t, d, order, h);
    }
  }

  lemma KidsHavePutBack(t: Tree, r: nat, n: Tree, s: Option<Split>, k: nat)
    requires r <= |t.entries| && KidsHave(t.entries, k)
    requires |n.entries| >= k && (s.Some? ==> |s.value.tree.entries| >= k)
    ensures KidsHave(PutBack(t, r, n, s).entries, k)
  {
    if r > 0 {
      forall e | e in RemoveAt(t.entries, r - 1) ensures e in t.entries {}
    }
  }

  lemma FewChild(t: Tree, d: Device, r: nat, c: nat)
    requires Few(Flat(t) + [d], c) && r <= |t.entries|
    ensures Few(FlatOption(ChildAt(t, r)) + [d], c)
  {
    FlatAt(t, r);
    hide *;
    FewPart(Flat(t) + [d], FlatOption(ChildAt(t, r)) + [d], Before(t, r) + FlatEntries(t.entries[r..]), c);
  }

  lemma FewPutBack(t: Tree, d: Device, r: nat, n: Tree, s: Option<Split>, c: nat)
    requires Few(Flat(t) + [d], c) && r <= |t.entries| && ChildAt(t, r).Some?
    requires multiset(FlatResult((n, s))) == Bag(ChildAt(t, r).value) + multiset{d}
    ensures Few(Flat(PutBack(t, r, n, s)), c)
  {
    hide Few, Flat, PutBack, FlatResult;
    PutBackKeeps(t, r, n, s);
    CancelBag(Bag(PutBack(t, r, n, s)), Bag(ChildAt(t, r).value), Bag(t), multiset{d});
    FewPermute(Flat(t) + [d], Flat(PutBack(t, r, n, s)), c);
  }

  lemma AscendingPart(es: seq<Entry>, i: nat)
    requires KeysAscending(es) && i <= |es|
    ensures KeysAscending(es[i..])
  {}

  /** A node above the leaves splits in order if its keys differ. */
  lemma OverflowInOrder(t: Tree, order: nat)
    requires NonDescending(Flat(t)) && KeysAscending(t.entries)
    requires t.Len() > order ==> t.entries != []
    ensures NonDescending(FlatResult(Overflow(t, order)))
  {
    hide Flat, FlatSplit, KeysAscending, NonDescending;
    if t.Len() > order {
      AscendingPart(t.entries, |t.entries| / 2 + 1);
      ReinsertIdentity(t.entries[|t.entries| / 2 + 1..]);
      FlatSplitNode(t);
    } else {
      FlatAlone(t);
    }
  }

  lemma FlatAlone(t: Tree)
    ensures FlatResult((t, None)) == Flat(t)
  {}

  lemma LeafStaysInOrder(t: Tree, d: Device, order: nat)
    requires WellFormed(t, 0) && NonDescending(Flat(t))
    ensures NonDescending(FlatResult(Overflow(t.(entries := AddEntry(t.entries, d.id, Entry(d, None))), order)))
  {
    var t' := t.(entries := AddEntry(t.entries, d.id, Entry(d, None)));
    AddLeafEntryWellFormed(t, d);
    hide Flat, FlatResult, NonDescending, WellFormed, AddEntry, SplitNode;
    LeafAdds(t, d);
    if t'.Len() > order { LeafSplits(t'); } else { FlatAlone(t'); }
  }

  /**
    One `add_r` keeps the walk in order if the subtrees have at least `k` devices and no id comes to
    more than `k + 1` copies.
  */
  lemma {:induction false} AddBelowInOrder(t: Tree, d: Device, order: nat, h: nat, k: nat)
    requires WellFormed(t, h) && Stocked(t, order, h, k)
    requires NonDescending(Flat(t)) && Few(Flat(t) + [d], k + 1)
    ensures NonDescending(FlatResult(AddBelow(t, d, order, h)))
    decreases h
  {
    hide *;
    AddBelowSteps(t, d, order, h);
    if h == 0 {
      LeafStaysInOrder(t, d, order);
    } else {
      var r := Rank(t.entries, d.id);
      StockedChild(t, r, order, h, k);
      var c := ChildAt(t, r).value;
      var (n, s) := AddBelow(c, d, order, h - 1);
      FlatSome(c);
      FewChild(t, d, r, k + 1);
      AroundRank(t, d.id);
      AddBelowInOrder(c, d, order, h - 1, k);
      AddBelowKeeps(c, d, order, h - 1);
      BagIs(c);
      StockedResult(c, d, order, h - 1, k);
      if s.Some? && r < |t.entries| { UpBeforeNext(t, d, n, s.value, k); }
      LevelKeepsOrder(t, d, n, s);
      FewPutBack(t, d, r, n, s, k + 1);
      KidsHavePutBack(t, r, n, s, k);
      LevelApart(PutBack(t, r, n, s), k);
      OverflowInOrder(PutBack(t, r, n, s), order);
    }
  }

  lemma BagIs(t: Tree)
    ensures Bag(t) == multiset(Flat(t))
  {}

  lemma LevelApart(t: Tree, k: nat)
    requires NonDescending(Flat(t)) && Few(Flat(t), k + 1) && KidsHave(t.entries, k)
    ensures KeysAscending(t.entries)
  {
    hide FlatEntries, FlatOption, NonDescending, Few, KidsHave;
    OrderParts(FlatOption(t.left), FlatEntries(t.entries));
    FewPart(Flat(t), FlatEntries(t.entries), FlatOption(t.left), k + 1);
    KeysApart(t.entries, k);
  }

  // ---------------------------------------------------------------- distinct ids

  /** Insertion into an ascending list. */
  function InsertSorted(s: seq<Device>, d: Device): seq<Device> {
    if s == [] || s[0].id > d.id then [d] + s else [s[0]] + InsertSorted(s[1..], d)
  }

  lemma AscendingCons(x: Device, s: seq<Device>)
    ensures Ascending([x] + s) <==> Ascending(s) && Above(s, x.id)
  {
    var t := [x] + s;
    if Ascending(t) {
      forall i, j | 0 <= i < j < |s| ensures s[i].id < s[j].id { assert t[i + 1] == s[i] && t[j + 1] == s[j]; }
      forall y | y in s ensures x.id < y.id {
        var i :| 0 <= i < |s| && s[i] == y;
        assert t[0] == x && t[i + 1] == y;
      }
    }
  }

  lemma {:induction false} InsertSortedKeeps(s: seq<Device>, d: Device)
    requires Ascending(s) && forall x | x in s :: x.id != d.id
    ensures Ascending(InsertSorted(s, d)) && multiset(InsertSorted(s, d)) == multiset(s) + multiset{d}
    ensures forall x :: x in InsertSorted(s, d) <==> x in s || x == d
  {
    if s != [] {
      hide Ascending;
      assert s == [s[0]] + s[1..];
      AscendingCons(s[0], s[1..]);
      if s[0].id > d.id {
        AscendingCons(d, s);
      } else {
        InsertSortedKeeps(s[1..], d);
        AscendingCons(s[0], InsertSorted(s[1..], d));
      }
    }
  }

  lemma {:induction false} AbsentCopies(s: seq<Device>, id: nat)
    requires forall x | x in s :: x.id != id
    ensures Copies(s, id) == 0
  {
    if s != [] {
      forall x | x in s[1..] ensures x in s {}
      AbsentCopies(s[1..], id);
    }
  }

  lemma {:induction false} AscendingFew(s: seq<Device>)
    requires Ascending(s)
    ensures Few(s, 1)
  {
    if s != [] {
      assert s == [s[0]] + s[1..];
      AscendingCons(s[0], s[1..]);
      AscendingFew(s[1..]);
      AbsentCopies(s[1..], s[0].id);
    }
  }

  lemma FewAscends(s: seq<Device>)
    requires NonDescending(s) && Few(s, 1)
    ensures Ascending(s)
  {
    forall i, j | 0 <= i < j < |s| ensures s[i].id < s[j].id {
      hide Few, NonDescending;
      assert s == s[..i] + s[i..j + 1] + s[j + 1..];
      EndsDiffer(s[..i], s[i..j + 1], s[j + 1..]);
    }
  }

  lemma EndsDiffer(a: seq<Device>, c: seq<Device>, b: seq<Device>)
    requires NonDescending(a + c + b) && Few(a + c + b, 1) && |c| > 1
    ensures c[0].id < c[|c| - 1].id
  {
    hide Few, NonDescending;
    OrderParts(a + c, b);
    OrderParts(a, c);
    FewPart(a + c + b, c, a + b, 1);
    EqualEnds(c, 1);
  }

  lemma {:induction false} AscendingSame(a: seq<Device>, b: seq<Device>)
    requires Ascending(a) && Ascending(b) && multiset(a) == multiset(b)
    ensures a == b
  {
    if a == [] {
      assert |multiset(b)| == 0;
    } else {
      hide Ascending;
      assert |multiset(b)| == |multiset(a)|;
      SameLeast(a, b);
      TailOf(a);
      TailOf(b);
      DropSame(a, [], b[1..]);
      AscendingSame(a[1..], b[1..]);
    }
  }

  lemma SameLeast(a: seq<Device>, b: seq<Device>)
    requires Ascending(a) && Ascending(b) && multiset(a) == multiset(b) && a != [] && b != []
    ensures a[0] == b[0]
  {
    hide Ascending;
    assert a[0] in multiset(b) && b[0] in multiset(a);
    LeastIsFirst(a, b[0]);
    LeastIsFirst(b, a[0]);
  }

  lemma LeastIsFirst(s: seq<Device>, x: Device)
    requires Ascending(s) && x in s
    ensures x == s[0] || s[0].id < x.id
  {}

  lemma TailOf(s: seq<Device>)
    requires Ascending(s) && s != []
    ensures Ascending(s[1..]) && s == [s[0]] + s[1..] == [] + [s[0]] + s[1..] && [] + s[1..] == s[1..]
  {
    assert s == [s[0]] + s[1..];
    AscendingCons(s[0], s[1..]);
  }

  /** With distinct ids, one `add_r` at any order is one sorted insertion into the walk, however nodes split. */
  lemma AddBelowInserts(t: Tree, d: Device, order: nat, h: nat)
    requires WellFormed(t, h)
    requires Ascending(Flat(t)) && forall x | x in Flat(t) :: x.id != d.id
    ensures FlatResult(AddBelow(t, d, order, h)) == InsertSorted(Flat(t), d)
  {
    hide *;
    var s, s' := InsertSorted(Flat(t), d), FlatResult(AddBelow(t, d, order, h));
    InsertSortedKeeps(Flat(t), d);
    AscendingFew(s);
    FewPermute(s, Flat(t) + [d], 1);
    Weaken(Flat(t));
    StockedFreely(t, order, h);
    AddBelowInOrder(t, d, order, h, 0);
    AddBelowKeeps(t, d, order, h);
    BagIs(t);
    FewPermute(s, s', 1);
    FewAscends(s');
    AscendingSame(s, s');
  }

  lemma Weaken(s: seq<Device>)
    requires Ascending(s)
    ensures NonDescending(s)
  {}

  lemma StockedFreely(t: Tree, order: nat, h: nat)
    ensures Stocked(t, order, h, 0)
  {}
}
