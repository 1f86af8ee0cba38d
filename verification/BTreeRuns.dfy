/** Every run of `add`: what is stored, and what `find` and `walk` return once ids are distinct. */
module BTreeRuns {
  import opened Wrappers
  import opened BTree
  import opened BTreeOrder
  import opened BTreeSorted

  // ---------------------------------------------------------------- lookup

  /** `get_device`: the first device of the node with this id. */
  function FirstWith(es: seq<Entry>, id: nat): Option<Device> {
    if es == [] then None
    else if es[0].dev.id == id then Some(es[0].dev)
    else FirstWith(es[1..], id)
  }

  /** `find_r`. */
  function Find(t: Tree, id: nat): Option<Device>
    decreases t
  {
    var here := FirstWith(t.entries, id);
    if here.Some? || t.kind == Leaf then here
    else
      var r := Rank(t.entries, id);
      if r == 0 then FindOption(t.left, id) else
        assert t.entries[r - 1] in t.entries;
        FindOption(t.entries[r - 1].child, id)
  }

  function FindOption(o: Option<Tree>, id: nat): Option<Device>
    decreases o
  {
    match o
    case None => None
    case Some(t) => Find(t, id)
  }

  /** `found` is the answer to a search for `id` among the devices of `s`. */
  ghost predicate Answers(found: Option<Device>, s: seq<Device>, id: nat) {
    match found
    case Some(d) => d in s && d.id == id
    case None => forall x | x in s :: x.id != id
  }

  lemma {:induction false} FirstWithAnswers(es: seq<Entry>, id: nat)
    ensures FirstWith(es, id).Some? ==> FirstWith(es, id).value in FlatEntries(es) && FirstWith(es, id).value.id == id
    ensures FirstWith(es, id).None? ==> forall e | e in es :: e.dev.id != id
  {
    if es != [] && es[0].dev.id != id {
      FirstWithAnswers(es[1..], id);
    }
  }

  lemma LeafAnswers(es: seq<Entry>, id: nat)
    requires Childless(es) && forall e | e in es :: e.dev.id != id
    ensures forall x | x in FlatEntries(es) :: x.id != id
  {
    hide FlatEntries;
    LeafFlat(es);
    var s := FlatEntries(es);
    forall x | x in s ensures x.id != id {
      var i :| 0 <= i < |s| && s[i] == x;
      assert es[i] in es;
    }
  }

  lemma FindSteps(t: Tree, id: nat, h: nat)
    requires WellFormed(t, h)
    ensures (t.kind == Leaf <==> h == 0) && (h == 0 ==> t.left == None && Childless(t.entries))
    ensures FirstWith(t.entries, id).Some? || h == 0 ==> Find(t, id) == FirstWith(t.entries, id)
    ensures var c := ChildAt(t, Rank(t.entries, id));
            h > 0 ==> c.Some? && WellFormed(c.value, h - 1) && (FirstWith(t.entries, id).None? ==> Find(t, id) == Find(c.value, id))
  {
    var r := Rank(t.entries, id);
    assert r > 0 ==> t.entries[r - 1] in t.entries;
  }

  /** Lookup in a tree whose walk is in order finds a device exactly when one is stored under the id. */
  lemma {:induction false} FindAnswers(t: Tree, id: nat, h: nat)
    requires WellFormed(t, h) && NonDescending(Flat(t))
    ensures Answers(Find(t, id), Flat(t), id)
    decreases h
  {
    hide FirstWith, Find, Flat, FlatEntries, FlatOption, NonDescending, WellFormed, Before, KeysSorted, Childless, ChildAt;
    FindSteps(t, id, h);
    FirstWithAnswers(t.entries, id);
    InEntries(t);
    if FirstWith(t.entries, id).None? {
      if h == 0 {
        LeafAnswers(t.entries, id);
        FlatOfLeaf(t);
      } else {
        var r := Rank(t.entries, id);
        var c := ChildAt(t, r).value;
        FlatSome(c);
        AroundRank(t, id);
        FindAnswers(c, id, h - 1);
      }
    }
  }

  lemma InEntries(t: Tree)
    ensures forall x | x in FlatEntries(t.entries) :: x in Flat(t)
  {}

  // ---------------------------------------------------------------- runs

  ghost function Height(t: Option<Tree>): nat
    decreases t
  {
    match t
    case None => 0
    case Some(x) => if x.left.None? then 0 else 1 + Height(x.left)
  }

  lemma {:induction false} HeightIs(t: Tree, h: nat)
    requires WellFormed(t, h)
    ensures Height(Some(t)) == h
    decreases h
  {
    if h > 0 { HeightIs(t.left.value, h - 1); }
  }

  lemma AddHeight(t: Option<Tree>, d: Device, order: nat, h: nat)
    requires t.Some? ==> WellFormed(t.value, h)
    requires t.None? ==> h == 0
    ensures WellFormed(Add(t, d, order, h), Height(Some(Add(t, d, order, h))))
    ensures Height(Some(Add(t, d, order, h))) <= h + 1
  {
    hide WellFormed, Add;
    var t' := Add(t, d, order, h);
    if WellFormed(t', h) { HeightIs(t', h); } else { HeightIs(t', h + 1); }
  }

  /** The tree of a database of this order after `add` of each device in turn. */
  function AddAll(ds: seq<Device>, order: nat): (r: Option<Tree>)
    ensures r.None? <==> ds == []
    ensures r.Some? ==> WellFormed(r.value, Height(r))
  {
    if ds == [] then None else
      var before := AddAll(ds[..|ds| - 1], order);
      AddHeight(before, ds[|ds| - 1], order, Height(before));
      Some(Add(before, ds[|ds| - 1], order, Height(before)))
  }

  ghost predicate DistinctIds(ds: seq<Device>) {
    forall i, j | 0 <= i < j < |ds| :: ds[i].id != ds[j].id
  }

  /** `walk` visits exactly the added devices, each as often as it was added. */
  lemma {:induction false} RunKeepsEveryDevice(ds: seq<Device>, order: nat)
    ensures multiset(FlatOption(AddAll(ds, order))) == multiset(ds)
  {
    hide *;
    LastAdd(ds, order);
    if ds != [] {
      var n := |ds| - 1;
      var before := AddAll(ds[..n], order);
      RunKeepsEveryDevice(ds[..n], order);
      AddKeeps(before, ds[n], order, Height(before));
      FlatSome(AddAll(ds, order).value);
      assert ds == ds[..n] + [ds[n]];
    }
  }

  lemma LastAdd(ds: seq<Device>, order: nat)
    ensures ds == [] ==> AddAll(ds, order) == None && FlatOption(AddAll(ds, order)) == []
    ensures ds != [] ==>
              var before := AddAll(ds[..|ds| - 1], order);
              && (before.Some? ==> WellFormed(before.value, Height(before)))
              && (before.None? ==> Height(before) == 0)
              && AddAll(ds, order) == Some(Add(before, ds[|ds| - 1], order, Height(before)))
  {}

  lemma AddInserts(t: Option<Tree>, d: Device, order: nat, h: nat)
    requires t.Some? ==> WellFormed(t.value, h)
    requires t.None? ==> h == 0
    requires Ascending(FlatOption(t)) && forall x | x in FlatOption(t) :: x.id != d.id
    ensures Flat(Add(t, d, order, h)) == InsertSorted(FlatOption(t), d)
  {
    var t0 := t.GetOr(EmptyLeaf);
    assert FlatOption(t) == Flat(t0);
    AddBelowInserts(t0, d, order, h);
    var (n, s) := AddBelow(t0, d, order, h);
    if s.Some? { FlatNewRoot(n, s.value); } else { assert FlatResult((n, s)) == Flat(n); }
  }

  lemma {:induction false} RunAscends(ds: seq<Device>, order: nat)
    requires DistinctIds(ds)
    ensures Ascending(FlatOption(AddAll(ds, order)))
  {
    if ds != [] {
      var n := |ds| - 1;
      var before := AddAll(ds[..n], order);
      RunAscends(ds[..n], order);
      RunKeepsEveryDevice(ds[..n], order);
      forall x | x in FlatOption(before) ensures x.id != ds[n].id {
        assert x in multiset(ds[..n]);
      }
      AddInserts(before, ds[n], order, Height(before));
      InsertSortedKeeps(FlatOption(before), ds[n]);
      FlatSome(AddAll(ds, order).value);
    }
  }

  lemma FewIsDistinct(ds: seq<Device>)
    requires Few(ds, 1)
    ensures DistinctIds(ds)
  {
    forall i, j | 0 <= i < j < |ds| ensures ds[i].id != ds[j].id {
      var id := ds[i].id;
      assert ds == ds[..i] + ([ds[i]] + ds[i + 1..j] + [ds[j]]) + ds[j + 1..];
      hide Few;
      FewPart(ds, [ds[i], ds[j]], ds[..i] + ds[i + 1..j] + ds[j + 1..], 1);
      if ds[j].id == id {
        AllCopies([ds[i], ds[j]], id);
        TooMany([ds[i], ds[j]], id, 1);
      }
    }
  }

  /** The walk is strictly ascending exactly when no id was added twice. */
  lemma WalkAscendsIffDistinct(ds: seq<Device>, order: nat)
    ensures Ascending(FlatOption(AddAll(ds, order))) <==> DistinctIds(ds)
  {
    RunKeepsEveryDevice(ds, order);
    if DistinctIds(ds) {
      RunAscends(ds, order);
    } else if Ascending(FlatOption(AddAll(ds, order))) {
      AscendingFew(FlatOption(AddAll(ds, order)));
      FewPermute(FlatOption(AddAll(ds, order)), ds, 1);
      FewIsDistinct(ds);
    }
  }

  /** The plain map the database stands for. */
  function MapOf(ds: seq<Device>): map<nat, Device> {
    if ds == [] then map[] else MapOf(ds[..|ds| - 1])[ds[|ds| - 1].id := ds[|ds| - 1]]
  }

  lemma {:induction false} MapOfDistinct(ds: seq<Device>)
    requires DistinctIds(ds)
    ensures forall id :: id in MapOf(ds) ==> MapOf(ds)[id] in ds && MapOf(ds)[id].id == id
    ensures forall d | d in ds :: d.id in MapOf(ds) && MapOf(ds)[d.id] == d
  {
    if ds != [] {
      var n := |ds| - 1;
      MapOfDistinct(ds[..n]);
      assert ds == ds[..n] + [ds[n]];
    }
  }

  /** After any run with distinct ids, `find` agrees with the plain map of the added devices. */
  lemma FindAgreesWithMap(ds: seq<Device>, order: nat, id: nat)
    requires DistinctIds(ds)
    ensures FindOption(AddAll(ds, order), id) == if id in MapOf(ds) then Some(MapOf(ds)[id]) else None
  {
    var t := AddAll(ds, order);
    var found := FindOption(t, id);
    RunAscends(ds, order);
    RunKeepsEveryDevice(ds, order);
    MapOfDistinct(ds);
    if t.Some? {
      FlatSome(t.value);
      Weaken(Flat(t.value));
      FindAnswers(t.value, id, Height(t));
    }
    hide FlatOption, Flat, FindOption, Find, MapOf, AddAll;
    assert Answers(found, FlatOption(t), id) ==> Answers(found, ds, id) by {
      assert forall x :: x in FlatOption(t) <==> x in multiset(FlatOption(t));
      assert forall x :: x in ds <==> x in multiset(ds);
    }
  }

  // ---------------------------------------------------------------- one copy too many at order 2

  lemma AddOne(ds: seq<Device>, x: Device, order: nat)
    ensures AddAll(ds + [x], order) == Some(Add(AddAll(ds, order), x, order, Height(AddAll(ds, order))))
  {
    assert (ds + [x])[..|ds|] == ds;
  }

  function LeafOf(d: Device): Tree {
    Tree(Leaf, None, [Entry(d, None)])
  }

  lemma IntoEmptyLeaf(x: Device)
    ensures AddBelow(EmptyLeaf, x, 2, 0) == (LeafOf(x), None)
  {
    assert AddEntry([], x.id, Entry(x, None)) == [Entry(x, None)];
  }

  /** A node of two entries splits at order 2. */
  lemma SplitTwo(kind: NodeType, left: Option<Tree>, e0: Entry, e1: Entry)
    ensures Overflow(Tree(kind, left, [e0, e1]), 2)
         == (Tree(kind, left, [e0]), Some(Split(e1.dev, Tree(kind, e1.child, []))))
  {
    assert [e0, e1][..1] == [e0] && [e0, e1][2..] == [];
  }

  lemma AddToOne(e: Entry, x: Entry)
    ensures AddEntry([e], x.dev.id, x) == if x.dev.id < e.dev.id then [x, e] else [e, x]
  {
    assert Rank([e], x.dev.id) == if x.dev.id < e.dev.id then 0 else 1;
  }

  /** At order 2 a second device splits its leaf; of two devices with one id the later one moves up. */
  lemma IntoLeaf(p: Device, x: Device)
    ensures var (lo, hi) := if x.id < p.id then (x, p) else (p, x);
            AddBelow(LeafOf(p), x, 2, 0) == (LeafOf(lo), Some(Split(hi, EmptyLeaf)))
  {
    hide AddEntry, Overflow;
    AddToOne(Entry(p, None), Entry(x, None));
    var (lo, hi) := if x.id < p.id then (x, p) else (p, x);
    SplitTwo(Leaf, None, Entry(lo, None), Entry(hi, None));
  }

  lemma TwoAdds(a: Device, b: Device)
    requires a.id == b.id
    ensures AddAll([a, b], 2) == Some(NewRoot(LeafOf(a), Split(b, EmptyLeaf)))
  {
    hide AddBelow, AddAll;
    AddOne([], a, 2);
    assert AddAll([], 2) == None;
    assert [] + [a] == [a] && [a] + [b] == [a, b];
    IntoEmptyLeaf(a);
    AddOne([a], b, 2);
    IntoLeaf(a, b);
  }

  lemma ThreeAdds(a: Device, b: Device, c: Device)
    requires a.id == b.id == 1 && c.id == 2
    ensures AddAll([a, b, c], 2) == Some(NewRoot(LeafOf(a), Split(b, LeafOf(c))))
  {
    hide AddBelow, AddAll, AddEntry, Overflow;
    TwoAdds(a, b);
    AddOne([a, b], c, 2);
    assert [a, b] + [c] == [a, b, c];
    IntoEmptyLeaf(c);
    var t := NewRoot(LeafOf(a), Split(b, EmptyLeaf));
    var e := Entry(b, Some(LeafOf(c)));
    assert Rank(t.entries, 2) == 1;
    AddBelowSteps(t, c, 2, 1);
    assert RemoveAt(t.entries, 0) == [] && AddEntry([], 1, e) == [e] by { AddToNone(e); }
    StaysBelow(NewRoot(LeafOf(a), Split(b, LeafOf(c))));
  }

  lemma AddToNone(e: Entry)
    ensures AddEntry([], e.dev.id, e) == [e]
  {}

  lemma StaysBelow(t: Tree)
    requires |t.entries| < 2
    ensures Overflow(t, 2) == (t, None)
  {}

  /** At order 2, adding an id twice can put the walk out of order and hide another device from `find`. */
  lemma DuplicatesBreakSearch(a: Device, b: Device, c: Device, d: Device)
    requires a.id == b.id == 1 && c.id == 2 && d.id == 0
    ensures FlatOption(AddAll([a, b, c, d], 2)) == [d, b, c, a]
    ensures FindOption(AddAll([a, b, c, d], 2), 2) == None
  {
    var low := NewRoot(LeafOf(d), Split(b, LeafOf(c)));
    var high := Tree(Regular, Some(EmptyLeaf), []);
    FourAdds(a, b, c, d);
    FlatSome(NewRoot(low, Split(a, high)));
    Evaluate(a, b, c, d, low, high);
    hide AddAll, Flat, Find;
  }

  lemma FourAdds(a: Device, b: Device, c: Device, d: Device)
    requires a.id == b.id == 1 && c.id == 2 && d.id == 0
    ensures AddAll([a, b, c, d], 2)
         == Some(NewRoot(NewRoot(LeafOf(d), Split(b, LeafOf(c))), Split(a, Tree(Regular, Some(EmptyLeaf), []))))
  {
    hide AddBelow, AddAll, AddEntry, Overflow;
    ThreeAdds(a, b, c);
    AddOne([a, b, c], d, 2);
    assert [a, b, c] + [d] == [a, b, c, d];
    IntoLeaf(a, d);
    var t := NewRoot(LeafOf(a), Split(b, LeafOf(c)));
    assert Rank(t.entries, 0) == 0;
    AddBelowSteps(t, d, 2, 1);
    var e0, e1 := Entry(b, Some(LeafOf(c))), Entry(a, Some(EmptyLeaf));
    AddToOne(e0, e1);
    SplitTwo(Regular, Some(LeafOf(d)), e0, e1);
  }

  lemma FlatOne(e: Entry)
    ensures FlatEntries([e]) == FlatEntry(e)
  {}

  lemma FlatLeafOf(d: Device)
    ensures Flat(LeafOf(d)) == [d]
  {
    FlatOne(Entry(d, None));
  }

  lemma Evaluate(a: Device, b: Device, c: Device, d: Device, low: Tree, high: Tree)
    requires a.id == 1 && low == NewRoot(LeafOf(d), Split(b, LeafOf(c)))
    requires high == Tree(Regular, Some(EmptyLeaf), [])
    ensures Flat(NewRoot(low, Split(a, high))) == [d, b, c, a]
    ensures Find(NewRoot(low, Split(a, high)), 2) == None
  {
    assert Flat(high) == [];
    assert Find(EmptyLeaf, 2) == None && Find(high, 2) == None;
    var t := NewRoot(low, Split(a, high));
    assert Rank(t.entries, 2) == 1 && FirstWith(t.entries, 2) == None;
    assert Find(t, 2) == FindOption(Some(high), 2);
    FlatLeafOf(c);
    FlatLeafOf(d);
    hide FlatEntries, FlatOption, Find;
    FlatOne(low.entries[0]);
    FlatOne(t.entries[0]);
    FlatSome(low);
    FlatSome(high);
    FlatSome(LeafOf(c));
    FlatSome(LeafOf(d));
  }
}
