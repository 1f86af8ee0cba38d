/** How often an id may be added before the walk leaves its order and lookup misses devices. */
module BTreeLimits {
  import opened Wrappers
  import opened BTree
  import opened BTreeOrder
  import opened BTreeFills
  import opened BTreeSorted
  import opened BTreeSpines
  import opened BTreeThrees
  import opened BTreeRuns
  import opened BTreeShape

  /** How many devices with one id an order stands in any case. */
  function CopyLimit(order: nat): nat {
    if order < 2 then 1 else (order + 1) / 2
  }

  /** The orders at which equal ids do no harm. */
  predicate StandsAll(order: nat) {
    order < 2 || order == 3
  }

  /** A run that cannot put the tree out of order: at one of these orders, or with no id too often. */
  ghost predicate Orderly(ds: seq<Device>, order: nat) {
    StandsAll(order) || Few(ds, CopyLimit(order))
  }

  lemma OrderlyBefore(ds: seq<Device>, order: nat)
    requires Orderly(ds, order) && ds != []
    ensures Orderly(ds[..|ds| - 1], order)
  {
    var n := |ds| - 1;
    assert ds == ds[..n] + [ds[n]];
    if !StandsAll(order) { FewPart(ds, ds[..n], [ds[n]], CopyLimit(order)); }
  }

  /** The tree, or the empty leaf that the first `add` starts from. */
  lemma StartInOrder(t: Option<Tree>)
    requires NonDescending(FlatOption(t))
    ensures FlatOption(t) == Flat(t.GetOr(EmptyLeaf)) && NonDescending(Flat(t.GetOr(EmptyLeaf)))
  {}

  lemma AddFlat(t: Option<Tree>, d: Device, order: nat, h: nat)
    requires t.Some? ==> WellFormed(t.value, h)
    requires t.None? ==> h == 0
    ensures WellFormed(t.GetOr(EmptyLeaf), h)
    ensures FlatOption(Some(Add(t, d, order, h))) == FlatResult(AddBelow(t.GetOr(EmptyLeaf), d, order, h))
  {
    var (n, s) := AddBelow(t.GetOr(EmptyLeaf), d, order, h);
    FlatSome(Add(t, d, order, h));
    if s.Some? { FlatNewRoot(n, s.value); } else { FlatAlone(n); }
  }

  lemma StockedBefore(ds: seq<Device>, order: nat)
    ensures Stocked(AddAll(ds, order).GetOr(EmptyLeaf), order, Height(AddAll(ds, order)), CopyLimit(order) - 1)
  {
    hide Few, WellFormed, AddAll;
    if order >= 2 {
      if ds != [] { RunFills(ds, order); } else { LastAdd(ds, order); }
    }
  }

  lemma {:induction false} RunInOrder(ds: seq<Device>, order: nat)
    requires !StandsAll(order) && Few(ds, CopyLimit(order))
    ensures NonDescending(FlatOption(AddAll(ds, order)))
  {
    hide *;
    LastAdd(ds, order);
    if ds == [] {
      NoneInOrder();
    } else {
      var n := |ds| - 1;
      var before := AddAll(ds[..n], order);
      var t, h := before.GetOr(EmptyLeaf), Height(before);
      OrderlyIs(ds, order);
      OrderlyBefore(ds, order);
      OrderlyIs(ds[..n], order);
      RunInOrder(ds[..n], order);
      StartInOrder(before);
      AddFlat(before, ds[n], order, h);
      StockedBefore(ds[..n], order);
      RunKeepsEveryDevice(ds[..n], order);
      assert ds == ds[..n] + [ds[n]];
      FewPermute(ds, Flat(t) + [ds[n]], CopyLimit(order));
      LimitIs(order);
      AddBelowInOrder(t, ds[n], order, h, CopyLimit(order) - 1);
    }
  }

  lemma OrderlyIs(ds: seq<Device>, order: nat)
    ensures Orderly(ds, order) <==> StandsAll(order) || Few(ds, CopyLimit(order))
  {}

  lemma NoneInOrder()
    ensures NonDescending([])
  {}

  lemma LimitIs(order: nat)
    ensures CopyLimit(order) > 0
  {}

  // ---------------------------------------------------------------- order 3

  /** The tree of a database of order 3 between two calls of `add`. */
  ghost predicate ThreeHolds(t: Option<Tree>) {
    NonDescending(FlatOption(t)) && (t.Some? ==> Fenced(t.value, Height(t), None))
  }

  lemma RootThree(n: Tree, s: Option<Split>, h: nat)
    requires WellFormed(n, h) && ResultFenced(n, s, h, None)
    ensures var t := if s.Some? then NewRoot(n, s.value) else n; Fenced(t, Height(Some(t)), None)
  {
    HeightIs(n, h);
    if s.Some? {
      var t := NewRoot(n, s.value);
      assert Height(Some(t)) == h + 1;
      hide Height, WellFormed;
      assert ChildAt(t, 0) == Some(n) && ChildAt(t, 1) == Some(s.value.tree);
      assert FenceAt(t, 0, None) == Some(s.value.dev.id) && FenceAt(t, 1, None) == None;
    }
  }

  lemma AddThree(t: Option<Tree>, d: Device)
    requires t.Some? ==> WellFormed(t.value, Height(t))
    requires ThreeHolds(t)
    ensures ThreeHolds(Some(Add(t, d, 3, Height(t))))
  {
    hide NonDescending, WellFormed, AddBelow, Flat, FlatOption, FlatResult, ResultFenced, Fenced;
    var t0, h := t.GetOr(EmptyLeaf), Height(t);
    var t' := Add(t, d, 3, h);
    StartInOrder(t);
    AddFlat(t, d, 3, h);
    LeafFenced();
    AddBelowThree(t0, d, h, None);
    var (n, s) := AddBelow(t0, d, 3, h);
    RootThree(n, s, h);
  }

  lemma LeafFenced()
    ensures Fenced(EmptyLeaf, 0, None)
  {}

  lemma {:induction false} RunThree(ds: seq<Device>)
    ensures ThreeHolds(AddAll(ds, 3))
  {
    hide *;
    LastAdd(ds, 3);
    if ds == [] {
      NoneInOrder();
      ThreeIs(AddAll(ds, 3));
    } else {
      RunThree(ds[..|ds| - 1]);
      AddThree(AddAll(ds[..|ds| - 1], 3), ds[|ds| - 1]);
    }
  }

  lemma ThreeIs(t: Option<Tree>)
    ensures ThreeHolds(t) <==> NonDescending(FlatOption(t)) && (t.Some? ==> Fenced(t.value, Height(t), None))
  {}

  // ---------------------------------------------------------------- orders below 2

  ghost predicate SpineHolds(t: Option<Tree>) {
    NonDescending(FlatOption(t)) && (t.Some? ==> Spine(t.value, Height(t)))
  }

  lemma RootSpine(n: Tree, s: Split, h: nat)
    requires WellFormed(n, h) && SplitsEmpty(n, Some(s), h)
    ensures Spine(NewRoot(n, s), Height(Some(NewRoot(n, s))))
  {
    HeightIs(n, h);
    assert Height(Some(NewRoot(n, s))) == h + 1;
    FlatSome(s.tree);
  }

  lemma AddSpine(t: Option<Tree>, d: Device, order: nat)
    requires order < 2 && SpineHolds(t) && (t.Some? ==> WellFormed(t.value, Height(t)))
    ensures SpineHolds(Some(Add(t, d, order, Height(t))))
  {
    hide NonDescending, WellFormed, AddBelow, Flat, FlatOption, FlatResult, Spine;
    var t0, h := t.GetOr(EmptyLeaf), Height(t);
    StartInOrder(t);
    AddFlat(t, d, order, h);
    LeafIsSpine();
    AddBelowSpine(t0, d, order, h);
    var (n, s) := AddBelow(t0, d, order, h);
    RootSpine(n, s.value, h);
  }

  lemma LeafIsSpine()
    ensures Spine(EmptyLeaf, 0)
  {}

  lemma {:induction false} RunSpine(ds: seq<Device>, order: nat)
    requires order < 2
    ensures SpineHolds(AddAll(ds, order))
  {
    hide Add, NonDescending, WellFormed, Spine, Height;
    LastAdd(ds, order);
    if ds == [] {
      NoneInOrder();
    } else {
      RunSpine(ds[..|ds| - 1], order);
      AddSpine(AddAll(ds[..|ds| - 1], order), ds[|ds| - 1], order);
    }
  }

  // ---------------------------------------------------------------- every orderly run

  /** After an orderly run the walk is in order, equal ids side by side. */
  lemma RunStaysInOrder(ds: seq<Device>, order: nat)
    requires Orderly(ds, order)
    ensures NonDescending(FlatOption(AddAll(ds, order)))
  {
    if order == 3 {
      RunThree(ds);
    } else if order < 2 {
      RunSpine(ds, order);
    } else {
      RunInOrder(ds, order);
    }
  }

  /** After an orderly run `find` answers for every id. */
  lemma RunAnswers(ds: seq<Device>, order: nat, id: nat)
    requires Orderly(ds, order)
    ensures Answers(FindOption(AddAll(ds, order), id), ds, id)
  {
    var t := AddAll(ds, order);
    RunStaysInOrder(ds, order);
    RunKeepsEveryDevice(ds, order);
    OrderedAnswers(t, id);
    hide *;
    SameAnswers(FindOption(t, id), FlatOption(t), ds, id);
  }

  lemma OrderedAnswers(t: Option<Tree>, id: nat)
    requires t.Some? ==> WellFormed(t.value, Height(t))
    requires NonDescending(FlatOption(t))
    ensures Answers(FindOption(t, id), FlatOption(t), id)
  {
    if t.Some? {
      FlatSome(t.value);
      FindAnswers(t.value, id, Height(t));
    }
  }

  lemma SameAnswers(found: Option<Device>, s: seq<Device>, ds: seq<Device>, id: nat)
    requires multiset(s) == multiset(ds) && Answers(found, s, id)
    ensures Answers(found, ds, id)
  {
    assert forall x :: x in s <==> x in multiset(s);
    assert forall x :: x in ds <==> x in multiset(ds);
  }

  lemma {:induction false} MapOfAdded(ds: seq<Device>, id: nat)
    ensures id in MapOf(ds) ==> MapOf(ds)[id] in ds && MapOf(ds)[id].id == id
    ensures (forall d | d in ds :: d.id != id) ==> id !in MapOf(ds)
    ensures (exists d :: d in ds && d.id == id) ==> id in MapOf(ds)
  {
    if ds != [] {
      var n := |ds| - 1;
      MapOfAdded(ds[..n], id);
      assert ds == ds[..n] + [ds[n]];
    }
  }

  lemma OnlyCopy(ds: seq<Device>, a: Device, b: Device)
    requires a in ds && b in ds && a.id == b.id && Copies(ds, a.id) == 1
    ensures a == b
  {
    var i :| 0 <= i < |ds| && ds[i] == a;
    var x, y := ds[..i], ds[i + 1..];
    assert ds == x + [a] + y;
    CopiesAppend(x + [a], y, a.id);
    CopiesAppend(x, [a], a.id);
    AllCopies([a], a.id);
    if b != a {
      if b in x { SomeCopy(x, b); } else { SomeCopy(y, b); }
    }
  }

  lemma {:induction false} SomeCopy(s: seq<Device>, d: Device)
    requires d in s
    ensures Copies(s, d.id) > 0
  {
    if s[0] != d { SomeCopy(s[1..], d); }
  }

  /**
    After an orderly run `find` agrees with the plain map of the added devices: on which ids are
    there, and, for an id that was added once, on the device.
  */
  lemma RunAgreesWithMap(ds: seq<Device>, order: nat, id: nat)
    requires Orderly(ds, order)
    ensures FindOption(AddAll(ds, order), id).Some? <==> id in MapOf(ds)
    ensures Copies(ds, id) == 1 && id in MapOf(ds) ==> FindOption(AddAll(ds, order), id) == Some(MapOf(ds)[id])
  {
    hide FindOption, AddAll, MapOf, Copies, Few;
    var found := FindOption(AddAll(ds, order), id);
    RunAnswers(ds, order, id);
    MapOfAdded(ds, id);
    if found.Some? && Copies(ds, id) == 1 { OnlyCopy(ds, found.value, MapOf(ds)[id]); }
  }
}
