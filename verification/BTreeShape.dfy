/** The shape every run of `add` leaves: the validity check, the fan-out and the height bound. */
module BTreeShape {
  import opened Numerals
  import opened Wrappers
  import opened BTree
  import opened BTreeOrder
  import opened BTreeFills
  import opened BTreeRuns

  const USIZE_MAX: nat := 0xFFFF_FFFF_FFFF_FFFF

  // ---------------------------------------------------------------- the validity check

  /** What `validate` returns: whether the key rules hold, and the least and greatest leaf level. */
  datatype Report = Report(ok: bool, least: nat, greatest: nat)

  function Merge(total: Report, r: Report): Report {
    Report(total.ok && r.ok,
           if r.least < total.least then r.least else total.least,
           if r.greatest > total.greatest then r.greatest else total.greatest)
  }

  function MinChildren(level: nat, order: nat): nat {
    if level > 0 then order / 2 else 2
  }

  /** `validate`: the children first, then the left child. */
  function Validate(t: Tree, level: nat, order: nat): Report
    decreases t
  {
    if t.kind == Leaf then Report(t.Len() <= order, level, level)
    else
      var start := Report(MinChildren(level, order) <= t.Len() <= order, USIZE_MAX, level);
      ValidateOption(t.left, level + 1, order, ValidateEntries(t.entries, level + 1, order, start))
  }

  function ValidateOption(o: Option<Tree>, level: nat, order: nat, total: Report): Report
    decreases o
  {
    match o
    case None => total
    case Some(t) => Merge(total, Validate(t, level, order))
  }

  function ValidateEntries(es: seq<Entry>, level: nat, order: nat, total: Report): Report
    decreases es
  {
    if es == [] then total else
      ValidateEntries(es[1..], level, order, ValidateEntry(es[0], level, order, total))
  }

  function ValidateEntry(e: Entry, level: nat, order: nat, total: Report): Report
    decreases e
  {
    ValidateOption(e.child, level, order, total)
  }

  /** `is_a_valid_btree`. */
  predicate IsValid(t: Option<Tree>, order: nat) {
    match t
    case None => false
    case Some(x) => var r := Validate(x, 0, order); r.ok && r.least == r.greatest
  }

  /** The key rules alone, without levels or folding. */
  ghost predicate FanOut(t: Tree, level: nat, order: nat, h: nat)
    requires WellFormed(t, h)
    decreases h
  {
    && t.Len() <= order
    && (h > 0 ==>
          && MinChildren(level, order) <= t.Len()
          && FanOut(t.left.value, level + 1, order, h - 1)
          && forall e | e in t.entries :: FanOut(e.child.value, level + 1, order, h - 1))
  }

  ghost predicate FansOut(es: seq<Entry>, level: nat, order: nat, h: nat)
    requires forall e | e in es :: e.child.Some? && WellFormed(e.child.value, h)
  {
    forall e | e in es :: FanOut(e.child.value, level, order, h)
  }

  lemma {:induction false} ValidateEntriesReports(es: seq<Entry>, level: nat, order: nat, h: nat, total: Report)
    requires forall e | e in es :: e.child.Some? && WellFormed(e.child.value, h)
    requires level + h <= USIZE_MAX && total.least >= level + h && total.greatest <= level + h
    ensures var r := ValidateEntries(es, level, order, total);
            && r.ok == (total.ok && FansOut(es, level, order, h))
            && r.least == (if es == [] then total.least else level + h)
            && r.greatest == (if es == [] then total.greatest else level + h)
    decreases h, 1, |es|
  {
    if es != [] {
      var e := es[0];
      assert e in es;
      ValidateReports(e.child.value, level, order, h);
      var total' := ValidateOption(e.child, level, order, total);
      assert total' == Merge(total, Validate(e.child.value, level, order));
      assert es == [e] + es[1..];
      ValidateEntriesReports(es[1..], level, order, h, total');
    }
  }

  /** On a tree with all leaves at depth `h`, the check reports that depth and whether every node keeps the key rules. */
  lemma {:induction false} ValidateReports(t: Tree, level: nat, order: nat, h: nat)
    requires WellFormed(t, h) && level + h <= USIZE_MAX
    ensures Validate(t, level, order) == Report(FanOut(t, level, order, h), level + h, level + h)
    decreases h, 0
  {
    if h > 0 {
      var start := Report(MinChildren(level, order) <= t.Len() <= order, USIZE_MAX, level);
      ValidateEntriesReports(t.entries, level + 1, order, h - 1, start);
      ValidateReports(t.left.value, level + 1, order, h - 1);
    }
  }

  // ---------------------------------------------------------------- the fan-out every run keeps

  /** The root: at least one key, otherwise as every other node. */
  ghost predicate RootFilled(t: Tree, order: nat, h: nat) {
    1 <= |t.entries| < order && KidsFilled(t, order, h)
  }

  lemma {:induction false} RunFills(ds: seq<Device>, order: nat)
    requires order >= 2 && ds != []
    ensures var t := AddAll(ds, order); RootFilled(t.value, order, Height(t))
  {
    hide WellFormed, AddBelow, KidsFilled;
    var n := |ds| - 1;
    var before := AddAll(ds[..n], order);
    if n > 0 { RunFills(ds[..n], order); }
    AddFills(before, ds[n], order, Height(before));
  }

  lemma AddFills(t: Option<Tree>, d: Device, order: nat, h: nat)
    requires order >= 2
    requires t.Some? ==> WellFormed(t.value, h) && RootFilled(t.value, order, h)
    requires t.None? ==> h == 0
    ensures var t' := Add(t, d, order, h); RootFilled(t', order, Height(Some(t')))
  {
    var t0 := t.GetOr(EmptyLeaf);
    assert WellFormed(t0, h) && KidsFilled(t0, order, h);
    hide WellFormed, KidsFilled, Filled, AddBelow, Height;
    AddBelowFills(t0, d, order, h);
    var (m, s) := AddBelow(t0, d, order, h);
    if s.None? { HeightIs(m, h); } else { NewRootFilled(m, s.value, order, h); }
  }

  lemma NewRootFilled(n: Tree, s: Split, order: nat, h: nat)
    requires order >= 2 && WellFormed(n, h) && WellFormed(s.tree, h)
    requires Filled(n, order, h) && Filled(s.tree, order, h)
    ensures RootFilled(NewRoot(n, s), order, Height(Some(NewRoot(n, s))))
  {
    HeightIs(n, h);
    assert Height(NewRoot(n, s).left) == h;
  }

  lemma {:induction false} FilledFansOut(t: Tree, level: nat, order: nat, h: nat)
    requires order >= 2 && WellFormed(t, h) && KidsFilled(t, order, h)
    requires |t.entries| < order && |t.entries| >= if level > 0 then MinKeys(order) else 1
    ensures FanOut(t, level, order, h)
    decreases h
  {
    if h > 0 {
      FilledFansOut(t.left.value, level + 1, order, h - 1);
      forall e | e in t.entries ensures FanOut(e.child.value, level + 1, order, h - 1) {
        FilledFansOut(e.child.value, level + 1, order, h - 1);
      }
    }
  }

  lemma {:induction false} RunHeight(ds: seq<Device>, order: nat)
    ensures Height(AddAll(ds, order)) <= |ds|
  {
    if ds != [] {
      hide WellFormed, Add, Height;
      var before := AddAll(ds[..|ds| - 1], order);
      RunHeight(ds[..|ds| - 1], order);
      AddHeight(before, ds[|ds| - 1], order, Height(before));
    }
  }

  /** Below order 2 the root is always over the order: every `add` splits it. */
  lemma {:induction false} SmallOrderSplits(ds: seq<Device>, order: nat)
    requires ds != [] && order < 2
    ensures AddAll(ds, order).value.Len() > order
  {
    hide WellFormed, AddBelow;
    var n := |ds| - 1;
    var before := AddAll(ds[..n], order);
    if n > 0 { SmallOrderSplits(ds[..n], order); }
    SmallOrderAdd(before, ds[n], order, Height(before));
  }

  lemma SmallOrderAdd(t: Option<Tree>, d: Device, order: nat, h: nat)
    requires order < 2
    requires t.Some? ==> WellFormed(t.value, h) && t.value.Len() > order
    requires t.None? ==> h == 0
    ensures Add(t, d, order, h).Len() > order
  {
    var t0 := t.GetOr(EmptyLeaf);
    hide WellFormed, AddBelow, AddEntry;
    AddBelowSteps(t0, d, order, h);
    if h > 0 {
      var r := Rank(t0.entries, d.id);
      var (m, s) := AddBelow(ChildAt(t0, r).value, d, order, h - 1);
      PutBackWellFormed(t0, r, m, s, h);
    }
  }

  /**
    The validity check after any run, duplicates allowed: it succeeds exactly when something was
    added and the order is at least 2. The bound on the run is that of `length`, a `u64`.
  */
  lemma RunIsValid(ds: seq<Device>, order: nat)
    requires |ds| <= USIZE_MAX
    ensures IsValid(AddAll(ds, order), order) <==> ds != [] && order >= 2
  {
    var t := AddAll(ds, order);
    if ds != [] {
      var h := Height(t);
      RunHeight(ds, order);
      ValidateReports(t.value, 0, order, h);
      if order >= 2 {
        RunFills(ds, order);
        FilledFansOut(t.value, 0, order, h);
      } else {
        SmallOrderSplits(ds, order);
      }
    }
  }

  // ---------------------------------------------------------------- the height bound

  lemma {:induction false} EntriesCount(es: seq<Entry>, order: nat, h: nat)
    requires order >= 1 && forall e | e in es :: e.child.Some? && WellFormed(e.child.value, h) && Filled(e.child.value, order, h)
    ensures |FlatEntries(es)| >= |es| * Pow(MinKeys(order) + 1, h + 1)
    decreases h, 4, |es|
  {
    hide Filled, WellFormed, Flat, FlatOption, FlatEntry, Pow;
    var p := Pow(MinKeys(order) + 1, h + 1);
    if es == [] {
      OneMore(0, p);
    } else {
      assert es[0] in es;
      FilledCount(es[0].child.value, order, h);
      EntryLength(es[0]);
      EntriesCount(es[1..], order, h);
      OneMore(|es[1..]|, p);
    }
  }

  lemma EntryLength(e: Entry)
    requires e.child.Some?
    ensures |FlatEntry(e)| == 1 + |Flat(e.child.value)|
  {}

  lemma OneMore(n: nat, p: nat)
    ensures (n + 1) * p == p + n * p && 0 * p == 0
  {}

  lemma {:induction false} NodeCount(t: Tree, order: nat, h: nat)
    requires order >= 1 && WellFormed(t, h) && KidsFilled(t, order, h)
    ensures |Flat(t)| >= (|t.entries| + 1) * Pow(MinKeys(order) + 1, h) - 1
    decreases h, 2
  {
    var p := Pow(MinKeys(order) + 1, h);
    if h == 0 {
      FlatHasEntries(t.entries);
    } else {
      EntriesCount(t.entries, order, h - 1);
      FilledCount(t.left.value, order, h - 1);
      assert |FlatOption(t.left)| + 1 >= p;
      assert (|t.entries| + 1) * p == |t.entries| * p + p;
    }
  }

  lemma {:induction false} FilledCount(t: Tree, order: nat, h: nat)
    requires order >= 1 && WellFormed(t, h) && Filled(t, order, h)
    ensures |Flat(t)| >= Pow(MinKeys(order) + 1, h + 1) - 1
    decreases h, 3
  {
    NodeCount(t, order, h);
    var c := MinKeys(order) + 1;
    var p := Pow(c, h);
    assert (|t.entries| + 1) * p >= c * p by { MulMono(c, |t.entries| + 1, p); }
  }

  lemma MulMono(a: nat, b: nat, p: nat)
    requires a <= b
    ensures a * p <= b * p
  {}

  /** With all leaves at depth `h`, a run of `n` adds satisfies 2 * ceil(order / 2)^h - 1 <= n. */
  lemma HeightBound(ds: seq<Device>, order: nat)
    requires ds != [] && order >= 2
    ensures 2 * Pow((order + 1) / 2, Height(AddAll(ds, order))) - 1 <= |ds|
  {
    hide *;
    var t := AddAll(ds, order);
    RunFills(ds, order);
    RunLength(ds, order);
    RootCount(t.value, order, Height(t));
  }

  lemma RootCount(t: Tree, order: nat, h: nat)
    requires order >= 1 && WellFormed(t, h) && RootFilled(t, order, h)
    ensures |Flat(t)| >= 2 * Pow((order + 1) / 2, h) - 1
  {
    NodeCount(t, order, h);
    MulMono(2, |t.entries| + 1, Pow(MinKeys(order) + 1, h));
  }

  /** `length`: one device for every `add`. */
  lemma RunLength(ds: seq<Device>, order: nat)
    requires ds != []
    ensures |Flat(AddAll(ds, order).value)| == |ds|
  {
    RunKeepsEveryDevice(ds, order);
    FlatSome(AddAll(ds, order).value);
    assert |multiset(FlatOption(AddAll(ds, order)))| == |multiset(ds)|;
  }
}
