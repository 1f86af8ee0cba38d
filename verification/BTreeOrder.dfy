/** What the B-tree stores and in which order: the walk, lookup, and every run of `add`. */
module BTreeOrder {
  import opened Sequences
  import opened Wrappers
  import opened BTree

  /** One level of `add_r`, spelled out. */
  lemma AddBelowSteps(t: Tree, d: Device, order: nat, h: nat)
    requires WellFormed(t, h)
    ensures t.kind == Leaf <==> h == 0
    ensures h == 0 ==> AddBelow(t, d, order, h) == Overflow(t.(entries := AddEntry(t.entries, d.id, Entry(d, None))), order)
    ensures h > 0 ==>
              var r := Rank(t.entries, d.id);
              && ChildAt(t, r).Some? && WellFormed(ChildAt(t, r).value, h - 1)
              && var (n, s) := AddBelow(ChildAt(t, r).value, d, order, h - 1);
                 var t' := PutBack(t, r, n, s);
                 && (t'.Len() > order ==> t'.entries != [])
                 && AddBelow(t, d, order, h) == Overflow(t', order)
  {
    if h > 0 {
      var r := Rank(t.entries, d.id);
      assert r > 0 ==> t.entries[r - 1] in t.entries;
      var (n, s) := AddBelow(ChildAt(t, r).value, d, order, h - 1);
      PutBackWellFormed(t, r, n, s, h);
    }
  }

  // ---------------------------------------------------------------- the walk

  /** The devices in the order `walk` visits them. */
  function Flat(t: Tree): seq<Device>
    decreases t
  {
    FlatOption(t.left) + FlatEntries(t.entries)
  }

  function FlatOption(o: Option<Tree>): seq<Device>
    decreases o
  {
    match o
    case None => []
    case Some(t) => Flat(t)
  }

  function FlatEntry(e: Entry): seq<Device>
    decreases e
  {
    [e.dev] + FlatOption(e.child)
  }

  function FlatEntries(es: seq<Entry>): seq<Device>
    decreases es
  {
    if es == [] then [] else FlatEntry(es[0]) + FlatEntries(es[1..])
  }

  function FlatSplit(s: Option<Split>): seq<Device> {
    match s
    case None => []
    case Some(x) => FlatEntry(Entry(x.dev, Some(x.tree)))
  }

  /** The devices of a node together with what it handed up. */
  function FlatResult(r: (Tree, Option<Split>)): seq<Device> {
    Flat(r.0) + FlatSplit(r.1)
  }

  lemma FlatSome(t: Tree)
    ensures FlatOption(Some(t)) == Flat(t)
  {}

  lemma {:induction false} FlatAppend(a: seq<Entry>, b: seq<Entry>)
    ensures FlatEntries(a + b) == FlatEntries(a) + FlatEntries(b)
  {
    hide FlatEntry, FlatOption, Flat;
    if a == [] {
      assert a + b == b;
    } else {
      FlatAppend(a[1..], b);
      assert (a + b)[0] == a[0] && (a + b)[1..] == a[1..] + b;
      Assoc(FlatEntry(a[0]), FlatEntries(a[1..]), FlatEntries(b));
    }
  }

  lemma FlatSplice(a: seq<Entry>, e: Entry, b: seq<Entry>)
    ensures FlatEntries(a + [e] + b) == FlatEntries(a) + FlatEntry(e) + FlatEntries(b)
  {
    FlatAppend(a + [e], b);
    FlatAppend(a, [e]);
    assert FlatEntries([e]) == FlatEntry(e);
  }

  // ---------------------------------------------------------------- nothing is lost, duplicates allowed

  lemma AddEntryKeeps(es: seq<Entry>, key: nat, e: Entry)
    ensures multiset(FlatEntries(AddEntry(es, key, e))) == multiset(FlatEntries(es)) + multiset(FlatEntry(e))
  {
    var i := Rank(es, key);
    FlatSplice(es[..i], e, es[i..]);
    FlatAppend(es[..i], es[i..]);
    assert es == es[..i] + es[i..];
  }

  lemma {:induction false} ReinsertKeeps(es: seq<Entry>)
    ensures multiset(FlatEntries(Reinsert(es))) == multiset(FlatEntries(es))
  {
    if es != [] {
      ReinsertKeeps(es[1..]);
      AddEntryKeeps(Reinsert(es[1..]), es[0].dev.id, es[0]);
    }
  }

  ghost function Bag(t: Tree): multiset<Device> {
    multiset(Flat(t))
  }

  lemma EntriesBag(a: seq<Entry>, e: Entry, b: seq<Entry>)
    ensures multiset(FlatEntries(a + [e] + b))
         == multiset(FlatEntries(a)) + multiset(FlatEntries(b)) + multiset{e.dev} + multiset(FlatOption(e.child))
  {
    FlatSplice(a, e, b);
  }

  lemma SplitKeeps(t: Tree)
    requires t.entries != []
    ensures Bag(SplitNode(t).0) + multiset{SplitNode(t).1.dev} + Bag(SplitNode(t).1.tree) == Bag(t)
  {
    var m := |t.entries| / 2;
    var es := t.entries;
    assert es == es[..m] + [es[m]] + es[m + 1..];
    EntriesBag(es[..m], es[m], es[m + 1..]);
    ReinsertKeeps(es[m + 1..]);
  }

  lemma ResultBag(n: Tree, s: Option<Split>)
    ensures s.None? ==> multiset(FlatResult((n, s))) == Bag(n)
    ensures s.Some? ==> multiset(FlatResult((n, s))) == Bag(n) + multiset{s.value.dev} + Bag(s.value.tree)
  {
    if s.None? {
      assert FlatResult((n, s)) == Flat(n);
    } else {
      assert FlatOption(Some(s.value.tree)) == Flat(s.value.tree);
    }
  }

  lemma OverflowKeeps(t: Tree, order: nat)
    requires t.Len() > order ==> t.entries != []
    ensures multiset(FlatResult(Overflow(t, order))) == Bag(t)
  {
    var (n, s) := Overflow(t, order);
    ResultBag(n, s);
    if t.Len() > order { SplitKeeps(t); }
  }

  lemma ReplaceKeeps(t: Tree, r: nat, n: Tree)
    requires r <= |t.entries| && ChildAt(t, r).Some?
    ensures Bag(PutBack(t, r, n, None)) + Bag(ChildAt(t, r).value) == Bag(t) + Bag(n)
  {
    hide FlatEntries, Flat, FlatOption, AddEntry;
    var es := t.entries;
    FlatSome(n);
    FlatSome(ChildAt(t, r).value);
    FlatParts(t);
    FlatParts(PutBack(t, r, n, None));
    if r > 0 {
      var e := es[r - 1];
      SplitSeq(es, r - 1);
      EntriesBag(es[..r - 1], e, es[r..]);
      FlatAppend(es[..r - 1], es[r..]);
      AddEntryKeeps(RemoveAt(es, r - 1), e.dev.id, Entry(e.dev, Some(n)));
    }
  }

  lemma FlatParts(t: Tree)
    ensures Bag(t) == multiset(FlatOption(t.left)) + multiset(FlatEntries(t.entries))
  {}

  lemma SplitEntryKeeps(t: Tree, s: Split)
    ensures Bag(t.(entries := AddEntry(t.entries, s.dev.id, Entry(s.dev, Some(s.tree)))))
         == Bag(t) + multiset{s.dev} + Bag(s.tree)
  {
    AddEntryKeeps(t.entries, s.dev.id, Entry(s.dev, Some(s.tree)));
    assert FlatOption(Some(s.tree)) == Flat(s.tree);
  }

  lemma MoveBags(put: multiset<Device>, replaced: multiset<Device>, child: multiset<Device>, t: multiset<Device>,
                 n: multiset<Device>, result: multiset<Device>, up: multiset<Device>)
    requires replaced + child == t + n
    requires put == replaced + up && result == n + up
    ensures put + child == t + result
  {
    assert put + child == (replaced + child) + up;
    assert t + result == (t + n) + up;
  }

  lemma PutBackKeeps(t: Tree, r: nat, n: Tree, s: Option<Split>)
    requires r <= |t.entries| && ChildAt(t, r).Some?
    ensures Bag(PutBack(t, r, n, s)) + Bag(ChildAt(t, r).value) == Bag(t) + multiset(FlatResult((n, s)))
  {
    var t1 := PutBack(t, r, n, None);
    ReplaceKeeps(t, r, n);
    ResultBag(n, s);
    if s.Some? {
      SplitEntryKeeps(t1, s.value);
      MoveBags(Bag(PutBack(t, r, n, s)), Bag(t1), Bag(ChildAt(t, r).value), Bag(t), Bag(n),
               multiset(FlatResult((n, s))), multiset{s.value.dev} + Bag(s.value.tree));
    }
  }

  lemma {:induction false} AddBelowKeeps(t: Tree, d: Device, order: nat, h: nat)
    requires WellFormed(t, h)
    ensures multiset(FlatResult(AddBelow(t, d, order, h))) == Bag(t) + multiset{d}
    decreases h
  {
    hide *;
    AddBelowSteps(t, d, order, h);
    if h == 0 {
      var e := Entry(d, None);
      AddLeafKeeps(t, d);
      OverflowKeeps(t.(entries := AddEntry(t.entries, d.id, e)), order);
    } else {
      var r := Rank(t.entries, d.id);
      var c := ChildAt(t, r).value;
      var (n, s) := AddBelow(c, d, order, h - 1);
      AddBelowKeeps(c, d, order, h - 1);
      PutBackKeeps(t, r, n, s);
      OverflowKeeps(PutBack(t, r, n, s), order);
      CancelBag(Bag(PutBack(t, r, n, s)), Bag(c), Bag(t), multiset{d});
    }
  }

  lemma CancelBag(put: multiset<Device>, child: multiset<Device>, t: multiset<Device>, d: multiset<Device>)
    requires put + child == t + (child + d)
    ensures put == t + d
  {
    forall x ensures put[x] == (t + d)[x] {
      assert (put + child)[x] == (t + (child + d))[x];
    }
  }

  lemma AddLeafKeeps(t: Tree, d: Device)
    ensures Bag(t.(entries := AddEntry(t.entries, d.id, Entry(d, None)))) == Bag(t) + multiset{d}
  {
    AddEntryKeeps(t.entries, d.id, Entry(d, None));
  }

  lemma FlatNewRoot(n: Tree, s: Split)
    ensures Flat(NewRoot(n, s)) == FlatResult((n, Some(s)))
  {
    var e := Entry(s.dev, Some(s.tree));
    assert FlatEntries([e]) == FlatEntry(e) + FlatEntries([]);
  }

  lemma AddKeeps(t: Option<Tree>, d: Device, order: nat, h: nat)
    requires t.Some? ==> WellFormed(t.value, h)
    requires t.None? ==> h == 0
    ensures multiset(Flat(Add(t, d, order, h))) == multiset(FlatOption(t)) + multiset{d}
  {
    var t0 := t.GetOr(EmptyLeaf);
    AddBelowKeeps(t0, d, order, h);
    var (n, s) := AddBelow(t0, d, order, h);
    ResultBag(n, s);
    if s.Some? { FlatNewRoot(n, s.value); }
  }

  // ---------------------------------------------------------------- order

  /** The order of the walk: equal ids may repeat. */
  ghost predicate NonDescending(s: seq<Device>) {
    forall i, j | 0 <= i < j < |s| :: s[i].id <= s[j].id
  }

  ghost predicate Ascending(s: seq<Device>) {
    forall i, j | 0 <= i < j < |s| :: s[i].id < s[j].id
  }

  predicate AtMost(s: seq<Device>, id: nat) {
    forall x | x in s :: x.id <= id
  }

  predicate AtLeast(s: seq<Device>, id: nat) {
    forall x | x in s :: x.id >= id
  }

  predicate Below(s: seq<Device>, id: nat) {
    forall x | x in s :: x.id < id
  }

  predicate Above(s: seq<Device>, id: nat) {
    forall x | x in s :: x.id > id
  }

  ghost predicate AllAtMost(a: seq<Device>, b: seq<Device>) {
    forall x, y | x in a && y in b :: x.id <= y.id
  }

  lemma OrderParts(a: seq<Device>, b: seq<Device>)
    ensures NonDescending(a + b) <==> NonDescending(a) && NonDescending(b) && AllAtMost(a, b)
  {
    var s := a + b;
    if NonDescending(s) {
      forall i, j | 0 <= i < j < |a| ensures a[i].id <= a[j].id { assert s[i] == a[i] && s[j] == a[j]; }
      forall i, j | 0 <= i < j < |b| ensures b[i].id <= b[j].id { assert s[|a| + i] == b[i] && s[|a| + j] == b[j]; }
      forall x, y | x in a && y in b ensures x.id <= y.id {
        var i :| 0 <= i < |a| && a[i] == x;
        var j :| 0 <= j < |b| && b[j] == y;
        assert s[i] == x && s[|a| + j] == y;
      }
    }
  }

  lemma InParts(a: seq<Device>, b: seq<Device>)
    ensures forall x :: x in a + b <==> x in a || x in b
  {}

  ghost predicate KeysSorted(es: seq<Entry>) {
    forall i, j | 0 <= i < j < |es| :: es[i].dev.id <= es[j].dev.id
  }

  ghost predicate KeysAscending(es: seq<Entry>) {
    forall i, j | 0 <= i < j < |es| :: es[i].dev.id < es[j].dev.id
  }

  lemma {:induction false} FlatHasKeys(es: seq<Entry>, i: nat)
    requires i < |es|
    ensures es[i].dev in FlatEntries(es)
  {
    if i > 0 { FlatHasKeys(es[1..], i - 1); }
  }

  lemma {:induction false} FlatHasEntries(es: seq<Entry>)
    ensures |FlatEntries(es)| >= |es|
  {
    if es != [] { FlatHasEntries(es[1..]); }
  }

  lemma FlatAround(es: seq<Entry>, i: nat)
    requires i < |es|
    ensures FlatEntries(es) == FlatEntries(es[..i]) + ([es[i].dev] + (FlatOption(es[i].child) + FlatEntries(es[i + 1..])))
  {
    hide FlatEntries, FlatOption, Flat;
    assert es == es[..i] + [es[i]] + es[i + 1..] by { SplitSeq(es, i); }
    FlatSplice(es[..i], es[i], es[i + 1..]);
    Regroup(FlatEntries(es[..i]), es[i].dev, FlatOption(es[i].child), FlatEntries(es[i + 1..]));
  }

  lemma Regroup(a: seq<Device>, d: Device, c: seq<Device>, b: seq<Device>)
    ensures a + ([d] + c) + b == a + ([d] + (c + b))
  {}

  lemma SortedKeys(t: Tree)
    requires NonDescending(Flat(t))
    ensures NonDescending(FlatEntries(t.entries)) && KeysSorted(t.entries)
  {
    hide FlatEntries, FlatOption, NonDescending, AllAtMost;
    OrderParts(FlatOption(t.left), FlatEntries(t.entries));
    SortedEntries(t.entries);
  }

  lemma SortedEntries(es: seq<Entry>)
    requires NonDescending(FlatEntries(es))
    ensures KeysSorted(es)
  {
    hide FlatEntries, FlatOption, NonDescending;
    forall i, j | 0 <= i < j < |es| ensures es[i].dev.id <= es[j].dev.id {
      var a, b := FlatEntries(es[..j]), FlatOption(es[j].child) + FlatEntries(es[j + 1..]);
      FlatAround(es, j);
      OrderParts(a, [es[j].dev] + b);
      FlatHasKeys(es[..j], i);
      assert es[j].dev in [es[j].dev] + b;
    }
  }

  lemma RankIs(es: seq<Entry>, key: nat, r: nat)
    requires r <= |es| && KeysSorted(es)
    requires r > 0 ==> es[r - 1].dev.id <= key
    requires r < |es| ==> key < es[r].dev.id
    ensures Rank(es, key) == r
  {
    var q := Rank(es, key);
    assert forall i | 0 <= i < r :: es[i].dev.id <= key;
    assert q >= r;
  }

  lemma AddEntrySorted(es: seq<Entry>, e: Entry)
    requires KeysSorted(es)
    ensures KeysSorted(AddEntry(es, e.dev.id, e))
  {
    var r := Rank(es, e.dev.id);
    var t := AddEntry(es, e.dev.id, e);
    assert forall i | 0 <= i < |t| :: t[i] == if i < r then es[i] else if i == r then e else es[i - 1];
    assert forall i | r <= i < |es| :: es[i].dev.id > e.dev.id;
  }

  lemma {:induction false} ReinsertSorted(es: seq<Entry>)
    ensures KeysSorted(Reinsert(es))
  {
    if es != [] {
      ReinsertSorted(es[1..]);
      AddEntrySorted(Reinsert(es[1..]), es[0]);
    }
  }

  lemma {:induction false} ReinsertIdentity(es: seq<Entry>)
    requires KeysAscending(es)
    ensures Reinsert(es) == es
  {
    if es != [] {
      ReinsertIdentity(es[1..]);
      assert Rank(es[1..], es[0].dev.id) == 0;
      assert es == [es[0]] + es[1..];
    }
  }

  // ---------------------------------------------------------------- leaves

  /** No devices below the entries. */
  ghost predicate Childless(es: seq<Entry>) {
    forall e | e in es :: FlatOption(e.child) == []
  }

  lemma {:induction false} LeafDevices(es: seq<Entry>)
    requires Childless(es)
    ensures |FlatEntries(es)| == |es| && forall i | 0 <= i < |es| :: FlatEntries(es)[i] == es[i].dev
  {
    if es != [] {
      forall e | e in es[1..] ensures e in es {}
      LeafDevices(es[1..]);
      assert es[0] in es && FlatEntry(es[0]) == [es[0].dev];
      assert forall i | 0 < i < |es| :: es[i] == es[1..][i - 1];
    }
  }

  lemma LeafFlat(es: seq<Entry>)
    requires Childless(es)
    ensures |FlatEntries(es)| == |es| && forall i | 0 <= i < |es| :: FlatEntries(es)[i] == es[i].dev
    ensures NonDescending(FlatEntries(es)) <==> KeysSorted(es)
  {
    hide FlatEntries, Childless;
    LeafDevices(es);
    var s := FlatEntries(es);
    if NonDescending(s) {
      forall i, j | 0 <= i < j < |es| ensures es[i].dev.id <= es[j].dev.id { assert s[i].id <= s[j].id; }
    }
  }

  lemma LeafAdds(t: Tree, d: Device)
    requires WellFormed(t, 0) && NonDescending(Flat(t))
    ensures NonDescending(Flat(t.(entries := AddEntry(t.entries, d.id, Entry(d, None)))))
  {
    var t' := t.(entries := AddEntry(t.entries, d.id, Entry(d, None)));
    FlatOfLeaf(t);
    FlatOfLeaf(t');
    LeafFlat(t.entries);
    AddEntrySorted(t.entries, Entry(d, None));
    LeafFlat(t'.entries);
  }

  lemma FlatOfLeaf(t: Tree)
    requires t.left == None
    ensures Flat(t) == FlatEntries(t.entries)
  {}

  lemma LeafWithin(es: seq<Entry>, id: nat)
    requires Childless(es)
    ensures (forall e | e in es :: e.dev.id <= id) ==> AtMost(FlatEntries(es), id)
    ensures (forall e | e in es :: e.dev.id >= id) ==> AtLeast(FlatEntries(es), id)
  {
    LeafFlat(es);
    var s := FlatEntries(es);
    hide FlatEntries, NonDescending, KeysSorted, Childless;
    forall x | x in s ensures exists e :: e in es && e.dev == x {
      var i :| 0 <= i < |s| && s[i] == x;
      assert es[i] in es;
    }
  }

  lemma FlatNothing()
    ensures FlatOption(None) == [] && FlatEntries([]) == []
  {}

  /** A leaf that splits stays in order: reinserting its upper entries only swaps equal ids. */
  lemma LeafSplits(t: Tree)
    requires WellFormed(t, 0) && NonDescending(Flat(t)) && t.entries != []
    ensures NonDescending(FlatResult((SplitNode(t).0, Some(SplitNode(t).1))))
  {
    hide NonDescending, FlatEntries, FlatOption, Flat, KeysSorted, Reinsert, AtMost, AtLeast;
    var es, m := t.entries, |t.entries| / 2;
    var (n, s) := SplitNode(t);
    var low, high := es[..m], Reinsert(es[m + 1..]);
    FlatNothing();
    assert es[m] in es;
    SortedKeys(t);
    SplitParts(es, m);
    LeafFlat(low);
    LeafWithin(low, s.dev.id);
    ReinsertSorted(es[m + 1..]);
    LeafFlat(high);
    LeafWithin(high, s.dev.id);
    FlatOfLeaf(n);
    FlatOfLeaf(s.tree);
    FlatSome(s.tree);
    JoinAround(FlatEntries(low), s.dev, FlatEntries(high));
  }

  lemma SplitParts(es: seq<Entry>, m: nat)
    requires KeysSorted(es) && m < |es|
    ensures KeysSorted(es[..m])
    ensures forall e | e in es[..m] :: e.dev.id <= es[m].dev.id
    ensures forall e | e in es[m + 1..] :: e.dev.id >= es[m].dev.id
  {}

  lemma JoinAround(a: seq<Device>, d: Device, b: seq<Device>)
    requires NonDescending(a) && NonDescending(b) && AtMost(a, d.id) && AtLeast(b, d.id)
    ensures NonDescending(a + ([d] + b))
  {
    OrderParts([d], b);
    OrderParts(a, [d] + b);
  }

  // ---------------------------------------------------------------- one level of insertion

  /** A node that overflows hands up its devices in order, if reinserting its upper entries changes nothing. */
  lemma FlatSplitNode(t: Tree)
    requires t.entries != [] && Reinsert(t.entries[|t.entries| / 2 + 1..]) == t.entries[|t.entries| / 2 + 1..]
    ensures var (n, s) := SplitNode(t); FlatResult((n, Some(s))) == Flat(t)
  {
    var m := |t.entries| / 2;
    var (n, s) := SplitNode(t);
    assert FlatOption(Some(s.tree)) == Flat(s.tree);
    hide FlatEntries, FlatOption, Reinsert;
    FlatAround(t.entries, m);
    var a, b, c, d := FlatOption(t.left), FlatEntries(n.entries), FlatOption(s.tree.left), FlatEntries(s.tree.entries);
    Assoc(a, b, [s.dev] + (c + d));
  }

  /** The first `r` entries, with `n` for the subtree of the last of them. */
  function Replaced(es: seq<Entry>, r: nat, n: Tree): (a: seq<Entry>)
    requires r <= |es|
    ensures |a| == r
    ensures forall i | 0 <= i < r :: a[i] == if i == r - 1 then Entry(es[i].dev, Some(n)) else es[i]
  {
    if r == 0 then [] else es[..r - 1] + [Entry(es[r - 1].dev, Some(n))]
  }

  /** The entries after `PutBack`: the split goes right behind the subtree it came from. */
  lemma PutBackEntries(t: Tree, r: nat, n: Tree, s: Option<Split>)
    requires r <= |t.entries| && KeysSorted(t.entries)
    requires 0 < r < |t.entries| ==> t.entries[r - 1].dev.id < t.entries[r].dev.id
    requires s.Some? && r > 0 ==> t.entries[r - 1].dev.id <= s.value.dev.id
    requires s.Some? && r < |t.entries| ==> s.value.dev.id < t.entries[r].dev.id
    ensures PutBack(t, r, n, s).entries == Replaced(t.entries, r, n) + UpEntries(s) + t.entries[r..]
  {
    hide AddEntry, RemoveAt, KeysSorted;
    var es := t.entries;
    var t1 := PutBack(t, r, n, None);
    var before := Replaced(es, r, n);
    if r > 0 { ReplaceEntry(es, r, n); }
    assert t1.entries == before + es[r..];
    if s.Some? {
      KeysOfReplaced(es, r, before);
      SpliceEntry(before, es[r..], Entry(s.value.dev, Some(s.value.tree)));
    }
  }

  lemma KeysOfReplaced(es: seq<Entry>, r: nat, before: seq<Entry>)
    requires r <= |es| && |before| == r && KeysSorted(es)
    requires r > 0 ==> before[..r - 1] == es[..r - 1] && before[r - 1].dev == es[r - 1].dev
    ensures KeysSorted(before + es[r..])
  {
    assert forall i | 0 <= i < r - 1 :: before[i] == before[..r - 1][i] == es[i];
    assert forall i | 0 <= i < |es| :: (before + es[r..])[i].dev == es[i].dev;
  }

  lemma SpliceEntry(a: seq<Entry>, b: seq<Entry>, e: Entry)
    requires KeysSorted(a + b)
    requires a != [] ==> a[|a| - 1].dev.id <= e.dev.id
    requires b != [] ==> e.dev.id < b[0].dev.id
    ensures AddEntry(a + b, e.dev.id, e) == a + [e] + b
  {
    RankIs(a + b, e.dev.id, |a|);
  }

  lemma ReplaceEntry(es: seq<Entry>, r: nat, n: Tree)
    requires 0 < r <= |es| && KeysSorted(es) && (r < |es| ==> es[r - 1].dev.id < es[r].dev.id)
    ensures AddEntry(RemoveAt(es, r - 1), es[r - 1].dev.id, Entry(es[r - 1].dev, Some(n)))
         == es[..r - 1] + [Entry(es[r - 1].dev, Some(n))] + es[r..]
  {
    var rest := RemoveAt(es, r - 1);
    assert rest[..r - 1] == es[..r - 1] && rest[r - 1..] == es[r..];
    assert KeysSorted(rest);
    assert r < |es| ==> rest[r - 1] == es[r];
    assert r > 1 ==> rest[r - 2] == es[r - 2];
    RankIs(rest, es[r - 1].dev.id, r - 1);
  }

  /** Everything before the subtree at rank `r`. */
  function Before(t: Tree, r: nat): seq<Device>
    requires r <= |t.entries|
  {
    if r == 0 then [] else FlatOption(t.left) + FlatEntries(t.entries[..r - 1]) + [t.entries[r - 1].dev]
  }

  lemma FlatAt(t: Tree, r: nat)
    requires r <= |t.entries|
    ensures Flat(t) == Before(t, r) + FlatOption(ChildAt(t, r)) + FlatEntries(t.entries[r..])
  {
    hide FlatEntries, FlatOption;
    var es := t.entries;
    if r == 0 {
      assert es[0..] == es;
      Assoc([], FlatOption(t.left), FlatEntries(es));
    } else {
      FlatAround(es, r - 1);
      assert es[r - 1 + 1..] == es[r..];
    }
  }

  lemma Neighbours(t: Tree, r: nat)
    requires r <= |t.entries|
    ensures Before(t, r) == [] <==> r == 0
    ensures r > 0 ==> Before(t, r)[|Before(t, r)| - 1] == t.entries[r - 1].dev
    ensures FlatEntries(t.entries[r..]) == [] <==> r == |t.entries|
    ensures r < |t.entries| ==> FlatEntries(t.entries[r..])[0] == t.entries[r].dev
  {}

  lemma FlatPutBack(t: Tree, r: nat, n: Tree, s: Option<Split>)
    requires r <= |t.entries| && KeysSorted(t.entries)
    requires 0 < r < |t.entries| ==> t.entries[r - 1].dev.id < t.entries[r].dev.id
    requires s.Some? && r > 0 ==> t.entries[r - 1].dev.id <= s.value.dev.id
    requires s.Some? && r < |t.entries| ==> s.value.dev.id < t.entries[r].dev.id
    ensures Flat(PutBack(t, r, n, s)) == Before(t, r) + FlatResult((n, s)) + FlatEntries(t.entries[r..])
  {
    hide FlatEntries, FlatOption, FlatSplit, KeysSorted, AddEntry, RemoveAt;
    PutBackEntries(t, r, n, s);
    var es := t.entries;
    var up := UpEntries(s);
    FlatUp(s);
    FlatSome(n);
    FlatAppend(up, es[r..]);
    var t' := PutBack(t, r, n, s);
    if r == 0 {
      assert t'.left == Some(n) && t'.entries == up + es[r..];
      Assoc(Flat(n), FlatSplit(s), FlatEntries(es[r..]));
    } else {
      var e := Entry(es[r - 1].dev, Some(n));
      assert t'.left == t.left && t'.entries == es[..r - 1] + [e] + (up + es[r..]);
      FlatSplice(es[..r - 1], e, up + es[r..]);
      Regroup3(FlatOption(t.left), FlatEntries(es[..r - 1]), e.dev, Flat(n), FlatSplit(s), FlatEntries(es[r..]));
    }
  }

  function UpEntries(s: Option<Split>): seq<Entry> {
    if s.Some? then [Entry(s.value.dev, Some(s.value.tree))] else []
  }

  lemma FlatUp(s: Option<Split>)
    ensures FlatEntries(UpEntries(s)) == FlatSplit(s)
  {}

  lemma Regroup3(l: seq<Device>, a: seq<Device>, d: Device, n: seq<Device>, u: seq<Device>, b: seq<Device>)
    ensures l + (a + ([d] + n) + (u + b)) == (l + a + [d]) + (n + u) + b
  {}

  /** The parts of an ordered tree around the subtree at the rank of an id, and how they compare with it. */
  lemma AroundRank(t: Tree, id: nat)
    requires NonDescending(Flat(t))
    ensures var r := Rank(t.entries, id);
            var (a, c, b) := (Before(t, r), FlatOption(ChildAt(t, r)), FlatEntries(t.entries[r..]));
            && KeysSorted(t.entries) && Flat(t) == a + c + b
            && NonDescending(a) && NonDescending(c) && NonDescending(b)
            && AllAtMost(a, c) && AllAtMost(a, b) && AllAtMost(c, b)
            && AtMost(a, id) && Above(b, id)
            && (r > 0 ==> t.entries[r - 1].dev in a && AtLeast(c, t.entries[r - 1].dev.id))
            && (r < |t.entries| ==> t.entries[r].dev in b && AtMost(c, t.entries[r].dev.id))
            && ((forall e | e in t.entries :: e.dev.id != id) ==> Below(a, id))
  {
    hide Flat, FlatEntries, FlatOption, Before, KeysSorted, NonDescending;
    var r := Rank(t.entries, id);
    var a, c, b := Before(t, r), FlatOption(ChildAt(t, r)), FlatEntries(t.entries[r..]);
    SortedKeys(t);
    FlatAt(t, r);
    Neighbours(t, r);
    assert r > 0 ==> t.entries[r - 1] in t.entries;
    OrderParts(a + c, b);
    OrderParts(a, c);
    InParts(a, c);
    if r > 0 { LastIsGreatest(a); }
    if r < |t.entries| { FirstIsLeast(b); }
  }

  lemma LastIsGreatest(a: seq<Device>)
    requires NonDescending(a) && a != []
    ensures a[|a| - 1] in a && AtMost(a, a[|a| - 1].id)
  {}

  lemma FirstIsLeast(b: seq<Device>)
    requires NonDescending(b) && b != []
    ensures b[0] in b && AtLeast(b, b[0].id)
  {}

  /** The parts around a subtree stay in order when one device joins the subtree. */
  lemma PartsKeepOrder(a: seq<Device>, c: seq<Device>, b: seq<Device>, m: seq<Device>, d: Device)
    requires NonDescending(a) && NonDescending(m) && NonDescending(b)
    requires AllAtMost(a, c) && AllAtMost(a, b) && AllAtMost(c, b) && AtMost(a, d.id) && Above(b, d.id)
    requires forall x | x in m :: x in c || x == d
    ensures NonDescending(a + m + b)
  {
    hide NonDescending;
    OrderParts(a, m);
    InParts(a, m);
    OrderParts(a + m, b);
  }

  /** One level of `add_r` keeps the order, if what the child hands up belongs before the next key. */
  lemma LevelKeepsOrder(t: Tree, d: Device, n: Tree, s: Option<Split>)
    requires NonDescending(Flat(t)) && NonDescending(FlatResult((n, s)))
    requires var r := Rank(t.entries, d.id);
             && multiset(FlatResult((n, s))) == multiset(FlatOption(ChildAt(t, r))) + multiset{d}
             && (s.Some? && r < |t.entries| ==> s.value.dev.id < t.entries[r].dev.id)
    ensures var r := Rank(t.entries, d.id);
            NonDescending(Flat(PutBack(t, r, n, s))) && (s.Some? && r > 0 ==> t.entries[r - 1].dev.id <= s.value.dev.id)
  {
    hide Flat, FlatEntries, FlatOption, FlatResult, NonDescending, KeysSorted, Before, Rank, PutBack, ChildAt, AllAtMost;
    var r := Rank(t.entries, d.id);
    var a, c, b, m := Before(t, r), FlatOption(ChildAt(t, r)), FlatEntries(t.entries[r..]), FlatResult((n, s));
    AroundRank(t, d.id);
    forall x | x in m ensures x in c || x == d { assert x in multiset(m); }
    if s.Some? { UpInResult(n, s); }
    FlatPutBack(t, r, n, s);
    PartsKeepOrder(a, c, b, m, d);
  }

  lemma UpInResult(n: Tree, s: Option<Split>)
    requires s.Some?
    ensures s.value.dev in FlatResult((n, s))
  {
    assert s.value.dev in Flat(n) + FlatSplit(s);
  }
}
