/** One copy too many: runs that hide a device, at every order but 0, 1 and 3. */
module BTreeCopies {
  import opened Wrappers
  import opened BTree
  import opened BTreeOrder
  import opened BTreeSorted
  import opened BTreeThrees
  import opened BTreeRuns
  import opened BTreeLimits

  function D(id: nat): Device {
    Device(id, "", "")
  }

  function Rep<T>(x: T, n: nat): (s: seq<T>)
    ensures |s| == n && forall i | 0 <= i < n :: s[i] == x
  {
    seq(n, i => x)
  }

  function Plain(s: seq<Device>): (es: seq<Entry>)
    ensures |es| == |s| && forall i | 0 <= i < |s| :: es[i] == Entry(s[i], None)
  {
    seq(|s|, i requires 0 <= i < |s| => Entry(s[i], None))
  }

  function PlainLeaf(s: seq<Device>): Tree {
    Tree(Leaf, None, Plain(s))
  }

  // ---------------------------------------------------------------- leaves

  lemma ReinsertRep(x: Device, n: nat)
    ensures Reinsert(Plain(Rep(x, n))) == Plain(Rep(x, n))
  {
    var es := Plain(Rep(x, n));
    var r := Reinsert(es);
    forall i | 0 <= i < n ensures r[i] == Entry(x, None) {
      assert r[i] in r;
    }
  }

  lemma AddToPlain(a: seq<Device>, b: seq<Device>, x: Device)
    requires AtMost(a, x.id) && Above(b, x.id)
    ensures AddEntry(Plain(a + b), x.id, Entry(x, None)) == Plain(a + [x] + b)
  {
    var es := Plain(a + b);
    assert forall i | 0 <= i < |a| :: es[i].dev == a[i] && a[i] in a;
    assert b != [] ==> es[|a|].dev == b[0] && b[0] in b;
    RankOf(es, x.id, |a|);
  }

  lemma RankOf(es: seq<Entry>, key: nat, r: nat)
    requires r <= |es| && forall i | 0 <= i < r :: es[i].dev.id <= key
    requires r < |es| ==> key < es[r].dev.id
    ensures Rank(es, key) == r
  {}

  /** What `add_r` makes of a leaf that stays within the order. */
  lemma LeafTakes(a: seq<Device>, b: seq<Device>, x: Device, order: nat)
    requires AtMost(a, x.id) && Above(b, x.id) && |a| + |b| + 2 <= order
    ensures AddBelow(PlainLeaf(a + b), x, order, 0) == (PlainLeaf(a + [x] + b), None)
  {
    AddToPlain(a, b, x);
  }

  /** What `add_r` makes of a leaf that comes to `order` devices, the upper ones being alike. */
  lemma LeafParts(a: seq<Device>, b: seq<Device>, x: Device, order: nat, low: seq<Device>, y: Device, z: Device, n: nat)
    requires AtMost(a, x.id) && Above(b, x.id)
    requires a + [x] + b == low + [y] + Rep(z, n) && |low| == order / 2 && |low| + 1 + n == order
    ensures AddBelow(PlainLeaf(a + b), x, order, 0) == (PlainLeaf(low), Some(Split(y, PlainLeaf(Rep(z, n)))))
  {
    hide AddEntry, Reinsert, Rep, Plain;
    AddToPlain(a, b, x);
    ReinsertRep(z, n);
    SplitPlain(low, y, Rep(z, n), order);
  }

  lemma SplitPlain(low: seq<Device>, y: Device, up: seq<Device>, order: nat)
    requires |low| == order / 2 && |low| + 1 + |up| == order && Reinsert(Plain(up)) == Plain(up)
    ensures Overflow(PlainLeaf(low + [y] + up), order) == (PlainLeaf(low), Some(Split(y, PlainLeaf(up))))
  {
    hide Reinsert;
    var es := Plain(low + [y] + up);
    assert es[..|low|] == Plain(low);
    assert es[|low| + 1..] == Plain(up);
  }

  lemma {:induction false} LeafRun(s: seq<Device>, order: nat)
    requires 0 < |s| < order && NonDescending(s)
    ensures AddAll(s, order) == Some(PlainLeaf(s))
  {
    hide AddBelow, WellFormed, AddAll, NonDescending;
    var n := |s| - 1;
    var x := s[n];
    AllBut(s);
    AddOne(s[..n], x, order);
    LeafTakes(s[..n], [], x, order);
    if n > 0 {
      LeafRun(s[..n], order);
    } else {
      LastAdd([], order);
      assert PlainLeaf([]) == EmptyLeaf;
    }
  }

  lemma AllBut(s: seq<Device>)
    requires s != [] && NonDescending(s)
    ensures var n := |s| - 1;
            && s == s[..n] + [s[n]] == s[..n] + [s[n]] + [] && s[..n] == s[..n] + []
            && NonDescending(s[..n]) && AtMost(s[..n], s[n].id)
  {
    var n := |s| - 1;
    assert s == s[..n] + [s[n]];
    OrderParts(s[..n], [s[n]]);
    assert s[n] in [s[n]];
  }

  // ---------------------------------------------------------------- even orders

  /** A root over plain leaves. */
  function Two(left: seq<Device>, es: seq<Entry>): Tree {
    Tree(Regular, Some(PlainLeaf(left)), es)
  }

  function Over(key: Device, leaf: seq<Device>): Entry {
    Entry(key, Some(PlainLeaf(leaf)))
  }

  lemma RepMore<T>(x: T, n: nat)
    ensures Rep(x, n + 1) == Rep(x, n) + [x] == [x] + Rep(x, n)
  {}

  /** One id too often, then ids above it, then ids below it. */
  function EvenRun(c: nat): seq<Device>
    requires c > 0
  {
    Rep(D(1), c + 1) + Rep(D(2), c - 1) + Rep(D(0), c)
  }

  /** The first leaf splits between equal ids. */
  lemma EvenSplit(c: nat)
    requires c >= 2
    ensures AddAll(Rep(D(1), c + 1) + Rep(D(2), c - 1), 2 * c) == Some(Two(Rep(D(1), c), [Over(D(1), Rep(D(2), c - 1))]))
  {
    hide AddBelow, WellFormed, AddAll, Height, NonDescending;
    var a, x := Rep(D(1), c + 1) + Rep(D(2), c - 2), D(2);
    RepMore(D(2), c - 2);
    RepMore(D(1), c);
    assert a + [x] + [] == a + [x] == Rep(D(1), c + 1) + Rep(D(2), c - 1);
    assert a + [x] + [] == Rep(D(1), c) + [D(1)] + Rep(D(2), c - 1);
    assert a + [] == a;
    EvenStart(c);
    LeafRun(a, 2 * c);
    AddOne(a, x, 2 * c);
    assert Height(Some(PlainLeaf(a))) == 0 by { HeightOfLeaf(a); }
    LeafParts(a, [], x, 2 * c, Rep(D(1), c), D(1), D(2), c - 1);
  }

  lemma EvenStart(c: nat)
    requires c >= 2
    ensures NonDescending(Rep(D(1), c + 1) + Rep(D(2), c - 2)) && AtMost(Rep(D(1), c + 1) + Rep(D(2), c - 2), 2)
  {}

  lemma HeightOfLeaf(s: seq<Device>)
    ensures Height(Some(PlainLeaf(s))) == 0
  {}

  lemma TwoWellFormed(left: seq<Device>, es: seq<Entry>)
    requires forall e | e in es :: e.child.Some? && WellFormed(e.child.value, 0)
    ensures WellFormed(Two(left, es), 1) && Height(Some(Two(left, es))) == 1
  {}

  /** An id below every key of the root goes into its left child. */
  lemma IntoLeft(left: seq<Device>, es: seq<Entry>, x: Device, order: nat, n: Tree, s: Option<Split>)
    requires forall e | e in es :: e.child.Some? && WellFormed(e.child.value, 0)
    requires es != [] && x.id < es[0].dev.id && |es| + 1 < order
    requires AddBelow(PlainLeaf(left), x, order, 0) == (n, s)
    ensures WellFormed(Two(left, es), 1) && Height(Some(Two(left, es))) == 1
    ensures AddBelow(Two(left, es), x, order, 1)
         == (Tree(Regular, Some(n), if s.None? then es else AddEntry(es, s.value.dev.id, Entry(s.value.dev, Some(s.value.tree)))),
             None)
  {
    hide AddBelow, AddEntry;
    TwoWellFormed(left, es);
    AddBelowSteps(Two(left, es), x, order, 1);
    RankOf(es, x.id, 0);
  }

  /** Smaller ids fill the left leaf. */
  lemma {:induction false} EvenFill(c: nat, j: nat)
    requires c >= 2 && j < c
    ensures AddAll(Rep(D(1), c + 1) + Rep(D(2), c - 1) + Rep(D(0), j), 2 * c)
         == Some(Two(Rep(D(0), j) + Rep(D(1), c), [Over(D(1), Rep(D(2), c - 1))]))
  {
    hide AddBelow, WellFormed, AddAll, Height, Rep;
    var s, es := Rep(D(1), c + 1) + Rep(D(2), c - 1), [Over(D(1), Rep(D(2), c - 1))];
    if j == 0 {
      EvenSplit(c);
      assert Rep(D(0), 0) == [];
      assert s + [] == s && [] + Rep(D(1), c) == Rep(D(1), c);
    } else {
      EvenFill(c, j - 1);
      RepMore(D(0), j - 1);
      assert s + Rep(D(0), j) == s + Rep(D(0), j - 1) + [D(0)];
      AddOne(s + Rep(D(0), j - 1), D(0), 2 * c);
      LeafTakes(Rep(D(0), j - 1), Rep(D(1), c), D(0), 2 * c);
      LeafWellFormed(Rep(D(2), c - 1));
      IntoLeft(Rep(D(0), j - 1) + Rep(D(1), c), es, D(0), 2 * c, PlainLeaf(Rep(D(0), j) + Rep(D(1), c)), None);
    }
  }

  lemma LeafWellFormed(s: seq<Device>)
    ensures WellFormed(PlainLeaf(s), 0)
  {}

  /** The left leaf splits at another equal id, which goes behind the first one: two subtrees have changed places. */
  lemma EvenSwaps(c: nat)
    requires c >= 2
    ensures AddAll(EvenRun(c), 2 * c)
         == Some(Two(Rep(D(0), c), [Over(D(1), Rep(D(2), c - 1)), Over(D(1), Rep(D(1), c - 1))]))
  {
    hide AddBelow, WellFormed, AddAll, Height, Rep;
    var s, es := Rep(D(1), c + 1) + Rep(D(2), c - 1), [Over(D(1), Rep(D(2), c - 1))];
    var a, b := Rep(D(0), c - 1), Rep(D(1), c);
    EvenFill(c, c - 1);
    RepMore(D(0), c - 1);
    RepMore(D(1), c - 1);
    assert EvenRun(c) == s + a + [D(0)];
    AddOne(s + a, D(0), 2 * c);
    assert a + [D(0)] + b == Rep(D(0), c) + [D(1)] + Rep(D(1), c - 1);
    LeafParts(a, b, D(0), 2 * c, Rep(D(0), c), D(1), D(1), c - 1);
    LeafWellFormed(Rep(D(2), c - 1));
    var up := Over(D(1), Rep(D(1), c - 1));
    IntoLeft(a + b, es, D(0), 2 * c, PlainLeaf(Rep(D(0), c)), Some(Split(D(1), up.child.value)));
    AddToOne(es[0], up);
  }

  /** A search above every key of a node goes to its last child. */
  lemma FindAbove(t: Tree, id: nat)
    requires t.kind == Regular && t.entries != [] && forall e | e in t.entries :: e.dev.id < id
    ensures Find(t, id) == FindOption(t.entries[|t.entries| - 1].child, id)
  {
    FirstWithAnswers(t.entries, id);
    NoneWith(t.entries, id);
    RankOf(t.entries, id, |t.entries|);
  }

  lemma {:induction false} NoneWith(es: seq<Entry>, id: nat)
    requires forall e | e in es :: e.dev.id != id
    ensures FirstWith(es, id) == None
  {
    if es != [] {
      assert es[0] in es;
      forall e | e in es[1..] ensures e in es {}
      NoneWith(es[1..], id);
    }
  }

  lemma FindNotInLeaf(s: seq<Device>, id: nat)
    requires forall x | x in s :: x.id != id
    ensures FindOption(Some(PlainLeaf(s)), id) == None
  {
    forall e | e in Plain(s) ensures e.dev.id != id {
      assert e.dev in s;
    }
    NoneWith(Plain(s), id);
  }

  lemma EvenMisses(c: nat)
    requires c >= 2
    ensures FindOption(AddAll(EvenRun(c), 2 * c), 2) == None && D(2) in EvenRun(c) && Few(EvenRun(c), c + 1)
  {
    EvenSwaps(c);
    var t := Two(Rep(D(0), c), [Over(D(1), Rep(D(2), c - 1)), Over(D(1), Rep(D(1), c - 1))]);
    hide Find, AddAll, Few;
    FindAbove(t, 2);
    FindNotInLeaf(Rep(D(1), c - 1), 2);
    EvenCopies(c);
    assert Rep(D(2), c - 1)[0] == D(2);
  }

  lemma {:induction false} CopiesRep(i: nat, n: nat, id: nat)
    ensures Copies(Rep(D(i), n), id) == if i == id then n else 0
  {
    if n > 0 {
      RepMore(D(i), n - 1);
      CopiesRep(i, n - 1, id);
      assert Rep(D(i), n)[1..] == Rep(D(i), n - 1);
    }
  }

  lemma EvenCopies(c: nat)
    requires c >= 2
    ensures Few(EvenRun(c), c + 1)
  {
    hide Copies, Rep;
    forall id ensures Copies(EvenRun(c), id) <= c + 1 {
      CopiesAppend(Rep(D(1), c + 1) + Rep(D(2), c - 1), Rep(D(0), c), id);
      CopiesAppend(Rep(D(1), c + 1), Rep(D(2), c - 1), id);
      CopiesRep(0, c, id);
      CopiesRep(1, c + 1, id);
      CopiesRep(2, c - 1, id);
    }
  }

  // ---------------------------------------------------------------- odd orders

  /** `q + 1` devices under each of the ids from 1 to `i`, and `q` under 0. */
  function Groups(q: nat, i: nat): (s: seq<Device>)
    ensures forall x | x in s :: x.id <= i
  {
    if i == 0 then Rep(D(0), q) else Groups(q, i - 1) + Rep(D(i), q + 1)
  }

  /** The keys and leaves they come to at order `2 * q + 1`. */
  function GroupKeys(q: nat, i: nat): (es: seq<Entry>)
    ensures |es| == i
    ensures forall j | 0 <= j < i :: es[j] == Over(D(j + 1), Rep(D(j + 1), q))
  {
    if i == 0 then [] else GroupKeys(q, i - 1) + [Over(D(i), Rep(D(i), q))]
  }

  /** A root whose last leaf is `l`, and whose keys are in order and at most `id`. */
  ghost predicate Comb(front: seq<Entry>, k: Device, id: nat) {
    && (forall e | e in front :: e.child.Some? && WellFormed(e.child.value, 0) && e.dev.id <= id)
    && KeysSorted(front + [Over(k, [])]) && k.id <= id
  }

  function CombOf(left: seq<Device>, front: seq<Entry>, k: Device, l: seq<Device>): Tree {
    Two(left, front + [Over(k, l)])
  }

  lemma CombWellFormed(left: seq<Device>, front: seq<Entry>, k: Device, l: seq<Device>, id: nat)
    requires Comb(front, k, id)
    ensures var t := CombOf(left, front, k, l);
            && WellFormed(t, 1) && Height(Some(t)) == 1
            && KeysSorted(t.entries) && Rank(t.entries, id) == |t.entries|
  {
    var es := front + [Over(k, l)];
    LeafWellFormed(l);
    TwoWellFormed(left, es);
    hide WellFormed;
    assert forall i | 0 <= i < |es| :: es[i].dev == (front + [Over(k, [])])[i].dev;
    assert forall i | 0 <= i < |front| :: es[i] == front[i] && front[i] in front;
    RankOf(es, id, |es|);
  }

  /** An id no smaller than any key goes into the last child. */
  lemma IntoRight(left: seq<Device>, front: seq<Entry>, k: Device, l: seq<Device>, x: Device, order: nat,
                  n: Tree, s: Option<Split>)
    requires Comb(front, k, x.id) && order > 0
    requires AddBelow(PlainLeaf(l), x, order, 0) == (n, s) && (s.Some? ==> k.id <= s.value.dev.id)
    ensures var t := CombOf(left, front, k, l);
            && WellFormed(t, 1) && Height(Some(t)) == 1
            && AddBelow(t, x, order, 1) == Overflow(Two(left, front + [Entry(k, Some(n))] + UpEntries(s)), order)
  {
    hide AddBelow, AddEntry, PutBack, KeysSorted, Comb, WellFormed, Replaced;
    var t := CombOf(left, front, k, l);
    var es := t.entries;
    var r := |es|;
    CombWellFormed(left, front, k, l, x.id);
    AddBelowSteps(t, x, order, 1);
    PutBackEntries(t, r, n, s);
    PutBackKind(t, r, n, s);
    assert es[r - 1] == Over(k, l);
    assert Replaced(es, r, n) == front + [Entry(k, Some(n))];
    assert Replaced(es, r, n) + UpEntries(s) + es[r..] == front + [Entry(k, Some(n))] + UpEntries(s);
  }

  lemma PutBackKind(t: Tree, r: nat, n: Tree, s: Option<Split>)
    requires 0 < r <= |t.entries|
    ensures PutBack(t, r, n, s).left == t.left && PutBack(t, r, n, s).kind == t.kind
  {}

  lemma {:induction false} CombFills(ds: seq<Device>, left: seq<Device>, front: seq<Entry>, k: Device, l: seq<Device>,
                                     x: Device, j: nat, order: nat)
    requires AddAll(ds, order) == Some(CombOf(left, front, k, l)) && Comb(front, k, x.id)
    requires AtMost(l, x.id) && |l| + j < order && |front| + 2 <= order
    ensures AddAll(ds + Rep(x, j), order) == Some(CombOf(left, front, k, l + Rep(x, j)))
  {
    hide AddBelow, WellFormed, AddAll, Height, Rep, Comb;
    if j == 0 {
      assert ds + Rep(x, j) == ds && l + Rep(x, j) == l;
    } else {
      var l' := l + Rep(x, j - 1);
      CombFills(ds, left, front, k, l, x, j - 1, order);
      RepMore(x, j - 1);
      assert ds + Rep(x, j) == ds + Rep(x, j - 1) + [x];
      assert l + Rep(x, j) == l' + [x] == l' + [x] + [] && l' + [] == l';
      AddOne(ds + Rep(x, j - 1), x, order);
      LeafTakes(l', [], x, order);
      IntoRight(left, front, k, l', x, order, PlainLeaf(l' + [x]), None);
      assert front + [Over(k, l' + [x])] + UpEntries(None) == front + [Over(k, l' + [x])];
    }
  }

  lemma GroupsComb(q: nat, i: nat, id: nat)
    requires 0 < i <= id
    ensures Comb(GroupKeys(q, i - 1), D(i), id)
  {
    var front := GroupKeys(q, i - 1);
    forall e | e in front ensures e.child.Some? && WellFormed(e.child.value, 0) && e.dev.id <= id {
      var j :| 0 <= j < i - 1 && front[j] == e;
      LeafWellFormed(Rep(D(j + 1), q));
    }
  }

  lemma FirstGroup(q: nat)
    requires q > 0
    ensures AddAll(Groups(q, 1), 2 * q + 1) == Some(CombOf(Rep(D(0), q), [], D(1), Rep(D(1), q)))
  {
    hide AddBelow, WellFormed, AddAll, NonDescending, Height;
    var a := Rep(D(0), q) + Rep(D(1), q);
    RepMore(D(1), q);
    assert Groups(q, 1) == Groups(q, 0) + Rep(D(1), q + 1) == a + [D(1)] == a + [D(1)] + [] && a + [] == a;
    assert a + [D(1)] == Rep(D(0), q) + [D(1)] + Rep(D(1), q);
    TwoReps(q);
    LeafRun(a, 2 * q + 1);
    AddOne(a, D(1), 2 * q + 1);
    HeightOfLeaf(a);
    LeafParts(a, [], D(1), 2 * q + 1, Rep(D(0), q), D(1), D(1), q);
    var e := Over(D(1), Rep(D(1), q));
    assert [] + [e] == [e];
  }

  lemma TwoReps(q: nat)
    ensures NonDescending(Rep(D(0), q) + Rep(D(1), q)) && AtMost(Rep(D(0), q) + Rep(D(1), q), 1)
  {}

  /** An ascending run fills leaves of `q` devices from left to right. */
  lemma {:induction false} GroupsRun(q: nat, i: nat)
    requires 0 < i <= 2 * q
    ensures AddAll(Groups(q, i), 2 * q + 1) == Some(CombOf(Rep(D(0), q), GroupKeys(q, i - 1), D(i), Rep(D(i), q)))
  {
    hide AddBelow, WellFormed, AddAll, Height, Comb, Rep, GroupKeys;
    var m := 2 * q + 1;
    if i == 1 {
      FirstGroup(q);
      assert GroupKeys(q, 0) == [];
    } else {
      var left, front, k, x := Rep(D(0), q), GroupKeys(q, i - 2), D(i - 1), D(i);
      var ds, l, l' := Groups(q, i - 1), Rep(k, q), Rep(k, q) + Rep(x, q);
      GroupsRun(q, i - 1);
      GroupsComb(q, i - 1, i);
      CombFills(ds, left, front, k, l, x, q, m);
      RepMore(x, q);
      assert Groups(q, i) == ds + Rep(x, q + 1) == ds + Rep(x, q) + [x];
      AddOne(ds + Rep(x, q), x, m);
      assert l' + [] == l' && l' + [x] + [] == Rep(k, q) + [x] + Rep(x, q);
      LeafParts(l', [], x, m, Rep(k, q), x, x, q);
      IntoRight(left, front, k, l', x, m, PlainLeaf(l), Some(Split(x, PlainLeaf(Rep(x, q)))));
      GroupKeysStep(q, i - 1);
      StaysWithin(Two(left, front + [Over(k, l)] + [Over(x, Rep(x, q))]), m);
    }
  }

  lemma GroupKeysStep(q: nat, i: nat)
    requires i > 0
    ensures GroupKeys(q, i) == GroupKeys(q, i - 1) + [Over(D(i), Rep(D(i), q))]
  {}

  lemma StaysWithin(t: Tree, order: nat)
    requires t.Len() <= order
    ensures Overflow(t, order) == (t, None)
  {}

  /** One more device under the last id, and then ids above it. */
  function OddRun(q: nat): seq<Device>
    requires q > 0
  {
    Groups(q, 2 * q) + Rep(D(2 * q), 1) + Rep(D(2 * q + 1), q)
  }

  /** The keys of the root when it comes to the order: the last two are equal. */
  function OddKeys(q: nat): (es: seq<Entry>)
    ensures |es| == 2 * q + 1
  {
    GroupKeys(q, 2 * q) + [Over(D(2 * q), Rep(D(2 * q + 1), q))]
  }

  lemma OddSplit(q: nat)
    requires q > 0
    ensures AddAll(OddRun(q), 2 * q + 1)
         == var (n, s) := SplitNode(Two(Rep(D(0), q), OddKeys(q))); Some(NewRoot(n, s))
  {
    hide AddBelow, WellFormed, AddAll, Height, Comb, Rep, GroupKeys, Groups, SplitNode;
    var m, left, front, k, x := 2 * q + 1, Rep(D(0), q), GroupKeys(q, 2 * q - 1), D(2 * q), D(2 * q + 1);
    var ds, l := Groups(q, 2 * q) + Rep(k, 1), Rep(k, q) + Rep(k, 1);
    var l' := l + Rep(x, q - 1);
    GroupsRun(q, 2 * q);
    GroupsComb(q, 2 * q, 2 * q);
    CombFills(Groups(q, 2 * q), left, front, k, Rep(k, q), k, 1, m);
    GroupsComb(q, 2 * q, 2 * q + 1);
    CombFills(ds, left, front, k, l, x, q - 1, m);
    RepMore(x, q - 1);
    assert OddRun(q) == ds + Rep(x, q - 1) + [x];
    AddOne(ds + Rep(x, q - 1), x, m);
    assert Rep(k, 1) == [k];
    assert l' + [] == l' && l' + [x] + [] == Rep(k, q) + [k] + Rep(x, q);
    LeafParts(l', [], x, m, Rep(k, q), k, x, q);
    IntoRight(left, front, k, l', x, m, PlainLeaf(Rep(k, q)), Some(Split(k, PlainLeaf(Rep(x, q)))));
    GroupKeysStep(q, 2 * q);
  }

  /** Reinserting the keys from the back leaves two equal ones the wrong way round. */
  lemma {:induction false} ReinsertSwaps(p: seq<Entry>, a: Entry, b: Entry)
    requires KeysAscending(p + [a]) && a.dev.id == b.dev.id
    ensures Reinsert(p + [a, b]) == p + [b, a]
  {
    hide KeysAscending, AddEntry;
    if p == [] {
      assert [a, b][1..] == [b] && p + [a, b] == [a, b];
      ReinsertOne(b);
      AddToOne(b, a);
      assert Reinsert([a, b]) == [b, a] == p + [b, a];
    } else {
      var rest := p[1..] + [a, b];
      assert (p + [a, b])[1..] == rest;
      TailAscends(p, a);
      ReinsertSwaps(p[1..], a, b);
      AddLeast(p[0], p[1..] + [b, a]);
      assert p + [b, a] == [p[0]] + (p[1..] + [b, a]);
    }
  }

  lemma TailAscends(p: seq<Entry>, a: Entry)
    requires KeysAscending(p + [a]) && p != []
    ensures KeysAscending(p[1..] + [a]) && forall e | e in p[1..] + [a] :: p[0].dev.id < e.dev.id
  {
    var s := p + [a];
    assert p[1..] + [a] == s[1..] && s[0] == p[0];
  }

  lemma AddLeast(e: Entry, es: seq<Entry>)
    requires forall x | x in es :: e.dev.id < x.dev.id
    ensures AddEntry(es, e.dev.id, e) == [e] + es
  {
    assert es != [] ==> es[0] in es;
    RankOf(es, e.dev.id, 0);
  }

  lemma OddUpper(q: nat)
    requires q >= 2
    ensures var a, b := Over(D(2 * q), Rep(D(2 * q), q)), Over(D(2 * q), Rep(D(2 * q + 1), q));
            var p := OddKeys(q)[q + 1..2 * q - 1];
            && OddKeys(q)[q + 1..] == p + [a, b] && KeysAscending(p + [a])
            && forall e | e in p + [a, b] :: e.dev.id <= 2 * q
  {
    hide Rep;
    var es := OddKeys(q);
    var a, b := Over(D(2 * q), Rep(D(2 * q), q)), Over(D(2 * q), Rep(D(2 * q + 1), q));
    var p := es[q + 1..2 * q - 1];
    assert es[2 * q - 1] == a && es[2 * q] == b;
    assert forall i | 0 <= i < |p| :: p[i] == es[q + 1 + i] == Over(D(q + 2 + i), Rep(D(q + 2 + i), q));
  }

  lemma OddMisses(q: nat)
    requires q >= 2
    ensures FindOption(AddAll(OddRun(q), 2 * q + 1), 2 * q + 1) == None && D(2 * q + 1) in OddRun(q)
  {
    hide AddAll, Find, Rep, Groups, GroupKeys, Reinsert, OddKeys;
    var t, id := Two(Rep(D(0), q), OddKeys(q)), 2 * q + 1;
    var (n, s) := SplitNode(t);
    var a, b := Over(D(2 * q), Rep(D(2 * q), q)), Over(D(2 * q), Rep(D(2 * q + 1), q));
    var p := OddKeys(q)[q + 1..2 * q - 1];
    OddSplit(q);
    OddUpper(q);
    ReinsertSwaps(p, a, b);
    OddMiddle(q);
    assert s.tree.entries == p + [b, a];
    FindAbove(NewRoot(n, s), id);
    FindAbove(s.tree, id);
    FindNotInLeaf(Rep(D(2 * q), q), id);
    assert Rep(D(id), q)[0] == D(id);
  }

  lemma OddMiddle(q: nat)
    requires q > 0
    ensures OddKeys(q)[q].dev == D(q + 1)
  {}

  lemma {:induction false} GroupsCopies(q: nat, i: nat, id: nat)
    ensures Copies(Groups(q, i), id) == if id > i then 0 else if id == 0 then q else q + 1
  {
    hide Rep;
    CopiesRep(i, if i == 0 then q else q + 1, id);
    if i > 0 {
      GroupsCopies(q, i - 1, id);
      CopiesAppend(Groups(q, i - 1), Rep(D(i), q + 1), id);
    }
  }

  lemma OddCopies(q: nat)
    requires q >= 2
    ensures Few(OddRun(q), q + 2)
  {
    hide Copies, Rep, Groups;
    forall id ensures Copies(OddRun(q), id) <= q + 2 {
      CopiesAppend(Groups(q, 2 * q) + Rep(D(2 * q), 1), Rep(D(2 * q + 1), q), id);
      CopiesAppend(Groups(q, 2 * q), Rep(D(2 * q), 1), id);
      GroupsCopies(q, 2 * q, id);
      CopiesRep(2 * q, 1, id);
      CopiesRep(2 * q + 1, q, id);
    }
  }

  // ---------------------------------------------------------------- the exact limit

  lemma OneTooMany(order: nat) returns (ds: seq<Device>, id: nat)
    requires !StandsAll(order)
    ensures Few(ds, CopyLimit(order) + 1)
    ensures FindOption(AddAll(ds, order), id) == None && D(id) in ds
  {
    hide *;
    LimitAt(order);
    if order == 2 {
      ds, id := [D(1), D(1), D(2), D(0)], 2;
      DeviceIs(0);
      DeviceIs(1);
      DeviceIs(2);
      DuplicatesBreakSearch(D(1), D(1), D(2), D(0));
      TwoCopies(D(1), D(1), D(2), D(0));
    } else if order % 2 == 0 {
      ds, id := EvenRun(order / 2), 2;
      EvenMisses(order / 2);
    } else {
      ds, id := OddRun(order / 2), order;
      OddMisses(order / 2);
      OddCopies(order / 2);
    }
  }

  lemma LimitAt(order: nat)
    ensures StandsAll(order) <==> order in {0, 1, 3}
    ensures order >= 2 ==> CopyLimit(order) == (order + 1) / 2
  {}

  lemma DeviceIs(id: nat)
    ensures D(id).id == id
  {}

  lemma TwoCopies(a: Device, b: Device, c: Device, d: Device)
    requires a.id == b.id == 1 && c.id == 2 && d.id == 0
    ensures Few([a, b, c, d], 2)
  {
    forall id ensures Copies([a, b, c, d], id) <= 2 {
      assert [a, b, c, d] == [a] + [b, c, d] && [b, c, d] == [b] + [c, d] && [c, d] == [c] + [d] && [d] == [d] + [];
      FirstCopy(a, [b, c, d], id);
      FirstCopy(b, [c, d], id);
      FirstCopy(c, [d], id);
      FirstCopy(d, [], id);
    }
  }

  lemma FirstCopy(d: Device, ds: seq<Device>, id: nat)
    ensures Copies([d] + ds, id) == (if d.id == id then 1 else 0) + Copies(ds, id)
  {
    assert ([d] + ds)[1..] == ds;
  }

  /** One copy too many puts the walk out of order: a walk in order would answer the search. */
  lemma MissedIsDisordered(ds: seq<Device>, order: nat, id: nat)
    requires FindOption(AddAll(ds, order), id) == None && D(id) in ds
    ensures !NonDescending(FlatOption(AddAll(ds, order)))
    ensures !Answers(FindOption(AddAll(ds, order), id), ds, id)
  {
    var t := AddAll(ds, order);
    if NonDescending(FlatOption(t)) {
      RunKeepsEveryDevice(ds, order);
      OrderedAnswers(t, id);
      SameAnswers(FindOption(t, id), FlatOption(t), ds, id);
    }
  }

  /**
    Up to how many copies of an id every run of a given order keeps its walk in order and its search
    right: exactly up to half the order, rounded up, and any number at the orders 0, 1 and 3.
  */
  lemma ExactCopyLimit(order: nat, k: nat)
    ensures (forall ds | Few(ds, k) :: NonDescending(FlatOption(AddAll(ds, order))))
       <==> k <= (order + 1) / 2 || order in {0, 1, 3}
    ensures (forall ds, id | Few(ds, k) :: Answers(FindOption(AddAll(ds, order), id), ds, id))
       <==> k <= (order + 1) / 2 || order in {0, 1, 3}
  {
    LimitAt(order);
    hide *;
    if k <= CopyLimit(order) || StandsAll(order) {
      forall ds | Few(ds, k) ensures Orderly(ds, order) && NonDescending(FlatOption(AddAll(ds, order))) {
        FewMore(ds, k, order);
        RunStaysInOrder(ds, order);
      }
      forall ds, id | Few(ds, k) ensures Answers(FindOption(AddAll(ds, order), id), ds, id) {
        FewMore(ds, k, order);
        RunAnswers(ds, order, id);
      }
    } else {
      var ds, id := OneTooMany(order);
      FewMost(ds, CopyLimit(order) + 1, k);
      MissedIsDisordered(ds, order, id);
    }
  }

  lemma FewMore(ds: seq<Device>, k: nat, order: nat)
    requires Few(ds, k) && (k <= CopyLimit(order) || StandsAll(order))
    ensures Orderly(ds, order)
  {}

  lemma FewMost(ds: seq<Device>, c: nat, k: nat)
    requires Few(ds, c) && c <= k
    ensures Few(ds, k)
  {}
}
