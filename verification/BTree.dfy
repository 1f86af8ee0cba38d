/**
  The B-tree of `btree_example/src/lib.rs` as a value: what every node operation computes.
  A node pairs its two parallel vectors (`devices`, `children`) into one sequence of entries.
  The classes in `DeviceDatabase.dfy` are proved against these functions.
*/
module BTree {
  import opened Wrappers

  /** A stored device. Ids are the source's `u64`; only their order matters here. */
  datatype Device = Device(id: nat, path: string, address: string)

  datatype NodeType = Leaf | Regular

  datatype Entry = Entry(dev: Device, child: Option<Tree>)

  datatype Tree = Tree(kind: NodeType, left: Option<Tree>, entries: seq<Entry>) {
    /** The source's `len`: the number of children a node has room for. */
    function Len(): nat {
      |entries| + 1
    }
  }

  /** A device and the tree right of it, handed up by a node that has split. */
  datatype Split = Split(dev: Device, tree: Tree)

  const EmptyLeaf := Tree(Leaf, None, [])

  /** All leaves at depth `h`; a regular node has every one of its children, a leaf has none. */
  ghost predicate WellFormed(t: Tree, h: nat)
    decreases h
  {
    if h == 0 then
      t.kind == Leaf && t.left == None && forall e | e in t.entries :: e.child == None
    else
      && t.kind == Regular
      && t.left.Some? && WellFormed(t.left.value, h - 1)
      && forall e | e in t.entries :: e.child.Some? && WellFormed(e.child.value, h - 1)
  }

  // ---------------------------------------------------------------- node operations

  /** How many leading entries have an id of at most `key`. */
  function Rank(es: seq<Entry>, key: nat): (r: nat)
    ensures r <= |es|
    ensures forall i | 0 <= i < r :: es[i].dev.id <= key
    ensures r < |es| ==> es[r].dev.id > key
  {
    if es == [] || es[0].dev.id > key then 0 else 1 + Rank(es[1..], key)
  }

  function InsertAt<T>(s: seq<T>, i: nat, x: T): (r: seq<T>)
    requires i <= |s|
    ensures |r| == |s| + 1
  {
    s[..i] + [x] + s[i..]
  }

  function RemoveAt<T>(s: seq<T>, i: nat): (r: seq<T>)
    requires i < |s|
    ensures |r| == |s| - 1
  {
    s[..i] + s[i + 1..]
  }

  /** `add_key`. */
  function AddEntry(es: seq<Entry>, key: nat, e: Entry): (r: seq<Entry>)
    ensures |r| == |es| + 1
    ensures forall x :: x in r <==> x == e || x in es
  {
    var i := Rank(es, key);
    assert es == es[..i] + es[i..];
    InsertAt(es, i, e)
  }

  /** The reinsertion loop of `split`: entries are popped from the back and added one at a time. */
  function Reinsert(es: seq<Entry>): (r: seq<Entry>)
    ensures |r| == |es|
    ensures forall x :: x in r <==> x in es
  {
    if es == [] then [] else
      assert es == [es[0]] + es[1..];
      AddEntry(Reinsert(es[1..]), es[0].dev.id, es[0])
  }

  /** `split`: what stays in the node, and what is handed up. */
  function SplitNode(t: Tree): (r: (Tree, Split))
    requires t.entries != []
  {
    var m := |t.entries| / 2;
    (t.(entries := t.entries[..m]),
     Split(t.entries[m].dev, Tree(t.kind, t.entries[m].child, Reinsert(t.entries[m + 1..]))))
  }

  /** A node that is over the order splits. */
  function Overflow(t: Tree, order: nat): (r: (Tree, Option<Split>))
    requires t.Len() > order ==> t.entries != []
  {
    if t.Len() > order then
      var (n, s) := SplitNode(t);
      (n, Some(s))
    else
      (t, None)
  }

  /** The node once the subtree that was taken out at rank `r` comes back as `n`, possibly split. */
  function PutBack(t: Tree, r: nat, n: Tree, s: Option<Split>): Tree
    requires r <= |t.entries|
  {
    var t1 :=
      if r == 0 then t.(left := Some(n)) else
        var e := t.entries[r - 1];
        t.(entries := AddEntry(RemoveAt(t.entries, r - 1), e.dev.id, Entry(e.dev, Some(n))));
    match s
    case None => t1
    case Some(x) => t1.(entries := AddEntry(t1.entries, x.dev.id, Entry(x.dev, Some(x.tree))))
  }

  function ChildAt(t: Tree, r: nat): Option<Tree>
    requires r <= |t.entries|
  {
    if r == 0 then t.left else t.entries[r - 1].child
  }

  lemma SplitWellFormed(t: Tree, h: nat)
    requires WellFormed(t, h)
    ensures t.entries != [] ==> WellFormed(SplitNode(t).0, h) && WellFormed(SplitNode(t).1.tree, h)
  {
    if t.entries != [] {
      var m := |t.entries| / 2;
      assert t.entries[m] in t.entries;
      forall e | e in t.entries[..m] || e in Reinsert(t.entries[m + 1..]) ensures e in t.entries {}
    }
  }

  lemma AddLeafEntryWellFormed(t: Tree, d: Device)
    requires WellFormed(t, 0)
    ensures WellFormed(t.(entries := AddEntry(t.entries, d.id, Entry(d, None))), 0)
  {}

  lemma PutBackWellFormed(t: Tree, r: nat, n: Tree, s: Option<Split>, h: nat)
    requires h > 0 && WellFormed(t, h) && r <= |t.entries|
    requires WellFormed(n, h - 1) && (s.Some? ==> WellFormed(s.value.tree, h - 1))
    ensures WellFormed(PutBack(t, r, n, s), h)
    ensures |PutBack(t, r, n, s).entries| == |t.entries| + if s.Some? then 1 else 0
  {
    if r > 0 {
      forall e | e in RemoveAt(t.entries, r - 1) ensures e in t.entries {}
    }
  }

  /** `add_r` below the root. */
  function AddBelow(t: Tree, d: Device, order: nat, ghost h: nat): (r: (Tree, Option<Split>))
    requires WellFormed(t, h)
    ensures WellFormed(r.0, h)
    ensures r.1.Some? ==> WellFormed(r.1.value.tree, h)
    ensures order == 0 ==> r.1.Some?
    decreases h
  {
    if t.kind == Leaf then
      var t' := t.(entries := AddEntry(t.entries, d.id, Entry(d, None)));
      AddLeafEntryWellFormed(t, d);
      SplitWellFormed(t', h);
      Overflow(t', order)
    else
      var r := Rank(t.entries, d.id);
      assert r > 0 ==> t.entries[r - 1] in t.entries;
      var (n, s) := AddBelow(ChildAt(t, r).value, d, order, h - 1);
      PutBackWellFormed(t, r, n, s, h);
      SplitWellFormed(PutBack(t, r, n, s), h);
      Overflow(PutBack(t, r, n, s), order)
  }

  function NewRoot(n: Tree, s: Split): Tree {
    Tree(Regular, Some(n), [Entry(s.dev, Some(s.tree))])
  }

  /** `add` on a database whose tree is `t`. */
  function Add(t: Option<Tree>, d: Device, order: nat, ghost h: nat): (r: Tree)
    requires t.Some? ==> WellFormed(t.value, h)
    requires t.None? ==> h == 0
    ensures WellFormed(r, h) || WellFormed(r, h + 1)
  {
    var (n, s) := AddBelow(t.GetOr(EmptyLeaf), d, order, h);
    match s
    case None => n
    case Some(x) => NewRoot(n, x)
  }
}
