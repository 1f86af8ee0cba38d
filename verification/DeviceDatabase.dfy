/**
  `Node` and `DeviceDatabase` of `btree_example/src/lib.rs`, updated in place. A box has one owner,
  so a boxed subtree is a value (`Tree`); the node that is being changed is an object.
*/
module DeviceDatabases {
  import opened Sequences
  import opened Wrappers
  import opened BTree
  import opened BTreeOrder
  import opened BTreeLimits
  import opened BTreeRuns
  import opened BTreeShape

  datatype Direction = Left | Right(index: nat)

  /** What `add_r` hands up when a node splits: the source's `Data`. */
  datatype Data = Data(dev: Option<Device>, tree: Option<Tree>)

  ghost predicate Paired(ds: seq<Option<Device>>, cs: seq<Option<Tree>>) {
    |ds| == |cs| && forall d | d in ds :: d.Some?
  }

  /** The two parallel vectors as one sequence of entries. */
  function Zip(ds: seq<Option<Device>>, cs: seq<Option<Tree>>): (es: seq<Entry>)
    requires Paired(ds, cs)
    ensures |es| == |ds|
    ensures forall i | 0 <= i < |es| :: ds[i] == Some(es[i].dev) && cs[i] == es[i].child
  {
    if ds == [] then [] else [Entry(ds[0].value, cs[0])] + Zip(ds[1..], cs[1..])
  }

  lemma ZipInsert(ds: seq<Option<Device>>, cs: seq<Option<Tree>>, i: nat, e: Entry)
    requires Paired(ds, cs) && i <= |ds|
    ensures Paired(InsertAt(ds, i, Some(e.dev)), InsertAt(cs, i, e.child))
    ensures Zip(InsertAt(ds, i, Some(e.dev)), InsertAt(cs, i, e.child)) == InsertAt(Zip(ds, cs), i, e)
  {}

  lemma ZipRemove(ds: seq<Option<Device>>, cs: seq<Option<Tree>>, i: nat)
    requires Paired(ds, cs) && i < |ds|
    ensures Paired(RemoveAt(ds, i), RemoveAt(cs, i))
    ensures Zip(RemoveAt(ds, i), RemoveAt(cs, i)) == RemoveAt(Zip(ds, cs), i)
  {}

  class Node {
    var devices: seq<Option<Device>>
    var children: seq<Option<Tree>>
    var leftChild: Option<Tree>
    const nodeType: NodeType

    ghost predicate Valid()
      reads this
    {
      Paired(devices, children)
    }

    ghost function Entries(): (es: seq<Entry>)
      requires Valid()
      reads this
    {
      Zip(devices, children)
    }

    ghost function Value(): Tree
      requires Valid()
      reads this
    {
      Tree(nodeType, leftChild, Entries())
    }

    constructor (nodeType: NodeType)
      ensures Valid() && Value() == Tree(nodeType, None, [])
    {
      this.nodeType := nodeType;
      devices, children, leftChild := [], [], None;
    }

    /** The node a box holds. */
    constructor Unbox(t: Tree)
      ensures Valid() && Value() == t
    {
      nodeType := t.kind;
      devices := seq(|t.entries|, i requires 0 <= i < |t.entries| => Some(t.entries[i].dev));
      children := seq(|t.entries|, i requires 0 <= i < |t.entries| => t.entries[i].child);
      leftChild := t.left;
      new;
      assert Entries() == t.entries;
    }

    method Box() returns (t: Tree)
      requires Valid()
      ensures t == Value()
    {
      t := Tree(nodeType, leftChild, Zip(devices, children));
    }

    method FindClosestIndex(key: nat) returns (index: Direction)
      requires Valid()
      ensures var r := Rank(Entries(), key); index == if r == 0 then Left else Right(r - 1)
    {
      index := Left;
      var i := 0;
      while i < |devices|
        invariant i <= |devices|
        invariant index == if i == 0 then Left else Right(i - 1)
        invariant forall j | 0 <= j < i :: Entries()[j].dev.id <= key
      {
        if devices[i].Some? {
          if devices[i].value.id <= key {
            index := Right(i);
          } else {
            break;
          }
        }
        i := i + 1;
      }
    }

    method AddLeftChild(child: Option<Tree>)
      requires Valid()
      modifies this`leftChild
      ensures Valid() && Value() == old(Value()).(left := child)
    {
      leftChild := child;
    }

    method AddKey(key: nat, value: Data) returns (added: bool)
      requires Valid() && value.dev.Some?
      modifies this`devices, this`children
      ensures Valid() && added
      ensures Value() == old(Value()).(entries := AddEntry(old(Entries()), key, Entry(value.dev.value, value.tree)))
    {
      var index := FindClosestIndex(key);
      var pos := match index { case Left => 0 case Right(p) => p + 1 };
      ZipInsert(devices, children, pos, Entry(value.dev.value, value.tree));
      if pos >= |devices| {
        assert pos == |devices|;
        devices := devices + [value.dev];
        children := children + [value.tree];
      } else {
        devices := devices[..pos] + [value.dev] + devices[pos..];
        children := children[..pos] + [value.tree] + children[pos..];
      }
      assert devices == InsertAt(old(devices), pos, value.dev) && children == InsertAt(old(children), pos, value.tree);
      return true;
    }

    /** `remove_key`: takes out the subtree in which `id` belongs, with the device left of it. */
    method RemoveKey(id: nat) returns (key: nat, value: Data)
      requires Valid()
      modifies this`devices, this`children, this`leftChild
      ensures Valid()
      ensures var r := Rank(old(Entries()), id);
              && value.tree == ChildAt(old(Value()), r)
              && (r == 0 ==> key == id && value.dev == None && Value() == old(Value()).(left := None))
              && (r > 0 ==>
                    && value.dev == Some(old(Entries())[r - 1].dev) && key == value.dev.value.id
                    && Value() == old(Value()).(entries := RemoveAt(old(Entries()), r - 1)))
    {
      var index := FindClosestIndex(id);
      match index
      case Left =>
        var tree := leftChild;
        leftChild := None;
        return id, Data(None, tree);
      case Right(i) =>
        var dev, tree := devices[i], children[i];
        ZipRemove(devices, children, i);
        devices, children := RemoveAt(devices, i), RemoveAt(children, i);
        return dev.value.id, Data(dev, tree);
    }

    /** One turn of the loop in `split`: pops the last device and child and adds them to the sibling. */
    method MoveLast(sibling: Node)
      requires Valid() && sibling.Valid() && sibling != this && devices != []
      modifies this`devices, this`children, sibling`devices, sibling`children
      ensures Valid() && sibling.Valid()
      ensures Entries() == old(Entries())[..old(|devices|) - 1]
      ensures var e := old(Entries())[old(|devices|) - 1];
              sibling.Entries() == AddEntry(old(sibling.Entries()), e.dev.id, e)
    {
      var last := |devices| - 1;
      var device, child := devices[last], children[last];
      ZipRemove(devices, children, last);
      devices, children := devices[..last], children[..last];
      assert devices == RemoveAt(old(devices), last) && children == RemoveAt(old(children), last);
      var _ := sibling.AddKey(device.value.id, Data(device, child));
    }

    /** The loop in `split`: everything from `splitAt` on moves to the empty sibling. */
    method MoveUpper(sibling: Node, splitAt: nat)
      requires Valid() && sibling.Valid() && sibling != this
      requires splitAt <= |devices| && sibling.Entries() == []
      modifies this`devices, this`children, sibling`devices, sibling`children
      ensures Valid() && sibling.Valid()
      ensures Entries() == old(Entries())[..splitAt]
      ensures sibling.Entries() == Reinsert(old(Entries())[splitAt..])
    {
      ghost var es := Entries();
      hide AddEntry;
      for k := splitAt to |devices|
        invariant Valid() && sibling.Valid()
        invariant Entries() == es[..|es| - (k - splitAt)]
        invariant sibling.Entries() == Reinsert(es[|es| - (k - splitAt)..])
      {
        ghost var j := |es| - (k - splitAt);
        assert es[..j][..j - 1] == es[..j - 1];
        assert es[j - 1..] == [es[j - 1]] + es[j..];
        MoveLast(sibling);
      }
    }

    /** `split`: the upper half moves to a new sibling, the device between the halves is handed up. */
    method Split() returns (dev: Device, sibling: Node)
      requires Valid() && devices != []
      modifies this`devices, this`children
      ensures Valid() && sibling.Valid() && fresh(sibling)
      ensures (Value(), BTree.Split(dev, sibling.Value())) == SplitNode(old(Value()))
    {
      sibling := new Node(nodeType);
      var splitAt := |devices| / 2;

      var middle, node := devices[splitAt], children[splitAt];
      ZipRemove(devices, children, splitAt);
      devices, children := RemoveAt(devices, splitAt), RemoveAt(children, splitAt);
      SplitParts(old(Entries()), splitAt);

      MoveUpper(sibling, splitAt);
      sibling.AddLeftChild(node);
      return middle.value, sibling;
    }

    static lemma SplitParts(es: seq<Entry>, m: nat)
      requires m < |es|
      ensures RemoveAt(es, m)[..m] == es[..m] && RemoveAt(es, m)[m..] == es[m + 1..]
    {}
  }

  class DeviceDatabase {
    var root: Option<Tree>
    const order: nat
    var length: nat
    /** Every device added so far, in the order of the calls. */
    ghost var added: seq<Device>

    ghost predicate Valid()
      reads this
    {
      root == AddAll(added, order) && length == |added|
    }

    /** `new_empty`. */
    constructor (order: nat)
      ensures Valid() && added == [] && this.order == order
    {
      root, length, added := None, 0, [];
      this.order := order;
    }

    /** `add`: the new root is the pure insertion, whatever the order and with duplicates. */
    method Add(device: Device)
      requires Valid()
      modifies this
      ensures Valid() && added == old(added) + [device]
    {
      ghost var h := Height(root);
      var node: Tree;
      if root.Some? {
        node := root.value;
        root := None;
      } else {
        var leaf := new Node(Leaf);
        node := leaf.Box();
      }
      var newRoot, _ := AddR(node, device, true, h);
      root := Some(newRoot);
      added := added + [device];
      assert added[..|added| - 1] == old(added);
    }

    /**
      `add_r`. Below the root it returns the node and what it hands up; at the root a split
      grows the tree by one level instead.
    */
    method AddR(box: Tree, device: Device, isRoot: bool, ghost h: nat) returns (node: Tree, up: Option<Data>)
      requires WellFormed(box, h)
      modifies this`length
      ensures length == old(length) + 1
      ensures var (n, s) := AddBelow(box, device, order, h);
              if isRoot then
                up == None && node == if s.Some? then NewRoot(n, s.value) else n
              else
                node == n && up == UpData(s)
      decreases h, 1
    {
      hide WellFormed, AddBelow;
      AddBelowSteps(box, device, order, h);
      var n := new Node.Unbox(box);
      match n.nodeType {
        case Leaf =>
          var added := n.AddKey(device.id, Data(Some(device), None));
          if added {
            length := length + 1;
          }
        case Regular =>
          AddToChild(n, device, h);
      }
      assert AddBelow(box, device, order, h) == BTree.Overflow(n.Value(), order);
      node, up := Overflow(n, isRoot);
    }

    /** The regular case of `add_r`: the subtree is taken out, grown, and put back. */
    method AddToChild(n: Node, device: Device, ghost h: nat)
      requires n.Valid() && WellFormed(n.Value(), h) && h > 0
      modifies this`length, n
      ensures n.Valid() && length == old(length) + 1
      ensures var t := old(n.Value());
              var r := Rank(t.entries, device.id);
              && ChildAt(t, r).Some? && WellFormed(ChildAt(t, r).value, h - 1)
              && var (m, s) := AddBelow(ChildAt(t, r).value, device, order, h - 1);
                 n.Value() == PutBack(t, r, m, s)
      decreases h, 0
    {
      hide WellFormed, AddBelow, AddEntry;
      ghost var t := n.Value();
      AddBelowSteps(t, device, order, h);
      var key, value := n.RemoveKey(device.id);
      var new0, new1 := AddR(value.tree.value, device, false, h - 1);
      if value.dev.None? {
        n.AddLeftChild(Some(new0));
      } else {
        var _ := n.AddKey(key, Data(value.dev, Some(new0)));
      }
      ghost var r := Rank(t.entries, device.id);
      assert n.Value() == PutBack(t, r, new0, None);
      if new1.Some? {
        var _ := n.AddKey(new1.value.dev.value.id, new1.value);
      }
    }

    /** The rest of `add_r`: splits a node that is over the order. */
    method Overflow(n: Node, isRoot: bool) returns (node: Tree, up: Option<Data>)
      requires n.Valid() && (n.Value().Len() > order ==> n.Entries() != [])
      modifies n`devices, n`children
      ensures var (m, s) := BTree.Overflow(old(n.Value()), order);
              if isRoot then
                up == None && node == if s.Some? then NewRoot(m, s.value) else m
              else
                node == m && up == UpData(s)
    {
      if |n.children| + 1 > order {
        var newParent, sibling := n.Split();
        var left := n.Box();
        var right := sibling.Box();
        if isRoot {
          var parent := new Node(Regular);
          parent.AddLeftChild(Some(left));
          var _ := parent.AddKey(newParent.id, Data(Some(newParent), Some(right)));
          node := parent.Box();
          up := None;
        } else {
          node, up := left, Some(Data(Some(newParent), Some(right)));
        }
      } else {
        node := n.Box();
        up := None;
      }
    }

    static ghost function UpData(s: Option<BTree.Split>): Option<Data> {
      match s
      case None => None
      case Some(x) => Some(Data(Some(x.dev), Some(x.tree)))
    }

    /** `find`: a device with the id exactly if one was added; with distinct ids, what a plain map of them holds. */
    method FindDevice(id: nat) returns (r: Option<Device>)
      requires Valid()
      ensures Orderly(added, order) ==> Answers(r, added, id)
      ensures DistinctIds(added) ==> r == if id in MapOf(added) then Some(MapOf(added)[id]) else None
    {
      if root.None? {
        r := None;
      } else {
        var node := root.value;
        r := FindR(node, id);
      }
      if Orderly(added, order) { RunAnswers(added, order, id); }
      if DistinctIds(added) { FindAgreesWithMap(added, order, id); }
    }

    static method FindR(node: Tree, id: nat) returns (r: Option<Device>)
      ensures r == Find(node, id)
      decreases node
    {
      var i := 0;
      while i < |node.entries|
        invariant i <= |node.entries|
        invariant FirstWith(node.entries, id) == FirstWith(node.entries[i..], id)
      {
        if node.entries[i].dev.id == id {
          return Some(node.entries[i].dev);
        }
        i := i + 1;
      }
      if node.kind == Leaf { return None; }
      var n := new Node.Unbox(node);
      var index := n.FindClosestIndex(id);
      match index
      case Left =>
        if node.left.None? { return None; }
        r := FindR(node.left.value, id);
      case Right(i) =>
        assert node.entries[i] in node.entries;
        if node.entries[i].child.None? { return None; }
        r := FindR(node.entries[i].child.value, id);
    }

    /** `walk`, returning the devices in the order the callback sees them. */
    method Walk() returns (visited: seq<Device>)
      requires Valid()
      ensures multiset(visited) == multiset(added) && |visited| == length
      ensures Orderly(added, order) ==> NonDescending(visited)
      ensures Ascending(visited) <==> DistinctIds(added)
    {
      visited := [];
      if root.Some? {
        visited := WalkInOrder(root.value);
        FlatSome(root.value);
      }
      RunKeepsEveryDevice(added, order);
      if Orderly(added, order) { RunStaysInOrder(added, order); }
      WalkAscendsIffDistinct(added, order);
      assert |multiset(visited)| == |multiset(added)|;
    }

    static method WalkInOrder(node: Tree) returns (visited: seq<Device>)
      ensures visited == Flat(node)
      decreases node
    {
      visited := [];
      if node.left.Some? {
        visited := WalkInOrder(node.left.value);
      }
      ghost var left := visited;
      for i := 0 to |node.entries|
        invariant visited == left + FlatEntries(node.entries[..i])
      {
        ghost var prefix := visited;
        visited := visited + [node.entries[i].dev];
        assert node.entries[i] in node.entries;
        if node.entries[i].child.Some? {
          var below := WalkInOrder(node.entries[i].child.value);
          visited := visited + below;
        }
        assert node.entries[..i + 1] == node.entries[..i] + [node.entries[i]];
        FlatAppend(node.entries[..i], [node.entries[i]]);
        assert FlatEntries([node.entries[i]]) == FlatEntry(node.entries[i]);
        assert visited == prefix + FlatEntry(node.entries[i]);
        Assoc(left, FlatEntries(node.entries[..i]), FlatEntry(node.entries[i]));
      }
      assert node.entries[..|node.entries|] == node.entries;
    }

    /** `is_a_valid_btree`: true after every run that added something, if the order is at least 2. */
    method IsAValidBTree() returns (valid: bool)
      requires Valid() && length <= USIZE_MAX
      ensures valid <==> added != [] && order >= 2
    {
      if root.Some? {
        var total := ValidateNode(root.value, 0);
        valid := total.ok && total.least == total.greatest;
      } else {
        valid := false;
      }
      RunIsValid(added, order);
    }

    method ValidateNode(node: Tree, level: nat) returns (total: Report)
      ensures total == Validate(node, level, order)
      decreases node
    {
      if node.kind == Leaf {
        return Report(node.Len() <= order, level, level);
      }
      var minChildren := if level > 0 then order / 2 else 2;
      var keyRules := node.Len() <= order && node.Len() >= minChildren;
      total := Report(keyRules, USIZE_MAX, level);
      ghost var start := total;
      for i := 0 to |node.entries|
        invariant ValidateEntries(node.entries[i..], level + 1, order, total)
               == ValidateEntries(node.entries, level + 1, order, start)
      {
        ghost var before := total;
        assert node.entries[i] in node.entries;
        if node.entries[i].child.Some? {
          var stats := ValidateNode(node.entries[i].child.value, level + 1);
          total := Merge(total, stats);
        }
        assert node.entries[i..][0] == node.entries[i] && node.entries[i..][1..] == node.entries[i + 1..];
        assert total == ValidateEntry(node.entries[i], level + 1, order, before);
      }
      if node.left.Some? {
        var stats := ValidateNode(node.left.value, level + 1);
        total := Merge(total, stats);
      }
    }
  }
}
