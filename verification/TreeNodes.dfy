/** Where the paths of `toml.hpp` lead: an enumeration of all nodes of a tree with their components. */
module TreeNodes {
  import Numerals
  import opened Paths
  import opened Sequences
  import opened TomlValues
  import opened Wrappers

  /** A node and the components on the way to it. */
  datatype Located = Located(path: seq<Component>, node: Value)

  /** All nodes of a tree, each below its keys and positions; elements count from the left. */
  function Nodes(v: Value): seq<Located>
    decreases v, 1
  {
    [Located([], v)] +
    match v
    case Array(vs) => ElementNodes(vs, 0)
    case Table(es) => EntryNodes(es)
    case _ => []
  }

  function ElementNodes(vs: seq<Value>, first: nat): seq<Located>
    decreases vs, 0
  {
    if vs == [] then [] else Below(Index(first), Nodes(vs[0])) + ElementNodes(vs[1..], first + 1)
  }

  function EntryNodes(es: seq<Entry>): seq<Located>
    decreases es, 0
  {
    if es == [] then [] else Below(Key(es[0].key), NodesOfEntry(es[0])) + EntryNodes(es[1..])
  }

  function NodesOfEntry(e: Entry): seq<Located>
    decreases e, 2
  {
    Nodes(e.value)
  }

  function Below(c: Component, ns: seq<Located>): (r: seq<Located>)
    ensures |r| == |ns|
  {
    seq(|ns|, i requires 0 <= i < |ns| => Located([c] + ns[i].path, ns[i].node))
  }

  lemma InBelow(c: Component, ns: seq<Located>, n: Located)
    ensures n in Below(c, ns) <==> n.path != [] && n.path[0] == c && Located(n.path[1..], n.node) in ns
  {
    if n in Below(c, ns) {
      var i :| 0 <= i < |ns| && Below(c, ns)[i] == n;
      assert n.path[1..] == ns[i].path;
    }
    if n.path != [] && n.path[0] == c && Located(n.path[1..], n.node) in ns {
      var i :| 0 <= i < |ns| && ns[i] == Located(n.path[1..], n.node);
      assert [c] + ns[i].path == n.path;
      assert Below(c, ns)[i] == n;
    }
  }

  lemma {:induction false} InElements(vs: seq<Value>, first: nat, n: Located)
    ensures n in ElementNodes(vs, first) <==>
            && n.path != [] && n.path[0].Index? && first <= n.path[0].index < first + |vs|
            && Located(n.path[1..], n.node) in Nodes(vs[n.path[0].index - first])
    decreases |vs|
  {
    hide Nodes, Below;
    if vs != [] {
      InBelow(Index(first), Nodes(vs[0]), n);
      InElements(vs[1..], first + 1, n);
    }
  }

  /** No table of the tree has a key twice: a table is a map. */
  ghost predicate IsTree(v: Value)
    decreases v
  {
    match v
    case Array(vs) => forall x | x in vs :: IsTree(x)
    case Table(es) =>
      (forall i, j | 0 <= i < j < |es| :: es[i].key != es[j].key) && forall e | e in es :: IsTree(e.value)
    case _ => true
  }

  lemma {:induction false} InEntries(es: seq<Entry>, n: Located)
    requires forall i, j | 0 <= i < j < |es| :: es[i].key != es[j].key
    ensures n in EntryNodes(es) <==>
            && n.path != [] && n.path[0].Key? && Get(es, n.path[0].key).Some?
            && Located(n.path[1..], n.node) in Nodes(Get(es, n.path[0].key).value)
    ensures forall k :: Get(es, k).Some? ==> exists e :: e in es && e.key == k && e.value == Get(es, k).value
    decreases |es|
  {
    hide Nodes, Below;
    if es != [] {
      InBelow(Key(es[0].key), Nodes(es[0].value), n);
      InEntries(es[1..], n);
      assert es[0] in es;
    }
  }

  /** Following components leads to a node exactly if the enumeration has it there. */
  lemma {:induction false} FollowFinds(v: Value, cs: seq<Component>, n: Value)
    requires IsTree(v)
    ensures Follow(v, cs) == Some(n) <==> Located(cs, n) in Nodes(v)
    decreases |cs|
  {
    hide ElementNodes, EntryNodes;
    NodesOf(v, Located(cs, n));
    if cs != [] {
      match v
      case Array(vs) =>
        InElements(vs, 0, Located(cs, n));
        if cs[0].Index? && cs[0].index < |vs| { FollowFinds(vs[cs[0].index], cs[1..], n); }
      case Table(es) =>
        InEntries(es, Located(cs, n));
        if cs[0].Key? && Get(es, cs[0].key).Some? { FollowFinds(Get(es, cs[0].key).value, cs[1..], n); }
      case _ =>
    }
  }

  lemma NodesOf(v: Value, n: Located)
    ensures n in Nodes(v) <==>
            || (n.path == [] && n.node == v)
            || (v.Array? && n in ElementNodes(v.elems, 0))
            || (v.Table? && n in EntryNodes(v.entries))
    ensures (v.Array? && n in ElementNodes(v.elems, 0)) || (v.Table? && n in EntryNodes(v.entries)) ==> n.path != []
  {
    if v.Array? { InElements(v.elems, 0, n); }
    if v.Table? { EntriesHavePaths(v.entries, n); }
  }

  lemma {:induction false} EntriesHavePaths(es: seq<Entry>, n: Located)
    ensures n in EntryNodes(es) ==> n.path != []
    decreases |es|
  {
    if es != [] {
      InBelow(Key(es[0].key), Nodes(es[0].value), n);
      EntriesHavePaths(es[1..], n);
    }
  }

  /** The walk over components ends at a node exactly if the tree has it there; a scalar or empty root has nothing. */
  lemma ComponentsReach(root: Value, cs: seq<Component>, n: Value)
    requires IsTree(root)
    ensures ComponentWalk(root, cs) == Some(n) <==>
            && ((root.Array? && root.elems != []) || (root.Table? && root.entries != []))
            && Located(cs, n) in Nodes(root)
  {
    hide Nodes, Follow;
    FollowFinds(root, cs, n);
  }

  /** The printed path of a node leads to it. */
  lemma PrintedPathReaches(root: Value, n: Located)
    requires IsTree(root) && n in Nodes(root) && n.path != [] && Clean(n.path) && NothingLost(n.path)
    requires forall c | c in n.path :: c.Index? ==> c.index <= Numerals.U64_MAX
    ensures TextWalk(root, Print(n.path)) == Some(n.node)
  {
    hide Parse, Print, Fold, Follow, Clean, NothingLost;
    NodesOf(root, n);
    NotEmpty(root, n);
    hide Nodes;
    PathRoundTrip(n.path);
    FoldFollows(root, n.path);
    FollowFinds(root, n.path, n.node);
  }

  lemma NotEmpty(root: Value, n: Located)
    requires n in Nodes(root) && n.path != []
    ensures (root.Array? && root.elems != []) || (root.Table? && root.entries != [])
  {}
}
