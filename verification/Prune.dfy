/** `array::prune` and `table::prune` of `toml.hpp`: erasing empty tables and arrays in place. */
module Prune {
  import opened Sequences
  import opened TomlValues

  // ---------------------------------------------------------------- what pruning computes

  /** A child as it is left by the recursive call on it. */
  function Pruned(v: Value): Value
    decreases v, 1
  {
    match v
    case Array(es) => Array(PruneElems(es, true))
    case Table(es) => Table(PruneEntries(es, true))
    case _ => v
  }

  function PruneElems(es: seq<Value>, recursive: bool): seq<Value>
    decreases es, 0
  {
    if es == [] then [] else
      var v := if recursive then Pruned(es[0]) else es[0];
      (if IsEmpty(v) then [] else [v]) + PruneElems(es[1..], recursive)
  }

  function PruneEntries(es: seq<Entry>, recursive: bool): seq<Entry>
    decreases es, 0
  {
    if es == [] then [] else
      PruneEntry(es[0], recursive) + PruneEntries(es[1..], recursive)
  }

  function PruneEntry(e: Entry, recursive: bool): seq<Entry>
    decreases e, 2
  {
    var v := if recursive then Pruned(e.value) else e.value;
    if IsEmpty(v) then [] else [Entry(e.key, v)]
  }

  // ---------------------------------------------------------------- nothing empty is left

  /** No table or array below the root of `v` is empty. */
  predicate NoEmptyBelow(v: Value)
    decreases v
  {
    match v
    case Array(es) => forall e | e in es :: !IsEmpty(e) && NoEmptyBelow(e)
    case Table(es) => forall e | e in es :: !IsEmpty(e.value) && NoEmptyBelow(e.value)
    case _ => true
  }

  lemma {:induction false} PrunedHasNoEmpty(v: Value)
    ensures NoEmptyBelow(Pruned(v))
    decreases v, 1
  {
    match v
    case Array(es) => ElemsHaveNoEmpty(es);
    case Table(es) => EntriesHaveNoEmpty(es);
    case _ =>
  }

  lemma {:induction false} ElemsHaveNoEmpty(es: seq<Value>)
    ensures forall e | e in PruneElems(es, true) :: !IsEmpty(e) && NoEmptyBelow(e)
    decreases es, 0
  {
    if es != [] {
      PrunedHasNoEmpty(es[0]);
      ElemsHaveNoEmpty(es[1..]);
      hide NoEmptyBelow, Pruned;
    }
  }

  lemma {:induction false} EntriesHaveNoEmpty(es: seq<Entry>)
    ensures forall e | e in PruneEntries(es, true) :: !IsEmpty(e.value) && NoEmptyBelow(e.value)
    decreases es, 0
  {
    if es != [] {
      EntryHasNoEmpty(es[0]);
      EntriesHaveNoEmpty(es[1..]);
      hide NoEmptyBelow, Pruned, PruneEntry;
    }
  }

  lemma {:induction false} EntryHasNoEmpty(e: Entry)
    ensures forall x | x in PruneEntry(e, true) :: !IsEmpty(x.value) && NoEmptyBelow(x.value)
    decreases e, 2
  {
    PrunedHasNoEmpty(e.value);
    hide NoEmptyBelow, Pruned;
  }

  // ---------------------------------------------------------------- every scalar is kept, in order

  /** One step from a container to a child: an element of an array, or the value under a key. */
  datatype Hop = Elem | Under(key: Text)

  /** A scalar with the way that leads to it. */
  datatype Found = Found(way: seq<Hop>, scalar: Value)

  function Behind(h: Hop, fs: seq<Found>): (r: seq<Found>)
    ensures |r| == |fs|
  {
    seq(|fs|, i requires 0 <= i < |fs| => Found([h] + fs[i].way, fs[i].scalar))
  }

  /** Every scalar of a tree with its way, from left to right. */
  function Scalars(v: Value): seq<Found>
    decreases v, 1
  {
    match v
    case Array(es) => ElemScalars(es)
    case Table(es) => EntryScalars(es)
    case _ => [Found([], v)]
  }

  function ElemScalars(es: seq<Value>): seq<Found>
    decreases es, 0
  {
    if es == [] then [] else Behind(Elem, Scalars(es[0])) + ElemScalars(es[1..])
  }

  function EntryScalars(es: seq<Entry>): seq<Found>
    decreases es, 0
  {
    if es == [] then [] else OneEntryScalars(es[0]) + EntryScalars(es[1..])
  }

  function OneEntryScalars(e: Entry): seq<Found>
    decreases e, 2
  {
    Behind(Under(e.key), Scalars(e.value))
  }

  lemma EmptyHasNoScalars(v: Value)
    requires IsEmpty(v)
    ensures Scalars(v) == []
  {}

  /** Pruning keeps every scalar under its keys, in the same order. */
  lemma {:induction false} PruneKeepsScalars(v: Value)
    ensures Scalars(Pruned(v)) == Scalars(v)
    decreases v, 1
  {
    match v
    case Array(es) => ElemsKeepScalars(es, true);
    case Table(es) => EntriesKeepScalars(es, true);
    case _ =>
  }

  lemma {:induction false} ElemsKeepScalars(es: seq<Value>, recursive: bool)
    ensures ElemScalars(PruneElems(es, recursive)) == ElemScalars(es)
    decreases es, 0
  {
    if es != [] {
      PruneKeepsScalars(es[0]);
      ElemsKeepScalars(es[1..], recursive);
      hide Scalars, Pruned;
      var v := if recursive then Pruned(es[0]) else es[0];
      var rest := PruneElems(es[1..], recursive);
      if IsEmpty(v) {
        EmptyHasNoScalars(v);
        assert PruneElems(es, recursive) == rest && Behind(Elem, []) + ElemScalars(rest) == ElemScalars(rest);
      } else {
        assert PruneElems(es, recursive) == [v] + rest && ([v] + rest)[1..] == rest;
      }
    }
  }

  lemma {:induction false} EntriesKeepScalars(es: seq<Entry>, recursive: bool)
    ensures EntryScalars(PruneEntries(es, recursive)) == EntryScalars(es)
    decreases es, 0
  {
    if es != [] {
      EntryKeepsScalars(es[0], recursive);
      EntriesKeepScalars(es[1..], recursive);
      hide Scalars, Pruned;
      var e, rest := PruneEntry(es[0], recursive), PruneEntries(es[1..], recursive);
      if e == [] {
        assert e + rest == rest && OneEntryScalars(es[0]) + EntryScalars(es[1..]) == EntryScalars(es[1..]);
      } else {
        assert (e + rest)[0] == e[0] && (e + rest)[1..] == rest;
      }
    }
  }

  lemma {:induction false} EntryKeepsScalars(e: Entry, recursive: bool)
    ensures var r := PruneEntry(e, recursive);
            |r| <= 1 && OneEntryScalars(e) == if r == [] then [] else OneEntryScalars(r[0])
    decreases e, 2
  {
    PruneKeepsScalars(e.value);
    hide Scalars, Pruned;
    var v := if recursive then Pruned(e.value) else e.value;
    if IsEmpty(v) { EmptyHasNoScalars(v); }
  }

  // ---------------------------------------------------------------- pruning again changes nothing

  /** A tree is left as it is exactly if nothing below its root is empty. */
  lemma {:induction false} PrunedIsSame(v: Value)
    ensures Pruned(v) == v <==> NoEmptyBelow(v)
    decreases v, 1
  {
    PrunedHasNoEmpty(v);
    if NoEmptyBelow(v) {
      match v
      case Array(es) => ElemsSame(es);
      case Table(es) => EntriesSame(es);
      case _ =>
    }
  }

  lemma {:induction false} ElemsSame(es: seq<Value>)
    requires forall e | e in es :: !IsEmpty(e) && NoEmptyBelow(e)
    ensures PruneElems(es, true) == es
    decreases es, 0
  {
    if es != [] {
      assert es[0] in es;
      PrunedIsSame(es[0]);
      hide NoEmptyBelow, Pruned;
      forall e | e in es[1..] ensures e in es {}
      ElemsSame(es[1..]);
      assert es == [es[0]] + es[1..];
    }
  }

  lemma {:induction false} EntriesSame(es: seq<Entry>)
    requires forall e | e in es :: !IsEmpty(e.value) && NoEmptyBelow(e.value)
    ensures PruneEntries(es, true) == es
    decreases es, 0
  {
    if es != [] {
      assert es[0] in es;
      EntrySame(es[0]);
      hide NoEmptyBelow, Pruned, PruneEntry;
      forall e | e in es[1..] ensures e in es {}
      EntriesSame(es[1..]);
      assert es == [es[0]] + es[1..];
    }
  }

  lemma {:induction false} EntrySame(e: Entry)
    requires !IsEmpty(e.value) && NoEmptyBelow(e.value)
    ensures PruneEntry(e, true) == [e]
    decreases e, 2
  {
    PrunedIsSame(e.value);
  }

  lemma PruneTwice(v: Value)
    ensures Pruned(Pruned(v)) == Pruned(v)
  {
    PrunedHasNoEmpty(v);
    PrunedIsSame(Pruned(v));
  }

  // ---------------------------------------------------------------- in place

  function Kept(v: Value, recursive: bool): Value {
    if recursive then Pruned(v) else v
  }

  lemma ElemsStep(es: seq<Value>, i: nat, recursive: bool)
    requires i < |es|
    ensures var v := Kept(es[i], recursive);
            PruneElems(es[i..], recursive) == (if IsEmpty(v) then [] else [v]) + PruneElems(es[i + 1..], recursive)
    ensures es[..i + 1] == es[..i] + [es[i]]
  {
    assert es[i..][0] == es[i] && es[i..][1..] == es[i + 1..];
  }

  lemma EntriesStep(es: seq<Entry>, i: nat, recursive: bool)
    requires i < |es|
    ensures var v := Kept(es[i].value, recursive);
            PruneEntries(es[i..], recursive) ==
            (if IsEmpty(v) then [] else [Entry(es[i].key, v)]) + PruneEntries(es[i + 1..], recursive)
    ensures es[i..] == [es[i]] + es[i + 1..]
  {
    assert es[i..][0] == es[i] && es[i..][1..] == es[i + 1..];
  }

  /** Erasing or replacing the element between `a` and `b`. */
  lemma Between<T>(a: seq<T>, x: T, b: seq<T>, y: T)
    ensures var s := a + [x] + b;
            s[|a|] == x && s[..|a|] == a && s[..|a|] + s[|a| + 1..] == a + b && s[|a| := y] == a + [y] + b
  {}

  lemma Units<T>(a: seq<T>)
    ensures [] + a == a && a + [] == a && a[..|a|] == a && a[|a|..] == [] && a[0..] == a
  {}

  lemma NothingToPrune(recursive: bool)
    ensures PruneElems([], recursive) == [] && PruneEntries([], recursive) == []
  {}

  class NodeArray {
    var elems: seq<Value>

    constructor (elems: seq<Value>)
      ensures this.elems == elems
    {
      this.elems := elems;
    }

    /** `array::prune`: from the back, so that erasing does not move what is still to come. */
    method Prune(recursive: bool)
      modifies this
      ensures elems == PruneElems(old(elems), recursive)
      decreases elems, 0
    {
      hide PruneElems, Pruned, Kept, IsEmpty;
      ghost var was := elems;
      var i := |elems|;
      Units(was);
      NothingToPrune(recursive);
      while i > 0
        invariant 0 <= i <= |was|
        invariant elems == was[..i] + PruneElems(was[i..], recursive)
      {
        i := i - 1;
        ghost var kept := PruneElems(was[i + 1..], recursive);
        ElemsStep(was, i, recursive);
        assert was[i] in was;
        Between(was[..i], was[i], kept, Kept(was[i], recursive));
        Assoc(was[..i], [Kept(was[i], recursive)], kept);
        Units(kept);
        var child := PruneChild(elems[i], recursive);
        if IsEmpty(child) {
          elems := elems[..i] + elems[i + 1..];
        } else {
          elems := elems[i := child];
        }
      }
      Units(elems);
    }
  }

  class NodeTable {
    var map_: seq<Entry>

    constructor (entries: seq<Entry>)
      ensures map_ == entries
    {
      map_ := entries;
    }

    /** `table::prune`: an iterator that only moves on over entries that stay. */
    method Prune(recursive: bool)
      modifies this
      ensures map_ == PruneEntries(old(map_), recursive)
      decreases map_, 0
    {
      hide PruneEntries, Pruned, Kept, IsEmpty;
      ghost var was, k, done := map_, 0, [];
      var it := 0;
      Units(was);
      Units(PruneEntries(was, recursive));
      while it < |map_|
        invariant k <= |was| && it == |done|
        invariant map_ == done + was[k..]
        invariant PruneEntries(was, recursive) == done + PruneEntries(was[k..], recursive)
        decreases |map_| - it
      {
        EntriesStep(was, k, recursive);
        assert was[k] in was;
        ghost var kept := Entry(was[k].key, Kept(was[k].value, recursive));
        ghost var rest := PruneEntries(was[k + 1..], recursive);
        Assoc(done, [was[k]], was[k + 1..]);
        Between(done, was[k], was[k + 1..], kept);
        Assoc(done, [kept], rest);
        Units(rest);
        var e := map_[it];
        var child := PruneChild(e.value, recursive);
        if IsEmpty(child) {
          map_ := map_[..it] + map_[it + 1..];
        } else {
          map_ := map_[it := Entry(e.key, child)];
          it := it + 1;
          done := done + [kept];
        }
        k := k + 1;
      }
      NothingToPrune(recursive);
      Units(done);
    }
  }

  /** A child before it is looked at: pruned in place, through its owner, if the call is recursive. */
  method PruneChild(v: Value, recursive: bool) returns (r: Value)
    ensures r == Kept(v, recursive)
    decreases v, 1
  {
    if !recursive { return v; }
    match v
    case Array(es) =>
      var a := new NodeArray(es);
      a.Prune(true);
      return Array(a.elems);
    case Table(es) =>
      var t := new NodeTable(es);
      t.Prune(true);
      return Table(t.map_);
    case _ => return v;
  }
}
