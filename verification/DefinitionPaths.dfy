/** Paths of keys: which node they lead to, that no other path leads there, and that a table is defined once. */
module DefinitionPaths {
  import opened Wrappers
  import opened Definitions
  import opened DefinitionValues
  import opened DefinitionRuns
  import opened DefinitionTheorems

  // ---------------------------------------------------------------- one parent

  /** A place in a table, under a key, or in an array. */
  datatype Place = Place(parent: Id, key: Option<Key>)

  ghost predicate Holds(s: State, p: Place, c: Id) {
    match p.key
    case Some(k) => k in Kids(s.store, p.parent) && Kids(s.store, p.parent)[k] == c
    case None => c in Elems(s.store, p.parent)
  }

  /** Outside of values every node has one place, and the root has none. */
  ghost predicate Tree(s: State) {
    && Root in s.store && Root !in s.values
    && (forall p, p', c | Holds(s, p, c) && Holds(s, p', c) && c !in s.values :: p == p')
    && (forall p :: !Holds(s, p, Root))
  }

  lemma StartTree()
    ensures Tree(Empty)
  {}

  lemma HeldIsStored(s: State, p: Place, c: Id)
    requires Core(s) && Holds(s, p, c)
    ensures c in s.store
  {}

  /** Outside of values the only new children of `s'` are new nodes, each at one place. */
  ghost predicate Places(s: State, s': State, added: map<Id, Place>) {
    && Root !in s'.values && Root in s'.store
    && (forall p, c | Holds(s', p, c) && c !in s'.values ::
          (Holds(s, p, c) && c !in s.values) || (c !in s.store && c in added && added[c] == p))
  }

  lemma TreeGrows(s: State, s': State, added: map<Id, Place>)
    requires Core(s) && Tree(s) && Places(s, s', added)
    ensures Tree(s')
  {
    hide Core, Holds;
    forall p, p', c | Holds(s', p, c) && Holds(s', p', c) && c !in s'.values ensures p == p' {
      if Holds(s, p, c) { HeldIsStored(s, p, c); }
      if Holds(s, p', c) { HeldIsStored(s, p', c); }
    }
  }

  lemma AttachedTree(s: State, s': State, t: Id, k: Key)
    requires Core(s) && Tree(s) && Attached(s, s', t, k)
    ensures Tree(s')
  {
    hide Core;
    var m, m' := s.store, s'.store;
    assert forall i | i != t :: Kids(m', i) == Kids(m, i);
    assert forall i :: Elems(m', i) == Elems(m, i);
    assert Kids(m', t) == Kids(m, t)[k := s.next];
    TreeGrows(s, s', map[s.next := Place(t, Some(k))]);
  }

  lemma AppendedTree(s: State, s': State, a: Id)
    requires Core(s) && Tree(s) && Appended(s, s', a)
    ensures Tree(s')
  {
    hide Core;
    var m, m' := s.store, s'.store;
    assert forall i :: Kids(m', i) == Kids(m, i);
    assert forall i | i != a :: Elems(m', i) == Elems(m, i);
    assert Elems(m', a) == Elems(m, a) + [s.next];
    TreeGrows(s, s', map[s.next := Place(a, None)]);
  }

  lemma AttachedArrayTree(s: State, s': State, t: Id, k: Key)
    requires Core(s) && Tree(s) && AttachedArray(s, s', t, k)
    ensures Tree(s')
  {
    hide Core;
    var m, m' := s.store, s'.store;
    assert forall i | i != t :: Kids(m', i) == Kids(m, i);
    assert forall i | i != s.next :: Elems(m', i) == Elems(m, i);
    assert Kids(m', t) == Kids(m, t)[k := s.next] && Elems(m', s.next) == [s.next + 1];
    TreeGrows(s, s', map[s.next := Place(t, Some(k)), s.next + 1 := Place(s.next, None)]);
  }

  lemma BuiltTree(s: State, s': State, t: Id, k: Key, n: Id)
    requires Core(s) && Tree(s) && Built(s, s', t, k, n)
    ensures Tree(s')
  {
    hide Core;
    var m, m' := s.store, s'.store;
    assert forall i | i in m && i != t :: Kids(m', i) == Kids(m, i) && Elems(m', i) == Elems(m, i);
    assert Kids(m', t) == Kids(m, t)[k := n] && Elems(m', t) == [];
    TreeGrows(s, s', map[]);
  }

  /** The parser's vectors do not matter. */
  lemma TreeOf(s: State, s': State)
    requires Tree(s) && s'.store == s.store && s'.values == s.values
    ensures Tree(s')
  {
    assert forall p, c :: Holds(s', p, c) <==> Holds(s, p, c);
    hide Holds;
  }

  lemma NewTableTree(s: State, t: Id, k: Key)
    requires Inv(s) && Tree(s) && Section(s, t) && k !in Kids(s.store, t)
    ensures Tree(NewTable(s, t, k)) && Tree(NewDotted(s, t, k)) && Tree(NewImplicit(s, t, k))
  {
    hide Tree, Core, Roles, TableArrays, Values, NewTable, Attached;
    NewTableAttaches(s, t, k);
    AttachedTree(s, NewTable(s, t, k), t, k);
    TreeOf(NewTable(s, t, k), NewDotted(s, t, k));
    TreeOf(NewTable(s, t, k), NewImplicit(s, t, k));
  }

  lemma {:induction false} WalkDottedTree(s: State, t: Id, keys: seq<Key>)
    requires Inv(s) && Tree(s) && Section(s, t)
    ensures var w := WalkDotted(s, t, keys); w.Some? ==> Tree(w.value.0)
    decreases |keys|
  {
    hide Inv, Section, Tree;
    if |keys| > 1 {
      if keys[0] in Kids(s.store, t) {
        if Passable(s, Kids(s.store, t)[keys[0]]) {
          PassableSection(s, t, keys[0]);
          WalkDottedTree(s, Kids(s.store, t)[keys[0]], keys[1..]);
        }
      } else {
        NewDottedKeeps(s, t, keys[0]);
        NewTableTree(s, t, keys[0]);
        WalkDottedTree(NewDotted(s, t, keys[0]), s.next, keys[1..]);
      }
    }
  }

  lemma {:induction false} WalkHeaderTree(s: State, t: Id, keys: seq<Key>)
    requires Inv(s) && Tree(s) && Section(s, t)
    ensures var w := WalkHeader(s, t, keys); w.Some? ==> Tree(w.value.0)
    decreases |keys|
  {
    hide Inv, Section, Tree;
    if |keys| > 1 {
      if keys[0] in Kids(s.store, t) {
        EnterSection(s, t, keys[0]);
        var p := Enter(s, Kids(s.store, t)[keys[0]]);
        if p.Some? { WalkHeaderTree(s, p.value, keys[1..]); }
      } else {
        NewImplicitKeeps(s, t, keys[0]);
        NewTableTree(s, t, keys[0]);
        WalkHeaderTree(NewImplicit(s, t, keys[0]), s.next, keys[1..]);
      }
    }
  }

  lemma OpenLastTree(s: State, t: Id, k: Key, isArray: bool)
    requires Inv(s) && Tree(s) && Section(s, t)
    ensures var r := OpenLast(s, t, k, isArray); r.Some? ==> Tree(r.value.0)
  {
    hide Tree, Core, Roles, TableArrays, Values, NewTable, NewArray, NewElement, Attached, AttachedArray, Appended;
    if k !in Kids(s.store, t) {
      NewArrayAttaches(s, t, k);
      AttachedArrayTree(s, NewArray(s, t, k), t, k);
      NewTableTree(s, t, k);
    } else {
      var m := Kids(s.store, t)[k];
      if IsArray(s.store, m) {
        NewElementCore(s, m);
        AppendedTree(s, NewElement(s, m), m);
      }
      TreeOf(s, s.(implicit := Erase(s.implicit, m)));
    }
  }

  lemma PairTree(s: State, t: Id, p: Pair)
    requires Inv(s) && Tree(s) && Section(s, t)
    ensures var w, r := WalkDotted(s, t, p.keys), EvalPair(s, t, p, 0);
            w.Some? && r.Some? ==>
              Tree(r.value.(values := r.value.values + (r.value.store.Keys - w.value.0.store.Keys)))
  {
    hide Inv, Tree, Section, Core, FreshFrom, Only, Built;
    WalkDottedKeeps(s, t, p.keys);
    WalkDottedTree(s, t, p.keys);
    var w, r := WalkDotted(s, t, p.keys), EvalPair(s, t, p, 0);
    if w.Some? && r.Some? {
      var (s1, t1) := w.value;
      InvParts(s1);
      FreshNone(s1);
      EvalFrame(s1, p.value, 0, s1.next);
      var (s2, n) := Eval(s1, p.value, 0).value;
      LinkRest(s2, t1, Last(p.keys), n);
      BuiltOf(s1, t1, Last(p.keys), s2, n);
      BuiltTree(s1, r.value.(values := r.value.values + (r.value.store.Keys - s1.store.Keys)), t1, Last(p.keys), n);
    }
  }

  lemma StepTree(d: Doc, st: Statement)
    requires DocInv(d) && Tree(d.s) && Step(d, st).Some?
    ensures Tree(Step(d, st).value.s)
  {
    hide Inv, Tree, Section, Header, EvalPair, WalkDotted, OpenLast;
    match st
    case HeaderLine(keys, isArray) =>
      RootSection(d.s);
      HeaderOf(d.s, keys, isArray);
      WalkHeaderKeeps(d.s, Root, keys);
      WalkHeaderTree(d.s, Root, keys);
      var (s1, t) := WalkHeader(d.s, Root, keys).value;
      OpenLastTree(s1, t, Last(keys), isArray);
      TreeOf(OpenLast(s1, t, Last(keys), isArray).value.0, Step(d, st).value.s);
    case PairLine(p) =>
      PairTree(d.s, d.current, p);
  }

  lemma {:induction false} RunTree(sts: seq<Statement>)
    requires Run(sts).Some?
    ensures Tree(Run(sts).value.s)
  {
    hide Tree, DocInv, Step;
    if sts == [] { StartTree(); } else {
      RunInv(sts[..|sts| - 1]);
      RunTree(sts[..|sts| - 1]);
      StepTree(Run(sts[..|sts| - 1]).value, sts[|sts| - 1]);
    }
  }

  // ---------------------------------------------------------------- where a path leads

  function Front(keys: seq<Key>): seq<Key>
    requires keys != []
  {
    keys[..|keys| - 1]
  }

  /** The table a path of keys leads to from table `t`, entering arrays of tables at their last element. */
  function Reach(s: State, t: Id, keys: seq<Key>): Option<Id>
    decreases |keys|
  {
    if keys == [] then Some(t)
    else if keys[0] !in Kids(s.store, t) then None
    else
      var p := Enter(s, Kids(s.store, t)[keys[0]]);
      if p.None? then None else Reach(s, p.value, keys[1..])
  }

  /** The node under the last key of a path from the root. */
  function Lookup(s: State, keys: seq<Key>): Option<Id> {
    if keys == [] then None else
      var t := Reach(s, Root, Front(keys));
      if t.None? || Last(keys) !in Kids(s.store, t.value) then None else Some(Kids(s.store, t.value)[Last(keys)])
  }

  lemma {:induction false} ReachMore(s: State, t: Id, a: seq<Key>, b: seq<Key>)
    ensures Reach(s, t, a + b) == var u := Reach(s, t, a); if u.None? then None else Reach(s, u.value, b)
    decreases |a|
  {
    if a == [] {
      assert a + b == b;
    } else {
      assert (a + b)[1..] == a[1..] + b;
      if a[0] in Kids(s.store, t) {
        var p := Enter(s, Kids(s.store, t)[a[0]]);
        if p.Some? { ReachMore(s, p.value, a[1..], b); }
      }
    }
  }

  /** The last step of a path. */
  lemma ReachLast(s: State, keys: seq<Key>)
    requires keys != []
    ensures Reach(s, Root, keys) == var n := Lookup(s, keys); if n.None? then None else Enter(s, n.value)
  {
    assert keys == Front(keys) + [Last(keys)];
    ReachMore(s, Root, Front(keys), [Last(keys)]);
  }

  lemma {:induction false} ReachSection(s: State, t: Id, keys: seq<Key>)
    requires Inv(s) && Section(s, t)
    ensures var u := Reach(s, t, keys); u.Some? ==> Section(s, u.value)
    decreases |keys|
  {
    hide Inv, Section;
    if keys != [] && keys[0] in Kids(s.store, t) {
      EnterSection(s, t, keys[0]);
      var p := Enter(s, Kids(s.store, t)[keys[0]]);
      if p.Some? { ReachSection(s, p.value, keys[1..]); }
    }
  }

  /** No array has changed from `s` to `s'`. */
  ghost predicate ArraysStay(s: State, s': State) {
    s'.open == s.open && forall a | a in s.store && IsArray(s.store, a) :: a in s'.store && s'.store[a] == s.store[a]
  }

  lemma EnterStays(s: State, s': State, t: Id, k: Key)
    requires Grow(s, s') && ArraysStay(s, s') && Core(s) && t in s.store && k in Kids(s.store, t)
    ensures k in Kids(s'.store, t) && Kids(s'.store, t)[k] == Kids(s.store, t)[k]
    ensures Enter(s, Kids(s.store, t)[k]).Some? ==> Enter(s', Kids(s.store, t)[k]) == Enter(s, Kids(s.store, t)[k])
  {
    var c := Kids(s.store, t)[k];
    assert NodeGrows(s.store[t], s'.store[t]);
    assert c in s.store && NodeGrows(s.store[c], s'.store[c]);
  }

  lemma SectionStored(s: State, t: Id)
    requires Section(s, t)
    ensures t in s.store
  {}

  lemma {:induction false} WalkDottedArrays(s: State, t: Id, keys: seq<Key>)
    requires Inv(s) && Section(s, t)
    ensures var w := WalkDotted(s, t, keys); w.Some? ==> ArraysStay(s, w.value.0)
    decreases |keys|
  {
    hide Inv, Section, Grow;
    if |keys| > 1 {
      if keys[0] in Kids(s.store, t) {
        var p := Kids(s.store, t)[keys[0]];
        if Passable(s, p) {
          PassableSection(s, t, keys[0]);
          WalkDottedArrays(s, p, keys[1..]);
        }
      } else {
        NewDottedKeeps(s, t, keys[0]);
        WalkDottedArrays(NewDotted(s, t, keys[0]), s.next, keys[1..]);
        NewTableArraysStay(s, t, keys[0]);
      }
    }
  }

  lemma NewTableArraysStay(s: State, t: Id, k: Key)
    requires Inv(s)
    ensures ArraysStay(s, NewTable(s, t, k))
  {
    NextUnused3(s);
  }

  lemma NextUnused3(s: State)
    requires Inv(s)
    ensures s.next !in s.store
  {}

  lemma PairArrays(s: State, t: Id, p: Pair)
    requires Inv(s) && Section(s, t) && EvalPair(s, t, p, 0).Some?
    ensures ArraysStay(s, EvalPair(s, t, p, 0).value)
  {
    hide Inv, Section, Core, FreshFrom;
    WalkDottedArrays(s, t, p.keys);
    WalkDottedKeeps(s, t, p.keys);
    var (s1, t1) := WalkDotted(s, t, p.keys).value;
    InvParts(s1);
    FreshNone(s1);
    EvalFrame(s1, p.value, 0, s1.next);
    BelowNext(s1);
    var (s2, n) := Eval(s1, p.value, 0).value;
    assert ArraysStay(s1, s2);
    assert ArraysStay(s2, Link(s2, t1, Last(p.keys), n));
  }

  lemma {:induction false} ReachStays(s: State, s': State, t: Id, keys: seq<Key>)
    requires Inv(s) && Section(s, t) && Grow(s, s') && ArraysStay(s, s') && Reach(s, t, keys).Some?
    ensures Reach(s', t, keys) == Reach(s, t, keys)
    decreases |keys|
  {
    hide Inv, Grow, ArraysStay;
    if keys != [] {
      InvParts(s);
      SectionStored(s, t);
      EnterStays(s, s', t, keys[0]);
      EnterSection(s, t, keys[0]);
      ReachStays(s, s', Enter(s, Kids(s.store, t)[keys[0]]).value, keys[1..]);
    }
  }

  lemma LookupStays(s: State, s': State, keys: seq<Key>)
    requires Inv(s) && Grow(s, s') && ArraysStay(s, s') && Lookup(s, keys).Some?
    ensures Lookup(s', keys) == Lookup(s, keys)
  {
    hide Inv, Grow, ArraysStay, Section, Reach, Enter;
    RootSection(s);
    ReachStays(s, s', Root, Front(keys));
    var t := Reach(s, Root, Front(keys)).value;
    ReachSection(s, Root, Front(keys));
    InvParts(s);
    SectionStored(s, t);
    EnterStays(s, s', t, Last(keys));
  }

  /** The loop over a header leads along its keys, and changes no array. */
  lemma {:induction false} WalkLeads(s: State, t: Id, keys: seq<Key>)
    requires Inv(s) && Section(s, t) && keys != [] && WalkHeader(s, t, keys).Some?
    ensures var (s', t') := WalkHeader(s, t, keys).value;
            ArraysStay(s, s') && Reach(s', t, Front(keys)) == Some(t')
    decreases |keys|
  {
    hide Inv, Section, Grow, ArraysStay;
    WalkHeaderKeeps(s, t, keys);
    var s' := WalkHeader(s, t, keys).value.0;
    if |keys| == 1 {
      ArraysReflexive(s);
    } else {
      assert Front(keys)[1..] == Front(keys[1..]);
      if keys[0] in Kids(s.store, t) {
        EnterSection(s, t, keys[0]);
        WalkLeads(s, Enter(s, Kids(s.store, t)[keys[0]]).value, keys[1..]);
        InvParts(s);
        SectionStored(s, t);
        EnterStays(s, s', t, keys[0]);
      } else {
        var s0 := NewImplicit(s, t, keys[0]);
        NewImplicitKeeps(s, t, keys[0]);
        WalkLeads(s0, s.next, keys[1..]);
        NewTableArraysStay(s, t, keys[0]);
        WalkHeaderKeeps(s0, s.next, keys[1..]);
        ArraysTransitive(s, s0, s');
        EnterNew(s, s0, s', t, keys[0]);
      }
    }
  }

  lemma ArraysReflexive(s: State)
    ensures ArraysStay(s, s)
  {}

  lemma ArraysTransitive(a: State, b: State, c: State)
    requires ArraysStay(a, b) && ArraysStay(b, c)
    ensures ArraysStay(a, c)
  {}

  lemma EnterNew(s: State, s0: State, s': State, t: Id, k: Key)
    requires Inv(s) && Section(s, t) && s0 == NewImplicit(s, t, k) && Inv(s0) && Section(s0, s.next)
    requires Grow(s0, s') && ArraysStay(s0, s')
    ensures k in Kids(s'.store, t) && Kids(s'.store, t)[k] == s.next && Enter(s', s.next) == Some(s.next)
  {
    NextUnused3(s);
    assert t in s0.store && Kids(s0.store, t)[k] == s.next;
    hide NewImplicit;
    InvParts(s0);
    EnterStays(s0, s', t, k);
  }

  /** A path that is there already is walked without a change. */
  lemma {:induction false} WalkReached(s: State, t: Id, a: seq<Key>, b: seq<Key>)
    requires Reach(s, t, a).Some? && b != []
    ensures WalkHeader(s, t, a + b) == WalkHeader(s, Reach(s, t, a).value, b)
    decreases |a|
  {
    if a == [] {
      assert a + b == b;
    } else {
      assert (a + b)[1..] == a[1..] + b && (a + b)[0] == a[0];
      WalkReached(s, Enter(s, Kids(s.store, t)[a[0]]).value, a[1..], b);
    }
  }

  // ---------------------------------------------------------------- no other path leads there

  /** Entering a node of a path: the node itself, or a table of an array of tables. */
  lemma EnterPlace(s: State, n: Id)
    requires Inv(s) && Enter(s, n).Some?
    ensures Enter(s, n) == Some(n) || (n !in s.values && Holds(s, Place(n, None), Enter(s, n).value))
  {}

  lemma SamePlace(s: State, p: Place, p': Place, c: Id)
    requires Tree(s) && Holds(s, p, c) && Holds(s, p', c) && c !in s.values
    ensures p == p'
  {}

  lemma SectionIsNoValue(s: State, t: Id)
    requires Section(s, t)
    ensures t !in s.values
  {}

  /** Two nodes that are entered at the same table are the same node. */
  lemma SameEntered(s: State, a: Place, b: Place, m: Id, n: Id)
    requires Inv(s) && Tree(s) && Holds(s, a, m) && Holds(s, b, n) && a.key.Some? && b.key.Some?
    requires Enter(s, m).Some? && Enter(s, m) == Enter(s, n) && Section(s, Enter(s, m).value)
    ensures a == b
  {
    hide Inv, Tree, Holds, Enter, Section;
    var u := Enter(s, m).value;
    SectionIsNoValue(s, u);
    EnterPlace(s, m);
    EnterPlace(s, n);
    if Holds(s, Place(m, None), u) {
      if Holds(s, Place(n, None), u) { SamePlace(s, Place(m, None), Place(n, None), u); }
      else { SamePlace(s, Place(m, None), b, u); }
    } else {
      if Holds(s, Place(n, None), u) { SamePlace(s, a, Place(n, None), u); }
    }
    SamePlace(s, a, b, m);
  }

  /** The root is only where the empty path leads. */
  lemma RootIsFirst(s: State, p: Place, n: Id)
    requires Inv(s) && Tree(s) && Holds(s, p, n)
    ensures Enter(s, n) != Some(Root)
  {
    hide Inv, Holds;
    if Enter(s, n) == Some(Root) { EnterPlace(s, n); }
  }

  /** Different paths lead to different tables. */
  lemma {:induction false} OneReach(s: State, a: seq<Key>, b: seq<Key>)
    requires Inv(s) && Tree(s)
    requires Reach(s, Root, a).Some? && Reach(s, Root, a) == Reach(s, Root, b)
    ensures a == b
    decreases |a|
  {
    hide Inv, Tree, Holds, Enter, Section, Reach, Front, Last;
    var n, m := Lookup(s, a), Lookup(s, b);
    if a != [] { ReachLast(s, a); LastPlace(s, a); RootIsFirst(s, LastOfPath(s, a), n.value); }
    if b != [] { ReachLast(s, b); LastPlace(s, b); RootIsFirst(s, LastOfPath(s, b), m.value); }
    EmptyReach(s);
    if a != [] && b != [] {
      RootSection(s);
      ReachSection(s, Root, a);
      SameEntered(s, LastOfPath(s, a), LastOfPath(s, b), n.value, m.value);
      FrontAndLast(a);
      FrontAndLast(b);
      OneReach(s, Front(a), Front(b));
    }
  }

  lemma EmptyReach(s: State)
    ensures Reach(s, Root, []) == Some(Root)
  {}

  lemma FrontAndLast(keys: seq<Key>)
    requires keys != []
    ensures keys == Front(keys) + [Last(keys)] && |Front(keys)| < |keys|
  {}

  /** The place of the node under the last key of a path. */
  function LastOfPath(s: State, keys: seq<Key>): Place
    requires keys != []
  {
    Place(Reach(s, Root, Front(keys)).GetOr(Root), Some(Last(keys)))
  }

  lemma LastPlace(s: State, keys: seq<Key>)
    requires keys != [] && Lookup(s, keys).Some?
    ensures Reach(s, Root, Front(keys)).Some? && Holds(s, LastOfPath(s, keys), Lookup(s, keys).value)
  {}

  /** Different paths lead to different nodes, unless they lead into values. */
  lemma OneLookup(s: State, a: seq<Key>, b: seq<Key>)
    requires Inv(s) && Tree(s)
    requires Lookup(s, a).Some? && Lookup(s, a) == Lookup(s, b) && Lookup(s, a).value !in s.values
    ensures a == b
  {
    hide Inv, Tree, Holds, Reach, Front, Last;
    LastPlace(s, a);
    LastPlace(s, b);
    SamePlace(s, LastOfPath(s, a), LastOfPath(s, b), Lookup(s, a).value);
    OneReach(s, Front(a), Front(b));
    FrontAndLast(a);
    FrontAndLast(b);
  }

  // ---------------------------------------------------------------- one more table in an array

  /** Only the array `m` has changed from `s` to `s'`. */
  ghost predicate OthersStay(s: State, s': State, m: Id) {
    s'.open == s.open && forall a | a in s.store && IsArray(s.store, a) && a != m :: a in s'.store && s'.store[a] == s.store[a]
  }

  lemma EnterOther(s: State, s': State, t: Id, k: Key, m: Id)
    requires Grow(s, s') && OthersStay(s, s', m) && Core(s) && t in s.store && k in Kids(s.store, t)
    ensures k in Kids(s'.store, t) && Kids(s'.store, t)[k] == Kids(s.store, t)[k]
    ensures Kids(s.store, t)[k] != m && Enter(s, Kids(s.store, t)[k]).Some? ==>
              Enter(s', Kids(s.store, t)[k]) == Enter(s, Kids(s.store, t)[k])
  {
    var c := Kids(s.store, t)[k];
    assert NodeGrows(s.store[t], s'.store[t]);
    assert c in s.store && NodeGrows(s.store[c], s'.store[c]);
  }

  /** A path that does not pass the array leads where it led. */
  lemma {:induction false} ReachPast(s: State, s': State, keys: seq<Key>, m: Id)
    requires Inv(s) && Grow(s, s') && OthersStay(s, s', m) && Reach(s, Root, keys).Some?
    requires forall i | 0 < i <= |keys| :: Lookup(s, keys[..i]) != Some(m)
    ensures Reach(s', Root, keys) == Reach(s, Root, keys)
    decreases |keys|
  {
    hide Inv, Grow, OthersStay, Section, Reach, Enter, Front, Last;
    EmptyReach(s);
    EmptyReach(s');
    if keys != [] {
      ReachLast(s, keys);
      LookupParts(s, keys);
      FrontAndLast(keys);
      assert keys[..|keys|] == keys;
      assert forall i | 0 < i < |keys| :: Front(keys)[..i] == keys[..i];
      ReachPast(s, s', Front(keys), m);
      LookupPast(s, s', keys, m);
      ReachLast(s', keys);
    }
  }

  lemma LookupParts(s: State, keys: seq<Key>)
    ensures Lookup(s, keys).Some? <==>
              keys != [] && Reach(s, Root, Front(keys)).Some? && Last(keys) in Kids(s.store, Reach(s, Root, Front(keys)).value)
    ensures Lookup(s, keys).Some? ==>
              Lookup(s, keys).value == Kids(s.store, Reach(s, Root, Front(keys)).value)[Last(keys)]
  {}

  lemma LookupPast(s: State, s': State, keys: seq<Key>, m: Id)
    requires Inv(s) && Grow(s, s') && OthersStay(s, s', m) && Lookup(s, keys).Some?
    requires Reach(s', Root, Front(keys)) == Reach(s, Root, Front(keys))
    ensures Lookup(s', keys) == Lookup(s, keys)
    ensures Lookup(s, keys).value != m && Enter(s, Lookup(s, keys).value).Some? ==>
              Enter(s', Lookup(s, keys).value) == Enter(s, Lookup(s, keys).value)
  {
    hide Inv, Grow, OthersStay, Section, Reach, Enter, Front, Last, Lookup;
    LookupParts(s, keys);
    LookupParts(s', keys);
    RootSection(s);
    ReachSection(s, Root, Front(keys));
    InvParts(s);
    SectionStored(s, Reach(s, Root, Front(keys)).value);
    EnterOther(s, s', Reach(s, Root, Front(keys)).value, Last(keys), m);
  }

  lemma NewElementOthers(s: State, m: Id)
    requires Inv(s) && IsArray(s.store, m)
    ensures OthersStay(s, NewElement(s, m), m)
  {}

  lemma NewArrayOthers(s: State, t: Id, k: Key)
    requires Inv(s) && Section(s, t)
    ensures ArraysStay(s, NewArray(s, t, k))
  {}

  lemma OpenLastArrays(s: State, t: Id, k: Key, isArray: bool)
    requires Inv(s) && Section(s, t) && OpenLast(s, t, k, isArray).Some?
    ensures var s' := OpenLast(s, t, k, isArray).value.0;
            if isArray && k in Kids(s.store, t) then
              var m := Kids(s.store, t)[k];
              m !in s.values && OthersStay(s, s', m) && IsArray(s'.store, m) && LastOf(Elems(s'.store, m)) == s.next
            else ArraysStay(s, s')
  {
    hide TableArrays, Values;
    NextUnused3(s);
    if k in Kids(s.store, t) {
      var m := Kids(s.store, t)[k];
      if isArray { ArrayParts(s, m); NewElementOthers(s, m); }
    } else {
      NewArrayOthers(s, t, k);
    }
  }

  /** A header changes where a path leads only if it is an array header on the way. */
  lemma OpenLastLookup(s: State, q: seq<Key>, isArray: bool, keys: seq<Key>)
    requires Inv(s) && Tree(s) && q != [] && Reach(s, Root, Front(q)).Some? && Lookup(s, keys).Some?
    requires OpenLast(s, Reach(s, Root, Front(q)).value, Last(q), isArray).Some? && !(isArray && q < keys)
    ensures var (s', n) := OpenLast(s, Reach(s, Root, Front(q)).value, Last(q), isArray).value;
            Lookup(s'.(headed := s'.headed + [n]), keys) == Lookup(s, keys)
  {
    hide Inv, Tree, Grow, Section, Reach, Lookup, OpenLast, OthersStay, ArraysStay, Front, Last;
    var t := Reach(s, Root, Front(q)).value;
    var (s1, n) := OpenLast(s, t, Last(q), isArray).value;
    var s' := s1.(headed := s1.headed + [n]);
    RootSection(s);
    ReachSection(s, Root, Front(q));
    OpenLastKeeps(s, t, Last(q), isArray);
    OpenLastArrays(s, t, Last(q), isArray);
    if isArray && Last(q) in Kids(s.store, t) {
      var m := Kids(s.store, t)[Last(q)];
      LookupParts(s, q);
      LookupParts(s, keys);
      OthersOf(s, s1, s', m);
      forall i | 0 < i < |keys| ensures Lookup(s, keys[..i]) != Some(m) {
        if Lookup(s, keys[..i]) == Some(m) { OneLookup(s, keys[..i], q); }
      }
      PastFront(s, s', keys, m);
    } else {
      ArraysOf(s, s1, s');
      LookupStays(s, s', keys);
    }
  }

  lemma PastFront(s: State, s': State, keys: seq<Key>, m: Id)
    requires Inv(s) && Grow(s, s') && OthersStay(s, s', m) && Lookup(s, keys).Some?
    requires forall i | 0 < i < |keys| :: Lookup(s, keys[..i]) != Some(m)
    ensures Lookup(s', keys) == Lookup(s, keys)
  {
    hide Inv, Grow, OthersStay, Section, Reach, Lookup, Last;
    LookupParts(s, keys);
    assert forall i | 0 <= i < |keys| :: Front(keys)[..i] == keys[..i];
    ReachPast(s, s', Front(keys), m);
    LookupPast(s, s', keys, m);
  }

  lemma OthersOf(s: State, s1: State, s': State, m: Id)
    requires OthersStay(s, s1, m) && s'.store == s1.store && s'.open == s1.open
    ensures OthersStay(s, s', m)
  {}

  lemma ArraysOf(s: State, s1: State, s': State)
    requires ArraysStay(s, s1) && s'.store == s1.store && s'.open == s1.open
    ensures ArraysStay(s, s')
  {}

  /** `keys` leads to a table that a header has opened. */
  ghost predicate Opened(s: State, keys: seq<Key>) {
    Lookup(s, keys).Some? && Lookup(s, keys).value in s.headed
  }

  /** The parts of a header step. */
  lemma HeaderParts(d: Doc, q: seq<Key>, isArray: bool)
    requires DocInv(d) && Tree(d.s) && Step(d, HeaderLine(q, isArray)).Some?
    ensures q != [] && WalkHeader(d.s, Root, q).Some?
    ensures var s := WalkHeader(d.s, Root, q).value.0;
            && Inv(s) && Tree(s) && Grow(d.s, s) && ArraysStay(d.s, s) && Reach(s, Root, Front(q)).Some?
            && var r := OpenLast(s, Reach(s, Root, Front(q)).value, Last(q), isArray);
               r.Some? && Step(d, HeaderLine(q, isArray)) == Some(Doc(r.value.0.(headed := r.value.0.headed + [r.value.1]), r.value.1))
  {
    hide Inv, Tree, Grow, Section, Reach, Lookup, OpenLast, ArraysStay, Header, WalkHeader;
    RootSection(d.s);
    HeaderOf(d.s, q, isArray);
    WalkHeaderKeeps(d.s, Root, q);
    WalkHeaderTree(d.s, Root, q);
    WalkLeads(d.s, Root, q);
  }

  /** An opened table stays where it is, whatever follows but an array header on the way to it. */
  lemma StepKeepsOpened(d: Doc, st: Statement, keys: seq<Key>)
    requires DocInv(d) && Tree(d.s) && Opened(d.s, keys) && Step(d, st).Some?
    requires !(st.HeaderLine? && st.isArray && st.keys < keys)
    ensures Opened(Step(d, st).value.s, keys)
  {
    hide Inv, Tree, Grow, Section, Reach, Lookup, OpenLast, ArraysStay, EvalPair, WalkDotted, WalkHeader, Header;
    StepKeeps(d, st);
    HeadedStays(d.s, Step(d, st).value.s);
    match st
    case HeaderLine(q, isArray) =>
      HeaderParts(d, q, isArray);
      var s := WalkHeader(d.s, Root, q).value.0;
      LookupStays(d.s, s, keys);
      OpenLastLookup(s, q, isArray, keys);
    case PairLine(p) =>
      PairArrays(d.s, d.current, p);
      ArraysOf(d.s, EvalPair(d.s, d.current, p, 0).value, Step(d, st).value.s);
      LookupStays(d.s, Step(d, st).value.s, keys);
  }

  lemma HeadedStays(s: State, s': State)
    requires Grow(s, s')
    ensures forall i | i in s.headed :: i in s'.headed
  {}

  /** A plain header opens the table its path leads to. */
  lemma HeaderOpens(d: Doc, keys: seq<Key>)
    requires DocInv(d) && Tree(d.s) && Step(d, HeaderLine(keys, false)).Some?
    ensures Opened(Step(d, HeaderLine(keys, false)).value.s, keys)
  {
    hide Inv, Tree, Grow, Section, Reach, Lookup, ArraysStay, WalkHeader, Header;
    HeaderParts(d, keys, false);
    var s := WalkHeader(d.s, Root, keys).value.0;
    var t := Reach(s, Root, Front(keys)).value;
    var s' := Step(d, HeaderLine(keys, false)).value.s;
    RootSection(s);
    ReachSection(s, Root, Front(keys));
    OpenLastArrays(s, t, Last(keys), false);
    OpenLastKeeps(s, t, Last(keys), false);
    ArraysOf(s, OpenLast(s, t, Last(keys), false).value.0, s');
    ReachStays(s, s', Root, Front(keys));
    LookupParts(s', keys);
    OpenLastKid(s, t, Last(keys));
  }

  lemma OpenLastKid(s: State, t: Id, k: Key)
    requires Inv(s) && Section(s, t) && OpenLast(s, t, k, false).Some?
    ensures var (s', n) := OpenLast(s, t, k, false).value; k in Kids(s'.store, t) && Kids(s'.store, t)[k] == n
  {
    NextUnused3(s);
  }

  // ---------------------------------------------------------------- redefinition

  lemma HeadedIsNoHeader(s: State, t: Id, k: Key, isArray: bool)
    requires Inv(s) && Section(s, t) && k in Kids(s.store, t) && Kids(s.store, t)[k] in s.headed
    ensures OpenLast(s, t, k, isArray) == None
  {}

  /** A path that leads to a table opened before is no header any more. */
  lemma OpenedIsNoHeader(d: Doc, keys: seq<Key>, isArray: bool)
    requires DocInv(d) && Opened(d.s, keys)
    ensures Step(d, HeaderLine(keys, isArray)) == None
  {
    hide Inv, Section, Reach, OpenLast, WalkHeader, Lookup;
    LookupParts(d.s, keys);
    var t := Reach(d.s, Root, Front(keys)).value;
    FrontAndLast(keys);
    RootSection(d.s);
    ReachSection(d.s, Root, Front(keys));
    WalkReached(d.s, Root, Front(keys), [Last(keys)]);
    WalkOne(d.s, t, Last(keys));
    HeadedIsNoHeader(d.s, t, Last(keys), isArray);
  }

  lemma WalkOne(s: State, t: Id, k: Key)
    ensures WalkHeader(s, t, [k]) == Some((s, t))
  {}

  /** No array header on the way to `keys`. */
  ghost predicate KeepsPath(sts: seq<Statement>, keys: seq<Key>) {
    forall st | st in sts :: st.HeaderLine? && st.isArray ==> !(st.keys < keys)
  }

  lemma {:induction false} RunKeepsOpened(sts: seq<Statement>, keys: seq<Key>, more: seq<Statement>)
    requires KeepsPath(more, keys) && Run(sts + [HeaderLine(keys, false)] + more).Some?
    ensures Opened(Run(sts + [HeaderLine(keys, false)] + more).value.s, keys)
    decreases |more|
  {
    hide DocInv, Tree, Step, Opened;
    var all := sts + [HeaderLine(keys, false)] + more;
    if more == [] {
      assert all[..|all| - 1] == sts && all[|all| - 1] == HeaderLine(keys, false);
      RunInv(sts);
      RunTree(sts);
      HeaderOpens(Run(sts).value, keys);
    } else {
      var n := |more| - 1;
      assert all[..|all| - 1] == sts + [HeaderLine(keys, false)] + more[..n];
      assert all[|all| - 1] == more[n] && more[n] in more;
      RunKeepsOpened(sts, keys, more[..n]);
      RunInv(all[..|all| - 1]);
      RunTree(all[..|all| - 1]);
      StepKeepsOpened(Run(all[..|all| - 1]).value, more[n], keys);
    }
  }

  lemma RunLast(sts: seq<Statement>, st: Statement)
    requires Run(sts).Some?
    ensures Run(sts + [st]) == Step(Run(sts).value, st)
  {
    assert (sts + [st])[..|sts + [st]| - 1] == sts;
  }

  /**
    "You cannot define a table more than once": after a plain header a header of either kind with
    the same path is an error, whatever statements are between them but array headers on the way.
  */
  lemma RedefinitionIsRejected(sts: seq<Statement>, keys: seq<Key>, more: seq<Statement>, isArray: bool)
    requires KeepsPath(more, keys) && Run(sts + [HeaderLine(keys, false)] + more).Some?
    ensures Run(sts + [HeaderLine(keys, false)] + more + [HeaderLine(keys, isArray)]) == None
  {
    hide DocInv, Step, Opened;
    var before := sts + [HeaderLine(keys, false)] + more;
    RunKeepsOpened(sts, keys, more);
    RunInv(before);
    RunLast(before, HeaderLine(keys, isArray));
    OpenedIsNoHeader(Run(before).value, keys, isArray);
  }

  /** Behind an empty table every path is free. */
  lemma {:induction false} WalkFree(s: State, t: Id, keys: seq<Key>)
    requires Inv(s) && Section(s, t) && Kids(s.store, t) == map[] && keys != []
    ensures var w := WalkHeader(s, t, keys); w.Some? && Kids(w.value.0.store, w.value.1) == map[]
    decreases |keys|
  {
    hide Inv, Section, Grow;
    if |keys| > 1 {
      NewImplicitKeeps(s, t, keys[0]);
      NewIsEmpty(s, t, keys[0]);
      WalkFree(NewImplicit(s, t, keys[0]), s.next, keys[1..]);
    }
  }

  lemma NewIsEmpty(s: State, t: Id, k: Key)
    requires Inv(s) && Section(s, t) && k !in Kids(s.store, t)
    ensures Kids(NewImplicit(s, t, k).store, s.next) == map[]
  {
    NewTableAttaches(s, t, k);
  }

  lemma OpenLastNew(s: State, t: Id, k: Key)
    requires Inv(s) && Section(s, t) && OpenLast(s, t, k, true).Some?
    ensures var (s', n) := OpenLast(s, t, k, true).value;
            && Kids(s'.store, n) == map[] && k in Kids(s'.store, t) && Enter(s', Kids(s'.store, t)[k]) == Some(n)
  {
    hide Roles, TableArrays, Values;
    NextUnused(s);
    NextUnused2(s);
    NextUnused3(s);
    if k in Kids(s.store, t) {
      assert OpenLast(s, t, k, true).value == (NewElement(s, Kids(s.store, t)[k]), s.next);
    } else {
      NewArrayAttaches(s, t, k);
    }
  }

  /** The path of an array header leads to the new, empty table. */
  lemma ArrayHeaderOpens(d: Doc, q: seq<Key>)
    requires DocInv(d) && Tree(d.s) && Step(d, HeaderLine(q, true)).Some?
    ensures var d' := Step(d, HeaderLine(q, true)).value;
            Reach(d'.s, Root, q) == Some(d'.current) && Kids(d'.s.store, d'.current) == map[]
  {
    hide Inv, Tree, Grow, Section, Reach, Lookup, ArraysStay, OthersStay, WalkHeader, Header;
    HeaderParts(d, q, true);
    var s := WalkHeader(d.s, Root, q).value.0;
    var t := Reach(s, Root, Front(q)).value;
    var d' := Step(d, HeaderLine(q, true)).value;
    RootSection(s);
    ReachSection(s, Root, Front(q));
    OpenLastArrays(s, t, Last(q), true);
    OpenLastKeeps(s, t, Last(q), true);
    OpenLastNew(s, t, Last(q));
    var s1 := OpenLast(s, t, Last(q), true).value.0;
    if Last(q) in Kids(s.store, t) {
      var m := Kids(s.store, t)[Last(q)];
      OthersOf(s, s1, d'.s, m);
      LookupParts(s, q);
      NotOnTheWay(s, q, m);
      ReachPast(s, d'.s, Front(q), m);
    } else {
      ArraysOf(s, s1, d'.s);
      ReachStays(s, d'.s, Root, Front(q));
    }
    LookupParts(d'.s, q);
    ReachLast(d'.s, q);
  }

  /** A path does not pass the node it leads to. */
  lemma NotOnTheWay(s: State, q: seq<Key>, m: Id)
    requires Inv(s) && Tree(s) && q != [] && Lookup(s, q) == Some(m) && m !in s.values
    ensures forall i | 0 < i <= |Front(q)| :: Lookup(s, Front(q)[..i]) != Some(m)
  {
    hide Inv, Tree, Lookup;
    forall i | 0 < i <= |Front(q)| ensures Lookup(s, Front(q)[..i]) != Some(m) {
      if Lookup(s, Front(q)[..i]) == Some(m) { OneLookup(s, Front(q)[..i], q); }
    }
  }

  /** Right behind an array header every path below it is free. */
  lemma BelowNewElement(d: Doc, q: seq<Key>, keys: seq<Key>, isArray: bool)
    requires DocInv(d) && Tree(d.s) && Step(d, HeaderLine(q, true)).Some? && q < keys
    ensures Step(Step(d, HeaderLine(q, true)).value, HeaderLine(keys, isArray)).Some?
  {
    hide Inv, Tree, Grow, Section, Reach, WalkHeader, OpenLast, DocInv;
    var d' := Step(d, HeaderLine(q, true)).value;
    var rest := keys[|q|..];
    StepKeeps(d, HeaderLine(q, true));
    ArrayHeaderOpens(d, q);
    assert keys == q + rest && Last(keys) == Last(rest);
    DocParts(d');
    WalkReached(d'.s, Root, q, rest);
    WalkFree(d'.s, d'.current, rest);
    OpensFree(WalkHeader(d'.s, d'.current, rest).value.0, WalkHeader(d'.s, d'.current, rest).value.1, Last(keys), isArray);
  }

  lemma DocParts(d: Doc)
    requires DocInv(d)
    ensures Inv(d.s) && Section(d.s, d.current)
  {}

  lemma OpensFree(s: State, t: Id, k: Key, isArray: bool)
    requires Kids(s.store, t) == map[]
    ensures OpenLast(s, t, k, isArray).Some?
  {}

  /**
    What an array header does to a definition before it: the same header is an error again, except
    behind an array header on the way, where its path is free.
  */
  lemma RedefinitionBehindArray(sts: seq<Statement>, keys: seq<Key>, more: seq<Statement>, q: seq<Key>, isArray: bool)
    requires KeepsPath(more, keys)
    requires Run(sts + [HeaderLine(keys, false)] + more + [HeaderLine(q, true)]).Some?
    ensures Run(sts + [HeaderLine(keys, false)] + more + [HeaderLine(q, true)] + [HeaderLine(keys, isArray)]) == None
       <==> !(q < keys)
  {
    hide DocInv, Tree, Step;
    var before := sts + [HeaderLine(keys, false)] + more;
    var after := before + [HeaderLine(q, true)];
    assert after[..|after| - 1] == before;
    RunLast(before, HeaderLine(q, true));
    RunLast(after, HeaderLine(keys, isArray));
    if q < keys {
      RunInv(before);
      RunTree(before);
      BelowNewElement(Run(before).value, q, keys, isArray);
    } else {
      var more' := more + [HeaderLine(q, true)];
      assert after == sts + [HeaderLine(keys, false)] + more';
      RedefinitionIsRejected(sts, keys, more', isArray);
    }
  }
}
