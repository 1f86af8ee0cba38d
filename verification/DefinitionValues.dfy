/** What building a value leaves alone: `parse_value` only touches nodes it has allocated itself. */
module DefinitionValues {
  import opened Wrappers
  import opened Definitions

  /** Ids are below `next`, every child exists, and dotted-key tables are tables that are not inline. */
  ghost predicate Core(s: State) {
    && (forall i | i in s.store :: i < s.next)
    && (forall i, k | i in s.store && k in Kids(s.store, i) :: Kids(s.store, i)[k] in s.store)
    && (forall i, e | i in s.store && e in Elems(s.store, i) :: e in s.store)
    && (forall i | i in s.dotted :: IsTable(s.store, i) && !IsInline(s.store, i))
  }

  /** Nodes from `base` on only have children from `base` on. */
  ghost predicate FreshFrom(s: State, base: Id) {
    && (forall i, k | i in s.store && i >= base && k in Kids(s.store, i) :: Kids(s.store, i)[k] >= base)
    && (forall i, e | i in s.store && i >= base && e in Elems(s.store, i) :: e >= base)
  }

  predicate SameKind(n: Node, n': Node) {
    match n
    case Scalar(_) => n' == n
    case Table(inline, _) => n'.Table? && n'.inline == inline
    case Array(_) => n'.Array?
  }

  /** From `s` to `s'` only nodes from `base` on have changed, and of the vectors only `dotted` has grown. */
  ghost predicate Only(s: State, s': State, base: Id) {
    && s.next <= s'.next
    && (forall i | i < base :: i in s.store <==> i in s'.store)
    && (forall i | i < base && i in s.store :: s'.store[i] == s.store[i])
    && (forall i | i in s.store :: i in s'.store)
    && (forall i | i in s.store :: SameKind(s.store[i], s'.store[i]))
    && s'.implicit == s.implicit && s'.arrays == s.arrays && s'.headed == s.headed && s'.values == s.values
    && (forall i | i in s.dotted :: i in s'.dotted)
    && (forall i | i in s'.dotted :: i in s.dotted || i >= s.next)
  }

  lemma OnlyTransitive(a: State, b: State, c: State, base: Id)
    requires Only(a, b, base) && Only(b, c, base)
    ensures Only(a, c, base)
  {}

  lemma AllocFrame(s: State, n: Node, base: Id)
    requires Core(s) && FreshFrom(s, base) && base <= s.next
    requires n.Table? ==> n.kids == map[]
    requires n.Array? ==> n.elems == []
    ensures Core(Alloc(s, n)) && FreshFrom(Alloc(s, n), base) && Only(s, Alloc(s, n), base)
    ensures s.next in Alloc(s, n).store && Alloc(s, n).store[s.next] == n && s.next !in s.store
  {
    var m := Alloc(s, n).store;
    assert forall i | i != s.next :: Kids(m, i) == Kids(s.store, i) && Elems(m, i) == Elems(s.store, i);
  }

  /** Linking changes the children of one table, by one key. */
  lemma LinkKids(s: State, t: Id, k: Key, n: Id)
    ensures var m, m' := s.store, Link(s, t, k, n).store;
            && m'.Keys == m.Keys
            && (forall i | i in m :: SameKind(m[i], m'[i]) && (i != t ==> m'[i] == m[i]))
            && (forall i | i != t :: Kids(m', i) == Kids(m, i))
            && (forall i :: Elems(m', i) == Elems(m, i))
            && Kids(m', t) == (if IsTable(m, t) then Kids(m, t)[k := n] else map[])
  {}

  lemma LinkFrame(s: State, t: Id, k: Key, n: Id, base: Id)
    requires Core(s) && FreshFrom(s, base) && base <= t && base <= n && n in s.store
    ensures var s' := Link(s, t, k, n);
            Core(s') && FreshFrom(s', base) && Only(s, s', base) && s'.next == s.next && s'.dotted == s.dotted
  {
    LinkKids(s, t, k, n);
    LinkRest(s, t, k, n);
    hide Link, Kids, Elems;
  }

  lemma LinkRest(s: State, t: Id, k: Key, n: Id)
    ensures Link(s, t, k, n) == s.(store := Link(s, t, k, n).store)
  {}

  lemma AppendFrame(s: State, a: Id, n: Id, base: Id)
    requires Core(s) && FreshFrom(s, base) && base <= a && base <= n && n in s.store
    ensures var s' := Append(s, a, n);
            Core(s') && FreshFrom(s', base) && Only(s, s', base) && s'.next == s.next && s'.dotted == s.dotted
  {
    var m, m' := s.store, Append(s, a, n).store;
    assert forall i :: Kids(m', i) == Kids(m, i);
    assert forall i | i != a :: Elems(m', i) == Elems(m, i);
  }

  lemma NewDottedFrame(s: State, t: Id, k: Key, base: Id)
    requires Core(s) && FreshFrom(s, base) && base <= t && base <= s.next
    ensures var s' := NewDotted(s, t, k);
            && Core(s') && FreshFrom(s', base) && Only(s, s', base) && s'.open == s.open
            && s'.next == s.next + 1 && IsTable(s'.store, s.next) && !IsInline(s'.store, s.next)
  {
    hide FreshFrom, Core;
    var s1 := Alloc(s, Table(false, map[]));
    AllocFrame(s, Table(false, map[]), base);
    LinkFrame(s1, t, k, s.next, base);
    var s2 := Link(s1, t, k, s.next);
    DottedFrame(s2, s.next, base);
    LinkKids(s1, t, k, s.next);
    assert NewDotted(s, t, k) == s2.(dotted := s2.dotted + [s.next]);
  }

  lemma DottedFrame(s: State, t: Id, base: Id)
    requires Core(s) && FreshFrom(s, base) && IsTable(s.store, t) && !IsInline(s.store, t)
    ensures var s' := s.(dotted := s.dotted + [t]); Core(s') && FreshFrom(s', base)
  {}

  lemma {:induction false} WalkFrame(s: State, t: Id, keys: seq<Key>, base: Id)
    requires Core(s) && FreshFrom(s, base) && base <= t && base <= s.next && IsTable(s.store, t)
    ensures var w := WalkDotted(s, t, keys);
            w.Some? ==>
              var (s', t') := w.value;
              Core(s') && FreshFrom(s', base) && Only(s, s', base) && s'.open == s.open && base <= t' && IsTable(s'.store, t')
    decreases |keys|
  {
    hide Core, FreshFrom, Only;
    if |keys| <= 1 {
      OnlyReflexive(s, base);
    } else if keys[0] in Kids(s.store, t) {
      KidFresh(s, t, keys[0], base);
      if Passable(s, Kids(s.store, t)[keys[0]]) {
        WalkFrame(s, Kids(s.store, t)[keys[0]], keys[1..], base);
      }
    } else {
      NewDottedFrame(s, t, keys[0], base);
      var s1 := NewDotted(s, t, keys[0]);
      WalkFrame(s1, s.next, keys[1..], base);
      var w := WalkDotted(s1, s.next, keys[1..]);
      if w.Some? { OnlyTransitive(s, s1, w.value.0, base); }
    }
  }

  lemma OnlyReflexive(s: State, base: Id)
    ensures Only(s, s, base)
  {}

  lemma KidFresh(s: State, t: Id, k: Key, base: Id)
    requires FreshFrom(s, base) && base <= t && IsTable(s.store, t) && k in Kids(s.store, t)
    ensures base <= Kids(s.store, t)[k]
  {}

  /** `parse_value` on top of any document: every node that was there keeps its value. */
  lemma {:induction false} EvalFrame(s: State, v: Value, depth: nat, base: Id)
    requires Core(s) && FreshFrom(s, base) && base <= s.next
    ensures var r := Eval(s, v, depth);
            r.Some? ==>
              var (s', n) := r.value;
              && Core(s') && FreshFrom(s', base) && Only(s, s', base) && s'.open == s.open
              && n == s.next && n in s'.store && n !in s.store && (IsTable(s'.store, n) ==> IsInline(s'.store, n))
    decreases v
  {
    hide Core, FreshFrom, Only;
    if depth + 1 <= MaxNestedValues {
      match v
      case ScalarValue(text) =>
        AllocFrame(s, Scalar(text), base);
      case ArrayValue(vs) =>
        var s1 := Alloc(s, Array([]));
        AllocFrame(s, Array([]), base);
        AllocOnly(s, Array([]), base);
        EvalElemsFrame(s1, s.next, vs, depth + 1, base);
        var r := EvalElems(s1, s.next, vs, depth + 1);
        if r.Some? {
          OnlyTransitive(s, s1, r.value, base);
          NewNodeStays(s, Array([]), r.value, base);
        }
      case InlineTable(ps) =>
        var s1 := Alloc(s, Table(true, map[]));
        AllocFrame(s, Table(true, map[]), base);
        AllocOnly(s, Table(true, map[]), base);
        var s2 := s1.(open := s.open + [s.next]);
        OpenFrame(s1, s2.open, base);
        EvalPairsFrame(s2, s.next, ps, depth + 1, base);
        var r := EvalPairs(s2, s.next, ps, depth + 1);
        if r.Some? {
          OnlyOpen(s1, r.value, s.open, base);
          OpenFrame(r.value, s.open, base);
          OnlyTransitive(s, s1, r.value.(open := s.open), base);
          NewNodeStays(s, Table(true, map[]), r.value.(open := s.open), base);
        }
    }
  }

  lemma AllocOnly(s: State, n: Node, base: Id)
    requires Core(s)
    ensures Alloc(s, n).dotted == s.dotted && Alloc(s, n).next == s.next + 1 && s.next in Alloc(s, n).store
    ensures n.Table? ==> IsTable(Alloc(s, n).store, s.next)
    ensures n.Array? ==> IsArray(Alloc(s, n).store, s.next)
  {}

  lemma OpenFrame(s: State, open: seq<Id>, base: Id)
    requires Core(s) && FreshFrom(s, base)
    ensures Core(s.(open := open)) && FreshFrom(s.(open := open), base)
  {}

  lemma OnlyOpen(s: State, s': State, open: seq<Id>, base: Id)
    requires Only(s.(open := s'.open), s', base) || Only(s, s', base)
    ensures Only(s, s'.(open := open), base)
  {}

  lemma NewNodeStays(s: State, n: Node, s': State, base: Id)
    requires Core(s) && Only(Alloc(s, n), s', base) && (n.Table? ==> n.inline)
    ensures s.next in s'.store && s.next !in s.store && (IsTable(s'.store, s.next) ==> IsInline(s'.store, s.next))
  {
    assert s.next in Alloc(s, n).store;
  }

  lemma {:induction false} EvalElemsFrame(s: State, a: Id, vs: seq<Value>, depth: nat, base: Id)
    requires Core(s) && FreshFrom(s, base) && base <= a < s.next && a in s.store
    ensures var r := EvalElems(s, a, vs, depth);
            r.Some? ==> Core(r.value) && FreshFrom(r.value, base) && Only(s, r.value, base) && r.value.open == s.open
    decreases vs
  {
    hide Core, FreshFrom, Only;
    OnlyReflexive(s, base);
    if vs != [] {
      EvalFrame(s, vs[0], depth, base);
      var r := Eval(s, vs[0], depth);
      if r.Some? {
        var (s1, n) := r.value;
        OnlyKeeps(s, s1, a, base);
        AppendFrame(s1, a, n, base);
        var s2 := Append(s1, a, n);
        OnlyTransitive(s, s1, s2, base);
        OnlyKeeps(s, s2, a, base);
        EvalElemsFrame(s2, a, vs[1..], depth, base);
        var r2 := EvalElems(s2, a, vs[1..], depth);
        if r2.Some? { OnlyTransitive(s, s2, r2.value, base); }
      }
    }
  }

  lemma OnlyKeeps(s: State, s': State, i: Id, base: Id)
    requires Only(s, s', base) && i in s.store && i < s.next
    ensures i in s'.store && i < s'.next && s.next <= s'.next && IsTable(s'.store, i) == IsTable(s.store, i)
  {}

  lemma {:induction false} EvalPairsFrame(s: State, t: Id, ps: seq<Pair>, depth: nat, base: Id)
    requires Core(s) && FreshFrom(s, base) && base <= t < s.next && IsTable(s.store, t)
    ensures var r := EvalPairs(s, t, ps, depth);
            r.Some? ==> Core(r.value) && FreshFrom(r.value, base) && Only(s, r.value, base) && r.value.open == s.open
    decreases ps
  {
    hide Core, FreshFrom, Only;
    OnlyReflexive(s, base);
    if ps != [] {
      EvalPairFrame(s, t, ps[0], depth, base);
      var r := EvalPair(s, t, ps[0], depth);
      if r.Some? {
        OnlyKeeps(s, r.value, t, base);
        EvalPairsFrame(r.value, t, ps[1..], depth, base);
        var r2 := EvalPairs(r.value, t, ps[1..], depth);
        if r2.Some? { OnlyTransitive(s, r.value, r2.value, base); }
      }
    }
  }

  lemma {:induction false} EvalPairFrame(s: State, t: Id, p: Pair, depth: nat, base: Id)
    requires Core(s) && FreshFrom(s, base) && base <= t < s.next && IsTable(s.store, t)
    ensures var r := EvalPair(s, t, p, depth);
            r.Some? ==> Core(r.value) && FreshFrom(r.value, base) && Only(s, r.value, base) && r.value.open == s.open
    decreases p
  {
    hide Core, FreshFrom, Only;
    WalkFrame(s, t, p.keys, base);
    var w := WalkDotted(s, t, p.keys);
    if w.Some? && CanInsert(w.value.0, w.value.1, p.keys) {
      var (s1, t1) := w.value;
      CoreBelow(s, s1, t, base);
      EvalFrame(s1, p.value, depth, base);
      var r := Eval(s1, p.value, depth);
      if r.Some? {
        LinkFrame(r.value.0, t1, Last(p.keys), r.value.1, base);
        OnlyTransitive(s, s1, r.value.0, base);
        OnlyTransitive(s, r.value.0, Link(r.value.0, t1, Last(p.keys), r.value.1), base);
      }
    }
  }

  lemma CoreBelow(s: State, s1: State, t: Id, base: Id)
    requires Core(s) && Only(s, s1, base) && base <= t && t in s.store
    ensures base <= s1.next
  {}
}
