/** What every accepted statement keeps: the document only grows, and a table is opened once. */
module DefinitionRuns {
  import opened Wrappers
  import opened Definitions
  import opened DefinitionValues

  /** A table that statements may still extend: not inline and not part of a value. */
  ghost predicate Section(s: State, t: Id) {
    IsTable(s.store, t) && !IsInline(s.store, t) && t !in s.values
  }

  ghost predicate NoRepeats(ids: seq<Id>) {
    forall i, j | 0 <= i < j < |ids| :: ids[i] != ids[j]
  }

  /** The parser's vectors: no table is in two of them, and none but values is off limits. */
  ghost predicate Roles(s: State) {
    && Section(s, Root) && Root !in s.implicit && Root !in s.dotted && Root !in s.headed
    && (forall i | i in s.implicit :: Section(s, i) && i !in s.dotted && i !in s.headed)
    && (forall i | i in s.headed :: Section(s, i) && i !in s.dotted)
    && NoRepeats(s.implicit) && NoRepeats(s.headed)
    && s.open == []
  }

  /** Arrays of tables hold at least one table, and only tables that may be extended. */
  ghost predicate TableArrays(s: State) {
    forall a | a in s.arrays ::
      && IsArray(s.store, a) && a !in s.values && Elems(s.store, a) != []
      && forall e | e in Elems(s.store, a) :: Section(s, e)
  }

  /** Values are closed: everything below a value is a value. */
  ghost predicate Values(s: State) {
    && (forall v | v in s.values :: v in s.store)
    && (forall v, k | v in s.values && k in Kids(s.store, v) :: Kids(s.store, v)[k] in s.values)
    && (forall v, e | v in s.values && e in Elems(s.store, v) :: e in s.values)
    && (forall t | t in s.store && IsInline(s.store, t) :: t in s.values)
    && (forall a | a in s.store && IsArray(s.store, a) && a !in s.arrays :: a in s.values)
    && EnteredInline(s)
  }

  /** A table that is entered as a value is inline. */
  ghost predicate EnteredInline(s: State) {
    forall t, k | t in s.store && t !in s.values && k in Kids(s.store, t) && Kids(s.store, t)[k] in s.values ::
      IsTable(s.store, Kids(s.store, t)[k]) ==> IsInline(s.store, Kids(s.store, t)[k])
  }

  ghost predicate Inv(s: State) {
    Core(s) && Roles(s) && TableArrays(s) && Values(s)
  }

  ghost predicate NodeGrows(n: Node, n': Node) {
    match n
    case Scalar(_) => n' == n
    case Table(inline, kids) => n'.Table? && n'.inline == inline && forall k | k in kids :: k in n'.kids && n'.kids[k] == kids[k]
    case Array(elems) => n'.Array? && elems <= n'.elems
  }

  /**
    The document only grows: nothing is removed or replaced, arrays of tables are appended to,
    values do not change at all, and a table that has stopped being implicit never is again.
  */
  ghost predicate Grow(s: State, s': State) {
    && (forall i | i in s.store :: i in s'.store && NodeGrows(s.store[i], s'.store[i]))
    && (forall i | i in s.store :: i in s.values <==> i in s'.values)
    && (forall i | i in s.values && i in s.store :: s'.store[i] == s.store[i])
    && (forall i | i in s.store && i in s'.implicit :: i in s.implicit)
    && (forall i | i in s.store :: i in s.dotted <==> i in s'.dotted)
    && (forall i | i in s.store :: i in s.arrays <==> i in s'.arrays)
    && s.headed <= s'.headed
  }

  lemma NodeGrowsTransitive(a: Node, b: Node, c: Node)
    requires NodeGrows(a, b) && NodeGrows(b, c)
    ensures NodeGrows(a, c)
  {}

  lemma GrowTransitive(a: State, b: State, c: State)
    requires Grow(a, b) && Grow(b, c)
    ensures Grow(a, c)
  {
    forall i | i in a.store ensures i in c.store && NodeGrows(a.store[i], c.store[i]) {
      NodeGrowsTransitive(a.store[i], b.store[i], c.store[i]);
    }
    hide NodeGrows;
  }

  lemma GrowReflexive(s: State)
    ensures Grow(s, s)
  {}

  // ---------------------------------------------------------------- single changes

  /** `s'` is `s` with the empty table `s.next` under the new key `k` of `t`. */
  ghost predicate Attached(s: State, s': State, t: Id, k: Key) {
    var m, m' := s.store, s'.store;
    && s' == s.(store := m', next := s.next + 1)
    && m'.Keys == m.Keys + {s.next} && s.next !in m && t in m && k !in Kids(m, t)
    && m'[s.next] == Table(false, map[])
    && (forall i | i in m && i != t :: m'[i] == m[i])
    && IsTable(m, t) && m'[t] == Table(IsInline(m, t), Kids(m, t)[k := s.next])
  }

  lemma NewTableAttaches(s: State, t: Id, k: Key)
    requires Core(s) && IsTable(s.store, t) && k !in Kids(s.store, t)
    ensures Attached(s, NewTable(s, t, k), t, k) && Core(NewTable(s, t, k))
  {
    AllocFrame(s, Table(false, map[]), 0);
    LinkFrame(Alloc(s, Table(false, map[])), t, k, s.next, 0);
  }

  lemma AttachedRoles(s: State, s': State, t: Id, k: Key)
    requires Roles(s) && Attached(s, s', t, k) && s.next !in s.values
    ensures Roles(s') && Section(s', s.next)
  {
    assert forall i | Section(s, i) :: Section(s', i);
  }

  lemma AttachedArrays(s: State, s': State, t: Id, k: Key)
    requires TableArrays(s) && Attached(s, s', t, k)
    ensures TableArrays(s')
  {
    assert forall i | Section(s, i) :: Section(s', i);
    assert forall a | a in s.store && a != t :: Elems(s'.store, a) == Elems(s.store, a);
  }

  lemma AttachedValues(s: State, s': State, t: Id, k: Key)
    requires Core(s) && Values(s) && Attached(s, s', t, k) && t !in s.values
    ensures Values(s')
  {
    hide EnteredInline;
    AttachedKids(s, s', t, k);
    AttachedEntered(s, s', t, k);
  }

  lemma AttachedKids(s: State, s': State, t: Id, k: Key)
    requires Core(s) && Attached(s, s', t, k)
    ensures var m, m' := s.store, s'.store;
            && (forall i | i in m && i != t :: Kids(m', i) == Kids(m, i) && Elems(m', i) == Elems(m, i))
            && Kids(m', s.next) == map[] && Elems(m', s.next) == [] && Elems(m', t) == []
            && Kids(m', t) == Kids(m, t)[k := s.next]
  {
    hide Core;
  }

  lemma AttachedEntered(s: State, s': State, t: Id, k: Key)
    requires Core(s) && EnteredInline(s) && Attached(s, s', t, k) && t !in s.values && s.next !in s.values
    ensures EnteredInline(s')
  {
    var m, m' := s.store, s'.store;
    AttachedKids(s, s', t, k);
    hide Elems;
    forall i, j | i in m' && i !in s'.values && j in Kids(m', i) && Kids(m', i)[j] in s'.values
      ensures IsTable(m', Kids(m', i)[j]) ==> IsInline(m', Kids(m', i)[j])
    {
      if Kids(m', i)[j] != s.next { assert i in m && j in Kids(m, i) && Kids(m, i)[j] == Kids(m', i)[j]; }
    }
  }

  lemma AttachedGrows(s: State, s': State, t: Id, k: Key)
    requires Attached(s, s', t, k) && t !in s.values
    ensures Grow(s, s')
  {
    assert forall i | i in s.store && i != t :: NodeGrows(s.store[i], s'.store[i]);
    assert NodeGrows(s.store[t], s'.store[t]);
  }

  /** The next id is in no vector yet. */
  ghost predicate Unused(s: State, n: Id) {
    n !in s.implicit && n !in s.dotted && n !in s.headed && n !in s.arrays && n !in s.values && n != Root
  }

  lemma NextUnused(s: State)
    requires Inv(s)
    ensures Unused(s, s.next)
  {}

  lemma NewTableKeeps(s: State, t: Id, k: Key)
    requires Inv(s) && Section(s, t) && k !in Kids(s.store, t)
    ensures var s' := NewTable(s, t, k);
            Inv(s') && Grow(s, s') && Section(s', s.next) && Unused(s', s.next) && s.next !in s.store
  {
    hide Core, Roles, TableArrays, Values, Grow;
    var s' := NewTable(s, t, k);
    NextUnused(s);
    NewTableAttaches(s, t, k);
    AttachedRoles(s, s', t, k);
    AttachedArrays(s, s', t, k);
    AttachedValues(s, s', t, k);
    AttachedGrows(s, s', t, k);
  }

  lemma NewDottedKeeps(s: State, t: Id, k: Key)
    requires Inv(s) && Section(s, t) && k !in Kids(s.store, t)
    ensures Inv(NewDotted(s, t, k)) && Grow(s, NewDotted(s, t, k)) && Section(NewDotted(s, t, k), s.next)
    ensures NewDotted(s, t, k).values == s.values
  {
    hide Inv, Grow, Section;
    var s1 := NewTable(s, t, k);
    assert s1.dotted == s.dotted && s1.values == s.values;
    NewTableKeeps(s, t, k);
    PushDotted(s, s1, s.next);
  }

  /** Arrays of tables and values do not depend on the other vectors. */
  lemma VectorsOnly(s: State, s': State)
    requires Inv(s) && s'.store == s.store && s'.values == s.values && s'.arrays == s.arrays
    ensures TableArrays(s') && Values(s')
  {
    hide Core, Roles;
    assert forall i | Section(s, i) :: Section(s', i);
    assert EnteredInline(s) ==> EnteredInline(s');
  }

  lemma PushDotted(s: State, s1: State, n: Id)
    requires Inv(s1) && Grow(s, s1) && Section(s1, n) && Unused(s1, n) && n !in s.store
    ensures var s2 := s1.(dotted := s1.dotted + [n]); Inv(s2) && Grow(s, s2) && Section(s2, n)
  {
    var s2 := s1.(dotted := s1.dotted + [n]);
    VectorsOnly(s1, s2);
    hide TableArrays, Values;
    assert Core(s2) && Roles(s2);
  }

  lemma NewImplicitKeeps(s: State, t: Id, k: Key)
    requires Inv(s) && Section(s, t) && k !in Kids(s.store, t)
    ensures Inv(NewImplicit(s, t, k)) && Grow(s, NewImplicit(s, t, k)) && Section(NewImplicit(s, t, k), s.next)
    ensures NewImplicit(s, t, k).values == s.values
  {
    hide Inv, Grow, Section;
    var s1 := NewTable(s, t, k);
    assert s1.implicit == s.implicit && s1.values == s.values;
    NewTableKeeps(s, t, k);
    PushImplicit(s, s1, s.next);
  }

  lemma PushImplicit(s: State, s1: State, n: Id)
    requires Inv(s1) && Grow(s, s1) && Section(s1, n) && Unused(s1, n) && n !in s.store
    ensures var s2 := s1.(implicit := s1.implicit + [n]); Inv(s2) && Grow(s, s2) && Section(s2, n)
  {
    var s2 := s1.(implicit := s1.implicit + [n]);
    VectorsOnly(s1, s2);
    hide TableArrays, Values;
    assert Core(s2) && Roles(s2);
  }

  // ---------------------------------------------------------------- key-value pairs

  lemma {:induction false} WalkDottedKeeps(s: State, t: Id, keys: seq<Key>)
    requires Inv(s) && Section(s, t)
    ensures var w := WalkDotted(s, t, keys);
            w.Some? ==>
              Inv(w.value.0) && Grow(s, w.value.0) && Section(w.value.0, w.value.1) && w.value.0.values == s.values
    decreases |keys|
  {
    hide Inv, Grow;
    if |keys| <= 1 {
      GrowReflexive(s);
    } else if keys[0] in Kids(s.store, t) {
      var p := Kids(s.store, t)[keys[0]];
      if Passable(s, p) {
        PassableSection(s, t, keys[0]);
        WalkDottedKeeps(s, p, keys[1..]);
      }
    } else {
      NewDottedKeeps(s, t, keys[0]);
      var s1 := NewDotted(s, t, keys[0]);
      WalkDottedKeeps(s1, s.next, keys[1..]);
      var w := WalkDotted(s1, s.next, keys[1..]);
      if w.Some? { GrowTransitive(s, s1, w.value.0); }
    }
  }

  /** The tables a dotted key passes are no values and have not been opened by a header. */
  lemma PassableSection(s: State, t: Id, k: Key)
    requires Inv(s) && Section(s, t) && k in Kids(s.store, t) && Passable(s, Kids(s.store, t)[k])
    ensures Section(s, Kids(s.store, t)[k]) && Kids(s.store, t)[k] !in s.headed
  {}

  /** The state once a value has been built on top of `s` and entered under `k` of `t`. */
  lemma ValueKeeps(s: State, t: Id, k: Key, s1: State, n: Id)
    requires Inv(s) && Section(s, t) && k !in Kids(s.store, t)
    requires Core(s1) && FreshFrom(s1, s.next) && Only(s, s1, s.next) && s1.open == s.open
    requires n in s1.store && n !in s.store && (IsTable(s1.store, n) ==> IsInline(s1.store, n))
    ensures var s2 := Link(s1, t, k, n).(values := s1.values + (Link(s1, t, k, n).store.Keys - s.store.Keys));
            Inv(s2) && Grow(s, s2)
  {
    hide Inv, Core, Roles, TableArrays, Values, FreshFrom, Only;
    var s2 := Link(s1, t, k, n).(values := s1.values + (Link(s1, t, k, n).store.Keys - s.store.Keys));
    BuiltOf(s, t, k, s1, n);
    InvParts(s);
    BuiltRoles(s, s2, t, k, n);
    BuiltArrays(s, s2, t, k, n);
    BuiltValues(s, s2, t, k, n);
    BuiltGrows(s, s2, t, k, n);
    BuiltCore(s, s2, t, k, n);
    InvParts(s2);
  }

  lemma BuiltCore(s: State, s': State, t: Id, k: Key, n: Id)
    requires Built(s, s', t, k, n)
    ensures Core(s')
  {}

  lemma InvParts(s: State)
    ensures Inv(s) <==> Core(s) && Roles(s) && TableArrays(s) && Values(s)
  {}

  /** `s'` is `s` with the value `n`, all of it new, under the new key `k` of `t`. */
  ghost predicate Built(s: State, s': State, t: Id, k: Key, n: Id) {
    var m, m' := s.store, s'.store;
    && IsTable(m, t) && k !in Kids(m, t) && n in m' && n !in m
    && (forall i | i in m :: i in m' && i < s.next && (i != t ==> m'[i] == m[i]))
    && m'[t] == Table(IsInline(m, t), Kids(m, t)[k := n])
    && (forall i | i in m' && i !in m :: i >= s.next)
    && (forall i, j | i in m' && i !in m && j in Kids(m', i) :: Kids(m', i)[j] in m' && Kids(m', i)[j] !in m)
    && (forall i, e | i in m' && i !in m && e in Elems(m', i) :: e in m' && e !in m)
    && (IsTable(m', n) ==> IsInline(m', n))
    && s'.implicit == s.implicit && s'.arrays == s.arrays && s'.headed == s.headed && s'.open == s.open
    && s'.values == s.values + (m'.Keys - m.Keys)
    && (forall i | i in s.dotted :: i in s'.dotted)
    && (forall i | i in s'.dotted :: i in s.dotted || i !in m)
    && Core(s')
  }

  lemma BuiltOf(s: State, t: Id, k: Key, s1: State, n: Id)
    requires Inv(s) && Section(s, t) && k !in Kids(s.store, t)
    requires Core(s1) && FreshFrom(s1, s.next) && Only(s, s1, s.next) && s1.open == s.open
    requires n in s1.store && n !in s.store && (IsTable(s1.store, n) ==> IsInline(s1.store, n))
    ensures Built(s, Link(s1, t, k, n).(values := s1.values + (Link(s1, t, k, n).store.Keys - s.store.Keys)), t, k, n)
  {
    hide Roles, TableArrays, Values;
    var s2 := Link(s1, t, k, n);
    LinkCore(s1, t, k, n);
    LinkKids(s1, t, k, n);
    assert t < s.next && IsTable(s1.store, t) && s1.store[t] == s.store[t];
    hide Link;
    assert forall i | i in s.store :: i < s.next;
    assert forall i | i in s2.store && i !in s.store :: i >= s.next;
  }

  lemma LinkCore(s: State, t: Id, k: Key, n: Id)
    requires Core(s) && n in s.store
    ensures Core(Link(s, t, k, n)) && IsTable(s.store, t) ==> Link(s, t, k, n).store[t] == Table(IsInline(s.store, t), Kids(s.store, t)[k := n])
    ensures Core(Link(s, t, k, n)) && Link(s, t, k, n) == s.(store := Link(s, t, k, n).store)
  {
    LinkFrame(s, t, k, n, 0);
  }

  lemma BuiltRoles(s: State, s': State, t: Id, k: Key, n: Id)
    requires Roles(s) && Built(s, s', t, k, n) && t !in s.values
    ensures Roles(s')
  {
    assert forall i | Section(s, i) :: Section(s', i);
    hide Core;
  }

  lemma BuiltArrays(s: State, s': State, t: Id, k: Key, n: Id)
    requires TableArrays(s) && Built(s, s', t, k, n) && t !in s.values
    ensures TableArrays(s')
  {
    hide Core;
    assert forall i | Section(s, i) :: Section(s', i);
    assert forall a | a in s.store && a != t :: Elems(s'.store, a) == Elems(s.store, a);
  }

  lemma BuiltValues(s: State, s': State, t: Id, k: Key, n: Id)
    requires Core(s) && Values(s) && Built(s, s', t, k, n) && t !in s.values
    ensures Values(s')
  {
    hide EnteredInline, Built, Core;
    BuiltEntered(s, s', t, k, n);
    BuiltClosed(s, s', t, k, n);
    BuiltOffLimits(s, s', t, k, n);
  }

  lemma BuiltClosed(s: State, s': State, t: Id, k: Key, n: Id)
    requires Values(s) && Built(s, s', t, k, n) && t !in s.values
    ensures forall v | v in s'.values :: v in s'.store
    ensures forall v, j | v in s'.values && j in Kids(s'.store, v) :: Kids(s'.store, v)[j] in s'.values
    ensures forall v, e | v in s'.values && e in Elems(s'.store, v) :: e in s'.values
  {
    hide EnteredInline, Core;
    assert forall i | i in s.store && i != t :: Kids(s'.store, i) == Kids(s.store, i) && Elems(s'.store, i) == Elems(s.store, i);
  }

  lemma BuiltOffLimits(s: State, s': State, t: Id, k: Key, n: Id)
    requires Values(s) && Built(s, s', t, k, n) && t !in s.values
    ensures forall i | i in s'.store && IsInline(s'.store, i) :: i in s'.values
    ensures forall a | a in s'.store && IsArray(s'.store, a) && a !in s'.arrays :: a in s'.values
  {
    hide EnteredInline, Core;
  }

  lemma BuiltEntered(s: State, s': State, t: Id, k: Key, n: Id)
    requires Core(s) && EnteredInline(s) && Built(s, s', t, k, n) && t !in s.values
    ensures EnteredInline(s')
  {
    var m, m' := s.store, s'.store;
    assert forall i | i in m && i != t :: Kids(m', i) == Kids(m, i);
    hide Elems;
    forall i, j | i in m' && i !in s'.values && j in Kids(m', i) && Kids(m', i)[j] in s'.values
      ensures IsTable(m', Kids(m', i)[j]) ==> IsInline(m', Kids(m', i)[j])
    {
      if i != t || j != k { assert j in Kids(m, i) && Kids(m, i)[j] == Kids(m', i)[j] && Kids(m, i)[j] in m; }
    }
  }

  lemma BuiltGrows(s: State, s': State, t: Id, k: Key, n: Id)
    requires Built(s, s', t, k, n) && t !in s.values && Values(s)
    ensures Grow(s, s')
  {
    hide Core;
    assert forall i | i in s.store && i != t :: NodeGrows(s.store[i], s'.store[i]);
    assert NodeGrows(s.store[t], s'.store[t]);
  }

  /** A whole key-value pair. */
  lemma PairKeeps(s: State, t: Id, p: Pair)
    requires Inv(s) && Section(s, t)
    ensures var w, r := WalkDotted(s, t, p.keys), EvalPair(s, t, p, 0);
            w.Some? && r.Some? ==>
              var s' := r.value.(values := r.value.values + (r.value.store.Keys - w.value.0.store.Keys));
              Inv(s') && Grow(s, s')
  {
    hide Inv, Grow, Section, Core, FreshFrom, Only;
    WalkDottedKeeps(s, t, p.keys);
    var w, r := WalkDotted(s, t, p.keys), EvalPair(s, t, p, 0);
    if w.Some? && r.Some? {
      var (s1, t1) := w.value;
      InvParts(s1);
      FreshNone(s1);
      EvalFrame(s1, p.value, 0, s1.next);
      var (s2, n) := Eval(s1, p.value, 0).value;
      ValueKeeps(s1, t1, Last(p.keys), s2, n);
      LinkRest(s2, t1, Last(p.keys), n);
      GrowTransitive(s, s1, r.value.(values := r.value.values + (r.value.store.Keys - s1.store.Keys)));
    }
  }

  lemma FreshNone(s: State)
    requires Core(s)
    ensures FreshFrom(s, s.next)
  {}

  // ---------------------------------------------------------------- headers

  lemma {:induction false} WalkHeaderKeeps(s: State, t: Id, keys: seq<Key>)
    requires Inv(s) && Section(s, t)
    ensures var w := WalkHeader(s, t, keys);
            w.Some? ==> Inv(w.value.0) && Grow(s, w.value.0) && Section(w.value.0, w.value.1)
    decreases |keys|
  {
    hide Inv, Grow, Section;
    if |keys| <= 1 {
      GrowReflexive(s);
    } else if keys[0] in Kids(s.store, t) {
      EnterSection(s, t, keys[0]);
      var p := Enter(s, Kids(s.store, t)[keys[0]]);
      if p.Some? { WalkHeaderKeeps(s, p.value, keys[1..]); }
    } else {
      NewImplicitKeeps(s, t, keys[0]);
      var s1 := NewImplicit(s, t, keys[0]);
      WalkHeaderKeeps(s1, s.next, keys[1..]);
      var w := WalkHeader(s1, s.next, keys[1..]);
      if w.Some? { GrowTransitive(s, s1, w.value.0); }
    }
  }

  /** A header only goes on from tables that may be extended. */
  lemma EnterSection(s: State, t: Id, k: Key)
    requires Inv(s) && Section(s, t) && k in Kids(s.store, t)
    ensures var p := Enter(s, Kids(s.store, t)[k]); p.Some? ==> Section(s, p.value)
  {
    var c := Kids(s.store, t)[k];
    if IsArray(s.store, c) && c in s.arrays {
      assert LastOf(Elems(s.store, c)) in Elems(s.store, c);
    }
  }

  lemma PushHeaded(s: State, s1: State, n: Id)
    requires Inv(s1) && Grow(s, s1) && Section(s1, n)
    requires n !in s1.implicit && n !in s1.dotted && n !in s1.headed && n != Root
    ensures var s2 := s1.(headed := s1.headed + [n]); Inv(s2) && Grow(s, s2) && Section(s2, n)
  {
    var s2 := s1.(headed := s1.headed + [n]);
    VectorsOnly(s1, s2);
    hide TableArrays, Values;
    assert Core(s2) && Roles(s2);
  }

  lemma ConsNoRepeats(x: Id, ids: seq<Id>)
    ensures NoRepeats([x] + ids) <==> NoRepeats(ids) && x !in ids
  {
    var s := [x] + ids;
    assert forall i | 0 <= i < |ids| :: s[i + 1] == ids[i];
    if NoRepeats(s) {
      forall i, j | 0 <= i < j < |ids| ensures ids[i] != ids[j] { assert s[i + 1] != s[j + 1]; }
      forall i | 0 <= i < |ids| ensures ids[i] != x { assert s[0] != s[i + 1]; }
    }
  }

  lemma {:induction false} EraseOnce(ids: seq<Id>, x: Id)
    requires NoRepeats(ids)
    ensures NoRepeats(Erase(ids, x))
    ensures forall i :: i in Erase(ids, x) <==> i in ids && i != x
  {
    if ids != [] {
      assert ids == [ids[0]] + ids[1..];
      ConsNoRepeats(ids[0], ids[1..]);
      hide NoRepeats;
      EraseOnce(ids[1..], x);
      if ids[0] != x { ConsNoRepeats(ids[0], Erase(ids[1..], x)); }
    }
  }

  /** Promotion: the table stops being implicit. */
  lemma PromoteKeeps(s: State, m: Id)
    requires Inv(s) && m in s.implicit
    ensures var s1 := s.(implicit := Erase(s.implicit, m));
            && Inv(s1) && Grow(s, s1) && Section(s1, m)
            && m !in s1.implicit && m !in s1.dotted && m !in s1.headed && m != Root
  {
    EraseOnce(s.implicit, m);
    var s1 := s.(implicit := Erase(s.implicit, m));
    VectorsOnly(s, s1);
    hide TableArrays, Values;
    assert Core(s1) && Roles(s1);
  }

  /** One more table at the end of an array of tables. */
  lemma NewElementKeeps(s: State, a: Id)
    requires Inv(s) && a in s.arrays
    ensures var s1 := NewElement(s, a);
            Inv(s1) && Grow(s, s1) && Section(s1, s.next) && Unused(s1, s.next) && s.next !in s.store
  {
    hide Inv, Grow;
    ArrayParts(s, a);
    NextUnused(s);
    InvParts(s);
    NewElementCore(s, a);
    NewElementArrays(s, NewElement(s, a), a);
    NewElementValues(s, NewElement(s, a), a);
    ExtendedKeeps(s, NewElement(s, a), a);
    InvParts(NewElement(s, a));
  }

  lemma ArrayParts(s: State, a: Id)
    requires Inv(s) && a in s.arrays
    ensures IsArray(s.store, a) && a !in s.values
  {}

  lemma NewElementCore(s: State, a: Id)
    requires Core(s) && IsArray(s.store, a)
    ensures Core(NewElement(s, a))
    ensures Appended(s, NewElement(s, a), a)
  {
    AllocFrame(s, Table(false, map[]), 0);
    AppendFrame(Alloc(s, Table(false, map[])), a, s.next, 0);
  }

  /** Of the nodes of `s` only `c` has changed, by growing, and it is no value. */
  ghost predicate Extended(s: State, s': State, c: Id) {
    && s'.implicit == s.implicit && s'.dotted == s.dotted && s'.headed == s.headed && s'.open == s.open && s'.values == s.values
    && (forall i | i in s.store :: i in s'.store && (i != c ==> s'.store[i] == s.store[i]))
    && c in s.store && c !in s.values && NodeGrows(s.store[c], s'.store[c])
    && (forall i | i in s.store :: i in s'.arrays <==> i in s.arrays)
  }

  lemma ExtendedKeeps(s: State, s': State, c: Id)
    requires Extended(s, s', c)
    ensures Grow(s, s') && (Roles(s) ==> Roles(s'))
  {
    assert forall i | i in s.store && i != c :: NodeGrows(s.store[i], s'.store[i]);
    assert forall i | Section(s, i) :: Section(s', i);
  }

  /** `s'` is `s` with one more empty table at the end of `a`. */
  ghost predicate Appended(s: State, s': State, a: Id) {
    var m, m' := s.store, s'.store;
    && s' == s.(store := m', next := s.next + 1)
    && m'.Keys == m.Keys + {s.next} && s.next !in m && IsArray(m, a)
    && m'[s.next] == Table(false, map[]) && m'[a] == Array(Elems(m, a) + [s.next])
    && (forall i | i in m && i != a :: m'[i] == m[i])
  }

  lemma NewElementArrays(s: State, s': State, a: Id)
    requires TableArrays(s) && a in s.arrays && s.next !in s.values && Appended(s, s', a)
    ensures TableArrays(s') && Section(s', s.next) && Extended(s, s', a)
  {
    assert forall i | Section(s, i) :: Section(s', i);
    assert forall b | b in s.arrays && b != a :: Elems(s'.store, b) == Elems(s.store, b);
    assert Elems(s'.store, a) == Elems(s.store, a) + [s.next];
  }

  lemma NewElementValues(s: State, s': State, a: Id)
    requires Values(s) && a in s.arrays && a !in s.values && s.next !in s.values && Appended(s, s', a)
    ensures Values(s')
  {
    var m, m' := s.store, s'.store;
    assert forall i | i in m :: Kids(m', i) == Kids(m, i);
    assert Kids(m', s.next) == map[] && Elems(m', s.next) == [];
    assert forall i | i in m && i != a :: Elems(m', i) == Elems(m, i) && m'[i] == m[i];
  }

  /** A new array of tables with its first table. */
  lemma NewArrayKeeps(s: State, t: Id, k: Key)
    requires Inv(s) && Section(s, t) && k !in Kids(s.store, t)
    ensures var s1 := NewArray(s, t, k);
            Inv(s1) && Grow(s, s1) && Section(s1, s.next + 1) && Unused(s1, s.next + 1) && s.next + 1 !in s.store
  {
    hide Inv, Grow;
    NextUnused(s);
    NextUnused2(s);
    InvParts(s);
    NewArrayAttaches(s, t, k);
    NewArrayArrays(s, NewArray(s, t, k), t, k);
    NewArrayValues(s, NewArray(s, t, k), t, k);
    ExtendedKeeps(s, NewArray(s, t, k), t);
    InvParts(NewArray(s, t, k));
  }

  lemma NextUnused2(s: State)
    requires Inv(s)
    ensures Unused(s, s.next + 1) && s.next + 1 !in s.store
  {}

  /** `s'` is `s` with an array of one empty table under the new key `k` of `t`. */
  ghost predicate AttachedArray(s: State, s': State, t: Id, k: Key) {
    var m, m' := s.store, s'.store;
    && s' == s.(store := m', next := s.next + 2, arrays := s.arrays + [s.next])
    && m'.Keys == m.Keys + {s.next, s.next + 1} && s.next !in m && s.next + 1 !in m && t in m && k !in Kids(m, t)
    && m'[s.next] == Array([s.next + 1]) && m'[s.next + 1] == Table(false, map[])
    && (forall i | i in m && i != t :: m'[i] == m[i])
    && IsTable(m, t) && m'[t] == Table(IsInline(m, t), Kids(m, t)[k := s.next])
  }

  lemma NewArrayAttaches(s: State, t: Id, k: Key)
    requires Core(s) && IsTable(s.store, t) && k !in Kids(s.store, t)
    ensures Core(NewArray(s, t, k)) && AttachedArray(s, NewArray(s, t, k), t, k)
  {
    hide Core, Only, FreshFrom;
    var s0 := Alloc(s, Array([]));
    FreshZero(s);
    AllocFrame(s, Array([]), 0);
    LinkFrame(s0, t, k, s.next, 0);
    LinkKids(s0, t, k, s.next);
    LinkRest(s0, t, k, s.next);
    var s1 := Link(s0, t, k, s.next);
    var s2 := s1.(arrays := s.arrays + [s.next]);
    CoreOfStore(s1, s2);
    NewElementCore(s2, s.next);
    BelowNext(s);
  }

  lemma FreshZero(s: State)
    ensures FreshFrom(s, 0)
  {}

  lemma CoreOfStore(s: State, s': State)
    requires Core(s) && s' == s.(arrays := s'.arrays)
    ensures Core(s')
  {}

  lemma BelowNext(s: State)
    requires Core(s)
    ensures forall i | i in s.store :: i < s.next
  {}

  lemma NewArrayArrays(s: State, s': State, t: Id, k: Key)
    requires TableArrays(s) && Section(s, t) && AttachedArray(s, s', t, k)
    requires Unused(s, s.next) && Unused(s, s.next + 1)
    ensures TableArrays(s') && Section(s', s.next + 1) && Extended(s, s', t) && Unused(s', s.next + 1)
  {
    assert forall i | Section(s, i) :: Section(s', i);
    assert forall b | b in s.arrays :: b != t && Elems(s'.store, b) == Elems(s.store, b);
    assert Elems(s'.store, s.next) == [s.next + 1];
    assert NodeGrows(s.store[t], s'.store[t]);
  }

  lemma NewArrayValues(s: State, s': State, t: Id, k: Key)
    requires Values(s) && Section(s, t) && AttachedArray(s, s', t, k)
    requires Unused(s, s.next) && Unused(s, s.next + 1)
    ensures Values(s')
  {
    var m, m' := s.store, s'.store;
    assert forall i | i in m && i != t :: Kids(m', i) == Kids(m, i) && Elems(m', i) == Elems(m, i);
    assert Kids(m', s.next) == map[] && Kids(m', s.next + 1) == map[] && Elems(m', s.next + 1) == [];
    assert Elems(m', t) == [] && Kids(m', t) == Kids(m, t)[k := s.next];
    forall i, j | i in m' && i !in s.values && j in Kids(m', i) && Kids(m', i)[j] in s.values
      ensures IsTable(m', Kids(m', i)[j]) ==> IsInline(m', Kids(m', i)[j])
    {
      assert i in m && j in Kids(m, i) && Kids(m, i)[j] == Kids(m', i)[j] && Kids(m, i)[j] in m && Kids(m, i)[j] != t;
    }
  }

  /** The last segment of a header, once the table it opens is recorded. */
  lemma OpenLastKeeps(s: State, t: Id, k: Key, isArray: bool)
    requires Inv(s) && Section(s, t)
    ensures var r := OpenLast(s, t, k, isArray);
            r.Some? ==>
              var s' := r.value.0.(headed := r.value.0.headed + [r.value.1]);
              Inv(s') && Grow(s, s') && Section(s', r.value.1)
  {
    hide Inv, Grow, Section;
    if k in Kids(s.store, t) {
      var m := Kids(s.store, t)[k];
      if isArray && IsArray(s.store, m) && m in s.arrays {
        NewElementKeeps(s, m);
        PushHeaded(s, NewElement(s, m), s.next);
      } else if !isArray && Promotable(s, m) {
        PromoteKeeps(s, m);
        PushHeaded(s, s.(implicit := Erase(s.implicit, m)), m);
      }
    } else if isArray {
      NewArrayKeeps(s, t, k);
      PushHeaded(s, NewArray(s, t, k), s.next + 1);
    } else {
      NewTableKeeps(s, t, k);
      PushHeaded(s, NewTable(s, t, k), s.next);
    }
  }
}
