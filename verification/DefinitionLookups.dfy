/** Which paths of keys a statement makes lead where: each of its steps adds one path, or cuts those behind a new element. */
module DefinitionLookups {
  import opened Wrappers
  import opened Definitions
  import opened DefinitionValues
  import opened DefinitionRuns
  import opened DefinitionTheorems
  import opened DefinitionPaths

  // ---------------------------------------------------------------- one more path

  /** `s'` is `s` with the new node `n` under the new key `k` of the table at `py`, and nothing can be looked up below it. */
  ghost predicate OneMore(s: State, s': State, py: seq<Key>, t: Id, k: Key, n: Id) {
    && Inv(s) && Tree(s) && Reach(s, Root, py) == Some(t) && k !in Kids(s.store, t) && n !in s.store
    && Kids(s'.store, t) == Kids(s.store, t)[k := n]
    && (forall i | i in s.store && i != t :: Kids(s'.store, i) == Kids(s.store, i))
    && (forall c | c in s.store :: Enter(s', c) == Enter(s, c))
    && (Enter(s', n).Some? ==> Kids(s'.store, Enter(s', n).value) == map[])
  }

  lemma LookupFrom(s: State, keys: seq<Key>)
    requires keys != []
    ensures Lookup(s, keys) ==
            var u := Reach(s, Root, Front(keys));
            if u.None? || Last(keys) !in Kids(s.store, u.value) then None else Some(Kids(s.store, u.value)[Last(keys)])
  {}

  lemma LookedUpIsStored(s: State, keys: seq<Key>)
    requires Inv(s) && Lookup(s, keys).Some?
    ensures Lookup(s, keys).value in s.store
  {
    hide Roles, TableArrays, Values, Reach, Front, Last;
    LookupParts(s, keys);
  }

  lemma ReachedIsStored(s: State, keys: seq<Key>)
    requires Inv(s) && Reach(s, Root, keys).Some?
    ensures Reach(s, Root, keys).value in s.store
  {
    hide Inv, Reach, Section;
    RootSection(s);
    ReachSection(s, Root, keys);
    SectionStored(s, Reach(s, Root, keys).value);
  }

  /** Beyond a free path every path is free. */
  lemma FreeBeyond(s: State, path: seq<Key>, q: seq<Key>)
    requires path != [] && path <= q && Lookup(s, path) == None
    ensures Lookup(s, q) == None && Reach(s, Root, q) == None
  {
    hide Enter, Front, Last, Reach, Lookup;
    var rest := q[|path|..];
    assert q == path + rest;
    ReachLast(s, path);
    ReachMore(s, Root, path, rest);
    if rest != [] {
      FrontAndLast(rest);
      FrontAndLast(q);
      assert Front(q) == path + Front(rest) by { FrontBehind(path, rest); }
      ReachMore(s, Root, path, Front(rest));
      LookupFrom(s, q);
    } else {
      assert q == path;
    }
  }

  lemma FrontBehind(a: seq<Key>, b: seq<Key>)
    requires b != []
    ensures Front(a + b) == a + Front(b) && Last(a + b) == Last(b)
  {}

  lemma {:induction false} ReachOneMore(s: State, s': State, py: seq<Key>, t: Id, k: Key, n: Id, q: seq<Key>)
    requires OneMore(s, s', py, t, k, n)
    ensures Reach(s', Root, q) == if q == py + [k] then Enter(s', n) else if py + [k] < q then None else Reach(s, Root, q)
    ensures q != [] ==>
              Lookup(s', q) == if q == py + [k] then Some(n) else if py + [k] < q then None else Lookup(s, q)
    decreases |q|
  {
    hide Inv, Tree, Enter, Reach, Lookup, Front, Last;
    EmptyReach(s);
    EmptyReach(s');
    if q != [] {
      FrontAndLast(q);
      ReachOneMore(s, s', py, t, k, n, Front(q));
      LookupFrom(s, q);
      LookupFrom(s', q);
      ReachLast(s, q);
      ReachLast(s', q);
      FrontPrefix(py + [k], q);
      FrontBehind(py, [k]);
      FrontOne(k);
      assert py + [] == py;
      if !(py + [k] <= Front(q)) {
        var u := Reach(s, Root, Front(q));
        if u.Some? {
          ReachedIsStored(s, Front(q));
          if u.value == t { OneReach(s, Front(q), py); }
        }
        if Lookup(s, q).Some? { LookedUpIsStored(s, q); }
      }
    }
  }

  lemma FrontOne(k: Key)
    ensures Front([k]) == [] && Last([k]) == k
  {}

  lemma FrontPrefix(path: seq<Key>, q: seq<Key>)
    requires path != [] && q != []
    ensures path < q <==> path <= Front(q)
    ensures q == path <==> Front(q) == Front(path) && Last(q) == Last(path)
  {
    assert q == Front(q) + [Last(q)] && path == Front(path) + [Last(path)];
  }

  /** A path that is there or not as before, but for one. */
  lemma LookupOneMore(s: State, s': State, py: seq<Key>, t: Id, k: Key, n: Id, q: seq<Key>)
    requires OneMore(s, s', py, t, k, n) && q != []
    ensures Lookup(s, py + [k]) == None
    ensures Lookup(s', q) == if q == py + [k] then Some(n) else Lookup(s, q)
  {
    hide Inv, Tree, Enter, Reach, Lookup, Front, Last;
    ReachOneMore(s, s', py, t, k, n, q);
    LookupFrom(s, py + [k]);
    FrontBehind(py, [k]);
    FrontOne(k);
    assert py + [] == py;
    if py + [k] < q { FreeBeyond(s, py + [k], q); }
  }

  // ---------------------------------------------------------------- the steps

  lemma TableIsOneMore(s: State, s1: State, s': State, py: seq<Key>, t: Id, k: Key)
    requires Inv(s) && Tree(s) && Reach(s, Root, py) == Some(t) && k !in Kids(s.store, t) && IsTable(s.store, t)
    requires s1 == NewTable(s, t, k) && s'.store == s1.store && s'.arrays == s1.arrays && s'.open == s1.open
    ensures OneMore(s, s', py, t, k, s.next) && Enter(s', s.next) == Some(s.next)
  {
    hide Roles, TableArrays, Values, Tree, Reach, NewTable;
    NewTableAttaches(s, t, k);
    AttachedEnter(s, s1, s', t, k);
  }

  lemma AttachedEnter(s: State, s1: State, s': State, t: Id, k: Key)
    requires Attached(s, s1, t, k) && s'.store == s1.store && s'.arrays == s1.arrays && s'.open == s1.open
    ensures forall c | c in s.store :: Enter(s', c) == Enter(s, c)
    ensures Enter(s', s.next) == Some(s.next) && Kids(s'.store, s.next) == map[]
    ensures Kids(s'.store, t) == Kids(s.store, t)[k := s.next] && s.next !in s.store
    ensures forall i | i in s.store && i != t :: Kids(s'.store, i) == Kids(s.store, i)
  {
    assert forall c | c in s.store :: Elems(s'.store, c) == Elems(s.store, c) && IsTable(s'.store, c) == IsTable(s.store, c);
  }

  lemma ValueIsOneMore(s: State, s': State, py: seq<Key>, t: Id, k: Key, n: Id)
    requires Inv(s) && Tree(s) && Reach(s, Root, py) == Some(t) && Built(s, s', t, k, n)
    ensures OneMore(s, s', py, t, k, n)
  {
    hide Tree, Reach;
    InvParts(s);
    BuiltEnter(s, s', t, k, n);
  }

  lemma BuiltEnter(s: State, s': State, t: Id, k: Key, n: Id)
    requires Roles(s) && TableArrays(s) && Built(s, s', t, k, n)
    ensures forall c | c in s.store :: Enter(s', c) == Enter(s, c)
    ensures Enter(s', n) == None
    ensures Kids(s'.store, t) == Kids(s.store, t)[k := n]
    ensures forall i | i in s.store && i != t :: Kids(s'.store, i) == Kids(s.store, i)
  {
    hide Core;
    assert forall c | c in s.store :: Elems(s'.store, c) == Elems(s.store, c) && IsTable(s'.store, c) == IsTable(s.store, c);
  }

  lemma ArrayIsOneMore(s: State, s': State, py: seq<Key>, t: Id, k: Key)
    requires Inv(s) && Tree(s) && Reach(s, Root, py) == Some(t) && k !in Kids(s.store, t) && IsTable(s.store, t)
    requires s'.store == NewArray(s, t, k).store && s'.arrays == NewArray(s, t, k).arrays && s'.open == s.open
    ensures OneMore(s, s', py, t, k, s.next) && s.next in s'.arrays
  {
    hide Roles, TableArrays, Values, Tree, Reach, NewArray;
    NewArrayAttaches(s, t, k);
    AttachedArrayEnter(s, NewArray(s, t, k), s', t, k);
  }

  lemma AttachedArrayEnter(s: State, s1: State, s': State, t: Id, k: Key)
    requires AttachedArray(s, s1, t, k) && s'.store == s1.store && s'.arrays == s1.arrays && s'.open == s.open
    ensures forall c | c in s.store :: Enter(s', c) == Enter(s, c)
    ensures Enter(s', s.next).Some? ==> Kids(s'.store, Enter(s', s.next).value) == map[]
    ensures Kids(s'.store, t) == Kids(s.store, t)[k := s.next] && s.next !in s.store && s.next in s'.arrays
    ensures forall i | i in s.store && i != t :: Kids(s'.store, i) == Kids(s.store, i)
  {
    assert forall c | c in s.store :: Elems(s'.store, c) == Elems(s.store, c) && IsTable(s'.store, c) == IsTable(s.store, c);
  }

  // ---------------------------------------------------------------- one more element

  /** `s'` is `s` with a new, empty table at the end of the array `m` that `keys` lead to. */
  ghost predicate OneElement(s: State, s': State, keys: seq<Key>, m: Id) {
    && Inv(s) && Tree(s) && keys != [] && Lookup(s, keys) == Some(m) && m !in s.values
    && (forall i | i in s.store :: Kids(s'.store, i) == Kids(s.store, i))
    && (forall c | c in s.store && c != m :: Enter(s', c) == Enter(s, c))
    && Enter(s', m).Some? && Kids(s'.store, Enter(s', m).value) == map[]
  }

  /** Behind the new element every path is free, and no other path has changed. */
  lemma {:induction false} ReachOneElement(s: State, s': State, keys: seq<Key>, m: Id, q: seq<Key>)
    requires OneElement(s, s', keys, m)
    ensures Reach(s', Root, q) == if q == keys then Enter(s', m) else if keys < q then None else Reach(s, Root, q)
    ensures q != [] ==> Lookup(s', q) == if keys < q then None else Lookup(s, q)
    decreases |q|
  {
    hide Inv, Tree, Enter, Reach, Lookup, Front, Last;
    EmptyReach(s);
    EmptyReach(s');
    if q != [] {
      FrontAndLast(q);
      ReachOneElement(s, s', keys, m, Front(q));
      LookupFrom(s, q);
      LookupFrom(s', q);
      ReachLast(s, q);
      ReachLast(s', q);
      FrontPrefix(keys, q);
      if !(keys <= Front(q)) {
        if Reach(s, Root, Front(q)).Some? { ReachedIsStored(s, Front(q)); }
        if Lookup(s, q).Some? {
          LookedUpIsStored(s, q);
          if Lookup(s, q) == Some(m) { OneLookup(s, q, keys); }
        }
      }
    }
  }

  lemma ElementIsOne(s: State, s': State, keys: seq<Key>, m: Id)
    requires Inv(s) && Tree(s) && keys != [] && Lookup(s, keys) == Some(m) && m in s.arrays
    requires s'.store == NewElement(s, m).store && s'.arrays == s.arrays && s'.open == s.open
    ensures OneElement(s, s', keys, m)
  {
    hide Roles, TableArrays, Values, Tree, Lookup, NewElement;
    ArrayParts(s, m);
    NewElementCore(s, m);
    AppendedEnter(s, NewElement(s, m), s', m);
  }

  lemma AppendedEnter(s: State, s1: State, s': State, m: Id)
    requires Appended(s, s1, m) && s'.store == s1.store && s'.arrays == s.arrays && s'.open == s.open && m in s.arrays
    ensures forall i | i in s.store :: Kids(s'.store, i) == Kids(s.store, i)
    ensures forall c | c in s.store && c != m :: Enter(s', c) == Enter(s, c)
    ensures Enter(s', m) == Some(s.next) && Kids(s'.store, s.next) == map[]
  {
    assert forall c | c in s.store && c != m :: Elems(s'.store, c) == Elems(s.store, c);
    assert Elems(s'.store, m) == Elems(s.store, m) + [s.next];
  }

  // ---------------------------------------------------------------- walking

  /** A path beyond `a` on the way to `b`. */
  predicate IsWithin(a: seq<Key>, q: seq<Key>, b: seq<Key>) {
    a < q <= b
  }

  /** The paths between `a` and `b` that were free lead to new nodes, and no other path has changed. */
  ghost predicate Widened(s: State, s': State, a: seq<Key>, b: seq<Key>) {
    && (forall q | q != [] ::
          || Lookup(s', q) == Lookup(s, q)
          || (IsWithin(a, q, b) && Lookup(s, q) == None && Lookup(s', q).Some? && Lookup(s', q).value !in s.store))
    && (forall q | IsWithin(a, q, b) :: Lookup(s', q).Some?)
    && s.store.Keys <= s'.store.Keys
  }

  lemma WidenedOn(s: State, s1: State, s2: State, a: seq<Key>, b: seq<Key>, c: seq<Key>)
    requires Widened(s, s1, a, b) && Widened(s1, s2, b, c) && a <= b <= c
    ensures Widened(s, s2, a, c)
  {
    hide Lookup, IsWithin;
    forall q | q != []
      ensures || Lookup(s2, q) == Lookup(s, q)
              || (IsWithin(a, q, c) && Lookup(s, q) == None && Lookup(s2, q).Some? && Lookup(s2, q).value !in s.store)
    {
      WithinMore(a, q, b, c);
    }
    forall q | IsWithin(a, q, c) ensures Lookup(s2, q).Some? {
      WithinMore(a, q, b, c);
      if IsWithin(a, q, b) { assert Lookup(s1, q).Some?; }
    }
  }

  lemma WithinMore(a: seq<Key>, q: seq<Key>, b: seq<Key>, c: seq<Key>)
    requires a <= b <= c
    ensures IsWithin(a, q, c) <==> IsWithin(a, q, b) || IsWithin(b, q, c)
    ensures IsWithin(a, q, c) ==> q != []
  {}

  lemma WithinOne(py: seq<Key>, q: seq<Key>, k: Key)
    ensures IsWithin(py, q, py + [k]) <==> q == py + [k]
  {}

  lemma WidenedByOne(s: State, s': State, py: seq<Key>, t: Id, k: Key, n: Id)
    requires OneMore(s, s', py, t, k, n) && s.store.Keys <= s'.store.Keys
    ensures Widened(s, s', py, py + [k])
  {
    hide Inv, Tree, Enter, Reach, Lookup, IsWithin;
    forall q ensures IsWithin(py, q, py + [k]) <==> q == py + [k] { WithinOne(py, q, k); }
    forall q | q != [] ensures Lookup(s', q) == if q == py + [k] then Some(n) else Lookup(s, q) {
      LookupOneMore(s, s', py, t, k, n, q);
    }
    LookupOneMore(s, s', py, t, k, n, py + [k]);
  }

  lemma WidenedNowhere(s: State, py: seq<Key>)
    ensures Widened(s, s, py, py)
  {}

  lemma WidenedFurther(s: State, s': State, py: seq<Key>, k: Key, b: seq<Key>)
    requires Widened(s, s', py + [k], b) && py + [k] <= b && Lookup(s, py + [k]).Some?
    ensures Widened(s, s', py, b)
  {
    hide Lookup, IsWithin;
    forall q ensures IsWithin(py, q, b) <==> q == py + [k] || IsWithin(py + [k], q, b) {
      WithinMore(py, q, py + [k], b);
      WithinOne(py, q, k);
    }
    assert Lookup(s', py + [k]).Some?;
  }

  /** A dotted key from the table at `py` may pass what stands on its way. */
  ghost predicate MayPassFrom(s: State, py: seq<Key>, keys: seq<Key>) {
    forall n | 0 < n < |keys| :: var x := Lookup(s, py + keys[..n]); x.None? || Passable(s, x.value)
  }

  ghost predicate MayEnterFrom(s: State, py: seq<Key>, keys: seq<Key>) {
    forall n | 0 < n < |keys| :: var x := Lookup(s, py + keys[..n]); x.None? || Enter(s, x.value).Some?
  }

  /** The conditions of a path, as one on its first key and those behind it. */
  lemma FirstStep(s: State, py: seq<Key>, keys: seq<Key>)
    requires |keys| > 1
    ensures var x := Lookup(s, py + [keys[0]]);
            && (MayPassFrom(s, py, keys) <==> (x.None? || Passable(s, x.value)) && MayPassFrom(s, py + [keys[0]], keys[1..]))
            && (MayEnterFrom(s, py, keys)
                <==> (x.None? || Enter(s, x.value).Some?) && MayEnterFrom(s, py + [keys[0]], keys[1..]))
  {
    hide Lookup, Passable, Enter;
    assert keys[..1] == [keys[0]];
    forall n | 0 < n < |keys[1..]| ensures py + [keys[0]] + keys[1..][..n] == py + keys[..n + 1] {}
    if MayPassFrom(s, py + [keys[0]], keys[1..]) {
      forall n | 1 < n < |keys| ensures var x := Lookup(s, py + keys[..n]); x.None? || Passable(s, x.value) {
        var m := n - 1;
        assert 0 < m < |keys[1..]| && py + [keys[0]] + keys[1..][..m] == py + keys[..n];
      }
    }
    if MayEnterFrom(s, py + [keys[0]], keys[1..]) {
      forall n | 1 < n < |keys| ensures var x := Lookup(s, py + keys[..n]); x.None? || Enter(s, x.value).Some? {
        var m := n - 1;
        assert 0 < m < |keys[1..]| && py + [keys[0]] + keys[1..][..m] == py + keys[..n];
      }
    }
  }

  /** Behind a free path there is nothing in the way. */
  lemma NothingInTheWay(s: State, path: seq<Key>, keys: seq<Key>)
    requires path != [] && (forall q | path < q :: Lookup(s, q) == None)
    ensures MayPassFrom(s, path, keys) && MayEnterFrom(s, path, keys)
  {
    hide Lookup, Passable, Enter;
    forall n | 0 < n < |keys| ensures Lookup(s, path + keys[..n]) == None {
      assert path < path + keys[..n];
    }
  }

  lemma KidLookup(s: State, py: seq<Key>, t: Id, k: Key)
    requires Reach(s, Root, py) == Some(t)
    ensures Lookup(s, py + [k]) == if k in Kids(s.store, t) then Some(Kids(s.store, t)[k]) else None
  {
    hide Reach, Lookup, Front, Last;
    LookupFrom(s, py + [k]);
    FrontBehind(py, [k]);
    FrontOne(k);
    assert py + [] == py;
  }

  lemma WayOf(py: seq<Key>, keys: seq<Key>)
    requires |keys| > 1
    ensures py + Front(keys) == py + [keys[0]] + Front(keys[1..]) && py + [keys[0]] <= py + Front(keys)
  {
    assert Front(keys) == [keys[0]] + Front(keys[1..]);
    assert py + Front(keys) == py + [keys[0]] + Front(keys[1..]);
  }

  lemma PassableEnters(s: State, t: Id, k: Key)
    requires Inv(s) && Section(s, t) && k in Kids(s.store, t) && Passable(s, Kids(s.store, t)[k])
    ensures Enter(s, Kids(s.store, t)[k]) == Some(Kids(s.store, t)[k])
  {
    hide Core, TableArrays, Values;
    PassableSection(s, t, k);
  }

  lemma DottedAdds(s: State, t: Id, k: Key)
    requires Core(s) && IsTable(s.store, t) && k !in Kids(s.store, t)
    ensures NewDotted(s, t, k).store.Keys == s.store.Keys + {s.next} && NewDotted(s, t, k).dotted == s.dotted + [s.next]
    ensures NewImplicit(s, t, k).store.Keys == s.store.Keys + {s.next}
    ensures NewImplicit(s, t, k).implicit == s.implicit + [s.next]
    ensures NewDotted(s, t, k).implicit == s.implicit
    ensures NewDotted(s, t, k).store == NewTable(s, t, k).store && NewDotted(s, t, k).arrays == NewTable(s, t, k).arrays
    ensures NewDotted(s, t, k).open == NewTable(s, t, k).open && NewDotted(s, t, k).values == s.values
    ensures NewImplicit(s, t, k).store == NewTable(s, t, k).store && NewImplicit(s, t, k).arrays == NewTable(s, t, k).arrays
    ensures NewImplicit(s, t, k).open == NewTable(s, t, k).open && NewImplicit(s, t, k).values == s.values
  {
    NewTableAttaches(s, t, k);
  }

  /** What the walk along a dotted key does: only tables of dotted keys are new. */
  ghost predicate DottedWalk(s: State, s': State, t': Id, a: seq<Key>, b: seq<Key>) {
    && Widened(s, s', a, b) && Reach(s', Root, b) == Some(t') && s'.implicit == s.implicit && s'.values == s.values
    && (forall i | i in s'.store :: i in s.store || i in s'.dotted)
    && (forall i | i in s.dotted :: i in s'.dotted)
  }

  lemma {:induction false} WalkDottedLookup(s: State, t: Id, py: seq<Key>, keys: seq<Key>)
    requires Inv(s) && Tree(s) && Section(s, t) && Reach(s, Root, py) == Some(t) && keys != []
    ensures WalkDotted(s, t, keys).Some? <==> MayPassFrom(s, py, keys)
    ensures var w := WalkDotted(s, t, keys); w.Some? ==> DottedWalk(s, w.value.0, w.value.1, py, py + Front(keys))
    decreases |keys|
  {
    hide Inv, Tree, Enter, Reach, Lookup, Front, Last, Section, Passable, NewDotted, MayPassFrom, MayEnterFrom, Widened;
    if |keys| == 1 {
      assert Front(keys) == [] && py + [] == py by { FrontOne(keys[0]); assert keys == [keys[0]]; }
      WidenedNowhere(s, py);
      OnlyOneKey(s, py, keys);
    } else {
      var k, rest := keys[0], keys[1..];
      FirstStep(s, py, keys);
      WayOf(py, keys);
      KidLookup(s, py, t, k);
      ReachKid(s, py, k);
      if k in Kids(s.store, t) {
        var c := Kids(s.store, t)[k];
        if Passable(s, c) {
          PassableSection(s, t, k);
          PassableEnters(s, t, k);
          WalkDottedLookup(s, c, py + [k], rest);
          var w := WalkDotted(s, c, rest);
          if w.Some? { WidenedFurther(s, w.value.0, py, k, py + Front(keys)); }
        }
      } else {
        var s0 := NewDotted(s, t, k);
        SectionIsTable(s, t);
        InvCore(s);
        DottedAdds(s, t, k);
        NewDottedKeeps(s, t, k);
        NewTableTree(s, t, k);
        FreeWay(s, NewTable(s, t, k), s0, t, py, k, keys);
        WalkDottedLookup(s0, s.next, py + [k], rest);
        var (s', t') := WalkDotted(s0, s.next, rest).value;
        WidenedOn(s, s0, s', py, py + [k], py + Front(keys));
      }
    }
  }

  lemma OnlyOneKey(s: State, py: seq<Key>, keys: seq<Key>)
    requires |keys| == 1
    ensures MayPassFrom(s, py, keys) && MayEnterFrom(s, py, keys)
  {}

  lemma SectionIsTable(s: State, t: Id)
    requires Section(s, t)
    ensures IsTable(s.store, t) && t in s.store
  {}

  lemma InvCore(s: State)
    requires Inv(s)
    ensures Core(s)
  {}

  lemma ReachKid(s: State, py: seq<Key>, k: Key)
    ensures Reach(s, Root, py + [k]) == var x := Lookup(s, py + [k]); if x.None? then None else Enter(s, x.value)
  {
    hide Reach, Lookup, Enter;
    ReachLast(s, py + [k]);
  }

  /** The way on from a new table, and that nothing was in the way of the whole path. */
  lemma FreeWay(s: State, s1: State, s0: State, t: Id, py: seq<Key>, k: Key, keys: seq<Key>)
    requires Inv(s) && Tree(s) && Reach(s, Root, py) == Some(t) && IsTable(s.store, t) && k !in Kids(s.store, t)
    requires s1 == NewTable(s, t, k) && s0.store == s1.store && s0.arrays == s1.arrays && s0.open == s1.open
    requires |keys| > 1 && keys[0] == k && s.store.Keys <= s0.store.Keys
    ensures MayPassFrom(s, py, keys) && MayEnterFrom(s, py, keys)
    ensures MayPassFrom(s0, py + [k], keys[1..]) && MayEnterFrom(s0, py + [k], keys[1..])
    ensures Widened(s, s0, py, py + [k]) && Reach(s0, Root, py + [k]) == Some(s.next)
  {
    hide Inv, Tree, Enter, Reach, Lookup, NewTable, MayPassFrom, MayEnterFrom, Widened;
    TableIsOneMore(s, s1, s0, py, t, k);
    KidLookup(s, py, t, k);
    forall q | py + [k] < q ensures Lookup(s, q) == None && Lookup(s0, q) == None {
      FreeBeyond(s, py + [k], q);
      LookupOneMore(s, s0, py, t, k, s.next, q);
    }
    NothingInTheWay(s, py + [k], keys[1..]);
    NothingInTheWay(s0, py + [k], keys[1..]);
    FirstStep(s, py, keys);
    WidenedByOne(s, s0, py, t, k, s.next);
    ReachOneMore(s, s0, py, t, k, s.next, py + [k]);
  }

  /** What the walk along a header does: only implicit tables are new. */
  ghost predicate HeaderWalk(s: State, s': State, t': Id, a: seq<Key>, b: seq<Key>) {
    && Widened(s, s', a, b) && Reach(s', Root, b) == Some(t') && s'.values == s.values
    && (forall i | i in s'.store :: i in s.store || i in s'.implicit)
    && (forall i | i in s.implicit :: i in s'.implicit)
  }

  lemma {:induction false} WalkHeaderLookup(s: State, t: Id, py: seq<Key>, keys: seq<Key>)
    requires Inv(s) && Tree(s) && Section(s, t) && Reach(s, Root, py) == Some(t) && keys != []
    ensures WalkHeader(s, t, keys).Some? <==> MayEnterFrom(s, py, keys)
    ensures var w := WalkHeader(s, t, keys); w.Some? ==> HeaderWalk(s, w.value.0, w.value.1, py, py + Front(keys))
    decreases |keys|
  {
    hide Inv, Tree, Enter, Reach, Lookup, Front, Last, Section, NewImplicit, MayPassFrom, MayEnterFrom, Widened;
    if |keys| == 1 {
      assert Front(keys) == [] && py + [] == py by { FrontOne(keys[0]); assert keys == [keys[0]]; }
      WidenedNowhere(s, py);
      OnlyOneKey(s, py, keys);
    } else {
      var k, rest := keys[0], keys[1..];
      FirstStep(s, py, keys);
      WayOf(py, keys);
      KidLookup(s, py, t, k);
      ReachKid(s, py, k);
      if k in Kids(s.store, t) {
        var p := Enter(s, Kids(s.store, t)[k]);
        if p.Some? {
          EnterSection(s, t, k);
          WalkHeaderLookup(s, p.value, py + [k], rest);
          var w := WalkHeader(s, p.value, rest);
          if w.Some? { WidenedFurther(s, w.value.0, py, k, py + Front(keys)); }
        }
      } else {
        var s0 := NewImplicit(s, t, k);
        SectionIsTable(s, t);
        InvCore(s);
        DottedAdds(s, t, k);
        NewImplicitKeeps(s, t, k);
        NewTableTree(s, t, k);
        FreeWay(s, NewTable(s, t, k), s0, t, py, k, keys);
        WalkHeaderLookup(s0, s.next, py + [k], rest);
        var (s', t') := WalkHeader(s0, s.next, rest).value;
        WidenedOn(s, s0, s', py, py + [k], py + Front(keys));
      }
    }
  }
}
