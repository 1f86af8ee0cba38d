/**
  Values as they stand in the store: which values `parse_value` accepts, and that what it builds shows every text,
  element and key of the value.
*/
module DefinitionContents {
  import opened Wrappers
  import opened Definitions
  import opened DefinitionValues

  // ---------------------------------------------------------------- what a node shows

  /** The node that keys lead to from a table. */
  function Follow(m: Store, t: Id, q: seq<Key>): Option<Id>
    decreases |q|
  {
    if q == [] then Some(t)
    else if q[0] !in Kids(m, t) then None
    else Follow(m, Kids(m, t)[q[0]], q[1..])
  }

  predicate Related(a: seq<Key>, b: seq<Key>) {
    a <= b || b <= a
  }

  /** No key is another one or leads through it. */
  ghost predicate Unrelated(ps: seq<Pair>) {
    forall i, j | 0 <= i < j < |ps| :: !Related(ps[i].keys, ps[j].keys)
  }

  /** What a value has to be: not too deep, and with unrelated keys in each of its inline tables. */
  ghost predicate Acceptable(v: Value, depth: nat)
    decreases v
  {
    && depth + 1 <= MaxNestedValues
    && match v
       case ScalarValue(_) => true
       case ArrayValue(vs) => forall i | 0 <= i < |vs| :: Acceptable(vs[i], depth + 1)
       case InlineTable(ps) =>
         Unrelated(ps) && forall i | 0 <= i < |ps| :: ps[i].keys != [] && Acceptable(ps[i].value, depth + 1)
  }

  /** A node is the value: the same text, the same elements in their order, the same keys and nothing else. */
  ghost predicate Shows(m: Store, n: Id, v: Value)
    decreases v
  {
    && n in m
    && match v
       case ScalarValue(text) => m[n] == Scalar(text)
       case ArrayValue(vs) =>
         IsArray(m, n) && |Elems(m, n)| == |vs| && forall i | 0 <= i < |vs| :: Shows(m, Elems(m, n)[i], vs[i])
       case InlineTable(ps) =>
         && IsInline(m, n)
         && (forall i | 0 <= i < |ps| :: var x := Follow(m, n, ps[i].keys); x.Some? && Shows(m, x.value, ps[i].value))
         && (forall q | q != [] && Follow(m, n, q).Some? :: exists i :: 0 <= i < |ps| && Related(q, ps[i].keys))
  }

  lemma {:induction false} FollowMore(m: Store, t: Id, a: seq<Key>, b: seq<Key>)
    ensures Follow(m, t, a + b) == var u := Follow(m, t, a); if u.None? then None else Follow(m, u.value, b)
    decreases |a|
  {
    if a == [] {
      assert a + b == b;
    } else {
      assert (a + b)[1..] == a[1..] + b;
      if a[0] in Kids(m, t) { FollowMore(m, Kids(m, t)[a[0]], a[1..], b); }
    }
  }

  /** The last step. */
  lemma FollowLast(m: Store, t: Id, q: seq<Key>)
    requires q != []
    ensures var u := Follow(m, t, q[..|q| - 1]);
            Follow(m, t, q) ==
            if u.None? || Last(q) !in Kids(m, u.value) then None else Some(Kids(m, u.value)[Last(q)])
  {
    assert q == q[..|q| - 1] + [Last(q)];
    FollowMore(m, t, q[..|q| - 1], [Last(q)]);
    var u := Follow(m, t, q[..|q| - 1]);
    if u.Some? && Last(q) in Kids(m, u.value) { assert [Last(q)][1..] == []; }
  }

  lemma FollowShorter(m: Store, t: Id, a: seq<Key>, b: seq<Key>)
    requires a <= b && Follow(m, t, b).Some?
    ensures Follow(m, t, a).Some?
  {
    assert b == a + b[|a|..];
    FollowMore(m, t, a, b[|a|..]);
  }

  // ---------------------------------------------------------------- what stays

  /** A set of nodes with everything below them. */
  ghost predicate Closed(m: Store, f: set<Id>) {
    && (forall i | i in f :: i in m)
    && (forall i, k | i in f && k in Kids(m, i) :: Kids(m, i)[k] in f)
    && (forall i, e | i in f && e in Elems(m, i) :: e in f)
  }

  ghost predicate SameOn(m: Store, m': Store, f: set<Id>) {
    forall i | i in f :: i in m && i in m' && m'[i] == m[i]
  }

  lemma {:induction false} FollowClosed(m: Store, m': Store, f: set<Id>, x: Id, q: seq<Key>)
    requires Closed(m, f) && SameOn(m, m', f) && x in f
    ensures Follow(m', x, q) == Follow(m, x, q) && (Follow(m, x, q).Some? ==> Follow(m, x, q).value in f)
    decreases |q|
  {
    if q != [] && q[0] in Kids(m, x) { FollowClosed(m, m', f, Kids(m, x)[q[0]], q[1..]); }
  }

  /** What a node shows depends only on what is below it. */
  lemma {:induction false} ShowsStays(m: Store, m': Store, f: set<Id>, x: Id, v: Value)
    requires Closed(m, f) && SameOn(m, m', f) && x in f && Shows(m, x, v)
    ensures Shows(m', x, v)
    decreases v
  {
    hide Closed, Follow;
    ClosedParts(m, m', f, x);
    match v
    case ScalarValue(_) =>
    case ArrayValue(vs) =>
      forall i | 0 <= i < |vs| ensures Shows(m', Elems(m', x)[i], vs[i]) {
        ShowsStays(m, m', f, Elems(m, x)[i], vs[i]);
      }
    case InlineTable(ps) =>
      forall q ensures Follow(m', x, q) == Follow(m, x, q) { FollowClosed(m, m', f, x, q); }
      forall i | 0 <= i < |ps| ensures var y := Follow(m', x, ps[i].keys); y.Some? && Shows(m', y.value, ps[i].value) {
        FollowClosed(m, m', f, x, ps[i].keys);
        ShowsStays(m, m', f, Follow(m, x, ps[i].keys).value, ps[i].value);
      }
  }

  lemma ClosedParts(m: Store, m': Store, f: set<Id>, x: Id)
    requires Closed(m, f) && SameOn(m, m', f) && x in f
    ensures x in m && x in m' && m'[x] == m[x] && forall e | e in Elems(m, x) :: e in f
  {}

  // ---------------------------------------------------------------- walking along a dotted key

  lemma {:induction false} WalkEmpty(s: State, t: Id, keys: seq<Key>)
    requires Core(s) && IsTable(s.store, t) && Kids(s.store, t) == map[]
    ensures var w := WalkDotted(s, t, keys); w.Some? && Kids(w.value.0.store, w.value.1) == map[]
    decreases |keys|
  {
    if |keys| > 1 {
      NewDottedNode(s, t, keys[0]);
      hide Core, NewDotted;
      WalkEmpty(NewDotted(s, t, keys[0]), s.next, keys[1..]);
    }
  }

  lemma NewDottedNode(s: State, t: Id, k: Key)
    requires Core(s) && IsTable(s.store, t) && k !in Kids(s.store, t)
    ensures var s' := NewDotted(s, t, k);
            && Core(s') && IsTable(s'.store, s.next) && Kids(s'.store, s.next) == map[] && s.next !in s.store
            && Kids(s'.store, t) == Kids(s.store, t)[k := s.next]
            && (forall i | i != t :: Kids(s'.store, i) == Kids(s.store, i))
            && (forall i | i in s.store && i != t :: i in s'.store && s'.store[i] == s.store[i])
            && t in s'.store && IsTable(s'.store, t) && s'.store.Keys == s.store.Keys + {s.next}
            && s'.dotted == s.dotted + [s.next] && s'.implicit == s.implicit
  {
    FreshAll(s);
    NewDottedFrame(s, t, k, 0);
  }

  lemma FreshAll(s: State)
    ensures FreshFrom(s, 0)
  {}

  /** The condition on the tables a dotted key passes, from table `t`. */
  ghost predicate MayPass(s: State, t: Id, keys: seq<Key>) {
    forall n | 0 < n < |keys| :: var x := Follow(s.store, t, keys[..n]); x.None? || Passable(s, x.value)
  }

  /** A dotted key is walked exactly if every table on its way that is there may be passed. */
  lemma {:induction false} WalkIs(s: State, t: Id, keys: seq<Key>)
    requires Core(s) && IsTable(s.store, t)
    ensures WalkDotted(s, t, keys).Some? <==> MayPass(s, t, keys)
    ensures var w, u := WalkDotted(s, t, keys), Follow(s.store, t, keys[..if keys == [] then 0 else |keys| - 1]);
            w.Some? ==> if u.Some? then w.value == (s, u.value) else Kids(w.value.0.store, w.value.1) == map[]
    decreases |keys|
  {
    if |keys| > 1 {
      var k := keys[0];
      assert keys[..1] == [k];
      if k in Kids(s.store, t) {
        var c := Kids(s.store, t)[k];
        assert Follow(s.store, t, [k]) == Some(c) by { assert [k][1..] == []; }
        hide Core, Passable;
        if Passable(s, c) {
          PassableIsTable(s, c);
          WalkIs(s, c, keys[1..]);
          PassFirst(s, t, keys);
          assert keys[..|keys| - 1][1..] == keys[1..][..|keys[1..]| - 1];
        }
      } else {
        NewDottedNode(s, t, k);
        hide Core, Passable, NewDotted;
        WalkEmpty(NewDotted(s, t, k), s.next, keys[1..]);
      }
    }
  }

  lemma PassableIsTable(s: State, c: Id)
    requires Passable(s, c)
    ensures IsTable(s.store, c)
  {}

  lemma PassFirst(s: State, t: Id, keys: seq<Key>)
    requires |keys| > 1 && keys[0] in Kids(s.store, t) && Passable(s, Kids(s.store, t)[keys[0]])
    ensures MayPass(s, t, keys) <==> MayPass(s, Kids(s.store, t)[keys[0]], keys[1..])
  {
    hide Passable;
    var c := Kids(s.store, t)[keys[0]];
    forall n | 0 < n < |keys[1..]| ensures Follow(s.store, c, keys[1..][..n]) == Follow(s.store, t, keys[..n + 1]) {
      assert keys[..n + 1][1..] == keys[1..][..n];
    }
    if MayPass(s, c, keys[1..]) {
      forall n | 0 < n < |keys|
        ensures var x := Follow(s.store, t, keys[..n]); x.None? || Passable(s, x.value)
      {
        if n == 1 {
          assert keys[..1] == [keys[0]] && [keys[0]][1..] == [];
        } else {
          var m := n - 1;
          assert 0 < m < |keys[1..]| && keys[..n][1..] == keys[1..][..m];
        }
      }
    }
  }

  // ---------------------------------------------------------------- one more key in a table

  /** Only one path leads to a table. */
  ghost predicate OnlyPath(m: Store, t: Id, py: seq<Key>, y: Id) {
    Follow(m, t, py) == Some(y) && forall q | Follow(m, t, q) == Some(y) :: q == py
  }

  /** A new key of a table changes where the paths lead that begin with it, and no other. */
  lemma {:induction false} FollowNew(m: Store, m': Store, t: Id, py: seq<Key>, y: Id, k: Key, n: Id, q: seq<Key>)
    requires OnlyPath(m, t, py, y) && k !in Kids(m, y) && Kids(m', y) == Kids(m, y)[k := n]
    requires forall i | i != y :: Kids(m', i) == Kids(m, i)
    ensures Follow(m', t, q) == if py + [k] <= q then Follow(m', n, q[|py| + 1..]) else Follow(m, t, q)
    decreases |q|
  {
    hide Follow;
    if q == [] {
      assert Follow(m', t, q) == Some(t) == Follow(m, t, q) by { FollowNothing(m, t); FollowNothing(m', t); }
    } else {
      var front := q[..|q| - 1];
      assert q == front + [Last(q)];
      FollowNew(m, m', t, py, y, k, n, front);
      FollowLast(m, t, q);
      FollowLast(m', t, q);
      if py + [k] <= front {
        var rest := q[|py| + 1..];
        assert rest[..|rest| - 1] == front[|py| + 1..] && Last(rest) == Last(q);
        FollowLast(m', n, rest);
      } else if py + [k] <= q {
        assert front == py && q[|py| + 1..] == [] && Last(q) == k;
        FollowNothing(m', n);
      } else if Follow(m, t, front) == Some(y) {
        assert Last(q) != k;
      }
    }
  }

  lemma FollowNothing(m: Store, t: Id)
    ensures Follow(m, t, []) == Some(t)
  {}

  // ---------------------------------------------------------------- a table under construction

  /** Paths to nodes that are not frozen are unique. */
  ghost predicate Unique(m: Store, t: Id, f: set<Id>) {
    forall p, q | Follow(m, t, p).Some? && Follow(m, t, p) == Follow(m, t, q) && Follow(m, t, p).value !in f :: p == q
  }

  /** The values of a table under construction are frozen, and the table itself and those of its dotted keys are not. */
  ghost predicate Plan(s: State, t: Id, f: set<Id>) {
    Core(s) && Closed(s.store, f) && Unique(s.store, t, f) && t !in f && IsTable(s.store, t)
  }

  /** Walking along a dotted key adds tables for those of its beginnings that were free, and nothing else. */
  ghost predicate Walked(s: State, t: Id, f: set<Id>, a: seq<Key>, b: seq<Key>, s': State, t': Id) {
    && Plan(s', t, f) && SameOn(s.store, s'.store, f) && Follow(s'.store, t, b) == Some(t') && t' !in f
    && s'.implicit == s.implicit && (forall i | i in s.dotted :: i in s'.dotted) && s.store.Keys <= s'.store.Keys
    && forall q ::
         || Follow(s'.store, t, q) == Follow(s.store, t, q)
         || (a < q <= b && Follow(s.store, t, q) == None && Follow(s'.store, t, q).Some?
             && Follow(s'.store, t, q).value !in f && Follow(s'.store, t, q).value in s'.dotted)
  }

  lemma OneTable(s: State, t: Id, f: set<Id>, py: seq<Key>, y: Id, k: Key)
    requires Plan(s, t, f) && Follow(s.store, t, py) == Some(y) && y !in f && IsTable(s.store, y)
    requires k !in Kids(s.store, y)
    ensures Walked(s, t, f, py, py + [k], NewDotted(s, y, k), s.next)
  {
    hide Core, Follow, NewDotted, Closed, Unique;
    var s' := NewDotted(s, y, k);
    NewDottedNode(s, y, k);
    ClosedBelow(s, f);
    OnePath(s.store, t, f, py, y);
    forall q ensures Follow(s'.store, t, q) == if q == py + [k] then Some(s.next) else Follow(s.store, t, q) {
      FollowNewLeaf(s.store, s'.store, t, py, y, k, s.next, q);
    }
    NextIsFree(s, t);
    ClosedStays(s.store, s'.store, f);
    TableStays(s, y, k, t);
    OneMoreUnique(s.store, s'.store, t, f, py + [k], s.next);
    FollowOne(s.store, t, py, y, k);
  }

  lemma FollowNewLeaf(m: Store, m': Store, t: Id, py: seq<Key>, y: Id, k: Key, n: Id, q: seq<Key>)
    requires OnlyPath(m, t, py, y) && k !in Kids(m, y) && Kids(m', y) == Kids(m, y)[k := n]
    requires (forall i | i != y :: Kids(m', i) == Kids(m, i)) && Kids(m', n) == map[]
    ensures Follow(m', t, q) == if q == py + [k] then Some(n) else Follow(m, t, q)
  {
    hide Follow, OnlyPath;
    FollowNew(m, m', t, py, y, k, n, q);
    var path := py + [k];
    if path <= q {
      var rest := q[|path|..];
      assert q == path + rest;
      FollowInEmpty(m', n, rest);
      OnePathNone(m, t, py, y, k);
      if rest != [] { FollowMore(m, t, path, rest); }
    }
  }

  lemma OnePathNone(m: Store, t: Id, py: seq<Key>, y: Id, k: Key)
    requires OnlyPath(m, t, py, y) && k !in Kids(m, y)
    ensures Follow(m, t, py + [k]) == None
  {
    FollowOne(m, t, py, y, k);
  }

  lemma OnePath(m: Store, t: Id, f: set<Id>, py: seq<Key>, y: Id)
    requires Unique(m, t, f) && Follow(m, t, py) == Some(y) && y !in f
    ensures OnlyPath(m, t, py, y)
  {
    hide Follow;
  }

  lemma OneMoreUnique(m: Store, m': Store, t: Id, f: set<Id>, path: seq<Key>, n: Id)
    requires Unique(m, t, f) && (forall p :: Follow(m, t, p) != Some(n))
    requires forall q :: Follow(m', t, q) == if q == path then Some(n) else Follow(m, t, q)
    ensures Unique(m', t, f)
  {
    hide Follow;
  }

  lemma TableStays(s: State, y: Id, k: Key, t: Id)
    requires Core(s) && IsTable(s.store, y) && k !in Kids(s.store, y) && IsTable(s.store, t)
    ensures IsTable(NewDotted(s, y, k).store, t)
  {
    hide Core, NewDotted;
    NewDottedNode(s, y, k);
  }

  lemma FollowInEmpty(m: Store, n: Id, q: seq<Key>)
    requires Kids(m, n) == map[]
    ensures Follow(m, n, q) == if q == [] then Some(n) else None
  {}

  /** A frozen set holds no new node. */
  lemma ClosedBelow(s: State, f: set<Id>)
    requires Core(s) && Closed(s.store, f)
    ensures s.next !in f && s.next !in s.store && forall i | i in f :: i in s.store
  {}

  lemma ClosedStays(m: Store, m': Store, f: set<Id>)
    requires Closed(m, f) && SameOn(m, m', f)
    ensures Closed(m', f)
  {
    assert forall i | i in f :: Kids(m', i) == Kids(m, i) && Elems(m', i) == Elems(m, i);
  }

  lemma {:induction false} FollowStored(s: State, t: Id, q: seq<Key>)
    requires Core(s) && t in s.store
    ensures var x := Follow(s.store, t, q); x.Some? ==> x.value in s.store
    decreases |q|
  {
    if q != [] && q[0] in Kids(s.store, t) {
      hide Follow;
      var c := Kids(s.store, t)[q[0]];
      FollowStored(s, c, q[1..]);
      FollowFirst(s.store, t, q);
    } else {
      FollowFirst(s.store, t, q);
    }
  }

  lemma FollowFirst(m: Store, t: Id, q: seq<Key>)
    ensures Follow(m, t, q) ==
            if q == [] then Some(t) else if q[0] !in Kids(m, t) then None else Follow(m, Kids(m, t)[q[0]], q[1..])
  {}

  lemma NextIsFree(s: State, t: Id)
    requires Core(s) && t in s.store
    ensures forall p :: Follow(s.store, t, p) != Some(s.next)
  {
    forall p ensures Follow(s.store, t, p) != Some(s.next) {
      FollowStored(s, t, p);
    }
  }

  lemma WalkedOn(s: State, t: Id, f: set<Id>, a: seq<Key>, b: seq<Key>, c: seq<Key>, s1: State, t1: Id, s2: State, t2: Id)
    requires Walked(s, t, f, a, b, s1, t1) && Walked(s1, t, f, b, c, s2, t2) && a <= b <= c
    ensures Walked(s, t, f, a, c, s2, t2)
  {
    hide Plan, Follow;
    forall q
      ensures || Follow(s2.store, t, q) == Follow(s.store, t, q)
              || (a < q <= c && Follow(s.store, t, q) == None && Follow(s2.store, t, q).Some?
                  && Follow(s2.store, t, q).value !in f && Follow(s2.store, t, q).value in s2.dotted)
    {
      if a < q <= b { PrefixThrough(a, q, b, c); }
      if b < q <= c { PrefixThrough(b, q, c, c); }
    }
  }

  lemma PrefixThrough(a: seq<Key>, q: seq<Key>, b: seq<Key>, c: seq<Key>)
    requires a < q <= b <= c
    ensures a < b && a < q <= c && a < c && q <= c
  {}

  /** The loop over a dotted key whose tables may all be passed and are not frozen. */
  lemma {:induction false} WalkGrows(s: State, t: Id, f: set<Id>, py: seq<Key>, y: Id, keys: seq<Key>)
    requires Plan(s, t, f) && Follow(s.store, t, py) == Some(y) && y !in f && IsTable(s.store, y) && keys != []
    requires WalkDotted(s, y, keys).Some?
    requires forall n | 0 < n < |keys| :: var x := Follow(s.store, y, keys[..n]); x.Some? ==> x.value !in f
    ensures var (s', t') := WalkDotted(s, y, keys).value; Walked(s, t, f, py, py + keys[..|keys| - 1], s', t')
    decreases |keys|
  {
    hide Core, Follow, Closed, Unique, Passable, NewDotted, IsTable;
    var k := keys[0];
    var rest := keys[1..];
    if |keys| == 1 {
      assert keys[..0] == [] && py + [] == py;
      WalkedNowhere(s, t, f, py, y);
    } else {
      assert py + [k] + rest[..|rest| - 1] == py + keys[..|keys| - 1];
      FollowOne(s.store, t, py, y, k);
      if k in Kids(s.store, y) {
        var c := Kids(s.store, y)[k];
        assert keys[..1] == [k];
        PassableIsTable(s, c);
        forall n | 0 < n < |rest| ensures var x := Follow(s.store, c, rest[..n]); x.Some? ==> x.value !in f {
          assert keys[..n + 1][1..] == rest[..n];
          FollowFirst(s.store, y, keys[..n + 1]);
        }
        WalkGrows(s, t, f, py + [k], c, rest);
        var (s', t') := WalkDotted(s, y, keys).value;
        WalkedFurther(s, t, f, py, k, py + keys[..|keys| - 1], s', t');
      } else {
        var s0 := NewDotted(s, y, k);
        OneTable(s, t, f, py, y, k);
        NewDottedNode(s, y, k);
        forall n | 0 < n < |rest| ensures Follow(s0.store, s.next, rest[..n]) == None {
          FollowInEmpty(s0.store, s.next, rest[..n]);
        }
        WalkGrows(s0, t, f, py + [k], s.next, rest);
        var (s', t') := WalkDotted(s, y, keys).value;
        WalkedOn(s, t, f, py, py + [k], py + keys[..|keys| - 1], s0, s.next, s', t');
      }
    }
  }

  lemma WalkedNowhere(s: State, t: Id, f: set<Id>, py: seq<Key>, y: Id)
    requires Plan(s, t, f) && Follow(s.store, t, py) == Some(y) && y !in f
    ensures Walked(s, t, f, py, py, s, y)
  {
    hide Follow, Core, Unique;
  }

  /** A walk that begins with a table that was there. */
  lemma WalkedFurther(s: State, t: Id, f: set<Id>, py: seq<Key>, k: Key, b: seq<Key>, s': State, t': Id)
    requires Walked(s, t, f, py + [k], b, s', t')
    ensures Walked(s, t, f, py, b, s', t')
  {
    hide Follow, Plan;
    forall q
      ensures || Follow(s'.store, t, q) == Follow(s.store, t, q)
              || (py < q <= b && Follow(s.store, t, q) == None && Follow(s'.store, t, q).Some?
                  && Follow(s'.store, t, q).value !in f && Follow(s'.store, t, q).value in s'.dotted)
    {
      if py + [k] < q <= b { PrefixThrough(py, py + [k], q, b); }
    }
  }

  lemma FollowOne(m: Store, t: Id, py: seq<Key>, y: Id, k: Key)
    requires Follow(m, t, py) == Some(y)
    ensures Follow(m, t, py + [k]) == if k in Kids(m, y) then Some(Kids(m, y)[k]) else None
    ensures Follow(m, y, [k]) == if k in Kids(m, y) then Some(Kids(m, y)[k]) else None
  {
    FollowMore(m, t, py, [k]);
    assert [k][1..] == [];
  }

  /**
    An inline table under construction: it holds its pairs, each of them frozen, and besides only tables of dotted
    keys, on the way to a pair or to the place of the next one.
  */
  ghost predicate Filled(s: State, t: Id, f: set<Id>, ps: seq<Pair>, way: seq<Key>) {
    && Plan(s, t, f) && Unrelated(ps) && (forall i | i in s.implicit :: i in s.store && i !in f)
    && (forall p | p in ps :: p.keys != [] && Stands(s.store, t, f, p))
    && (forall q | q != [] && Follow(s.store, t, q).Some? ::
          if Follow(s.store, t, q).value in f then exists p :: p in ps && p.keys <= q
          else Follow(s.store, t, q).value in s.dotted && (q <= way || exists p :: p in ps && q < p.keys))
  }

  ghost predicate Stands(m: Store, t: Id, f: set<Id>, p: Pair) {
    var x := Follow(m, t, p.keys);
    x.Some? && x.value in f && Shows(m, x.value, p.value)
  }

  // ---- which pairs are accepted

  /** A value is not to be passed by a dotted key. */
  lemma ShownIsNoWay(s: State, x: Id, v: Value)
    requires Core(s) && Shows(s.store, x, v) && x !in s.implicit
    ensures !Passable(s, x)
  {
    hide Follow;
  }

  lemma RelatedStops(s: State, t: Id, f: set<Id>, ps: seq<Pair>, keys: seq<Key>, p: Pair)
    requires Filled(s, t, f, ps, []) && p in ps && Related(keys, p.keys)
    ensures !(MayPass(s, t, keys) && Follow(s.store, t, keys) == None)
  {
    hide Follow, Passable, Shows, Core, Unique;
    assert Stands(s.store, t, f, p);
    if keys <= p.keys {
      FollowShorter(s.store, t, keys, p.keys);
    } else {
      var n := |p.keys|;
      assert keys[..n] == p.keys && 0 < n < |keys|;
      ShownIsNoWay(s, Follow(s.store, t, p.keys).value, p.value);
    }
  }

  lemma UnrelatedPasses(s: State, t: Id, f: set<Id>, ps: seq<Pair>, keys: seq<Key>)
    requires Filled(s, t, f, ps, []) && keys != [] && forall p | p in ps :: !Related(keys, p.keys)
    ensures MayPass(s, t, keys) && Follow(s.store, t, keys) == None
  {
    hide Follow, Shows, Unique, Unrelated, Stands;
    forall n | 0 < n < |keys| ensures var x := Follow(s.store, t, keys[..n]); x.None? || Passable(s, x.value) {
      forall p | p in ps ensures !(p.keys <= keys[..n]) { Between(p.keys, keys[..n], keys); }
    }
    forall p | p in ps ensures !(p.keys <= keys) && !(keys < p.keys) { Between(p.keys, keys, keys); }
  }

  lemma Between(p: seq<Key>, q: seq<Key>, keys: seq<Key>)
    requires q <= keys
    ensures p <= q ==> Related(keys, p)
    ensures q == keys && q < p ==> Related(keys, p)
  {}

  // ---- what they change

  lemma FilledWalk(s: State, t: Id, f: set<Id>, ps: seq<Pair>, way: seq<Key>, s1: State, t1: Id)
    requires Filled(s, t, f, ps, []) && Walked(s, t, f, [], way, s1, t1)
    ensures Filled(s1, t, f, ps, way)
  {
    hide Follow, Shows, Plan;
    PlanIsClosed(s, t, f);
    forall p | p in ps ensures p.keys != [] && Stands(s1.store, t, f, p) {
      assert Stands(s.store, t, f, p);
      ShowsStays(s.store, s1.store, f, Follow(s.store, t, p.keys).value, p.value);
    }
  }

  lemma PlanIsClosed(s: State, t: Id, f: set<Id>)
    requires Plan(s, t, f)
    ensures Core(s) && Closed(s.store, f) && t in s.store
  {}

  /** Nothing that was there has changed, and the new nodes are among themselves. */
  ghost predicate OnTop(s: State, s': State) {
    && Core(s') && s.store.Keys <= s'.store.Keys && SameOn(s.store, s'.store, s.store.Keys)
    && Closed(s'.store, s'.store.Keys - s.store.Keys)
    && s'.implicit == s.implicit && forall i | i in s.dotted :: i in s'.dotted
  }

  lemma EvalIsOnTop(s: State, v: Value, depth: nat)
    requires Core(s) && Eval(s, v, depth).Some?
    ensures var (s', n) := Eval(s, v, depth).value; OnTop(s, s') && n in s'.store && n !in s.store
  {
    hide Eval;
    AllBelow(s);
    EvalFrame(s, v, depth, s.next);
    NewIsClosed(s, Eval(s, v, depth).value.0);
  }

  lemma AllBelow(s: State)
    requires Core(s)
    ensures FreshFrom(s, s.next)
  {}

  lemma NewIsClosed(s: State, s': State)
    requires Core(s) && Core(s') && FreshFrom(s', s.next) && Only(s, s', s.next)
    ensures OnTop(s, s')
  {
    var f := s'.store.Keys - s.store.Keys;
    forall i | i in f ensures i >= s.next {}
    forall i, k | i in f && k in Kids(s'.store, i) ensures Kids(s'.store, i)[k] in f {}
    forall i, e | i in f && e in Elems(s'.store, i) ensures e in f {}
  }

  lemma StoredIsClosed(s: State)
    requires Core(s)
    ensures Closed(s.store, s.store.Keys)
  {}

  lemma FilledEval(s: State, t: Id, f: set<Id>, ps: seq<Pair>, way: seq<Key>, s': State)
    requires Filled(s, t, f, ps, way) && OnTop(s, s')
    ensures Filled(s', t, f + (s'.store.Keys - s.store.Keys), ps, way)
  {
    hide Follow, Shows, Core, Unrelated;
    var f' := f + (s'.store.Keys - s.store.Keys);
    var all := s.store.Keys;
    StoredIsClosed(s);
    PlanIsClosed(s, t, f);
    SomeOfAll(s, f);
    forall q
      ensures Follow(s'.store, t, q) == Follow(s.store, t, q)
      ensures Follow(s.store, t, q).Some? ==> Follow(s.store, t, q).value in all
    {
      FollowClosed(s.store, s'.store, all, t, q);
    }
    forall p | p in ps ensures p.keys != [] && Stands(s'.store, t, f', p) {
      assert Stands(s.store, t, f, p);
      ShowsStays(s.store, s'.store, f, Follow(s.store, t, p.keys).value, p.value);
    }
    ClosedUnion(s.store, s'.store, f, s'.store.Keys - s.store.Keys);
    assert IsTable(s'.store, t);
  }

  lemma SomeOfAll(s: State, f: set<Id>)
    requires Closed(s.store, f)
    ensures f <= s.store.Keys
  {}

  lemma ClosedUnion(m: Store, m': Store, f: set<Id>, g: set<Id>)
    requires Closed(m, f) && SameOn(m, m', f) && Closed(m', g)
    ensures Closed(m', f + g)
  {
    ClosedStays(m, m', f);
  }

  /** Entering a value under the last key. */
  lemma FilledLink(s: State, t: Id, f: set<Id>, ps: seq<Pair>, way: seq<Key>, t1: Id, k: Key, n: Id, v: Value)
    requires Filled(s, t, f, ps, way) && Follow(s.store, t, way) == Some(t1) && t1 !in f && IsTable(s.store, t1)
    requires k !in Kids(s.store, t1) && n in f && Shows(s.store, n, v)
    requires forall p | p in ps :: !Related(way + [k], p.keys)
    ensures Filled(Link(s, t1, k, n), t, f, ps + [Pair(way + [k], v)], [])
  {
    hide Follow, Shows, Core, Link, Closed, Unique, Stands, Unrelated, Related;
    var s' := Link(s, t1, k, n);
    var one := Pair(way + [k], v);
    Linked(s, t1, k, n, f);
    PlanIsClosed(s, t, f);
    OnePath(s.store, t, f, way, t1);
    LinkedFollow(s.store, s'.store, t, f, way, t1, k, n);
    LinkedUnique(s.store, s'.store, t, f, way + [k]);
    ClosedStays(s.store, s'.store, f);
    assert Plan(s', t, f);
    LinkedPaths(s, s', t, f, ps, way, one);
    MoreUnrelated(ps, one);
    forall p | p in ps + [one] ensures p.keys != [] && Stands(s'.store, t, f, p) {
      LinkedStands(s, s'.store, t, f, ps, way, k, n, v, p);
    }
  }

  lemma LinkedFollow(m: Store, m': Store, t: Id, f: set<Id>, way: seq<Key>, t1: Id, k: Key, n: Id)
    requires OnlyPath(m, t, way, t1) && k !in Kids(m, t1) && Kids(m', t1) == Kids(m, t1)[k := n]
    requires (forall i | i != t1 :: Kids(m', i) == Kids(m, i)) && Closed(m, f) && SameOn(m, m', f) && n in f
    ensures forall q | !(way + [k] <= q) :: Follow(m', t, q) == Follow(m, t, q)
    ensures forall q | way + [k] <= q && Follow(m', t, q).Some? :: Follow(m', t, q).value in f
    ensures Follow(m', t, way + [k]) == Some(n)
  {
    hide Follow, OnlyPath, Closed, SameOn;
    var full := way + [k];
    forall q
      ensures !(full <= q) ==> Follow(m', t, q) == Follow(m, t, q)
      ensures full <= q && Follow(m', t, q).Some? ==> Follow(m', t, q).value in f
    {
      FollowNew(m, m', t, way, t1, k, n, q);
      if full <= q { FollowClosed(m, m', f, n, q[|full|..]); }
    }
    FollowNew(m, m', t, way, t1, k, n, full);
    assert full[|way| + 1..] == [];
    FollowNothing(m', n);
  }

  lemma LinkedStands(s: State, m': Store, t: Id, f: set<Id>, ps: seq<Pair>, way: seq<Key>, k: Key, n: Id, v: Value,
                     p: Pair)
    requires Filled(s, t, f, ps, way) && SameOn(s.store, m', f) && n in f && Shows(s.store, n, v)
    requires forall q | !(way + [k] <= q) :: Follow(m', t, q) == Follow(s.store, t, q)
    requires Follow(m', t, way + [k]) == Some(n)
    requires (p in ps && !Related(way + [k], p.keys)) || p == Pair(way + [k], v)
    ensures p.keys != [] && Stands(m', t, f, p)
  {
    hide Follow, Shows, Core, Unrelated;
    PlanIsClosed(s, t, f);
    if p == Pair(way + [k], v) {
      ShowsStays(s.store, m', f, n, v);
    } else {
      assert Stands(s.store, t, f, p);
      ShowsStays(s.store, m', f, Follow(s.store, t, p.keys).value, p.value);
    }
  }

  lemma Linked(s: State, t: Id, k: Key, n: Id, f: set<Id>)
    requires Core(s) && Closed(s.store, f) && t !in f && n in f && IsTable(s.store, t)
    ensures var s' := Link(s, t, k, n);
            && Core(s') && SameOn(s.store, s'.store, f) && s'.store.Keys == s.store.Keys
            && Kids(s'.store, t) == Kids(s.store, t)[k := n] && (forall i | i != t :: Kids(s'.store, i) == Kids(s.store, i))
            && (forall i | IsTable(s.store, i) :: IsTable(s'.store, i))
            && s'.dotted == s.dotted && s'.implicit == s.implicit && s'.next == s.next && s'.open == s.open
  {
    FreshAll(s);
    LinkFrame(s, t, k, n, 0);
    LinkKids(s, t, k, n);
    LinkRest(s, t, k, n);
  }

  lemma LinkedUnique(m: Store, m': Store, t: Id, f: set<Id>, full: seq<Key>)
    requires Unique(m, t, f)
    requires forall q | !(full <= q) :: Follow(m', t, q) == Follow(m, t, q)
    requires forall q | full <= q && Follow(m', t, q).Some? :: Follow(m', t, q).value in f
    ensures Unique(m', t, f)
  {
    hide Follow;
  }

  lemma MoreUnrelated(ps: seq<Pair>, p: Pair)
    requires Unrelated(ps) && forall d | d in ps :: !Related(p.keys, d.keys)
    ensures Unrelated(ps + [p])
  {
    forall i, j | 0 <= i < j < |ps + [p]| ensures !Related((ps + [p])[i].keys, (ps + [p])[j].keys) {
      if j == |ps| { assert !Related(p.keys, ps[i].keys); }
    }
  }

  lemma LinkedPaths(s: State, s': State, t: Id, f: set<Id>, ps: seq<Pair>, way: seq<Key>, one: Pair)
    requires Filled(s, t, f, ps, way) && s'.dotted == s.dotted && way < one.keys
    requires forall q | !(one.keys <= q) :: Follow(s'.store, t, q) == Follow(s.store, t, q)
    requires forall q | one.keys <= q && Follow(s'.store, t, q).Some? :: Follow(s'.store, t, q).value in f
    ensures forall q | q != [] && Follow(s'.store, t, q).Some? ::
              if Follow(s'.store, t, q).value in f then exists p :: p in ps + [one] && p.keys <= q
              else Follow(s'.store, t, q).value in s'.dotted && exists p :: p in ps + [one] && q < p.keys
  {
    hide Follow, Plan, Unrelated, Stands;
    assert one in ps + [one];
    forall q | q != [] && Follow(s'.store, t, q).Some?
      ensures if Follow(s'.store, t, q).value in f then exists p :: p in ps + [one] && p.keys <= q
              else Follow(s'.store, t, q).value in s'.dotted && exists p :: p in ps + [one] && q < p.keys
    {
      if !(one.keys <= q) {
        if Follow(s.store, t, q).value in f {
          var p :| p in ps && p.keys <= q;
          assert p in ps + [one];
        } else if q <= way {
          assert q < one.keys;
        } else {
          var p :| p in ps && q < p.keys;
          assert p in ps + [one];
        }
      }
    }
  }

  // ---------------------------------------------------------------- what values are accepted and built

  ghost predicate ImplicitStored(s: State) {
    forall i | i in s.implicit :: i in s.store
  }

  /** The value is accepted exactly if it is not too deep and its keys are unrelated, and the new node shows it. */
  lemma {:induction false} EvalIs(s: State, v: Value, depth: nat)
    requires Core(s) && ImplicitStored(s)
    ensures Eval(s, v, depth).Some? <==> Acceptable(v, depth)
    ensures Eval(s, v, depth).Some? ==> Shows(Eval(s, v, depth).value.0.store, Eval(s, v, depth).value.1, v)
    decreases v
  {
    hide Core, EvalElems, EvalPairs, Shows;
    if depth + 1 <= MaxNestedValues {
      match v
      case ScalarValue(text) =>
        ScalarShows(Alloc(s, Scalar(text)).store, s.next, text);
      case ArrayValue(vs) =>
        var s1 := Alloc(s, Array([]));
        NewNode(s, Array([]));
        var es := EvalElemsIs(s1, s.next, vs, depth + 1);
        var r := EvalElems(s1, s.next, vs, depth + 1);
        if r.Some? { ArrayShows(r.value.store, s.next, vs, es); }
      case InlineTable(ps) =>
        var s1 := Alloc(s, Table(true, map[])).(open := s.open + [s.next]);
        NewNode(s, Table(true, map[]));
        CoreOpen(Alloc(s, Table(true, map[])), s.open + [s.next]);
        EmptyIsFilled(s1, s.next);
        var f := EvalPairsIs(s1, s.next, {}, [], ps, depth + 1);
        assert [] + ps == ps;
        var r := EvalPairs(s1, s.next, ps, depth + 1);
        if r.Some? {
          StaysInline(s1, s.next, ps, depth + 1);
          TableShows(r.value, s.next, f, ps);
        }
    }
  }

  lemma ScalarShows(m: Store, n: Id, text: string)
    requires n in m && m[n] == Scalar(text)
    ensures Shows(m, n, ScalarValue(text))
  {}

  lemma ArrayShows(m: Store, n: Id, vs: seq<Value>, es: seq<Id>)
    requires IsArray(m, n) && Elems(m, n) == es && |es| == |vs| && forall i | 0 <= i < |vs| :: Shows(m, es[i], vs[i])
    ensures Shows(m, n, ArrayValue(vs))
  {}

  lemma TableShows(s: State, t: Id, f: set<Id>, ps: seq<Pair>)
    requires Filled(s, t, f, ps, []) && IsInline(s.store, t)
    ensures Shows(s.store, t, InlineTable(ps))
  {
    hide Follow, Core, Closed, Unique, Unrelated;
    forall i | 0 <= i < |ps|
      ensures var x := Follow(s.store, t, ps[i].keys); x.Some? && Shows(s.store, x.value, ps[i].value)
    {
      assert Stands(s.store, t, f, ps[i]);
    }
    forall q | q != [] && Follow(s.store, t, q).Some? ensures exists i :: 0 <= i < |ps| && Related(q, ps[i].keys) {
      var p :| p in ps && (p.keys <= q || q < p.keys);
      var i :| 0 <= i < |ps| && ps[i] == p;
      assert Related(q, ps[i].keys);
    }
  }

  lemma StaysInline(s: State, t: Id, ps: seq<Pair>, depth: nat)
    requires Core(s) && IsInline(s.store, t) && t < s.next && EvalPairs(s, t, ps, depth).Some?
    ensures IsInline(EvalPairs(s, t, ps, depth).value.store, t)
  {
    FreshAll(s);
    hide EvalPairs;
    EvalPairsFrame(s, t, ps, depth, 0);
  }

  lemma NewNode(s: State, n: Node)
    requires Core(s) && ImplicitStored(s) && (n.Table? ==> n.kids == map[]) && (n.Array? ==> n.elems == [])
    ensures Core(Alloc(s, n)) && ImplicitStored(Alloc(s, n))
    ensures s.next in Alloc(s, n).store && Alloc(s, n).store[s.next] == n && Alloc(s, n).next == s.next + 1
    ensures forall i | i in Alloc(s, n).store :: i <= s.next
    ensures s.next !in s.store
  {
    FreshAll(s);
    AllocFrame(s, n, 0);
  }

  lemma CoreOpen(s: State, open: seq<Id>)
    requires Core(s)
    ensures Core(s.(open := open))
  {}

  lemma EmptyIsFilled(s: State, t: Id)
    requires Core(s) && ImplicitStored(s) && IsTable(s.store, t) && Kids(s.store, t) == map[]
    ensures Filled(s, t, {}, [], [])
  {
    hide Follow, Core;
    forall q ensures Follow(s.store, t, q) == if q == [] then Some(t) else None { FollowInEmpty(s.store, t, q); }
  }

  /** The elements of an array go to its end in their order. */
  lemma {:induction false} EvalElemsIs(s: State, a: Id, vs: seq<Value>, depth: nat) returns (es: seq<Id>)
    requires Core(s) && ImplicitStored(s) && IsArray(s.store, a) && FreshFrom(s, a + 1) && a < s.next
    ensures EvalElems(s, a, vs, depth).Some? <==> forall i | 0 <= i < |vs| :: Acceptable(vs[i], depth)
    ensures EvalElems(s, a, vs, depth).Some? ==>
              var m := EvalElems(s, a, vs, depth).value.store;
              && IsArray(m, a) && Elems(m, a) == Elems(s.store, a) + es && |es| == |vs|
              && (forall i | 0 <= i < |vs| :: Shows(m, es[i], vs[i]))
              && SameOn(s.store, m, s.store.Keys - {a})
    decreases vs
  {
    hide Core, Eval, Shows, FreshFrom, Acceptable, Append, Elems;
    es := [];
    if vs == [] {
      assert Elems(s.store, a) + es == Elems(s.store, a);
    } else {
      EvalIs(s, vs[0], depth);
      assert vs == [vs[0]] + vs[1..];
      if Eval(s, vs[0], depth).Some? {
        var (s1, n) := Eval(s, vs[0], depth).value;
        EvalIsOnTop(s, vs[0], depth);
        ElementAdded(s, s1, a, n, vs[0], depth);
        var s2 := Append(s1, a, n);
        var rest := EvalElemsIs(s2, a, vs[1..], depth);
        es := [n] + rest;
        var r := EvalElems(s2, a, vs[1..], depth);
        if r.Some? {
          assert (Elems(s.store, a) + [n]) + rest == Elems(s.store, a) + es;
          ElementStays(s2, r.value.store, a, n, vs[0]);
          SameThrough(s.store, s2.store, r.value.store, s.store.Keys - {a}, s2.store.Keys - {a});
        }
      }
    }
  }

  lemma SameThrough(m: Store, m1: Store, m2: Store, f: set<Id>, f1: set<Id>)
    requires SameOn(m, m1, f) && SameOn(m1, m2, f1) && f <= f1
    ensures SameOn(m, m2, f)
  {}

  lemma ElementAdded(s: State, s1: State, a: Id, n: Id, v: Value, depth: nat)
    requires Core(s) && ImplicitStored(s) && IsArray(s.store, a) && FreshFrom(s, a + 1) && a < s.next
    requires Eval(s, v, depth) == Some((s1, n)) && OnTop(s, s1) && n !in s.store && Shows(s1.store, n, v)
    ensures var s2 := Append(s1, a, n);
            && Core(s2) && ImplicitStored(s2) && IsArray(s2.store, a) && FreshFrom(s2, a + 1) && a < s2.next
            && Elems(s2.store, a) == Elems(s.store, a) + [n] && SameOn(s.store, s2.store, s.store.Keys - {a})
            && n > a && n in s2.store && Shows(s2.store, n, v) && s.store.Keys - {a} <= s2.store.Keys - {a}
  {
    hide Eval, Shows, Core, OnTop;
    EvalFrame(s, v, depth, a + 1);
    TopParts(s, s1, a);
    FreshAll(s1);
    AppendFrame(s1, a, n, 0);
    var s2 := Append(s1, a, n);
    AppendedFresh(s1, a, n);
    var f := s1.store.Keys - s.store.Keys;
    ShowsStays(s1.store, s2.store, f, n, v);
  }

  lemma TopParts(s: State, s1: State, a: Id)
    requires Core(s) && OnTop(s, s1) && IsArray(s.store, a) && ImplicitStored(s)
    ensures IsArray(s1.store, a) && Elems(s1.store, a) == Elems(s.store, a) && ImplicitStored(s1)
    ensures Core(s1) && Closed(s1.store, s1.store.Keys - s.store.Keys) && a !in s1.store.Keys - s.store.Keys
    ensures SameOn(s.store, s1.store, s.store.Keys) && s.store.Keys <= s1.store.Keys
  {}

  lemma AppendedFresh(s: State, a: Id, n: Id)
    requires FreshFrom(s, a + 1) && IsArray(s.store, a)
    ensures FreshFrom(Append(s, a, n), a + 1)
    ensures Append(s, a, n) == s.(store := Append(s, a, n).store)
    ensures forall i | i in s.store && i != a :: i in Append(s, a, n).store && Append(s, a, n).store[i] == s.store[i]
    ensures IsArray(Append(s, a, n).store, a) && Elems(Append(s, a, n).store, a) == Elems(s.store, a) + [n]
    ensures Append(s, a, n).store.Keys == s.store.Keys
  {
    var m, m' := s.store, Append(s, a, n).store;
    assert forall i | i in m && i != a :: Kids(m', i) == Kids(m, i) && Elems(m', i) == Elems(m, i);
  }

  /** What an element shows stays, whatever is added to the array behind it. */
  lemma ElementStays(s: State, m': Store, a: Id, n: Id, v: Value)
    requires Core(s) && FreshFrom(s, a + 1) && n > a && n in s.store && Shows(s.store, n, v)
    requires SameOn(s.store, m', s.store.Keys - {a})
    ensures Shows(m', n, v)
  {
    hide Shows;
    var f := set i | i in s.store && i > a;
    assert Closed(s.store, f);
    ShowsStays(s.store, m', f, n, v);
  }

  /** The pairs of an inline table, behind others that are in it. */
  lemma {:induction false} EvalPairsIs(s: State, t: Id, f: set<Id>, done: seq<Pair>, ps: seq<Pair>, depth: nat)
    returns (f': set<Id>)
    requires Filled(s, t, f, done, [])
    ensures EvalPairs(s, t, ps, depth).Some? <==>
              Unrelated(done + ps) && forall i | 0 <= i < |ps| :: ps[i].keys != [] && Acceptable(ps[i].value, depth)
    ensures EvalPairs(s, t, ps, depth).Some? ==> Filled(EvalPairs(s, t, ps, depth).value, t, f', done + ps, [])
    decreases ps
  {
    hide Filled, EvalPair, Acceptable, Unrelated;
    f' := f;
    if ps == [] {
      assert done + ps == done;
      FilledParts(s, t, f, done);
    } else {
      var p := ps[0];
      assert ps == [p] + ps[1..] && done + ps == (done + [p]) + ps[1..];
      var f1 := EvalPairIs(s, t, f, done, p, depth);
      NoneRelated(done, p, ps[1..]);
      var r := EvalPair(s, t, p, depth);
      if r.Some? {
        f' := EvalPairsIs(r.value, t, f1, done + [p], ps[1..], depth);
      }
    }
  }

  lemma FilledParts(s: State, t: Id, f: set<Id>, ps: seq<Pair>)
    requires Filled(s, t, f, ps, [])
    ensures Unrelated(ps) && Core(s) && ImplicitStored(s) && IsTable(s.store, t) && t !in f
    ensures Closed(s.store, f) && Plan(s, t, f)
  {
    hide Follow, Core, Closed, Unique, Shows;
  }

  lemma NoneRelated(done: seq<Pair>, p: Pair, rest: seq<Pair>)
    ensures Unrelated((done + [p]) + rest) ==> forall d | d in done :: !Related(p.keys, d.keys)
  {
    var all := (done + [p]) + rest;
    if Unrelated(all) {
      forall d | d in done ensures !Related(p.keys, d.keys) {
        var i :| 0 <= i < |done| && done[i] == d;
        assert all[i] == d && all[|done|] == p;
      }
    }
  }

  /** One pair. */
  lemma {:induction false} EvalPairIs(s: State, t: Id, f: set<Id>, done: seq<Pair>, p: Pair, depth: nat)
    returns (f': set<Id>)
    requires Filled(s, t, f, done, [])
    ensures EvalPair(s, t, p, depth).Some? <==>
              p.keys != [] && (forall d | d in done :: !Related(p.keys, d.keys)) && Acceptable(p.value, depth)
    ensures EvalPair(s, t, p, depth).Some? ==> Filled(EvalPair(s, t, p, depth).value, t, f', done + [p], [])
    decreases p
  {
    hide Filled, Acceptable, Related, Core, Eval, WalkDotted, Walked, Closed, Shows;
    f' := f;
    FilledParts(s, t, f, done);
    KeyIsFree(s, t, f, done, p.keys);
    var w := WalkDotted(s, t, p.keys);
    if p.keys != [] && forall d | d in done :: !Related(p.keys, d.keys) {
      var (s1, t1) := w.value;
      var way, k := p.keys[..|p.keys| - 1], Last(p.keys);
      WalkInTable(s, t, f, done, p.keys);
      FilledWalk(s, t, f, done, way, s1, t1);
      WalkedParts(s, t, f, way, s1, t1, done);
      EvalIs(s1, p.value, depth);
      if Eval(s1, p.value, depth).Some? {
        var (s2, n) := Eval(s1, p.value, depth).value;
        EvalIsOnTop(s1, p.value, depth);
        FilledEval(s1, t, f, done, way, s2);
        f' := f + (s2.store.Keys - s1.store.Keys);
        TopTable(s1, s2, t, t1, way);
        assert way + [k] == p.keys && Pair(way + [k], p.value) == p;
        FilledLink(s2, t, f', done, way, t1, k, n, p.value);
      }
    }
  }

  /** A key may be entered exactly if it is related to no other. */
  lemma KeyIsFree(s: State, t: Id, f: set<Id>, ps: seq<Pair>, keys: seq<Key>)
    requires Filled(s, t, f, ps, [])
    ensures var w := WalkDotted(s, t, keys);
            w.Some? && CanInsert(w.value.0, w.value.1, keys) <==> keys != [] && forall p | p in ps :: !Related(keys, p.keys)
  {
    hide Filled, Related, Core, WalkDotted, Follow;
    FilledParts(s, t, f, ps);
    WalkIs(s, t, keys);
    if keys != [] {
      FollowLast(s.store, t, keys);
      if p :| p in ps && Related(keys, p.keys) {
        RelatedStops(s, t, f, ps, keys, p);
      } else {
        UnrelatedPasses(s, t, f, ps, keys);
      }
    }
  }

  lemma WalkInTable(s: State, t: Id, f: set<Id>, ps: seq<Pair>, keys: seq<Key>)
    requires Filled(s, t, f, ps, []) && keys != [] && (forall p | p in ps :: !Related(keys, p.keys))
    requires WalkDotted(s, t, keys).Some?
    ensures var (s', t') := WalkDotted(s, t, keys).value; Walked(s, t, f, [], keys[..|keys| - 1], s', t')
  {
    hide Core, WalkDotted, Follow, Walked, Shows, Unique, Closed, Related;
    FollowNothing(s.store, t);
    forall n | 0 < n < |keys| ensures var x := Follow(s.store, t, keys[..n]); x.Some? ==> x.value !in f {
      forall p | p in ps ensures !(p.keys <= keys[..n]) { Between(p.keys, keys[..n], keys); }
    }
    WalkGrows(s, t, f, [], t, keys);
    assert [] + keys[..|keys| - 1] == keys[..|keys| - 1];
  }

  lemma WalkedParts(s: State, t: Id, f: set<Id>, way: seq<Key>, s1: State, t1: Id, ps: seq<Pair>)
    requires ImplicitStored(s) && Walked(s, t, f, [], way, s1, t1) && Filled(s1, t, f, ps, way)
    ensures Core(s1) && ImplicitStored(s1) && t1 !in f && Follow(s1.store, t, way) == Some(t1) && IsTable(s1.store, t1)
    ensures t in s1.store
  {
    hide Follow, Shows, Unique, Closed;
    if way == [] { FollowNothing(s1.store, t); }
  }

  lemma TopTable(s1: State, s2: State, t: Id, t1: Id, way: seq<Key>)
    requires Core(s1) && OnTop(s1, s2) && t in s1.store && Follow(s1.store, t, way) == Some(t1) && IsTable(s1.store, t1)
    ensures Follow(s2.store, t, way) == Some(t1) && IsTable(s2.store, t1) && Kids(s2.store, t1) == Kids(s1.store, t1)
    ensures t1 !in s2.store.Keys - s1.store.Keys
  {
    hide Follow, Core;
    StoredIsClosed(s1);
    FollowClosed(s1.store, s2.store, s1.store.Keys, t, way);
  }
}
