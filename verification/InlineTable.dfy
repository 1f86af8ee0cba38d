/**
  Which inline tables `toml.hpp` accepts, and what they hold: the pairs as they stand in the text against the
  tables that are built from them one key at a time.
*/
module InlineTables {
  import opened Characters
  import opened InlineGrammar
  import opened InlineRoundTrips
  import opened Integers
  import opened Keys
  import Paths
  import opened StringParser
  import opened TomlValues
  import opened Wrappers

  // ---------------------------------------------------------------- looking up dotted keys

  /** What stands under a dotted key. */
  function GetPath(es: seq<Entry>, keys: seq<string>): Option<Value>
    requires keys != []
    decreases |keys|
  {
    var child := Paths.Get(es, keys[0]);
    if |keys| == 1 || child.None? then child
    else if child.value.Table? then GetPath(child.value.entries, keys[1..])
    else None
  }

  /** Nothing stands below what is not there, and only tables have something below them. */
  lemma {:induction false} GetPathSplit(es: seq<Entry>, a: seq<string>, b: seq<string>)
    requires a != [] && b != []
    ensures GetPath(es, a + b) ==
            var x := GetPath(es, a);
            if x.Some? && x.value.Table? then GetPath(x.value.entries, b) else None
    decreases |a|
  {
    hide Paths.Get;
    assert (a + b)[0] == a[0] && (a + b)[1..] == a[1..] + b;
    var child := Paths.Get(es, a[0]);
    if |a| == 1 {
      assert (a + b)[1..] == b;
    } else if child.Some? && child.value.Table? {
      GetPathSplit(child.value.entries, a[1..], b);
    }
  }

  /** The same as `at_path` with nothing but keys. */
  lemma {:induction false} GetPathFollows(es: seq<Entry>, keys: seq<string>)
    requires keys != []
    ensures GetPath(es, keys) == Paths.Follow(Table(es), seq(|keys|, i requires 0 <= i < |keys| => Paths.Key(keys[i])))
    decreases |keys|
  {
    hide Paths.Get;
    var cs := seq(|keys|, i requires 0 <= i < |keys| => Paths.Key(keys[i]));
    var child := Paths.Get(es, keys[0]);
    if |keys| > 1 {
      var rest := seq(|keys[1..]|, i requires 0 <= i < |keys[1..]| => Paths.Key(keys[1..][i]));
      assert cs[1..] == rest;
      if child.Some? && child.value.Table? {
        GetPathFollows(child.value.entries, keys[1..]);
      } else if child.Some? {
        assert Paths.Child(child.value, rest[0]) == None;
      }
    }
  }

  // ---------------------------------------------------------------- one pair

  lemma {:induction false} GetInserted(es: seq<Entry>, k: string, v: Value)
    requires Paths.Get(es, k) == None
    ensures Paths.Get(Insert(es, k, v), k) == Some(v)
  {
    var i := LowerBound(es, k);
    assert es[..i] + es[i..] == es;
    GetBehind(es[..i], es[i..], k, v);
    assert Insert(es, k, v) == es[..i] + ([Entry(k, v)] + es[i..]);
  }

  lemma {:induction false} GetBehind(a: seq<Entry>, b: seq<Entry>, k: string, v: Value)
    requires Paths.Get(a + b, k) == None
    ensures Paths.Get(a + ([Entry(k, v)] + b), k) == Some(v)
  {
    var c := [Entry(k, v)] + b;
    if a == [] {
      assert a + c == c;
    } else {
      assert (a + b)[1..] == a[1..] + b && (a + c)[1..] == a[1..] + c;
      GetBehind(a[1..], b, k, v);
    }
  }

  lemma {:induction false} GetReplaced(es: seq<Entry>, k: string, v: Value)
    requires Paths.Get(es, k).Some?
    ensures Paths.Get(Replace(es, k, v), k) == Some(v)
  {
    if es[0].key != k {
      GetReplaced(es[1..], k, v);
      assert Replace(es, k, v)[1..] == Replace(es[1..], k, v);
    }
  }

  /** What a pair becomes at the first of its keys. */
  lemma AddPairGet(es: seq<Entry>, dotted: set<seq<string>>, path: seq<string>, keys: seq<string>, v: Value)
    requires keys != [] && CanAdd(es, dotted, path, keys)
    ensures var child := Paths.Get(es, keys[0]);
            var below := if child.Some? && child.value.Table? then child.value.entries else [];
            Paths.Get(AddPair(es, keys, v), keys[0])
            == Some(if |keys| == 1 then v else Table(AddPair(below, keys[1..], v)))
    ensures forall k | k != keys[0] :: Paths.Get(AddPair(es, keys, v), k) == Paths.Get(es, k)
  {
    hide Paths.Get, Insert, Replace;
    var child := Paths.Get(es, keys[0]);
    if |keys| > 1 && child.Some? {
      var t := Table(AddPair(child.value.entries, keys[1..], v));
      GetReplaced(es, keys[0], t);
      forall k | k != keys[0] ensures Paths.Get(AddPair(es, keys, v), k) == Paths.Get(es, k) {
        GetReplace(es, keys[0], t, k);
      }
    } else {
      var x := if |keys| == 1 then v else Table(AddPair([], keys[1..], v));
      GetInserted(es, keys[0], x);
      forall k | k != keys[0] ensures Paths.Get(AddPair(es, keys, v), k) == Paths.Get(es, k) {
        GetInsert(es, keys[0], x, k);
      }
    }
  }

  /** A key that may be added below a table may be added below the table at its first key. */
  lemma CanAddBelow(es: seq<Entry>, dotted: set<seq<string>>, path: seq<string>, keys: seq<string>)
    requires |keys| > 1 && CanAdd(es, dotted, path, keys)
    ensures var child := Paths.Get(es, keys[0]);
            CanAdd(if child.Some? && child.value.Table? then child.value.entries else [], dotted, path + [keys[0]], keys[1..])
  {}

  /** A pair that may be added stands under its keys. */
  lemma {:induction false} AddedIsThere(es: seq<Entry>, dotted: set<seq<string>>, path: seq<string>, keys: seq<string>,
                                        v: Value)
    requires keys != [] && CanAdd(es, dotted, path, keys)
    ensures GetPath(AddPair(es, keys, v), keys) == Some(v)
    decreases |keys|
  {
    hide AddPair, CanAdd, Paths.Get;
    AddPairGet(es, dotted, path, keys, v);
    if |keys| > 1 {
      var child := Paths.Get(es, keys[0]);
      CanAddBelow(es, dotted, path, keys);
      AddedIsThere(if child.Some? && child.value.Table? then child.value.entries else [], dotted, path + [keys[0]],
                   keys[1..], v);
    }
  }

  predicate Related(a: seq<string>, b: seq<string>) {
    a <= b || b <= a
  }

  /** Everything stays that stands neither on the way to the pair nor below it. */
  lemma {:induction false} OthersStay(es: seq<Entry>, dotted: set<seq<string>>, path: seq<string>, keys: seq<string>,
                                      v: Value, q: seq<string>)
    requires keys != [] && CanAdd(es, dotted, path, keys)
    requires q != [] && !Related(q, keys)
    ensures GetPath(AddPair(es, keys, v), q) == GetPath(es, q)
    decreases |keys|
  {
    hide AddPair, CanAdd, Paths.Get;
    AddPairGet(es, dotted, path, keys, v);
    if q[0] == keys[0] {
      var child := Paths.Get(es, keys[0]);
      var below := if child.Some? && child.value.Table? then child.value.entries else [];
      FirstsAgree(q, keys);
      CanAddBelow(es, dotted, path, keys);
      OthersStay(below, dotted, path + [keys[0]], keys[1..], v, q[1..]);
      GetPathBelow(es, q);
    }
  }

  lemma FirstsAgree(a: seq<string>, b: seq<string>)
    requires a != [] && b != [] && a[0] == b[0] && !Related(a, b)
    ensures |a| > 1 && |b| > 1 && !Related(a[1..], b[1..])
  {
    assert a == [a[0]] + a[1..] && b == [b[0]] + b[1..];
  }

  lemma GetPathBelow(es: seq<Entry>, q: seq<string>)
    requires |q| > 1
    ensures var child := Paths.Get(es, q[0]);
            GetPath(es, q) == GetPath(if child.Some? && child.value.Table? then child.value.entries else [], q[1..])
  {}

  /** A key may be added exactly if it is new and all that stands on its way are tables of dotted keys. */
  lemma {:induction false} CanAddIs(es: seq<Entry>, dotted: set<seq<string>>, path: seq<string>, keys: seq<string>)
    requires keys != []
    ensures CanAdd(es, dotted, path, keys) <==>
            && GetPath(es, keys) == None
            && forall n | 1 <= n < |keys| ::
                 var x := GetPath(es, keys[..n]); x.Some? ==> x.value.Table? && path + keys[..n] in dotted
    decreases |keys|
  {
    hide Paths.Get;
    var child := Paths.Get(es, keys[0]);
    assert |keys| > 1 ==> keys[..1] == [keys[0]];
    if |keys| > 1 && child.Some? && child.value.Table? {
      CanAddIs(child.value.entries, dotted, path + [keys[0]], keys[1..]);
      StepDown(es, dotted, path, keys);
    } else if |keys| > 1 && child.None? {
      forall n | 1 <= n < |keys| ensures GetPath(es, keys[..n]) == None {}
    } else if |keys| > 1 {
      assert GetPath(es, keys[..1]) == child;
    }
  }

  /** The condition of a key on all its prefixes, as one on the first and one on those below. */
  lemma StepDown(es: seq<Entry>, dotted: set<seq<string>>, path: seq<string>, keys: seq<string>)
    requires |keys| > 1 && Paths.Get(es, keys[0]).Some? && Paths.Get(es, keys[0]).value.Table?
    ensures var below, p := Paths.Get(es, keys[0]).value.entries, path + [keys[0]];
            (forall n | 1 <= n < |keys| ::
               var x := GetPath(es, keys[..n]); x.Some? ==> x.value.Table? && path + keys[..n] in dotted)
            <==> p in dotted && forall n | 1 <= n < |keys[1..]| ::
               var x := GetPath(below, keys[1..][..n]); x.Some? ==> x.value.Table? && p + keys[1..][..n] in dotted
  {
    hide Paths.Get;
    var below, p := Paths.Get(es, keys[0]).value.entries, path + [keys[0]];
    forall n | 1 <= n < |keys[1..]|
      ensures GetPath(below, keys[1..][..n]) == GetPath(es, keys[..n + 1])
      ensures p + keys[1..][..n] == path + keys[..n + 1]
    {
      assert keys[..n + 1][1..] == keys[1..][..n];
    }
    assert keys[..1] == [keys[0]] && GetPath(es, keys[..1]).value.Table?;
    if p in dotted && forall n | 1 <= n < |keys[1..]| ::
         var x := GetPath(below, keys[1..][..n]); x.Some? ==> x.value.Table? && p + keys[1..][..n] in dotted
    {
      forall n | 1 <= n < |keys|
        ensures var x := GetPath(es, keys[..n]); x.Some? ==> x.value.Table? && path + keys[..n] in dotted
      {
        if n > 1 {
          assert keys[..n][1..] == keys[1..][..n - 1];
          var m := n - 1;
          assert 1 <= m < |keys[1..]|;
        }
      }
    }
  }

  // ---------------------------------------------------------------- all pairs

  datatype Pair = Pair(keys: seq<string>, value: Value)

  /** The entries hold a pair under its keys, and nothing that is neither on the way to a pair nor inside one. */
  ghost predicate Holds(es: seq<Entry>, ps: seq<Pair>) {
    && (forall p | p in ps :: p.keys != [] && GetPath(es, p.keys) == Some(p.value))
    && (forall q | q != [] && GetPath(es, q).Some? :: exists p :: p in ps && Related(q, p.keys))
  }

  /** No key is the same as another one, leads through the value of another one, or ends on the way to it. */
  ghost predicate Unrelated(ps: seq<Pair>) {
    forall i, j | 0 <= i < j < |ps| :: !Related(ps[i].keys, ps[j].keys)
  }

  /** A key is unrelated to all pairs. */
  ghost predicate IsNew(ps: seq<Pair>, keys: seq<string>) {
    forall p | p in ps :: !Related(keys, p.keys)
  }

  /** An inline table under construction holds the pairs read so far and knows the tables of their dotted keys. */
  ghost predicate Drafted(d: Draft, ps: seq<Pair>) {
    && Holds(d.entries, ps) && Unrelated(ps)
    && forall q :: q in d.dotted <==> q != [] && exists p :: p in ps && q < p.keys
  }

  lemma OnTheWay(es: seq<Entry>, q: seq<string>, keys: seq<string>)
    requires q != [] && q < keys && GetPath(es, keys).Some?
    ensures GetPath(es, q).Some? && GetPath(es, q).value.Table?
  {
    hide GetPath;
    assert keys == q + keys[|q|..];
    GetPathSplit(es, q, keys[|q|..]);
  }

  /** What stands at a key, or on the way to it without a dotted key of its own, blocks it. */
  lemma Blocked(es: seq<Entry>, dotted: set<seq<string>>, keys: seq<string>, q: seq<string>)
    requires q != [] && q <= keys && GetPath(es, q).Some? && (q == keys || q !in dotted)
    ensures !CanAdd(es, dotted, [], keys)
  {
    hide CanAdd, GetPath;
    CanAddIs(es, dotted, [], keys);
    var n := |q|;
    assert keys[..n] == q && [] + q == q;
    if q == keys { assert n == |keys|; } else { assert n < |keys|; }
  }

  lemma Unblocked(es: seq<Entry>, dotted: set<seq<string>>, keys: seq<string>)
    requires keys != [] && GetPath(es, keys) == None
    requires forall q | q != [] && q < keys && GetPath(es, q).Some? :: GetPath(es, q).value.Table? && q in dotted
    ensures CanAdd(es, dotted, [], keys)
  {
    hide CanAdd, GetPath;
    CanAddIs(es, dotted, [], keys);
    forall n | 1 <= n < |keys|
      ensures var x := GetPath(es, keys[..n]); x.Some? ==> x.value.Table? && [] + keys[..n] in dotted
    {
      assert keys[..n] < keys && [] + keys[..n] == keys[..n];
    }
  }

  lemma NoTwoRelated(ps: seq<Pair>, p: Pair, o: Pair)
    requires Unrelated(ps) && p in ps && o in ps && Related(p.keys, o.keys)
    ensures p.keys == o.keys
  {
    var i, j :| 0 <= i < |ps| && 0 <= j < |ps| && ps[i] == p && ps[j] == o;
    assert Related(ps[i].keys, ps[j].keys) && Related(ps[j].keys, ps[i].keys);
  }

  /** A pair is refused if its key is related to another one. */
  lemma RelatedIsRefused(d: Draft, ps: seq<Pair>, keys: seq<string>, p: Pair)
    requires Drafted(d, ps) && keys != [] && p in ps && Related(keys, p.keys)
    ensures !CanAdd(d.entries, d.dotted, [], keys)
  {
    hide CanAdd, GetPath, Unrelated;
    if keys < p.keys {
      OnTheWay(d.entries, keys, p.keys);
      Blocked(d.entries, d.dotted, keys, keys);
    } else {
      if p.keys in d.dotted {
        var o :| o in ps && p.keys < o.keys;
        NoTwoRelated(ps, p, o);
      }
      Blocked(d.entries, d.dotted, keys, p.keys);
    }
  }

  lemma BetweenKeys(q: seq<string>, keys: seq<string>, other: seq<string>)
    requires q < keys && Related(q, other) && !Related(keys, other)
    ensures q < other
  {}

  /** A pair with a key that is related to no other may be added. */
  lemma NewIsAccepted(d: Draft, ps: seq<Pair>, keys: seq<string>)
    requires Drafted(d, ps) && keys != [] && IsNew(ps, keys)
    ensures CanAdd(d.entries, d.dotted, [], keys)
  {
    hide CanAdd, GetPath, Unrelated;
    forall q | q != [] && q < keys && GetPath(d.entries, q).Some?
      ensures GetPath(d.entries, q).value.Table? && q in d.dotted
    {
      var p :| p in ps && Related(q, p.keys);
      BetweenKeys(q, keys, p.keys);
      OnTheWay(d.entries, q, p.keys);
    }
    hide Holds, IsNew;
    Unblocked(d.entries, d.dotted, keys);
  }

  lemma PairIsHeld(d: Draft, ps: seq<Pair>, keys: seq<string>, v: Value)
    requires Drafted(d, ps) && keys != [] && IsNew(ps, keys) && CanAdd(d.entries, d.dotted, [], keys)
    ensures Holds(AddPair(d.entries, keys, v), ps + [Pair(keys, v)])
  {
    hide CanAdd, GetPath, AddPair;
    var es, all := AddPair(d.entries, keys, v), ps + [Pair(keys, v)];
    forall p | p in all ensures p.keys != [] && GetPath(es, p.keys) == Some(p.value) {
      if p in ps {
        OthersStay(d.entries, d.dotted, [], keys, v, p.keys);
      } else {
        AddedIsThere(d.entries, d.dotted, [], keys, v);
      }
    }
    forall q | q != [] && GetPath(es, q).Some? ensures exists p :: p in all && Related(q, p.keys) {
      if Related(q, keys) {
        assert Pair(keys, v) in all;
      } else {
        OthersStay(d.entries, d.dotted, [], keys, v, q);
        var p :| p in ps && Related(q, p.keys);
        assert p in all;
      }
    }
  }

  lemma Prefixes(keys: seq<string>, q: seq<string>)
    ensures q in (set i | 1 <= i < |keys| :: keys[..i]) <==> q != [] && q < keys
  {
    if q != [] && q < keys { assert keys[..|q|] == q; }
  }

  lemma DottedTables(d: Draft, ps: seq<Pair>, keys: seq<string>, v: Value, q: seq<string>)
    requires Drafted(d, ps) && keys != []
    ensures q in AddTo(d, keys, v).dotted <==> q != [] && exists p :: p in ps + [Pair(keys, v)] && q < p.keys
  {
    hide Holds, Unrelated, AddPair;
    Prefixes(keys, q);
    if q != [] && q < keys { assert Pair(keys, v) in ps + [Pair(keys, v)]; }
    if q in d.dotted {
      var p :| p in ps && q < p.keys;
      assert p in ps + [Pair(keys, v)];
    }
  }

  /** Adding a new pair. */
  lemma PairIsAdded(d: Draft, ps: seq<Pair>, keys: seq<string>, v: Value)
    requires Drafted(d, ps) && keys != [] && IsNew(ps, keys)
    ensures CanAdd(d.entries, d.dotted, [], keys) && Drafted(AddTo(d, keys, v), ps + [Pair(keys, v)])
  {
    hide CanAdd, Holds, AddPair;
    NewIsAccepted(d, ps, keys);
    PairIsHeld(d, ps, keys, v);
    var all := ps + [Pair(keys, v)];
    forall i, j | 0 <= i < j < |all| ensures !Related(all[i].keys, all[j].keys) {
      if j == |ps| { assert ps[i] in ps && !Related(keys, ps[i].keys); }
    }
    forall q ensures q in AddTo(d, keys, v).dotted <==> q != [] && exists p :: p in all && q < p.keys {
      DottedTables(d, ps, keys, v, q);
    }
  }

  // ---------------------------------------------------------------- the text of a table

  function PrependPair(p: Pair, r: Option<Parsed<seq<Pair>>>): Option<Parsed<seq<Pair>>> {
    if r.None? then None else Some(Parsed([p] + r.value.value, r.value.after))
  }

  /** The pairs of an inline table as they stand in the text, up to its closing brace. */
  function PairsAt(src: Source, pos: nat, nested: nat, last: Last): (r: Option<Parsed<seq<Pair>>>)
    requires pos <= |src.text|
    ensures r.Some? ==> pos < r.value.after <= |src.text|
    decreases |src.text| - pos
  {
    var p := SpacesEnd(src.text, pos);
    if p.None? || p.value == |src.text| then None
    else if src.text[p.value] == ',' then
      if last == Element && p.value + 1 < |src.text| then PairsAt(src, p.value + 1, nested, Comma) else None
    else if src.text[p.value] == '}' then
      if last == Comma then None else Some(Parsed([], p.value + 1))
    else if last == Element || !(IsDelimiter(src.text[p.value]) || IsBareKeyChar(src.text[p.value])) then None
    else
      var k := PairAt(src.text, p.value);
      var v := if k.None? then None else ValueAt(src, k.value.after, nested);
      if v.None? then None
      else PrependPair(Pair(k.value.value, v.value.value), PairsAt(src, v.value.after, nested, Element))
  }

  /** What a table of pairs has to be, if it is accepted. */
  ghost predicate IsTableOf(r: Option<Parsed<Value>>, before: seq<Pair>, s: Option<Parsed<seq<Pair>>>) {
    if s.None? || !Unrelated(before + s.value.value) then r == None
    else
      && r.Some? && r.value.after == s.value.after
      && r.value.value.Table? && Holds(r.value.value.entries, before + s.value.value)
  }

  lemma RelatedPairs(ps: seq<Pair>, p: Pair, rest: seq<Pair>)
    requires !IsNew(ps, p.keys)
    ensures !Unrelated(ps + ([p] + rest))
  {
    var o :| o in ps && Related(p.keys, o.keys);
    var i :| 0 <= i < |ps| && ps[i] == o;
    var all := ps + ([p] + rest);
    assert all[i] == o && all[|ps|] == p;
  }

  lemma {:induction false} EntriesArePairs(src: Source, pos: nat, nested: nat, last: Last, d: Draft, ps: seq<Pair>)
    requires pos <= |src.text| && Drafted(d, ps)
    ensures IsTableOf(EntriesAt(src, pos, nested, last, d), ps, PairsAt(src, pos, nested, last))
    decreases |src.text| - pos
  {
    hide SpacesEnd, PairAt, ValueAt, CanAdd, AddTo, IsBareKeyChar, IsDelimiter, Drafted, Holds, Unrelated, IsNew;
    var p := SpacesEnd(src.text, pos);
    if p.Some? && p.value < |src.text| {
      var c := src.text[p.value];
      if c == ',' {
        if last == Element && p.value + 1 < |src.text| { EntriesArePairs(src, p.value + 1, nested, Comma, d, ps); }
      } else if c == '}' {
        AllPairs(d, ps);
        assert ps + [] == ps;
      } else if last != Element && (IsDelimiter(c) || IsBareKeyChar(c)) {
        NextPair(src, p.value, nested, d, ps);
        var k := PairAt(src.text, p.value);
        if k.Some? && IsNew(ps, k.value.value) {
          var v := ValueAt(src, k.value.after, nested);
          if v.Some? {
            var one := Pair(k.value.value, v.value.value);
            EntriesArePairs(src, v.value.after, nested, Element, AddTo(d, one.keys, one.value), ps + [one]);
            var rest := PairsAt(src, v.value.after, nested, Element);
            if rest.Some? { assert (ps + [one]) + rest.value.value == ps + ([one] + rest.value.value); }
          }
        } else if k.Some? {
          forall v, rest ensures !Unrelated(ps + ([Pair(k.value.value, v)] + rest)) {
            RelatedPairs(ps, Pair(k.value.value, v), rest);
          }
        }
      }
    }
  }

  lemma AllPairs(d: Draft, ps: seq<Pair>)
    requires Drafted(d, ps)
    ensures Holds(d.entries, ps) && Unrelated(ps)
  {
    hide Holds, Unrelated;
  }

  /** The next pair is taken exactly if its key is new. */
  lemma NextPair(src: Source, pos: nat, nested: nat, d: Draft, ps: seq<Pair>)
    requires pos < |src.text| && Drafted(d, ps)
    ensures var k := PairAt(src.text, pos);
            k.Some? ==>
              && (CanAdd(d.entries, d.dotted, [], k.value.value) <==> IsNew(ps, k.value.value))
              && (IsNew(ps, k.value.value) ==>
                    forall v :: Drafted(AddTo(d, k.value.value, v), ps + [Pair(k.value.value, v)]))
  {
    hide PairAt, CanAdd, AddTo, Drafted, Related;
    var k := PairAt(src.text, pos);
    if k.Some? {
      if IsNew(ps, k.value.value) {
        NewIsAccepted(d, ps, k.value.value);
        forall v ensures Drafted(AddTo(d, k.value.value, v), ps + [Pair(k.value.value, v)]) {
          PairIsAdded(d, ps, k.value.value, v);
        }
      } else {
        var p :| p in ps && Related(k.value.value, p.keys);
        RelatedIsRefused(d, ps, k.value.value, p);
      }
    }
  }

  /**
    An inline table is accepted exactly if its pairs can be read and no key of it is related to another one.
    Then it holds exactly its pairs, each under its keys.
  */
  lemma InlineTableIs(src: Source, pos: nat, nested: nat)
    requires pos + 1 < |src.text| && src.text[pos] == '{'
    ensures var s := if nested + 1 > MAX_NESTED_VALUES then None else PairsAt(src, pos + 1, nested + 1, Nothing);
            IsTableOf(ValueAt(src, pos, nested), [], s)
  {
    hide EntriesAt, PairsAt, GetPath, ValueAt;
    DispatchesTable(src, pos, nested);
    EntriesArePairs(src, pos + 1, nested + 1, Nothing, Draft([], {}), []) by {
      forall q: seq<string> | q != [] ensures GetPath([], q) == None { NothingThere(q); }
    }
  }

  lemma NothingThere(q: seq<string>)
    requires q != []
    ensures GetPath([], q) == None
  {}
}
