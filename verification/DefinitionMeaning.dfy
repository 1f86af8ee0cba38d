/**
  The definition rules of TOML on nothing but the statements of a document: what each path of keys means, which
  statement is allowed next, and that `toml.hpp` accepts exactly these documents and holds what they mean.
*/
module DefinitionMeanings {
  import opened Wrappers
  import opened Definitions
  import opened DefinitionContents
  import opened DefinitionLookups
  import opened DefinitionPaths
  import opened DefinitionRuns
  import opened DefinitionTheorems
  import opened DefinitionValues

  // ---------------------------------------------------------------- what paths mean

  /**
    What stands at a path: a value that a pair gives, a table on the way of a dotted key, one on the way of a header,
    a table that its header has opened, or an array of tables.
  */
  datatype What = Given(value: Value) | Dotted | Implied | Opened | Tables

  /** The path that pairs continue: that of the last header. */
  function Here(sts: seq<Statement>): seq<Key> {
    if sts == [] then []
    else if sts[|sts| - 1].HeaderLine? then sts[|sts| - 1].keys
    else Here(sts[..|sts| - 1])
  }

  /** What a path means after one more statement. */
  function After(what: Option<What>, q: seq<Key>, st: Statement, here: seq<Key>): Option<What> {
    match st
    case PairLine(p) =>
      if q == here + p.keys then Some(Given(p.value))
      else if here < q && q < here + p.keys && what == None then Some(Dotted)
      else what
    case HeaderLine(keys, isArray) =>
      if q == keys then Some(if isArray then Tables else Opened)
      else if q < keys && what == None then Some(Implied)
      else if isArray && keys < q then None
      else what
  }

  function Meaning(sts: seq<Statement>, q: seq<Key>): Option<What> {
    if sts == [] then None
    else After(Meaning(sts[..|sts| - 1], q), q, sts[|sts| - 1], Here(sts[..|sts| - 1]))
  }

  // ---------------------------------------------------------------- which statements are allowed

  /**
    The path of a pair is free, on its way there are only tables that dotted keys or headers have brought about on
    theirs and no header has opened, and its value may be built.
  */
  ghost predicate PairAllowed(sts: seq<Statement>, p: Pair) {
    && p.keys != [] && Meaning(sts, Here(sts) + p.keys) == None
    && (forall n | 0 < n < |p.keys| ::
          var w := Meaning(sts, Here(sts) + p.keys[..n]); w == None || w == Some(Dotted) || w == Some(Implied))
    && Acceptable(p.value, 0)
  }

  /** An inline table, or an array of nothing but inline tables. */
  predicate HoldsTables(v: Value) {
    v.InlineTable? || (v.ArrayValue? && v.elems != [] && forall i | 0 <= i < |v.elems| :: v.elems[i].InlineTable?)
  }

  /**
    No value is on the way of a header, and its path is free, or leads to an array of tables for an array header, or
    to a table that so far was only on the way of headers and holds only tables.
  */
  ghost predicate HeaderAllowed(sts: seq<Statement>, keys: seq<Key>, isArray: bool) {
    && keys != []
    && (forall n | 0 < n < |keys| :: var w := Meaning(sts, keys[..n]); w.Some? ==> !w.value.Given?)
    && var w := Meaning(sts, keys);
       || w == None
       || (isArray && w == Some(Tables))
       || (!isArray && w == Some(Implied) && HoldsOnlyTables(sts, keys))
  }

  ghost predicate HoldsOnlyTables(sts: seq<Statement>, keys: seq<Key>) {
    forall k :: var w := Meaning(sts, keys + [k]); w.Some? && w.value.Given? ==> HoldsTables(w.value.value)
  }

  ghost predicate IsAllowed(sts: seq<Statement>, st: Statement) {
    match st
    case PairLine(p) => PairAllowed(sts, p)
    case HeaderLine(keys, isArray) => HeaderAllowed(sts, keys, isArray)
  }

  /** Every statement is allowed after those before it. */
  ghost predicate AreAllowed(sts: seq<Statement>) {
    forall i | 0 <= i < |sts| :: IsAllowed(sts[..i], sts[i])
  }

  // ---------------------------------------------------------------- what the document holds

  /** What a path leads to in the document is what it means. */
  ghost predicate Fits(s: State, x: Option<Id>, w: Option<What>) {
    match w
    case None => x == None
    case Some(Given(v)) => x.Some? && x.value in s.values && Shows(s.store, x.value, v)
    case Some(Dotted) => x.Some? && x.value in s.dotted && x.value !in s.values
    case Some(Implied) => x.Some? && x.value in s.implicit
    case Some(Opened) => x.Some? && x.value in s.headed
    case Some(Tables) => x.Some? && x.value in s.arrays
  }

  ghost predicate Described(s: State, sts: seq<Statement>) {
    forall q | q != [] :: Fits(s, Lookup(s, q), Meaning(sts, q))
  }

  // ---- what is known of a node by what it means

  lemma GivenNode(s: State, x: Id, v: Value)
    requires Inv(s) && x in s.values && Shows(s.store, x, v)
    ensures x !in s.implicit && x !in s.headed && x !in s.arrays && !Passable(s, x) && Enter(s, x) == None
  {
    hide Follow;
  }

  lemma TableNode(s: State, x: Id)
    requires Inv(s) && ((x in s.dotted && x !in s.values) || x in s.implicit || x in s.headed)
    ensures Section(s, x) && Enter(s, x) == Some(x) && x !in s.arrays && x !in s.values
    ensures Passable(s, x) <==> x !in s.headed
    ensures x in s.dotted ==> x !in s.implicit && x !in s.headed
    ensures x in s.implicit ==> x !in s.headed
  {}

  lemma ArrayNode(s: State, x: Id)
    requires Inv(s) && x in s.arrays
    ensures IsArray(s.store, x) && x !in s.values && !Passable(s, x) && Enter(s, x).Some?
    ensures x !in s.implicit && x !in s.headed && x !in s.dotted && IsArrayOfTables(s.store, x)
  {}

  /** What a node is to the parser follows from what its path means. */
  lemma KindOf(s: State, x: Id, w: What)
    requires Inv(s) && Fits(s, Some(x), Some(w))
    ensures Passable(s, x) <==> w.Dotted? || w.Implied?
    ensures Enter(s, x).Some? <==> !w.Given?
    ensures (IsArray(s.store, x) && x in s.arrays) <==> w.Tables?
    ensures x in s.implicit <==> w.Implied?
    ensures w.Implied? ==> Enter(s, x) == Some(x) && IsTable(s.store, x)
  {
    hide Inv, Shows, Passable, Enter;
    match w
    case Given(v) => GivenNode(s, x, v);
    case Dotted => TableNode(s, x);
    case Implied => TableNode(s, x); SectionIsTable(s, x);
    case Opened => TableNode(s, x);
    case Tables => ArrayNode(s, x);
  }

  /** Whether the promotion of the table above it minds a node. */
  lemma KidOf(s: State, x: Id, w: What)
    requires Inv(s) && Fits(s, Some(x), Some(w))
    ensures IsTable(s.store, x) || IsArrayOfTables(s.store, x) <==> (w.Given? ==> HoldsTables(w.value))
  {
    hide Inv, Enter, Passable;
    match w
    case Given(v) =>
      hide Follow;
      match v {
        case ArrayValue(vs) => TablesShown(s.store, x, vs);
        case _ =>
      }
    case Dotted => TableNode(s, x); SectionIsTable(s, x);
    case Implied => TableNode(s, x); SectionIsTable(s, x);
    case Opened => TableNode(s, x); SectionIsTable(s, x);
    case Tables => ArrayNode(s, x);
  }

  lemma TablesShown(m: Store, x: Id, vs: seq<Value>)
    requires Shows(m, x, ArrayValue(vs))
    ensures IsArray(m, x) && (IsArrayOfTables(m, x) <==> HoldsTables(ArrayValue(vs)))
  {
    hide Follow;
    var es := Elems(m, x);
    forall i | 0 <= i < |vs| ensures IsTable(m, es[i]) <==> vs[i].InlineTable? {
      TableShown(m, es[i], vs[i]);
    }
    if HoldsTables(ArrayValue(vs)) {
      forall e | e in es ensures IsTable(m, e) {
        var i :| 0 <= i < |es| && es[i] == e;
      }
    }
  }

  lemma TableShown(m: Store, x: Id, v: Value)
    requires Shows(m, x, v)
    ensures IsTable(m, x) <==> v.InlineTable?
  {
    hide Follow;
  }

  // ---- what stays

  /** A node keeps what its path means while the document grows, unless it is promoted. */
  lemma FitsStays(s: State, s': State, x: Option<Id>, w: Option<What>)
    requires Inv(s) && Grow(s, s') && Fits(s, x, w)
    requires w == Some(Implied) ==> x.value in s'.implicit
    ensures Fits(s', x, w)
  {
    hide Shows, Core, Roles, TableArrays;
    if w.Some? && w.value.Given? {
      ValuesAreClosed(s, s');
      ShowsStays(s.store, s'.store, s.values, x.value, w.value.value);
    } else if w.Some? {
      KnownIsStored(s, x.value);
      HeadedStays(s, s');
    }
  }

  lemma ValuesAreClosed(s: State, s': State)
    requires Inv(s) && Grow(s, s')
    ensures Closed(s.store, s.values) && SameOn(s.store, s'.store, s.values) && s.values <= s'.values
  {
    hide Core, Roles, TableArrays;
  }

  lemma KnownIsStored(s: State, x: Id)
    requires Inv(s) && (x in s.dotted || x in s.implicit || x in s.headed || x in s.arrays)
    ensures x in s.store
  {}

  /** What paths mean once the tables on the way of a statement are there. */
  ghost predicate DescribedOn(s: State, sts: seq<Statement>, a: seq<Key>, b: seq<Key>, what: What) {
    forall q | q != [] ::
      Fits(s, Lookup(s, q), if IsWithin(a, q, b) && Meaning(sts, q) == None then Some(what) else Meaning(sts, q))
  }

  lemma WalkDescribes(s: State, s1: State, sts: seq<Statement>, a: seq<Key>, b: seq<Key>, what: What)
    requires Inv(s) && Described(s, sts) && Inv(s1) && Grow(s, s1) && Widened(s, s1, a, b)
    requires forall i | i in s.implicit :: i in s1.implicit
    requires forall i | i in s1.store && i !in s.store :: Fits(s1, Some(i), Some(what))
    ensures DescribedOn(s1, sts, a, b, what)
  {
    hide Inv, Grow, Lookup, Shows, IsWithin, Meaning;
    forall q | q != []
      ensures Fits(s1, Lookup(s1, q),
                   if IsWithin(a, q, b) && Meaning(sts, q) == None then Some(what) else Meaning(sts, q))
    {
      assert Fits(s, Lookup(s, q), Meaning(sts, q));
      if Lookup(s1, q) == Lookup(s, q) {
        FitsStays(s, s1, Lookup(s, q), Meaning(sts, q));
      } else {
        LookedUpIsStored(s1, q);
      }
    }
  }

  // ---------------------------------------------------------------- pairs

  /** A document that fits its statements, with the table that pairs go to. */
  ghost predicate DocFits(d: Doc, sts: seq<Statement>) {
    && DocInv(d) && Tree(d.s) && Described(d.s, sts) && Reach(d.s, Root, Here(sts)) == Some(d.current)
  }

  lemma PairWay(s: State, sts: seq<Statement>, here: seq<Key>, keys: seq<Key>)
    requires Inv(s) && Described(s, sts)
    ensures MayPassFrom(s, here, keys) <==>
            forall n | 0 < n < |keys| ::
              var w := Meaning(sts, here + keys[..n]); w == None || w == Some(Dotted) || w == Some(Implied)
  {
    hide Inv, Lookup, Passable, Enter, Shows, Meaning, Fits;
    forall n | 0 < n < |keys|
      ensures var x, w := Lookup(s, here + keys[..n]), Meaning(sts, here + keys[..n]);
              (x.None? || Passable(s, x.value)) <==> (w == None || w == Some(Dotted) || w == Some(Implied))
    {
      WayOfOne(s, sts, here + keys[..n]);
    }
  }

  lemma WayOfOne(s: State, sts: seq<Statement>, q: seq<Key>)
    requires Inv(s) && Described(s, sts) && q != []
    ensures var x, w := Lookup(s, q), Meaning(sts, q);
            && (x.None? <==> w == None)
            && ((x.None? || Passable(s, x.value)) <==> (w == None || w == Some(Dotted) || w == Some(Implied)))
            && ((x.None? || Enter(s, x.value).Some?) <==> (w.Some? ==> !w.value.Given?))
  {
    hide Inv, Lookup, Passable, Enter, Shows, Meaning;
    var x, w := Lookup(s, q), Meaning(sts, q);
    assert Fits(s, x, w);
    if w.Some? { KindOf(s, x.value, w.value); }
  }

  /** The walk of a pair, and whether its last key is free behind it. */
  lemma PairWalk(d: Doc, sts: seq<Statement>, p: Pair)
    requires DocFits(d, sts) && p.keys != []
    ensures var w := WalkDotted(d.s, d.current, p.keys);
            && (w.Some? <==> MayPassFrom(d.s, Here(sts), p.keys))
            && (w.Some? ==>
                  && DottedWalk(d.s, w.value.0, w.value.1, Here(sts), Here(sts) + Front(p.keys))
                  && Inv(w.value.0) && Tree(w.value.0) && Grow(d.s, w.value.0) && Section(w.value.0, w.value.1)
                  && (CanInsert(w.value.0, w.value.1, p.keys) <==> Meaning(sts, Here(sts) + p.keys) == None))
  {
    hide Inv, Tree, Lookup, Reach, Grow, Section, Shows, Meaning, WalkDotted, MayPassFrom, IsWithin;
    WalkDottedLookup(d.s, d.current, Here(sts), p.keys);
    WalkDottedKeeps(d.s, d.current, p.keys);
    WalkDottedTree(d.s, d.current, p.keys);
    var w := WalkDotted(d.s, d.current, p.keys);
    if w.Some? {
      var (s1, t1) := w.value;
      var q := Here(sts) + p.keys;
      FrontAndLast(p.keys);
      KidLookup(s1, Here(sts) + Front(p.keys), t1, Last(p.keys));
      assert Here(sts) + Front(p.keys) + [Last(p.keys)] == q;
      NotWithin(Here(sts), q, Here(sts) + Front(p.keys));
      WayOfOne(d.s, sts, q);
    }
  }

  lemma NotWithin(a: seq<Key>, q: seq<Key>, b: seq<Key>)
    requires |b| < |q|
    ensures !IsWithin(a, q, b) && q != []
  {}

  lemma InvStores(s: State)
    requires Inv(s)
    ensures Core(s) && ImplicitStored(s) && s.values <= s.store.Keys
  {}

  /** A pair is accepted exactly if the statements before it allow it. */
  lemma PairAccepted(d: Doc, sts: seq<Statement>, p: Pair)
    requires DocFits(d, sts)
    ensures Step(d, PairLine(p)).Some? <==> PairAllowed(sts, p)
  {
    hide Inv, Tree, Lookup, Reach, Grow, Section, Shows, Meaning, WalkDotted, MayPassFrom, IsWithin, Widened, Acceptable,
      Eval, Link;
    if p.keys != [] {
      PairWalk(d, sts, p);
      PairWay(d.s, sts, Here(sts), p.keys);
      var w := WalkDotted(d.s, d.current, p.keys);
      if w.Some? {
        InvStores(w.value.0);
        EvalIs(w.value.0, p.value, 0);
      }
    }
  }

  /** The new value under the last key. */
  lemma PairBuilds(d: Doc, sts: seq<Statement>, p: Pair)
    requires DocFits(d, sts) && Step(d, PairLine(p)).Some?
    ensures p.keys != [] && WalkDotted(d.s, d.current, p.keys).Some?
    ensures var (s1, t1) := WalkDotted(d.s, d.current, p.keys).value;
            var r := Eval(s1, p.value, 0);
            && r.Some? && Inv(s1) && Core(s1) && Section(s1, t1) && Last(p.keys) !in Kids(s1.store, t1)
            && Step(d, PairLine(p)).value.s
               == Link(r.value.0, t1, Last(p.keys), r.value.1).(
                    values := r.value.0.values + (Link(r.value.0, t1, Last(p.keys), r.value.1).store.Keys - s1.store.Keys))
  {
    hide Inv, Tree, Lookup, Reach, Grow, Section, Shows, Meaning, Link, Eval, WalkDotted, IsWithin, Widened, Core;
    WalkDottedKeeps(d.s, d.current, p.keys);
    InvCore(WalkDotted(d.s, d.current, p.keys).value.0);
    var (s1, t1) := WalkDotted(d.s, d.current, p.keys).value;
    var (s2, n) := Eval(s1, p.value, 0).value;
    LinkRest(s2, t1, Last(p.keys), n);
  }

  /** What the path of a pair leads to. */
  lemma PairShows(s1: State, t1: Id, k: Key, v: Value)
    requires Inv(s1) && Core(s1) && Section(s1, t1) && k !in Kids(s1.store, t1) && Eval(s1, v, 0).Some?
    ensures var (s2, n) := Eval(s1, v, 0).value;
            var m := Link(s2, t1, k, n).store;
            var s' := Link(s2, t1, k, n).(values := s2.values + (m.Keys - s1.store.Keys));
            && Built(s1, s', t1, k, n) && Inv(s') && Grow(s1, s') && Fits(s', Some(n), Some(Given(v)))
            && s'.implicit == s1.implicit
  {
    hide Inv, Core, Section, Grow, Eval, Shows, FreshFrom, Only, Built, Link;
    AllBelow(s1);
    EvalFrame(s1, v, 0, s1.next);
    var (s2, n) := Eval(s1, v, 0).value;
    OnlyImplicit(s1, s2);
    BuiltOf(s1, t1, k, s2, n);
    ValueKeeps(s1, t1, k, s2, n);
    InvStores(s1);
    EvalIs(s1, v, 0);
    EvalIsOnTop(s1, v, 0);
    LinkKids(s2, t1, k, n);
    SectionIsTable(s1, t1);
    NewStays(s1, s2, Link(s2, t1, k, n).store, t1, n, v);
    LinkRest(s2, t1, k, n);
  }

  lemma OnlyImplicit(s: State, s': State)
    requires Only(s, s', s.next)
    ensures s'.implicit == s.implicit
  {}

  lemma NewStays(s1: State, s2: State, m: Store, t1: Id, n: Id, v: Value)
    requires OnTop(s1, s2) && t1 in s1.store && n in s2.store && n !in s1.store && Shows(s2.store, n, v)
    requires m.Keys == s2.store.Keys && forall i | i in s2.store && i != t1 :: m[i] == s2.store[i]
    ensures Shows(m, n, v) && n in m.Keys - s1.store.Keys
  {
    hide Core, Shows, Closed;
    ShowsStays(s2.store, m, s2.store.Keys - s1.store.Keys, n, v);
  }

  /** After a pair the document fits the statements again. */
  lemma PairFits(d: Doc, sts: seq<Statement>, p: Pair)
    requires DocFits(d, sts) && Step(d, PairLine(p)).Some?
    ensures Described(Step(d, PairLine(p)).value.s, sts + [PairLine(p)])
  {
    hide Inv, Tree, Lookup, Reach, Grow, Section, Shows, Link, Eval, WalkDotted, IsWithin, Widened, Core, Built,
      MayPassFrom, Fits, Front, Last, Step, Here, Meaning;
    PairBuilds(d, sts, p);
    var here, way, full := Here(sts), Here(sts) + Front(p.keys), Here(sts) + p.keys;
    PairWalk(d, sts, p);
    var (s1, t1) := WalkDotted(d.s, d.current, p.keys).value;
    var s' := Step(d, PairLine(p)).value.s;
    DottedFits(d.s, s1);
    InvStores(d.s);
    WalkDescribes(d.s, s1, sts, here, way, Dotted);
    PairShows(s1, t1, Last(p.keys), p.value);
    FrontAndLast(p.keys);
    assert way + [Last(p.keys)] == full;
    var n := Eval(s1, p.value, 0).value.1;
    ValueIsOneMore(s1, s', way, t1, Last(p.keys), n);
    forall q | q != [] ensures Fits(s', Lookup(s', q), Meaning(sts + [PairLine(p)], q)) {
      LookupOneMore(s1, s', way, t1, Last(p.keys), n, q);
      AfterPair(sts, p, q);
      if q != full {
        ImpliedOf(s1, Lookup(s1, q), MeaningOn(sts, q, here, way, Dotted));
        FitsStays(s1, s', Lookup(s1, q), MeaningOn(sts, q, here, way, Dotted));
      }
    }
  }

  function MeaningOn(sts: seq<Statement>, q: seq<Key>, a: seq<Key>, b: seq<Key>, what: What): Option<What> {
    if IsWithin(a, q, b) && Meaning(sts, q) == None then Some(what) else Meaning(sts, q)
  }

  lemma AfterPair(sts: seq<Statement>, p: Pair, q: seq<Key>)
    requires p.keys != []
    ensures Meaning(sts + [PairLine(p)], q) ==
            if q == Here(sts) + p.keys then Some(Given(p.value))
            else MeaningOn(sts, q, Here(sts), Here(sts) + Front(p.keys), Dotted)
  {
    var all := sts + [PairLine(p)];
    assert all[..|all| - 1] == sts && all[|all| - 1] == PairLine(p);
    assert Front(Here(sts) + p.keys) == Here(sts) + Front(p.keys);
    if q != [] { FrontPrefixOf(q, Here(sts) + p.keys); }
  }

  lemma FrontPrefixOf(q: seq<Key>, path: seq<Key>)
    requires path != []
    ensures q < path <==> q <= Front(path)
  {
    assert path == Front(path) + [Last(path)];
  }

  /** The tables that the walk of a pair adds. */
  lemma DottedFits(s: State, s1: State)
    requires Inv(s) && s1.values == s.values && forall i | i in s1.store :: i in s.store || i in s1.dotted
    ensures forall i | i in s1.store && i !in s.store :: Fits(s1, Some(i), Some(Dotted))
  {
    InvStores(s);
  }

  lemma PairStays(d: Doc, sts: seq<Statement>, p: Pair)
    requires DocFits(d, sts) && Step(d, PairLine(p)).Some?
    ensures Reach(Step(d, PairLine(p)).value.s, Root, Here(sts)) == Some(d.current)
  {
    hide Inv, Tree, Lookup, Reach, Grow, Section, EvalPair, WalkDotted, ArraysStay, Described;
    StepKeeps(d, PairLine(p));
    RootSection(d.s);
    PairArrays(d.s, d.current, p);
    ArraysOf(d.s, EvalPair(d.s, d.current, p, 0).value, Step(d, PairLine(p)).value.s);
    ReachStays(d.s, Step(d, PairLine(p)).value.s, Root, Here(sts));
  }

  // ---------------------------------------------------------------- headers

  lemma HeaderWay(s: State, sts: seq<Statement>, keys: seq<Key>)
    requires Inv(s) && Described(s, sts)
    ensures MayEnterFrom(s, [], keys) <==>
            forall n | 0 < n < |keys| :: var w := Meaning(sts, keys[..n]); w.Some? ==> !w.value.Given?
  {
    hide Inv, Lookup, Passable, Enter, Shows, Meaning, Fits;
    forall n | 0 < n < |keys|
      ensures var x, w := Lookup(s, [] + keys[..n]), Meaning(sts, keys[..n]);
              (x.None? || Enter(s, x.value).Some?) <==> (w.Some? ==> !w.value.Given?)
    {
      assert [] + keys[..n] == keys[..n];
      WayOfOne(s, sts, keys[..n]);
    }
  }

  /** The document behind the walk of a header. */
  ghost predicate OnTheWay(s: State, sts: seq<Statement>, keys: seq<Key>, t: Id) {
    && keys != [] && Inv(s) && Tree(s) && Section(s, t) && Reach(s, Root, Front(keys)) == Some(t)
    && DescribedOn(s, sts, [], Front(keys), Implied)
  }

  lemma HeaderWalks(d: Doc, sts: seq<Statement>, keys: seq<Key>)
    requires DocFits(d, sts) && keys != []
    ensures WalkHeader(d.s, Root, keys).Some? <==> MayEnterFrom(d.s, [], keys)
    ensures var w := WalkHeader(d.s, Root, keys);
            w.Some? ==> OnTheWay(w.value.0, sts, keys, w.value.1) && Grow(d.s, w.value.0)
  {
    hide Inv, Tree, Lookup, Reach, Grow, Section, Shows, Meaning, WalkHeader, MayEnterFrom, IsWithin, Widened, Front,
      DescribedOn, Fits;
    RootSection(d.s);
    EmptyReach(d.s);
    WalkHeaderLookup(d.s, Root, [], keys);
    WalkHeaderKeeps(d.s, Root, keys);
    WalkHeaderTree(d.s, Root, keys);
    assert [] + Front(keys) == Front(keys);
    var w := WalkHeader(d.s, Root, keys);
    if w.Some? {
      ImpliedFits(d.s, w.value.0);
      WalkDescribes(d.s, w.value.0, sts, [], Front(keys), Implied);
    }
  }

  lemma ImpliedFits(s: State, s1: State)
    requires forall i | i in s1.store :: i in s.store || i in s1.implicit
    ensures forall i | i in s1.store && i !in s.store :: Fits(s1, Some(i), Some(Implied))
  {}

  /** What a path that is not on the way of a header leads to. */
  lemma OffTheWay(s: State, sts: seq<Statement>, keys: seq<Key>, t: Id, q: seq<Key>)
    requires OnTheWay(s, sts, keys, t) && |keys| <= |q|
    ensures q != [] && Fits(s, Lookup(s, q), Meaning(sts, q))
  {
    hide Inv, Tree, Lookup, Reach, Section, Shows, Meaning, IsWithin;
    NotWithin([], q, Front(keys));
  }

  lemma LastLookup(s: State, keys: seq<Key>, t: Id)
    requires keys != [] && Reach(s, Root, Front(keys)) == Some(t)
    ensures Lookup(s, keys) == if Last(keys) in Kids(s.store, t) then Some(Kids(s.store, t)[Last(keys)]) else None
  {
    hide Lookup, Reach;
    FrontAndLast(keys);
    KidLookup(s, Front(keys), t, Last(keys));
  }

  /** A table may be promoted exactly if it was only on the way of headers and holds only tables. */
  lemma PromotionIs(s: State, sts: seq<Statement>, keys: seq<Key>, t: Id)
    requires OnTheWay(s, sts, keys, t) && Lookup(s, keys).Some?
    ensures Promotable(s, Lookup(s, keys).value) <==> Meaning(sts, keys) == Some(Implied) && HoldsOnlyTables(sts, keys)
  {
    hide Inv, Tree, Lookup, Reach, Section, Shows, Meaning, IsWithin, DescribedOn, Fits, Enter, IsArrayOfTables;
    var m := Lookup(s, keys).value;
    OffTheWay(s, sts, keys, t, keys);
    MeansSomething(s, m, Meaning(sts, keys));
    KindOf(s, m, Meaning(sts, keys).value);
    if m in s.implicit {
      ReachLast(s, keys);
      forall k
        ensures Lookup(s, keys + [k]) == if k in Kids(s.store, m) then Some(Kids(s.store, m)[k]) else None
        ensures Fits(s, Lookup(s, keys + [k]), Meaning(sts, keys + [k]))
      {
        KidLookup(s, keys, m, k);
        OffTheWay(s, sts, keys, t, keys + [k]);
      }
      PromotableKids(s, sts, keys, m);
    }
  }

  lemma MeansSomething(s: State, x: Id, w: Option<What>)
    requires Fits(s, Some(x), w)
    ensures w.Some?
  {}

  lemma PromotableKids(s: State, sts: seq<Statement>, keys: seq<Key>, m: Id)
    requires Inv(s) && m in s.implicit && IsTable(s.store, m)
    requires forall k ::
      && Lookup(s, keys + [k]) == (if k in Kids(s.store, m) then Some(Kids(s.store, m)[k]) else None)
      && Fits(s, Lookup(s, keys + [k]), Meaning(sts, keys + [k]))
    ensures Promotable(s, m) <==> HoldsOnlyTables(sts, keys)
  {
    hide Inv, Lookup, Meaning, Shows, Fits, IsArrayOfTables, HoldsTables;
    forall k
      ensures var w := Meaning(sts, keys + [k]);
              k in Kids(s.store, m) ==>
                (IsTable(s.store, Kids(s.store, m)[k]) || IsArrayOfTables(s.store, Kids(s.store, m)[k])
                 <==> (w.Some? && w.value.Given? ==> HoldsTables(w.value.value)))
      ensures k !in Kids(s.store, m) ==> Meaning(sts, keys + [k]) == None
    {
      assert Fits(s, Lookup(s, keys + [k]), Meaning(sts, keys + [k]));
      if k in Kids(s.store, m) {
        MeansSomething(s, Kids(s.store, m)[k], Meaning(sts, keys + [k]));
        KidOf(s, Kids(s.store, m)[k], Meaning(sts, keys + [k]).value);
      } else {
        MeansNothing(s, Meaning(sts, keys + [k]));
      }
    }
  }

  lemma MeansNothing(s: State, w: Option<What>)
    requires Fits(s, None, w)
    ensures w == None
  {}

  /** A header is accepted exactly if the statements before it allow it. */
  lemma HeaderAccepted(d: Doc, sts: seq<Statement>, keys: seq<Key>, isArray: bool)
    requires DocFits(d, sts)
    ensures Step(d, HeaderLine(keys, isArray)).Some? <==> HeaderAllowed(sts, keys, isArray)
  {
    hide Inv, Tree, Lookup, Reach, Grow, Section, Shows, Meaning, WalkHeader, MayEnterFrom, IsWithin, DescribedOn,
      OnTheWay, HoldsOnlyTables, Promotable, Fits, NewElement, NewArray, NewTable;
    if keys != [] {
      HeaderWalks(d, sts, keys);
      HeaderWay(d.s, sts, keys);
      var w := WalkHeader(d.s, Root, keys);
      if w.Some? {
        var (s, t) := w.value;
        OnTheWayParts(s, sts, keys, t);
        LastLookup(s, keys, t);
        OffTheWay(s, sts, keys, t, keys);
        if Lookup(s, keys).Some? {
          MeansSomething(s, Lookup(s, keys).value, Meaning(sts, keys));
          KindOf(s, Lookup(s, keys).value, Meaning(sts, keys).value);
          PromotionIs(s, sts, keys, t);
        } else {
          MeansNothing(s, Meaning(sts, keys));
        }
      }
    }
  }

  lemma OnTheWayParts(s: State, sts: seq<Statement>, keys: seq<Key>, t: Id)
    requires OnTheWay(s, sts, keys, t)
    ensures keys != [] && Inv(s) && Tree(s) && Section(s, t) && Reach(s, Root, Front(keys)) == Some(t)
    ensures IsTable(s.store, t)
  {}

  lemma AfterHeader(sts: seq<Statement>, keys: seq<Key>, isArray: bool, q: seq<Key>)
    requires keys != [] && q != []
    ensures Meaning(sts + [HeaderLine(keys, isArray)], q) ==
            if q == keys then Some(if isArray then Tables else Opened)
            else if isArray && keys < q then None
            else MeaningOn(sts, q, [], Front(keys), Implied)
  {
    var all := sts + [HeaderLine(keys, isArray)];
    assert all[..|all| - 1] == sts && all[|all| - 1] == HeaderLine(keys, isArray);
    FrontPrefixOf(q, keys);
  }

  /** What a header does to the paths: its own leads to what it opens, and those behind an array header are cut. */
  lemma HeaderLookups(s: State, keys: seq<Key>, t: Id, isArray: bool, q: seq<Key>)
    requires Inv(s) && Tree(s) && Section(s, t) && keys != [] && q != [] && Reach(s, Root, Front(keys)) == Some(t)
    requires OpenLast(s, t, Last(keys), isArray).Some?
    ensures var (s1, n) := OpenLast(s, t, Last(keys), isArray).value;
            var s' := s1.(headed := s1.headed + [n]);
            && Lookup(s', q) ==
               (if q == keys then
                  (if Lookup(s, keys).Some? then Lookup(s, keys) else if isArray then Some(s.next) else Some(n))
                else if isArray && keys < q then None
                else Lookup(s, q))
            && (isArray ==> Lookup(s', keys).Some? && Lookup(s', keys).value in s'.arrays)
            && (!isArray ==> Lookup(s', keys) == Some(n))
            && (forall i | i in s.implicit && (isArray || i != n) :: i in s'.implicit)
  {
    hide Inv, Tree, Lookup, Reach, Section, NewArray, NewTable, NewElement, Promotable, Front, Last, Enter;
    var k := Last(keys);
    var (s1, n) := OpenLast(s, t, k, isArray).value;
    var s' := s1.(headed := s1.headed + [n]);
    FrontAndLast(keys);
    LastLookup(s, keys, t);
    SectionIsTable(s, t);
    if k in Kids(s.store, t) {
      var m := Kids(s.store, t)[k];
      if isArray {
        NewElementParts(s, m);
        ElementIsOne(s, s', keys, m);
        ReachOneElement(s, s', keys, m, q);
        ReachOneElement(s, s', keys, m, keys);
      } else {
        SameLookup(s, s', q);
        SameLookup(s, s', keys);
        EraseKeeps(s, m);
      }
    } else if isArray {
      NewArrayParts(s, t, k);
      ArrayIsOneMore(s, s', Front(keys), t, k);
      LookupOneMore(s, s', Front(keys), t, k, s.next, q);
      LookupOneMore(s, s', Front(keys), t, k, s.next, keys);
      if keys < q { FreeBeyond(s, keys, q); }
    } else {
      TableIsOneMore(s, NewTable(s, t, k), s', Front(keys), t, k);
      LookupOneMore(s, s', Front(keys), t, k, s.next, q);
      LookupOneMore(s, s', Front(keys), t, k, s.next, keys);
      NewTableParts(s, t, k);
    }
  }

  lemma NewElementParts(s: State, m: Id)
    ensures var s' := NewElement(s, m); s'.implicit == s.implicit && s'.arrays == s.arrays && s'.open == s.open
  {}

  lemma NewArrayParts(s: State, t: Id, k: Key)
    ensures var s' := NewArray(s, t, k); s'.implicit == s.implicit && s'.open == s.open
  {}

  lemma NewTableParts(s: State, t: Id, k: Key)
    ensures NewTable(s, t, k).implicit == s.implicit
  {}

  lemma EraseKeeps(s: State, m: Id)
    requires Inv(s)
    ensures forall i | i in s.implicit && i != m :: i in Erase(s.implicit, m)
  {
    EraseOnce(s.implicit, m);
  }

  lemma {:induction false} SameReach(s: State, s': State, t: Id, q: seq<Key>)
    requires s'.store == s.store && s'.arrays == s.arrays && s'.open == s.open
    ensures Reach(s', t, q) == Reach(s, t, q)
    decreases |q|
  {
    if q != [] && q[0] in Kids(s.store, t) {
      var p := Enter(s, Kids(s.store, t)[q[0]]);
      if p.Some? { SameReach(s, s', p.value, q[1..]); }
    }
  }

  lemma SameLookup(s: State, s': State, q: seq<Key>)
    requires s'.store == s.store && s'.arrays == s.arrays && s'.open == s.open
    ensures Lookup(s', q) == Lookup(s, q)
  {
    if q != [] { SameReach(s, s', Root, Front(q)); }
  }

  /** After a header the document fits the statements again. */
  lemma HeaderFits(d: Doc, sts: seq<Statement>, keys: seq<Key>, isArray: bool)
    requires DocFits(d, sts) && Step(d, HeaderLine(keys, isArray)).Some?
    ensures Described(Step(d, HeaderLine(keys, isArray)).value.s, sts + [HeaderLine(keys, isArray)])
  {
    hide Inv, Tree, Lookup, Reach, Grow, Section, Shows, Meaning, WalkHeader, OpenLast, IsWithin, Fits, OnTheWay,
      MayEnterFrom, Front, Last;
    HeaderOf(d.s, keys, isArray);
    HeaderWalks(d, sts, keys);
    var (s, t) := WalkHeader(d.s, Root, keys).value;
    OnTheWayParts(s, sts, keys, t);
    OpenLastKeeps(s, t, Last(keys), isArray);
    var (s1, n) := OpenLast(s, t, Last(keys), isArray).value;
    var s' := s1.(headed := s1.headed + [n]);
    forall q | q != [] ensures Fits(s', Lookup(s', q), Meaning(sts + [HeaderLine(keys, isArray)], q)) {
      HeaderLookups(s, keys, t, isArray, q);
      AfterHeader(sts, keys, isArray, q);
      if q == keys {
        OpenedFits(s', Lookup(s', q).value, n, isArray);
      } else if isArray && keys < q {
        NothingFits(s');
      } else {
        WayFits(s, sts, keys, t, q);
        if !isArray {
          OpensThere(s, keys, t);
          PromotedIsElsewhere(s, keys, q, n);
        }
        ImpliedOf(s, Lookup(s, q), MeaningOn(sts, q, [], Front(keys), Implied));
        FitsStays(s, s', Lookup(s, q), MeaningOn(sts, q, [], Front(keys), Implied));
      }
    }
  }

  lemma OpenedFits(s: State, x: Id, n: Id, isArray: bool)
    requires if isArray then x in s.arrays else x == n && n in s.headed
    ensures Fits(s, Some(x), Some(if isArray then Tables else Opened))
  {}

  lemma NothingFits(s: State)
    ensures Fits(s, None, None)
  {}

  lemma ImpliedOf(s: State, x: Option<Id>, w: Option<What>)
    requires Fits(s, x, w)
    ensures w == Some(Implied) ==> x.Some? && x.value in s.implicit
  {}

  lemma WayFits(s: State, sts: seq<Statement>, keys: seq<Key>, t: Id, q: seq<Key>)
    requires OnTheWay(s, sts, keys, t) && q != []
    ensures Fits(s, Lookup(s, q), MeaningOn(sts, q, [], Front(keys), Implied))
  {
    hide Inv, Tree, Lookup, Reach, Section, Shows, Meaning, IsWithin, Fits;
  }

  lemma OpensThere(s: State, keys: seq<Key>, t: Id)
    requires Inv(s) && keys != [] && Reach(s, Root, Front(keys)) == Some(t) && OpenLast(s, t, Last(keys), false).Some?
    ensures var n := OpenLast(s, t, Last(keys), false).value.1;
            if Lookup(s, keys).Some? then Lookup(s, keys) == Some(n) else n !in s.store
  {
    hide Inv, Lookup, Reach, Front, Last, Promotable, NewTable;
    LastLookup(s, keys, t);
    NextUnused3(s);
  }

  /** No other path leads to the table that a header opens. */
  lemma PromotedIsElsewhere(s: State, keys: seq<Key>, q: seq<Key>, n: Id)
    requires Inv(s) && Tree(s) && q != keys
    requires Lookup(s, keys).Some? ==> Lookup(s, keys) == Some(n)
    requires Lookup(s, keys) == None ==> n !in s.store
    ensures Lookup(s, q).Some? && Lookup(s, q).value in s.implicit ==> Lookup(s, q) != Some(n)
  {
    hide Inv, Tree, Lookup;
    if Lookup(s, q) == Some(n) && n in s.implicit {
      ImplicitIsNoValue(s, n);
      OneLookup(s, q, keys);
    }
  }

  lemma ImplicitIsNoValue(s: State, n: Id)
    requires Inv(s) && n in s.implicit
    ensures n !in s.values && n in s.store
  {}

  /** Pairs behind a header go to the table it has opened. */
  lemma HeaderCurrent(d: Doc, sts: seq<Statement>, keys: seq<Key>, isArray: bool)
    requires DocFits(d, sts) && Step(d, HeaderLine(keys, isArray)).Some?
    ensures var d' := Step(d, HeaderLine(keys, isArray)).value; Reach(d'.s, Root, keys) == Some(d'.current)
  {
    hide Inv, Tree, Lookup, Reach, Grow, Section, WalkHeader, OpenLast, OnTheWay, Enter, Front, Last, Described;
    if isArray {
      ArrayHeaderOpens(d, keys);
    } else {
      HeaderOf(d.s, keys, false);
      HeaderWalks(d, sts, keys);
      var (s, t) := WalkHeader(d.s, Root, keys).value;
      OnTheWayParts(s, sts, keys, t);
      HeaderLookups(s, keys, t, false, keys);
      StepKeeps(d, HeaderLine(keys, false));
      var d' := Step(d, HeaderLine(keys, false)).value;
      TableNode(d'.s, d'.current);
      ReachLast(d'.s, keys);
    }
  }

  // ---------------------------------------------------------------- all runs

  /** One statement more is accepted exactly if it is allowed, and the document fits the statements again. */
  lemma StepFits(d: Doc, sts: seq<Statement>, st: Statement)
    requires DocFits(d, sts)
    ensures Step(d, st).Some? <==> IsAllowed(sts, st)
    ensures Step(d, st).Some? ==> DocFits(Step(d, st).value, sts + [st])
  {
    hide Described, Tree, Inv, Section, Reach, Step, PairAllowed, HeaderAllowed;
    assert (sts + [st])[..|sts + [st]| - 1] == sts && (sts + [st])[|sts + [st]| - 1] == st;
    match st
    case PairLine(p) =>
      PairAccepted(d, sts, p);
      if Step(d, st).Some? {
        PairFits(d, sts, p);
        PairStays(d, sts, p);
        StepKeeps(d, st);
        StepTree(d, st);
        SameCurrent(d, p);
      }
    case HeaderLine(keys, isArray) =>
      HeaderAccepted(d, sts, keys, isArray);
      if Step(d, st).Some? {
        HeaderFits(d, sts, keys, isArray);
        HeaderCurrent(d, sts, keys, isArray);
        StepKeeps(d, st);
        StepTree(d, st);
      }
  }

  lemma SameCurrent(d: Doc, p: Pair)
    requires Step(d, PairLine(p)).Some?
    ensures Step(d, PairLine(p)).value.current == d.current
  {
    hide WalkDotted, EvalPair;
  }

  lemma StartFits()
    ensures DocFits(Start, [])
  {
    StartInv();
    StartTree();
    forall q | q != [] ensures Lookup(Empty, q) == None {
      if |q| == 1 { assert Front(q) == []; } else { assert Front(q)[0] == q[0]; }
    }
  }

  /**
    A document is accepted exactly if every statement of it is allowed after those before it. Then every path leads
    to what it means: to nothing, to a table or an array of tables, or to a node that shows the value given there.
  */
  lemma {:induction false} RunIs(sts: seq<Statement>)
    ensures Run(sts).Some? <==> AreAllowed(sts)
    ensures Run(sts).Some? ==> DocFits(Run(sts).value, sts)
  {
    hide DocFits, Step, IsAllowed;
    if sts == [] {
      StartFits();
    } else {
      var front, st := sts[..|sts| - 1], sts[|sts| - 1];
      RunIs(front);
      assert front + [st] == sts;
      AllowedLast(front, st);
      if Run(front).Some? { StepFits(Run(front).value, front, st); }
    }
  }

  lemma AllowedLast(sts: seq<Statement>, st: Statement)
    ensures AreAllowed(sts + [st]) <==> AreAllowed(sts) && IsAllowed(sts, st)
  {
    hide IsAllowed;
    var all := sts + [st];
    assert all[..|sts|] == sts && all[|sts|] == st;
    forall i | 0 <= i < |sts| ensures all[..i] == sts[..i] && all[i] == sts[i] {}
    if AreAllowed(all) { assert IsAllowed(all[..|sts|], all[|sts|]); }
  }

  /** The next statement of an accepted document. */
  lemma NextIs(sts: seq<Statement>, st: Statement)
    requires Run(sts).Some?
    ensures Run(sts + [st]).Some? <==> IsAllowed(sts, st)
    ensures Run(sts + [st]).Some? ==> Described(Run(sts + [st]).value.s, sts + [st])
  {
    hide Run, IsAllowed, AreAllowed, Described, DocInv, Tree, Reach;
    RunIs(sts);
    RunIs(sts + [st]);
    AllowedLast(sts, st);
  }

  /** What a pair gives its path means as long as no array header cuts it off. */
  lemma {:induction false} GivenStays(sts: seq<Statement>, p: Pair, more: seq<Statement>)
    requires AreAllowed(sts + [PairLine(p)] + more) && KeepsPath(more, Here(sts) + p.keys)
    ensures Meaning(sts + [PairLine(p)] + more, Here(sts) + p.keys) == Some(Given(p.value))
    decreases |more|
  {
    hide Meaning, Here, Acceptable;
    var all, full := sts + [PairLine(p)] + more, Here(sts) + p.keys;
    if more == [] {
      assert all == sts + [PairLine(p)];
      AllowedLast(sts, PairLine(p));
      AfterPair(sts, p, full);
    } else {
      var n := |more| - 1;
      var before := sts + [PairLine(p)] + more[..n];
      assert all == before + [more[n]];
      AllowedLast(before, more[n]);
      forall st | st in more[..n] ensures st in more {}
      GivenStays(sts, p, more[..n]);
      NotGivenAgain(before, more[n], full, p.value);
    }
  }

  lemma NotGivenAgain(sts: seq<Statement>, st: Statement, q: seq<Key>, v: Value)
    requires IsAllowed(sts, st) && Meaning(sts, q) == Some(Given(v))
    requires st.HeaderLine? && st.isArray ==> !(st.keys < q)
    ensures Meaning(sts + [st], q) == Some(Given(v))
  {
    hide Acceptable, HoldsOnlyTables;
    assert (sts + [st])[..|sts|] == sts && (sts + [st])[|sts|] == st;
  }

  /** Whatever follows a pair, its path leads to a node that shows its value, unless an array header cuts it off. */
  lemma PairIsHeld(sts: seq<Statement>, p: Pair, more: seq<Statement>)
    requires Run(sts + [PairLine(p)] + more).Some? && KeepsPath(more, Here(sts) + p.keys)
    ensures var s, full := Run(sts + [PairLine(p)] + more).value.s, Here(sts) + p.keys;
            Lookup(s, full).Some? && Shows(s.store, Lookup(s, full).value, p.value)
  {
    hide Meaning, Here, Shows, Lookup, AreAllowed, Run, DocInv, Tree, Reach;
    var all, full := sts + [PairLine(p)] + more, Here(sts) + p.keys;
    RunIs(all);
    GivenStays(sts, p, more);
    LookupOfNothing(Run(all).value.s);
    GivenIsNoRoot(sts, p, more);
    assert Fits(Run(all).value.s, Lookup(Run(all).value.s, full), Meaning(all, full));
  }

  lemma LookupOfNothing(s: State)
    ensures Lookup(s, []) == None
  {}

  lemma GivenIsNoRoot(sts: seq<Statement>, p: Pair, more: seq<Statement>)
    requires AreAllowed(sts + [PairLine(p)] + more)
    ensures p.keys != []
  {
    hide Meaning, Here, Acceptable;
    var all := sts + [PairLine(p)] + more;
    assert all[..|sts|] == sts && all[|sts|] == PairLine(p);
    assert IsAllowed(all[..|sts|], all[|sts|]);
  }

  /** Values stay what they are, also those that no path leads to any more. */
  lemma ShownStays(a: seq<Statement>, b: seq<Statement>, n: Id, v: Value)
    requires Run(a + b).Some? && Run(a).Some?
    requires n in Run(a).value.s.values && Shows(Run(a).value.s.store, n, v)
    ensures Shows(Run(a + b).value.s.store, n, v)
  {
    hide Run, Inv, Grow, Shows, Section;
    RunInv(a);
    RunGrows(a, b);
    ValuesAreClosed(Run(a).value.s, Run(a + b).value.s);
    ShowsStays(Run(a).value.s.store, Run(a + b).value.s.store, Run(a).value.s.values, n, v);
  }
}
