/** The definition rules of TOML over whole documents. */
module DefinitionTheorems {
  import opened Wrappers
  import opened Definitions
  import opened DefinitionValues
  import opened DefinitionRuns

  /** Pairs go to the root until the first header, then to the table the last header opened. */
  ghost predicate DocInv(d: Doc) {
    Inv(d.s) && Section(d.s, d.current) && (d.current == Root || d.current in d.s.headed)
  }

  lemma StartInv()
    ensures DocInv(Start)
  {
    var s := Empty;
    assert Core(s) && Roles(s) && TableArrays(s) && Values(s);
  }

  lemma SectionStays(s: State, s': State, t: Id)
    requires Grow(s, s') && Section(s, t) && (t == Root || t in s.headed)
    ensures Section(s', t) && (t == Root || t in s'.headed)
  {}

  lemma HeaderOf(s: State, keys: seq<Key>, isArray: bool)
    requires Header(s, keys, isArray).Some?
    ensures keys != [] && WalkHeader(s, Root, keys).Some?
    ensures var (s1, t) := WalkHeader(s, Root, keys).value;
            Header(s, keys, isArray) == OpenLast(s1, t, Last(keys), isArray)
  {}

  /** Every accepted statement keeps the invariant and only lets the document grow. */
  lemma StepKeeps(d: Doc, st: Statement)
    requires DocInv(d) && Step(d, st).Some?
    ensures DocInv(Step(d, st).value) && Grow(d.s, Step(d, st).value.s)
  {
    hide Inv, Grow, Section, Header, EvalPair, WalkDotted;
    match st
    case HeaderLine(keys, isArray) =>
      RootSection(d.s);
      HeaderOf(d.s, keys, isArray);
      WalkHeaderKeeps(d.s, Root, keys);
      var (s1, t) := WalkHeader(d.s, Root, keys).value;
      OpenLastKeeps(s1, t, Last(keys), isArray);
      GrowTransitive(d.s, s1, Step(d, st).value.s);
    case PairLine(p) =>
      PairKeeps(d.s, d.current, p);
      SectionStays(d.s, Step(d, st).value.s, d.current);
  }

  lemma RootSection(s: State)
    requires Inv(s)
    ensures Section(s, Root)
  {}

  lemma {:induction false} RunInv(sts: seq<Statement>)
    requires Run(sts).Some?
    ensures DocInv(Run(sts).value)
  {
    hide DocInv, Step;
    if sts == [] { StartInv(); } else {
      RunInv(sts[..|sts| - 1]);
      StepKeeps(Run(sts[..|sts| - 1]).value, sts[|sts| - 1]);
    }
  }

  /**
    Over every run the document only grows: no statement removes or changes what an earlier
    statement defined, values stay as they are, and arrays of tables are only appended to.
  */
  lemma {:induction false} RunGrows(a: seq<Statement>, b: seq<Statement>)
    requires Run(a + b).Some?
    ensures Run(a).Some? && Grow(Run(a).value.s, Run(a + b).value.s)
    decreases |b|
  {
    hide DocInv, Step, Grow;
    if b == [] {
      assert a + b == a;
      GrowReflexive(Run(a).value.s);
    } else {
      var n := |b| - 1;
      assert (a + b)[..|a + b| - 1] == a + b[..n] && (a + b)[|a + b| - 1] == b[n];
      RunGrows(a, b[..n]);
      RunInv(a + b[..n]);
      StepKeeps(Run(a + b[..n]).value, b[n]);
      GrowTransitive(Run(a).value.s, Run(a + b[..n]).value.s, Run(a + b).value.s);
    }
  }

  /** Two stores agree on a node and on everything reachable from it in `n` steps. */
  ghost predicate SameBelow(m: Store, m': Store, i: Id, n: nat)
    decreases n
  {
    && i in m && i in m' && m[i] == m'[i]
    && (n > 0 ==>
          && (forall k | k in Kids(m, i) :: SameBelow(m, m', Kids(m, i)[k], n - 1))
          && (forall e | e in Elems(m, i) :: SameBelow(m, m', e, n - 1)))
  }

  lemma {:induction false} ValueSameBelow(s: State, s': State, i: Id, n: nat)
    requires Values(s) && Grow(s, s') && i in s.values
    ensures SameBelow(s.store, s'.store, i, n)
    decreases n
  {
    if n > 0 {
      forall k | k in Kids(s.store, i) ensures SameBelow(s.store, s'.store, Kids(s.store, i)[k], n - 1) {
        ValueSameBelow(s, s', Kids(s.store, i)[k], n - 1);
      }
      forall e | e in Elems(s.store, i) ensures SameBelow(s.store, s'.store, e, n - 1) {
        ValueSameBelow(s, s', e, n - 1);
      }
    }
  }

  /** Once closed, an inline table and everything below it never changes again. */
  lemma InlineTablesAreFinal(a: seq<Statement>, b: seq<Statement>, t: Id, n: nat)
    requires Run(a + b).Some? && Run(a).Some? && IsInline(Run(a).value.s.store, t)
    ensures SameBelow(Run(a).value.s.store, Run(a + b).value.s.store, t, n)
  {
    RunInv(a);
    RunGrows(a, b);
    ValueSameBelow(Run(a).value.s, Run(a + b).value.s, t, n);
  }

  // ---------------------------------------------------------------- a table is opened once

  function Headers(sts: seq<Statement>): nat {
    if sts == [] then 0 else Headers(sts[..|sts| - 1]) + if sts[|sts| - 1].HeaderLine? then 1 else 0
  }

  lemma HeaderKeepsHeaded(s: State, keys: seq<Key>, isArray: bool)
    requires Header(s, keys, isArray).Some?
    ensures Header(s, keys, isArray).value.0.headed == s.headed
  {
    HeaderOf(s, keys, isArray);
    WalkHeaderHeaded(s, Root, keys);
  }

  lemma {:induction false} WalkHeaderHeaded(s: State, t: Id, keys: seq<Key>)
    ensures var w := WalkHeader(s, t, keys); w.Some? ==> w.value.0.headed == s.headed
    decreases |keys|
  {
    if |keys| > 1 {
      if keys[0] in Kids(s.store, t) {
        var p := Enter(s, Kids(s.store, t)[keys[0]]);
        if p.Some? { WalkHeaderHeaded(s, p.value, keys[1..]); }
      } else {
        WalkHeaderHeaded(NewImplicit(s, t, keys[0]), s.next, keys[1..]);
      }
    }
  }

  lemma PairKeepsHeaded(s: State, t: Id, p: Pair)
    requires Inv(s) && Section(s, t) && EvalPair(s, t, p, 0).Some?
    ensures EvalPair(s, t, p, 0).value.headed == s.headed
  {
    InvParts(s);
    SectionBelow(s, t);
    FreshZero(s);
    hide Inv;
    EvalPairFrame(s, t, p, 0, 0);
  }

  lemma SectionBelow(s: State, t: Id)
    requires Core(s) && Section(s, t)
    ensures t < s.next
  {}

  /**
    Over every run the `i`-th header opens the table `headed[i]`, no two headers open the same
    table, and none opens the root.
  */
  lemma {:induction false} HeadersOpenOnce(sts: seq<Statement>)
    requires Run(sts).Some?
    ensures var s := Run(sts).value.s; |s.headed| == Headers(sts) && NoRepeats(s.headed) && Root !in s.headed
  {
    RunInv(sts);
    if sts != [] {
      var d, st := Run(sts[..|sts| - 1]).value, sts[|sts| - 1];
      HeadersOpenOnce(sts[..|sts| - 1]);
      RunInv(sts[..|sts| - 1]);
      hide Inv, Section, Header, EvalPair, WalkDotted;
      match st
      case HeaderLine(keys, isArray) => HeaderKeepsHeaded(d.s, keys, isArray);
      case PairLine(p) => PairKeepsHeaded(d.s, d.current, p);
    }
  }

  /** The tables a dotted key passes on its way, from table `t`. */
  function Passed(s: State, t: Id, keys: seq<Key>): seq<Id>
    decreases |keys|
  {
    if |keys| <= 1 then []
    else if keys[0] in Kids(s.store, t) then
      var p := Kids(s.store, t)[keys[0]];
      if Passable(s, p) then [p] + Passed(s, p, keys[1..]) else []
    else
      [s.next] + Passed(NewDotted(s, t, keys[0]), s.next, keys[1..])
  }

  lemma {:induction false} PassedNotHeaded(s: State, t: Id, keys: seq<Key>)
    requires Inv(s) && Section(s, t)
    ensures forall p | p in Passed(s, t, keys) :: p !in s.headed
    decreases |keys|
  {
    hide Inv, Section;
    if |keys| > 1 {
      if keys[0] in Kids(s.store, t) {
        var p := Kids(s.store, t)[keys[0]];
        if Passable(s, p) {
          PassableSection(s, t, keys[0]);
          PassedNotHeaded(s, p, keys[1..]);
        }
      } else {
        NewDottedKeeps(s, t, keys[0]);
        PassedNotHeaded(NewDotted(s, t, keys[0]), s.next, keys[1..]);
        InvNextUnused(s);
        assert NewDotted(s, t, keys[0]).headed == s.headed;
      }
    }
  }

  lemma InvNextUnused(s: State)
    requires Inv(s)
    ensures s.next !in s.headed
  {
    NextUnused(s);
  }

  /** No dotted key of a document passes a table that a header has opened. */
  lemma DottedKeysAvoidHeaders(sts: seq<Statement>, p: Pair)
    requires Run(sts).Some?
    ensures var d := Run(sts).value; forall t | t in Passed(d.s, d.current, p.keys) :: t !in d.s.headed
  {
    RunInv(sts);
    PassedNotHeaded(Run(sts).value.s, Run(sts).value.current, p.keys);
  }
}
