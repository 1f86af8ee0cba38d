/**
  Which statement of a TOML document may extend which table: headers and key-value pairs of
  `toml.hpp`. Tables and arrays are shared by pointer in the source, so the document is a store of
  nodes under ids. `DocumentParser.dfy` proves the loops that change it against these functions.
*/
module Definitions {
  import opened Wrappers

  type Key = string
  type Id = nat

  datatype Node =
    | Scalar(text: string)
    | Table(inline: bool, kids: map<Key, Id>)
    | Array(elems: seq<Id>)

  /** The syntax of a value: what a key-value pair assigns. */
  datatype Value = ScalarValue(text: string) | ArrayValue(elems: seq<Value>) | InlineTable(pairs: seq<Pair>)

  /** A key-value pair inside an inline table; `keys` has more than one segment if it is dotted. */
  datatype Pair = Pair(keys: seq<Key>, value: Value)

  const Root: Id := 0
  const MaxNestedValues := 128

  /**
    The parser between two tokens. `implicit`, `dotted`, `arrays` and `open` are its vectors of
    pointers. `headed` lists what `parse_table_header` has returned and `values` what
    `parse_value` has built for statements that are complete: both only record history.
  */
  datatype State = State(
    store: map<Id, Node>,
    next: Id,
    implicit: seq<Id>,
    dotted: seq<Id>,
    arrays: seq<Id>,
    open: seq<Id>,
    headed: seq<Id>,
    values: set<Id>)

  const Empty := State(map[Root := Table(false, map[])], 1, [], [], [], [], [], {})

  type Store = map<Id, Node>

  predicate IsTable(m: Store, t: Id) {
    t in m && m[t].Table?
  }

  predicate IsArray(m: Store, a: Id) {
    a in m && m[a].Array?
  }

  predicate IsInline(m: Store, t: Id) {
    IsTable(m, t) && m[t].inline
  }

  function Kids(m: Store, t: Id): map<Key, Id> {
    if IsTable(m, t) then m[t].kids else map[]
  }

  function Elems(m: Store, a: Id): seq<Id> {
    if IsArray(m, a) then m[a].elems else []
  }

  /** `new`: the node gets the next id. */
  function Alloc(s: State, n: Node): State {
    s.(store := s.store[s.next := n], next := s.next + 1)
  }

  /** Entering a node under a key of a table. */
  function Link(s: State, t: Id, k: Key, n: Id): State {
    if IsTable(s.store, t) then s.(store := s.store[t := s.store[t].(kids := s.store[t].kids[k := n])]) else s
  }

  /** Appending a node to an array. */
  function Append(s: State, a: Id, n: Id): State {
    if IsArray(s.store, a) then s.(store := s.store[a := Array(s.store[a].elems + [n])]) else s
  }

  // ---------------------------------------------------------------- values

  /** `parse_value`, nested `depth` deep: the new node, or `None` where the parser reports an error. */
  function Eval(s: State, v: Value, depth: nat): Option<(State, Id)>
    decreases v
  {
    if depth + 1 > MaxNestedValues then None else
    match v
    case ScalarValue(text) => Some((Alloc(s, Scalar(text)), s.next))
    case ArrayValue(vs) =>
      var r := EvalElems(Alloc(s, Array([])), s.next, vs, depth + 1);
      if r.None? then None else Some((r.value, s.next))
    case InlineTable(ps) =>
      var s1 := Alloc(s, Table(true, map[]));
      var r := EvalPairs(s1.(open := s.open + [s.next]), s.next, ps, depth + 1);
      if r.None? then None else Some((r.value.(open := s.open), s.next))
  }

  function EvalElems(s: State, a: Id, vs: seq<Value>, depth: nat): Option<State>
    decreases vs
  {
    if vs == [] then Some(s) else
      var r := Eval(s, vs[0], depth);
      if r.None? then None else EvalElems(Append(r.value.0, a, r.value.1), a, vs[1..], depth)
  }

  function EvalPairs(s: State, t: Id, ps: seq<Pair>, depth: nat): Option<State>
    decreases ps
  {
    if ps == [] then Some(s) else
      var r := EvalPair(s, t, ps[0], depth);
      if r.None? then None else EvalPairs(r.value, t, ps[1..], depth)
  }

  function EvalPair(s: State, t: Id, p: Pair, depth: nat): Option<State>
    decreases p
  {
    var w := WalkDotted(s, t, p.keys);
    if w.None? || !CanInsert(w.value.0, w.value.1, p.keys) then None else
      var r := Eval(w.value.0, p.value, depth);
      if r.None? then None else Some(Link(r.value.0, w.value.1, Last(p.keys), r.value.1))
  }

  function Last(keys: seq<Key>): Key {
    if keys == [] then "" else keys[|keys| - 1]
  }

  predicate CanInsert(s: State, t: Id, keys: seq<Key>) {
    keys != [] && Last(keys) !in Kids(s.store, t)
  }

  /** A dotted key may pass only tables that a dotted key or a header brought about on the way. */
  predicate Passable(s: State, t: Id) {
    IsTable(s.store, t) && (t in s.dotted || t in s.implicit)
  }

  /** The loop over all but the last segment of a dotted key, from table `t`. */
  function WalkDotted(s: State, t: Id, keys: seq<Key>): Option<(State, Id)>
    decreases |keys|
  {
    if |keys| <= 1 then Some((s, t))
    else if keys[0] in Kids(s.store, t) then
      var p := Kids(s.store, t)[keys[0]];
      if Passable(s, p) then WalkDotted(s, p, keys[1..]) else None
    else
      WalkDotted(NewDotted(s, t, keys[0]), s.next, keys[1..])
  }

  /** An empty table under a key of `t`. */
  function NewTable(s: State, t: Id, k: Key): State {
    Link(Alloc(s, Table(false, map[])), t, k, s.next)
  }

  function NewDotted(s: State, t: Id, k: Key): State {
    NewTable(s, t, k).(dotted := s.dotted + [s.next])
  }

  // ---------------------------------------------------------------- headers

  function LastOf(ids: seq<Id>): Id {
    if ids == [] then Root else ids[|ids| - 1]
  }

  /** Where a header goes on from node `p` that exists already, if it may. */
  function Enter(s: State, p: Id): Option<Id> {
    if IsTable(s.store, p) then
      if IsInline(s.store, p) && p !in s.open then None else Some(p)
    else if IsArray(s.store, p) && p in s.arrays then Some(LastOf(Elems(s.store, p)))
    else None
  }

  /** The loop over all but the last segment of a header. */
  function WalkHeader(s: State, t: Id, keys: seq<Key>): Option<(State, Id)>
    decreases |keys|
  {
    if |keys| <= 1 then Some((s, t))
    else if keys[0] in Kids(s.store, t) then
      var p := Enter(s, Kids(s.store, t)[keys[0]]);
      if p.None? then None else WalkHeader(s, p.value, keys[1..])
    else
      WalkHeader(NewImplicit(s, t, keys[0]), s.next, keys[1..])
  }

  function NewImplicit(s: State, t: Id, k: Key): State {
    NewTable(s, t, k).(implicit := s.implicit + [s.next])
  }

  predicate IsArrayOfTables(m: Store, a: Id) {
    IsArray(m, a) && Elems(m, a) != [] && forall e | e in Elems(m, a) :: IsTable(m, e)
  }

  /** An implicit table may still be opened by its own header while it holds only tables. */
  predicate Promotable(s: State, t: Id) {
    && IsTable(s.store, t) && t in s.implicit
    && forall k | k in Kids(s.store, t) :: IsTable(s.store, Kids(s.store, t)[k]) || IsArrayOfTables(s.store, Kids(s.store, t)[k])
  }

  /** Erasing the first occurrence. */
  function Erase(ids: seq<Id>, x: Id): seq<Id> {
    if ids == [] then [] else if ids[0] == x then ids[1..] else [ids[0]] + Erase(ids[1..], x)
  }

  function NewElement(s: State, a: Id): State {
    Append(Alloc(s, Table(false, map[])), a, s.next)
  }

  function NewArray(s: State, t: Id, k: Key): State {
    var s1 := Link(Alloc(s, Array([])), t, k, s.next).(arrays := s.arrays + [s.next]);
    NewElement(s1, s.next)
  }

  /** The last segment of a header: the table it opens. */
  function OpenLast(s: State, t: Id, k: Key, isArray: bool): Option<(State, Id)> {
    if k in Kids(s.store, t) then
      var m := Kids(s.store, t)[k];
      if isArray && IsArray(s.store, m) && m in s.arrays then Some((NewElement(s, m), s.next))
      else if !isArray && Promotable(s, m) then Some((s.(implicit := Erase(s.implicit, m)), m))
      else None
    else if isArray then Some((NewArray(s, t, k), s.next + 1))
    else Some((NewTable(s, t, k), s.next))
  }

  /** `parse_table_header`. */
  function Header(s: State, keys: seq<Key>, isArray: bool): Option<(State, Id)> {
    if keys == [] then None else
      var w := WalkHeader(s, Root, keys);
      if w.None? then None else OpenLast(w.value.0, w.value.1, Last(keys), isArray)
  }

  // ---------------------------------------------------------------- documents

  datatype Statement = HeaderLine(keys: seq<Key>, isArray: bool) | PairLine(pair: Pair)

  /** The parser together with the table that key-value pairs go to. */
  datatype Doc = Doc(s: State, current: Id)

  const Start := Doc(Empty, Root)

  function Step(d: Doc, st: Statement): Option<Doc> {
    match st
    case HeaderLine(keys, isArray) =>
      var r := Header(d.s, keys, isArray);
      if r.None? then None
      else Some(Doc(r.value.0.(headed := r.value.0.headed + [r.value.1]), r.value.1))
    case PairLine(p) =>
      var w := WalkDotted(d.s, d.current, p.keys);
      var r := EvalPair(d.s, d.current, p, 0);
      if w.None? || r.None? then None
      else Some(Doc(r.value.(values := r.value.values + (r.value.store.Keys - w.value.0.store.Keys)), d.current))
  }

  /** The document after the statements, or `None` if one of them is an error. */
  function Run(sts: seq<Statement>): Option<Doc> {
    if sts == [] then Some(Start) else
      var d := Run(sts[..|sts| - 1]);
      if d.None? then None else Step(d.value, sts[|sts| - 1])
  }
}
