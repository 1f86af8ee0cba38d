/**
  The part of `toml.hpp`'s parser that changes the document, once the keys and values of a
  statement have been read: its loops and its vectors of tables, updated in place.
*/
module DocumentParsers {
  import opened Wrappers
  import opened Definitions
  import opened DefinitionMeanings

  class DocumentParser {
    var store: Store
    var next: Id
    var implicitTables: seq<Id>
    var dottedKeyTables: seq<Id>
    var tableArrays: seq<Id>
    var openInlineTables: seq<Id>
    var currentTable: Id
    ghost var headed: seq<Id>
    ghost var values: set<Id>
    /** The statements accepted so far. */
    ghost var accepted: seq<Statement>

    ghost function Now(): State
      reads this
    {
      State(store, next, implicitTables, dottedKeyTables, tableArrays, openInlineTables, headed, values)
    }

    ghost predicate Valid()
      reads this
    {
      Run(accepted) == Some(Doc(Now(), currentTable))
    }

    constructor ()
      ensures Valid() && accepted == []
    {
      store, next := map[Root := Table(false, map[])], 1;
      implicitTables, dottedKeyTables, tableArrays, openInlineTables := [], [], [], [];
      currentTable := Root;
      headed, values, accepted := [], {}, [];
    }

    /**
      One statement: it is accepted exactly if the statements before it allow it, and then every path leads to
      what it means.
    */
    method ParseStatement(st: Statement) returns (ok: bool)
      requires Valid()
      modifies this
      ensures ok <==> IsAllowed(old(accepted), st)
      ensures ok ==> Valid() && accepted == old(accepted) + [st] && Described(Now(), accepted)
    {
      hide IsAllowed, Described;
      NextIs(accepted, st);
      ok := RunStatement(st);
    }

    /** The statement itself: it is accepted exactly when the run with it is. */
    method RunStatement(st: Statement) returns (ok: bool)
      requires Valid()
      modifies this
      ensures ok <==> Run(old(accepted) + [st]).Some?
      ensures ok ==> Valid() && accepted == old(accepted) + [st]
    {
      ghost var before := Now();
      assert (accepted + [st])[..|accepted|] == accepted;
      match st
      case HeaderLine(keys, isArray) =>
        var t;
        ok, t := ParseTableHeader(keys, isArray);
        if ok {
          currentTable := t;
          headed := headed + [t];
          accepted := accepted + [st];
        }
      case PairLine(p) =>
        ok := ParseKeyValuePairAndInsert(currentTable, p, 0);
        if ok {
          values := values + (store.Keys - WalkDotted(before, currentTable, p.keys).value.0.store.Keys);
          accepted := accepted + [st];
        }
    }

    method NewNode(n: Node) returns (id: Id)
      modifies this`store, this`next
      ensures Now() == Alloc(old(Now()), n) && id == old(next)
    {
      id := next;
      store := store[id := n];
      next := next + 1;
    }

    method Enlist(t: Id, k: Key, n: Id)
      modifies this`store
      ensures Now() == Link(old(Now()), t, k, n)
    {
      if IsTable(store, t) {
        store := store[t := store[t].(kids := store[t].kids[k := n])];
      }
    }

    method PushBack(a: Id, n: Id)
      modifies this`store
      ensures Now() == Append(old(Now()), a, n)
    {
      if IsArray(store, a) {
        store := store[a := Array(store[a].elems + [n])];
      }
    }

    /** `parse_table_header`, from the key list on. */
    method ParseTableHeader(keys: seq<Key>, isArray: bool) returns (ok: bool, t: Id)
      modifies this`store, this`next, this`implicitTables, this`tableArrays
      ensures var r := Header(old(Now()), keys, isArray);
              (ok <==> r.Some?) && (ok ==> (Now(), t) == r.value)
    {
      hide WalkHeader, OpenLast;
      if keys == [] { return false, Root; }
      var parent;
      ok, parent := EnterParents(keys);
      if !ok { return false, Root; }
      ok, t := OpenLastSegment(parent, keys[|keys| - 1], isArray);
    }

    /** The loop over all but the last segment, which creates implicit tables. */
    method EnterParents(keys: seq<Key>) returns (ok: bool, parent: Id)
      requires keys != []
      modifies this`store, this`next, this`implicitTables
      ensures var r := WalkHeader(old(Now()), Root, keys);
              (ok <==> r.Some?) && (ok ==> (Now(), parent) == r.value)
    {
      ghost var s0 := Now();
      parent := Root;
      var i := 0;
      assert keys[0..] == keys;
      while i + 1 < |keys|
        invariant i < |keys|
        invariant WalkHeader(Now(), parent, keys[i..]) == WalkHeader(s0, Root, keys)
        invariant dottedKeyTables == s0.dotted && openInlineTables == s0.open
      {
        var segment := keys[i];
        assert keys[i..][0] == segment && keys[i..][1..] == keys[i + 1..];
        if segment in Kids(store, parent) {
          var p := Kids(store, parent)[segment];
          if IsTable(store, p) {
            if IsInline(store, p) && p !in openInlineTables { return false, Root; }
            parent := p;
          } else if IsArray(store, p) && p in tableArrays {
            parent := LastOf(Elems(store, p));
          } else {
            return false, Root;
          }
        } else {
          var p := NewNode(Table(false, map[]));
          Enlist(parent, segment, p);
          implicitTables := implicitTables + [p];
          parent := p;
        }
        i := i + 1;
      }
      return true, parent;
    }

    /** The last segment: a new table, a new element of an array of tables, or a promoted implicit table. */
    method OpenLastSegment(parent: Id, last: Key, isArray: bool) returns (ok: bool, t: Id)
      modifies this`store, this`next, this`implicitTables, this`tableArrays
      ensures var r := OpenLast(old(Now()), parent, last, isArray);
              (ok <==> r.Some?) && (ok ==> (Now(), t) == r.value)
    {
      t := Root;
      if last in Kids(store, parent) {
        var m := Kids(store, parent)[last];
        if isArray && IsArray(store, m) && m in tableArrays {
          t := NewNode(Table(false, map[]));
          PushBack(m, t);
          return true, t;
        }
        if !isArray && IsTable(store, m) && m in implicitTables {
          var onlyTables := OnlyTables(m);
          if onlyTables {
            implicitTables := Erase(implicitTables, m);
            return true, m;
          }
        }
        return false, Root;
      } else if isArray {
        var a := NewNode(Array([]));
        Enlist(parent, last, a);
        tableArrays := tableArrays + [a];
        t := NewNode(Table(false, map[]));
        PushBack(a, t);
        return true, t;
      } else {
        t := NewNode(Table(false, map[]));
        Enlist(parent, last, t);
        return true, t;
      }
    }

    /** The loop over the children of a table that is to be promoted. */
    method OnlyTables(m: Id) returns (ok: bool)
      ensures ok <==> forall k | k in Kids(store, m) :: IsTable(store, Kids(store, m)[k]) || IsArrayOfTables(store, Kids(store, m)[k])
    {
      var left := Kids(store, m).Keys;
      while left != {}
        invariant left <= Kids(store, m).Keys
        invariant forall k | k in Kids(store, m).Keys - left ::
                    IsTable(store, Kids(store, m)[k]) || IsArrayOfTables(store, Kids(store, m)[k])
        decreases left
      {
        var k :| k in left;
        var child := Kids(store, m)[k];
        if !IsTable(store, child) && !IsArrayOfTables(store, child) { return false; }
        left := left - {k};
      }
      return true;
    }

    /** `parse_key_value_pair_and_insert`, from the key list on. */
    method ParseKeyValuePairAndInsert(t: Id, p: Pair, depth: nat) returns (ok: bool)
      modifies this`store, this`next, this`dottedKeyTables, this`openInlineTables
      ensures var r := EvalPair(old(Now()), t, p, depth);
              (ok <==> r.Some?) && (ok ==> Now() == r.value)
      decreases p
    {
      ghost var s0 := Now();
      var tbl := t;
      var i := 0;
      while i + 1 < |p.keys|
        invariant i <= |p.keys| && (p.keys != [] ==> i < |p.keys|)
        invariant WalkDotted(Now(), tbl, p.keys[i..]) == WalkDotted(s0, t, p.keys)
      {
        var segment := p.keys[i];
        assert p.keys[i..][0] == segment && p.keys[i..][1..] == p.keys[i + 1..];
        if segment in Kids(store, tbl) {
          var child := Kids(store, tbl)[segment];
          if !IsTable(store, child) || !(child in dottedKeyTables || child in implicitTables) { return false; }
          tbl := child;
        } else {
          var child := NewNode(Table(false, map[]));
          Enlist(tbl, segment, child);
          dottedKeyTables := dottedKeyTables + [child];
          tbl := child;
        }
        i := i + 1;
      }
      assert WalkDotted(s0, t, p.keys) == Some((Now(), tbl));

      if p.keys == [] { return false; }
      var last := p.keys[|p.keys| - 1];
      if last in Kids(store, tbl) { return false; }
      var n;
      ok, n := ParseValue(p.value, depth);
      if ok { Enlist(tbl, last, n); }
    }

    /** `parse_value` for a value nested `depth` deep. */
    method ParseValue(v: Value, depth: nat) returns (ok: bool, n: Id)
      modifies this`store, this`next, this`dottedKeyTables, this`openInlineTables
      ensures var r := Eval(old(Now()), v, depth);
              (ok <==> r.Some?) && (ok ==> (Now(), n) == r.value)
      decreases v
    {
      if depth + 1 > MaxNestedValues { return false, Root; }
      match v
      case ScalarValue(text) =>
        n := NewNode(Scalar(text));
        return true, n;
      case ArrayValue(vs) =>
        n := NewNode(Array([]));
        ghost var s1 := Now();
        for i := 0 to |vs|
          invariant EvalElems(Now(), n, vs[i..], depth + 1) == EvalElems(s1, n, vs, depth + 1)
        {
          assert vs[i..][0] == vs[i] && vs[i..][1..] == vs[i + 1..];
          var e;
          ok, e := ParseValue(vs[i], depth + 1);
          if !ok { return false, Root; }
          PushBack(n, e);
        }
        return true, n;
      case InlineTable(ps) =>
        n := NewNode(Table(true, map[]));
        var enclosing := openInlineTables;
        openInlineTables := openInlineTables + [n];
        ghost var s1 := Now();
        for i := 0 to |ps|
          invariant EvalPairs(Now(), n, ps[i..], depth + 1) == EvalPairs(s1, n, ps, depth + 1)
        {
          assert ps[i..][0] == ps[i] && ps[i..][1..] == ps[i + 1..];
          ok := ParseKeyValuePairAndInsert(n, ps[i], depth + 1);
          if !ok { return false, Root; }
        }
        openInlineTables := enclosing;
        return true, n;
    }
  }
}
