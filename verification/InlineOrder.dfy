/** The tables that `toml.hpp` reads list their keys in dictionary order, all the way down. */
module InlineOrders {
  import opened Characters
  import opened InlineGrammar
  import opened InlineRoundTrips
  import opened InlineTables
  import opened Integers
  import opened Keys
  import Paths
  import opened StringParser
  import opened TomlValues
  import opened ValueKinds
  import opened Wrappers

  // ---------------------------------------------------------------- the order of keys

  /** Two texts differ first at a position. */
  predicate DifferAt(a: string, b: string, i: nat) {
    i < |a| && i < |b| && a[..i] == b[..i] && a[i] < b[i]
  }

  /** Dictionary order: a proper beginning comes first, otherwise the first difference decides. */
  lemma {:induction false} LessIs(a: string, b: string)
    ensures Less(a, b) <==> a < b || exists i: nat :: DifferAt(a, b, i)
  {
    if a != "" && b != "" {
      assert a == [a[0]] + a[1..] && b == [b[0]] + b[1..];
      LessIs(a[1..], b[1..]);
      if a[0] == b[0] {
        forall i: nat ensures DifferAt(a[1..], b[1..], i) ==> DifferAt(a, b, i + 1) { DifferLater(a, b, i); }
        if i: nat :| DifferAt(a, b, i) { DifferLater(a, b, i - 1); }
      } else {
        if a[0] < b[0] { assert DifferAt(a, b, 0); }
        forall i: nat ensures DifferAt(a, b, i) ==> i == 0 { DifferFirst(a, b, i); }
      }
    }
  }

  lemma DifferFirst(a: string, b: string, i: nat)
    requires a != "" && b != ""
    ensures DifferAt(a, b, i) && i > 0 ==> a[0] == b[0]
  {
    if 0 < i <= |a| && i <= |b| { assert a[..i][0] == a[0] && b[..i][0] == b[0]; }
  }

  lemma DifferLater(a: string, b: string, i: nat)
    requires a != "" && b != "" && a[0] == b[0]
    ensures DifferAt(a[1..], b[1..], i) <==> DifferAt(a, b, i + 1)
  {
    if i < |a| - 1 && i < |b| - 1 {
      assert a[..i + 1] == [a[0]] + a[1..][..i] && b[..i + 1] == [b[0]] + b[1..][..i];
      assert a[1..][..i] == a[..i + 1][1..] && b[1..][..i] == b[..i + 1][1..];
    }
  }

  lemma {:induction false} LessTransitive(a: string, b: string, c: string)
    requires Less(a, b) && Less(b, c)
    ensures Less(a, c)
  {
    if a != "" && a[0] == b[0] == c[0] { LessTransitive(a[1..], b[1..], c[1..]); }
  }

  lemma {:induction false} LessTotal(a: string, b: string)
    ensures a == b || Less(a, b) || Less(b, a)
  {
    if a != "" && b != "" && a[0] == b[0] {
      LessTotal(a[1..], b[1..]);
      assert a == [a[0]] + a[1..] && b == [b[0]] + b[1..];
    }
  }

  // ---------------------------------------------------------------- entries stay in order

  lemma {:induction false} BelowBound(es: seq<Entry>, k: string, j: nat)
    requires j < LowerBound(es, k)
    ensures Less(es[j].key, k)
  {
    if j > 0 { BelowBound(es[1..], k, j - 1); }
  }

  lemma {:induction false} GetIsThere(es: seq<Entry>, i: nat)
    requires i < |es|
    ensures Paths.Get(es, es[i].key).Some?
  {
    if i > 0 { GetIsThere(es[1..], i - 1); }
  }

  /** A new key goes to its place. */
  lemma InsertKeepsOrder(es: seq<Entry>, k: string, v: Value)
    requires Ascending(es) && Paths.Get(es, k) == None
    ensures Ascending(Insert(es, k, v))
  {
    hide Less, LowerBound, Paths.Get;
    var n := LowerBound(es, k);
    forall j | 0 <= j < n ensures Less(es[j].key, k) { BelowBound(es, k, j); }
    forall j | n <= j < |es| ensures Less(k, es[j].key) {
      BehindBound(es, k, j);
    }
    var r := Insert(es, k, v);
    forall i, j | 0 <= i < j < |r| ensures Less(r[i].key, r[j].key) {
      var x, y := if i < n then i else i - 1, if j < n then j else j - 1;
      if i != n && j != n { assert r[i] == es[x] && r[j] == es[y]; }
    }
  }

  lemma BehindBound(es: seq<Entry>, k: string, j: nat)
    requires Ascending(es) && Paths.Get(es, k) == None && LowerBound(es, k) <= j < |es|
    ensures Less(k, es[j].key)
  {
    hide Less, LowerBound, Paths.Get;
    var n := LowerBound(es, k);
    GetIsThere(es, n);
    LessTotal(es[n].key, k);
    if j > n { LessTransitive(k, es[n].key, es[j].key); }
  }

  lemma {:induction false} ReplaceKeys(es: seq<Entry>, k: string, v: Value)
    ensures |Replace(es, k, v)| == |es|
    ensures forall i | 0 <= i < |es| :: Replace(es, k, v)[i].key == es[i].key
  {
    if es != [] && es[0].key != k { ReplaceKeys(es[1..], k, v); }
  }

  /** Every table in a value lists its keys in order. */
  predicate IsOrdered(v: Value) {
    match v
    case Array(es) => AreOrdered(es)
    case Table(es) => Ascending(es) && EntriesOrdered(es)
    case _ => true
  }

  predicate AreOrdered(vs: seq<Value>) {
    forall v | v in vs :: IsOrdered(v)
  }

  predicate EntriesOrdered(es: seq<Entry>) {
    forall e | e in es :: IsOrdered(e.value)
  }

  lemma InsertOrdered(es: seq<Entry>, k: string, v: Value)
    requires EntriesOrdered(es) && IsOrdered(v)
    ensures EntriesOrdered(Insert(es, k, v))
  {
    hide IsOrdered;
  }

  lemma {:induction false} ReplaceOrdered(es: seq<Entry>, k: string, v: Value)
    requires EntriesOrdered(es) && IsOrdered(v)
    ensures EntriesOrdered(Replace(es, k, v))
  {
    hide IsOrdered;
    if es != [] && es[0].key != k {
      forall e | e in es[1..] ensures IsOrdered(e.value) { assert e in es; }
      ReplaceOrdered(es[1..], k, v);
    }
  }

  lemma {:induction false} GetOrdered(es: seq<Entry>, k: string)
    requires EntriesOrdered(es)
    ensures Paths.Get(es, k).Some? ==> IsOrdered(Paths.Get(es, k).value)
  {
    hide IsOrdered;
    if es != [] && es[0].key != k {
      forall e | e in es[1..] ensures IsOrdered(e.value) { assert e in es; }
      GetOrdered(es[1..], k);
    }
  }

  lemma {:induction false} AddPairKeepsOrder(es: seq<Entry>, dotted: set<seq<string>>, path: seq<string>,
                                             keys: seq<string>, v: Value)
    requires keys != [] && CanAdd(es, dotted, path, keys)
    requires IsOrdered(Table(es)) && IsOrdered(v)
    ensures IsOrdered(Table(AddPair(es, keys, v)))
    decreases |keys|
  {
    hide Insert, Replace, Paths.Get, Ascending, EntriesOrdered;
    var child := Paths.Get(es, keys[0]);
    GetOrdered(es, keys[0]);
    if |keys| == 1 {
      OneInserted(es, keys[0], v);
    } else if child.Some? {
      AddPairKeepsOrder(child.value.entries, dotted, path + [keys[0]], keys[1..], v);
      OneReplaced(es, keys[0], Table(AddPair(child.value.entries, keys[1..], v)));
    } else {
      assert IsOrdered(Table([])) by { NothingInOrder(); }
      CanAddBelow(es, dotted, path, keys);
      AddPairKeepsOrder([], dotted, path + [keys[0]], keys[1..], v);
      OneInserted(es, keys[0], Table(AddPair([], keys[1..], v)));
    }
  }

  lemma NothingInOrder()
    ensures IsOrdered(Table([]))
  {}

  lemma OneInserted(es: seq<Entry>, k: string, v: Value)
    requires IsOrdered(Table(es)) && IsOrdered(v) && Paths.Get(es, k) == None
    ensures IsOrdered(Table(Insert(es, k, v)))
  {
    hide Insert, EntriesOrdered, Ascending, Paths.Get;
    InsertKeepsOrder(es, k, v);
    InsertOrdered(es, k, v);
  }

  lemma OneReplaced(es: seq<Entry>, k: string, v: Value)
    requires IsOrdered(Table(es)) && IsOrdered(v)
    ensures IsOrdered(Table(Replace(es, k, v)))
  {
    hide Replace, EntriesOrdered;
    ReplaceOrdered(es, k, v);
    ReplaceKeys(es, k, v);
  }

  // ---------------------------------------------------------------- what is read

  /** What is known of the parser of floats here: it gives neither arrays nor tables. */
  ghost predicate HasPlainFloats(src: Source) {
    forall pos: nat :: var r := src.floats(src.text, pos); r.Some? ==> !r.value.value.Array? && !r.value.value.Table?
  }

  lemma ScalarIsPlain(src: Source, pos: nat)
    requires HasPlainFloats(src) && pos < |src.text|
    ensures ScalarAt(src, pos).Some? ==> IsOrdered(ScalarAt(src, pos).value.value)
  {
    hide StringAt, KindOf, ScanValue;
  }

  /** Every table in a value that is read lists its keys in order. */
  lemma {:induction false} ReadInOrder(src: Source, pos: nat, nested: nat)
    requires HasPlainFloats(src) && pos < |src.text|
    ensures ValueAt(src, pos, nested).Some? ==> IsOrdered(ValueAt(src, pos, nested).value.value)
    decreases |src.text| - pos, 0
  {
    hide ScalarAt, HasPlainFloats, EntriesOrdered, Ascending, IsOrdered, ElementsAt, EntriesAt;
    ScalarIsPlain(src, pos);
    NothingInOrder();
    if pos + 1 < |src.text| {
      ElementsInOrder(src, pos + 1, nested + 1, Nothing);
      EntriesInOrder(src, pos + 1, nested + 1, Nothing, Draft([], {}));
    }
    var es := if pos + 1 < |src.text| then ElementsAt(src, pos + 1, nested + 1, Nothing) else None;
    if es.Some? { ArrayInOrder(es.value.value); }
  }

  lemma ArrayInOrder(vs: seq<Value>)
    requires AreOrdered(vs)
    ensures IsOrdered(Array(vs))
  {}

  lemma {:induction false} ElementsInOrder(src: Source, pos: nat, nested: nat, last: Last)
    requires HasPlainFloats(src) && pos <= |src.text|
    ensures ElementsAt(src, pos, nested, last).Some? ==> AreOrdered(ElementsAt(src, pos, nested, last).value.value)
    decreases |src.text| - pos, 1
  {
    hide BlanksEnd, ValueAt, HasPlainFloats, IsOrdered;
    var p := BlanksEnd(src.text, pos);
    if p.Some? && p.value < |src.text| {
      if src.text[p.value] == ',' {
        if last == Element && p.value + 1 < |src.text| { ElementsInOrder(src, p.value + 1, nested, Comma); }
      } else if src.text[p.value] != ']' && last != Element {
        ReadInOrder(src, p.value, nested);
        var v := ValueAt(src, p.value, nested);
        if v.Some? { ElementsInOrder(src, v.value.after, nested, Element); }
      }
    }
  }

  lemma {:induction false} EntriesInOrder(src: Source, pos: nat, nested: nat, last: Last, d: Draft)
    requires HasPlainFloats(src) && pos <= |src.text| && IsOrdered(Table(d.entries))
    ensures EntriesAt(src, pos, nested, last, d).Some? ==> IsOrdered(EntriesAt(src, pos, nested, last, d).value.value)
    decreases |src.text| - pos, 1
  {
    hide SpacesEnd, PairAt, ValueAt, CanAdd, AddPair, IsBareKeyChar, IsDelimiter, HasPlainFloats, IsOrdered;
    var p := SpacesEnd(src.text, pos);
    if p.Some? && p.value < |src.text| {
      var c := src.text[p.value];
      if c == ',' {
        if last == Element && p.value + 1 < |src.text| { EntriesInOrder(src, p.value + 1, nested, Comma, d); }
      } else if c != '}' && last != Element && (IsDelimiter(c) || IsBareKeyChar(c)) {
        var k := PairAt(src.text, p.value);
        if k.Some? && CanAdd(d.entries, d.dotted, [], k.value.value) {
          ReadInOrder(src, k.value.after, nested);
          var v := ValueAt(src, k.value.after, nested);
          if v.Some? {
            AddPairKeepsOrder(d.entries, d.dotted, [], k.value.value, v.value.value);
            EntriesInOrder(src, v.value.after, nested, Element, AddTo(d, k.value.value, v.value.value));
          }
        }
      }
    }
  }
}
