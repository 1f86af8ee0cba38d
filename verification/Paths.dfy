/** Paths of `toml.hpp`: parsing and printing them, and the two ways of following one. */
module Paths {
  import opened Characters
  import opened Numerals
  import opened Sequences
  import opened TomlValues
  import opened Wrappers

  datatype Component = Key(key: string) | Index(index: nat)

  // ---------------------------------------------------------------- the text of a path

  predicate IsSpecial(c: char) {
    c == '.' || c == '[' || c == ']'
  }

  /** Over blanks to the first digit of an array index. */
  function IndexStart(path: string, i: nat): (r: Option<nat>)
    ensures r.Some? ==> i <= r.value < |path| && IsDecimalDigit(path[r.value])
    decreases |path| - i
  {
    if i >= |path| then None
    else if IsDecimalDigit(path[i]) then Some(i)
    else if IsSpaceOrTab(path[i]) then IndexStart(path, i + 1)
    else None
  }

  /** Behind the last digit; the path may end there. */
  function IndexEnd(path: string, i: nat): (r: Option<nat>)
    requires i <= |path|
    ensures r.Some? ==> i <= r.value <= |path| && forall j | i <= j < r.value :: IsDecimalDigit(path[j])
    decreases |path| - i
  {
    if i >= |path| then Some(i)
    else if IsDecimalDigit(path[i]) then IndexEnd(path, i + 1)
    else if IsSpaceOrTab(path[i]) || IsSpecial(path[i]) then Some(i)
    else None
  }

  /** Behind the closing bracket, which may be missing before a dot, a bracket or the end. */
  function IndexAfter(path: string, i: nat): (r: Option<nat>)
    requires i <= |path|
    ensures r.Some? ==> i <= r.value <= |path|
    decreases |path| - i
  {
    if i >= |path| then Some(i)
    else if path[i] == ']' then Some(i + 1)
    else if path[i] == '.' || path[i] == '[' then Some(i)
    else if IsSpaceOrTab(path[i]) then IndexAfter(path, i + 1)
    else None
  }

  /** `find_first_of(".[]")`, or the end. */
  function FindSpecial(path: string, i: nat): (r: nat)
    requires i <= |path|
    ensures i <= r <= |path| && forall j | i <= j < r :: !IsSpecial(path[j])
    ensures r < |path| ==> IsSpecial(path[r])
    decreases |path| - i
  {
    if i >= |path| || IsSpecial(path[i]) then i else FindSpecial(path, i + 1)
  }

  predicate AllBlank(s: string) {
    forall c | c in s :: IsSpaceOrTab(c)
  }

  /** The components a path is read as up to its end or its first error. */
  datatype Parsed = Parsed(comps: seq<Component>, ok: bool)

  const Malformed := Parsed([], false)

  function Cons(c: Component, p: Parsed): Parsed {
    Parsed([c] + p.comps, p.ok)
  }

  datatype IndexToken = IndexToken(value: nat, after: nat)

  /** An array index that begins with the bracket at `pos`; its value has to fit a `size_t`. */
  function ReadIndex(path: string, pos: nat): (r: Option<IndexToken>)
    requires pos < |path|
    ensures r.Some? ==> pos < r.value.after <= |path|
  {
    var s := IndexStart(path, pos + 1);
    if s.None? then None else
      var e := IndexEnd(path, s.value + 1);
      if e.None? then None else
        var a := IndexAfter(path, e.value);
        if a.None? then None else
          var digits := path[s.value..e.value];
          assert AllDigitChars(digits, 10);
          var v := FromText(digits, 10);
          if v > U64_MAX then None else Some(IndexToken(v, a.value))
  }

  /** The loop of `parse_path` from `pos` on, with its two flags about what came before. */
  function Scan(path: string, pos: nat, afterIndex: bool, afterDot: bool): Parsed
    requires pos <= |path|
    decreases |path| - pos
  {
    if pos == |path| then
      (if afterDot then Parsed([Key("")], true) else Parsed([], true))
    else if path[pos] == '[' then
      var t := ReadIndex(path, pos);
      if t.None? then Malformed else Cons(Index(t.value.value), Scan(path, t.value.after, true, false))
    else if path[pos] == '.' then
      var rest := Scan(path, pos + 1, false, true);
      if afterDot then Cons(Key(""), rest) else rest
    else if path[pos] == ']' then
      Malformed
    else
      var e := FindSpecial(path, pos + 1);
      if !afterIndex then Cons(Key(path[pos..e]), Scan(path, e, false, false))
      else if AllBlank(path[pos..e]) then Scan(path, e, false, false)
      else Malformed
  }

  /** `parse_path`. */
  function Parse(path: string): Parsed {
    if path == "" then Parsed([Key("")], true) else Scan(path, 0, false, true)
  }

  // ---------------------------------------------------------------- printing

  /** What `path::print_to` writes for one component; only the first key has no dot. */
  function Piece(c: Component, root: bool): string {
    match c
    case Key(k) => if root then k else "." + k
    case Index(i) => "[" + ToText(i, 10) + "]"
  }

  function PrintFrom(cs: seq<Component>, root: bool): string {
    if cs == [] then "" else Piece(cs[0], root) + PrintFrom(cs[1..], false)
  }

  function Print(cs: seq<Component>): string {
    PrintFrom(cs, true)
  }

  lemma PrintStep(cs: seq<Component>, i: nat, root: bool)
    requires i <= |cs|
    ensures i == |cs| ==> PrintFrom(cs[i..], root) == ""
    ensures i < |cs| ==> PrintFrom(cs[i..], root) == Piece(cs[i], root) + PrintFrom(cs[i + 1..], false)
    ensures cs[0..] == cs
  {
    if i < |cs| {
      assert cs[i..][0] == cs[i] && cs[i..][1..] == cs[i + 1..];
    }
  }

  /** `path::print_to`. */
  method PrintTo(cs: seq<Component>) returns (os: string)
    ensures os == Print(cs)
  {
    hide PrintFrom, ToText;
    os := "";
    var root := true;
    PrintStep(cs, 0, true);
    assert "" + PrintFrom(cs, true) == PrintFrom(cs, true);
    for i := 0 to |cs|
      invariant root <==> i == 0
      invariant Print(cs) == os + PrintFrom(cs[i..], root)
    {
      PrintStep(cs, i, root);
      Assoc(os, Piece(cs[i], root), PrintFrom(cs[i + 1..], false));
      var piece := PrintPiece(cs[i], root);
      os := os + piece;
      root := false;
    }
    PrintStep(cs, |cs|, root);
    assert os + "" == os;
  }

  /** The body of the loop of `path::print_to`. */
  method PrintPiece(c: Component, root: bool) returns (os: string)
    ensures os == Piece(c, root)
  {
    match c
    case Key(k) =>
      os := if root then "" else ".";
      os := os + k;
    case Index(n) =>
      os := "[";
      os := os + ToText(n, 10);
      os := os + "]";
  }

  // ---------------------------------------------------------------- the round trip

  predicate CleanKey(k: string) {
    forall c | c in k :: !IsSpecial(c)
  }

  /** Every key is free of the characters that structure a path; every index fits a `size_t`. */
  predicate Clean(cs: seq<Component>) {
    forall c | c in cs :: if c.Key? then CleanKey(c.key) else c.index <= U64_MAX
  }

  /** The components without the empty keys directly before an index. */
  function DropLost(cs: seq<Component>): seq<Component> {
    if cs == [] then []
    else if |cs| > 1 && cs[0] == Key("") && cs[1].Index? then DropLost(cs[1..])
    else [cs[0]] + DropLost(cs[1..])
  }

  lemma DropLostCons(c: Component, cs: seq<Component>)
    ensures DropLost([c] + cs)
         == if c == Key("") && cs != [] && cs[0].Index? then DropLost(cs) else [c] + DropLost(cs)
    ensures DropLost([]) == []
  {
    assert ([c] + cs)[1..] == cs && (cs != [] ==> ([c] + cs)[1] == cs[0]);
  }

  predicate NothingLost(cs: seq<Component>) {
    forall i | 0 <= i < |cs| - 1 :: cs[i] == Key("") ==> !cs[i + 1].Index?
  }

  lemma {:induction false} DropLostLength(cs: seq<Component>)
    ensures |DropLost(cs)| <= |cs|
    ensures DropLost(cs) == cs <==> NothingLost(cs)
  {
    if cs != [] {
      DropLostLength(cs[1..]);
      if |cs| > 1 && cs[0] == Key("") && cs[1].Index? {
      } else {
        assert cs == [cs[0]] + cs[1..];
        if NothingLost(cs[1..]) {
          forall i | 0 <= i < |cs| - 1 ensures cs[i] == Key("") ==> !cs[i + 1].Index? {
            if i > 0 { assert cs[1..][i - 1] == cs[i] && cs[1..][i] == cs[i + 1]; }
          }
        }
      }
    }
  }

  lemma CleanTail(cs: seq<Component>)
    requires Clean(cs) && cs != []
    ensures Clean(cs[1..]) && if cs[0].Key? then CleanKey(cs[0].key) else cs[0].index <= U64_MAX
  {
    assert cs[0] in cs;
    forall c | c in cs[1..] ensures c in cs {}
  }

  /** What a printed tail begins with: nothing, a dot or a bracket. */
  lemma RestBegins(cs: seq<Component>)
    ensures PrintFrom(cs, false) == "" <==> cs == []
    ensures cs != [] ==> PrintFrom(cs, false)[0] == if cs[0].Key? then '.' else '['
  {}

  lemma {:induction false} IndexEndAt(path: string, i: nat, e: nat)
    requires i <= e < |path| && path[e] == ']' && forall j | i <= j < e :: IsDecimalDigit(path[j])
    ensures IndexEnd(path, i) == Some(e)
    decreases e - i
  {
    if i < e { IndexEndAt(path, i + 1, e); }
  }

  /** Where `path` continues with `a` and then `b`. */
  lemma Continues(path: string, pos: nat, a: string, b: string)
    requires pos <= |path| && path[pos..] == a + b
    ensures pos + |a| <= |path| && path[pos..pos + |a|] == a && path[pos + |a|..] == b
    ensures forall j | pos <= j < pos + |a| :: path[j] == a[j - pos]
    ensures b != "" ==> pos + |a| < |path| && path[pos + |a|] == b[0]
    ensures b == "" ==> pos + |a| == |path|
  {
    assert |path[pos..]| == |a| + |b|;
    assert forall j | 0 <= j < |a| :: path[pos + j] == path[pos..][j] == a[j];
    assert forall j | 0 <= j < |b| :: path[pos + |a| + j] == path[pos..][|a| + j] == b[j];
  }

  lemma IndexDigits(n: nat)
    ensures ToText(n, 10) != "" && forall c | c in ToText(n, 10) :: IsDecimalDigit(c)
  {
    TextRoundTrip(n, 10);
    hide ToText, FromText;
  }

  /** Where the bracket, the digits and the closing bracket of a printed index are. */
  lemma PrintedIndexParts(path: string, pos: nat, n: nat, rest: string)
    requires pos <= |path| && path[pos..] == Piece(Index(n), false) + rest
    ensures var digits := ToText(n, 10);
            var e := pos + 1 + |digits|;
            && e < |path| && path[pos] == '[' && path[e] == ']' && path[e + 1..] == rest
            && path[pos + 1..e] == digits && forall j | pos + 1 <= j < e :: IsDecimalDigit(path[j])
  {
    hide ToText, FromText, IsDecimalDigit;
    var digits := ToText(n, 10);
    IndexDigits(n);
    Assoc("[" + digits, "]", rest);
    Assoc("[", digits, "]" + rest);
    Continues(path, pos, "[", digits + ("]" + rest));
    Continues(path, pos + 1, digits, "]" + rest);
    Continues(path, pos + 1 + |digits|, "]", rest);
    forall j | pos + 1 <= j < pos + 1 + |digits| ensures IsDecimalDigit(path[j]) {
      assert path[j] == digits[j - (pos + 1)] && digits[j - (pos + 1)] in digits;
    }
  }

  /** A printed index is read back, up to behind its bracket. */
  lemma ReadPrintedIndex(path: string, pos: nat, n: nat, rest: string)
    requires pos <= |path| && path[pos..] == Piece(Index(n), false) + rest && n <= U64_MAX
    ensures var end := pos + 2 + |ToText(n, 10)|;
            && pos < end <= |path| && path[pos] == '[' && path[end..] == rest
            && ReadIndex(path, pos) == Some(IndexToken(n, end))
  {
    hide ToText, FromText, Piece;
    PrintedIndexParts(path, pos, n, rest);
    TextRoundTrip(n, 10);
    var e := pos + 1 + |ToText(n, 10)|;
    assert IndexStart(path, pos + 1) == Some(pos + 1);
    IndexEndAt(path, pos + 2, e);
    assert IndexAfter(path, e) == Some(e + 1);
  }

  lemma {:induction false} FindSpecialAt(path: string, i: nat, e: nat)
    requires i <= e <= |path| && (e < |path| ==> IsSpecial(path[e])) && forall j | i <= j < e :: !IsSpecial(path[j])
    ensures FindSpecial(path, i) == e
    decreases e - i
  {
    if i < e { FindSpecialAt(path, i + 1, e); }
  }

  lemma ScanIndex(path: string, pos: nat, n: nat, rest: string, afterIndex: bool, afterDot: bool)
    requires pos <= |path| && path[pos..] == Piece(Index(n), false) + rest && n <= U64_MAX
    ensures var end := pos + 2 + |ToText(n, 10)|;
            && pos < end <= |path| && path[end..] == rest
            && Scan(path, pos, afterIndex, afterDot) == Cons(Index(n), Scan(path, end, true, false))
  {
    hide ReadIndex, ToText, Piece;
    ReadPrintedIndex(path, pos, n, rest);
  }

  lemma ScanDot(path: string, pos: nat, rest: string, afterIndex: bool, afterDot: bool)
    requires pos <= |path| && path[pos..] == "." + rest
    ensures pos < |path| && path[pos + 1..] == rest
    ensures Scan(path, pos, afterIndex, afterDot) ==
            if afterDot then Cons(Key(""), Scan(path, pos + 1, false, true)) else Scan(path, pos + 1, false, true)
  {
    Continues(path, pos, ".", rest);
  }

  lemma ScanWord(path: string, pos: nat, k: string, rest: string, afterDot: bool)
    requires pos <= |path| && path[pos..] == k + rest && CleanKey(k) && k != "" && (rest != "" ==> IsSpecial(rest[0]))
    ensures pos + |k| <= |path| && path[pos + |k|..] == rest
    ensures Scan(path, pos, false, afterDot) == Cons(Key(k), Scan(path, pos + |k|, false, false))
  {
    Continues(path, pos, k, rest);
    forall j | pos <= j < pos + |k| ensures !IsSpecial(path[j]) { assert k[j - pos] in k; }
    FindSpecialAt(path, pos + 1, pos + |k|);
  }

  lemma {:induction false} ScanRest(path: string, pos: nat, cs: seq<Component>, afterIndex: bool)
    requires pos <= |path| && path[pos..] == PrintFrom(cs, false) && Clean(cs)
    ensures Scan(path, pos, afterIndex, false) == Parsed(DropLost(cs), true)
    decreases |cs|, 1
  {
    hide Scan, ToText, Clean, CleanKey, PrintFrom, DropLost, ReadIndex;
    PrintStep(cs, 0, false);
    if cs == [] {
      assert |path[pos..]| == 0;
      ScanEnds(path, afterIndex, false);
      DropLostCons(Key(""), cs);
    } else {
      CleanTail(cs);
      assert [cs[0]] + cs[1..] == cs;
      DropLostCons(cs[0], cs[1..]);
      match cs[0]
      case Key(k) =>
        Assoc(".", k, PrintFrom(cs[1..], false));
        ScanDot(path, pos, k + PrintFrom(cs[1..], false), afterIndex, false);
        ScanKey(path, pos + 1, k, cs[1..]);
      case Index(n) =>
        ScanIndex(path, pos, n, PrintFrom(cs[1..], false), afterIndex, false);
        ScanRest(path, pos + 2 + |ToText(n, 10)|, cs[1..], true);
    }
  }

  /** Behind a dot, or at the beginning. */
  lemma {:induction false} ScanKey(path: string, pos: nat, k: string, cs: seq<Component>)
    requires pos <= |path| && path[pos..] == k + PrintFrom(cs, false) && CleanKey(k) && Clean(cs)
    ensures Scan(path, pos, false, true) == Parsed(DropLost([Key(k)] + cs), true)
    decreases |cs|, 2
  {
    hide ToText, Clean, CleanKey, PrintFrom, Piece, DropLost;
    DropLostCons(Key(k), cs);
    RestBegins(cs);
    if k == "" && cs == [] {
      assert path[pos..] == "" && pos == |path|;
    } else {
      hide Scan;
      if k != "" {
        ScanWord(path, pos, k, PrintFrom(cs, false), true);
        ScanRest(path, pos + |k|, cs, false);
      } else {
        ScanEmptyKey(path, pos, cs);
      }
    }
  }

  lemma {:induction false} ScanEmptyKey(path: string, pos: nat, cs: seq<Component>)
    requires pos <= |path| && path[pos..] == PrintFrom(cs, false) && Clean(cs) && cs != []
    ensures Scan(path, pos, false, true) == Parsed(DropLost([Key("")] + cs), true)
    decreases |cs|, 0
  {
    hide Scan, ToText, Clean, CleanKey, PrintFrom, DropLost;
    CleanTail(cs);
    assert [cs[0]] + cs[1..] == cs;
    DropLostCons(Key(""), cs);
    DropLostCons(cs[0], cs[1..]);
    PrintStep(cs, 0, false);
    match cs[0]
    case Key(k) =>
      Assoc(".", k, PrintFrom(cs[1..], false));
      ScanDot(path, pos, k + PrintFrom(cs[1..], false), false, true);
      ScanKey(path, pos + 1, k, cs[1..]);
    case Index(n) =>
      ScanIndex(path, pos, n, PrintFrom(cs[1..], false), false, true);
      ScanRest(path, pos + 2 + |ToText(n, 10)|, cs[1..], true);
  }

  /** Printed clean components are read back without the empty keys before an index. */
  lemma ParsePrinted(cs: seq<Component>)
    requires Clean(cs) && cs != []
    ensures Parse(Print(cs)) == Parsed(DropLost(cs), true)
  {
    hide Scan, ToText, Clean, CleanKey, PrintFrom;
    var path := Print(cs);
    CleanTail(cs);
    RestBegins(cs[1..]);
    PrintStep(cs, 0, true);
    assert path[0..] == path && [cs[0]] + cs[1..] == cs;
    match cs[0]
    case Key(k) =>
      if path == "" {
        assert cs == [Key("")] && DropLost(cs[1..]) == [];
      } else {
        ScanKey(path, 0, k, cs[1..]);
      }
    case Index(n) =>
      ScanIndex(path, 0, n, PrintFrom(cs[1..], false), false, true);
      ScanRest(path, 2 + |ToText(n, 10)|, cs[1..], true);
  }

  /** Every key that is read from a path is free of structuring characters. */
  lemma {:induction false} ScanIsClean(path: string, pos: nat, afterIndex: bool, afterDot: bool)
    requires pos <= |path|
    ensures Clean(Scan(path, pos, afterIndex, afterDot).comps)
    decreases |path| - pos
  {
    if pos < |path| {
      if path[pos] == '[' {
        var t := ReadIndex(path, pos);
        if t.Some? { ScanIsClean(path, t.value.after, true, false); }
      } else if path[pos] == '.' {
        ScanIsClean(path, pos + 1, false, true);
      } else if path[pos] != ']' {
        var e := FindSpecial(path, pos + 1);
        ScanIsClean(path, e, false, false);
        assert CleanKey(path[pos..e]) by {
          forall c | c in path[pos..e] ensures !IsSpecial(c) {
            var j :| pos <= j < e && path[j] == c;
          }
        }
      }
    }
  }

  /**
    Parsing what was printed gives the components back exactly if there are any, the keys are
    free of dots and brackets, and no empty key comes directly before an index.
  */
  lemma PathRoundTrip(cs: seq<Component>)
    requires forall c | c in cs :: c.Index? ==> c.index <= U64_MAX
    ensures Parse(Print(cs)) == Parsed(cs, true) <==> cs != [] && Clean(cs) && NothingLost(cs)
  {
    if cs != [] && Clean(cs) {
      ParsePrinted(cs);
      DropLostLength(cs);
    } else if cs != [] {
      if Print(cs) != "" { ScanIsClean(Print(cs), 0, false, true); }
    }
  }

  // ---------------------------------------------------------------- following a path

  /** `table::get`: the value under a key. */
  function Get(es: seq<Entry>, key: string): Option<Value> {
    if es == [] then None
    else if es[0].key == key then Some(es[0].value)
    else Get(es[1..], key)
  }

  function Child(v: Value, c: Component): Option<Value> {
    match c
    case Key(k) => if v.Table? then Get(v.entries, k) else None
    case Index(i) => if v.Array? && i < |v.elems| then Some(v.elems[i]) else None
  }

  /** The node that components lead to. */
  function Follow(v: Value, cs: seq<Component>): Option<Value>
    decreases |cs|
  {
    if cs == [] then Some(v) else
      var c := Child(v, cs[0]);
      if c.None? then None else Follow(c.value, cs[1..])
  }

  /** The sanity checks both walks begin with. */
  predicate Hopeless(root: Value) {
    !(root.Table? || root.Array?) || IsEmpty(root)
  }

  /** What callbacks make of a state, component by component; `None` once one of them declines. */
  function Fold<S>(step: (S, Component) -> Option<S>, s: S, cs: seq<Component>): Option<S>
    decreases |cs|
  {
    if cs == [] then Some(s) else
      var n := step(s, cs[0]);
      if n.None? then None else Fold(step, n.value, cs[1..])
  }

  function Outcome<S>(step: (S, Component) -> Option<S>, s: S, p: Parsed): Option<S> {
    if p.ok then Fold(step, s, p.comps) else None
  }

  lemma OutcomeCons<S>(step: (S, Component) -> Option<S>, s: S, c: Component, p: Parsed)
    ensures Outcome(step, s, Cons(c, p)) == var n := step(s, c); if n.None? then None else Outcome(step, n.value, p)
  {
    assert ([c] + p.comps)[1..] == p.comps;
  }

  method IndexStartLoop(path: string, from: nat) returns (r: Option<nat>)
    ensures r == IndexStart(path, from)
  {
    var i := from;
    while true
      invariant IndexStart(path, from) == IndexStart(path, i)
      decreases |path| - i
    {
      if i >= |path| { return None; }
      var c := path[i];
      if IsDecimalDigit(c) { return Some(i); }
      if !IsSpaceOrTab(c) { return None; }
      i := i + 1;
    }
  }

  method IndexEndLoop(path: string, from: nat) returns (r: Option<nat>)
    requires from <= |path|
    ensures r == IndexEnd(path, from)
  {
    var i := from;
    while i < |path|
      invariant i <= |path| && IndexEnd(path, from) == IndexEnd(path, i)
    {
      var c := path[i];
      if IsDecimalDigit(c) {
        i := i + 1;
      } else if IsSpaceOrTab(c) || IsSpecial(c) {
        break;
      } else {
        return None;
      }
    }
    return Some(i);
  }

  method IndexAfterLoop(path: string, from: nat) returns (r: Option<nat>)
    requires from <= |path|
    ensures r == IndexAfter(path, from)
  {
    var i := from;
    while i < |path|
      invariant i <= |path| && IndexAfter(path, from) == IndexAfter(path, i)
    {
      var c := path[i];
      if c == ']' {
        return Some(i + 1);
      } else if c == '.' || c == '[' {
        break;
      } else if IsSpaceOrTab(c) {
        i := i + 1;
      } else {
        return None;
      }
    }
    return Some(i);
  }

  /** The branch of `parse_path` for an opening bracket. */
  method ReadIndexAt(path: string, pos: nat) returns (t: Option<IndexToken>)
    requires pos < |path|
    ensures t == ReadIndex(path, pos)
  {
    hide IndexStart, IndexEnd, IndexAfter;
    var start := IndexStartLoop(path, pos + 1);
    if start.None? { return None; }
    var end := IndexEndLoop(path, start.value + 1);
    if end.None? { return None; }
    var after := IndexAfterLoop(path, end.value);
    if after.None? { return None; }
    var digits := path[start.value..end.value];
    assert AllDigitChars(digits, 10);
    var index := FromText(digits, 10);
    return if index > U64_MAX then None else Some(IndexToken(index, after.value));
  }

  /** What one round of the loop reads: perhaps a component, and where and how to go on. */
  datatype Token = Token(component: Option<Component>, after: nat, afterIndex: bool, afterDot: bool)

  /** The body of the loop of `parse_path`, up to the callback. */
  method NextToken(path: string, pos: nat, afterIndex: bool, afterDot: bool) returns (t: Option<Token>)
    requires pos < |path|
    ensures t.None? ==> Scan(path, pos, afterIndex, afterDot) == Malformed
    ensures t.Some? ==>
              && pos < t.value.after <= |path|
              && var rest := Scan(path, t.value.after, t.value.afterIndex, t.value.afterDot);
                 Scan(path, pos, afterIndex, afterDot)
                 == if t.value.component.Some? then Cons(t.value.component.value, rest) else rest
  {
    hide ReadIndex, Cons, FindSpecial;
    if path[pos] == '[' {
      var i := ReadIndexAt(path, pos);
      if i.None? { return None; }
      return Some(Token(Some(Index(i.value.value)), i.value.after, true, false));
    } else if path[pos] == '.' {
      return Some(Token(if afterDot then Some(Key("")) else None, pos + 1, false, true));
    } else if path[pos] == ']' {
      return None;
    }
    var end := FindSpecial(path, pos + 1);
    var word := path[pos..end];
    if !afterIndex {
      return Some(Token(Some(Key(word)), end, false, false));
    }
    if !AllBlank(word) { return None; }
    return Some(Token(None, end, false, false));
  }

  /**
    `parse_path` with its callbacks: every component is handed to `step` as it is read, and the
    walk stops where `step` declines or the path is malformed.
  */
  method ParsePath<S>(path: string, s0: S, step: (S, Component) -> Option<S>) returns (r: Option<S>)
    ensures r == Outcome(step, s0, Parse(path))
  {
    hide Fold, Outcome, Cons, Scan;
    if path == "" {
      OutcomeLast(step, s0, Key(""));
      r := step(s0, Key(""));
      return;
    }
    var s, pos, afterIndex, afterDot := s0, 0, false, true;
    while pos < |path|
      invariant pos <= |path|
      invariant Outcome(step, s0, Parse(path)) == Outcome(step, s, Scan(path, pos, afterIndex, afterDot))
      decreases |path| - pos
    {
      var t := NextToken(path, pos, afterIndex, afterDot);
      OutcomeEnds(step, s);
      if t.None? { return None; }
      pos, afterIndex, afterDot := t.value.after, t.value.afterIndex, t.value.afterDot;
      if t.value.component.Some? {
        OutcomeCons(step, s, t.value.component.value, Scan(path, pos, afterIndex, afterDot));
        var n := step(s, t.value.component.value);
        if n.None? { return None; }
        s := n.value;
      }
    }
    ScanEnds(path, afterIndex, afterDot);
    if afterDot {
      OutcomeLast(step, s, Key(""));
      r := step(s, Key(""));
      return;
    }
    OutcomeEnds(step, s);
    return Some(s);
  }

  lemma ScanEnds(path: string, afterIndex: bool, afterDot: bool)
    ensures Scan(path, |path|, afterIndex, afterDot) == Parsed(if afterDot then [Key("")] else [], true)
  {}

  lemma OutcomeEnds<S>(step: (S, Component) -> Option<S>, s: S)
    ensures Outcome(step, s, Malformed) == None
    ensures Outcome(step, s, Parsed([], true)) == Some(s)
  {}

  lemma OutcomeLast<S>(step: (S, Component) -> Option<S>, s: S, c: Component)
    ensures Outcome(step, s, Parsed([c], true)) == step(s, c)
  {
    var n := step(s, c);
    assert [c][1..] == [];
    if n.Some? { OutcomeEnds(step, n.value); }
  }

  // ---------------------------------------------------------------- the two walks

  const Collect: (seq<Component>, Component) -> Option<seq<Component>> := (cs, c) => Some(cs + [c])

  lemma {:induction false} CollectAll(cs: seq<Component>, more: seq<Component>)
    ensures Fold(Collect, cs, more) == Some(cs + more)
    decreases |more|
  {
    if more == [] {
      assert cs + [] == cs;
    } else {
      CollectAll(cs + [more[0]], more[1..]);
      assert cs + [more[0]] + more[1..] == cs + more;
    }
  }

  /** The components of a text; a malformed text has none. */
  function ComponentsOf(text: string): seq<Component> {
    if Parse(text).ok then Parse(text).comps else []
  }

  /** The constructor of `path` from text: the components, or none at all if the text is malformed. */
  method PathOf(text: string) returns (cs: seq<Component>)
    ensures cs == ComponentsOf(text)
  {
    var r := ParsePath(text, [], Collect);
    CollectAll([], Parse(text).comps);
    assert [] + Parse(text).comps == Parse(text).comps;
    cs := if r.Some? then r.value else [];
  }

  lemma {:induction false} FoldFollows(v: Value, cs: seq<Component>)
    ensures Fold(Child, v, cs) == Follow(v, cs)
    decreases |cs|
  {
    if cs != [] && Child(v, cs[0]).Some? {
      FoldFollows(Child(v, cs[0]).value, cs[1..]);
    }
  }

  /** The walk that follows a node while a text is being read. */
  function TextWalk(root: Value, text: string): Option<Value> {
    if Hopeless(root) then None else Outcome(Child, root, Parse(text))
  }

  /** The walk over components. */
  function ComponentWalk(root: Value, cs: seq<Component>): Option<Value> {
    if Hopeless(root) then None else Follow(root, cs)
  }

  /** `at_path` with text. */
  method AtText(root: Value, text: string) returns (node: Option<Value>)
    ensures node == TextWalk(root, text)
  {
    if Hopeless(root) { return None; }
    node := ParsePath(text, root, Child);
  }

  /** `at_path` with components. */
  method AtComponents(root: Value, cs: seq<Component>) returns (node: Option<Value>)
    ensures node == ComponentWalk(root, cs)
  {
    if Hopeless(root) { return None; }
    var current := root;
    for i := 0 to |cs|
      invariant Follow(root, cs) == Follow(current, cs[i..])
    {
      assert cs[i..][0] == cs[i] && cs[i..][1..] == cs[i + 1..];
      var next := Child(current, cs[i]);
      if next.None? { return None; }
      current := next.value;
    }
    return Some(current);
  }

  /**
    The walk driven by text and the walk over the components of that text agree exactly if the
    text is a path or there is nothing to find: a malformed text has no components, and those
    lead to the root.
  */
  lemma WalksAgree(root: Value, text: string)
    ensures TextWalk(root, text) == ComponentWalk(root, ComponentsOf(text)) <==> Parse(text).ok || Hopeless(root)
  {
    FoldFollows(root, Parse(text).comps);
  }
}
