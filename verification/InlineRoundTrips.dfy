/** Which printed values of `toml.hpp` are read back: values, arrays and inline tables. */
module InlineRoundTrips {
  import opened Characters
  import opened DateTimes
  import opened InlineGrammar
  import opened InlinePrinters
  import opened Integers
  import opened Keys
  import Paths
  import opened PrintedNumbers
  import opened StringParser
  import opened StringPrinter
  import opened StringRoundTrips
  import opened TomlValues
  import opened ValueKinds
  import opened Wrappers

  // ---------------------------------------------------------------- equality

  /** A value without the formats of its integers, which equality does not look at. */
  function Unformatted(v: Value): Value {
    match v
    case Integer(n, _) => Integer(n, Decimal)
    case Array(es) => Array(UnformattedAll(es))
    case Table(es) => Table(UnformattedEntries(es))
    case _ => v
  }

  function UnformattedAll(vs: seq<Value>): (us: seq<Value>)
    ensures |us| == |vs|
  {
    if vs == [] then [] else [Unformatted(vs[0])] + UnformattedAll(vs[1..])
  }

  function UnformattedEntries(es: seq<Entry>): (us: seq<Entry>)
    ensures |us| == |es|
  {
    if es == [] then [] else [Entry(es[0].key, Unformatted(es[0].value))] + UnformattedEntries(es[1..])
  }

  /** `operator==`: `array::equal` and `table::equal` all the way down. */
  predicate Equal(v: Value, w: Value) {
    Unformatted(v) == Unformatted(w)
  }

  lemma {:induction false} UnformattedAt(vs: seq<Value>, i: nat)
    requires i < |vs|
    ensures UnformattedAll(vs)[i] == Unformatted(vs[i])
  {
    if i > 0 { UnformattedAt(vs[1..], i - 1); }
  }

  lemma {:induction false} UnformattedEntryAt(es: seq<Entry>, i: nat)
    requires i < |es|
    ensures UnformattedEntries(es)[i] == Entry(es[i].key, Unformatted(es[i].value))
  {
    if i > 0 { UnformattedEntryAt(es[1..], i - 1); }
  }

  /** The comparison of two values of any kind. */
  method EqualValues(lhs: Value, rhs: Value) returns (equal: bool)
    ensures equal <==> Equal(lhs, rhs)
    decreases lhs, 1
  {
    hide UnformattedAll, UnformattedEntries;
    match lhs
    case Integer(n, _) => equal := rhs.Integer? && n == rhs.n;
    case Array(_) =>
      if !rhs.Array? { return false; }
      equal := EqualArrays(lhs, rhs);
    case Table(_) =>
      if !rhs.Table? { return false; }
      equal := EqualTables(lhs, rhs);
    case _ => equal := lhs == rhs;
  }

  /** `array::equal`. */
  method EqualArrays(lhs: Value, rhs: Value) returns (equal: bool)
    requires lhs.Array? && rhs.Array?
    ensures equal <==> Equal(lhs, rhs)
    decreases lhs, 0
  {
    hide UnformattedAll;
    if |lhs.elems| != |rhs.elems| { return false; }
    for i := 0 to |lhs.elems|
      invariant forall j | 0 <= j < i :: Equal(lhs.elems[j], rhs.elems[j])
    {
      var e := EqualValues(lhs.elems[i], rhs.elems[i]);
      if !e {
        UnformattedAt(lhs.elems, i);
        UnformattedAt(rhs.elems, i);
        return false;
      }
    }
    forall j | 0 <= j < |lhs.elems| ensures UnformattedAll(lhs.elems)[j] == UnformattedAll(rhs.elems)[j] {
      UnformattedAt(lhs.elems, j);
      UnformattedAt(rhs.elems, j);
      assert Equal(lhs.elems[j], rhs.elems[j]);
    }
    assert UnformattedAll(lhs.elems) == UnformattedAll(rhs.elems);
    return true;
  }

  /** `table::equal`, which walks both maps in their order. */
  method EqualTables(lhs: Value, rhs: Value) returns (equal: bool)
    requires lhs.Table? && rhs.Table?
    ensures equal <==> Equal(lhs, rhs)
    decreases lhs, 0
  {
    hide UnformattedEntries;
    if |lhs.entries| != |rhs.entries| { return false; }
    for i := 0 to |lhs.entries|
      invariant forall j | 0 <= j < i ::
                  lhs.entries[j].key == rhs.entries[j].key && Equal(lhs.entries[j].value, rhs.entries[j].value)
    {
      UnformattedEntryAt(lhs.entries, i);
      UnformattedEntryAt(rhs.entries, i);
      if lhs.entries[i].key != rhs.entries[i].key { return false; }
      var e := EqualValues(lhs.entries[i].value, rhs.entries[i].value);
      if !e { return false; }
    }
    forall j | 0 <= j < |lhs.entries| ensures UnformattedEntries(lhs.entries)[j] == UnformattedEntries(rhs.entries)[j] {
      UnformattedEntryAt(lhs.entries, j);
      UnformattedEntryAt(rhs.entries, j);
      assert Equal(lhs.entries[j].value, rhs.entries[j].value);
    }
    assert UnformattedEntries(lhs.entries) == UnformattedEntries(rhs.entries);
    return true;
  }

  // ---------------------------------------------------------------- the conditions

  /** The keys of a table, in the order of its map. */
  predicate Ascending(es: seq<Entry>) {
    forall i, j | 0 <= i < j < |es| :: Less(es[i].key, es[j].key)
  }

  /** What a node can hold, apart from floats: 64-bit integers, valid dates and times, ordered tables. */
  predicate IsStorable(v: Value) {
    match v
    case Integer(n, _) => FitsI64(n)
    case Boolean(_) => true
    case String(_) => true
    case LocalDate(d) => IsDate(d)
    case LocalTime(t) => IsTime(t)
    case Moment(m) => IsMoment(m)
    case Float(_) => false
    case Array(es) => AreStorable(es)
    case Table(es) => Ascending(es) && EntriesStorable(es)
  }

  predicate AreStorable(es: seq<Value>) {
    es == [] || (IsStorable(es[0]) && AreStorable(es[1..]))
  }

  predicate EntriesStorable(es: seq<Entry>) {
    es == [] || (IsStorable(es[0].value) && EntriesStorable(es[1..]))
  }

  function Depth(v: Value): (d: nat)
    ensures d >= 1
  {
    match v
    case Array(es) => 1 + DepthOfAll(es)
    case Table(es) => 1 + DepthOfEntries(es)
    case _ => 1
  }

  function DepthOfAll(es: seq<Value>): nat {
    if es == [] then 0 else Max(Depth(es[0]), DepthOfAll(es[1..]))
  }

  function DepthOfEntries(es: seq<Entry>): nat {
    if es == [] then 0 else Max(Depth(es[0].value), DepthOfEntries(es[1..]))
  }

  function Max(a: nat, b: nat): nat {
    if a < b then b else a
  }

  predicate StringIsLost(cfg: Config, s: string) {
    IsLost(s, StyleOf(s, VALUE_USE, cfg.strings))
  }

  /** Some string in a value is printed over many lines in a way that is not read back. */
  predicate HasLost(cfg: Config, v: Value) {
    match v
    case String(s) => StringIsLost(cfg, s)
    case Array(es) => AnyLost(cfg, es)
    case Table(es) => AnyEntryLost(cfg, es)
    case _ => false
  }

  predicate AnyLost(cfg: Config, es: seq<Value>) {
    es != [] && (HasLost(cfg, es[0]) || AnyLost(cfg, es[1..]))
  }

  predicate AnyEntryLost(cfg: Config, es: seq<Entry>) {
    es != [] && (HasLost(cfg, es[0].value) || AnyEntryLost(cfg, es[1..]))
  }

  /** A value that can be read back inside `nested` others. */
  predicate IsGood(cfg: Config, v: Value, nested: nat) {
    nested + Depth(v) <= MAX_NESTED_VALUES && !HasLost(cfg, v)
  }

  predicate AreGood(cfg: Config, es: seq<Value>, nested: nat) {
    nested + DepthOfAll(es) <= MAX_NESTED_VALUES && !AnyLost(cfg, es)
  }

  predicate EntriesGood(cfg: Config, es: seq<Entry>, nested: nat) {
    nested + DepthOfEntries(es) <= MAX_NESTED_VALUES && !AnyEntryLost(cfg, es)
  }

  predicate IsBlankText(s: string) {
    forall c | c in s :: c == ' ' || c == '\t' || c == '\n'
  }

  predicate HasBlankIndent(cfg: Config) {
    forall c | c in cfg.indent :: IsSpaceOrTab(c)
  }

  // ---------------------------------------------------------------- what is read back

  /** The value that is read: integers keep the format they were printed in. */
  function Reread(cfg: Config, v: Value): Value {
    match v
    case Integer(n, f) => Integer(n, FormatOf(PrintBase(n, f, cfg.ints)))
    case Array(es) => Array(RereadAll(cfg, es))
    case Table(es) => Table(RereadEntries(cfg, es))
    case _ => v
  }

  function RereadAll(cfg: Config, es: seq<Value>): seq<Value> {
    if es == [] then [] else [Reread(cfg, es[0])] + RereadAll(cfg, es[1..])
  }

  function RereadEntries(cfg: Config, es: seq<Entry>): seq<Entry> {
    if es == [] then [] else [Entry(es[0].key, Reread(cfg, es[0].value))] + RereadEntries(cfg, es[1..])
  }

  lemma {:induction false} RereadIsEqual(cfg: Config, v: Value)
    ensures Equal(Reread(cfg, v), v)
    decreases v, 1
  {
    match v
    case Array(es) => RereadAllEqual(cfg, es);
    case Table(es) => RereadEntriesEqual(cfg, es);
    case _ =>
  }

  lemma {:induction false} RereadAllEqual(cfg: Config, es: seq<Value>)
    ensures UnformattedAll(RereadAll(cfg, es)) == UnformattedAll(es)
    decreases es, 0
  {
    if es != [] {
      RereadIsEqual(cfg, es[0]);
      RereadAllEqual(cfg, es[1..]);
      assert RereadAll(cfg, es)[1..] == RereadAll(cfg, es[1..]);
    }
  }

  lemma {:induction false} RereadEntriesEqual(cfg: Config, es: seq<Entry>)
    ensures UnformattedEntries(RereadEntries(cfg, es)) == UnformattedEntries(es)
    decreases es, 0
  {
    if es != [] {
      RereadIsEqual(cfg, es[0].value);
      RereadEntriesEqual(cfg, es[1..]);
      assert RereadEntries(cfg, es)[1..] == RereadEntries(cfg, es[1..]);
    }
  }

  /** The flags let every integer of a value be printed in its format. */
  predicate KeepsFormats(cfg: Config, v: Value) {
    match v
    case Integer(n, f) => f == Decimal || (n >= 0 && Allows(cfg.ints, f))
    case Array(es) => AllKeepFormats(cfg, es)
    case Table(es) => EntriesKeepFormats(cfg, es)
    case _ => true
  }

  predicate AllKeepFormats(cfg: Config, es: seq<Value>) {
    es == [] || (KeepsFormats(cfg, es[0]) && AllKeepFormats(cfg, es[1..]))
  }

  predicate EntriesKeepFormats(cfg: Config, es: seq<Entry>) {
    es == [] || (KeepsFormats(cfg, es[0].value) && EntriesKeepFormats(cfg, es[1..]))
  }

  /** The very same value is read, formats included, exactly if the flags let every integer keep its own. */
  lemma {:induction false} FormatsAreKept(cfg: Config, v: Value)
    ensures Reread(cfg, v) == v <==> KeepsFormats(cfg, v)
    decreases v, 1
  {
    match v
    case Array(es) => AllFormatsKept(cfg, es);
    case Table(es) => EntryFormatsKept(cfg, es);
    case _ =>
  }

  lemma {:induction false} AllFormatsKept(cfg: Config, es: seq<Value>)
    ensures RereadAll(cfg, es) == es <==> AllKeepFormats(cfg, es)
    decreases es, 0
  {
    if es != [] {
      FormatsAreKept(cfg, es[0]);
      AllFormatsKept(cfg, es[1..]);
      assert RereadAll(cfg, es)[1..] == RereadAll(cfg, es[1..]) && es == [es[0]] + es[1..];
    }
  }

  lemma {:induction false} EntryFormatsKept(cfg: Config, es: seq<Entry>)
    ensures RereadEntries(cfg, es) == es <==> EntriesKeepFormats(cfg, es)
    decreases es, 0
  {
    if es != [] {
      FormatsAreKept(cfg, es[0].value);
      EntryFormatsKept(cfg, es[1..]);
      assert RereadEntries(cfg, es)[1..] == RereadEntries(cfg, es[1..]) && es == [es[0]] + es[1..];
    }
  }

  /** What a read gives: the value itself if it is good, otherwise nothing or another value. */
  predicate ReadsBack(r: Option<Parsed<Value>>, cfg: Config, v: Value, good: bool, end: nat) {
    if good then r == Some(Parsed(Reread(cfg, v), end)) else r.Some? ==> !Equal(r.value.value, v)
  }

  // ---------------------------------------------------------------- blanks

  predicate IsValueStart(c: char) {
    BeginsNumber(c) || c == 't' || c == 'f' || c == '[' || c == '{' || IsDelimiter(c)
  }

  lemma BlankStep(text: string, pos: nat)
    requires pos < |text| && (text[pos] == ' ' || text[pos] == '\t' || text[pos] == '\n')
    ensures BlanksEnd(text, pos) == BlanksEnd(text, pos + 1)
  {
    hide LineBreakAt, CommentEnd, IsForeignSpace;
    SpaceStep(text, pos);
    if text[pos] == '\n' { assert LineBreakAt(text, pos) == Broken(pos + 1) by { NewLine(text, pos); } }
  }

  lemma NewLine(text: string, pos: nat)
    requires pos < |text| && text[pos] == '\n'
    ensures LineBreakAt(text, pos) == Broken(pos + 1)
  {}

  lemma SpaceStep(text: string, pos: nat)
    requires pos < |text|
    ensures IsSpaceOrTab(text[pos]) ==> SpacesEnd(text, pos) == SpacesEnd(text, pos + 1)
    ensures text[pos] == '\n' ==> SpacesEnd(text, pos) == Some(pos)
  {}

  lemma NotBlank(text: string, pos: nat)
    requires pos < |text| && (IsValueStart(text[pos]) || text[pos] == ']' || text[pos] == ',' || text[pos] == '}')
    ensures BlanksEnd(text, pos) == Some(pos) && SpacesEnd(text, pos) == Some(pos)
  {}

  lemma {:induction false} BlanksSkipped(text: string, pos: nat, ws: string)
    requires At(text, pos, ws) && IsBlankText(ws)
    requires pos + |ws| < |text| && BlanksEnd(text, pos + |ws|) == Some(pos + |ws|)
    ensures pos <= |text| && BlanksEnd(text, pos) == Some(pos + |ws|)
    decreases |ws|
  {
    hide BlanksEnd, At;
    if ws != "" {
      assert ws == [ws[0]] + ws[1..] && ws[0] in ws;
      AtConcat(text, pos, [ws[0]], ws[1..]);
      AtChar(text, pos, ws[0]);
      forall c | c in ws[1..] ensures c in ws {}
      BlanksSkipped(text, pos + 1, ws[1..]);
      BlankStep(text, pos);
    }
  }

  lemma {:induction false} IndentationIsBlank(cfg: Config, n: int)
    requires HasBlankIndent(cfg)
    ensures IsBlankText(Indentation(cfg, n))
    decreases if n > 0 then n else 0
  {
    if n > 0 { IndentationIsBlank(cfg, n - 1); }
  }

  lemma LineStartIsBlank(cfg: Config, n: int)
    requires HasBlankIndent(cfg)
    ensures IsBlankText(LineStart(cfg, n)) && LineStart(cfg, n)[0] == '\n'
  {
    IndentationIsBlank(cfg, n);
  }

  // ---------------------------------------------------------------- scalars

  lemma BooleanReads(text: string, pos: nat, b: bool)
    requires At(text, pos, if b then "true" else "false") && EndsAt(text, pos + if b then 4 else 5)
    ensures pos < |text| && text[pos] == (if b then 't' else 'f')
    ensures BooleanAt(text, pos) == Some(Parsed(Boolean(b), pos + if b then 4 else 5))
  {
    AtCharOf(text, pos, if b then "true" else "false", 0);
  }

  lemma DispatchesNumber(src: Source, pos: nat, nested: nat)
    requires pos < |src.text| && BeginsNumber(src.text[pos])
    ensures ValueAt(src, pos, nested) == if nested + 1 > MAX_NESTED_VALUES then None else NumberAt(src, pos)
  {
    hide NumberAt, StringAt;
  }

  lemma DispatchesBoolean(src: Source, pos: nat, nested: nat)
    requires pos < |src.text| && (src.text[pos] == 't' || src.text[pos] == 'f')
    ensures ValueAt(src, pos, nested) == if nested + 1 > MAX_NESTED_VALUES then None else BooleanAt(src.text, pos)
  {
    hide NumberAt, StringAt, BooleanAt;
  }

  lemma DispatchesString(src: Source, pos: nat, nested: nat)
    requires pos < |src.text| && IsDelimiter(src.text[pos])
    ensures ValueAt(src, pos, nested) ==
            var s := StringAt(src.text, pos);
            if nested + 1 > MAX_NESTED_VALUES || s.None? then None
            else Some(Parsed(String(s.value.value.value), s.value.after))
  {
    hide NumberAt, StringAt, BooleanAt;
  }

  lemma NoDelimiterAtEnd(text: string, pos: nat)
    requires EndsAt(text, pos)
    ensures NoDelimiterAt(text, pos)
  {}

  lemma StringReads(src: Source, pos: nat, cfg: Config, s: string, nested: nat)
    requires At(src.text, pos, StringText(s, VALUE_USE, cfg.strings))
    requires EndsAt(src.text, pos + |StringText(s, VALUE_USE, cfg.strings)|)
    ensures pos < |src.text| && IsDelimiter(src.text[pos])
    ensures ReadsBack(ValueAt(src, pos, nested), cfg, String(s), IsGood(cfg, String(s), nested),
                      pos + |StringText(s, VALUE_USE, cfg.strings)|)
  {
    hide StringText, StyleOf, StringAt, ValueAt, At, EndsAt, IsLost, IsBareText;
    NoDelimiterAtEnd(src.text, pos + |StringText(s, VALUE_USE, cfg.strings)|);
    NeverBare(s, cfg);
    StringRoundTrip(src.text, pos, s, VALUE_USE, cfg.strings);
    DispatchesString(src, pos, nested);
  }

  lemma NeverBare(s: string, cfg: Config)
    ensures !StyleOf(s, VALUE_USE, cfg.strings).Bare?
  {
    hide HasControl, HasNonAscii, IsBareText;
  }

  lemma ScalarReads(src: Source, pos: nat, cfg: Config, v: Value, nested: nat)
    requires IsStorable(v) && !v.Array? && !v.Table?
    requires At(src.text, pos, ScalarText(cfg, v)) && ValueEndsAt(src.text, pos + |ScalarText(cfg, v)|)
    ensures pos < |src.text| && IsValueStart(src.text[pos])
    ensures ReadsBack(ValueAt(src, pos, nested), cfg, v, IsGood(cfg, v, nested), pos + |ScalarText(cfg, v)|)
  {
    hide At, ValueAt, NumberAt, BeginsNumber, IntegerText, StringText, DateText, TimeText, MomentText, EndsAt,
      IsDate, IsTime, IsMoment, StringIsLost, FormatOf;
    match v
    case Integer(n, f) =>
      IntegerReads(src, pos, n, PrintBase(n, f, cfg.ints));
      DispatchesNumber(src, pos, nested);
    case Boolean(b) =>
      BooleanReads(src.text, pos, b);
      DispatchesBoolean(src, pos, nested);
    case String(s) =>
      StringReads(src, pos, cfg, s, nested);
    case LocalDate(d) =>
      DateReads(src, pos, d);
      DispatchesNumber(src, pos, nested);
    case LocalTime(t) =>
      TimeReads(src, pos, t);
      DispatchesNumber(src, pos, nested);
    case Moment(m) =>
      MomentReads(src, pos, m);
      DispatchesNumber(src, pos, nested);
  }

  // ---------------------------------------------------------------- arrays

  /** What is printed behind the elements of an array. */
  function Close(cfg: Config, multi: bool, outer: int): string {
    (if multi then LineStart(cfg, outer) else " ") + "]"
  }

  predicate AllReadBack(r: Option<Parsed<seq<Value>>>, cfg: Config, es: seq<Value>, good: bool, end: nat) {
    if good then r == Some(Parsed(RereadAll(cfg, es), end))
    else r.Some? ==> UnformattedAll(r.value.value) != UnformattedAll(es)
  }

  lemma ElementsBlank(src: Source, pos: nat, nested: nat, last: Last)
    requires pos < |src.text| && src.text[pos] == ' '
    ensures ElementsAt(src, pos, nested, last) == ElementsAt(src, pos + 1, nested, last)
  {
    hide BlanksEnd, ValueAt;
    BlankStep(src.text, pos);
  }

  lemma ElementStep(src: Source, pos: nat, q: nat, nested: nat, last: Last)
    requires pos <= q < |src.text| && BlanksEnd(src.text, pos) == Some(q)
    requires IsValueStart(src.text[q]) && last != Element
    ensures ElementsAt(src, pos, nested, last) ==
            var v := ValueAt(src, q, nested);
            if v.None? then None else PrependValue(v.value.value, ElementsAt(src, v.value.after, nested, Element))
  {
    hide BlanksEnd, ValueAt;
  }

  lemma CommaStep(src: Source, pos: nat, nested: nat)
    requires pos + 1 < |src.text| && src.text[pos] == ','
    ensures ElementsAt(src, pos, nested, Element) == ElementsAt(src, pos + 1, nested, Comma)
  {
    NotBlank(src.text, pos);
    hide BlanksEnd, ValueAt;
  }

  lemma CloseRead(src: Source, pos: nat, cfg: Config, multi: bool, outer: int, nested: nat, last: Last)
    requires HasBlankIndent(cfg) && At(src.text, pos, Close(cfg, multi, outer))
    ensures pos <= |src.text|
    ensures ElementsAt(src, pos, nested, last) == Some(Parsed([], pos + |Close(cfg, multi, outer)|))
  {
    hide BlanksEnd, ValueAt, LineStart, At;
    var ws := if multi then LineStart(cfg, outer) else " ";
    LineStartIsBlank(cfg, outer);
    AtConcat(src.text, pos, ws, "]");
    AtChar(src.text, pos + |ws|, ']');
    NotBlank(src.text, pos + |ws|);
    BlanksSkipped(src.text, pos, ws);
  }

  /** What follows an element ends it, and is not the time of a date. */
  lemma ElementEnds(text: string, pos: nat, cfg: Config, rest: seq<Value>, multi: bool, inner: int, outer: int)
    requires At(text, pos, ElementsText(cfg, rest, false, multi, inner) + Close(cfg, multi, outer))
    ensures ValueEndsAt(text, pos)
  {
    hide ValueText, Indentation;
    var s := ElementsText(cfg, rest, false, multi, inner) + Close(cfg, multi, outer);
    AtCharOf(text, pos, s, 0);
    AtCharOf(text, pos, s, 1);
  }

  lemma LeadParts(cfg: Config, first: bool, multi: bool, inner: int)
    requires HasBlankIndent(cfg)
    ensures Lead(cfg, first, multi, inner) == (if first then "" else ",") + LeadBlanks(cfg, first, multi, inner)
    ensures IsBlankText(LeadBlanks(cfg, first, multi, inner))
  {
    LineStartIsBlank(cfg, inner);
    hide LineStart;
  }

  function LeadBlanks(cfg: Config, first: bool, multi: bool, inner: int): string {
    if multi then LineStart(cfg, inner) else if first then "" else " "
  }

  /** Behind a separator and blanks the parser comes to the next element. */
  lemma LeadRead(src: Source, pos: nat, cfg: Config, first: bool, multi: bool, inner: int, nested: nat)
    requires HasBlankIndent(cfg) && At(src.text, pos, Lead(cfg, first, multi, inner))
    requires var q := pos + |Lead(cfg, first, multi, inner)|; q < |src.text| && IsValueStart(src.text[q])
    ensures pos <= |src.text|
    ensures ElementsAt(src, pos, nested, if first then Nothing else Element) ==
            var v := ValueAt(src, pos + |Lead(cfg, first, multi, inner)|, nested);
            if v.None? then None else PrependValue(v.value.value, ElementsAt(src, v.value.after, nested, Element))
  {
    hide BlanksEnd, ValueAt, ElementsAt, LeadBlanks, Lead, At, IsValueStart, IsBlankText;
    var q := pos + |Lead(cfg, first, multi, inner)|;
    var ws := LeadBlanks(cfg, first, multi, inner);
    LeadParts(cfg, first, multi, inner);
    NotBlank(src.text, q);
    if first {
      assert "" + ws == ws;
      BlanksSkipped(src.text, pos, ws);
      ElementStep(src, pos, q, nested, Nothing);
    } else {
      AtConcat(src.text, pos, ",", ws);
      AtChar(src.text, pos, ',');
      BlanksSkipped(src.text, pos + 1, ws);
      CommaStep(src, pos, nested);
      ElementStep(src, pos + 1, q, nested, Comma);
    }
  }

  /** The elements of an array, and what they make the rest of it. */
  lemma {:induction false} ElementsRead(src: Source, pos: nat, cfg: Config, es: seq<Value>, first: bool, multi: bool,
                                        inner: int, outer: int, nested: nat)
    requires HasBlankIndent(cfg) && AreStorable(es) && nested <= MAX_NESTED_VALUES
    requires At(src.text, pos, ElementsText(cfg, es, first, multi, inner) + Close(cfg, multi, outer))
    ensures pos <= |src.text|
    ensures AllReadBack(ElementsAt(src, pos, nested, if first then Nothing else Element), cfg, es,
                        AreGood(cfg, es, nested),
                        pos + |ElementsText(cfg, es, first, multi, inner) + Close(cfg, multi, outer)|)
    decreases es, 0
  {
    hide ElementsAt, ValueAt, ValueText, Lead, Close, At, ValueEndsAt, IsStorable, Depth, HasLost, IsValueStart,
      Unformatted, Reread;
    if es == [] {
      assert ElementsText(cfg, es, first, multi, inner) + Close(cfg, multi, outer) == Close(cfg, multi, outer);
      CloseRead(src, pos, cfg, multi, outer, nested, if first then Nothing else Element);
    } else {
      var lead, v := Lead(cfg, first, multi, inner), ValueText(cfg, es[0], inner);
      var rest := ElementsText(cfg, es[1..], false, multi, inner) + Close(cfg, multi, outer);
      SplitElement(src.text, pos, cfg, es, first, multi, inner, outer);
      ElementEnds(src.text, pos + |lead| + |v|, cfg, es[1..], multi, inner, outer);
      ValueReads(src, pos + |lead|, cfg, es[0], inner, nested);
      LeadRead(src, pos, cfg, first, multi, inner, nested);
      if IsGood(cfg, es[0], nested) {
        ElementsRead(src, pos + |lead| + |v|, cfg, es[1..], false, multi, inner, outer, nested);
        GoodElement(cfg, es, ElementsAt(src, pos + |lead| + |v|, nested, Element), nested, pos + |lead| + |v| + |rest|);
      } else {
        var r := ValueAt(src, pos + |lead|, nested);
        if r.Some? { BadElement(cfg, es, r.value.value, ElementsAt(src, r.value.after, nested, Element)); }
      }
    }
  }

  lemma SplitElement(text: string, pos: nat, cfg: Config, es: seq<Value>, first: bool, multi: bool, inner: int, outer: int)
    requires es != [] && At(text, pos, ElementsText(cfg, es, first, multi, inner) + Close(cfg, multi, outer))
    ensures var lead, v := Lead(cfg, first, multi, inner), ValueText(cfg, es[0], inner);
            var rest := ElementsText(cfg, es[1..], false, multi, inner) + Close(cfg, multi, outer);
            && At(text, pos, lead) && At(text, pos + |lead|, v) && At(text, pos + |lead| + |v|, rest)
            && |ElementsText(cfg, es, first, multi, inner) + Close(cfg, multi, outer)| == |lead| + |v| + |rest|
  {
    hide At, Lead, ValueText, Close;
    var lead, v := Lead(cfg, first, multi, inner), ValueText(cfg, es[0], inner);
    var more := ElementsText(cfg, es[1..], false, multi, inner);
    assert (lead + (v + more)) + Close(cfg, multi, outer) == lead + (v + (more + Close(cfg, multi, outer)));
    AtConcat(text, pos, lead, v + (more + Close(cfg, multi, outer)));
    AtConcat(text, pos + |lead|, v, more + Close(cfg, multi, outer));
  }

  lemma GoodElement(cfg: Config, es: seq<Value>, r: Option<Parsed<seq<Value>>>, nested: nat, end: nat)
    requires es != [] && IsGood(cfg, es[0], nested) && AllReadBack(r, cfg, es[1..], AreGood(cfg, es[1..], nested), end)
    ensures AllReadBack(PrependValue(Reread(cfg, es[0]), r), cfg, es, AreGood(cfg, es, nested), end)
  {
    hide Depth, HasLost, Reread, Unformatted;
    if r.Some? {
      UnformattedTail([Reread(cfg, es[0])] + r.value.value);
      UnformattedTail(es);
      assert ([Reread(cfg, es[0])] + r.value.value)[1..] == r.value.value;
    }
  }

  lemma BadElement(cfg: Config, es: seq<Value>, x: Value, r: Option<Parsed<seq<Value>>>)
    requires es != [] && !Equal(x, es[0])
    ensures PrependValue(x, r).Some? ==> UnformattedAll(PrependValue(x, r).value.value) != UnformattedAll(es)
  {
    hide Unformatted;
    if r.Some? {
      UnformattedTail([x] + r.value.value);
      UnformattedTail(es);
    }
  }

  lemma UnformattedTail(vs: seq<Value>)
    requires vs != []
    ensures UnformattedAll(vs)[0] == Unformatted(vs[0]) && UnformattedAll(vs)[1..] == UnformattedAll(vs[1..])
  {
    hide Unformatted;
  }

  lemma DispatchesArray(src: Source, pos: nat, nested: nat)
    requires pos + 1 < |src.text| && src.text[pos] == '['
    ensures ValueAt(src, pos, nested) ==
            if nested + 1 > MAX_NESTED_VALUES then None else
              var es := ElementsAt(src, pos + 1, nested + 1, Nothing);
              if es.None? then None else Some(Parsed(Array(es.value.value), es.value.after))
  {
    hide ElementsAt, EntriesAt, ScalarAt;
  }

  /** An array as its opening bracket, perhaps a blank, and the rest. */
  lemma ArrayText(cfg: Config, es: seq<Value>, indent: int)
    requires es != []
    ensures var multi := IsMultiLine(cfg, es, indent);
            var inner := if multi then InnerIndent(cfg, indent) else indent;
            ValueText(cfg, Array(es), indent)
            == "[" + ((if multi then "" else " ") + (ElementsText(cfg, es, true, multi, inner) + Close(cfg, multi, indent)))
  {
    hide ElementsText, LineStart;
    if IsMultiLine(cfg, es, indent) {
      var e := ElementsText(cfg, es, true, true, InnerIndent(cfg, indent));
      var c := LineStart(cfg, indent) + "]";
      assert "[" + e + c == "[" + ("" + (e + c));
    } else {
      var e := ElementsText(cfg, es, true, false, indent);
      assert "[ " + e + " ]" == "[" + (" " + (e + (" " + "]")));
    }
  }

  lemma EmptyArrayReads(src: Source, pos: nat, cfg: Config, nested: nat)
    requires At(src.text, pos, "[]")
    ensures pos < |src.text| && src.text[pos] == '['
    ensures ReadsBack(ValueAt(src, pos, nested), cfg, Array([]), IsGood(cfg, Array([]), nested), pos + 2)
  {
    hide ElementsAt, ValueAt;
    AtCharOf(src.text, pos, "[]", 0);
    AtCharOf(src.text, pos, "[]", 1);
    DispatchesArray(src, pos, nested);
    NotBlank(src.text, pos + 1);
    ClosesHere(src, pos + 1, nested + 1);
    EmptyValues(cfg);
  }

  lemma EmptyValues(cfg: Config)
    ensures Reread(cfg, Array([])) == Array([]) && Depth(Array([])) == 1 && !HasLost(cfg, Array([]))
    ensures Reread(cfg, Table([])) == Table([]) && Depth(Table([])) == 1 && !HasLost(cfg, Table([]))
  {}

  lemma ClosesHere(src: Source, pos: nat, nested: nat)
    requires pos < |src.text| && src.text[pos] == ']' && BlanksEnd(src.text, pos) == Some(pos)
    ensures ElementsAt(src, pos, nested, Nothing) == Some(Parsed([], pos + 1))
  {
    hide BlanksEnd, ValueAt;
  }

  lemma {:induction false} ArrayReads(src: Source, pos: nat, cfg: Config, es: seq<Value>, indent: int, nested: nat)
    requires HasBlankIndent(cfg) && AreStorable(es)
    requires At(src.text, pos, ValueText(cfg, Array(es), indent))
    ensures pos < |src.text| && src.text[pos] == '['
    ensures ReadsBack(ValueAt(src, pos, nested), cfg, Array(es), IsGood(cfg, Array(es), nested),
                      pos + |ValueText(cfg, Array(es), indent)|)
    decreases es, 1
  {
    hide ElementsAt, ValueAt, ElementsText, Close, At, AreStorable, DepthOfAll, AnyLost, UnformattedAll, RereadAll, IsMultiLine;
    if es == [] {
      EmptyArrayReads(src, pos, cfg, nested);
    } else {
      var multi := IsMultiLine(cfg, es, indent);
      var inner := if multi then InnerIndent(cfg, indent) else indent;
      var ws := if multi then "" else " ";
      var body := ElementsText(cfg, es, true, multi, inner) + Close(cfg, multi, indent);
      ArrayText(cfg, es, indent);
      hide ValueText;
      AtConcat(src.text, pos, "[", ws + body);
      AtChar(src.text, pos, '[');
      AtConcat(src.text, pos + 1, ws, body);
      if nested + 1 <= MAX_NESTED_VALUES {
        ElementsRead(src, pos + 1 + |ws|, cfg, es, true, multi, inner, indent, nested + 1);
      }
      BodyBounds(src.text, pos + 1 + |ws|, body, cfg, multi, indent);
      DispatchesArray(src, pos, nested);
      if !multi {
        AtChar(src.text, pos + 1, ' ');
        ElementsBlank(src, pos + 1, nested + 1, Nothing);
      }
    }
  }

  lemma BodyBounds(text: string, pos: nat, body: string, cfg: Config, multi: bool, outer: int)
    requires At(text, pos, body) && |body| >= |Close(cfg, multi, outer)|
    ensures pos + 1 <= |text|
  {}

  // ---------------------------------------------------------------- tables: the entries that are there

  lemma {:induction false} GetInsert(es: seq<Entry>, k: string, v: Value, other: string)
    requires other != k
    ensures Paths.Get(Insert(es, k, v), other) == Paths.Get(es, other)
  {
    var i := LowerBound(es, k);
    GetPrefix(es[..i], [Entry(k, v)] + es[i..], es[i..], other);
    assert Insert(es, k, v) == es[..i] + ([Entry(k, v)] + es[i..]);
    assert ([Entry(k, v)] + es[i..])[1..] == es[i..];
    assert es[..i] + es[i..] == es;
  }

  lemma {:induction false} GetPrefix(a: seq<Entry>, b: seq<Entry>, c: seq<Entry>, k: string)
    requires Paths.Get(b, k) == Paths.Get(c, k)
    ensures Paths.Get(a + b, k) == Paths.Get(a + c, k)
  {
    if a == [] {
      assert a + b == b && a + c == c;
    } else {
      GetPrefix(a[1..], b, c, k);
      assert (a + b)[1..] == a[1..] + b && (a + c)[1..] == a[1..] + c;
    }
  }

  lemma {:induction false} GetReplace(es: seq<Entry>, k: string, v: Value, other: string)
    requires other != k
    ensures Paths.Get(Replace(es, k, v), other) == Paths.Get(es, other)
  {
    if es != [] && es[0].key != k {
      GetReplace(es[1..], k, v, other);
      assert Replace(es, k, v)[1..] == Replace(es[1..], k, v);
    } else if es != [] {
      assert Replace(es, k, v)[1..] == es[1..];
    }
  }

  /** A pair that may be added leaves every value alone that no dotted key has created. */
  lemma AddKeeps(d: Draft, keys: seq<string>, v: Value, k: string, x: Value)
    requires keys != [] && CanAdd(d.entries, d.dotted, [], keys)
    requires Paths.Get(d.entries, k) == Some(x) && [k] !in d.dotted
    ensures Paths.Get(AddTo(d, keys, v).entries, k) == Some(x) && [k] !in AddTo(d, keys, v).dotted
  {
    hide Insert, Replace;
    assert [] + [keys[0]] == [keys[0]];
    assert keys[0] != k;
    var child := Paths.Get(d.entries, keys[0]);
    if |keys| > 1 && child.Some? {
      GetReplace(d.entries, keys[0], Table(AddPair(child.value.entries, keys[1..], v)), k);
    } else {
      GetInsert(d.entries, keys[0], if |keys| == 1 then v else Table(AddPair([], keys[1..], v)), k);
    }
    forall i | 1 <= i < |keys| ensures keys[..i] != [k] { assert keys[..i][0] != k; }
  }

  /** Whatever is read into an inline table, the values that are in it stay. */
  lemma {:induction false} EntriesKeep(src: Source, pos: nat, nested: nat, last: Last, d: Draft, k: string, x: Value)
    requires pos <= |src.text|
    requires Paths.Get(d.entries, k) == Some(x) && [k] !in d.dotted
    ensures var r := EntriesAt(src, pos, nested, last, d);
            r.Some? ==> r.value.value.Table? && Paths.Get(r.value.value.entries, k) == Some(x)
    decreases |src.text| - pos
  {
    hide SpacesEnd, PairAt, ValueAt, CanAdd, AddTo, IsBareKeyChar, IsDelimiter, Paths.Get;
    var p := SpacesEnd(src.text, pos);
    if p.Some? && p.value < |src.text| {
      var c := src.text[p.value];
      if c == ',' {
        if last == Element && p.value + 1 < |src.text| { EntriesKeep(src, p.value + 1, nested, Comma, d, k, x); }
      } else if c != '}' && last != Element && (IsDelimiter(c) || IsBareKeyChar(c)) {
        var key := PairAt(src.text, p.value);
        if key.Some? && CanAdd(d.entries, d.dotted, [], key.value.value) {
          var v := ValueAt(src, key.value.after, nested);
          if v.Some? {
            AddKeeps(d, key.value.value, v.value.value, k, x);
            EntriesKeep(src, v.value.after, nested, Element, AddTo(d, key.value.value, v.value.value), k, x);
          }
        }
      }
    }
  }

  lemma {:induction false} EqualEntriesGet(a: seq<Entry>, b: seq<Entry>, i: nat)
    requires UnformattedEntries(a) == UnformattedEntries(b) && Ascending(b) && i < |b|
    ensures Paths.Get(a, b[i].key).Some? && Equal(Paths.Get(a, b[i].key).value, b[i].value)
  {
    hide Unformatted;
    UnformattedEntryAt(a, 0);
    UnformattedEntryAt(b, 0);
    if i > 0 {
      assert Less(b[0].key, b[i].key);
      NotLess(b[i].key);
      assert UnformattedEntries(a)[1..] == UnformattedEntries(a[1..]);
      assert UnformattedEntries(b)[1..] == UnformattedEntries(b[1..]);
      forall m, n | 0 <= m < n < |b[1..]| ensures Less(b[1..][m].key, b[1..][n].key) {
        assert Less(b[m + 1].key, b[n + 1].key);
      }
      EqualEntriesGet(a[1..], b[1..], i - 1);
    }
  }

  lemma {:induction false} NotLess(k: string)
    ensures !Less(k, k)
  {
    if k != "" { NotLess(k[1..]); }
  }

  // ---------------------------------------------------------------- tables: reading

  /** The value of an entry is not the one that was read for its key. */
  predicate Differs(entries: seq<Entry>, e: Entry) {
    Paths.Get(entries, e.key).None? || !Equal(Paths.Get(entries, e.key).value, e.value)
  }

  /** The entries behind others, and what a read gives: all of them, or nothing, or another value for some key. */
  ghost predicate EntriesReadBack(r: Option<Parsed<Value>>, cfg: Config, done: seq<Entry>, es: seq<Entry>, good: bool,
                                  end: nat)
  {
    if good then r == Some(Parsed(Table(RereadEntries(cfg, done + es)), end))
    else r.Some? ==> r.value.value.Table? && exists e :: e in es && Differs(r.value.value.entries, e)
  }

  lemma {:induction false} RereadAppend(cfg: Config, done: seq<Entry>, e: Entry)
    ensures RereadEntries(cfg, done + [e]) == RereadEntries(cfg, done) + [Entry(e.key, Reread(cfg, e.value))]
  {
    hide Reread;
    if done == [] {
      assert done + [e] == [e] && [e][1..] == [];
    } else {
      RereadAppend(cfg, done[1..], e);
      assert (done + [e])[1..] == done[1..] + [e];
    }
  }

  lemma {:induction false} RereadKeys(cfg: Config, done: seq<Entry>)
    ensures |RereadEntries(cfg, done)| == |done|
    ensures forall i | 0 <= i < |done| :: RereadEntries(cfg, done)[i].key == done[i].key
  {
    hide Reread;
    if done != [] { RereadKeys(cfg, done[1..]); }
  }

  lemma {:induction false} AppendLast(es: seq<Entry>, k: string, v: Value)
    requires forall i | 0 <= i < |es| :: Less(es[i].key, k)
    ensures Paths.Get(es, k) == None && LowerBound(es, k) == |es| && Insert(es, k, v) == es + [Entry(k, v)]
    ensures Paths.Get(es + [Entry(k, v)], k) == Some(v)
  {
    NotLess(k);
    if es == [] {
    } else {
      assert Less(es[0].key, k);
      AppendLast(es[1..], k, v);
      assert (es + [Entry(k, v)])[1..] == es[1..] + [Entry(k, v)];
    }
  }

  /** The key that comes next goes behind all others. */
  lemma NextEntry(cfg: Config, done: seq<Entry>, e: Entry, x: Value)
    requires forall i | 0 <= i < |done| :: Less(done[i].key, e.key)
    ensures var d := Draft(RereadEntries(cfg, done), {});
            && CanAdd(d.entries, d.dotted, [], [e.key])
            && AddTo(d, [e.key], x) == Draft(d.entries + [Entry(e.key, x)], {})
            && Paths.Get(d.entries + [Entry(e.key, x)], e.key) == Some(x)
  {
    hide Insert, LowerBound, Less, Reread;
    RereadKeys(cfg, done);
    AppendLast(RereadEntries(cfg, done), e.key, x);
    assert (set i | 1 <= i < |[e.key]| :: [e.key][..i]) == {};
  }

  /** A printed key with its equals sign leads to the value behind it. */
  lemma PairReads(text: string, pos: nat, k: string, cfg: Config)
    requires At(text, pos, KeyText(k, cfg.strings) + Equals(cfg))
    requires var q := pos + |KeyText(k, cfg.strings) + Equals(cfg)|; q < |text| && IsValueStart(text[q])
    ensures pos < |text| && !IsHorizontalSpace(text[pos]) && (IsDelimiter(text[pos]) || IsBareKeyChar(text[pos]))
    ensures PairAt(text, pos) == Some(Parsed([k], pos + |KeyText(k, cfg.strings) + Equals(cfg)|))
  {
    hide KeyText, At, KeyAt, SpacesEnd, IsHorizontalSpace, StringAt, IsBareKeyChar, BareEnd;
    var key := KeyText(k, cfg.strings);
    var end := pos + |key|;
    AtConcat(text, pos, key, Equals(cfg));
    EqualsRead(text, end, cfg);
    var eq := if cfg.terse then end else end + 1;
    assert KeyPathText([k], cfg.strings) == key;
    KeysRead(text, pos, [k], cfg.strings, 0, eq);
    KeyReads(text, pos, k, cfg.strings);
    AtBoundsOf(text, pos, key);
    ValueBehind(text, pos + |key + Equals(cfg)|);
  }

  lemma AtBoundsOf(text: string, pos: nat, s: string)
    requires At(text, pos, s)
    ensures pos + |s| <= |text|
  {}

  lemma ValueBehind(text: string, pos: nat)
    requires pos < |text| && IsValueStart(text[pos])
    ensures !EndsAt(text, pos) && SpacesEnd(text, pos) == Some(pos)
  {}

  /** The equals sign behind a key, and where the value begins. */
  lemma EqualsRead(text: string, pos: nat, cfg: Config)
    requires At(text, pos, Equals(cfg))
    requires pos + |Equals(cfg)| < |text| && IsValueStart(text[pos + |Equals(cfg)|])
    ensures var eq := if cfg.terse then pos else pos + 1;
            && SegmentEndsAt(text, pos) && SpacesEnd(text, pos) == Some(eq) && text[eq] == '='
            && SpacesEnd(text, eq + 1) == Some(pos + |Equals(cfg)|)
  {
    ValueBehind(text, pos + |Equals(cfg)|);
    AtCharOf(text, pos, Equals(cfg), 0);
    if !cfg.terse {
      AtCharOf(text, pos, " = ", 1);
      AtCharOf(text, pos, " = ", 2);
      SpaceStep(text, pos);
      SpaceStep(text, pos + 2);
    }
    var eq := if cfg.terse then pos else pos + 1;
    SpacesEndHere(text, eq);
  }

  lemma EntryStep(src: Source, pos: nat, nested: nat, last: Last, d: Draft, k: string, q: nat)
    requires pos < q < |src.text| && SpacesEnd(src.text, pos) == Some(pos) && last != Element
    requires IsDelimiter(src.text[pos]) || IsBareKeyChar(src.text[pos])
    requires PairAt(src.text, pos) == Some(Parsed([k], q)) && CanAdd(d.entries, d.dotted, [], [k])
    ensures EntriesAt(src, pos, nested, last, d) ==
            var v := ValueAt(src, q, nested);
            if v.None? then None else EntriesAt(src, v.value.after, nested, Element, AddTo(d, [k], v.value.value))
  {
    hide SpacesEnd, PairAt, ValueAt, CanAdd, AddTo;
  }

  /** The separator between two entries. */
  lemma NextKey(src: Source, pos: nat, nested: nat, d: Draft)
    requires pos + 2 < |src.text| && At(src.text, pos, ", ")
    requires !IsHorizontalSpace(src.text[pos + 2])
    ensures EntriesAt(src, pos, nested, Element, d) == EntriesAt(src, pos + 2, nested, Comma, d)
  {
    hide PairAt, ValueAt, CanAdd, AddTo, IsForeignSpace;
    AtCharOf(src.text, pos, ", ", 0);
    AtCharOf(src.text, pos, ", ", 1);
    NotBlank(src.text, pos);
    SpaceStep(src.text, pos + 1);
    SpacesEndHere(src.text, pos + 2);
  }

  lemma TableCloses(src: Source, pos: nat, nested: nat, last: Last, d: Draft)
    requires At(src.text, pos, " }") && last != Comma
    ensures pos <= |src.text|
    ensures EntriesAt(src, pos, nested, last, d) == Some(Parsed(Table(d.entries), pos + 2))
  {
    hide PairAt, ValueAt, CanAdd, AddTo, IsForeignSpace;
    AtCharOf(src.text, pos, " }", 0);
    AtCharOf(src.text, pos, " }", 1);
    NotBlank(src.text, pos + 1);
    SpaceStep(src.text, pos);
  }

  /** What follows the value of an entry ends it, and is not the time of a date. */
  lemma EntryEnds(text: string, pos: nat, cfg: Config, rest: seq<Entry>, indent: int)
    requires At(text, pos, EntriesText(cfg, rest, false, indent) + " }")
    ensures ValueEndsAt(text, pos)
  {
    hide ValueText, KeyText;
    var s := EntriesText(cfg, rest, false, indent) + " }";
    AtCharOf(text, pos, s, 0);
    AtCharOf(text, pos, s, 1);
  }

  lemma SplitEntry(text: string, pos: nat, cfg: Config, es: seq<Entry>, first: bool, indent: int)
    requires es != [] && At(text, pos, EntriesText(cfg, es, first, indent) + " }")
    ensures var sep := if first then "" else ", ";
            var key, v := KeyText(es[0].key, cfg.strings) + Equals(cfg), ValueText(cfg, es[0].value, indent);
            var rest := EntriesText(cfg, es[1..], false, indent) + " }";
            && At(text, pos, sep) && At(text, pos + |sep|, key) && At(text, pos + |sep| + |key|, v)
            && At(text, pos + |sep| + |key| + |v|, rest)
            && |EntriesText(cfg, es, first, indent) + " }"| == |sep| + |key| + |v| + |rest|
  {
    hide At, KeyText, ValueText, Equals;
    var sep := if first then "" else ", ";
    var key, v := KeyText(es[0].key, cfg.strings) + Equals(cfg), ValueText(cfg, es[0].value, indent);
    var more := EntriesText(cfg, es[1..], false, indent);
    assert ((sep + key) + (v + more)) + " }" == sep + (key + (v + (more + " }")));
    AtConcat(text, pos, sep, key + (v + (more + " }")));
    AtConcat(text, pos + |sep|, key, v + (more + " }"));
    AtConcat(text, pos + |sep| + |key|, v, more + " }");
  }

  /** Behind its separator and key the parser comes to the value of the next entry. */
  lemma EntryRead(src: Source, pos: nat, cfg: Config, first: bool, nested: nat, d: Draft, k: string)
    requires var sep := if first then "" else ", ";
             var q := pos + |sep| + |KeyText(k, cfg.strings) + Equals(cfg)|;
             && At(src.text, pos, sep) && At(src.text, pos + |sep|, KeyText(k, cfg.strings) + Equals(cfg))
             && q < |src.text| && IsValueStart(src.text[q])
    requires CanAdd(d.entries, d.dotted, [], [k])
    ensures pos <= |src.text|
    ensures EntriesAt(src, pos, nested, if first then Nothing else Element, d) ==
            var q := pos + (if first then 0 else 2) + |KeyText(k, cfg.strings) + Equals(cfg)|;
            var v := ValueAt(src, q, nested);
            if v.None? then None else EntriesAt(src, v.value.after, nested, Element, AddTo(d, [k], v.value.value))
  {
    hide EntriesAt, ValueAt, At, KeyText, PairAt, CanAdd, AddTo, IsValueStart, IsHorizontalSpace, IsBareKeyChar;
    var at := pos + if first then 0 else 2;
    PairReads(src.text, at, k, cfg);
    SpacesEndHere(src.text, at);
    EntryStep(src, at, nested, if first then Nothing else Comma, d, k, at + |KeyText(k, cfg.strings) + Equals(cfg)|);
    if !first { NextKey(src, pos, nested, d); }
  }

  lemma AscendingTail(done: seq<Entry>, es: seq<Entry>)
    requires es != [] && Ascending(done + es)
    ensures forall i | 0 <= i < |done| :: Less(done[i].key, es[0].key)
    ensures done + es == (done + [es[0]]) + es[1..]
  {
    forall i | 0 <= i < |done| ensures Less(done[i].key, es[0].key) {
      assert (done + es)[i] == done[i] && (done + es)[|done|] == es[0];
    }
  }

  /** The entries of an inline table, behind others that have been read. */
  lemma {:induction false} EntriesRead(src: Source, pos: nat, cfg: Config, done: seq<Entry>, es: seq<Entry>, first: bool,
                                       indent: int, nested: nat)
    requires HasBlankIndent(cfg) && EntriesStorable(es) && nested <= MAX_NESTED_VALUES
    requires Ascending(done + es) && At(src.text, pos, EntriesText(cfg, es, first, indent) + " }")
    ensures pos <= |src.text|
    ensures EntriesReadBack(
              EntriesAt(src, pos, nested, if first then Nothing else Element, Draft(RereadEntries(cfg, done), {})),
              cfg, done, es, EntriesGood(cfg, es, nested), pos + |EntriesText(cfg, es, first, indent) + " }"|)
    decreases es, 0
  {
    hide EntriesAt, ValueAt, ValueText, KeyText, Equals, At, ValueEndsAt, IsStorable, Depth, HasLost, IsValueStart,
      Unformatted, Reread, RereadEntries, AddTo, CanAdd, Differs, Ascending;
    var d := Draft(RereadEntries(cfg, done), {});
    var last := if first then Nothing else Element;
    if es == [] {
      assert EntriesText(cfg, es, first, indent) + " }" == " }" && done + es == done;
      TableCloses(src, pos, nested, last, d);
    } else {
      var e, sep := es[0], if first then "" else ", ";
      var key, v := KeyText(e.key, cfg.strings) + Equals(cfg), ValueText(cfg, e.value, indent);
      var q := pos + |sep| + |key|;
      SplitEntry(src.text, pos, cfg, es, first, indent);
      EntryEnds(src.text, q + |v|, cfg, es[1..], indent);
      ValueReads(src, q, cfg, e.value, indent, nested);
      AscendingTail(done, es);
      var r := ValueAt(src, q, nested);
      NextEntry(cfg, done, e, if r.Some? then r.value.value else Boolean(true));
      EntryRead(src, pos, cfg, first, nested, d, e.key);
      if IsGood(cfg, e.value, nested) {
        RereadAppend(cfg, done, e);
        EntriesRead(src, q + |v|, cfg, done + [e], es[1..], false, indent, nested);
        GoodEntry(cfg, done, es, EntriesAt(src, q + |v|, nested, Element, Draft(RereadEntries(cfg, done + [e]), {})), nested,
                  pos + |EntriesText(cfg, es, first, indent) + " }"|);
      } else if r.Some? {
        var d2 := AddTo(d, [e.key], r.value.value);
        EntriesKeep(src, r.value.after, nested, Element, d2, e.key, r.value.value);
        BadEntry(EntriesAt(src, r.value.after, nested, Element, d2), e, r.value.value);
      }
    }
  }

  lemma GoodEntry(cfg: Config, done: seq<Entry>, es: seq<Entry>, r: Option<Parsed<Value>>, nested: nat, end: nat)
    requires es != [] && IsGood(cfg, es[0].value, nested) && done + es == (done + [es[0]]) + es[1..]
    requires EntriesReadBack(r, cfg, done + [es[0]], es[1..], EntriesGood(cfg, es[1..], nested), end)
    ensures EntriesReadBack(r, cfg, done, es, EntriesGood(cfg, es, nested), end)
  {
    hide Depth, HasLost, RereadEntries, Differs;
    assert EntriesGood(cfg, es, nested) <==> EntriesGood(cfg, es[1..], nested);
    if !EntriesGood(cfg, es, nested) && r.Some? {
      var e :| e in es[1..] && Differs(r.value.value.entries, e);
      assert e in es;
    }
  }

  lemma BadEntry(r: Option<Parsed<Value>>, e: Entry, x: Value)
    requires !Equal(x, e.value)
    requires r.Some? ==> r.value.value.Table? && Paths.Get(r.value.value.entries, e.key) == Some(x)
    ensures r.Some? ==> r.value.value.Table? && Differs(r.value.value.entries, e)
  {
    hide Unformatted, Paths.Get;
  }

  lemma DispatchesTable(src: Source, pos: nat, nested: nat)
    requires pos + 1 < |src.text| && src.text[pos] == '{'
    ensures ValueAt(src, pos, nested) ==
            if nested + 1 > MAX_NESTED_VALUES then None
            else EntriesAt(src, pos + 1, nested + 1, Nothing, Draft([], {}))
  {
    hide ElementsAt, EntriesAt, ScalarAt;
  }

  lemma EntriesBlank(src: Source, pos: nat, nested: nat, d: Draft)
    requires pos < |src.text| && src.text[pos] == ' '
    ensures EntriesAt(src, pos, nested, Nothing, d) == EntriesAt(src, pos + 1, nested, Nothing, d)
  {
    hide PairAt, ValueAt, CanAdd, AddTo, SpacesEnd;
    SpaceStep(src.text, pos);
  }

  lemma EmptyTableReads(src: Source, pos: nat, cfg: Config, nested: nat)
    requires At(src.text, pos, "{}")
    ensures pos < |src.text| && src.text[pos] == '{'
    ensures ReadsBack(ValueAt(src, pos, nested), cfg, Table([]), IsGood(cfg, Table([]), nested), pos + 2)
  {
    hide ValueAt, PairAt, CanAdd, AddTo, IsForeignSpace;
    AtCharOf(src.text, pos, "{}", 0);
    AtCharOf(src.text, pos, "{}", 1);
    DispatchesTable(src, pos, nested);
    NotBlank(src.text, pos + 1);
    EmptyValues(cfg);
  }

  /** An entry that differs makes the whole table differ. */
  lemma DifferentTable(es: seq<Entry>, t: Value, e: Entry)
    requires t.Table? && Ascending(es) && e in es && Differs(t.entries, e)
    ensures !Equal(t, Table(es))
  {
    hide UnformattedEntries;
    if Equal(t, Table(es)) {
      var i :| 0 <= i < |es| && es[i] == e;
      EqualEntriesGet(t.entries, es, i);
    }
  }

  lemma {:induction false} TableReads(src: Source, pos: nat, cfg: Config, es: seq<Entry>, indent: int, nested: nat)
    requires HasBlankIndent(cfg) && EntriesStorable(es) && Ascending(es)
    requires At(src.text, pos, ValueText(cfg, Table(es), indent))
    ensures pos < |src.text| && src.text[pos] == '{'
    ensures ReadsBack(ValueAt(src, pos, nested), cfg, Table(es), IsGood(cfg, Table(es), nested),
                      pos + |ValueText(cfg, Table(es), indent)|)
    decreases es, 1
  {
    hide EntriesAt, ValueAt, EntriesText, At, EntriesStorable, DepthOfEntries, AnyEntryLost, UnformattedEntries, Differs,
      Ascending;
    if es == [] {
      EmptyTableReads(src, pos, cfg, nested);
    } else {
      var body := EntriesText(cfg, es, true, indent) + " }";
      assert ValueText(cfg, Table(es), indent) == "{" + (" " + body);
      hide ValueText;
      AtConcat(src.text, pos, "{", " " + body);
      AtConcat(src.text, pos + 1, " ", body);
      AtChar(src.text, pos, '{');
      AtChar(src.text, pos + 1, ' ');
      assert [] + es == es && RereadEntries(cfg, []) == [];
      if nested + 1 <= MAX_NESTED_VALUES {
        EntriesRead(src, pos + 2, cfg, [], es, true, indent, nested + 1);
      }
      EntriesBlank(src, pos + 1, nested + 1, Draft([], {}));
      DispatchesTable(src, pos, nested);
      var r := ValueAt(src, pos, nested);
      if nested + 1 <= MAX_NESTED_VALUES && !EntriesGood(cfg, es, nested + 1) && r.Some? {
        var e :| e in es && Differs(r.value.value.entries, e);
        DifferentTable(es, r.value.value, e);
      }
    }
  }

  // ---------------------------------------------------------------- values

  /** Every printed value, inside `nested` others: read back if it is good, otherwise not. */
  lemma {:induction false} ValueReads(src: Source, pos: nat, cfg: Config, v: Value, indent: int, nested: nat)
    requires HasBlankIndent(cfg) && IsStorable(v)
    requires At(src.text, pos, ValueText(cfg, v, indent)) && ValueEndsAt(src.text, pos + |ValueText(cfg, v, indent)|)
    ensures pos < |src.text| && IsValueStart(src.text[pos])
    ensures ReadsBack(ValueAt(src, pos, nested), cfg, v, IsGood(cfg, v, nested), pos + |ValueText(cfg, v, indent)|)
    decreases v, 2
  {
    hide ValueAt, At, ValueEndsAt, ElementsText, EntriesText, ScalarText, ReadsBack, IsGood;
    match v
    case Array(es) => ArrayReads(src, pos, cfg, es, indent, nested);
    case Table(es) => TableReads(src, pos, cfg, es, indent, nested);
    case _ => ScalarReads(src, pos, cfg, v, nested);
  }

  /**
    The text that the formatter writes for a value, on one line or many, is read as an equal value
    exactly if the value is nested at most 128 deep and none of its strings over many lines is lost.
  */
  lemma InlineRoundTrip(src: Source, pos: nat, cfg: Config, v: Value, indent: int)
    requires HasBlankIndent(cfg) && IsStorable(v)
    requires At(src.text, pos, ValueText(cfg, v, indent)) && ValueEndsAt(src.text, pos + |ValueText(cfg, v, indent)|)
    ensures pos < |src.text|
    ensures var r := ValueAt(src, pos, 0);
            var ok := Depth(v) <= MAX_NESTED_VALUES && !HasLost(cfg, v);
            && (r.Some? && Equal(r.value.value, v) <==> ok)
            && (ok ==> r == Some(Parsed(Reread(cfg, v), pos + |ValueText(cfg, v, indent)|)))
            && (r.Some? && r.value.value == v <==> ok && KeepsFormats(cfg, v))
  {
    hide ValueAt, At, ValueEndsAt, ValueText, Unformatted, Reread, Depth, HasLost, KeepsFormats;
    ValueReads(src, pos, cfg, v, indent, 0);
    RereadIsEqual(cfg, v);
    FormatsAreKept(cfg, v);
  }

  // ---------------------------------------------------------------- strings on single lines

  /** No string of a value has a line break. */
  predicate IsNewlineFree(v: Value) {
    match v
    case String(s) => '\n' !in s
    case Array(es) => AllNewlineFree(es)
    case Table(es) => EntriesNewlineFree(es)
    case _ => true
  }

  predicate AllNewlineFree(es: seq<Value>) {
    es == [] || (IsNewlineFree(es[0]) && AllNewlineFree(es[1..]))
  }

  predicate EntriesNewlineFree(es: seq<Entry>) {
    es == [] || (IsNewlineFree(es[0].value) && EntriesNewlineFree(es[1..]))
  }

  /** Only strings with line breaks can be lost. */
  lemma {:induction false} NewlineFreeIsNotLost(cfg: Config, v: Value)
    requires IsNewlineFree(v)
    ensures !HasLost(cfg, v)
    decreases v, 1
  {
    match v
    case String(s) => SingleLineIsNotLost(cfg, s);
    case Array(es) => AllNotLost(cfg, es);
    case Table(es) => EntriesNotLost(cfg, es);
    case _ =>
  }

  lemma SingleLineIsNotLost(cfg: Config, s: string)
    requires '\n' !in s
    ensures !StringIsLost(cfg, s)
  {
    hide HasControl, HasNonAscii, IsBareText;
  }

  lemma {:induction false} AllNotLost(cfg: Config, es: seq<Value>)
    requires AllNewlineFree(es)
    ensures !AnyLost(cfg, es)
    decreases es, 0
  {
    if es != [] {
      NewlineFreeIsNotLost(cfg, es[0]);
      AllNotLost(cfg, es[1..]);
    }
  }

  lemma {:induction false} EntriesNotLost(cfg: Config, es: seq<Entry>)
    requires EntriesNewlineFree(es)
    ensures !AnyEntryLost(cfg, es)
    decreases es, 0
  {
    if es != [] {
      NewlineFreeIsNotLost(cfg, es[0].value);
      EntriesNotLost(cfg, es[1..]);
    }
  }
}
