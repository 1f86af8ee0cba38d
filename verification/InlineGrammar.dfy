/**
  The values of `toml.hpp`'s language as functions of the text: what `parse_value`, `parse_array`
  and `parse_inline_table` read at a position, and where it ends.
*/
module InlineGrammar {
  import opened Characters
  import opened DateTimes
  import opened Integers
  import opened Keys
  import opened Numerals
  import Paths
  import opened StalePointers
  import opened StringParser
  import opened TomlValues
  import opened ValueKinds
  import opened Wrappers

  /** The parser of floats, infinities and not-a-numbers, of which nothing is known. */
  type FloatParser = (string, nat) -> Option<Parsed<Value>>

  /** The text of a whole document and the parser of floats. */
  datatype Source = Source(text: string, floats: FloatParser)

  const MAX_NESTED_VALUES: nat := 128

  // ---------------------------------------------------------------- scalars

  function FormatOf(base: Base): IntFormat {
    match base
    case 2 => Binary
    case 8 => Octal
    case 16 => Hexadecimal
    case _ => Decimal
  }

  /** What the parser of floats reads, within the text. */
  function FloatAt(src: Source, pos: nat): (r: Option<Parsed<Value>>)
    ensures r.Some? ==> pos < r.value.after <= |src.text|
  {
    var r := src.floats(src.text, pos);
    if r.Some? && pos < r.value.after <= |src.text| then r else None
  }

  function DigitOf(c: char): int {
    if IsDecimalDigit(c) then (c - '0') as int else 0
  }

  /** A decimal integer so long that the look-ahead does not reach its end is refused. */
  predicate TooLong(text: string, pos: nat, s: Scanned) {
    s.after < |text| && s.after - pos > MAX_SCAN - 1
  }

  /** A value that begins with a digit or a sign, after the look-ahead. */
  function NumberAt(src: Source, pos: nat): (r: Option<Parsed<Value>>)
    requires pos < |src.text| && BeginsNumber(src.text[pos])
    ensures r.Some? ==> pos < r.value.after <= |src.text|
  {
    var text := src.text;
    var s := ScanValue(text, pos);
    match KindOf(s)
    case OneDigit => Some(Parsed(Integer(DigitOf(s.chars[0]), Decimal), pos + 1))
    case SignedDigit =>
      var d := if |s.chars| > 1 then DigitOf(s.chars[1]) else 0;
      Some(Parsed(Integer(if s.chars[0] == '-' then -d else d, Decimal), pos + 2))
    case IntegerKind(base) =>
      if base == 10 && TooLong(text, pos, s) then None else
        var n := Integers.Integer(text, Shown(src.text, pos), pos, base);
        if n.None? then None else Some(Parsed(Integer(n.value.value, FormatOf(base)), n.value.after))
    case FloatKind => FloatAt(src, pos)
    case DateKind =>
      var d := DateAt(text, pos);
      if d.None? || !EndsAt(text, pos + 10) then None else Some(Parsed(LocalDate(d.value.value), pos + 10))
    case TimeKind =>
      var t := TimeAt(text, pos, false);
      if t.None? then None else Some(Parsed(LocalTime(t.value.value), t.value.after))
    case MomentKind =>
      var m := MomentAt(text, pos);
      if m.None? then None else Some(Parsed(Moment(m.value.value), m.value.after))
    case NoKind => None
  }

  /** `parse_boolean`: only lower-case words. */
  function BooleanAt(text: string, pos: nat): Option<Parsed<Value>>
    requires pos < |text|
  {
    var b := text[pos] == 't' || text[pos] == 'T';
    var word := if b then "true" else "false";
    if At(text, pos, word) && EndsAt(text, pos + |word|) then Some(Parsed(Boolean(b), pos + |word|)) else None
  }

  /** A value that is neither an array nor an inline table. */
  function ScalarAt(src: Source, pos: nat): (r: Option<Parsed<Value>>)
    requires pos < |src.text|
    ensures r.Some? ==> pos < r.value.after <= |src.text|
  {
    var c := src.text[pos];
    if IsDelimiter(c) then
      var s := StringAt(src.text, pos);
      if s.None? then None else Some(Parsed(String(s.value.value.value), s.value.after))
    else if Lower(c) == 't' || Lower(c) == 'f' then BooleanAt(src.text, pos)
    else if c == '.' || BeginsInfOrNan(c) then FloatAt(src, pos)
    else if BeginsNumber(c) then NumberAt(src, pos)
    else None
  }

  // ---------------------------------------------------------------- blanks and comments

  /** Behind a comment and its line break, if it has one. */
  function CommentEnd(text: string, pos: nat): (r: Option<nat>)
    requires pos <= |text|
    ensures r.Some? ==> pos <= r.value <= |text|
    decreases |text| - pos
  {
    if pos == |text| then Some(pos)
    else
      match LineBreakAt(text, pos)
      case Broken(after) => Some(after)
      case BadBreak => None
      case NoBreak => if IsNonTabControl(text[pos]) then None else CommentEnd(text, pos + 1)
  }

  /** Behind spaces, line breaks and comments. */
  function BlanksEnd(text: string, pos: nat): (r: Option<nat>)
    requires pos <= |text|
    ensures r.Some? ==> pos <= r.value <= |text|
    decreases |text| - pos
  {
    var sp := SpacesEnd(text, pos);
    if sp.None? then None
    else if sp.value > pos then BlanksEnd(text, sp.value)
    else
      match LineBreakAt(text, pos)
      case Broken(after) => BlanksEnd(text, after)
      case BadBreak => None
      case NoBreak =>
        if pos < |text| && text[pos] == '#' then
          var end := CommentEnd(text, pos + 1);
          if end.None? then None else BlanksEnd(text, end.value)
        else Some(pos)
  }

  // ---------------------------------------------------------------- tables

  /** The order of the keys in a `std::map`, by bytes, which is the order of code points. */
  predicate Less(a: string, b: string) {
    b != "" && (a == "" || a[0] < b[0] || (a[0] == b[0] && Less(a[1..], b[1..])))
  }

  function LowerBound(es: seq<Entry>, k: string): (i: nat)
    ensures i <= |es|
    ensures i < |es| ==> !Less(es[i].key, k)
  {
    if es == [] || !Less(es[0].key, k) then 0 else 1 + LowerBound(es[1..], k)
  }

  function Insert(es: seq<Entry>, k: string, v: Value): seq<Entry> {
    var i := LowerBound(es, k);
    es[..i] + [Entry(k, v)] + es[i..]
  }

  /** Another value for a key that is there. */
  function Replace(es: seq<Entry>, k: string, v: Value): seq<Entry> {
    if es == [] then []
    else if es[0].key == k then [Entry(k, v)] + es[1..]
    else [es[0]] + Replace(es[1..], k, v)
  }

  /** An inline table under construction, with the dotted keys whose tables were created in it. */
  datatype Draft = Draft(entries: seq<Entry>, dotted: set<seq<string>>)

  /** A key may be added below `path` if it is new and every table it passes was created by a dotted key. */
  predicate CanAdd(es: seq<Entry>, dotted: set<seq<string>>, path: seq<string>, keys: seq<string>)
    requires keys != []
    decreases |keys|
  {
    var child := Paths.Get(es, keys[0]);
    if |keys| == 1 || child.None? then child.None?
    else
      && child.value.Table? && path + [keys[0]] in dotted
      && CanAdd(child.value.entries, dotted, path + [keys[0]], keys[1..])
  }

  /** The entries with a value under a dotted key. */
  function AddPair(es: seq<Entry>, keys: seq<string>, v: Value): seq<Entry>
    requires keys != []
    decreases |keys|
  {
    var child := Paths.Get(es, keys[0]);
    if |keys| == 1 then Insert(es, keys[0], v)
    else if child.Some? && child.value.Table? then
      Replace(es, keys[0], Table(AddPair(child.value.entries, keys[1..], v)))
    else Insert(es, keys[0], Table(AddPair([], keys[1..], v)))
  }

  function AddTo(d: Draft, keys: seq<string>, v: Value): Draft
    requires keys != []
  {
    Draft(AddPair(d.entries, keys, v), d.dotted + set i | 1 <= i < |keys| :: keys[..i])
  }

  /** A key, the equals sign, and the position of what has to be a value. */
  function PairAt(text: string, pos: nat): (r: Option<Parsed<seq<string>>>)
    requires pos < |text|
    ensures r.Some? ==> pos < r.value.after < |text| && r.value.value != []
  {
    var k := KeyAt(text, pos, 0);
    if k.None? || k.value.after == |text| || text[k.value.after] != '=' then None
    else
      var sp := SpacesEnd(text, k.value.after + 1);
      if sp.None? || EndsAt(text, sp.value) then None else Some(Parsed(k.value.value, sp.value))
  }

  // ---------------------------------------------------------------- values

  /** What came last in an array or an inline table. */
  datatype Last = Nothing | Comma | Element

  function PrependValue(v: Value, r: Option<Parsed<seq<Value>>>): (p: Option<Parsed<seq<Value>>>)
    ensures p.Some? <==> r.Some?
    ensures p.Some? ==> p.value.after == r.value.after
  {
    if r.None? then None else Some(Parsed([v] + r.value.value, r.value.after))
  }

  /** `parse_value`, inside `nested` other values. */
  function ValueAt(src: Source, pos: nat, nested: nat): (r: Option<Parsed<Value>>)
    requires pos < |src.text|
    ensures r.Some? ==> pos < r.value.after <= |src.text|
    decreases |src.text| - pos, 0
  {
    var c := src.text[pos];
    if nested + 1 > MAX_NESTED_VALUES || IsControl(c) || c == '_' then None
    else if c == '[' then
      var es := if pos + 1 == |src.text| then None else ElementsAt(src, pos + 1, nested + 1, Nothing);
      if es.None? then None else Some(Parsed(Array(es.value.value), es.value.after))
    else if c == '{' then
      if pos + 1 == |src.text| then None else EntriesAt(src, pos + 1, nested + 1, Nothing, Draft([], {}))
    else ScalarAt(src, pos)
  }

  /** The loop of `parse_array`. */
  function ElementsAt(src: Source, pos: nat, nested: nat, last: Last): (r: Option<Parsed<seq<Value>>>)
    requires pos <= |src.text|
    ensures r.Some? ==> pos < r.value.after <= |src.text|
    decreases |src.text| - pos, 1
  {
    var p := BlanksEnd(src.text, pos);
    if p.None? || p.value == |src.text| then None
    else if src.text[p.value] == ',' then
      if last == Element && p.value + 1 < |src.text| then ElementsAt(src, p.value + 1, nested, Comma) else None
    else if src.text[p.value] == ']' then Some(Parsed([], p.value + 1))
    else if last == Element then None
    else
      var v := ValueAt(src, p.value, nested);
      if v.None? then None else PrependValue(v.value.value, ElementsAt(src, v.value.after, nested, Element))
  }

  /** The loop of `parse_inline_table`. */
  function EntriesAt(src: Source, pos: nat, nested: nat, last: Last, draft: Draft): (r: Option<Parsed<Value>>)
    requires pos <= |src.text|
    ensures r.Some? ==> pos < r.value.after <= |src.text|
    decreases |src.text| - pos, 1
  {
    var p := SpacesEnd(src.text, pos);
    if p.None? || p.value == |src.text| then None
    else if src.text[p.value] == ',' then
      if last == Element && p.value + 1 < |src.text| then EntriesAt(src, p.value + 1, nested, Comma, draft) else None
    else if src.text[p.value] == '}' then
      if last == Comma then None else Some(Parsed(Table(draft.entries), p.value + 1))
    else if last == Element || !(IsDelimiter(src.text[p.value]) || IsBareKeyChar(src.text[p.value])) then None
    else
      var k := PairAt(src.text, p.value);
      if k.None? || !CanAdd(draft.entries, draft.dotted, [], k.value.value) then None
      else
        var v := ValueAt(src, k.value.after, nested);
        if v.None? then None
        else EntriesAt(src, v.value.after, nested, Element, AddTo(draft, k.value.value, v.value.value))
  }
}
