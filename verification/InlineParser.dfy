/** The recursive-descent parser of `toml.hpp` for values: its position in the text, moved in place. */
module InlineParsers {
  import opened Characters
  import opened DateTimes
  import opened InlineGrammar
  import opened Integers
  import opened Keys
  import opened Numerals
  import Paths
  import opened StalePointers
  import opened StringParser
  import opened TomlValues
  import opened ValueKinds
  import opened Wrappers

  /** What a method of the parser made of what the grammar reads at a position. */
  predicate Agrees(v: Option<Value>, pos: nat, r: Option<Parsed<Value>>) {
    if r.None? then v == None else v == Some(r.value.value) && pos == r.value.after
  }

  class InlineParser {
    const src: Source
    /** Where the current code point is; behind the text at its end. */
    var pos: nat
    var nestedValues: nat

    constructor (src: Source)
      ensures this.src == src && pos == 0 && nestedValues == 0
    {
      this.src := src;
      pos, nestedValues := 0, 0;
    }

    /** `parse_value`. */
    method ParseValue() returns (v: Option<Value>)
      requires pos < |src.text|
      modifies this`pos, this`nestedValues
      ensures nestedValues == old(nestedValues)
      ensures Agrees(v, pos, ValueAt(src, old(pos), old(nestedValues)))
      decreases |src.text| - pos, 1
    {
      hide ScalarAt, IsControl;
      if nestedValues + 1 > MAX_NESTED_VALUES { return None; }
      var c := src.text[pos];
      if IsControl(c) || c == '_' { return None; }
      nestedValues := nestedValues + 1;
      if c == '[' {
        v := ParseArray();
      } else if c == '{' {
        v := ParseInlineTable();
      } else {
        v := ParseScalar();
      }
      nestedValues := nestedValues - 1;
    }

    /** `parse_array`. */
    method ParseArray() returns (v: Option<Value>)
      requires pos < |src.text| && src.text[pos] == '['
      modifies this`pos, this`nestedValues
      ensures nestedValues == old(nestedValues)
      ensures if old(pos) + 1 == |src.text| then v == None else
                var r := ElementsAt(src, old(pos) + 1, nestedValues, Nothing);
                Agrees(v, pos, if r.None? then None else Some(Parsed(Array(r.value.value), r.value.after)))
      decreases |src.text| - pos, 0
    {
      hide BlanksEnd, ValueAt, IsControl;
      pos := pos + 1;
      if pos == |src.text| { return None; }
      ghost var start := pos;
      ghost var whole := ElementsAt(src, pos, nestedValues, Nothing);
      var elems: seq<Value> := [];
      var last := Nothing;
      AddNoElements(whole);
      while true
        invariant start <= pos <= |src.text| && nestedValues == old(nestedValues)
        invariant whole == AddElements(elems, ElementsAt(src, pos, nestedValues, last))
        decreases |src.text| - pos
      {
        AddElement(elems, Boolean(true), None);
        var ok := ConsumeBlanks();
        if !ok || pos == |src.text| { return None; }
        if src.text[pos] == ',' {
          if last != Element { return None; }
          last := Comma;
          pos := pos + 1;
          if pos == |src.text| { return None; }
        } else if src.text[pos] == ']' {
          pos := pos + 1;
          AddEnd(elems, pos);
          return Some(Array(elems));
        } else {
          if last == Element { return None; }
          last := Element;
          var val := ParseValue();
          if val.None? { return None; }
          AddElement(elems, val.value, ElementsAt(src, pos, nestedValues, Element));
          elems := elems + [val.value];
        }
      }
    }

    /** `parse_inline_table`. */
    method ParseInlineTable() returns (v: Option<Value>)
      requires pos < |src.text| && src.text[pos] == '{'
      modifies this`pos, this`nestedValues
      ensures nestedValues == old(nestedValues)
      ensures if old(pos) + 1 == |src.text| then v == None else
                Agrees(v, pos, EntriesAt(src, old(pos) + 1, nestedValues, Nothing, Draft([], {})))
      decreases |src.text| - pos, 0
    {
      hide SpacesEnd, ValueAt, PairAt, CanAdd, AddTo, IsControl, IsBareKeyChar;
      pos := pos + 1;
      if pos == |src.text| { return None; }
      ghost var start := pos;
      var draft := Draft([], {});
      var last := Nothing;
      while true
        invariant start <= pos <= |src.text| && nestedValues == old(nestedValues)
        invariant EntriesAt(src, start, nestedValues, Nothing, Draft([], {}))
               == EntriesAt(src, pos, nestedValues, last, draft)
        decreases |src.text| - pos
      {
        var sp := ConsumeLeadingWhitespace(src.text, pos);
        if sp.None? || sp.value == |src.text| { return None; }
        pos := sp.value;
        if src.text[pos] == ',' {
          if last != Element { return None; }
          last := Comma;
          pos := pos + 1;
          if pos == |src.text| { return None; }
        } else if src.text[pos] == '}' {
          if last == Comma { return None; }
          pos := pos + 1;
          return Some(Table(draft.entries));
        } else if IsDelimiter(src.text[pos]) || IsBareKeyChar(src.text[pos]) {
          if last == Element { return None; }
          last := Element;
          var d := ParseKeyValuePairAndInsert(draft);
          if d.None? { return None; }
          draft := d.value;
        } else {
          return None;
        }
      }
    }

    /** `parse_key_value_pair_and_insert`, into an inline table. */
    method ParseKeyValuePairAndInsert(draft: Draft) returns (d: Option<Draft>)
      requires pos < |src.text|
      modifies this`pos, this`nestedValues
      ensures nestedValues == old(nestedValues)
      ensures var k := PairAt(src.text, old(pos));
              if k.None? || !CanAdd(draft.entries, draft.dotted, [], k.value.value) then d == None
              else
                var v := ValueAt(src, k.value.after, nestedValues);
                if v.None? then d == None
                else d == Some(AddTo(draft, k.value.value, v.value.value)) && pos == v.value.after
      decreases |src.text| - pos, 1
    {
      hide SpacesEnd, ValueAt, KeyAt, CanAdd, AddTo, EndsAt;
      var key := ParseKey(src.text, pos);
      if key.None? || key.value.after == |src.text| || src.text[key.value.after] != '=' { return None; }
      var sp := ConsumeLeadingWhitespace(src.text, key.value.after + 1);
      if sp.None? || EndsAt(src.text, sp.value) { return None; }
      EndOfText(src.text, sp.value);
      if !CanAdd(draft.entries, draft.dotted, [], key.value.value) { return None; }
      pos := sp.value;
      var val := ParseValue();
      if val.None? { return None; }
      return Some(AddTo(draft, key.value.value, val.value));
    }

    /** The values of `parse_value` that are neither arrays nor inline tables. */
    method ParseScalar() returns (v: Option<Value>)
      requires pos < |src.text|
      modifies this`pos
      ensures Agrees(v, pos, ScalarAt(src, old(pos)))
    {
      hide StringAt, NumberAt, BooleanAt, BeginsNumber;
      var c := src.text[pos];
      if IsDelimiter(c) {
        var s := ParseString(src.text, pos);
        if s.None? { return None; }
        pos := s.value.after;
        v := Some(String(s.value.value.value));
      } else if Lower(c) == 't' || Lower(c) == 'f' {
        v := ParseBoolean();
      } else if c == '.' || BeginsInfOrNan(c) {
        v := ParseFloat();
      } else if BeginsNumber(c) {
        v := ParseNumber();
      } else {
        v := None;
      }
    }

    /** The parsers of floats, infinities and not-a-numbers. */
    method ParseFloat() returns (v: Option<Value>)
      modifies this`pos
      ensures Agrees(v, pos, FloatAt(src, old(pos)))
    {
      var r := FloatAt(src, pos);
      if r.None? { return None; }
      pos := r.value.after;
      v := Some(r.value.value);
    }

    /** `parse_boolean`. */
    method ParseBoolean() returns (v: Option<Value>)
      requires pos < |src.text|
      modifies this`pos
      ensures Agrees(v, pos, BooleanAt(src.text, old(pos)))
    {
      var result := src.text[pos] == 't' || src.text[pos] == 'T';
      var word := if result then "true" else "false";
      var ok := ConsumeExpectedSequence(word);
      if !ok || !EndsAt(src.text, pos) { return None; }
      return Some(Boolean(result));
    }

    method ConsumeExpectedSequence(word: string) returns (ok: bool)
      requires pos <= |src.text|
      modifies this`pos
      ensures ok <==> At(src.text, old(pos), word)
      ensures ok ==> pos == old(pos) + |word|
    {
      for i := 0 to |word|
        invariant pos == old(pos) + i <= |src.text| && src.text[old(pos)..pos] == word[..i]
      {
        if pos == |src.text| { return false; }
        if src.text[pos] != word[i] {
          Differs(src.text, old(pos), word, i);
          return false;
        }
        pos := pos + 1;
      }
      return true;
    }

    /** The rest of `parse_value`, for values that begin with a digit or a sign. */
    method ParseNumber() returns (v: Option<Value>)
      requires pos < |src.text| && BeginsNumber(src.text[pos])
      modifies this`pos
      ensures Agrees(v, pos, NumberAt(src, old(pos)))
    {
      hide ScanValue, KindOf, Integers.Integer, TimeAt, MomentAt, FloatAt;
      var s, _ := ScanAhead(src.text, pos);
      KindBegins(src.text, pos);
      match KindOf(s)
      case OneDigit =>
        pos := pos + 1;
        v := Some(Integer(DigitOf(s.chars[0]), Decimal));
      case SignedDigit =>
        var d := if |s.chars| > 1 then DigitOf(s.chars[1]) else 0;
        pos := pos + 2;
        v := Some(Integer(if s.chars[0] == '-' then -d else d, Decimal));
      case IntegerKind(base) =>
        if base == 10 && s.after < |src.text| && s.after - pos > MAX_SCAN - 1 { return None; }
        var n := ParseInteger(src.text, Shown(src.text, pos), pos, base);
        if n.None? { return None; }
        pos := n.value.after;
        v := Some(Integer(n.value.value, FormatOf(base)));
      case FloatKind =>
        v := ParseFloat();
      case DateKind =>
        var d := ParseDate(src.text, pos, false);
        if d.None? { return None; }
        pos := pos + 10;
        v := Some(LocalDate(d.value.value));
      case TimeKind =>
        var t := ParseTime(src.text, pos, false);
        if t.None? { return None; }
        pos := t.value.after;
        v := Some(LocalTime(t.value.value));
      case MomentKind =>
        var m := ParseDateTime(src.text, pos);
        if m.None? { return None; }
        pos := m.value.after;
        v := Some(Moment(m.value.value));
      case NoKind =>
        v := None;
    }

    /** `consume_comment`, behind the `#`. */
    method ConsumeComment() returns (ok: bool)
      requires pos <= |src.text|
      modifies this`pos
      ensures ok <==> CommentEnd(src.text, old(pos)).Some?
      ensures ok ==> pos == CommentEnd(src.text, old(pos)).value
    {
      hide LineBreakAt, IsNonTabControl;
      while pos < |src.text|
        invariant old(pos) <= pos <= |src.text| && CommentEnd(src.text, old(pos)) == CommentEnd(src.text, pos)
      {
        var b := ConsumeLineBreak(src.text, pos);
        match b
        case Broken(after) =>
          pos := after;
          return true;
        case BadBreak => return false;
        case NoBreak =>
          if IsNonTabControl(src.text[pos]) { return false; }
          pos := pos + 1;
      }
      return true;
    }

    /** The loop over whitespace, line breaks and comments between the elements of an array. */
    method ConsumeBlanks() returns (ok: bool)
      requires pos <= |src.text|
      modifies this`pos
      ensures ok <==> BlanksEnd(src.text, old(pos)).Some?
      ensures ok ==> pos == BlanksEnd(src.text, old(pos)).value
    {
      hide LineBreakAt, SpacesEnd, CommentEnd;
      while true
        invariant old(pos) <= pos <= |src.text| && BlanksEnd(src.text, old(pos)) == BlanksEnd(src.text, pos)
        decreases |src.text| - pos
      {
        var sp := ConsumeLeadingWhitespace(src.text, pos);
        if sp.None? { return false; }
        if sp.value > pos {
          pos := sp.value;
          continue;
        }
        var b := ConsumeLineBreak(src.text, pos);
        match b
        case Broken(after) => pos := after;
        case BadBreak => return false;
        case NoBreak =>
          if pos == |src.text| || src.text[pos] != '#' { return true; }
          pos := pos + 1;
          var comment := ConsumeComment();
          if !comment { return false; }
      }
    }
  }

  function AddElements(es: seq<Value>, r: Option<Parsed<seq<Value>>>): Option<Parsed<seq<Value>>> {
    if r.None? then None else Some(Parsed(es + r.value.value, r.value.after))
  }

  lemma AddNoElements(r: Option<Parsed<seq<Value>>>)
    ensures AddElements([], r) == r
  {
    if r.Some? { assert [] + r.value.value == r.value.value; }
  }

  lemma AddElement(es: seq<Value>, v: Value, r: Option<Parsed<seq<Value>>>)
    ensures AddElements(es, PrependValue(v, r)) == AddElements(es + [v], r)
    ensures AddElements(es, None) == None
  {
    if r.Some? { assert es + ([v] + r.value.value) == es + [v] + r.value.value; }
  }

  lemma AddEnd(es: seq<Value>, end: nat)
    ensures AddElements(es, Some(Parsed([], end))) == Some(Parsed(es, end))
  {
    assert es + [] == es;
  }

  lemma Differs(text: string, pos: nat, word: string, i: nat)
    requires i < |word| && pos + i < |text| && text[pos + i] != word[i]
    ensures !At(text, pos, word)
  {
    if At(text, pos, word) { AtCharOf(text, pos, word, i); }
  }
}
