/** The string parsers of `toml.hpp`, from the opening delimiter of a string on. */
module StringParser {
  import opened Characters
  import opened Integers
  import opened Numerals
  import opened Wrappers

  // ---------------------------------------------------------------- spaces and line breaks

  /** Behind spaces and tabs; other horizontal whitespace is an error. */
  function SpacesEnd(text: string, pos: nat): (r: Option<nat>)
    requires pos <= |text|
    ensures r.Some? ==> pos <= r.value <= |text| && (r.value < |text| ==> !IsHorizontalSpace(text[r.value]))
    decreases |text| - pos
  {
    if pos == |text| || !IsHorizontalSpace(text[pos]) then Some(pos)
    else if IsSpaceOrTab(text[pos]) then SpacesEnd(text, pos + 1)
    else None
  }

  /** `consume_leading_whitespace`. */
  method ConsumeLeadingWhitespace(text: string, pos: nat) returns (r: Option<nat>)
    requires pos <= |text|
    ensures r == SpacesEnd(text, pos)
  {
    hide IsForeignSpace;
    var p := pos;
    while p < |text| && IsHorizontalSpace(text[p])
      invariant pos <= p <= |text| && SpacesEnd(text, pos) == SpacesEnd(text, p)
    {
      if !IsSpaceOrTab(text[p]) { return None; }
      p := p + 1;
    }
    return Some(p);
  }

  datatype LineBreak = NoBreak | Broken(after: nat) | BadBreak

  function LineBreakAt(text: string, pos: nat): (r: LineBreak)
    ensures r.Broken? ==> pos < r.after <= |text|
  {
    if pos >= |text| then NoBreak
    else if text[pos] == '\U{B}' || text[pos] == '\U{C}' then BadBreak
    else if text[pos] == '\n' then Broken(pos + 1)
    else if text[pos] == '\r' then (if At(text, pos, "\r\n") then Broken(pos + 2) else BadBreak)
    else NoBreak
  }

  /** `consume_line_break`. */
  method ConsumeLineBreak(text: string, pos: nat) returns (r: LineBreak)
    requires pos <= |text|
    ensures r == LineBreakAt(text, pos)
  {
    if pos == |text| { return NoBreak; }
    var p := pos;
    if text[p] == '\U{B}' || text[p] == '\U{C}' { return BadBreak; }
    if text[p] == '\r' {
      AtConcat(text, pos, "\r", "\n");
      AtChar(text, pos, '\r');
      AtChar(text, pos + 1, '\n');
      p := p + 1;
      if p == |text| || text[p] != '\n' { return BadBreak; }
    } else if text[p] != '\n' {
      return NoBreak;
    }
    return Broken(p + 1);
  }

  predicate IsAsciiVertical(c: char) {
    '\n' <= c <= '\r'
  }

  // ---------------------------------------------------------------- escapes

  /** What a multi-digit escape denotes, unless it is not a scalar value. */
  function CodePointAt(text: string, pos: nat, digits: nat): (r: Option<Parsed<char>>)
    ensures r.Some? ==> r.value.after == pos + digits <= |text|
  {
    if pos + digits > |text| || !AllDigitChars(text[pos..pos + digits], 16) then None
    else
      var v := FromText(text[pos..pos + digits], 16);
      if 0xD800 <= v <= 0xDFFF || v > 0x10FFFF then None else Some(Parsed(v as char, pos + digits))
  }

  /** The escape sequence whose letter is at `pos`. */
  function EscapeAt(text: string, pos: nat): (r: Option<Parsed<char>>)
    requires pos < |text|
    ensures r.Some? ==> pos < r.value.after <= |text|
  {
    match text[pos]
    case 'b' => Some(Parsed('\U{8}', pos + 1))
    case 'f' => Some(Parsed('\U{C}', pos + 1))
    case 'n' => Some(Parsed('\n', pos + 1))
    case 'r' => Some(Parsed('\r', pos + 1))
    case 't' => Some(Parsed('\t', pos + 1))
    case '\"' => Some(Parsed('\"', pos + 1))
    case '\\' => Some(Parsed('\\', pos + 1))
    case 'u' => CodePointAt(text, pos + 1, 4)
    case 'U' => CodePointAt(text, pos + 1, 8)
    case _ => None
  }

  /** The loop over the digits of a Unicode escape, with its falling place value in a `uint32_t`. */
  method ParseCodePoint(text: string, pos: nat, digits: nat) returns (r: Option<Parsed<char>>)
    requires pos <= |text| && (digits == 4 || digits == 8)
    ensures r == CodePointAt(text, pos, digits)
  {
    hide AllDigitChars, FromText, DigitValue;
    var placeValue := if digits == 8 then 0x1000_0000 else 0x1000;
    var value, p := 0, pos;
    Places(digits);
    NothingRead(text, pos, digits);
    while placeValue != 0
      invariant pos <= p <= pos + digits && p <= |text| && AllDigitChars(text[pos..p], 16)
      invariant placeValue == if p == pos + digits then 0 else Pow(16, digits - 1 - (p - pos))
      invariant value == FromText(text[pos..p], 16) * Pow(16, digits - (p - pos))
      decreases pos + digits - p
    {
      if p == |text| { return None; }
      if !IsDigitChar(text[p], 16) {
        NoDigitIn(text, pos, p, digits);
        return None;
      }
      PlaceStep(text, pos, p, digits);
      value := (value + placeValue * DigitValue(text[p])) % 0x1_0000_0000;
      placeValue := placeValue / 16;
      p := p + 1;
    }
    assert Pow(16, 0) == 1;
    if 0xD800 <= value <= 0xDFFF || value > 0x10FFFF { return None; }
    return Some(Parsed(value as char, p));
  }

  lemma Places(digits: nat)
    requires digits == 4 || digits == 8
    ensures Pow(16, 3) == 0x1000 && Pow(16, 7) == 0x1000_0000
  {
    PowDouble(16, 1);
    PowDouble(16, 3);
  }

  lemma NothingRead(text: string, pos: nat, digits: nat)
    requires pos <= |text|
    ensures AllDigitChars(text[pos..pos], 16) && FromText(text[pos..pos], 16) * Pow(16, digits) == 0
  {
    EmptyText(text[..pos], 16);
    assert text[..pos][pos..] == text[pos..pos];
  }

  lemma NoDigitIn(text: string, pos: nat, p: nat, digits: nat)
    requires pos <= p < pos + digits && p < |text| && !IsDigitChar(text[p], 16)
    ensures CodePointAt(text, pos, digits) == None
  {
    if pos + digits <= |text| { assert text[pos..pos + digits][p - pos] == text[p]; }
  }

  lemma PlaceStep(text: string, pos: nat, p: nat, digits: nat)
    requires pos <= p < pos + digits && p < |text| && digits <= 8
    requires AllDigitChars(text[pos..p], 16) && IsDigitChar(text[p], 16)
    ensures AllDigitChars(text[pos..p + 1], 16)
    ensures var k := digits - 1 - (p - pos);
            && FromText(text[pos..p], 16) * Pow(16, k + 1) + Pow(16, k) * DigitValue(text[p])
               == FromText(text[pos..p + 1], 16) * Pow(16, k) < 0x1_0000_0000
            && (k > 0 ==> Pow(16, k) / 16 == Pow(16, k - 1)) && (k == 0 ==> Pow(16, k) / 16 == 0)
  {
    hide Pow, DigitValue, FromDigits;
    var s, d, k := text[pos..p], DigitValue(text[p]), digits - 1 - (p - pos);
    assert text[pos..p + 1] == s + [text[p]];
    HexDigits(s, 16);
    HexDigits(s + [text[p]], 16);
    assert DigitValues(s + [text[p]]) == DigitValues(s) + [d];
    LastDigit(DigitValues(s), d);
    FromDigitsBound(DigitValues(s + [text[p]]), 16);
    WithPlace(FromDigits(DigitValues(s), 16), d, k, p + 1 - pos, FromDigits(DigitValues(s + [text[p]]), 16));
  }

  lemma LastDigit(ds: seq<nat>, d: nat)
    ensures FromDigits(ds + [d], 16) == FromDigits(ds, 16) * 16 + d
  {
    assert (ds + [d])[..|ds|] == ds;
  }

  lemma WithPlace(v: nat, d: nat, k: nat, n: nat, w: nat)
    requires w == v * 16 + d && w < Pow(16, n) && k + n <= 8
    ensures v * Pow(16, k + 1) + Pow(16, k) * d == w * Pow(16, k) < 0x1_0000_0000
    ensures if k > 0 then Pow(16, k) / 16 == Pow(16, k - 1) else Pow(16, k) / 16 == 0
  {
    hide Pow;
    PowStep(16, k);
    if k > 0 { PowStep(16, k - 1); } else { PowStep(16, 0); }
    EightHexDigits(k, n);
    Scaled(v, d, Pow(16, k));
    Below(w, Pow(16, n), Pow(16, k));
  }

  lemma EightHexDigits(k: nat, n: nat)
    requires k + n <= 8
    ensures Pow(16, n) * Pow(16, k) <= 0x1_0000_0000 && Pow(16, k) >= 1
  {
    hide Pow;
    PowAdd(16, n, k);
    Commute(Pow(16, n), Pow(16, k));
    PowMonotone(16, k + n, 8);
    PowMonotone(16, 0, k);
    PowEight();
  }

  lemma PowEight()
    ensures Pow(16, 8) == 0x1_0000_0000
  {
    Places(8);
    PowDouble(16, 1);
    PowDouble(16, 2);
    PowDouble(16, 4);
  }

  lemma Scaled(v: nat, d: nat, p: nat)
    ensures v * (p * 16) + p * d == (v * 16 + d) * p
  {}

  lemma Below(w: nat, q: nat, p: nat)
    requires w < q && p >= 1
    ensures w * p < q * p
  {}

  // ---------------------------------------------------------------- basic strings

  /** How many of at most `n` characters from `pos` on are the delimiter. */
  function QuoteRun(text: string, pos: nat, q: char, n: nat): (k: nat)
    ensures k <= n && (pos <= |text| ==> pos + k <= |text|)
    ensures forall i | pos <= i < pos + k :: i < |text| && text[i] == q
    ensures k < n && pos + k < |text| ==> text[pos + k] != q
    decreases n
  {
    if n == 0 || pos >= |text| || text[pos] != q then 0 else 1 + QuoteRun(text, pos + 1, q, n - 1)
  }

  /** What one round of a string parser's loop does. */
  datatype Round = Fail | Done(last: string, end: nat) | More(piece: string, after: nat, escaped: bool, skipping: bool)

  /** A run of delimiters in a multi-line string: part of it, its end, or both. */
  function QuotesRound(text: string, pos: nat, q: char): (r: Round)
    requires pos < |text| && text[pos] == q
    ensures r.More? ==> pos < r.after <= |text|
    ensures r.Done? ==> pos < r.end <= |text|
  {
    match QuoteRun(text, pos, q, 5)
    case 1 => More([q], pos + 1, false, false)
    case 2 => More([q, q], pos + 2, false, false)
    case 3 => Done("", pos + 3)
    case 4 => Done([q], pos + 4)
    case _ => Done([q, q], pos + 5)
  }

  /** A backslash at the end of a line: whitespace up to the next other character is skipped. */
  function LineContinuation(text: string, pos: nat): (r: Round)
    requires pos < |text|
    ensures r.More? ==> pos < r.after <= |text|
  {
    var p := SpacesEnd(text, pos);
    if p.None? then Fail else
      var b := LineBreakAt(text, p.value);
      if b.Broken? then More("", b.after, false, true) else Fail
  }

  /** One round of the loop of `parse_basic_string`. */
  function BasicRound(text: string, pos: nat, multi: bool, escaped: bool, skipping: bool): (r: Round)
    requires pos < |text|
    ensures r.More? ==> pos < r.after <= |text|
    ensures r.Done? ==> pos < r.end <= |text|
  {
    var c := text[pos];
    if escaped then
      if multi && (IsHorizontalSpace(c) || IsVerticalSpace(c)) then LineContinuation(text, pos)
      else
        var e := EscapeAt(text, pos);
        if e.None? then Fail else More([e.value.value], e.value.after, false, skipping)
    else if c == '\"' then
      if multi then QuotesRound(text, pos, c) else Done("", pos + 1)
    else if c == '\\' then More("", pos + 1, true, false)
    else if multi && IsAsciiVertical(c) then
      var b := LineBreakAt(text, pos);
      if b.Broken? then More(if skipping then "" else "\n", b.after, false, skipping) else Fail
    else if IsNonTabControl(c) then Fail
    else if multi && skipping && IsHorizontalSpace(c) then More("", pos + 1, false, true)
    else More([c], pos + 1, false, if multi then false else skipping)
  }

  function Prepend(s: string, r: Option<Parsed<string>>): Option<Parsed<string>> {
    if r.None? then None else Some(Parsed(s + r.value.value, r.value.after))
  }

  lemma PrependAll(s: string, t: string, r: Option<Parsed<string>>)
    ensures Prepend(s, Prepend(t, r)) == Prepend(s + t, r) && Prepend("", r) == r
  {
    if r.Some? {
      assert s + (t + r.value.value) == s + t + r.value.value;
      assert "" + r.value.value == r.value.value;
    }
  }

  /** The rest of a basic string: its contents from `pos` on, and where it ends. */
  function BasicRest(text: string, pos: nat, multi: bool, escaped: bool, skipping: bool): (r: Option<Parsed<string>>)
    requires pos <= |text|
    ensures r.Some? ==> pos < r.value.after <= |text|
    decreases |text| - pos
  {
    if pos == |text| then None
    else
      match BasicRound(text, pos, multi, escaped, skipping)
      case Fail => None
      case Done(last, end) => Some(Parsed(last, end))
      case More(piece, after, e, s) => Prepend(piece, BasicRest(text, after, multi, e, s))
  }

  /** Behind a line break right at the beginning of a multi-line string. */
  function ContentsStart(text: string, pos: nat, multi: bool): (r: Option<nat>)
    requires pos <= |text|
    ensures r.Some? ==> pos <= r.value <= |text|
  {
    if !multi then Some(pos) else
      match LineBreakAt(text, pos)
      case NoBreak => Some(pos)
      case Broken(after) => Some(after)
      case BadBreak => None
  }

  /** The loop over the delimiters of a multi-line string that looks ahead. */
  method CountQuotes(text: string, pos: nat, q: char) returns (r: Round)
    requires pos < |text| && text[pos] == q
    ensures r == QuotesRound(text, pos, q)
  {
    var p, lookaheads, consecutive := pos, 0, 1;
    while lookaheads < 4
      invariant p == pos + lookaheads < |text| && consecutive == lookaheads + 1 <= 5
      invariant forall i | pos <= i <= p :: text[i] == q
    {
      p := p + 1;
      lookaheads := lookaheads + 1;
      if p < |text| && text[p] == q { consecutive := consecutive + 1; } else { break; }
    }
    RunIs(text, pos, q, consecutive, 5);
    match consecutive
    case 1 => r := More([q], p, false, false);
    case 2 => r := More([q, q], p, false, false);
    case 3 => r := Done("", p);
    case 4 => r := Done([q], p);
    case 5 => r := Done([q, q], p + 1);
  }

  lemma {:induction false} RunIs(text: string, pos: nat, q: char, k: nat, n: nat)
    requires k <= n && pos + k <= |text| && (forall i | pos <= i < pos + k :: text[i] == q)
    requires k == n || pos + k == |text| || text[pos + k] != q
    ensures QuoteRun(text, pos, q, n) == k
    decreases k
  {
    if k > 0 { RunIs(text, pos + 1, q, k - 1, n - 1); }
  }

  /** The escaped branch of the loop of `parse_basic_string`. */
  method ParseEscaped(text: string, pos: nat, multi: bool, skipping: bool) returns (r: Round)
    requires pos < |text|
    ensures r == BasicRound(text, pos, multi, true, skipping)
  {
    hide IsHorizontalSpace, IsVerticalSpace, SpacesEnd, LineBreakAt, CodePointAt;
    if multi && (IsHorizontalSpace(text[pos]) || IsVerticalSpace(text[pos])) {
      var p := ConsumeLeadingWhitespace(text, pos);
      if p.None? { return Fail; }
      var b := ConsumeLineBreak(text, p.value);
      return if b.Broken? then More("", b.after, false, true) else Fail;
    }
    match text[pos]
    case 'b' => return More("\U{8}", pos + 1, false, skipping);
    case 'f' => return More("\U{C}", pos + 1, false, skipping);
    case 'n' => return More("\n", pos + 1, false, skipping);
    case 'r' => return More("\r", pos + 1, false, skipping);
    case 't' => return More("\t", pos + 1, false, skipping);
    case '\"' => return More("\"", pos + 1, false, skipping);
    case '\\' => return More("\\", pos + 1, false, skipping);
    case 'u' => r := ParseUnicodeEscape(text, pos, 4, skipping);
    case 'U' => r := ParseUnicodeEscape(text, pos, 8, skipping);
    case _ => return Fail;
  }

  method ParseUnicodeEscape(text: string, pos: nat, digits: nat, skipping: bool) returns (r: Round)
    requires pos < |text| && (digits == 4 || digits == 8)
    ensures var e := CodePointAt(text, pos + 1, digits);
            r == if e.None? then Fail else More([e.value.value], e.value.after, false, skipping)
  {
    var c := ParseCodePoint(text, pos + 1, digits);
    return if c.None? then Fail else More([c.value.value], c.value.after, false, skipping);
  }

  /** The other branch of the loop of `parse_basic_string`. */
  method ParseUnescaped(text: string, pos: nat, multi: bool, skipping: bool) returns (r: Round)
    requires pos < |text|
    ensures r == BasicRound(text, pos, multi, false, skipping)
  {
    hide IsHorizontalSpace, IsVerticalSpace, SpacesEnd, LineBreakAt, IsNonTabControl, QuotesRound;
    var c := text[pos];
    if c == '\"' {
      if !multi { return Done("", pos + 1); }
      r := CountQuotes(text, pos, '\"');
      return;
    }
    if c == '\\' { return More("", pos + 1, true, false); }
    if multi && IsAsciiVertical(c) {
      var b := ConsumeLineBreak(text, pos);
      return if b.Broken? then More(if skipping then "" else "\n", b.after, false, skipping) else Fail;
    }
    if IsNonTabControl(c) { return Fail; }
    if multi {
      if !skipping || !IsHorizontalSpace(c) { return More([c], pos + 1, false, false); }
      return More("", pos + 1, false, true);
    }
    return More([c], pos + 1, false, skipping);
  }

  /** `parse_basic_string`, from behind its opening delimiter. */
  method ParseBasicString(text: string, pos: nat, multi: bool) returns (r: Option<Parsed<string>>)
    requires pos <= |text|
    ensures r == var start := ContentsStart(text, pos, multi);
                 if start.None? then None else BasicRest(text, start.value, multi, false, false)
  {
    hide BasicRound, LineBreakAt, Prepend;
    var p := pos;
    if multi {
      var b := ConsumeLineBreak(text, p);
      if b.BadBreak? { return None; }
      if b.Broken? { p := b.after; }
    }
    ghost var whole := BasicRest(text, p, multi, false, false);
    var str, escaped, skipping := "", false, false;
    PrependAll("", "", whole);
    while p < |text|
      invariant p <= |text| && whole == Prepend(str, BasicRest(text, p, multi, escaped, skipping))
      decreases |text| - p
    {
      var round;
      if escaped {
        round := ParseEscaped(text, p, multi, skipping);
      } else {
        round := ParseUnescaped(text, p, multi, skipping);
      }
      PrependEnds(str);
      match round
      case Fail => return None;
      case Done(last, end) => return Some(Parsed(str + last, end));
      case More(piece, after, e, s) =>
        PrependAll(str, piece, BasicRest(text, after, multi, e, s));
        str, p, escaped, skipping := str + piece, after, e, s;
    }
    PrependEnds(str);
    return None;
  }

  lemma PrependEnds(s: string)
    ensures Prepend(s, None) == None
    ensures forall t, end :: Prepend(s, Some(Parsed(t, end))) == Some(Parsed(s + t, end))
  {}

  // ---------------------------------------------------------------- literal strings

  /** One round of the loop of `parse_literal_string`. */
  function LiteralRound(text: string, pos: nat, multi: bool): (r: Round)
    requires pos < |text|
    ensures r.More? ==> pos < r.after <= |text|
    ensures r.Done? ==> pos < r.end <= |text|
  {
    var c := text[pos];
    if c == '\'' then
      if multi then QuotesRound(text, pos, c) else Done("", pos + 1)
    else if multi && IsAsciiVertical(c) then
      var b := LineBreakAt(text, pos);
      if b.Broken? then More("\n", b.after, false, false) else Fail
    else if IsNonTabControl(c) then Fail
    else More([c], pos + 1, false, false)
  }

  function LiteralRest(text: string, pos: nat, multi: bool): (r: Option<Parsed<string>>)
    requires pos <= |text|
    ensures r.Some? ==> pos < r.value.after <= |text|
    decreases |text| - pos
  {
    if pos == |text| then None
    else
      match LiteralRound(text, pos, multi)
      case Fail => None
      case Done(last, end) => Some(Parsed(last, end))
      case More(piece, after, _, _) => Prepend(piece, LiteralRest(text, after, multi))
  }

  method ParseLiteralCharacter(text: string, pos: nat, multi: bool) returns (r: Round)
    requires pos < |text|
    ensures r == LiteralRound(text, pos, multi)
  {
    hide LineBreakAt, IsNonTabControl, QuotesRound;
    if text[pos] == '\'' {
      if !multi { return Done("", pos + 1); }
      r := CountQuotes(text, pos, '\'');
      return;
    }
    if multi && IsAsciiVertical(text[pos]) {
      var b := ConsumeLineBreak(text, pos);
      return if b.Broken? then More("\n", b.after, false, false) else Fail;
    }
    if IsNonTabControl(text[pos]) { return Fail; }
    return More([text[pos]], pos + 1, false, false);
  }

  /** `parse_literal_string`, from behind its opening delimiter. */
  method ParseLiteralString(text: string, pos: nat, multi: bool) returns (r: Option<Parsed<string>>)
    requires pos <= |text|
    ensures r == var start := ContentsStart(text, pos, multi);
                 if start.None? then None else LiteralRest(text, start.value, multi)
  {
    hide LiteralRound, LineBreakAt, Prepend;
    var p := pos;
    if multi {
      var b := ConsumeLineBreak(text, p);
      if b.BadBreak? { return None; }
      if b.Broken? { p := b.after; }
    }
    ghost var whole := LiteralRest(text, p, multi);
    var str := "";
    PrependAll("", "", whole);
    while p < |text|
      invariant p <= |text| && whole == Prepend(str, LiteralRest(text, p, multi))
      decreases |text| - p
    {
      var round := ParseLiteralCharacter(text, p, multi);
      PrependEnds(str);
      match round
      case Fail => return None;
      case Done(last, end) => return Some(Parsed(str + last, end));
      case More(piece, after, _, _) =>
        PrependAll(str, piece, LiteralRest(text, after, multi));
        str, p := str + piece, after;
    }
    PrependEnds(str);
    return None;
  }

  // ---------------------------------------------------------------- strings

  datatype ParsedString = ParsedString(value: string, wasMultiLine: bool)

  predicate IsDelimiter(c: char) {
    c == '\"' || c == '\''
  }

  /** The contents from behind an opening delimiter. */
  function ContentsAt(text: string, pos: nat, q: char, multi: bool): (r: Option<Parsed<ParsedString>>)
    requires pos <= |text|
    ensures r.Some? ==> pos < r.value.after <= |text|
  {
    var start := ContentsStart(text, pos, multi);
    if start.None? then None else
      var r := if q == '\'' then LiteralRest(text, start.value, multi)
               else BasicRest(text, start.value, multi, false, false);
      if r.None? then None else Some(Parsed(ParsedString(r.value.value, multi), r.value.after))
  }

  /** The string whose delimiter is at `pos`. */
  function StringAt(text: string, pos: nat): (r: Option<Parsed<ParsedString>>)
    requires pos < |text| && IsDelimiter(text[pos])
    ensures r.Some? ==> pos < r.value.after <= |text|
  {
    var q := text[pos];
    if pos + 1 == |text| then None
    else if pos + 2 == |text| then
      (if text[pos + 1] == q then Some(Parsed(ParsedString("", false), pos + 2)) else None)
    else if text[pos + 1] == q && text[pos + 2] == q then ContentsAt(text, pos + 3, q, true)
    else ContentsAt(text, pos + 1, q, false)
  }

  method ParseContents(text: string, pos: nat, q: char, multi: bool) returns (r: Option<Parsed<ParsedString>>)
    requires pos <= |text|
    ensures r == ContentsAt(text, pos, q, multi)
  {
    hide BasicRest, LiteralRest, ContentsStart;
    var s;
    if q == '\'' {
      s := ParseLiteralString(text, pos, multi);
    } else {
      s := ParseBasicString(text, pos, multi);
    }
    return if s.None? then None else Some(Parsed(ParsedString(s.value.value, multi), s.value.after));
  }

  /** `parse_string`, which looks at three characters and may go back to the first. */
  method ParseString(text: string, pos: nat) returns (r: Option<Parsed<ParsedString>>)
    requires pos < |text| && IsDelimiter(text[pos])
    ensures r == StringAt(text, pos)
  {
    hide ContentsAt;
    var p := pos;
    var first := text[p];
    p := p + 1;
    if p == |text| { return None; }
    var second := text[p];
    p := p + 1;
    if p == |text| {
      return if second == first then Some(Parsed(ParsedString("", false), p)) else None;
    }
    var third := text[p];
    if first == second && first == third {
      r := ParseContents(text, p + 1, first, true);
    } else {
      p := p - 2;
      r := ParseContents(text, p + 1, first, false);
    }
  }
}
