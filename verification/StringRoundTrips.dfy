/** Which printed strings of `toml.hpp` are read back. */
module StringRoundTrips {
  import opened Characters
  import opened Integers
  import opened Numerals
  import opened StringParser
  import opened StringPrinter
  import opened Wrappers

  // ---------------------------------------------------------------- basic strings

  lemma SixteenToThe()
    ensures Pow(16, 4) == 0x1_0000 && Pow(16, 8) == 0x1_0000_0000
  {
    PowEight();
    PowDouble(16, 1);
    PowDouble(16, 2);
  }

  /** The digits of a Unicode escape denote the character they were printed for. */
  lemma CodePointRead(text: string, pos: nat, c: char, digits: nat)
    requires digits >= 1 && c as nat < Pow(16, digits) && At(text, pos, Padded(c as nat, digits, 16))
    ensures CodePointAt(text, pos, digits) == Some(Parsed(c, pos + digits))
  {
    hide Padded, FromText, AllDigitChars, Pow;
    PaddedText(c as nat, digits, 16);
  }

  lemma HexEscapeRead(text: string, pos: nat, c: char)
    requires At(text, pos, HexEscape(c))
    ensures pos + 1 < |text| && text[pos] == '\\'
    ensures EscapeAt(text, pos + 1) == Some(Parsed(c, pos + |HexEscape(c)|))
  {
    hide Padded, At, CodePointAt, Pow;
    SixteenToThe();
    var digits := if c as int > 0xFFFF then 8 else 4;
    var letter := if c as int > 0xFFFF then "\\U" else "\\u";
    PaddedText(c as nat, digits, 16);
    AtConcat(text, pos, letter, Padded(c as nat, digits, 16));
    assert letter == "\\" + [letter[1]];
    AtConcat(text, pos, "\\", [letter[1]]);
    AtChar(text, pos, '\\');
    AtChar(text, pos + 1, letter[1]);
    CodePointRead(text, pos + 2, c, digits);
  }

  lemma HexEscapeLength(c: char)
    ensures |HexEscape(c)| >= 2
  {}

  lemma ShortEscapeRead(text: string, pos: nat, c: char, letter: char)
    requires At(text, pos, ['\\', letter])
    requires (c == '\"' && letter == '\"') || (c == '\\' && letter == '\\') || (c == '\U{8}' && letter == 'b')
          || (c == '\t' && letter == 't') || (c == '\n' && letter == 'n') || (c == '\U{C}' && letter == 'f')
          || (c == '\r' && letter == 'r')
    ensures pos + 1 < |text| && text[pos] == '\\' && EscapeAt(text, pos + 1) == Some(Parsed(c, pos + 2))
  {
    assert ['\\', letter] == ['\\'] + [letter];
    AtConcat(text, pos, ['\\'], [letter]);
    AtChar(text, pos, '\\');
    AtChar(text, pos + 1, letter);
  }

  /** A backslash and an escape sequence add the character they stand for. */
  lemma EscapeAdds(text: string, pos: nat, c: char, end: nat, multi: bool)
    requires pos + 1 < |text| && text[pos] == '\\' && EscapeAt(text, pos + 1) == Some(Parsed(c, end))
    ensures end <= |text|
    ensures BasicRest(text, pos, multi, false, false) == Prepend([c], BasicRest(text, end, multi, false, false))
  {
    hide LineContinuation, QuotesRound, CodePointAt, Prepend;
    EscapesAreVisible(text, pos + 1);
    assert BasicRound(text, pos, multi, false, false) == More("", pos + 1, true, false);
    assert BasicRound(text, pos + 1, multi, true, false) == More([c], end, false, false);
    PrependAll("", "", BasicRest(text, pos + 1, multi, true, false));
  }

  lemma EscapesAreVisible(text: string, pos: nat)
    requires pos < |text| && EscapeAt(text, pos).Some?
    ensures !IsHorizontalSpace(text[pos]) && !IsVerticalSpace(text[pos]) && EscapeAt(text, pos).value.after <= |text|
  {
    hide CodePointAt;
  }

  /** A character that is printed as it is adds itself. */
  lemma PlainAdds(text: string, pos: nat, c: char, multi: bool)
    requires At(text, pos, [c]) && c != '\"' && c != '\\'
    requires !IsNonTabControl(c) || (multi && c == '\n')
    ensures pos + 1 <= |text|
    ensures BasicRest(text, pos, multi, false, false) == Prepend([c], BasicRest(text, pos + 1, multi, false, false))
  {
    hide LineContinuation, QuotesRound, EscapeAt, Prepend;
    AtChar(text, pos, c);
  }

  /** Every escape, and every character left as it is, adds the character it was printed for. */
  lemma EscapeReads(text: string, pos: nat, c: char, multi: bool, realTabs: bool, unicode: bool)
    requires At(text, pos, Escape(c, multi, realTabs, unicode))
    ensures var end := pos + |Escape(c, multi, realTabs, unicode)|;
            && end <= |text|
            && BasicRest(text, pos, multi, false, false) == Prepend([c], BasicRest(text, end, multi, false, false))
  {
    hide BasicRest, HexEscape, At, EscapeAt, Prepend;
    var e := Escape(c, multi, realTabs, unicode);
    HexEscapeLength(c);
    if e == [c] {
      PlainAdds(text, pos, c, multi);
    } else {
      if e == HexEscape(c) {
        HexEscapeRead(text, pos, c);
      } else {
        assert |e| == 2 && e == ['\\', e[1]];
        ShortEscapeRead(text, pos, c, e[1]);
      }
      EscapeAdds(text, pos, c, pos + |e|, multi);
    }
  }

  lemma {:induction false} EscapedReads(text: string, pos: nat, s: string, multi: bool, realTabs: bool, unicode: bool)
    requires At(text, pos, Escaped(s, multi, realTabs, unicode))
    ensures var end := pos + |Escaped(s, multi, realTabs, unicode)|;
            && end <= |text| && pos <= |text|
            && BasicRest(text, pos, multi, false, false) == Prepend(s, BasicRest(text, end, multi, false, false))
    decreases |s|
  {
    hide Escape, BasicRest, At, Prepend;
    if s == "" {
      AtBounds(text, pos, "");
      PrependAll("", "", BasicRest(text, pos, multi, false, false));
    } else {
      var e, rest := Escape(s[0], multi, realTabs, unicode), Escaped(s[1..], multi, realTabs, unicode);
      AtConcat(text, pos, e, rest);
      EscapeReads(text, pos, s[0], multi, realTabs, unicode);
      EscapedReads(text, pos + |e|, s[1..], multi, realTabs, unicode);
      AtBounds(text, pos, e);
      assert [s[0]] + s[1..] == s;
      PrependAll([s[0]], s[1..], BasicRest(text, pos + |e| + |rest|, multi, false, false));
    }
  }

  lemma AtBounds(text: string, pos: nat, s: string)
    requires At(text, pos, s)
    ensures pos + |s| <= |text|
  {}

  /** A closing delimiter ends a string where no further delimiter follows it. */
  lemma ClosingQuotes(text: string, pos: nat, q: char, multi: bool)
    requires IsDelimiter(q) && At(text, pos, Quotes(q, multi))
    requires pos + |Quotes(q, multi)| < |text| ==> text[pos + |Quotes(q, multi)|] != q
    ensures pos < |text| && text[pos] == q
    ensures multi ==> QuotesRound(text, pos, q) == Done("", pos + 3)
  {
    if multi {
      AtCharOf(text, pos, [q, q, q], 0);
      AtCharOf(text, pos, [q, q, q], 1);
      AtCharOf(text, pos, [q, q, q], 2);
      RunIs(text, pos, q, 3, 5);
    } else {
      AtChar(text, pos, q);
    }
  }

  /** An escaped text between its delimiters is read back, wherever it has line breaks. */
  lemma BasicReads(text: string, pos: nat, s: string, multi: bool, realTabs: bool, unicode: bool)
    requires At(text, pos, Escaped(s, multi, realTabs, unicode) + Quotes('\"', multi))
    requires var end := pos + |Escaped(s, multi, realTabs, unicode)| + |Quotes('\"', multi)|;
             end < |text| ==> text[end] != '\"'
    ensures pos <= |text|
    ensures BasicRest(text, pos, multi, false, false)
         == Some(Parsed(s, pos + |Escaped(s, multi, realTabs, unicode)| + |Quotes('\"', multi)|))
  {
    hide Escaped, At, EscapeAt, LineContinuation, QuotesRound, Quotes;
    var e := Escaped(s, multi, realTabs, unicode);
    AtConcat(text, pos, e, Quotes('\"', multi));
    EscapedReads(text, pos, s, multi, realTabs, unicode);
    ClosingQuotes(text, pos + |e|, '\"', multi);
    QuotesLength('\"', multi);
    assert s + "" == s;
  }

  lemma QuotesLength(q: char, multi: bool)
    ensures |Quotes(q, multi)| == if multi then 3 else 1
  {}

  // ---------------------------------------------------------------- literal strings

  /** Three single quotes in a row. */
  predicate HasTriple(s: string) {
    |s| >= 3 && (s[..3] == "'''" || HasTriple(s[1..]))
  }

  /** What a literal string can hold: no control character but tabs, and line breaks only over many lines. */
  predicate IsLiteral(s: string, multi: bool) {
    forall c | c in s :: if c == '\n' || c == '\'' then multi else !IsNonTabControl(c)
  }

  lemma LiteralTail(s: string, n: nat, multi: bool)
    requires IsLiteral(s, multi) && n <= |s|
    ensures IsLiteral(s[n..], multi)
  {
    forall c | c in s[n..] ensures c in s {}
  }

  /** A character other than a quote adds itself. */
  lemma LiteralAdds(text: string, pos: nat, c: char, multi: bool)
    requires At(text, pos, [c]) && c != '\'' && (if c == '\n' then multi else !IsNonTabControl(c))
    ensures pos + 1 <= |text|
    ensures LiteralRest(text, pos, multi) == Prepend([c], LiteralRest(text, pos + 1, multi))
  {
    hide QuotesRound, Prepend;
    AtChar(text, pos, c);
  }

  /** A single-line literal is read back. */
  lemma {:induction false} SingleLineReads(text: string, pos: nat, s: string)
    requires At(text, pos, s + "'") && IsLiteral(s, false)
    ensures pos <= |text| && LiteralRest(text, pos, false) == Some(Parsed(s, pos + |s| + 1))
    decreases |s|
  {
    hide At, Prepend, IsNonTabControl;
    AtConcat(text, pos, s, "'");
    if s == "" {
      AtChar(text, pos, '\'');
    } else {
      assert s == [s[0]] + s[1..] && s[0] in s;
      AtConcat(text, pos, [s[0]], s[1..]);
      AtConcat(text, pos + 1, s[1..], "'");
      LiteralAdds(text, pos, s[0], false);
      LiteralTail(s, 1, false);
      SingleLineReads(text, pos + 1, s[1..]);
      PrependIs([s[0]], s[1..], pos + |s| + 1);
    }
  }

  lemma PrependIs(a: string, b: string, end: nat)
    ensures Prepend(a, Some(Parsed(b, end))) == Some(Parsed(a + b, end))
  {}

  /** The quotes that a text begins with. */
  function LeadingQuotes(s: string): (n: nat)
    ensures n <= |s| && (n < |s| ==> s[n] != '\'') && forall i | 0 <= i < n :: s[i] == '\''
  {
    if s == "" || s[0] != '\'' then 0 else 1 + LeadingQuotes(s[1..])
  }

  lemma TripleAfter(s: string)
    ensures s != "" && s[0] != '\'' ==> (HasTriple(s) <==> HasTriple(s[1..]))
    ensures LeadingQuotes(s) >= 3 ==> HasTriple(s)
    ensures LeadingQuotes(s) < 3 ==> (HasTriple(s) <==> HasTriple(s[LeadingQuotes(s)..]))
  {
    var n := LeadingQuotes(s);
    if n >= 3 {
      assert s[..3] == "'''";
    } else {
      if n == 0 { assert s[0..] == s; }
      if n == 1 { NoTriple(s); }
      if n == 2 {
        NoTriple(s);
        NoTriple(s[1..]);
        assert s[1..][1..] == s[2..];
      }
    }
    if s != "" && s[0] != '\'' && |s| >= 3 { assert s[..3][0] != '\''; }
  }

  lemma NoTriple(s: string)
    requires |s| >= 1 && (|s| >= 3 ==> s[1] != '\'' || s[2] != '\'')
    ensures HasTriple(s) <==> HasTriple(s[1..])
  {
    if |s| >= 3 { assert s[..3][1] == s[1] && s[..3][2] == s[2]; }
  }

  /** The quotes at `pos`, with the closing ones if nothing else comes before those. */
  lemma QuotesAt(text: string, pos: nat, s: string)
    requires At(text, pos, s + "'''")
    requires pos + |s| + 3 < |text| ==> text[pos + |s| + 3] != '\''
    ensures var n := LeadingQuotes(s);
            var run := if n == |s| then n + 3 else n;
            QuoteRun(text, pos, '\'', 5) == if run <= 5 then run else 5
  {
    var n := LeadingQuotes(s);
    var run := if n == |s| then n + 3 else n;
    var all := s + "'''";
    forall i | 0 <= i < |all| ensures text[pos + i] == all[i] { AtCharOf(text, pos, all, i); }
    assert forall i | 0 <= i < run :: all[i] == '\'';
    assert forall i | pos <= i < pos + run :: text[i] == all[i - pos];
    RunIs(text, pos, '\'', if run <= 5 then run else 5, 5);
  }

  /**
    A multi-line literal is read back exactly if it has no three quotes in a row; otherwise it
    ends too early.
  */
  lemma {:induction false} MultiLineReads(text: string, pos: nat, s: string)
    requires At(text, pos, s + "'''") && IsLiteral(s, true)
    requires pos + |s| + 3 < |text| ==> text[pos + |s| + 3] != '\''
    ensures pos <= |text| && LiteralRest(text, pos, true).Some?
    ensures if HasTriple(s) then
              && LiteralRest(text, pos, true).value.after < pos + |s| + 3
              && |LiteralRest(text, pos, true).value.value| < |s|
            else LiteralRest(text, pos, true) == Some(Parsed(s, pos + |s| + 3))
    decreases |s|, 1
  {
    hide At, LiteralRest, Prepend, IsNonTabControl, HasTriple;
    TripleAfter(s);
    AtConcat(text, pos, s, "'''");
    if s != "" && s[0] != '\'' {
      assert s == [s[0]] + s[1..] && s[0] in s;
      AtConcat(text, pos, [s[0]], s[1..]);
      AtConcat(text, pos + 1, s[1..], "'''");
      LiteralAdds(text, pos, s[0], true);
      LiteralTail(s, 1, true);
      MultiLineReads(text, pos + 1, s[1..]);
      var r := LiteralRest(text, pos + 1, true);
      PrependIs([s[0]], r.value.value, r.value.after);
    } else {
      QuotesRead(text, pos, s);
    }
  }

  /** The case that the text goes on with a quote: of its own, or the closing ones. */
  lemma {:induction false} QuotesRead(text: string, pos: nat, s: string)
    requires At(text, pos, s + "'''") && IsLiteral(s, true) && (s == "" || s[0] == '\'')
    requires pos + |s| + 3 < |text| ==> text[pos + |s| + 3] != '\''
    ensures pos <= |text| && LiteralRest(text, pos, true).Some?
    ensures if HasTriple(s) then
              && LiteralRest(text, pos, true).value.after < pos + |s| + 3
              && |LiteralRest(text, pos, true).value.value| < |s|
            else LiteralRest(text, pos, true) == Some(Parsed(s, pos + |s| + 3))
    decreases |s|, 0
  {
    hide At, LiteralRest, Prepend, IsLiteral, HasTriple, QuoteRun;
    TripleAfter(s);
    var n := LeadingQuotes(s);
    FirstIsQuote(text, pos, s);
    QuotesAt(text, pos, s);
    QuotesDecide(text, pos);
    ShortHasNoTriple(s);
    if n < |s| && n < 3 {
      assert s == s[..n] + s[n..];
      AllQuotes(s[..n]);
      AtConcat(text, pos, s, "'''");
      AtConcat(text, pos, s[..n], s[n..]);
      AtConcat(text, pos + n, s[n..], "'''");
      LiteralTail(s, n, true);
      MultiLineReads(text, pos + n, s[n..]);
      var r := LiteralRest(text, pos + n, true);
      PrependIs(s[..n], r.value.value, r.value.after);
    } else if n == |s| && n < 3 {
      AllQuotes(s);
    }
  }

  lemma FirstIsQuote(text: string, pos: nat, s: string)
    requires At(text, pos, s + "'''") && (s == "" || s[0] == '\'')
    ensures pos < |text| && text[pos] == '\''
  {
    AtCharOf(text, pos, s + "'''", 0);
  }

  lemma ShortHasNoTriple(s: string)
    ensures |s| < 3 ==> !HasTriple(s)
  {}

  lemma AllQuotes(s: string)
    requires |s| <= 2 && forall i | 0 <= i < |s| :: s[i] == '\''
    ensures s == if |s| == 0 then "" else if |s| == 1 then ['\''] else ['\'', '\'']
  {}

  /** What the loop makes of a run of quotes. */
  lemma QuotesDecide(text: string, pos: nat)
    requires pos < |text| && text[pos] == '\''
    ensures var k := QuoteRun(text, pos, '\'', 5);
            && pos + k <= |text| && k >= 1
            && LiteralRest(text, pos, true) ==
               if k == 1 then Prepend(['\''], LiteralRest(text, pos + 1, true))
               else if k == 2 then Prepend(['\'', '\''], LiteralRest(text, pos + 2, true))
               else Some(Parsed(if k == 3 then "" else if k == 4 then ['\''] else ['\'', '\''], pos + k))
  {
    hide Prepend;
  }

  // ---------------------------------------------------------------- strings

  lemma OpensSingle(text: string, pos: nat, q: char, body: string)
    requires IsDelimiter(q) && At(text, pos, [q] + body) && |body| >= 2 && body[0] != q
    ensures pos < |text| && text[pos] == q && At(text, pos + 1, body)
    ensures StringAt(text, pos) == ContentsAt(text, pos + 1, q, false)
  {
    hide ContentsAt;
    AtConcat(text, pos, [q], body);
    AtChar(text, pos, q);
    AtCharOf(text, pos + 1, body, 0);
  }

  lemma OpensMulti(text: string, pos: nat, q: char, body: string)
    requires IsDelimiter(q) && At(text, pos, [q, q, q] + body)
    ensures pos < |text| && text[pos] == q && At(text, pos + 3, body)
    ensures StringAt(text, pos) == ContentsAt(text, pos + 3, q, true)
  {
    hide ContentsAt;
    AtConcat(text, pos, [q, q, q], body);
    AtCharOf(text, pos, [q, q, q], 0);
    AtCharOf(text, pos, [q, q, q], 1);
    AtCharOf(text, pos, [q, q, q], 2);
  }

  /** A line break right at the beginning of the contents is dropped. */
  lemma FirstBreak(text: string, pos: nat, body: string)
    requires At(text, pos, body) && body != ""
    ensures pos <= |text|
    ensures body[0] == '\n' ==> ContentsStart(text, pos, true) == Some(pos + 1)
    ensures !IsAsciiVertical(body[0]) ==> ContentsStart(text, pos, true) == Some(pos)
  {
    AtCharOf(text, pos, body, 0);
  }

  /** What escapes begin with. */
  lemma EscapedBegins(s: string, multi: bool, realTabs: bool, unicode: bool)
    requires s != ""
    ensures var e := Escaped(s, multi, realTabs, unicode);
            && e != "" && e[0] != '\"'
            && if multi && s[0] == '\n' then e == "\n" + Escaped(s[1..], multi, realTabs, unicode)
               else !IsAsciiVertical(e[0])
  {
    hide Padded;
  }

  lemma LiteralStyle(s: string, use: StringUse, flags: StringFlags)
    requires StyleOf(s, use, flags).Literal?
    ensures IsLiteral(s, StyleOf(s, use, flags).multiLine)
  {
    forall c | c in s
      ensures if c == '\n' || c == '\'' then StyleOf(s, use, flags).multiLine else !IsNonTabControl(c)
    {
      assert !IsControlTrait(c);
    }
  }

  /** A text over many lines that is not read back: it begins with a line break, or has three single quotes in a literal. */
  predicate IsLost(s: string, style: Style) {
    s != "" && !style.Bare? && style.multiLine && (s[0] == '\n' || (style.Literal? && HasTriple(s)))
  }

  predicate NoDelimiterAt(text: string, pos: nat) {
    pos < |text| ==> !IsDelimiter(text[pos])
  }

  lemma EmptyReads(text: string, pos: nat, q: char)
    requires IsDelimiter(q) && At(text, pos, [q, q]) && NoDelimiterAt(text, pos + 2)
    ensures pos < |text| && text[pos] == q && StringAt(text, pos) == Some(Parsed(ParsedString("", false), pos + 2))
  {
    AtCharOf(text, pos, [q, q], 0);
    AtCharOf(text, pos, [q, q], 1);
  }

  /** A basic string is its escaped text between its quotes. */
  lemma StyledBasic(s: string, multi: bool, realTabs: bool, unicode: bool)
    ensures Quotes('\"', multi) == if multi then ['\"', '\"', '\"'] else ['\"']
    ensures Styled(s, Basic(multi), realTabs, unicode)
         == Quotes('\"', multi) + (Escaped(s, multi, realTabs, unicode) + Quotes('\"', multi))
  {
    hide Escaped;
  }

  lemma BasicContents(text: string, pos: nat, multi: bool, start: nat, s: string, after: nat)
    requires pos <= start <= |text| && ContentsStart(text, pos, multi) == Some(start)
    requires BasicRest(text, start, multi, false, false) == Some(Parsed(s, after))
    ensures ContentsAt(text, pos, '\"', multi) == Some(Parsed(ParsedString(s, multi), after))
  {
    hide BasicRest, ContentsStart;
  }

  lemma NoQuoteAt(text: string, pos: nat)
    requires NoDelimiterAt(text, pos)
    ensures IsDelimiter('\"') && (pos < |text| ==> text[pos] != '\"')
  {}

  lemma SingleStart(text: string, pos: nat)
    requires pos <= |text|
    ensures ContentsStart(text, pos, false) == Some(pos)
  {}

  lemma SingleBasicReads(text: string, pos: nat, s: string, realTabs: bool, unicode: bool)
    requires s != "" && At(text, pos, Styled(s, Basic(false), realTabs, unicode))
    requires NoDelimiterAt(text, pos + |Styled(s, Basic(false), realTabs, unicode)|)
    ensures pos < |text| && IsDelimiter(text[pos])
    ensures StringAt(text, pos)
         == Some(Parsed(ParsedString(s, false), pos + |Styled(s, Basic(false), realTabs, unicode)|))
  {
    hide *;
    var e, q := Escaped(s, false, realTabs, unicode), Quotes('\"', false);
    EscapedBegins(s, false, realTabs, unicode);
    StyledBasic(s, false, realTabs, unicode);
    NoQuoteAt(text, pos + 1 + |e| + 1);
    OpensSingle(text, pos, '\"', e + q);
    BasicReads(text, pos + 1, s, false, realTabs, unicode);
    SingleStart(text, pos + 1);
    BasicContents(text, pos + 1, false, pos + 1, s, pos + |e| + 2);
  }

  lemma SingleLiteralReads(text: string, pos: nat, s: string)
    requires s != "" && IsLiteral(s, false) && At(text, pos, ['\''] + s + ['\''])
    ensures pos < |text| && IsDelimiter(text[pos])
    ensures StringAt(text, pos) == Some(Parsed(ParsedString(s, false), pos + |s| + 2))
  {
    hide At, StringAt, LiteralRest;
    assert ['\''] + s + ['\''] == ['\''] + (s + "'");
    assert s[0] in s;
    OpensSingle(text, pos, '\'', s + "'");
    SingleLineReads(text, pos + 1, s);
  }

  lemma MultiBasicReads(text: string, pos: nat, s: string, realTabs: bool, unicode: bool)
    requires s != "" && At(text, pos, Styled(s, Basic(true), realTabs, unicode))
    requires NoDelimiterAt(text, pos + |Styled(s, Basic(true), realTabs, unicode)|)
    ensures pos < |text| && IsDelimiter(text[pos])
    ensures StringAt(text, pos) == Some(Parsed(ParsedString(if s[0] == '\n' then s[1..] else s, true),
                                               pos + |Styled(s, Basic(true), realTabs, unicode)|))
  {
    hide *;
    var e, q := Escaped(s, true, realTabs, unicode), Quotes('\"', true);
    EscapedBegins(s, true, realTabs, unicode);
    StyledBasic(s, true, realTabs, unicode);
    NoQuoteAt(text, pos + 3 + |e| + 3);
    OpensMulti(text, pos, '\"', e + q);
    FirstBreak(text, pos + 3, e + q);
    if s[0] == '\n' {
      var rest := Escaped(s[1..], true, realTabs, unicode);
      assert e + q == "\n" + (rest + q);
      AtConcat(text, pos + 3, "\n", rest + q);
      BasicReads(text, pos + 4, s[1..], true, realTabs, unicode);
      BasicContents(text, pos + 3, true, pos + 4, s[1..], pos + |e| + 6);
    } else {
      BasicReads(text, pos + 3, s, true, realTabs, unicode);
      BasicContents(text, pos + 3, true, pos + 3, s, pos + |e| + 6);
    }
  }

  lemma MultiLiteralReads(text: string, pos: nat, s: string)
    requires s != "" && IsLiteral(s, true) && At(text, pos, "'''" + s + "'''")
    requires NoDelimiterAt(text, pos + |s| + 6)
    ensures pos < |text| && IsDelimiter(text[pos])
    ensures if s[0] != '\n' && !HasTriple(s) then
              StringAt(text, pos) == Some(Parsed(ParsedString(s, true), pos + |s| + 6))
            else StringAt(text, pos).Some? && StringAt(text, pos).value.value.value != s
  {
    hide At, StringAt, LiteralRest, ContentsStart, IsNonTabControl, HasTriple;
    assert "'''" + s + "'''" == ['\'', '\'', '\''] + (s + "'''");
    OpensMulti(text, pos, '\'', s + "'''");
    FirstBreak(text, pos + 3, s + "'''");
    if s[0] == '\n' {
      assert s + "'''" == "\n" + (s[1..] + "'''");
      AtConcat(text, pos + 3, "\n", s[1..] + "'''");
      LiteralTail(s, 1, true);
      MultiLineReads(text, pos + 4, s[1..]);
    } else {
      NotVertical(s);
      MultiLineReads(text, pos + 3, s);
    }
  }

  lemma NotVertical(s: string)
    requires s != "" && IsLiteral(s, true) && s[0] != '\n'
    ensures !IsAsciiVertical(s[0])
  {
    assert s[0] in s;
  }

  /**
    A string that is printed with delimiters, under any flags, is read back exactly unless it is
    printed over many lines and begins with a line break or has three single quotes in a literal;
    then another string is read.
  */
  lemma StringRoundTrip(text: string, pos: nat, s: string, use: StringUse, flags: StringFlags)
    requires At(text, pos, StringText(s, use, flags)) && (s == "" || !StyleOf(s, use, flags).Bare?)
    requires NoDelimiterAt(text, pos + |StringText(s, use, flags)|)
    ensures pos < |text| && IsDelimiter(text[pos])
    ensures var multi := s != "" && StyleOf(s, use, flags).multiLine;
            if IsLost(s, StyleOf(s, use, flags)) then
              StringAt(text, pos).Some? && StringAt(text, pos).value.value.value != s
            else
              StringAt(text, pos) == Some(Parsed(ParsedString(s, multi), pos + |StringText(s, use, flags)|))
  {
    hide At, Escaped, StringAt, HasTriple, StyleOf, IsLiteral;
    if s == "" {
      EmptyReads(text, pos, if flags.literal then '\'' else '\"');
    } else {
      var realTabs := use.literalWhitespace && flags.realTabs;
      match StyleOf(s, use, flags)
      case Literal(multi) =>
        LiteralStyle(s, use, flags);
        if multi { MultiLiteralReads(text, pos, s); } else { SingleLiteralReads(text, pos, s); }
      case Basic(multi) =>
        if multi {
          MultiBasicReads(text, pos, s, realTabs, flags.unicode);
        } else {
          SingleBasicReads(text, pos, s, realTabs, flags.unicode);
        }
    }
  }
}
