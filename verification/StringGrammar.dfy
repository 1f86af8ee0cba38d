/**
  The strings of TOML as a grammar, and that the string parsers of `toml.hpp` read exactly them:
  what is between the delimiters is a list of items, each with its text and its meaning.
*/
module StringGrammar {
  import opened Characters
  import opened Integers
  import opened Numerals
  import opened Sequences
  import opened StringParser
  import StringPrinter
  import opened Wrappers

  /** `quote` says what delimits the string, and `multi` whether three of them do. */
  datatype Style = Style(quote: char, multi: bool)

  datatype Item =
    | Literally(c: char)
    | Short(letter: char)
    | Long(digits: string)
    | NewLine(crlf: bool)
    | Quoted(two: bool)
    | Continued(spaces: string, crlf: bool, blanks: string)

  function BreakText(crlf: bool): string {
    if crlf then "\r\n" else "\n"
  }

  /** The escapes of one letter. */
  const Shorts: map<char, char> :=
    map['b' := '\U{8}', 'f' := '\U{C}', 'n' := '\n', 'r' := '\r', 't' := '\t', '\"' := '\"', '\\' := '\\']

  /** Spaces, tabs and line breaks. */
  predicate IsBlankRun(s: string) {
    forall i | 0 <= i < |s| :: IsHorizontalSpace(s[i]) || s[i] == '\n' || (s[i] == '\r' && i + 1 < |s| && s[i + 1] == '\n')
  }

  predicate ItemOk(item: Item, st: Style) {
    match item
    case Literally(c) => c != st.quote && !IsNonTabControl(c) && (st.quote == '\"' ==> c != '\\')
    case Short(letter) => st.quote == '\"' && letter in Shorts
    case Long(digits) =>
      && st.quote == '\"' && (|digits| == 4 || |digits| == 8) && AllDigitChars(digits, 16)
      && FromText(digits, 16) <= 0x10FFFF && !(0xD800 <= FromText(digits, 16) <= 0xDFFF)
    case NewLine(_) => st.multi
    case Quoted(_) => st.multi
    case Continued(spaces, _, blanks) =>
      st.multi && st.quote == '\"' && (forall c | c in spaces :: IsSpaceOrTab(c)) && IsBlankRun(blanks)
  }

  function ItemText(item: Item, st: Style): string {
    match item
    case Literally(c) => [c]
    case Short(letter) => ['\\', letter]
    case Long(digits) => ['\\', if |digits| == 4 then 'u' else 'U'] + digits
    case NewLine(crlf) => BreakText(crlf)
    case Quoted(two) => if two then [st.quote, st.quote] else [st.quote]
    case Continued(spaces, crlf, blanks) => "\\" + spaces + BreakText(crlf) + blanks
  }

  function Meaning(item: Item, st: Style): string
    requires ItemOk(item, st)
  {
    match item
    case Literally(c) => [c]
    case Short(letter) => [Shorts[letter]]
    case Long(digits) => [FromText(digits, 16) as char]
    case NewLine(_) => "\n"
    case Quoted(two) => if two then [st.quote, st.quote] else [st.quote]
    case Continued(_, _, _) => ""
  }

  /** Quotes are counted together, and blanks behind a backslash belong to it. */
  predicate MayFollow(item: Item, next: Item) {
    && (item.Quoted? ==> !next.Quoted?)
    && (item.Continued? ==> !next.NewLine? && (next.Literally? ==> !IsHorizontalSpace(next.c)))
  }

  ghost predicate Items(items: seq<Item>, st: Style) {
    && (forall i | 0 <= i < |items| :: ItemOk(items[i], st))
    && (forall i | 0 <= i < |items| - 1 :: MayFollow(items[i], items[i + 1]))
  }

  function Text(items: seq<Item>, st: Style): string {
    if items == [] then "" else ItemText(items[0], st) + Text(items[1..], st)
  }

  ghost function Meanings(items: seq<Item>, st: Style): string
    requires Items(items, st)
  {
    if items == [] then "" else
      ItemsTail(items, st);
      Meaning(items[0], st) + Meanings(items[1..], st)
  }

  lemma ItemsTail(items: seq<Item>, st: Style)
    requires Items(items, st) && items != []
    ensures Items(items[1..], st) && ItemOk(items[0], st)
    ensures |items| > 1 ==> MayFollow(items[0], items[1])
  {
    assert forall i | 0 <= i < |items| - 1 :: items[1..][i] == items[i + 1];
  }

  lemma ItemsCons(item: Item, items: seq<Item>, st: Style)
    requires Items(items, st) && ItemOk(item, st) && (items != [] ==> MayFollow(item, items[0]))
    ensures Items([item] + items, st)
    ensures Text([item] + items, st) == ItemText(item, st) + Text(items, st)
    ensures Meanings([item] + items, st) == Meaning(item, st) + Meanings(items, st)
  {
    var all := [item] + items;
    assert all[1..] == items;
    forall i | 0 <= i < |all| - 1 ensures MayFollow(all[i], all[i + 1]) {
      if i > 0 { assert all[i] == items[i - 1] && all[i + 1] == items[i]; }
    }
  }

  function Closing(st: Style): string {
    if st.multi then [st.quote, st.quote, st.quote] else [st.quote]
  }

  /** What the parsers read from behind the opening delimiter on. */
  function Rest(text: string, pos: nat, st: Style): (r: Option<Parsed<string>>)
    requires pos <= |text| && IsDelimiter(st.quote)
  {
    if st.quote == '\"' then BasicRest(text, pos, st.multi, false, false) else LiteralRest(text, pos, st.multi)
  }

  /** Up to two quotes right before the end belong to the string; more do not. */
  ghost predicate EndsIn(items: seq<Item>, st: Style, text: string, end: nat) {
    st.multi && !(items != [] && items[|items| - 1] == Quoted(true)) ==> end >= |text| || text[end] != st.quote
  }

  // ---------------------------------------------------------------- one item

  /** What may stand behind an item. */
  predicate Clear(item: Item, st: Style, text: string, end: nat) {
    end < |text| ==>
      && (item.Quoted? ==> text[end] != st.quote)
      && (item.Continued? ==> !IsHorizontalSpace(text[end]) && !IsAsciiVertical(text[end]))
  }

  lemma LiterallyReads(text: string, pos: nat, c: char, st: Style)
    requires IsDelimiter(st.quote) && ItemOk(Literally(c), st) && At(text, pos, [c])
    ensures pos < |text| && Rest(text, pos, st) == Prepend([c], Rest(text, pos + 1, st))
  {
    hide QuotesRound, Prepend, EscapeAt, LineContinuation;
    AtChar(text, pos, c);
  }

  lemma TwoRounds(text: string, pos: nat, multi: bool)
    requires pos + 1 < |text| && text[pos] == '\\'
    ensures BasicRest(text, pos, multi, false, false) == BasicRest(text, pos + 1, multi, true, false)
  {
    hide EscapeAt, LineContinuation;
    PrependAll("", "", BasicRest(text, pos + 1, multi, true, false));
  }

  lemma ShortReads(text: string, pos: nat, letter: char, st: Style)
    requires IsDelimiter(st.quote) && ItemOk(Short(letter), st) && At(text, pos, ['\\', letter])
    ensures pos + 1 < |text| && Rest(text, pos, st) == Prepend([Shorts[letter]], Rest(text, pos + 2, st))
  {
    hide LineContinuation, Prepend, CodePointAt;
    AtCharOf(text, pos, ['\\', letter], 0);
    AtCharOf(text, pos, ['\\', letter], 1);
    TwoRounds(text, pos, st.multi);
    assert EscapeAt(text, pos + 1) == Some(Parsed(Shorts[letter], pos + 2));
  }

  lemma LongReads(text: string, pos: nat, digits: string, st: Style)
    requires IsDelimiter(st.quote) && ItemOk(Long(digits), st) && At(text, pos, ItemText(Long(digits), st))
    ensures pos + 2 + |digits| <= |text|
    ensures Rest(text, pos, st) == Prepend([FromText(digits, 16) as char], Rest(text, pos + 2 + |digits|, st))
  {
    hide LineContinuation, Prepend, FromText, AllDigitChars, At;
    var lead := ['\\', if |digits| == 4 then 'u' else 'U'];
    AtConcat(text, pos, lead, digits);
    AtCharOf(text, pos, lead, 0);
    AtCharOf(text, pos, lead, 1);
    AtSlice(text, pos + 2, digits);
    TwoRounds(text, pos, st.multi);
    assert CodePointAt(text, pos + 2, |digits|) == Some(Parsed(FromText(digits, 16) as char, pos + 2 + |digits|));
    assert EscapeAt(text, pos + 1) == CodePointAt(text, pos + 2, |digits|);
  }

  lemma AtSlice(text: string, pos: nat, s: string)
    requires At(text, pos, s)
    ensures pos + |s| <= |text| && text[pos..pos + |s|] == s
  {}

  lemma BreakReads(text: string, pos: nat, crlf: bool)
    requires At(text, pos, BreakText(crlf))
    ensures LineBreakAt(text, pos) == Broken(pos + |BreakText(crlf)|)
    ensures pos < |text| && IsAsciiVertical(text[pos])
  {
    AtCharOf(text, pos, BreakText(crlf), 0);
  }

  lemma NewLineReads(text: string, pos: nat, crlf: bool, st: Style)
    requires IsDelimiter(st.quote) && st.multi && At(text, pos, BreakText(crlf))
    ensures pos + |BreakText(crlf)| <= |text|
    ensures Rest(text, pos, st) == Prepend("\n", Rest(text, pos + |BreakText(crlf)|, st))
  {
    hide QuotesRound, Prepend, EscapeAt, LineContinuation, LineBreakAt;
    BreakReads(text, pos, crlf);
  }

  lemma QuotedReads(text: string, pos: nat, two: bool, st: Style)
    requires IsDelimiter(st.quote) && st.multi && At(text, pos, ItemText(Quoted(two), st))
    requires Clear(Quoted(two), st, text, pos + if two then 2 else 1)
    ensures var n := if two then 2 else 1;
            && pos + n <= |text|
            && Rest(text, pos, st) == Prepend(ItemText(Quoted(two), st), Rest(text, pos + n, st))
  {
    hide Prepend, EscapeAt, LineContinuation, LineBreakAt;
    var n := if two then 2 else 1;
    AtCharOf(text, pos, ItemText(Quoted(two), st), 0);
    if two { AtCharOf(text, pos, ItemText(Quoted(two), st), 1); }
    RunIs(text, pos, st.quote, n, 5);
  }

  // ---------------------------------------------------------------- line continuations

  lemma {:induction false} SpacesPass(text: string, pos: nat, spaces: string)
    requires At(text, pos, spaces) && forall c | c in spaces :: IsSpaceOrTab(c)
    ensures pos + |spaces| <= |text| && SpacesEnd(text, pos) == SpacesEnd(text, pos + |spaces|)
    decreases |spaces|
  {
    if spaces != "" {
      assert spaces == [spaces[0]] + spaces[1..] && spaces[0] in spaces;
      AtConcat(text, pos, [spaces[0]], spaces[1..]);
      AtChar(text, pos, spaces[0]);
      forall c | c in spaces[1..] ensures c in spaces {}
      SpacesPass(text, pos + 1, spaces[1..]);
    }
  }

  lemma RunTail(s: string, n: nat)
    requires IsBlankRun(s) && n <= |s|
    ensures IsBlankRun(s[n..])
  {}

  lemma RunFirst(s: string)
    requires IsBlankRun(s) && s != ""
    ensures if s[0] == '\r' then |s| >= 2 && s[1] == '\n' else IsHorizontalSpace(s[0]) || s[0] == '\n'
  {}

  /** What is skipped behind a continued line. */
  lemma {:induction false} BlanksAreSkipped(text: string, pos: nat, blanks: string)
    requires At(text, pos, blanks) && IsBlankRun(blanks)
    ensures pos + |blanks| <= |text|
    ensures BasicRest(text, pos, true, false, true) == BasicRest(text, pos + |blanks|, true, false, true)
    decreases |blanks|
  {
    hide *;
    AtSlice(text, pos, blanks);
    if blanks != "" {
      RunFirst(blanks);
      var n := if blanks[0] == '\r' then 2 else 1;
      assert blanks == blanks[..n] + blanks[n..];
      AtConcat(text, pos, blanks[..n], blanks[n..]);
      AtCharOf(text, pos, blanks, 0);
      if n == 2 { AtCharOf(text, pos, blanks, 1); }
      RunTail(blanks, n);
      BlankRound(text, pos, n);
      BlanksAreSkipped(text, pos + n, blanks[n..]);
    }
  }

  lemma BlankRound(text: string, pos: nat, n: nat)
    requires pos + n <= |text| && (n == 1 || n == 2)
    requires if n == 2 then text[pos] == '\r' && text[pos + 1] == '\n'
             else text[pos] != '\r' && (IsHorizontalSpace(text[pos]) || text[pos] == '\n')
    ensures BasicRest(text, pos, true, false, true) == BasicRest(text, pos + n, true, false, true)
  {
    hide QuotesRound;
    if n == 2 { assert text[pos..pos + 2] == "\r\n"; }
    assert BasicRound(text, pos, true, false, true) == More("", pos + n, false, true);
    PrependAll("", "", BasicRest(text, pos + n, true, false, true));
  }

  lemma SkippingEnds(text: string, pos: nat)
    requires pos <= |text| && (pos < |text| ==> !IsHorizontalSpace(text[pos]) && !IsAsciiVertical(text[pos]))
    ensures BasicRest(text, pos, true, false, true) == BasicRest(text, pos, true, false, false)
  {
    hide QuotesRound, Prepend, IsHorizontalSpace, LineBreakAt;
  }

  lemma ContinuedReads(text: string, pos: nat, spaces: string, crlf: bool, blanks: string, st: Style)
    requires IsDelimiter(st.quote) && ItemOk(Continued(spaces, crlf, blanks), st)
    requires At(text, pos, "\\" + spaces + BreakText(crlf) + blanks)
    requires Clear(Continued(spaces, crlf, blanks), st, text, pos + 1 + |spaces| + |BreakText(crlf)| + |blanks|)
    ensures var end := pos + 1 + |spaces| + |BreakText(crlf)| + |blanks|;
            end <= |text| && Rest(text, pos, st) == Rest(text, end, st)
  {
    hide At, SpacesEnd, LineBreakAt, BasicRest, IsBlankRun, IsHorizontalSpace;
    var b := BreakText(crlf);
    AtConcat(text, pos, "\\" + spaces + b, blanks);
    AtConcat(text, pos, "\\" + spaces, b);
    AtConcat(text, pos, "\\", spaces);
    AtChar(text, pos, '\\');
    SpacesPass(text, pos + 1, spaces);
    var p := pos + 1 + |spaces|;
    BreakReads(text, p, crlf);
    BreakEndsSpaces(text, p);
    AtSlice(text, p, b);
    TwoRounds(text, pos, true);
    if spaces != "" {
      AtCharOf(text, pos + 1, spaces, 0);
      assert spaces[0] in spaces;
    }
    ContinuedRound(text, pos + 1, p, p + |b|);
    BlanksAreSkipped(text, p + |b|, blanks);
    SkippingEnds(text, p + |b| + |blanks|);
  }

  lemma BreakEndsSpaces(text: string, p: nat)
    requires p < |text| && IsAsciiVertical(text[p])
    ensures SpacesEnd(text, p) == Some(p)
  {}

  lemma ContinuedRound(text: string, pos: nat, p: nat, after: nat)
    requires pos <= p < after <= |text| && SpacesEnd(text, pos) == Some(p) && LineBreakAt(text, p) == Broken(after)
    requires IsSpaceOrTab(text[pos]) || IsAsciiVertical(text[pos])
    ensures BasicRest(text, pos, true, true, false) == BasicRest(text, after, true, false, true)
  {
    hide SpacesEnd, LineBreakAt, EscapeAt;
    PrependAll("", "", BasicRest(text, after, true, false, true));
  }

  // ---------------------------------------------------------------- every list of items is read

  lemma ItemReads(text: string, pos: nat, item: Item, st: Style)
    requires IsDelimiter(st.quote) && ItemOk(item, st) && At(text, pos, ItemText(item, st))
    requires Clear(item, st, text, pos + |ItemText(item, st)|)
    ensures var end := pos + |ItemText(item, st)|;
            && pos < end <= |text| && Rest(text, pos, st) == Prepend(Meaning(item, st), Rest(text, end, st))
  {
    hide At, Rest, Prepend, BreakText;
    match item
    case Literally(c) => LiterallyReads(text, pos, c, st);
    case Short(letter) => ShortReads(text, pos, letter, st);
    case Long(digits) => LongReads(text, pos, digits, st);
    case NewLine(crlf) =>
      NewLineReads(text, pos, crlf, st);
      BreakReads(text, pos, crlf);
    case Quoted(two) => QuotedReads(text, pos, two, st);
    case Continued(spaces, crlf, blanks) =>
      ContinuedReads(text, pos, spaces, crlf, blanks, st);
      PrependAll("", "", Rest(text, pos + |ItemText(item, st)|, st));
  }

  /** What an item begins with. */
  lemma ItemBegins(item: Item, st: Style)
    requires IsDelimiter(st.quote) && ItemOk(item, st)
    ensures var t := ItemText(item, st);
            && t != "" && (item.Quoted? <==> t[0] == st.quote)
            && (!item.NewLine? && (item.Literally? ==> !IsHorizontalSpace(item.c)) ==>
                  !IsHorizontalSpace(t[0]) && !IsAsciiVertical(t[0]))
  {}

  /** Behind an item stands the next one, or the end. */
  lemma ItemIsClear(text: string, pos: nat, item: Item, rest: seq<Item>, st: Style)
    requires IsDelimiter(st.quote) && Items(rest, st)
    requires At(text, pos, Text(rest, st) + Closing(st))
    requires rest != [] ==> MayFollow(item, rest[0])
    requires rest == [] ==> !item.Quoted?
    ensures Clear(item, st, text, pos)
  {
    hide At, ItemText, IsBlankRun, AllDigitChars;
    AtCharOf(text, pos, Text(rest, st) + Closing(st), 0);
    if rest != [] { ItemBegins(rest[0], st); }
  }

  /** The end of a string, with up to two quotes before it. */
  lemma ClosingReads(text: string, pos: nat, quotes: nat, st: Style)
    requires IsDelimiter(st.quote) && quotes <= 2 && (!st.multi ==> quotes == 0)
    requires pos + quotes + |Closing(st)| <= |text|
    requires forall i | pos <= i < pos + quotes + |Closing(st)| :: text[i] == st.quote
    requires st.multi && quotes < 2 ==> pos + quotes + 3 == |text| || text[pos + quotes + 3] != st.quote
    ensures var v := if quotes == 0 then "" else if quotes == 1 then [st.quote] else [st.quote, st.quote];
            Rest(text, pos, st) == Some(Parsed(v, pos + quotes + |Closing(st)|))
  {
    hide Prepend, EscapeAt, LineContinuation, LineBreakAt;
    if st.multi { RunIs(text, pos, st.quote, quotes + 3, 5); }
  }

  /** Every list of items between its delimiters is read as what it means. */
  lemma {:induction false} ItemsRead(text: string, pos: nat, items: seq<Item>, st: Style)
    requires IsDelimiter(st.quote) && Items(items, st)
    requires At(text, pos, Text(items, st) + Closing(st))
    requires EndsIn(items, st, text, pos + |Text(items, st)| + |Closing(st)|)
    ensures pos <= |text|
    ensures Rest(text, pos, st) == Some(Parsed(Meanings(items, st), pos + |Text(items, st)| + |Closing(st)|))
    decreases |items|
  {
    hide At, Rest, ItemText, ItemOk, IsBlankRun, Prepend, Meaning;
    var closing := Closing(st);
    if items == [] {
      assert "" + closing == closing;
      AtAll(text, pos, closing);
      ClosingReads(text, pos, 0, st);
    } else {
      var item, rest := items[0], items[1..];
      ItemsTail(items, st);
      var t := ItemText(item, st);
      Assoc(t, Text(rest, st), closing);
      AtConcat(text, pos, t, Text(rest, st) + closing);
      if item.Quoted? && rest == [] {
        QuotedLength(item.two, st);
        assert items == [Quoted(item.two)];
        LastQuotes(text, pos, item.two, st);
      } else {
        ItemIsClear(text, pos + |t|, item, rest, st);
        ItemReads(text, pos, item, st);
        assert rest != [] ==> rest[|rest| - 1] == items[|items| - 1];
        ItemsRead(text, pos + |t|, rest, st);
        PrependIs(Meaning(item, st), Meanings(rest, st), pos + |t| + |Text(rest, st)| + |closing|);
      }
    }
  }

  lemma PrependIs(a: string, b: string, end: nat)
    ensures Prepend(a, Some(Parsed(b, end))) == Some(Parsed(a + b, end))
  {}

  lemma AtAll(text: string, pos: nat, s: string)
    requires At(text, pos, s)
    ensures pos + |s| <= |text| && forall i | pos <= i < pos + |s| :: text[i] == s[i - pos]
  {
    forall i | pos <= i < pos + |s| ensures text[i] == s[i - pos] { AtCharOf(text, pos, s, i - pos); }
  }

  lemma QuotedLength(two: bool, st: Style)
    ensures |ItemText(Quoted(two), st)| == if two then 2 else 1
  {}

  lemma LastQuotes(text: string, pos: nat, two: bool, st: Style)
    requires IsDelimiter(st.quote) && ItemOk(Quoted(two), st)
    requires At(text, pos, ItemText(Quoted(two), st) + ("" + Closing(st)))
    requires EndsIn([Quoted(two)], st, text, pos + (if two then 2 else 1) + 3)
    ensures Items([Quoted(two)], st) && pos <= |text|
    ensures Rest(text, pos, st) == Some(Parsed(Meanings([Quoted(two)], st), pos + (if two then 2 else 1) + 3))
  {
    AtAll(text, pos, ItemText(Quoted(two), st) + ("" + Closing(st)));
    ClosingReads(text, pos, if two then 2 else 1, st);
    assert [Quoted(two)][1..] == [];
    hide Rest, At;
    var v := ItemText(Quoted(two), st);
    assert v + "" == v;
  }

  // ---------------------------------------------------------------- nothing else is read

  /** `item` stands at `pos`, and what follows does not belong to it. */
  ghost predicate Stands(item: Item, st: Style, text: string, pos: nat) {
    ItemOk(item, st) && At(text, pos, ItemText(item, st)) && Clear(item, st, text, pos + |ItemText(item, st)|)
  }

  lemma {:induction false} SpacesAre(text: string, pos: nat)
    requires pos <= |text| && SpacesEnd(text, pos).Some?
    ensures var p := SpacesEnd(text, pos).value; pos <= p <= |text| && forall c | c in text[pos..p] :: IsSpaceOrTab(c)
    decreases |text| - pos
  {
    if pos < |text| && IsHorizontalSpace(text[pos]) {
      SpacesAre(text, pos + 1);
      var p := SpacesEnd(text, pos).value;
      assert text[pos..p] == [text[pos]] + text[pos + 1..p];
    }
  }

  lemma BreakIs(text: string, pos: nat) returns (crlf: bool)
    requires pos < |text| && LineBreakAt(text, pos).Broken?
    ensures At(text, pos, BreakText(crlf)) && LineBreakAt(text, pos).after == pos + |BreakText(crlf)|
  {
    crlf := text[pos] == '\r';
    if !crlf { AtChar(text, pos, '\n'); }
  }

  lemma RunCons(s: string, n: nat)
    requires n <= |s| && IsBlankRun(s[n..]) && (n == 1 || n == 2)
    requires if n == 2 then s[0] == '\r' && s[1] == '\n' else IsHorizontalSpace(s[0]) || s[0] == '\n'
    ensures IsBlankRun(s)
  {
    assert forall i | n <= i < |s| :: s[i] == s[n..][i - n];
  }

  /** All blanks there are behind a continued line. */
  lemma {:induction false} BlanksFrom(text: string, pos: nat) returns (e: nat)
    requires pos <= |text| && BasicRest(text, pos, true, false, true).Some?
    ensures pos <= e <= |text| && IsBlankRun(text[pos..e])
    ensures e < |text| ==> !IsHorizontalSpace(text[e]) && !IsAsciiVertical(text[e])
    decreases |text| - pos
  {
    hide EscapeAt, QuotesRound, IsBlankRun, IsForeignSpace;
    e := pos;
    NoBlanks();
    assert text[pos..pos] == "";
    if pos < |text| && (IsHorizontalSpace(text[pos]) || IsAsciiVertical(text[pos])) {
      var n := 1;
      if IsAsciiVertical(text[pos]) {
        VerticalIsNoSpace(text[pos]);
        VerticalRound(text, pos);
        var crlf := BreakIs(text, pos);
        AtAll(text, pos, BreakText(crlf));
        n := |BreakText(crlf)|;
      } else {
        HorizontalRound(text, pos);
      }
      e := BlanksFrom(text, pos + n);
      assert text[pos..e][n..] == text[pos + n..e];
      RunCons(text[pos..e], n);
    }
  }

  lemma NoBlanks()
    ensures IsBlankRun("")
  {}

  lemma VerticalIsNoSpace(c: char)
    requires IsAsciiVertical(c)
    ensures !IsHorizontalSpace(c)
  {}

  lemma VerticalRound(text: string, pos: nat)
    requires pos < |text| && IsAsciiVertical(text[pos]) && BasicRest(text, pos, true, false, true).Some?
    ensures LineBreakAt(text, pos).Broken?
    ensures BasicRest(text, LineBreakAt(text, pos).after, true, false, true).Some?
  {
    hide LineBreakAt, EscapeAt, QuotesRound;
  }

  lemma HorizontalRound(text: string, pos: nat)
    requires pos < |text| && IsHorizontalSpace(text[pos]) && BasicRest(text, pos, true, false, true).Some?
    ensures BasicRest(text, pos + 1, true, false, true).Some?
  {
    hide LineBreakAt, EscapeAt, QuotesRound;
  }

  /** A backslash with whitespace behind it. */
  lemma ContinuedStands(text: string, pos: nat, st: Style) returns (item: Item)
    requires IsDelimiter(st.quote) && st == Style('\"', true)
    requires pos + 1 < |text| && text[pos] == '\\' && (IsHorizontalSpace(text[pos + 1]) || IsVerticalSpace(text[pos + 1]))
    requires BasicRest(text, pos + 1, true, true, false).Some?
    ensures Stands(item, st, text, pos)
  {
    hide *;
    ContinuedParts(text, pos + 1);
    var p := SpacesEnd(text, pos + 1).value;
    SpacesAre(text, pos + 1);
    var after := LineBreakAt(text, p).after;
    var crlf := BreakIs(text, p);
    var e := BlanksFrom(text, after);
    var spaces, blanks := text[pos + 1..p], text[after..e];
    AtChar(text, pos, '\\');
    SliceAt(text, pos + 1, p);
    SliceAt(text, after, e);
    AtConcat(text, pos, "\\", spaces);
    AtConcat(text, pos, "\\" + spaces, BreakText(crlf));
    AtConcat(text, pos, "\\" + spaces + BreakText(crlf), blanks);
    item := Continued(spaces, crlf, blanks);
    ContinuedOk(item, st, text, pos, e);
  }

  lemma ContinuedParts(text: string, pos: nat)
    requires pos < |text| && (IsHorizontalSpace(text[pos]) || IsVerticalSpace(text[pos]))
    requires BasicRest(text, pos, true, true, false).Some?
    ensures SpacesEnd(text, pos).Some? && pos <= SpacesEnd(text, pos).value < |text|
    ensures var b := LineBreakAt(text, SpacesEnd(text, pos).value);
            b.Broken? && b.after <= |text| && BasicRest(text, b.after, true, false, true).Some?
  {
    hide EscapeAt, SpacesEnd, IsHorizontalSpace, IsVerticalSpace;
  }

  lemma ContinuedOk(item: Item, st: Style, text: string, pos: nat, e: nat)
    requires item.Continued? && st == Style('\"', true) && At(text, pos, "\\" + item.spaces + BreakText(item.crlf) + item.blanks)
    requires (forall c | c in item.spaces :: IsSpaceOrTab(c)) && IsBlankRun(item.blanks)
    requires e == pos + |"\\" + item.spaces + BreakText(item.crlf) + item.blanks|
    requires e < |text| ==> !IsHorizontalSpace(text[e]) && !IsAsciiVertical(text[e])
    ensures Stands(item, st, text, pos)
  {}

  lemma SliceAt(text: string, i: nat, j: nat)
    requires i <= j <= |text|
    ensures At(text, i, text[i..j])
  {}

  /** A backslash with an escape behind it. */
  lemma EscapeStands(text: string, pos: nat, st: Style) returns (item: Item)
    requires st.quote == '\"' && pos + 1 < |text| && text[pos] == '\\' && EscapeAt(text, pos + 1).Some?
    ensures Stands(item, st, text, pos)
  {
    hide FromText, AllDigitChars, At;
    var c := text[pos + 1];
    AtChar(text, pos, '\\');
    AtChar(text, pos + 1, c);
    assert ['\\'] + [c] == ['\\', c];
    AtConcat(text, pos, ['\\'], [c]);
    if c == 'u' || c == 'U' {
      var n := if c == 'u' then 4 else 8;
      assert CodePointAt(text, pos + 2, n).Some?;
      SliceAt(text, pos + 2, pos + 2 + n);
      AtConcat(text, pos, ['\\', c], text[pos + 2..pos + 2 + n]);
      item := Long(text[pos + 2..pos + 2 + n]);
    } else {
      item := Short(c);
    }
  }

  lemma QuotedStands(text: string, pos: nat, st: Style) returns (item: Item)
    requires IsDelimiter(st.quote) && pos < |text| && text[pos] == st.quote && st.multi && QuoteRun(text, pos, st.quote, 5) <= 2
    ensures Stands(item, st, text, pos)
  {
    hide IsNonTabControl, IsHorizontalSpace, IsVerticalSpace, At;
    var c := text[pos];
    var two := QuoteRun(text, pos, c, 5) == 2;
    AtChar(text, pos, c);
    if two {
      AtChar(text, pos + 1, c);
      assert [c] + [c] == [c, c];
      AtConcat(text, pos, [c], [c]);
    }
    item := Quoted(two);
  }

  /** A character that stands for itself. */
  lemma LiterallyStands(text: string, pos: nat, st: Style)
    requires IsDelimiter(st.quote) && pos < |text| && text[pos] != st.quote && !(st.quote == '\"' && text[pos] == '\\')
    requires !(st.multi && IsAsciiVertical(text[pos])) && Rest(text, pos, st).Some?
    ensures Stands(Literally(text[pos]), st, text, pos)
  {
    hide EscapeAt, LineContinuation, LineBreakAt, IsNonTabControl, IsHorizontalSpace, IsVerticalSpace, QuotesRound, At;
    AtChar(text, pos, text[pos]);
  }

  /** What stands at a place of a string that is not its end. */
  lemma ItemStands(text: string, pos: nat, st: Style) returns (item: Item)
    requires IsDelimiter(st.quote) && pos < |text| && Rest(text, pos, st).Some?
    requires text[pos] == st.quote ==> st.multi && QuoteRun(text, pos, st.quote, 5) <= 2
    ensures Stands(item, st, text, pos)
  {
    hide EscapeAt, LineContinuation, LineBreakAt, IsNonTabControl, IsHorizontalSpace, IsVerticalSpace, QuotesRound, At, Stands;
    var c := text[pos];
    if c == st.quote {
      item := QuotedStands(text, pos, st);
    } else if st.quote == '\"' && c == '\\' {
      PrependAll("", "", None);
      if pos + 1 < |text| { TwoRounds(text, pos, st.multi); }
      if st.multi && (IsHorizontalSpace(text[pos + 1]) || IsVerticalSpace(text[pos + 1])) {
        item := ContinuedStands(text, pos, st);
      } else {
        item := EscapeStands(text, pos, st);
      }
    } else if st.multi && IsAsciiVertical(c) {
      var crlf := BreakIs(text, pos);
      item := NewLine(crlf);
      BreakStands(text, pos, st, crlf);
    } else {
      LiterallyStands(text, pos, st);
      item := Literally(c);
    }
  }

  lemma BreakStands(text: string, pos: nat, st: Style, crlf: bool)
    requires st.multi && At(text, pos, BreakText(crlf))
    ensures Stands(NewLine(crlf), st, text, pos)
  {
    hide At;
  }

  /** Whatever is read was a list of items between delimiters, and is what they mean. */
  lemma {:induction false} ReadItems(text: string, pos: nat, st: Style) returns (items: seq<Item>)
    requires IsDelimiter(st.quote) && pos <= |text| && Rest(text, pos, st).Some?
    ensures Items(items, st) && At(text, pos, Text(items, st) + Closing(st))
    ensures var end := pos + |Text(items, st)| + |Closing(st)|;
            EndsIn(items, st, text, end) && Rest(text, pos, st) == Some(Parsed(Meanings(items, st), end))
    decreases |text| - pos
  {
    hide At, Rest, ItemText, ItemOk, IsBlankRun, Prepend, Meaning, QuoteRun;
    RestNotEmpty(text, pos, st);
    if text[pos] == st.quote && (!st.multi || QuoteRun(text, pos, st.quote, 5) > 2) {
      items := ClosingItems(text, pos, st);
    } else {
      var item := ItemStands(text, pos, st);
      ItemReads(text, pos, item, st);
      PrependSome(Meaning(item, st), Rest(text, pos + |ItemText(item, st)|, st));
      var rest := ReadItems(text, pos + |ItemText(item, st)|, st);
      ClearFollows(text, pos + |ItemText(item, st)|, item, rest, st);
      ItemsCons(item, rest, st);
      items := [item] + rest;
      AtConcat(text, pos, ItemText(item, st), Text(rest, st) + Closing(st));
      Assoc(ItemText(item, st), Text(rest, st), Closing(st));
      PrependIs(Meaning(item, st), Meanings(rest, st), pos + |Text(items, st)| + |Closing(st)|);
      assert rest != [] ==> items[|items| - 1] == rest[|rest| - 1];
    }
  }

  lemma ClosingItems(text: string, pos: nat, st: Style) returns (items: seq<Item>)
    requires IsDelimiter(st.quote) && pos < |text| && text[pos] == st.quote && Rest(text, pos, st).Some?
    requires st.multi ==> QuoteRun(text, pos, st.quote, 5) > 2
    ensures Items(items, st) && At(text, pos, Text(items, st) + Closing(st))
    ensures var end := pos + |Text(items, st)| + |Closing(st)|;
            EndsIn(items, st, text, end) && Rest(text, pos, st) == Some(Parsed(Meanings(items, st), end))
  {
    hide Rest, QuoteRun;
    var n := if st.multi then QuoteRun(text, pos, st.quote, 5) else 1;
    var quotes := if n <= 3 then 0 else n - 3;
    items := if quotes == 0 then [] else [Quoted(quotes == 2)];
    ClosingReads(text, pos, quotes, st);
    assert items != [] ==> items[1..] == [];
    var v := ItemText(Quoted(quotes == 2), st);
    assert v + "" == v;
    assert text[pos..pos + n] == Text(items, st) + Closing(st);
  }

  lemma ClearFollows(text: string, pos: nat, item: Item, rest: seq<Item>, st: Style)
    requires IsDelimiter(st.quote) && Clear(item, st, text, pos) && Items(rest, st)
    requires At(text, pos, Text(rest, st) + Closing(st))
    ensures rest != [] ==> MayFollow(item, rest[0])
  {
    hide At, IsBlankRun, AllDigitChars;
    if rest != [] {
      ItemBegins(rest[0], st);
      AtSlice(text, pos, Text(rest, st) + Closing(st));
      AtCharOf(text, pos, Text(rest, st) + Closing(st), 0);
    }
  }

  lemma RestNotEmpty(text: string, pos: nat, st: Style)
    requires IsDelimiter(st.quote) && pos <= |text| && Rest(text, pos, st).Some?
    ensures pos < |text|
  {}

  lemma PrependSome(s: string, r: Option<Parsed<string>>)
    ensures Prepend(s, r).Some? <==> r.Some?
  {}

  // ---------------------------------------------------------------- whole strings

  /** A string: over many lines, a line break right behind the opening delimiter does not count. */
  datatype Spelling = Spelling(st: Style, first: string, items: seq<Item>)

  ghost predicate SpellingOk(sp: Spelling) {
    && IsDelimiter(sp.st.quote) && Items(sp.items, sp.st)
    && (sp.first == "" || (sp.st.multi && sp.first in {BreakText(false), BreakText(true)}))
    && (sp.first == "" && sp.st.multi && sp.items != [] ==> !sp.items[0].NewLine?)
  }

  function Written(sp: Spelling): string {
    Closing(sp.st) + (sp.first + (Text(sp.items, sp.st) + Closing(sp.st)))
  }

  /** No further quote may follow: it would belong to the string, or to its delimiters. */
  ghost predicate NotLonger(sp: Spelling, text: string, end: nat) {
    EndsIn(sp.items, sp.st, text, end) && (!sp.st.multi && sp.items == [] && end < |text| ==> text[end] != sp.st.quote)
  }

  lemma ContentsAre(text: string, pos: nat, st: Style)
    requires IsDelimiter(st.quote) && pos <= |text|
    ensures ContentsAt(text, pos, st.quote, st.multi) ==
            var start := ContentsStart(text, pos, st.multi);
            if start.None? then None else
              var r := Rest(text, start.value, st);
              if r.None? then None else Some(Parsed(ParsedString(r.value.value, st.multi), r.value.after))
  {
    hide BasicRest, LiteralRest, ContentsStart;
  }

  lemma StartIs(text: string, pos: nat, sp: Spelling)
    requires SpellingOk(sp) && At(text, pos, sp.first + (Text(sp.items, sp.st) + Closing(sp.st)))
    ensures pos + |sp.first| <= |text| && ContentsStart(text, pos, sp.st.multi) == Some(pos + |sp.first|)
  {
    hide ItemText, ItemOk, At;
    var body := Text(sp.items, sp.st) + Closing(sp.st);
    AtConcat(text, pos, sp.first, body);
    AtSlice(text, pos + |sp.first|, body);
    if sp.first != "" {
      BreakReads(text, pos, sp.first == BreakText(true));
    } else if sp.st.multi {
      if sp.items != [] { FirstItem(sp.items[0], sp.st); }
      AtCharOf(text, pos, body, 0);
    }
  }

  lemma FirstItem(item: Item, st: Style)
    requires IsDelimiter(st.quote) && ItemOk(item, st)
    ensures ItemText(item, st) != "" && (!item.NewLine? ==> !IsAsciiVertical(ItemText(item, st)[0]))
  {}

  /** Every string of the grammar is read as what it means. */
  lemma StringIsRead(text: string, pos: nat, sp: Spelling)
    requires SpellingOk(sp) && At(text, pos, Written(sp)) && NotLonger(sp, text, pos + |Written(sp)|)
    ensures pos < |text| && text[pos] == sp.st.quote
    ensures StringAt(text, pos)
         == Some(Parsed(ParsedString(Meanings(sp.items, sp.st), sp.st.multi), pos + |Written(sp)|))
  {
    hide At, StringAt, Rest, ContentsAt, ContentsStart, ItemText, ItemOk;
    var q, n, tail := sp.st.quote, |Closing(sp.st)|, Text(sp.items, sp.st) + Closing(sp.st);
    AtConcat(text, pos, Closing(sp.st), sp.first + tail);
    AtConcat(text, pos + n, sp.first, tail);
    Opens(text, pos, sp);
    StartIs(text, pos + n, sp);
    ItemsRead(text, pos + n + |sp.first|, sp.items, sp.st);
    ContentsAre(text, pos + n, sp.st);
  }

  lemma Opens(text: string, pos: nat, sp: Spelling)
    requires SpellingOk(sp) && At(text, pos, Written(sp)) && NotLonger(sp, text, pos + |Written(sp)|)
    ensures pos < |text| && text[pos] == sp.st.quote && pos + |Closing(sp.st)| <= |text|
    ensures sp.st.multi || sp.items != [] || pos + 2 < |text| ==>
              StringAt(text, pos) == ContentsAt(text, pos + |Closing(sp.st)|, sp.st.quote, sp.st.multi)
    ensures !sp.st.multi && sp.items == [] && pos + 2 == |text| ==>
              StringAt(text, pos) == Some(Parsed(ParsedString("", false), pos + 2))
  {
    hide ContentsAt, ItemText, ItemOk, At;
    AtAll(text, pos, Written(sp));
    if sp.items != [] {
      ItemBegins(sp.items[0], sp.st);
      NoQuotedAlone(sp.items[0], sp.st);
    }
  }

  lemma NoQuotedAlone(item: Item, st: Style)
    requires ItemOk(item, st)
    ensures item.Quoted? ==> st.multi
  {}

  /** Every string that is read is one of the grammar. */
  lemma ReadString(text: string, pos: nat) returns (sp: Spelling)
    requires pos < |text| && IsDelimiter(text[pos]) && StringAt(text, pos).Some?
    ensures SpellingOk(sp) && sp.st.quote == text[pos]
    ensures At(text, pos, Written(sp)) && NotLonger(sp, text, pos + |Written(sp)|)
  {
    hide At, Rest, ContentsAt, ContentsStart, ItemText, ItemOk;
    var q := text[pos];
    if pos + 2 == |text| {
      sp := Spelling(Style(q, false), "", []);
      SliceAt(text, pos, pos + 2);
      assert text[pos..pos + 2] == Written(sp);
    } else if text[pos + 1] == q && text[pos + 2] == q {
      SliceAt(text, pos, pos + 3);
      assert text[pos..pos + 3] == [q, q, q];
      sp := ReadMulti(text, pos + 3, q);
      AtConcat(text, pos, Closing(sp.st), sp.first + (Text(sp.items, sp.st) + Closing(sp.st)));
    } else {
      var st := Style(q, false);
      ContentsAre(text, pos + 1, st);
      SingleStart(text, pos + 1);
      var items := ReadItems(text, pos + 1, st);
      sp := Spelling(st, "", items);
      AtChar(text, pos, q);
      assert "" + (Text(items, st) + Closing(st)) == Text(items, st) + Closing(st);
      AtConcat(text, pos, [q], Text(items, st) + Closing(st));
      if items == [] { AtAll(text, pos, Written(sp)); }
    }
  }

  lemma SingleStart(text: string, pos: nat)
    requires pos <= |text|
    ensures ContentsStart(text, pos, false) == Some(pos)
  {}

  lemma ReadMulti(text: string, pos: nat, q: char) returns (sp: Spelling)
    requires IsDelimiter(q) && pos <= |text| && ContentsAt(text, pos, q, true).Some?
    ensures SpellingOk(sp) && sp.st == Style(q, true)
    ensures At(text, pos, sp.first + (Text(sp.items, sp.st) + Closing(sp.st)))
    ensures EndsIn(sp.items, sp.st, text, pos + |sp.first| + |Text(sp.items, sp.st)| + 3)
  {
    hide At, Rest, ContentsAt, ContentsStart, LineBreakAt, ItemText, ItemOk;
    var st := Style(q, true);
    ContentsAre(text, pos, st);
    StartCases(text, pos);
    var start := ContentsStart(text, pos, true).value;
    var items := ReadItems(text, start, st);
    var tail := Text(items, st) + Closing(st);
    var first := "";
    if LineBreakAt(text, pos).Broken? {
      var crlf := BreakIs(text, pos);
      first := BreakText(crlf);
    } else if items != [] && items[0].NewLine? {
      assert ItemText(items[0], st) == BreakText(items[0].crlf) by { NewLineText(items[0], st); }
      Assoc(ItemText(items[0], st), Text(items[1..], st), Closing(st));
      AtConcat(text, pos, ItemText(items[0], st), Text(items[1..], st) + Closing(st));
      BreakReads(text, pos, items[0].crlf);
    } else {
      assert "" + tail == tail;
    }
    AtConcat(text, pos, first, tail);
    AtEmpty(text, pos);
    sp := Spelling(st, first, items);
  }

  lemma StartCases(text: string, pos: nat)
    requires pos <= |text| && ContentsStart(text, pos, true).Some?
    ensures LineBreakAt(text, pos).Broken? ==> pos < |text| && ContentsStart(text, pos, true) == Some(LineBreakAt(text, pos).after)
    ensures !LineBreakAt(text, pos).Broken? ==> ContentsStart(text, pos, true) == Some(pos)
  {}

  lemma NewLineText(item: Item, st: Style)
    requires item.NewLine?
    ensures ItemText(item, st) == BreakText(item.crlf)
  {}

  lemma AtEmpty(text: string, pos: nat)
    requires pos <= |text|
    ensures At(text, pos, "")
  {}

  // ---------------------------------------------------------------- a continued line reads as one line

  lemma AtMoved(a: string, b: string, y: string, s: string)
    requires At(a + y, |a|, s)
    ensures |s| <= |y| && At(b + y, |b|, s)
  {
    assert (a + y)[|a|..|a| + |s|] == y[..|s|] == (b + y)[|b|..|b| + |s|];
  }

  lemma RestMovedOneWay(a: string, b: string, y: string, st: Style)
    requires IsDelimiter(st.quote) && Rest(a + y, |a|, st).Some?
    ensures var r := Rest(a + y, |a|, st).value;
            r.after >= |a| && Rest(b + y, |b|, st) == Some(Parsed(r.value, r.after - |a| + |b|))
  {
    hide At, Rest, Meanings, Text, Closing, Items;
    var items := ReadItems(a + y, |a|, st);
    var s := Text(items, st) + Closing(st);
    AtMoved(a, b, y, s);
    assert |a| + |s| < |a + y| ==> (a + y)[|a| + |s|] == y[|s|] == (b + y)[|b| + |s|];
    ItemsRead(b + y, |b|, items, st);
  }

  /** What is read does not depend on what is before it. */
  lemma RestMoved(a: string, b: string, y: string, st: Style)
    requires IsDelimiter(st.quote)
    ensures var r := Rest(a + y, |a|, st);
            Rest(b + y, |b|, st) == if r.None? then None else Some(Parsed(r.value.value, r.value.after - |a| + |b|))
  {
    hide *;
    if Rest(a + y, |a|, st).Some? {
      RestMovedOneWay(a, b, y, st);
    } else if Rest(b + y, |b|, st).Some? {
      RestMovedOneWay(b, a, y, st);
    }
  }

  /**
    A backslash, spaces, a line break and all blanks behind it: the contents of a multi-line string are
    the same with them and without.
  */
  lemma ContinuationVanishes(x: string, spaces: string, crlf: bool, blanks: string, y: string)
    requires (forall c | c in spaces :: IsSpaceOrTab(c)) && IsBlankRun(blanks)
    requires y != "" ==> !IsHorizontalSpace(y[0]) && !IsAsciiVertical(y[0])
    ensures var run := "\\" + spaces + BreakText(crlf) + blanks;
            var r := BasicRest(x + y, |x|, true, false, false);
            (BasicRest(x + run + y, |x|, true, false, false)
             == if r.None? then None else Some(Parsed(r.value.value, r.value.after + |run|)))
  {
    hide BasicRest, At, IsBlankRun, BreakText, IsHorizontalSpace;
    var st, run := Style('\"', true), "\\" + spaces + BreakText(crlf) + blanks;
    assert (x + run + y)[|x|..|x| + |run|] == run;
    SlicesAt(x, run, y);
    ContinuedReads(x + run + y, |x|, spaces, crlf, blanks, st);
    RestMoved(x, x + run, y, st);
  }

  lemma SlicesAt(x: string, s: string, y: string)
    ensures At(x + s + y, |x|, s) && |x + s| == |x| + |s| && (y != "" ==> (x + s + y)[|x| + |s|] == y[0])
  {
    assert (x + s + y)[|x|..|x| + |s|] == s;
  }

  // ---------------------------------------------------------------- escapes that are printed

  lemma LongEscape(c: char)
    ensures |StringPrinter.HexEscape(c)| == if c as int > 0xFFFF then 10 else 6
  {
    hide Padded, Pow;
    SixteenTo();
    PaddedText(c as nat, if c as int > 0xFFFF then 8 else 4, 16);
  }

  lemma SixteenTo()
    ensures Pow(16, 4) == 0x1_0000 && Pow(16, 8) == 0x1_0000_0000
  {
    PowDouble(16, 1);
    PowDouble(16, 2);
    PowDouble(16, 4);
  }

  /** An escape stands for one character. */
  lemma EscapeMeans(item: Item, c: char)
    requires (item.Short? || item.Long?) && ItemOk(item, Style('\"', true)) && Meaning(item, Style('\"', true)) == [c]
    ensures |ItemText(item, Style('\"', true))| >= (if c in Shorts.Values then 2 else if c as int > 0xFFFF then 10 else 6)
    ensures item.Short? ==> c in Shorts.Values
  {
    hide FromText, AllDigitChars;
    match item
    case Short(letter) => assert Shorts[letter] == c;
    case Long(digits) =>
      if |digits| == 4 { FourDigits(digits); }
  }

  lemma FourDigits(digits: string)
    requires |digits| == 4 && AllDigitChars(digits, 16)
    ensures FromText(digits, 16) <= 0xFFFF
  {
    HexDigits(digits, 16);
    FromDigitsBound(DigitValues(digits), 16);
    SixteenTo();
  }

  /** No escape of a character is shorter than the printed one. */
  lemma EscapeIsShortest(item: Item, c: char, multi: bool, realTabs: bool, unicode: bool)
    requires (item.Short? || item.Long?) && ItemOk(item, Style('\"', true)) && Meaning(item, Style('\"', true)) == [c]
    ensures |StringPrinter.Escape(c, multi, realTabs, unicode)| <= |ItemText(item, Style('\"', true))|
  {
    hide StringPrinter.HexEscape;
    EscapeMeans(item, c);
    LongEscape(c);
  }
}
