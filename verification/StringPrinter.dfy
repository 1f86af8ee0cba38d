/** `formatter::print_string` of `toml.hpp`. */
module StringPrinter {
  import opened Characters
  import opened Numerals
  import opened Sequences

  /** What a formatter allows strings to be printed with. */
  datatype StringFlags = StringFlags(literal: bool, multiLine: bool, realTabs: bool, unicode: bool)

  /** What a use of `print_string` allows. */
  datatype StringUse = StringUse(multiLine: bool, bare: bool, literalWhitespace: bool)

  /** Values are printed with the default arguments, keys as single lines that may be bare. */
  const VALUE_USE := StringUse(true, false, true)
  const KEY_USE := StringUse(false, true, false)

  datatype Style = Bare | Literal(multiLine: bool) | Basic(multiLine: bool)

  // ---------------------------------------------------------------- choosing a style

  /** `formatted_string_traits`. */
  datatype Traits = Traits(lineBreaks: bool, tabs: bool, controlChars: bool, singleQuotes: bool, nonBare: bool, nonAscii: bool)

  predicate IsForeignVertical(c: char) {
    '\U{2028}' <= c <= '\U{2029}' || c == '\U{85}'
  }

  predicate IsNonAscii(c: char) {
    c > '\U{7F}'
  }

  predicate IsControlTrait(c: char) {
    c != '\n' && c != '\t' && (IsControl(c) || IsForeignVertical(c))
  }

  predicate IsBareText(s: string) {
    forall c | c in s :: IsBareKeyChar(c)
  }

  predicate HasControl(s: string) {
    exists c :: c in s && IsControlTrait(c)
  }

  predicate HasNonAscii(s: string) {
    exists c :: c in s && IsNonAscii(c)
  }

  function TraitsOf(s: string, bareAllowed: bool): Traits {
    Traits('\n' in s, '\t' in s, HasControl(s), '\'' in s, !bareAllowed || !IsBareText(s), HasNonAscii(s))
  }

  /** The style that `print_string` chooses for a text that is not empty. */
  function StyleOf(s: string, use: StringUse, flags: StringFlags): Style {
    var realTabs := use.literalWhitespace && flags.realTabs;
    var multi := use.literalWhitespace && use.multiLine && flags.multiLine && '\n' in s;
    if use.bare && IsBareText(s) then Bare
    else if
      && flags.literal && !HasControl(s)
      && ('\'' in s ==> multi) && ('\t' in s ==> realTabs) && ('\n' in s ==> multi) && (HasNonAscii(s) ==> flags.unicode)
    then Literal(multi)
    else Basic(multi)
  }

  lemma BareIsAscii(s: string)
    ensures IsBareText(s) ==> !HasNonAscii(s) && '\n' !in s && '\t' !in s && '\'' !in s
  {}

  /** One character's contribution to the traits. */
  method AddTrait(t: Traits, c: char) returns (r: Traits)
    ensures r.lineBreaks == (t.lineBreaks || c == '\n') && r.tabs == (t.tabs || c == '\t')
    ensures r.singleQuotes == (t.singleQuotes || c == '\'')
    ensures r.controlChars == (t.controlChars || IsControlTrait(c)) && r.nonAscii == (t.nonAscii || IsNonAscii(c))
    ensures (r.nonBare || r.lineBreaks || r.tabs || r.singleQuotes)
         == (t.nonBare || t.lineBreaks || t.tabs || t.singleQuotes || !IsBareKeyChar(c))
  {
    r := t;
    if IsNonAscii(c) { r := r.(nonAscii := true); }
    match c
    case '\n' => r := r.(lineBreaks := true);
    case '\t' => r := r.(tabs := true);
    case '\'' => r := r.(singleQuotes := true);
    case _ =>
      if IsControl(c) || IsForeignVertical(c) { r := r.(controlChars := true); }
      if !IsBareKeyChar(c) { r := r.(nonBare := true); }
  }

  /** The scan of `print_string`, which both its loops do code point by code point. */
  method ScanTraits(s: string, bareAllowed: bool) returns (t: Traits)
    ensures t.(nonBare := t.nonBare || t.lineBreaks || t.tabs || t.singleQuotes) == TraitsOf(s, bareAllowed)
  {
    hide HasControl, HasNonAscii, IsBareText, IsBareKeyChar, IsControlTrait, IsNonAscii;
    t := Traits(false, false, false, false, !bareAllowed, false);
    NoTraits();
    for i := 0 to |s|
      invariant t.(nonBare := t.nonBare || t.lineBreaks || t.tabs || t.singleQuotes) == TraitsOf(s[..i], bareAllowed)
    {
      assert s[..i + 1] == s[..i] + [s[i]];
      OneMore(s[..i], s[i]);
      t := AddTrait(t, s[i]);
    }
    assert s[..|s|] == s;
  }

  lemma NoTraits()
    ensures !HasControl("") && !HasNonAscii("") && IsBareText("")
  {}

  lemma OneMore(s: string, c: char)
    ensures HasControl(s + [c]) <==> HasControl(s) || IsControlTrait(c)
    ensures HasNonAscii(s + [c]) <==> HasNonAscii(s) || IsNonAscii(c)
    ensures IsBareText(s + [c]) <==> IsBareText(s) && IsBareKeyChar(c)
    ensures forall d :: d in s + [c] <==> d in s || d == c
  {
    hide IsBareKeyChar, IsControlTrait, IsNonAscii;
    assert c in s + [c];
    forall d | d in s ensures d in s + [c] {}
  }

  // ---------------------------------------------------------------- escaping

  /** `\u` or `\U` with the code point in upper-case hexadecimal digits. */
  function HexEscape(c: char): string {
    if c as int > 0xFFFF then "\\U" + Padded(c as nat, 8, 16) else "\\u" + Padded(c as nat, 4, 16)
  }

  /** `control_char_escapes`, for characters up to U+001F. */
  function ControlEscape(c: char): string {
    match c
    case '\U{8}' => "\\b"
    case '\t' => "\\t"
    case '\n' => "\\n"
    case '\U{C}' => "\\f"
    case '\r' => "\\r"
    case _ => HexEscape(c)
  }

  /** How a basic string shows one character. */
  function Escape(c: char, multi: bool, realTabs: bool, unicode: bool): string {
    match c
    case '\"' => "\\\""
    case '\\' => "\\\\"
    case '\U{7F}' => HexEscape(c)
    case '\t' => if realTabs then "\t" else "\\t"
    case '\n' => if multi then "\n" else "\\n"
    case _ =>
      if c <= '\U{1F}' then ControlEscape(c)
      else if IsNonAscii(c) && (!unicode || IsForeignVertical(c)) then HexEscape(c)
      else [c]
  }

  function Escaped(s: string, multi: bool, realTabs: bool, unicode: bool): string {
    if s == "" then "" else Escape(s[0], multi, realTabs, unicode) + Escaped(s[1..], multi, realTabs, unicode)
  }

  function Quotes(q: char, multi: bool): string {
    if multi then [q, q, q] else [q]
  }

  /** The text of a string in a style. */
  function Styled(s: string, style: Style, realTabs: bool, unicode: bool): string {
    match style
    case Bare => s
    case Literal(multi) => Quotes('\'', multi) + s + Quotes('\'', multi)
    case Basic(multi) => Quotes('\"', multi) + Escaped(s, multi, realTabs, unicode) + Quotes('\"', multi)
  }

  function StringText(s: string, use: StringUse, flags: StringFlags): string {
    if s == "" then (if flags.literal then "''" else "\"\"")
    else Styled(s, StyleOf(s, use, flags), use.literalWhitespace && flags.realTabs, flags.unicode)
  }

  lemma {:induction false} EscapedStep(s: string, i: nat, multi: bool, realTabs: bool, unicode: bool)
    requires i < |s|
    ensures Escaped(s[i..], multi, realTabs, unicode)
         == Escape(s[i], multi, realTabs, unicode) + Escaped(s[i + 1..], multi, realTabs, unicode)
  {
    assert s[i..][0] == s[i] && s[i..][1..] == s[i + 1..];
  }

  /** The body of the loops of `print_string` that escape. */
  method PrintEscape(c: char, multi: bool, realTabs: bool, unicode: bool) returns (os: string)
    ensures os == Escape(c, multi, realTabs, unicode)
  {
    hide Padded;
    match c
    case '\"' => os := "\\\"";
    case '\\' => os := "\\\\";
    case '\U{7F}' =>
      os := PrintPadded(c as nat, 4, 16);
      os := "\\u" + os;
    case '\t' => os := if realTabs then "\t" else "\\t";
    case '\n' => os := if multi then "\n" else "\\n";
    case _ =>
      if c <= '\U{1F}' {
        os := ControlEscape(c);
      } else if IsNonAscii(c) && (!unicode || IsForeignVertical(c)) {
        if c as int > 0xFFFF {
          os := PrintPadded(c as nat, 8, 16);
          os := "\\U" + os;
        } else {
          os := PrintPadded(c as nat, 4, 16);
          os := "\\u" + os;
        }
      } else {
        os := [c];
      }
  }

  /** `print_string`. */
  method PrintString(str: string, use: StringUse, flags: StringFlags) returns (os: string)
    ensures os == StringText(str, use, flags)
  {
    hide Escape, Escaped, HasControl, HasNonAscii, IsBareText;
    if str == "" { return if flags.literal then "''" else "\"\""; }
    BareIsAscii(str);
    var traits := ScanTraits(str, use.bare);
    if traits.lineBreaks || traits.tabs || traits.singleQuotes { traits := traits.(nonBare := true); }
    if !traits.nonBare && (!traits.nonAscii || flags.unicode) { return str; }
    var realTabs := use.literalWhitespace && flags.realTabs;
    var multi := use.literalWhitespace && use.multiLine && flags.multiLine && traits.lineBreaks;
    var literal :=
      && flags.literal && !traits.controlChars && (!traits.singleQuotes || multi) && (!traits.tabs || realTabs)
      && (!traits.lineBreaks || multi) && (!traits.nonAscii || flags.unicode);
    if literal {
      os := if multi then "'''" else "'";
      os := os + str;
      os := os + if multi then "'''" else "'";
      return;
    }
    os := if multi then "\"\"\"" else "\"";
    var body := PrintEscaped(str, multi, realTabs, flags.unicode);
    os := os + body;
    os := os + if multi then "\"\"\"" else "\"";
  }

  method PrintEscaped(str: string, multi: bool, realTabs: bool, unicode: bool) returns (os: string)
    ensures os == Escaped(str, multi, realTabs, unicode)
  {
    hide Escape, Escaped;
    os := "";
    assert str[0..] == str;
    assert "" + Escaped(str, multi, realTabs, unicode) == Escaped(str, multi, realTabs, unicode);
    for i := 0 to |str|
      invariant Escaped(str, multi, realTabs, unicode) == os + Escaped(str[i..], multi, realTabs, unicode)
    {
      EscapedStep(str, i, multi, realTabs, unicode);
      Assoc(os, Escape(str[i], multi, realTabs, unicode), Escaped(str[i + 1..], multi, realTabs, unicode));
      var piece := PrintEscape(str[i], multi, realTabs, unicode);
      os := os + piece;
    }
    NothingEscaped(multi, realTabs, unicode);
    assert str[|str|..] == "" && os + "" == os;
  }

  lemma NothingEscaped(multi: bool, realTabs: bool, unicode: bool)
    ensures Escaped("", multi, realTabs, unicode) == ""
  {}

  // ---------------------------------------------------------------- text without unicode

  lemma HexEscapeIsAscii(c: char)
    ensures !HasNonAscii(HexEscape(c))
  {
    hide Padded;
    var width := if c as int > 0xFFFF then 8 else 4;
    PaddedIsAscii(c as nat, width);
    assert forall d | d in HexEscape(c) :: d in "\\u" || d in "\\U" || d in Padded(c as nat, width, 16);
  }

  lemma PaddedIsAscii(n: nat, width: nat)
    ensures !HasNonAscii(Padded(n, width, 16))
  {
    hide ToText, Zeros;
    TextRoundTrip(n, 16);
  }

  lemma EscapeIsAscii(c: char, multi: bool, realTabs: bool)
    ensures !HasNonAscii(Escape(c, multi, realTabs, false))
  {
    hide HexEscape;
    HexEscapeIsAscii(c);
  }

  lemma {:induction false} EscapedIsAscii(s: string, multi: bool, realTabs: bool)
    ensures !HasNonAscii(Escaped(s, multi, realTabs, false))
  {
    hide Escape;
    if s != "" {
      EscapeIsAscii(s[0], multi, realTabs);
      EscapedIsAscii(s[1..], multi, realTabs);
    }
  }

  /** Where unicode is not allowed, every string is printed in ASCII. */
  lemma TextIsAscii(s: string, use: StringUse, flags: StringFlags)
    requires !flags.unicode
    ensures !HasNonAscii(StringText(s, use, flags))
  {
    hide Escaped, HasControl, IsBareText;
    BareIsAscii(s);
    if s != "" {
      match StyleOf(s, use, flags)
      case Basic(multi) => EscapedIsAscii(s, multi, use.literalWhitespace && flags.realTabs);
      case _ =>
    }
  }

  // ---------------------------------------------------------------- what the flags promise

  /** Control characters that may stand in a text as they are: line breaks and tabs, where they are allowed. */
  predicate MayStand(c: char, lineBreaks: bool, tabs: bool) {
    if c == '\n' then lineBreaks else if c == '\t' then tabs else !IsControlTrait(c)
  }

  predicate AllMayStand(s: string, lineBreaks: bool, tabs: bool) {
    forall c | c in s :: MayStand(c, lineBreaks, tabs)
  }

  lemma HexMayStand(c: char, lineBreaks: bool, tabs: bool)
    ensures AllMayStand(HexEscape(c), lineBreaks, tabs)
  {
    hide Padded;
    var width := if c as int > 0xFFFF then 8 else 4;
    PaddedIsHex(c as nat, width);
    forall d | d in HexEscape(c) ensures MayStand(d, lineBreaks, tabs) {
      assert d in "\\u" || d in "\\U" || d in Padded(c as nat, width, 16);
    }
  }

  lemma PaddedIsHex(n: nat, width: nat)
    ensures forall c | c in Padded(n, width, 16) :: IsDigitChar(c, 16)
  {
    hide ToText, Zeros;
    TextRoundTrip(n, 16);
  }

  lemma EscapeMayStand(c: char, multi: bool, realTabs: bool, unicode: bool)
    ensures AllMayStand(Escape(c, multi, realTabs, unicode), multi, realTabs)
  {
    hide HexEscape;
    HexMayStand(c, multi, realTabs);
  }

  lemma {:induction false} EscapedMayStand(s: string, multi: bool, realTabs: bool, unicode: bool)
    ensures AllMayStand(Escaped(s, multi, realTabs, unicode), multi, realTabs)
  {
    hide Escape, MayStand;
    if s != "" {
      EscapeMayStand(s[0], multi, realTabs, unicode);
      EscapedMayStand(s[1..], multi, realTabs, unicode);
    }
  }

  lemma BareMayStand(s: string, lineBreaks: bool, tabs: bool)
    ensures IsBareText(s) ==> AllMayStand(s, lineBreaks, tabs)
  {}

  lemma LiteralMayStand(s: string, use: StringUse, flags: StringFlags)
    requires StyleOf(s, use, flags).Literal?
    ensures flags.literal
    ensures AllMayStand(s, StyleOf(s, use, flags).multiLine, use.literalWhitespace && flags.realTabs)
  {
    hide IsBareText, HasNonAscii;
  }

  /** Line breaks and tabs are printed as they are only where the use and the flags allow it, other controls never. */
  lemma TextMayStand(s: string, use: StringUse, flags: StringFlags)
    ensures AllMayStand(StringText(s, use, flags), use.literalWhitespace && use.multiLine && flags.multiLine,
                        use.literalWhitespace && flags.realTabs)
  {
    hide Escaped, HasControl, HasNonAscii, IsBareText;
    var tabs := use.literalWhitespace && flags.realTabs;
    if s != "" {
      match StyleOf(s, use, flags)
      case Bare => BareMayStand(s, use.literalWhitespace && use.multiLine && flags.multiLine, tabs);
      case Literal(multi) => LiteralMayStand(s, use, flags);
      case Basic(multi) => EscapedMayStand(s, multi, tabs, flags.unicode);
    }
  }

  /** Only where literal strings are allowed are there single quotes, and everything but bare keys stands in quotes. */
  lemma TextIsQuoted(s: string, use: StringUse, flags: StringFlags)
    ensures var t := StringText(s, use, flags);
            && t != "" && (t[0] == '\'' ==> flags.literal)
            && (t[0] == '\'' || t[0] == '\"' || (use.bare && IsBareText(s) && t == s))
  {
    hide Escaped, HasControl, HasNonAscii, IsBareText;
    if s != "" { BareBegins(s); }
  }

  lemma BareBegins(s: string)
    requires s != ""
    ensures IsBareText(s) ==> s[0] != '\''
  {
    assert s[0] in s;
  }

  /** What can stand between single quotes does, if literal strings are allowed. */
  lemma LiteralIfPossible(s: string, use: StringUse, flags: StringFlags)
    requires flags.literal && s != "" && !(use.bare && IsBareText(s))
    requires forall c | c in s :: c != '\'' && c != '\n' && c != '\t' && !IsControlTrait(c) && (IsNonAscii(c) ==> flags.unicode)
    ensures StringText(s, use, flags) == "'" + s + "'"
  {
    hide IsBareText;
  }
}
