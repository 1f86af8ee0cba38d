/** The character classes of the parser and printer of `toml.hpp`. */
module Characters {

  predicate IsSpaceOrTab(c: char) {
    c == ' ' || c == '\t'
  }

  predicate IsForeignSpace(c: char) {
    || c == '\U{A0}' || c == '\U{1680}' || c == '\U{180E}' || '\U{2000}' <= c <= '\U{200B}' || c == '\U{202F}'
    || '\U{205F}' <= c <= '\U{2060}' || c == '\U{3000}' || c == '\U{FEFF}'
  }

  predicate IsHorizontalSpace(c: char) {
    IsSpaceOrTab(c) || IsForeignSpace(c)
  }

  predicate IsVerticalSpace(c: char) {
    '\n' <= c <= '\r' || '\U{2028}' <= c <= '\U{2029}' || c == '\U{85}'
  }

  predicate IsValueTerminator(c: char) {
    IsHorizontalSpace(c) || IsVerticalSpace(c) || c == ']' || c == '}' || c == ',' || c == '#'
  }

  predicate IsControl(c: char) {
    c <= '\U{1F}' || c == '\U{7F}'
  }

  predicate IsNonTabControl(c: char) {
    IsControl(c) && c != '\t'
  }

  predicate IsDecimalDigit(c: char) {
    '0' <= c <= '9'
  }

  predicate IsLetter(c: char) {
    'a' <= c <= 'z' || 'A' <= c <= 'Z'
  }

  predicate IsBareKeyChar(c: char) {
    IsDecimalDigit(c) || IsLetter(c) || c == '-' || c == '_'
  }

  /** A value that begins before `pos` cannot go on there. */
  predicate EndsAt(text: string, pos: nat) {
    pos >= |text| || IsValueTerminator(text[pos])
  }

  /** `s` stands at `pos`. */
  predicate At(text: string, pos: nat, s: string) {
    pos + |s| <= |text| && text[pos..pos + |s|] == s
  }

  lemma AtConcat(text: string, pos: nat, a: string, b: string)
    ensures At(text, pos, a + b) <==> At(text, pos, a) && At(text, pos + |a|, b)
  {
    if pos + |a| + |b| <= |text| {
      assert text[pos..pos + |a| + |b|] == text[pos..pos + |a|] + text[pos + |a|..pos + |a| + |b|];
      assert (a + b)[..|a|] == a && (a + b)[|a|..] == b;
    }
  }

  lemma AtChar(text: string, pos: nat, c: char)
    ensures At(text, pos, [c]) <==> pos < |text| && text[pos] == c
  {
    if pos < |text| { assert text[pos..pos + 1] == [text[pos]]; }
  }

  lemma AtCharOf(text: string, pos: nat, s: string, i: nat)
    requires At(text, pos, s) && i < |s|
    ensures text[pos + i] == s[i]
  {
    assert text[pos..pos + |s|][i] == s[i];
  }
}
