/** The integers of TOML as a grammar, and that `parse_integer` of `toml.hpp` reads exactly them. */
module IntegerGrammar {
  import opened Characters
  import opened Integers
  import opened IntegerSpellings
  import opened Numerals
  import opened Wrappers

  /** Digits, with single underscores between them. */
  predicate IsSpaced(body: string, base: Base) {
    && body != ""
    && forall i | 0 <= i < |body| ::
         || IsDigitChar(body[i], base)
         || (body[i] == '_' && 0 < i < |body| - 1 && IsDigitChar(body[i - 1], base) && IsDigitChar(body[i + 1], base))
  }

  /** What stands before the digits of a number: a sign, or the prefix of its base. */
  predicate IsHead(h: string, n: int, base: Base) {
    if base != 10 then h == Prefix(base) && n >= 0
    else (h == "-" && n <= 0) || ((h == "" || h == "+") && n >= 0)
  }

  /** Digits denote a number; decimal numbers have no leading zeroes, and others no more than 128 digits. */
  predicate AreDigitsOf(ds: string, n: nat, base: Base) {
    if base == 10 then ds == ToText(n, 10)
    else |ds| <= MAX_DIGITS_READ && AllDigitChars(ds, base) && FromText(ds, base) == n
  }

  /** An integer: a head and spaced digits that denote a number of 64 bits. */
  predicate IsIntegerText(h: string, body: string, n: int, base: Base) {
    FitsI64(n) && IsHead(h, n, base) && IsSpaced(body, base) && AreDigitsOf(Digits(body), if n < 0 then -n else n, base)
  }

  // ---------------------------------------------------------------- digits

  lemma {:induction false} CharsBack(ds: string)
    requires AllDigitChars(ds, 10)
    ensures AllDigitChars(ds, 16) && IsDigits(DigitValues(ds), 16) && DigitChars(DigitValues(ds)) == ds
  {
    HexDigits(ds, 10);
    HexDigits(ds, 16);
    var vs := DigitValues(ds);
    CharsOfDigits(vs, 16);
    forall i | 0 <= i < |ds| ensures DigitChars(vs)[i] == ds[i] {
      assert ds[i] in ds && vs[i] == DigitValue(ds[i]);
      DigitBack(ds[i]);
    }
  }

  lemma DigitBack(c: char)
    requires IsDigitChar(c, 10)
    ensures DigitValue(c) < 10 && DigitChar(DigitValue(c)) == c
  {
    assert DigitValue(c) as char + '0' == c;
  }

  /** Decimal digits without a leading zero are the printed number. */
  lemma CanonicalDigits(ds: string)
    requires ds != "" && AllDigitChars(ds, 10) && (|ds| > 1 ==> ds[0] != '0')
    ensures ds == ToText(FromText(ds, 10), 10)
  {
    HexDigits(ds, 10);
    CharsBack(ds);
    assert ds[0] in ds;
    if |ds| > 1 { FirstPositive(ds[0]); }
    ToFromDigits(DigitValues(ds), 10);
  }

  lemma FirstPositive(c: char)
    requires IsDigitChar(c, 10) && c != '0'
    ensures DigitValue(c) > 0
  {
    assert c > '0';
  }

  lemma PrintedHasNoZero(n: nat)
    ensures var ds := ToText(n, 10); |ds| > 1 ==> ds[0] != '0'
  {
    NoLeadingZero(n, 10);
    ToDigitsAreDigits(n, 10);
    CharsOfDigits(ToDigits(n, 10), 10);
    assert ToDigits(n, 10)[0] in ToDigits(n, 10);
    if n > 0 { FirstNotZero(ToDigits(n, 10)[0]); }
  }

  lemma FirstNotZero(d: nat)
    requires 0 < d < 10
    ensures DigitChar(d) != '0'
  {
    assert DigitChar(d) as int == '0' as int + d;
  }

  /** What digits denote, with the sign in front of them. */
  lemma DenotesIs(ds: string, base: Base, negative: bool, n: int)
    requires ds != "" && AllDigitChars(ds, base) && (negative ==> base == 10)
    ensures Denotes(ds, base, negative) == Some(n) <==>
            && FitsI64(n) && (if negative then n <= 0 else n >= 0)
            && |ds| <= MAX_DIGITS_READ && AreDigitsOf(ds, if n < 0 then -n else n, base)
  {
    hide FromText, ToText, IsDigitChar;
    var m: nat := if n < 0 then -n else n;
    if base == 10 {
      PrintedHasNoZero(m);
      TextRoundTrip(m, 10);
      if |ds| == 1 || ds[0] != '0' { CanonicalDigits(ds); }
    }
  }

  // ---------------------------------------------------------------- the spacing

  lemma SpacedThere(text: string, start: nat, body: string, base: Base)
    requires At(text, start, body) && body != ""
    ensures start < start + |body| <= |text|
    ensures WellSpaced(text, text, start, start + |body|, base) <==> IsSpaced(body, base)
  {
    hide IsDigitChar;
    var end := start + |body|;
    UnderscoresBetweenDigits(text, start, end, base);
    forall i | 0 <= i < |body| ensures text[start + i] == body[i] { AtCharOf(text, start, body, i); }
    if IsSpaced(body, base) {
      forall j | start <= j < end ensures IsDigitChar(text[j], base) || BetweenDigits(text, start, end, j, base) {
        var i := j - start;
        assert text[start + i] == body[i];
        if !IsDigitChar(body[i], base) {
          assert text[start + (i - 1)] == body[i - 1] && text[start + (i + 1)] == body[i + 1];
        }
      }
    }
    if forall j | start <= j < end :: IsDigitChar(text[j], base) || BetweenDigits(text, start, end, j, base) {
      forall i | 0 <= i < |body|
        ensures || IsDigitChar(body[i], base)
                || (body[i] == '_' && 0 < i < |body| - 1 && IsDigitChar(body[i - 1], base) && IsDigitChar(body[i + 1], base))
      {
        var j := start + i;
        assert IsDigitChar(text[j], base) || BetweenDigits(text, start, end, j, base);
      }
    }
  }

  lemma DigitsOfSpaced(body: string, base: Base)
    requires IsSpaced(body, base)
    ensures AllDigitChars(Digits(body), base) && Digits(body) != ""
    ensures forall c | c in body :: !IsValueTerminator(c)
  {
    hide IsDigitChar, IsValueTerminator;
    assert At(body, 0, body) by { assert body[0..|body|] == body; }
    SpacedThere(body, 0, body, base);
    DigitsAreDigits(body, body, 0, |body|, base);
    assert body[0..|body|] == body;
    forall c | c in body ensures !IsValueTerminator(c) { DigitsNotTerminators(c, base); }
    var n := |body| - 1;
    assert body[n] != '_' && body == body[..n] + [body[n]] by { DigitsNotTerminators(body[n], base); }
    DigitsConcat(body[..n], [body[n]]);
    OneDigitKept(body[n]);
  }

  lemma OneDigitKept(c: char)
    requires c != '_'
    ensures Digits([c]) == [c]
  {
    assert [c][..0] == "";
  }

  /** The head of an integer in a text, and where its digits begin. */
  lemma HeadThere(text: string, pos: nat, h: string, body: string, n: int, base: Base)
    requires IsHead(h, n, base) && IsSpaced(body, base) && At(text, pos, h + body)
    ensures pos < |text| && HasPrefix(text, pos, base) && DigitsFrom(text, pos, base) == pos + |h|
    ensures At(text, pos + |h|, body)
    ensures Negative(text, pos, base) <==> h == "-"
  {
    hide IsDigitChar;
    AtConcat(text, pos, h, body);
    AtCharOf(text, pos, h + body, 0);
    DigitsNotTerminators(body[0], base);
    if h == "" { DigitIsNoSign(body[0]); }
  }

  lemma DigitIsNoSign(c: char)
    requires IsDigitChar(c, 10)
    ensures !IsSign(c)
  {}

  /** Every integer of the grammar is read as its number. */
  lemma IntegerIsRead(text: string, pos: nat, h: string, body: string, n: int, base: Base)
    requires IsIntegerText(h, body, n, base) && At(text, pos, h + body) && EndsAt(text, pos + |h + body|)
    ensures Integer(text, text, pos, base) == Some(Parsed(n, pos + |h + body|))
  {
    hide IsDigitChar, IsHead, IsSpaced, AreDigitsOf, WellSpaced, Digits, Denotes, HasPrefix, DigitsFrom, Negative,
      TokenEnd, IsValueTerminator, At, EndsAt;
    HeadThere(text, pos, h, body, n, base);
    SpacedThere(text, pos + |h|, body, base) by { SpacedNotEmpty(body, base); }
    DigitsOfSpaced(body, base);
    BodyEnds(text, pos + |h|, body);
    HeadSign(h, n, base);
    ShortEnough(Digits(body), n, base);
    DenotesIs(Digits(body), base, h == "-", n);
    IntegerParts(text, pos, base);
  }

  lemma SpacedNotEmpty(body: string, base: Base)
    requires IsSpaced(body, base)
    ensures body != ""
  {}

  lemma BodyEnds(text: string, start: nat, body: string)
    requires At(text, start, body) && body != "" && EndsAt(text, start + |body|)
    requires forall c | c in body :: !IsValueTerminator(c)
    ensures start < |text| && start + |body| <= |text| && TokenEnd(text, start) == start + |body|
    ensures text[start..start + |body|] == body
  {
    hide IsValueTerminator, TokenEnd;
    forall j | start <= j < start + |body| ensures !IsValueTerminator(text[j]) {
      AtCharOf(text, start, body, j - start);
      assert body[j - start] in body;
    }
    TokenEndAt(text, start, start + |body|);
  }

  lemma HeadSign(h: string, n: int, base: Base)
    requires IsHead(h, n, base)
    ensures if h == "-" then n <= 0 && base == 10 else n >= 0
  {}

  lemma ShortEnough(ds: string, n: int, base: Base)
    requires FitsI64(n) && AreDigitsOf(ds, if n < 0 then -n else n, base)
    ensures |ds| <= MAX_DIGITS_READ
  {
    hide ToText, FromText;
    if base == 10 {
      var m: nat := if n < 0 then -n else n;
      NumberText(m, 10);
      ManyDigits(10);
    }
  }

  /** Every integer that is read is one of the grammar. */
  lemma ReadInteger(text: string, pos: nat, base: Base) returns (h: string, body: string)
    requires Integer(text, text, pos, base).Some?
    ensures var r := Integer(text, text, pos, base).value;
            && IsIntegerText(h, body, r.value, base) && At(text, pos, h + body) && r.after == pos + |h + body|
  {
    hide IsDigitChar, IsSpaced, WellSpaced, Digits, Denotes, TokenEnd, IsValueTerminator, At, AreDigitsOf;
    IntegerHasParts(text, pos, base);
    IntegerParts(text, pos, base);
    var start := DigitsFrom(text, pos, base);
    var r := Integer(text, text, pos, base).value;
    h, body := text[pos..start], text[start..r.after];
    SpacedBounds(text, start, r.after, base);
    assert text[pos..r.after] == h + body;
    SliceThere(text, start, r.after);
    SliceThere(text, pos, r.after);
    SpacedThere(text, start, body, base);
    DigitsOfSpaced(body, base);
    DenotesIs(Digits(body), base, Negative(text, pos, base), r.value);
  }

  lemma SpacedBounds(text: string, start: nat, end: nat, base: Base)
    requires end <= |text| && WellSpaced(text, text, start, end, base)
    ensures start < end
  {}

  lemma SliceThere(text: string, i: nat, j: nat)
    requires i <= j <= |text|
    ensures At(text, i, text[i..j])
  {}
}
