/**
  How `parse_value` of `toml.hpp` tells numbers apart: every integer, float, time and date-time of the language goes
  to the parser of its kind, with underscores, signs, exponents and all separators.
*/
module NumberTokens {
  import opened Characters
  import opened DateTimes
  import opened InlineGrammar
  import InlineRoundTrips
  import opened IntegerGrammar
  import opened Integers
  import opened IntegerSpellings
  import opened MomentGrammar
  import opened Numerals
  import opened PrintedNumbers
  import opened Sequences
  import opened StalePointers
  import opened TomlValues
  import opened ValueKinds
  import opened Wrappers

  // ---------------------------------------------------------------- underscores

  /** No character that ends a value. */
  predicate IsToken(s: string) {
    forall c | c in s :: !IsValueTerminator(c)
  }

  lemma TokenConcat(a: string, b: string)
    ensures IsToken(a + b) <==> IsToken(a) && IsToken(b)
  {
    hide IsValueTerminator;
    forall c | c in a || c in b ensures c in a + b {}
  }

  lemma PlainIsToken(s: string)
    requires Plain(s)
    ensures IsToken(s) && Integers.Digits(s) == s
  {
    hide IsValueTerminator;
    NoUnderscores(s);
  }

  lemma {:induction false} NoUnderscores(s: string)
    requires '_' !in s
    ensures Integers.Digits(s) == s
  {
    if s != "" {
      var n := |s| - 1;
      assert s == s[..n] + [s[n]] && s[n] in s;
      NoUnderscores(s[..n]);
    }
  }

  lemma DigitsFirst(c: char, rest: string)
    ensures Integers.Digits([c] + rest) == (if c == '_' then "" else [c]) + Integers.Digits(rest)
  {
    DigitsConcat([c], rest);
    assert [c][..0] == "";
  }

  /** The scan skips underscores and folds all other characters of a value up to its end. */
  lemma {:induction false} ScanStrips(text: string, pos: nat, count: nat, chars: string, t: Traits, more: string)
    requires more != "" && At(text, pos, more) && IsToken(more)
    requires EndsAt(text, pos + |more|) && count + |more| <= MAX_SCAN
    ensures pos < |text|
    ensures ScanFrom(text, pos, count, chars, t)
         == Scanned(Fold(t, chars, Integers.Digits(more)), chars + Integers.Digits(more), pos + |more|)
    decreases |more|
  {
    hide AddTrait, IsValueTerminator, ScanFrom, At, Integers.Digits, EndsAt, Fold, IsToken;
    var c, rest := more[0], more[1..];
    assert more == [c] + rest;
    AtConcat(text, pos, [c], rest);
    AtChar(text, pos, c);
    TokenConcat([c], rest);
    if rest == "" {
      assert more == [c];
      ScanEnds(text, pos, count, chars, t, c);
    } else {
      TokenGoesOn(text, pos + 1, rest);
      if c == '_' {
        ScanStrips(text, pos + 1, count + 1, chars, t, rest);
      } else {
        ScanStrips(text, pos + 1, count + 1, chars + [c], AddTrait(t, chars, c), rest);
        Assoc(chars, [c], Integers.Digits(rest));
        FoldFirst(t, chars, c, Integers.Digits(rest));
      }
      ScanUnfolds(text, pos, count, chars, t);
      DigitsFirst(c, rest);
      assert "" + Integers.Digits(rest) == Integers.Digits(rest);
    }
  }

  lemma TokenGoesOn(text: string, pos: nat, rest: string)
    requires At(text, pos, rest) && rest != "" && IsToken(rest)
    ensures !EndsAt(text, pos)
  {
    hide IsValueTerminator;
    NotAtEnd(text, pos, rest);
  }

  lemma ScanEnds(text: string, pos: nat, count: nat, chars: string, t: Traits, c: char)
    requires pos < |text| && text[pos] == c && EndsAt(text, pos + 1)
    ensures ScanFrom(text, pos, count, chars, t)
         == Scanned(Fold(t, chars, Integers.Digits([c])), chars + Integers.Digits([c]), pos + 1)
  {
    hide AddTrait, IsValueTerminator, ScanFrom, EndsAt, Fold;
    ScanUnfolds(text, pos, count, chars, t);
    assert [c][..0] == "" && chars + "" == chars && "" + [c] == [c];
    assert Integers.Digits([c]) == if c == '_' then "" else [c];
    FoldChar(t, chars, c);
    FoldNothing(t, chars);
  }

  lemma FoldNothing(t: Traits, chars: string)
    ensures Fold(t, chars, "") == t
  {}

  lemma FoldFirst(t: Traits, chars: string, c: char, rest: string)
    ensures Fold(t, chars, [c] + rest) == Fold(AddTrait(t, chars, c), chars + [c], rest)
  {
    hide AddTrait;
    assert ([c] + rest)[1..] == rest;
  }

  /** What the look-ahead sees of a value: its characters without underscores. */
  lemma TokenSeen(text: string, pos: nat, s: string)
    requires s != "" && At(text, pos, s) && IsToken(s) && |s| <= MAX_SCAN && ValueEndsAt(text, pos + |s|)
    requires BeginsNumber(s[0])
    ensures pos < |text| && text[pos] == s[0]
    ensures ScanValue(text, pos) == Scanned(Fold(Begins(s[0]), "", Integers.Digits(s)), Integers.Digits(s), pos + |s|)
  {
    hide Fold, ScanFrom, ScanValue, IsValueTerminator, BeginsNumber, Begins, EndsAt, At, Integers.Digits;
    AtCharOf(text, pos, s, 0);
    ScanStrips(text, pos, 0, "", Begins(s[0]), s);
    assert "" + Integers.Digits(s) == Integers.Digits(s);
    ScanWithoutTime(text, pos, Scanned(Fold(Begins(s[0]), "", Integers.Digits(s)), Integers.Digits(s), pos + |s|));
  }

  // ---------------------------------------------------------------- integers

  lemma HeadIsPlain(h: string, n: int, base: Base)
    requires IsHead(h, n, base)
    ensures Plain(h) && |h| <= 2
  {
    MinusIsPlain();
  }

  /** The text of an integer as the look-ahead sees it. */
  lemma IntegerSeen(h: string, body: string, n: int, base: Base)
    requires IsHead(h, n, base) && IsSpaced(body, base)
    ensures var ds := Integers.Digits(body);
            && Integers.Digits(h + body) == h + ds && ds != "" && AllDigitChars(ds, base) && IsToken(h + body)
            && h + body != "" && BeginsNumber((h + body)[0]) && (h + body)[0] == (h + ds)[0]
            && (|ds| == 1 ==> |body| == 1)
  {
    hide IsValueTerminator, IsDigitChar, Integers.Digits;
    DigitsOfSpaced(body, base);
    HeadIsPlain(h, n, base);
    PlainIsToken(h);
    DigitsConcat(h, body);
    TokenConcat(h, body);
    SpacedFirst(body, base);
    if h == "" { DigitBegins(body[0]); }
  }

  lemma DigitBegins(c: char)
    requires IsDigitChar(c, 10)
    ensures IsDecimalDigit(c)
  {}

  lemma SpacedEnds(body: string, base: Base)
    requires IsSpaced(body, base)
    ensures body != "" && IsDigitChar(body[0], base) && IsDigitChar(body[|body| - 1], base)
    ensures body[0] != '_' && body[|body| - 1] != '_'
  {
    hide IsDigitChar;
    DigitsNotTerminators(body[0], base);
    DigitsNotTerminators(body[|body| - 1], base);
  }

  lemma SpacedFirst(body: string, base: Base)
    requires IsSpaced(body, base)
    ensures var ds := Integers.Digits(body);
            && IsDigitChar(body[0], base) && ds != "" && ds[0] == body[0] && (|ds| == 1 ==> |body| == 1)
  {
    hide IsDigitChar, Integers.Digits, IsSpaced;
    SpacedEnds(body, base);
    var n := |body| - 1;
    assert body == [body[0]] + body[1..];
    DigitsFirst(body[0], body[1..]);
    if n > 0 {
      assert body[1..] == body[1..n] + [body[n]];
      DigitsConcat(body[1..n], [body[n]]);
      OneDigitKept(body[n]);
    }
  }

  lemma IntegerKindIs(h: string, ds: string, n: int, base: Base, after: nat)
    requires IsHead(h, n, base) && ds != "" && AllDigitChars(ds, base)
    ensures var s := h + ds;
            KindOf(Scanned(Fold(Begins(s[0]), "", s), s, after)) ==
            if base != 10 then IntegerKind(base)
            else if |ds| == 1 then (if h == "" then ValueKinds.OneDigit else SignedDigit)
            else IntegerKind(10)
  {
    hide Fold, KindOf, Begins;
    var s := h + ds;
    var t := Fold(Begins(s[0]), "", s);
    assert forall i | 0 <= i < |ds| :: ds[i] in ds;
    if base != 10 {
      FoldPrefix(base, ds);
      KindOfPrefixed(Scanned(t, s, after), base);
    } else if h == "" {
      assert s == ds;
      FoldDigits(Begins(ds[0]), "", ds);
      DigitTraits(ds[0]);
      if |ds| == 1 { KindOfDigit(Scanned(t, s, after)); } else { KindOfDigits(Scanned(t, s, after)); }
    } else {
      SignedTraits(h, ds);
      KindOfSigned(Scanned(t, s, after), h == "-");
    }
  }

  lemma DigitTraits(c: char)
    requires IsDecimalDigit(c)
    ensures (Begins(c) + {Digits}) - {BeginsZero} == {BeginsDigit, Digits}
  {}

  lemma SignedTraits(h: string, ds: string)
    requires (h == "-" || h == "+") && ds != "" && AllDigitChars(ds, 10)
    ensures Fold(Begins(h[0]), "", h + ds) == {BeginsSign, Digits, if h == "-" then Minus else Plus}
  {
    hide Fold;
    var sign := if h == "-" then Minus else Plus;
    FoldConcat(Begins(h[0]), "", h, ds);
    FoldChar(Begins(h[0]), "", h[0]);
    assert h == [h[0]] && AddTrait(Begins(h[0]), "", h[0]) == {BeginsSign, sign};
    FoldDigits({BeginsSign, sign}, "" + h, ds);
  }

  lemma KindOfSigned(s: Scanned, minus: bool)
    requires |s.chars| > 1 && s.traits == {BeginsSign, Digits, if minus then Minus else Plus} && IsDecimalDigit(s.chars[1])
    requires |s.chars| > 2 ==> s.chars[2] != '.'
    ensures KindOf(s) == if |s.chars| == 2 then ValueKinds.SignedDigit else IntegerKind(10)
  {}

  lemma FirstStands(text: string, pos: nat, s: string)
    requires At(text, pos, s) && s != ""
    ensures pos < |text| && text[pos] == s[0]
  {
    AtCharOf(text, pos, s, 0);
  }

  lemma OneDigitNumber(h: string, body: string, n: int)
    requires IsIntegerText(h, body, n, 10) && |body| == 1
    ensures body[0] == Integers.Digits(body)[0]
    ensures if h == "" then DigitOf(body[0]) == n
            else |h| == 1 && (if h == "-" then -DigitOf(body[0]) else DigitOf(body[0])) == n
  {
    hide IsDigitChar, Integers.Digits, ToText, FitsI64, IsSpaced, DigitOf;
    var m: nat := if n < 0 then -n else n;
    SpacedFirst(body, 10);
    SpacedEnds(body, 10);
    OneDigitIs(body, m);
  }

  lemma OneDigitIs(body: string, m: nat)
    requires |body| == 1 && body[0] != '_' && Integers.Digits(body) == ToText(m, 10)
    ensures AllDigitChars(ToText(m, 10), 10) && DigitOf(body[0]) == m
  {
    hide ToText;
    TextRoundTrip(m, 10);
    assert body == [body[0]];
    OneDigitKept(body[0]);
    OneDigitOf(body, m);
  }

  /** Every integer of the language is recognised, within the look-ahead, and read as its number. */
  lemma IntegerTokenReads(src: Source, pos: nat, h: string, body: string, n: int, base: Base)
    requires IsIntegerText(h, body, n, base) && At(src.text, pos, h + body) && ValueEndsAt(src.text, pos + |h + body|)
    requires |h + body| < MAX_SCAN
    ensures pos < |src.text| && BeginsNumber(src.text[pos])
    ensures NumberAt(src, pos) == Some(Parsed(Integer(n, FormatOf(base)), pos + |h + body|))
  {
    hide IsDigitChar, IsValueTerminator, Integers.Digits, ToText, FromText, At, Fold, KindOf, Begins, ScanValue,
      Integers.Integer, IsHead, IsSpaced, AreDigitsOf, FitsI64, Shown, EndsAt, IsToken, AllDigitChars, BeginsNumber, DigitOf;
    var text, s := src.text, h + body;
    var ds := Integers.Digits(body);
    IntegerSeen(h, body, n, base);
    FirstStands(text, pos, s);
    TokenSeen(text, pos, s);
    var scanned := ScanValue(text, pos);
    IntegerKindIs(h, ds, n, base, pos + |s|);
    EndOfToken(text, pos + |s|);
    IntegerIsRead(text, pos, h, body, n, base);
    NotMisread(text, pos, h, body, n, base);
    if base == 10 && |ds| == 1 {
      OneDigitNumber(h, body, n);
      OneDigitFirst(h, body, ds);
    }
  }

  lemma EndOfToken(text: string, pos: nat)
    requires ValueEndsAt(text, pos)
    ensures EndsAt(text, pos)
  {}

  lemma OneDigitFirst(h: string, body: string, ds: string)
    requires |body| == 1 && |ds| == 1 && body[0] == ds[0] && (h == "" || |h| == 1)
    ensures h == "" ==> (h + ds)[0] == body[0]
    ensures h != "" ==> |h + ds| == 2 && (h + ds)[1] == body[0] && (h + ds)[0] == h[0] && ((h + ds)[0] == '-' <==> h == "-")
  {}

  lemma NotMisread(text: string, pos: nat, h: string, body: string, n: int, base: Base)
    requires IsIntegerText(h, body, n, base) && At(text, pos, h + body) && EndsAt(text, pos + |h + body|)
    requires |h + body| < MAX_SCAN
    ensures Integers.Integer(text, Shown(text, pos), pos, base) == Integers.Integer(text, text, pos, base)
  {
    hide IsDigitChar, IsValueTerminator, Integers.Digits, ToText, FromText, At, Integers.Integer, IsHead, IsSpaced,
      AreDigitsOf, FitsI64, Shown, EndsAt, HasPrefix, DigitsFrom, TokenEnd;
    HeadThere(text, pos, h, body, n, base);
    DigitsOfSpaced(body, base);
    SpacedNotEmpty(body, base);
    BodyEnds(text, pos + |h|, body);
    ShortIsNotMisread(text, pos, base);
  }

  // ---------------------------------------------------------------- floats

  /** A float: a sign, digits, and a fraction or an exponent or both; every group of digits may have underscores. */
  datatype FloatText = FloatText(sign: string, digits: string, fraction: Option<string>, exponent: Option<Exponent>)

  datatype Exponent = Exponent(letter: char, sign: string, digits: string)

  predicate IsSignText(s: string) {
    s == "" || s == "+" || s == "-"
  }

  predicate IsFloatText(f: FloatText) {
    && IsSignText(f.sign) && IsSpaced(f.digits, 10)
    && (f.fraction.Some? ==> IsSpaced(f.fraction.value, 10))
    && (f.exponent.Some? ==>
          (f.exponent.value.letter == 'e' || f.exponent.value.letter == 'E')
          && IsSignText(f.exponent.value.sign) && IsSpaced(f.exponent.value.digits, 10))
    && (f.fraction.Some? || f.exponent.Some?)
  }

  function FractionPart(f: Option<string>): string {
    if f.None? then "" else "." + f.value
  }

  function ExponentPart(e: Option<Exponent>): string {
    if e.None? then "" else [e.value.letter] + (e.value.sign + e.value.digits)
  }

  function FloatWritten(f: FloatText): string {
    f.sign + (f.digits + (FractionPart(f.fraction) + ExponentPart(f.exponent)))
  }

  /** The same without underscores. */
  function Bare(f: FloatText): FloatText {
    FloatText(f.sign, Integers.Digits(f.digits),
              if f.fraction.None? then None else Some(Integers.Digits(f.fraction.value)),
              if f.exponent.None? then None else Some(f.exponent.value.(digits := Integers.Digits(f.exponent.value.digits))))
  }

  lemma SignPlain(s: string)
    requires IsSignText(s)
    ensures IsToken(s) && Integers.Digits(s) == s
  {
    MinusIsPlain();
    PlainIsToken(s);
  }

  lemma LetterPlain(c: char)
    requires c == 'e' || c == 'E' || c == '.'
    ensures IsToken([c]) && Integers.Digits([c]) == [c]
  {
    OneDigitKept(c);
  }

  lemma BareFraction(f: Option<string>)
    requires f.Some? ==> IsSpaced(f.value, 10)
    ensures IsToken(FractionPart(f))
    ensures Integers.Digits(FractionPart(f)) == if f.None? then "" else "." + Integers.Digits(f.value)
  {
    hide Integers.Digits, IsSpaced, IsValueTerminator;
    if f.None? {
      SignPlain("");
    } else {
      LetterPlain('.');
      DigitsOfSpaced(f.value, 10);
      TokenConcat(".", f.value);
      DigitsConcat(".", f.value);
    }
  }

  lemma BareExponent(e: Option<Exponent>)
    requires e.Some? ==>
               (e.value.letter == 'e' || e.value.letter == 'E') && IsSignText(e.value.sign) && IsSpaced(e.value.digits, 10)
    ensures IsToken(ExponentPart(e))
    ensures Integers.Digits(ExponentPart(e))
         == if e.None? then "" else [e.value.letter] + (e.value.sign + Integers.Digits(e.value.digits))
  {
    hide Integers.Digits, IsSpaced, IsValueTerminator;
    if e.None? {
      SignPlain("");
    } else {
      var rest := e.value.sign + e.value.digits;
      LetterPlain(e.value.letter);
      SignPlain(e.value.sign);
      DigitsOfSpaced(e.value.digits, 10);
      TokenConcat(e.value.sign, e.value.digits);
      DigitsConcat(e.value.sign, e.value.digits);
      TokenConcat([e.value.letter], rest);
      DigitsConcat([e.value.letter], rest);
    }
  }

  lemma BareFloat(f: FloatText)
    requires IsFloatText(f)
    ensures IsToken(FloatWritten(f)) && Integers.Digits(FloatWritten(f)) == FloatWritten(Bare(f))
    ensures FloatWritten(f) != "" && BeginsNumber(FloatWritten(f)[0]) && FloatWritten(f)[0] == FloatWritten(Bare(f))[0]
  {
    hide Integers.Digits, IsSpaced, IsValueTerminator, FractionPart, ExponentPart, IsToken;
    var a, b := FractionPart(f.fraction), ExponentPart(f.exponent);
    SignPlain(f.sign);
    DigitsOfSpaced(f.digits, 10);
    SpacedIsToken(f.digits);
    SpacedFirst(f.digits, 10);
    DigitBegins(f.digits[0]);
    BareFraction(f.fraction);
    BareExponent(f.exponent);
    BareParts(f);
    TokenConcat(a, b);
    DigitsConcat(a, b);
    TokenConcat(f.digits, a + b);
    DigitsConcat(f.digits, a + b);
    TokenConcat(f.sign, f.digits + (a + b));
    DigitsConcat(f.sign, f.digits + (a + b));
  }

  lemma SpacedIsToken(s: string)
    requires IsSpaced(s, 10)
    ensures IsToken(s)
  {
    hide IsSpaced, IsValueTerminator;
    DigitsOfSpaced(s, 10);
  }

  lemma BareParts(f: FloatText)
    ensures FractionPart(Bare(f).fraction) == if f.fraction.None? then "" else "." + Integers.Digits(f.fraction.value)
    ensures ExponentPart(Bare(f).exponent)
         == if f.exponent.None? then ""
            else [f.exponent.value.letter] + (f.exponent.value.sign + Integers.Digits(f.exponent.value.digits))
  {}

  function SignTraits(s: string): Traits {
    if s == "+" then {Plus} else if s == "-" then {Minus} else {}
  }

  /** The traits behind the digits before the dot or the exponent. */
  lemma FoldWhole(sign: string, ds: string, rest: string)
    requires IsSignText(sign) && ds != "" && AllDigitChars(ds, 10)
    ensures var s := sign + (ds + rest);
            var t := (if sign == "" then Begins(ds[0]) else {BeginsSign}) + SignTraits(sign) + {Digits};
            s != "" && Fold(Begins(s[0]), "", s) == Fold(t, sign + ds, rest)
  {
    hide Fold;
    assert ds[0] in ds;
    var s := sign + (ds + rest);
    if sign == "" {
      assert s == ds + rest && "" + ds == sign + ds;
      FoldGroup(Begins(ds[0]), "", ds, rest);
      assert Begins(ds[0]) + SignTraits(sign) + {Digits} == Begins(ds[0]) + {Digits};
    } else {
      assert sign == [sign[0]] && s == [sign[0]] + (ds + rest);
      FoldSeparator({BeginsSign}, "", sign[0], ds + rest);
      assert {SeparatorTrait(sign[0])} == SignTraits(sign) && "" + [sign[0]] == sign;
      FoldGroup({BeginsSign} + SignTraits(sign), sign, ds, rest);
    }
  }

  lemma FoldFraction(t: Traits, chars: string, f: Option<string>, rest: string)
    requires Digits in t && (f.Some? ==> f.value != "" && AllDigitChars(f.value, 10))
    ensures Fold(t, chars, FractionPart(f) + rest)
         == Fold(if f.None? then t else t + {Dot}, chars + FractionPart(f), rest)
  {
    hide Fold, AllDigitChars;
    if f.None? {
      assert "" + rest == rest && chars + "" == chars;
    } else {
      assert "." + f.value + rest == ['.'] + (f.value + rest);
      FoldSeparator(t, chars, '.', f.value + rest);
      FoldGroup(t + {Dot}, chars + ['.'], f.value, rest);
      assert t + {Dot} + {Digits} == t + {Dot} && chars + ['.'] + f.value == chars + FractionPart(f);
    }
  }

  /** Traits that rule out an exponent are not there. */
  predicate MayHaveExponent(t: Traits) {
    && t <= {BeginsSign, BeginsDigit, BeginsZero, Digits, Dot, Plus, Minus}
    && (Plus in t || Minus in t ==> BeginsSign in t)
  }

  lemma FoldExponent(t: Traits, chars: string, e: Exponent)
    requires Digits in t && MayHaveExponent(t) && chars != ""
    requires (e.letter == 'e' || e.letter == 'E') && IsSignText(e.sign) && e.digits != "" && AllDigitChars(e.digits, 10)
    ensures Fold(t, chars, ExponentPart(Some(e))) == t + {LetterE} + SignTraits(e.sign)
  {
    hide Fold, AllDigitChars;
    FoldFirst(t, chars, e.letter, e.sign + e.digits);
    ExponentTrait(t, chars, e.letter);
    var t1, chars1 := t + {LetterE}, chars + [e.letter];
    if e.sign == "" {
      assert e.sign + e.digits == e.digits;
      FoldDigits(t1, chars1, e.digits);
      assert t1 + {Digits} == t1 + SignTraits(e.sign);
    } else {
      assert e.sign == [e.sign[0]];
      FoldSeparator(t1, chars1, e.sign[0], e.digits);
      FoldDigits(t1 + SignTraits(e.sign), chars1 + e.sign, e.digits);
      assert t1 + SignTraits(e.sign) + {Digits} == t1 + SignTraits(e.sign);
    }
  }

  lemma ExponentTrait(t: Traits, chars: string, c: char)
    requires MayHaveExponent(t) && chars != "" && (c == 'e' || c == 'E')
    ensures AddTrait(t, chars, c) == t + {LetterE}
  {
    assert t * {LetterB, LetterO, LetterP, LetterT, LetterX, LetterZ, Colon} == {};
    assert BeginsSign in t || t * {Plus, Minus} == {};
    assert Lower(c) == 'e';
  }

  /** The traits of a float without underscores. */
  lemma FloatTraits(f: FloatText)
    requires IsSignText(f.sign) && f.digits != "" && AllDigitChars(f.digits, 10)
    requires f.fraction.Some? ==> f.fraction.value != "" && AllDigitChars(f.fraction.value, 10)
    requires f.exponent.Some? ==>
               (f.exponent.value.letter == 'e' || f.exponent.value.letter == 'E') && IsSignText(f.exponent.value.sign)
               && f.exponent.value.digits != "" && AllDigitChars(f.exponent.value.digits, 10)
    ensures var s := FloatWritten(f);
            var t := (if f.sign == "" then Begins(f.digits[0]) else {BeginsSign}) + SignTraits(f.sign) + {Digits}
                     + (if f.fraction.None? then {} else {Dot});
            && s != ""
            && Fold(Begins(s[0]), "", s) ==
               if f.exponent.None? then t else t + {LetterE} + SignTraits(f.exponent.value.sign)
  {
    hide Fold, AllDigitChars, FractionPart, ExponentPart;
    var t := (if f.sign == "" then Begins(f.digits[0]) else {BeginsSign}) + SignTraits(f.sign) + {Digits};
    var chars := f.sign + f.digits;
    FoldWhole(f.sign, f.digits, FractionPart(f.fraction) + ExponentPart(f.exponent));
    FoldFraction(t, chars, f.fraction, ExponentPart(f.exponent));
    var t1, chars1 := if f.fraction.None? then t else t + {Dot}, chars + FractionPart(f.fraction);
    assert t1 == t + (if f.fraction.None? then {} else {Dot});
    if f.exponent.None? {
      assert ExponentPart(f.exponent) == "" by { NoExponent(f.exponent); }
      FoldNothing(t1, chars1);
    } else {
      FirstIsDigit(f.digits);
      FoldExponent(t1, chars1, f.exponent.value);
    }
  }

  lemma NoExponent(e: Option<Exponent>)
    requires e.None?
    ensures ExponentPart(e) == ""
  {}

  lemma FirstIsDigit(ds: string)
    requires ds != "" && AllDigitChars(ds, 10)
    ensures IsDecimalDigit(ds[0])
  {
    assert ds[0] in ds;
  }

  lemma KindOfExponent(s: Scanned)
    requires |s.chars| > 1 && LetterE in s.traits
    requires s.traits <= {BeginsSign, BeginsDigit, BeginsZero, Digits, Dot, Plus, Minus, LetterE}
    ensures KindOf(s) == FloatKind
  {}

  lemma KindOfFraction(s: Scanned, sign: string)
    requires IsSignText(sign) && |s.chars| > |sign| + 1
    requires sign == "" ==> s.traits - {BeginsZero} == {BeginsDigit, Digits, Dot}
    requires sign != "" ==> s.traits == {BeginsSign, Digits, Dot} + SignTraits(sign) && IsDecimalDigit(s.chars[1])
    ensures KindOf(s) == FloatKind
  {
    if sign == "" {
      forall x | x in s.traits ensures x in {BeginsZero, BeginsDigit, Digits, Dot} {
        assert x == BeginsZero || x in s.traits - {BeginsZero};
      }
      assert BeginsDigit in s.traits - {BeginsZero};
    } else {
      assert s.traits == {BeginsSign, Digits, Dot, if sign == "+" then Plus else Minus};
    }
  }

  lemma FloatKindIs(f: FloatText, after: nat)
    requires IsFloatText(f)
    ensures var s := FloatWritten(Bare(f));
            s != "" && KindOf(Scanned(Fold(Begins(s[0]), "", s), s, after)) == FloatKind
  {
    hide Fold, KindOf, Integers.Digits, IsSpaced, AllDigitChars, FractionPart, ExponentPart;
    var b := Bare(f);
    var s := FloatWritten(b);
    BareDigits(f);
    FloatTraits(b);
    FirstIsDigit(b.digits);
    FloatLength(b);
    var t := Fold(Begins(s[0]), "", s);
    if b.exponent.Some? {
      assert t <= {BeginsSign, BeginsDigit, BeginsZero, Digits, Dot, Plus, Minus, LetterE};
      assert LetterE in t;
      KindOfExponent(Scanned(t, s, after));
    } else {
      SecondChar(b);
      if b.sign == "" { assert t - {BeginsZero} == {BeginsDigit, Digits, Dot}; }
      KindOfFraction(Scanned(t, s, after), b.sign);
    }
  }

  lemma BareDigits(f: FloatText)
    requires IsFloatText(f)
    ensures var b := Bare(f);
            && IsSignText(b.sign) && b.digits != "" && AllDigitChars(b.digits, 10)
            && (b.fraction.Some? ==> b.fraction.value != "" && AllDigitChars(b.fraction.value, 10))
            && (b.exponent.Some? ==>
                  (b.exponent.value.letter == 'e' || b.exponent.value.letter == 'E') && IsSignText(b.exponent.value.sign)
                  && b.exponent.value.digits != "" && AllDigitChars(b.exponent.value.digits, 10))
            && (b.fraction.Some? || b.exponent.Some?)
  {
    hide Integers.Digits, IsSpaced, AllDigitChars;
    DigitsOfSpaced(f.digits, 10);
    if f.fraction.Some? { DigitsOfSpaced(f.fraction.value, 10); }
    if f.exponent.Some? { DigitsOfSpaced(f.exponent.value.digits, 10); }
  }

  lemma FloatLength(f: FloatText)
    requires f.digits != "" && (f.fraction.Some? || f.exponent.Some?)
    ensures |FloatWritten(f)| > |f.sign| + 1
  {}

  lemma SecondChar(f: FloatText)
    requires f.digits != "" && IsSignText(f.sign) && IsDecimalDigit(f.digits[0])
    ensures f.sign != "" ==> |FloatWritten(f)| > 1 && IsDecimalDigit(FloatWritten(f)[1])
  {
    hide FractionPart, ExponentPart;
  }

  /** Every float of the language goes to the parser of floats. */
  lemma FloatTokenReads(src: Source, pos: nat, f: FloatText)
    requires IsFloatText(f) && At(src.text, pos, FloatWritten(f)) && ValueEndsAt(src.text, pos + |FloatWritten(f)|)
    requires |FloatWritten(f)| <= MAX_SCAN
    ensures pos < |src.text| && BeginsNumber(src.text[pos]) && NumberAt(src, pos) == FloatAt(src, pos)
  {
    hide IsValueTerminator, Integers.Digits, At, Fold, KindOf, Begins, ScanValue, IsSpaced, EndsAt, IsToken, BeginsNumber,
      FloatWritten, IsFloatText, FloatAt, Bare;
    var s := FloatWritten(f);
    BareFloat(f);
    FirstStands(src.text, pos, s);
    TokenSeen(src.text, pos, s);
    FloatKindIs(f, pos + |s|);
  }

  predicate IsSpecialWord(s: string) {
    s == "inf" || s == "nan"
  }

  lemma WordIsPlain(word: string)
    requires IsSpecialWord(word)
    ensures Plain(word) && |word| == 3 && (word[0] == 'i' || word[0] == 'n')
  {}

  lemma SignedSpecial(sign: char, word: string, after: nat)
    requires IsSign(sign) && IsSpecialWord(word)
    ensures var s := [sign] + word;
            && IsToken(s) && Integers.Digits(s) == s && BeginsNumber(s[0])
            && KindOf(Scanned(Fold(Begins(s[0]), "", s), s, after)) == FloatKind
  {
    hide IsToken, IsSpecialWord, Integers.Digits, Fold, KindOf, Plain;
    var s := [sign] + word;
    WordIsPlain(word);
    SeparatorIsPlain(sign);
    PlainConcat([sign], word);
    PlainIsToken(s);
    var t := {BeginsSign, SeparatorTrait(sign)};
    assert Begins(sign) == {BeginsSign};
    FoldSeparator({BeginsSign}, "", sign, word);
    assert {BeginsSign} + {SeparatorTrait(sign)} == t;
    NoTraits(t, "" + [sign], word);
    KindOfWord(Scanned(t, s, after));
  }

  lemma KindOfWord(s: Scanned)
    requires |s.chars| == 4 && (s.traits == {BeginsSign, Plus} || s.traits == {BeginsSign, Minus})
    requires s.chars[1] == 'i' || s.chars[1] == 'n'
    ensures KindOf(s) == FloatKind
  {}

  /** The letters of the words have no traits. */
  lemma NoTraits(t: Traits, chars: string, s: string)
    requires IsSpecialWord(s)
    ensures Fold(t, chars, s) == t
  {
    hide Fold;
    var c1, c2 := chars + [s[0]], chars + [s[0]] + [s[1]];
    FoldFirst(t, chars, s[0], s[1..]);
    FoldFirst(t, c1, s[1], s[2..]);
    FoldFirst(t, c2, s[2], s[3..]);
    assert s == [s[0]] + s[1..] && s[1..] == [s[1]] + s[2..] && s[2..] == [s[2]] + s[3..] && s[3..] == "";
    FoldNothing(t, c2 + [s[2]]);
  }

  /** Infinities and not-a-numbers, with a sign or without, go to their parser. */
  lemma SpecialFloatReads(src: Source, pos: nat, sign: string, word: string, nested: nat)
    requires IsSignText(sign) && IsSpecialWord(word)
    requires At(src.text, pos, sign + word) && ValueEndsAt(src.text, pos + |sign + word|)
    ensures pos < |src.text|
    ensures ValueAt(src, pos, nested) == if nested + 1 > MAX_NESTED_VALUES then None else FloatAt(src, pos)
  {
    hide At, Fold, KindOf, ScanValue, EndsAt, IsToken, FloatAt, ValueAt, Begins, NumberAt, IsSpecialWord, Plain;
    var s := sign + word;
    WordIsPlain(word);
    FirstStands(src.text, pos, s);
    if sign != "" {
      assert sign == [sign[0]];
      SignedSpecial(sign[0], word, pos + |s|);
      TokenSeen(src.text, pos, s);
      InlineRoundTrips.DispatchesNumber(src, pos, nested);
      GoesToFloats(src, pos);
    } else {
      DispatchesWord(src, pos, nested);
    }
  }

  lemma GoesToFloats(src: Source, pos: nat)
    requires pos < |src.text| && BeginsNumber(src.text[pos]) && KindOf(ScanValue(src.text, pos)) == FloatKind
    ensures NumberAt(src, pos) == FloatAt(src, pos)
  {
    hide KindOf, ScanValue, FloatAt, BeginsNumber;
  }

  lemma DispatchesWord(src: Source, pos: nat, nested: nat)
    requires pos < |src.text| && (src.text[pos] == 'i' || src.text[pos] == 'n')
    ensures ValueAt(src, pos, nested) == if nested + 1 > MAX_NESTED_VALUES then None else FloatAt(src, pos)
  {
    hide NumberAt, FloatAt;
  }

  // ---------------------------------------------------------------- times

  lemma FractionTraits(t: Traits, chars: string, f: string, ns: nat)
    requires Digits in t && IsFraction(f, ns)
    ensures Fold(t, chars, f) == (if f == "" then t else t + {Dot}) && Plain(f) && |f| <= 65
  {
    hide Fold, AllDigitChars, Plain, Fraction;
    MinusIsPlain();
    if f == "" {
      FoldNothing(t, chars);
    } else {
      assert f == ['.'] + f[1..];
      FoldSeparator(t, chars, '.', f[1..]);
      FoldDigits(t + {Dot}, chars + ['.'], f[1..]);
      assert t + {Dot} + {Digits} == t + {Dot};
      PrintedNumbers.PlainDigits(f[1..], 10);
      PlainConcat(".", f[1..]);
    }
  }

  lemma ClockTraits(t: Traits, chars: string, time: Time, f: string)
    requires IsTime(time) && IsFraction(f, time.nanosecond)
    ensures var s := ClockText(time) + f;
            && Fold(t, chars, s) - {Dot} == (t + {Digits, Colon}) - {Dot}
            && Plain(s) && 8 <= |s| <= 73 && IsDecimalDigit(s[0]) && IsDecimalDigit(s[1])
  {
    hide ClockText, Fold, Plain, IsFraction, IsTime;
    ClockFold(t, chars, time);
    FoldConcat(t, chars, ClockText(time), f);
    FractionTraits(t + {Digits, Colon}, chars + ClockText(time), f, time.nanosecond);
    PlainConcat(ClockText(time), f);
  }

  /** Every time of the language is recognised and read. */
  lemma TimeTokenReads(src: Source, pos: nat, time: Time, f: string)
    requires IsTime(time) && IsFraction(f, time.nanosecond)
    requires At(src.text, pos, ClockText(time) + f) && ValueEndsAt(src.text, pos + |ClockText(time) + f|)
    ensures pos < |src.text| && BeginsNumber(src.text[pos])
    ensures NumberAt(src, pos) == Some(Parsed(LocalTime(time), pos + |ClockText(time) + f|))
  {
    hide ClockText, At, ScanValue, IsTime, TimeAt, Plain, Fold, EndsAt, IsFraction;
    var s := ClockText(time) + f;
    ClockTraits({}, "", time, f);
    ClockTraits(Begins(s[0]), "", time, f);
    TokenScanned(src.text, pos, s);
    EndOfToken(src.text, pos + |s|);
    TimeIsRead(src.text, pos, time, f, false);
    KindOfTime(ScanValue(src.text, pos));
  }

  // ---------------------------------------------------------------- date-times

  lemma ZoneTraits(t: Traits, chars: string, z: string, o: Offset)
    requires IsZone(z, o) && {Digits, Minus, Colon} <= t
    ensures Fold(t, chars, z) == t || Fold(t, chars, z) == t + {Plus} || Fold(t, chars, z) == t + {LetterZ}
    ensures Plain(z) && |z| <= 6
  {
    hide HoursText, Plain, Fold;
    MinusIsPlain();
    if z == "" {
      FoldNothing(t, chars);
    } else if z == "Z" || z == "z" {
      SmallZ(t, chars, z);
    } else {
      var mins: nat := if o.minutes < 0 then -o.minutes else o.minutes;
      SignedTraitsOf(t, chars, z, mins);
    }
  }

  lemma SmallZ(t: Traits, chars: string, z: string)
    requires z == "Z" || z == "z"
    ensures Fold(t, chars, z) == t + {LetterZ} && Plain(z)
  {
    FoldChar(t, chars, z[0]);
    assert z == [z[0]] && Lower(z[0]) == 'z';
  }

  lemma SignedTraitsOf(t: Traits, chars: string, z: string, mins: nat)
    requires mins <= 1439 && (z == "+" + HoursText(mins) || z == "-" + HoursText(mins)) && {Digits, Minus, Colon} <= t
    ensures Fold(t, chars, z) == t || Fold(t, chars, z) == t + {Plus}
    ensures Plain(z) && |z| <= 6
  {
    hide Padded, Plain, Fold, Pow, AllDigitChars;
    Powers10();
    var h, m := Padded(mins / 60, 2, 10), Padded(mins % 60, 2, 10);
    PaddedText(mins / 60, 2, 10);
    PaddedText(mins % 60, 2, 10);
    var sign := z[0];
    assert z == [sign] + h + ":" + m;
    SignedFold(t, chars, sign, h, m);
  }

  lemma SeparatorFold(t: Traits, chars: string, sep: char, rest: string)
    requires sep == 'T' || sep == 't'
    ensures Fold(t, chars, [sep] + rest) == Fold(t + {LetterT}, chars + [sep], rest) && Plain([sep])
  {
    hide Fold;
    FoldFirst(t, chars, sep, rest);
    assert Lower(sep) == 't';
  }

  /** The kind of what the look-ahead has seen of a date-time. */
  lemma MomentKindIs(m: DateTime, sep: char, f: string, z: string, after: nat)
    requires IsMoment(m) && IsDateTimeSeparator(sep) && IsFraction(f, m.time.nanosecond) && IsZone(z, m.offset)
    ensures var d, rest := DateText(m.date), (ClockText(m.time) + f) + z;
            var s := d + [sep] + rest;
            && |d| == 10 && IsDecimalDigit(d[0]) && IsDecimalDigit(d[1]) && Plain(d) && Plain(rest) && 8 <= |rest| <= 79
            && IsDecimalDigit(rest[0]) && IsDecimalDigit(rest[1])
            && Fold(Begins(d[0]), "", d) == Begins(d[0]) + {Digits, Minus}
            && KindOf(Scanned(Fold(Begins(d[0]) + {Digits, Minus} + {LetterT}, d + [sep], rest), s, after)) == MomentKind
  {
    hide DateText, ClockText, Fold, Plain, IsDate, IsTime, IsFraction, IsZone, KindOf;
    var d, c := DateText(m.date), ClockText(m.time) + f;
    DateFold({}, "", m.date);
    var b := Begins(d[0]);
    DateFold(b, "", m.date);
    var b2, chars2 := b + {Digits, Minus} + {LetterT}, d + [sep];
    ClockTraits(b2, chars2, m.time, f);
    var b3 := Fold(b2, chars2, c);
    FoldConcat(b2, chars2, c, z);
    TimeTraits(b2, b3);
    ZoneTraits(b3, chars2 + c, z, m.offset);
    PlainConcat(c, z);
    MomentTraits(b, b3);
    var s := d + [sep] + (c + z);
    assert s[0] == d[0] && s[1] == d[1];
    KindOfMoment(Scanned(Fold(b2, chars2, c + z), s, after));
  }

  lemma NotASpace(sep: char)
    requires sep == 'T' || sep == 't'
    ensures Plain([sep])
  {}

  /** Every date-time of the language is recognised and read: with `T`, `t` or a space, and with `Z`, `z` or an offset. */
  lemma MomentTokenReads(src: Source, pos: nat, m: DateTime, sep: char, f: string, z: string)
    requires IsMoment(m) && IsDateTimeSeparator(sep) && IsFraction(f, m.time.nanosecond) && IsZone(z, m.offset)
    requires At(src.text, pos, MomentWritten(m, sep, f, z))
    requires ValueEndsAt(src.text, pos + |MomentWritten(m, sep, f, z)|)
    ensures pos < |src.text| && BeginsNumber(src.text[pos])
    ensures NumberAt(src, pos) == Some(Parsed(Moment(m), pos + |MomentWritten(m, sep, f, z)|))
  {
    hide DateText, ClockText, At, ScanValue, IsMoment, MomentAt, Plain, Fold, EndsAt, IsFraction, IsZone, KindOf, Begins,
      MomentWritten;
    var s := MomentWritten(m, sep, f, z);
    MomentKindIs(m, sep, f, z, pos + |s|);
    MomentParts(m, sep, f, z);
    FirstStands(src.text, pos, s);
    EndOfToken(src.text, pos + |s|);
    MomentIsRead(src.text, pos, m, sep, f, z);
    if sep == ' ' {
      DateDashes(m);
      SpacedMomentSeen(src.text, pos, DateText(m.date), (ClockText(m.time) + f) + z);
    } else {
      JoinedMomentSeen(src.text, pos, DateText(m.date), sep, (ClockText(m.time) + f) + z);
    }
  }

  lemma DateDashes(m: DateTime)
    requires IsMoment(m)
    ensures |DateText(m.date)| == 10 && DateText(m.date)[4] == '-' && DateText(m.date)[7] == '-'
  {
    hide Padded, Pow, FromText;
    var d := m.date;
    Powers10();
    PaddedText(d.year, 4, 10);
    PaddedText(d.month, 2, 10);
    PaddedText(d.day, 2, 10);
  }

  lemma MomentParts(m: DateTime, sep: char, f: string, z: string)
    ensures MomentWritten(m, sep, f, z) == DateText(m.date) + [sep] + ((ClockText(m.time) + f) + z)
  {
    hide DateText, ClockText;
  }

  lemma JoinedMomentSeen(text: string, pos: nat, d: string, sep: char, rest: string)
    requires (sep == 'T' || sep == 't') && |d| == 10 && Plain(d) && Plain(rest) && |rest| <= 79 && IsDecimalDigit(d[0])
    requires Fold(Begins(d[0]), "", d) == Begins(d[0]) + {Digits, Minus}
    requires At(text, pos, d + [sep] + rest) && ValueEndsAt(text, pos + |d + [sep] + rest|)
    ensures pos < |text| && BeginsNumber(text[pos])
    ensures var s := d + [sep] + rest;
            ScanValue(text, pos)
            == Scanned(Fold(Begins(d[0]) + {Digits, Minus} + {LetterT}, d + [sep], rest), s, pos + |s|)
  {
    hide At, Plain, Fold, ScanValue, Begins, EndsAt;
    var s := d + [sep] + rest;
    assert s == d + ([sep] + rest) && s[0] == d[0];
    NotASpace(sep);
    PlainConcat(d + [sep], rest);
    PlainConcat(d, [sep]);
    TokenScanned(text, pos, s);
    FoldConcat(Begins(d[0]), "", d, [sep] + rest);
    assert "" + d == d;
    SeparatorFold(Begins(d[0]) + {Digits, Minus}, d, sep, rest);
  }

  /** A date, a space and a time: the scan goes on behind the space. */
  lemma SpacedMomentSeen(text: string, pos: nat, d: string, rest: string)
    requires |d| == 10 && Plain(d) && Plain(rest) && 8 <= |rest| <= 79 && IsDecimalDigit(d[0])
    requires IsDecimalDigit(rest[0]) && Fold(Begins(d[0]), "", d) == Begins(d[0]) + {Digits, Minus}
    requires At(text, pos, d + [' '] + rest) && ValueEndsAt(text, pos + |d + [' '] + rest|)
    requires d[4] == '-' && d[7] == '-'
    ensures pos < |text| && BeginsNumber(text[pos])
    ensures var s := d + [' '] + rest;
            ScanValue(text, pos)
            == Scanned(Fold(Begins(d[0]) + {Digits, Minus} + {LetterT}, d + [' '], rest), s, pos + |s|)
  {
    hide At, Plain, Fold, ScanFrom, ScanTime, Begins, EndsAt;
    var s := d + [' '] + rest;
    AtConcat(text, pos, d + [' '], rest);
    AtConcat(text, pos, d, [' ']);
    FirstStands(text, pos, d);
    AtChar(text, pos + 10, ' ');
    SpaceEnds(text, pos + 10);
    PlainIsToken(d);
    ScanStrips(text, pos, 0, "", Begins(d[0]), d);
    assert "" + d == d;
    var t := Begins(d[0]) + {Digits, Minus};
    var first := Scanned(t, d, pos + 10);
    DateGoesOn(first);
    TimeGoesOn(text, pos, first, rest);
  }

  lemma SpaceEnds(text: string, pos: nat)
    requires pos < |text| && text[pos] == ' '
    ensures EndsAt(text, pos)
  {}

  lemma DateGoesOn(s: Scanned)
    requires |s.chars| == 10 && s.chars[4] == '-' && s.chars[7] == '-' && IsDecimalDigit(s.chars[0])
    requires s.traits == Begins(s.chars[0]) + {Digits, Minus}
    ensures CouldGoOn(s)
  {}

  lemma TimeGoesOn(text: string, pos: nat, s: Scanned, rest: string)
    requires s.after == pos + 10 && |s.chars| == 10 && Digits in s.traits
    requires s.after < |text| && text[s.after] == ' ' && At(text, s.after + 1, rest) && 8 <= |rest| <= 79 && Plain(rest)
    requires IsDecimalDigit(rest[0]) && EndsAt(text, s.after + 1 + |rest|)
    ensures ScanTime(text, pos, s)
         == Scanned(Fold(s.traits + {LetterT}, s.chars + [' '], rest), s.chars + [' '] + rest, s.after + 1 + |rest|)
  {
    hide At, Plain, Fold, ScanFrom, EndsAt;
    var p, c, tail := s.after, rest[0], rest[1..];
    assert rest == [c] + tail;
    AtConcat(text, p + 1, [c], tail);
    AtChar(text, p + 1, c);
    FirstStands(text, p + 2, tail);
    PlainConcat([c], tail);
    PlainIsToken(tail);
    ScanStrips(text, p + 2, p + 2 - pos, s.chars + [' ', c], s.traits + {LetterT}, tail);
    FoldFirst(s.traits + {LetterT}, s.chars + [' '], c, tail);
    DigitTrait(s.traits + {LetterT}, s.chars + [' '], c);
    assert s.traits + {LetterT} + {Digits} == s.traits + {LetterT};
    assert s.chars + [' '] + [c] == s.chars + [' ', c];
    assert s.chars + [' ', c] + tail == s.chars + [' '] + rest;
  }

  // ---------------------------------------------------------------- nothing else is read as a date or a time

  /** What is known of the parser of floats here: it gives floats. */
  ghost predicate GivesFloats(src: Source) {
    forall p: nat :: var r := src.floats(src.text, p); r.Some? ==> r.value.value.Float?
  }

  /** Which number parsers give which values. */
  lemma ReadBy(src: Source, pos: nat)
    requires GivesFloats(src) && pos < |src.text| && BeginsNumber(src.text[pos]) && NumberAt(src, pos).Some?
    ensures var text, r := src.text, NumberAt(src, pos).value;
            match r.value
            case LocalDate(d) => DateAt(text, pos) == Some(Parsed(d, pos + 10)) && r.after == pos + 10 && EndsAt(text, pos + 10)
            case LocalTime(t) => TimeAt(text, pos, false) == Some(Parsed(t, r.after))
            case Moment(m) => MomentAt(text, pos) == Some(Parsed(m, r.after))
            case Integer(_, _) => true
            case Float(_) => true
            case _ => false
  {
    hide KindOf, ScanValue, DateAt, TimeAt, MomentAt, EndsAt, Integers.Integer, Shown, BeginsNumber, DigitOf, TooLong;
  }

  /** A date, time or date-time that is read is one of the language, and ends where a value may end. */
  lemma ReadDateOrTime(src: Source, pos: nat) returns (sep: char, f: string, z: string)
    requires GivesFloats(src) && pos < |src.text| && BeginsNumber(src.text[pos]) && NumberAt(src, pos).Some?
    ensures var text, r := src.text, NumberAt(src, pos).value;
            && (r.value.LocalDate? ==>
                  && IsDate(r.value.date) && At(text, pos, DateText(r.value.date))
                  && r.after == pos + 10 && EndsAt(text, r.after))
            && (r.value.LocalTime? ==>
                  && IsTime(r.value.time) && IsFraction(f, r.value.time.nanosecond)
                  && At(text, pos, ClockText(r.value.time) + f) && r.after == pos + |ClockText(r.value.time) + f|
                  && EndsAt(text, r.after))
            && (r.value.Moment? ==>
                  && IsMoment(r.value.moment) && IsDateTimeSeparator(sep) && IsFraction(f, r.value.moment.time.nanosecond)
                  && IsZone(z, r.value.moment.offset) && At(text, pos, MomentWritten(r.value.moment, sep, f, z))
                  && r.after == pos + |MomentWritten(r.value.moment, sep, f, z)| && EndsAt(text, r.after))
  {
    hide NumberAt, DateText, ClockText, DateAt, TimeAt, MomentAt, At, EndsAt, IsDate, IsTime, IsMoment, IsFraction, IsZone,
      MomentWritten, BeginsNumber, GivesFloats;
    sep, f, z := ' ', "", "";
    ReadBy(src, pos);
    var r := NumberAt(src, pos).value;
    match r.value
    case LocalDate(d) => DateExactly(src.text, pos, d);
    case LocalTime(t) =>
      f := ReadTime(src.text, pos, false);
      TimeEnds(src.text, pos);
    case Moment(m) =>
      sep, f, z := ReadMoment(src.text, pos);
      MomentEnds(src.text, pos);
    case _ =>
  }

  lemma TimeEnds(text: string, pos: nat)
    requires TimeAt(text, pos, false).Some?
    ensures EndsAt(text, TimeAt(text, pos, false).value.after)
  {
    hide Number, At, FractionOf;
  }

  lemma MomentEnds(text: string, pos: nat)
    requires MomentAt(text, pos).Some?
    ensures EndsAt(text, MomentAt(text, pos).value.after)
  {
    hide DateAt, TimeAt, OffsetAt;
  }
}
