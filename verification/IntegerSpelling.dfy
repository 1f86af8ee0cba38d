/** Spellings of an integer that the printers never write: digits in lower case, underscores, a plus sign. */
module IntegerSpellings {
  import opened Characters
  import opened Integers
  import opened Numerals
  import opened Sequences
  import opened StringParser
  import opened Wrappers

  predicate IsHexLetter(c: char) {
    'a' <= c <= 'f' || 'A' <= c <= 'F'
  }

  function Upper(c: char): char {
    if 'a' <= c <= 'f' then c - ('a' - 'A') else c
  }

  function UpperText(s: string): (t: string)
    ensures |t| == |s| && forall i | 0 <= i < |s| :: t[i] == Upper(s[i])
  {
    seq(|s|, i requires 0 <= i < |s| => Upper(s[i]))
  }

  lemma UpperDigit(c: char, base: Base)
    ensures IsDigitChar(Upper(c), base) <==> IsDigitChar(c, base)
    ensures IsDigitChar(c, 16) ==> DigitValue(Upper(c)) == DigitValue(c)
    ensures Upper(c) != c ==> IsHexLetter(c) && IsHexLetter(Upper(c))
  {
    if 'a' <= c <= 'f' {
      assert Upper(c) as int == c as int - 32;
      assert (Upper(c) - 'A') as nat == (c - 'a') as nat;
    }
  }

  lemma UpperValue(s: string, base: Base)
    requires AllDigitChars(s, base)
    ensures AllDigitChars(UpperText(s), base) && FromText(UpperText(s), base) == FromText(s, base)
  {
    hide IsDigitChar, DigitValue, FromDigits;
    var t := UpperText(s);
    forall i | 0 <= i < |s| ensures IsDigitChar(t[i], base) && IsDigitChar(s[i], base) {
      assert s[i] in s;
      UpperDigit(s[i], base);
    }
    HexDigits(s, base);
    HexDigits(t, base);
    forall i | 0 <= i < |s| ensures DigitValues(t)[i] == DigitValues(s)[i] {
      assert s[i] in s;
      UpperDigit(s[i], base);
    }
    assert DigitValues(t) == DigitValues(s);
  }

  /** Every spelling of the digits of a number denotes it. */
  lemma AnyCaseReads(s: string, n: nat)
    requires UpperText(s) == ToText(n, 16)
    ensures AllDigitChars(s, 16) && FromText(s, 16) == n
  {
    hide ToText, FromText, IsDigitChar;
    TextRoundTrip(n, 16);
    forall c | c in s ensures IsDigitChar(c, 16) {
      var i :| 0 <= i < |s| && s[i] == c;
      assert UpperText(s)[i] in UpperText(s);
      UpperDigit(c, 16);
    }
    UpperValue(s, 16);
  }

  // ---------------------------------------------------------------- whole texts

  /** The same text but for the case of hexadecimal digits. */
  predicate SameButCase(a: string, b: string) {
    UpperText(a) == UpperText(b)
  }

  lemma SameAt(a: string, b: string, i: nat)
    requires SameButCase(a, b) && i < |a|
    ensures i < |b| && Upper(a[i]) == Upper(b[i])
    ensures IsDigitChar(a[i], 16) <==> IsDigitChar(b[i], 16)
    ensures !IsHexLetter(a[i]) ==> b[i] == a[i]
    ensures IsValueTerminator(a[i]) <==> IsValueTerminator(b[i])
    ensures (a[i] == '_') <==> (b[i] == '_')
  {
    assert UpperText(a)[i] == UpperText(b)[i] && |UpperText(b)| == |b|;
    hide IsValueTerminator;
    UpperDigit(a[i], 16);
    UpperDigit(b[i], 16);
    LettersNoTerminators(a[i]);
    LettersNoTerminators(b[i]);
  }

  lemma LettersNoTerminators(c: char)
    ensures IsHexLetter(c) ==> !IsValueTerminator(c) && c != '_'
  {}

  lemma {:induction false} SameEnd(a: string, b: string, i: nat)
    requires SameButCase(a, b) && i <= |a|
    ensures |a| == |b| && TokenEnd(a, i) == TokenEnd(b, i)
    decreases |a| - i
  {
    hide UpperText, IsValueTerminator;
    assert |UpperText(a)| == |a| && |UpperText(b)| == |b|;
    if i < |a| {
      SameAt(a, b, i);
      if !EndsAt(a, i) { SameEnd(a, b, i + 1); }
    }
  }

  lemma {:induction false} UpperDigits(s: string)
    ensures UpperText(Integers.Digits(s)) == Integers.Digits(UpperText(s))
  {
    var n := |s| - 1;
    if s != "" {
      var t := UpperText(s);
      assert t[..n] == UpperText(s[..n]);
      UpperDigits(s[..n]);
      LettersNoTerminators(s[n]);
      UpperDigit(s[n], 16);
      LettersNoTerminators(t[n]);
      if s[n] != '_' {
        assert UpperText(Integers.Digits(s[..n]) + [s[n]]) == UpperText(Integers.Digits(s[..n])) + [t[n]];
      }
    }
  }

  lemma SamePart(a: string, b: string, i: nat, j: nat)
    requires SameButCase(a, b) && i <= j <= |a|
    ensures |b| == |a| && SameButCase(a[i..j], b[i..j])
  {
    assert |UpperText(a)| == |a| && |UpperText(b)| == |b|;
    assert UpperText(a[i..j]) == UpperText(a)[i..j] && UpperText(b[i..j]) == UpperText(b)[i..j];
  }

  lemma SameDenotes(s: string, t: string)
    requires SameButCase(s, t) && AllDigitChars(s, 16)
    ensures |s| == |t| && AllDigitChars(t, 16) && FromText(s, 16) == FromText(t, 16)
    ensures Denotes(s, 16, false) == Denotes(t, 16, false)
  {
    hide FromText, IsDigitChar;
    assert |UpperText(s)| == |s| && |UpperText(t)| == |t|;
    forall c | c in t ensures IsDigitChar(c, 16) {
      var i :| 0 <= i < |t| && t[i] == c;
      SameAt(s, t, i);
      assert s[i] in s;
    }
    UpperValue(s, 16);
    UpperValue(t, 16);
  }

  lemma SameSpaced(a: string, b: string, sa: string, sb: string, start: nat, end: nat)
    requires SameButCase(a, b) && SameButCase(sa, sb) && |a| == |sa| && end <= |a|
    requires WellSpaced(a, sa, start, end, 16)
    ensures |b| == |sb| == |a| && WellSpaced(b, sb, start, end, 16)
  {
    hide UpperText, IsDigitChar, IsValueTerminator;
    assert |UpperText(a)| == |a| && |UpperText(b)| == |b| && |UpperText(sa)| == |sa| && |UpperText(sb)| == |sb|;
    SameAt(a, b, start);
    SameAt(sa, sb, end - 1);
    SameAt(a, b, end - 1);
    forall i | start <= i < end ensures GoesOnAt(b, sb, start, i, 16) {
      assert GoesOnAt(a, sa, start, i, 16);
      SameAt(a, b, i);
      if i > start { SameAt(sa, sb, i - 1); }
    }
  }

  lemma SamePrefix(a: string, b: string, pos: nat)
    requires SameButCase(a, b) && HasPrefix(a, pos, 16)
    ensures HasPrefix(b, pos, 16)
  {
    assert |UpperText(a)| == |a| && |UpperText(b)| == |b|;
    assert a[pos..pos + 2][0] == '0' && a[pos..pos + 2][1] == 'x';
    SameAt(a, b, pos);
    SameAt(a, b, pos + 1);
    assert b[pos..pos + 2] == "0x";
  }

  lemma IntegerOneWay(a: string, b: string, sa: string, sb: string, pos: nat)
    requires SameButCase(a, b) && SameButCase(sa, sb) && |a| == |sa| && |b| == |sb|
    requires Integer(a, sa, pos, 16).Some?
    ensures Integer(b, sb, pos, 16) == Integer(a, sa, pos, 16)
  {
    hide UpperText, IsDigitChar, TokenEnd, WellSpaced, Integers.Digits, Denotes, HasPrefix;
    assert |UpperText(a)| == |a| && |UpperText(b)| == |b|;
    var start := pos + 2;
    var end := TokenEnd(a, start);
    SamePrefix(a, b, pos);
    SameEnd(a, b, start);
    SameSpaced(a, b, sa, sb, start, end);
    SamePart(a, b, start, end);
    UpperDigits(a[start..end]);
    UpperDigits(b[start..end]);
    SpacedDigits(a, sa, start, 16);
    SameDenotes(Integers.Digits(a[start..end]), Integers.Digits(b[start..end]));
  }

  /** A hexadecimal integer is the same in upper and lower case and any mixture of them. */
  lemma IntegerInAnyCase(a: string, b: string, sa: string, sb: string, pos: nat)
    requires SameButCase(a, b) && SameButCase(sa, sb) && |a| == |sa| && |b| == |sb|
    ensures Integer(a, sa, pos, 16) == Integer(b, sb, pos, 16)
  {
    hide *;
    if Integer(a, sa, pos, 16).Some? {
      IntegerOneWay(a, b, sa, sb, pos);
    } else if Integer(b, sb, pos, 16).Some? {
      SameSymmetric(a, b);
      SameSymmetric(sa, sb);
      IntegerOneWay(b, a, sb, sa, pos);
    }
  }

  lemma SameSymmetric(a: string, b: string)
    ensures SameButCase(a, b) <==> SameButCase(b, a)
  {}

  /** So is the scalar value of a Unicode escape. */
  lemma CodePointInAnyCase(a: string, b: string, pos: nat, digits: nat)
    requires SameButCase(a, b)
    ensures CodePointAt(a, pos, digits) == CodePointAt(b, pos, digits)
  {
    hide FromText, IsDigitChar, AllDigitChars;
    assert |UpperText(a)| == |a| && |UpperText(b)| == |b|;
    if pos + digits <= |a| {
      var s, t := a[pos..pos + digits], b[pos..pos + digits];
      SamePart(a, b, pos, pos + digits);
      SameSymmetric(s, t);
      if AllDigitChars(s, 16) { SameDenotes(s, t); }
      if AllDigitChars(t, 16) { SameDenotes(t, s); }
    }
  }

  // ---------------------------------------------------------------- underscores and signs

  lemma {:induction false} DigitsConcat(a: string, b: string)
    ensures Integers.Digits(a + b) == Integers.Digits(a) + Integers.Digits(b)
  {
    var n := |b| - 1;
    if b == "" {
      assert a + b == a;
    } else {
      assert (a + b)[..|a + b| - 1] == a + b[..n];
      DigitsConcat(a, b[..n]);
      if b[n] != '_' { Assoc(Integers.Digits(a), Integers.Digits(b[..n]), [b[n]]); }
    }
  }

  lemma {:induction false} TokenEndFacts(text: string, i: nat, e: nat)
    requires i <= |text| && TokenEnd(text, i) == e
    ensures i <= e <= |text| && EndsAt(text, e) && forall j | i <= j < e :: !IsValueTerminator(text[j])
  {}

  /** The parts of an integer. */
  lemma IntegerParts(text: string, pos: nat, base: Base)
    requires pos < |text| && HasPrefix(text, pos, base) && DigitsFrom(text, pos, base) < |text|
    ensures var start := DigitsFrom(text, pos, base);
            var end := TokenEnd(text, start);
            var ds := Integers.Digits(text[start..end]);
            && (WellSpaced(text, text, start, end, base) ==> AllDigitChars(ds, base))
            && Integer(text, text, pos, base) ==
               if !WellSpaced(text, text, start, end, base) then None else
                 var n := Denotes(ds, base, Negative(text, pos, base));
                 if n.None? then None else Some(Parsed(n.value, end))
  {
    hide Integers.Digits, TokenEnd, Denotes, WellSpaced, AllDigitChars;
    if WellSpaced(text, text, DigitsFrom(text, pos, base), TokenEnd(text, DigitsFrom(text, pos, base)), base) {
      SpacedDigits(text, text, DigitsFrom(text, pos, base), base);
    }
  }

  lemma IntegerHasParts(text: string, pos: nat, base: Base)
    requires Integer(text, text, pos, base).Some?
    ensures pos < |text| && HasPrefix(text, pos, base) && DigitsFrom(text, pos, base) < |text|
    ensures pos <= DigitsFrom(text, pos, base)
  {}

  /** An underscore inside a number may be left out. */
  lemma UnderscoreIsDropped(x: string, y: string, pos: nat, base: Base)
    requires var t := x + "_" + y;
             && Integer(t, t, pos, base).Some?
             && DigitsFrom(t, pos, base) < |x| < Integer(t, t, pos, base).value.after
    ensures var t := x + "_" + y;
            var n := Integer(t, t, pos, base).value;
            Integer(x + y, x + y, pos, base) == Some(Parsed(n.value, n.after - 1))
  {
    hide *;
    var t, u, n := x + "_" + y, x + y, |x|;
    IntegerHasParts(t, pos, base);
    IntegerParts(t, pos, base);
    var start := DigitsFrom(t, pos, base);
    var end := TokenEnd(t, start);
    WithoutIt(x, y);
    SameHead(t, u, pos, base, n);
    SpacedWithout(t, u, n, start, end, base);
    TokenEndFacts(t, start, end);
    TokenEndWithout(t, u, n, start, end);
    DigitsWithout(x, y, start, end);
    IntegerParts(u, pos, base);
  }

  lemma WithoutIt(x: string, y: string)
    ensures var t, u, n := x + "_" + y, x + y, |x|;
            && |u| == |t| - 1 && t[n] == '_'
            && (forall i | 0 <= i < n :: u[i] == t[i]) && (forall i | n <= i < |u| :: u[i] == t[i + 1])
  {}

  lemma SameHead(t: string, u: string, pos: nat, base: Base, n: nat)
    requires n <= |t| && n <= |u| && (forall i | 0 <= i < n :: u[i] == t[i])
    requires pos < |t| && DigitsFrom(t, pos, base) < n && HasPrefix(t, pos, base)
    ensures pos < |u| && HasPrefix(u, pos, base) && DigitsFrom(u, pos, base) == DigitsFrom(t, pos, base)
    ensures Negative(u, pos, base) == Negative(t, pos, base)
  {
    if base != 10 { assert u[pos..pos + 2] == t[pos..pos + 2]; }
  }

  lemma TokenEndWithout(t: string, u: string, n: nat, start: nat, end: nat)
    requires |u| == |t| - 1 && start < n < end <= |t|
    requires (forall i | 0 <= i < n :: u[i] == t[i]) && (forall i | n <= i < |u| :: u[i] == t[i + 1])
    requires EndsAt(t, end) && forall j | start <= j < end :: !IsValueTerminator(t[j])
    ensures TokenEnd(u, start) == end - 1
  {
    hide IsValueTerminator, TokenEnd;
    assert forall j | n <= j < end - 1 :: u[j] == t[j + 1];
    TokenEndAt(u, start, end - 1);
  }

  lemma DigitsWithout(x: string, y: string, start: nat, end: nat)
    requires start < |x| < end <= |x + "_" + y|
    ensures Integers.Digits((x + "_" + y)[start..end]) == Integers.Digits((x + y)[start..end - 1])
  {
    hide Integers.Digits;
    var a, b := x[start..], y[..end - |x| - 1];
    assert (x + "_" + y)[start..end] == a + ("_" + b) && (x + y)[start..end - 1] == a + b;
    DigitsConcat(a, "_" + b);
    DigitsConcat("_", b);
    DigitsConcat(a, b);
    OneUnderscore();
    assert "" + Integers.Digits(b) == Integers.Digits(b);
  }

  lemma OneUnderscore()
    ensures Integers.Digits("_") == ""
  {
    assert "_"[..0] == "";
  }

  lemma SpacedWithout(t: string, u: string, n: nat, start: nat, end: nat, base: Base)
    requires start < n < end <= |t| && |u| == |t| - 1 && t[n] == '_'
    requires (forall i | 0 <= i < n :: u[i] == t[i]) && (forall i | n <= i < |u| :: u[i] == t[i + 1])
    requires WellSpaced(t, t, start, end, base)
    ensures WellSpaced(u, u, start, end - 1, base)
  {
    hide IsDigitChar;
    DigitsNotTerminators('_', base);
    UnderscoresBetweenDigits(t, start, end, base);
    assert IsDigitChar(t[n], base) || BetweenDigits(t, start, end, n, base);
    UnderscoresBetweenDigits(u, start, end - 1, base);
    forall i | start <= i < end - 1 ensures IsDigitChar(u[i], base) || BetweenDigits(u, start, end - 1, i, base) {
      var j := if i < n then i else i + 1;
      assert IsDigitChar(t[j], base) || BetweenDigits(t, start, end, j, base);
    }
  }

  /** A plus sign before a decimal number may be left out. */
  lemma PlusIsDropped(x: string, y: string)
    requires y != "" && IsDecimalDigit(y[0])
    ensures var t := x + "+" + y;
            var n := Integer(x + y, x + y, |x|, 10);
            Integer(t, t, |x|, 10) == if n.None? then None else Some(Parsed(n.value.value, n.value.after + 1))
  {
    hide *;
    var t, u, p := x + "+" + y, x + y, |x|;
    PlusParts(x, y);
    IntegerParts(t, p, 10);
    IntegerParts(u, p, 10);
    SameTail(t, p + 1, u, p, y);
    TokenEndFacts(u, p, TokenEnd(u, p));
    ShiftedSpacing(t, u, p, TokenEnd(u, p));
    assert t[p + 1..TokenEnd(u, p) + 1] == u[p..TokenEnd(u, p)];
  }

  lemma PlusParts(x: string, y: string)
    requires y != "" && IsDecimalDigit(y[0])
    ensures var t, u, p := x + "+" + y, x + y, |x|;
            && p + 1 < |t| && |t| == |u| + 1 && p < |u| && (forall i | p <= i < |u| :: t[i + 1] == u[i])
            && t[p + 1..] == y && u[p..] == y
            && HasPrefix(t, p, 10) && HasPrefix(u, p, 10) && DigitsFrom(t, p, 10) == p + 1 && DigitsFrom(u, p, 10) == p
            && !Negative(t, p, 10) && !Negative(u, p, 10)
  {
    var t, u := x + "+" + y, x + y;
    assert t[|x|] == '+' && u[|x|] == y[0];
  }

  lemma {:induction false} SameTail(t: string, i: nat, u: string, j: nat, y: string)
    requires i <= |t| && j <= |u| && t[i..] == y && u[j..] == y
    ensures TokenEnd(t, i) - i == TokenEnd(u, j) - j
    decreases |y|
  {
    hide IsValueTerminator;
    if y != "" {
      assert t[i] == y[0] && u[j] == y[0];
      assert t[i + 1..] == y[1..] && u[j + 1..] == y[1..];
      SameTail(t, i + 1, u, j + 1, y[1..]);
    }
  }

  lemma ShiftedSpacing(t: string, u: string, p: nat, end: nat)
    requires p <= end <= |u| && |t| == |u| + 1 && forall i | p <= i < |u| :: t[i + 1] == u[i]
    ensures WellSpaced(t, t, p + 1, end + 1, 10) <==> WellSpaced(u, u, p, end, 10)
  {
    hide IsDigitChar;
    if WellSpaced(t, t, p + 1, end + 1, 10) {
      forall i | p <= i < end ensures GoesOnAt(u, u, p, i, 10) { assert GoesOnAt(t, t, p + 1, i + 1, 10); }
    }
    if WellSpaced(u, u, p, end, 10) {
      var q := p + 1;
      forall i | q <= i < end + 1 ensures GoesOnAt(t, t, q, i, 10) { assert GoesOnAt(u, u, p, i - 1, 10); }
    }
  }
}
