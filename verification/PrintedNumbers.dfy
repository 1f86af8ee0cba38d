/** The look-ahead of `parse_value` recognises what the printers of `toml.hpp` write for numbers and dates. */
module PrintedNumbers {
  import opened Characters
  import opened DateTimes
  import opened InlineGrammar
  import opened Integers
  import opened Numerals
  import opened StalePointers
  import opened TomlValues
  import opened ValueKinds
  import opened Wrappers

  /** Neither underscores nor characters that end a value. */
  predicate Plain(s: string) {
    forall c | c in s :: c != '_' && !IsValueTerminator(c)
  }

  lemma PlainConcat(a: string, b: string)
    ensures Plain(a + b) <==> Plain(a) && Plain(b)
  {
    hide IsValueTerminator;
    forall c | c in a || c in b ensures c in a + b {}
  }

  lemma PlainDigits(ds: string, base: Base)
    requires AllDigitChars(ds, base)
    ensures Plain(ds)
  {
    forall c | c in ds ensures c != '_' && !IsValueTerminator(c) { DigitsNotTerminators(c, base); }
  }

  /** The end of a value that a look-ahead for a time does not pass. */
  predicate ValueEndsAt(text: string, pos: nat) {
    EndsAt(text, pos) && !(pos + 1 < |text| && text[pos] == ' ' && IsDecimalDigit(text[pos + 1]))
  }

  lemma NoTime(text: string, pos: nat, s: Scanned)
    requires pos < s.after <= |text| && ValueEndsAt(text, s.after)
    ensures ScanTime(text, pos, s) == s
  {
    hide ScanFrom, EndsAt;
  }

  lemma ScanWithoutTime(text: string, pos: nat, s: Scanned)
    requires pos < |text| && BeginsNumber(text[pos]) && ScanFrom(text, pos, 0, "", Begins(text[pos])) == s
    requires ValueEndsAt(text, s.after)
    ensures ScanValue(text, pos) == s
  {
    hide ScanFrom, ScanTime, BeginsNumber, Begins, ValueEndsAt, CouldGoOn;
    NoTime(text, pos, s);
  }

  /** The look-ahead over a value without underscores collects exactly its characters. */
  lemma TokenScanned(text: string, pos: nat, s: string)
    requires s != "" && At(text, pos, s) && Plain(s) && |s| <= MAX_SCAN && ValueEndsAt(text, pos + |s|)
    requires BeginsNumber(s[0])
    ensures pos < |text| && text[pos] == s[0]
    ensures ScanValue(text, pos) == Scanned(Fold(Begins(s[0]), "", s), s, pos + |s|)
  {
    hide Fold, ScanFrom, ScanValue, IsValueTerminator, BeginsNumber, Begins, EndsAt, At;
    AtCharOf(text, pos, s, 0);
    ScanFolds(text, pos, 0, "", Begins(s[0]), s);
    assert "" + s == s;
    ScanWithoutTime(text, pos, Scanned(Fold(Begins(s[0]), "", s), s, pos + |s|));
  }

  // ---------------------------------------------------------------- integers

  lemma FoldInteger(n: nat)
    requires n <= I64_MAX
    ensures var ds := ToText(n, 10);
            && AllDigitChars(ds, 10) && 1 <= |ds| <= 19
            && Fold(Begins(ds[0]), "", ds) - {BeginsZero} == {BeginsDigit, Digits}
            && (|ds| == 1 ==> DigitOf(ds[0]) == n)
  {
    hide ToText, TraitOf, Fold, FromText;
    NumberText(n, 10);
    var ds := ToText(n, 10);
    FoldDigits(Begins(ds[0]), "", ds);
    assert ds[0] in ds;
    if |ds| == 1 { OneDigitOf(ds, n); }
  }

  lemma OneDigitOf(ds: string, n: nat)
    requires |ds| == 1 && AllDigitChars(ds, 10) && FromText(ds, 10) == n
    ensures IsDecimalDigit(ds[0]) && DigitOf(ds[0]) == n
  {
    Integers.OneDigit(ds, 10);
    assert ds[0] in ds;
  }

  lemma FoldNegative(n: nat)
    requires n <= I64_MAX + 1
    ensures var ds := ToText(n, 10);
            && AllDigitChars(ds, 10) && 1 <= |ds| <= 19
            && Fold(Begins('-'), "", "-" + ds) == {BeginsSign, Digits, Minus}
            && (|ds| == 1 ==> DigitOf(ds[0]) == n)
  {
    hide ToText, Fold, FromText;
    NumberText(n, 10);
    var ds := ToText(n, 10);
    FoldConcat(Begins('-'), "", "-", ds);
    FoldChar(Begins('-'), "", '-');
    FoldDigits(Begins('-') + {Minus}, "" + "-", ds);
    if |ds| == 1 { OneDigitOf(ds, n); }
  }

  function PrefixTrait(base: Base): Trait {
    if base == 2 then LetterB else if base == 8 then LetterO else LetterX
  }

  lemma FoldPrefix(base: Base, ds: string)
    requires base != 10 && AllDigitChars(ds, base)
    ensures var t := Fold(Begins('0'), "", Prefix(base) + ds);
            {PrefixTrait(base)} <= t <= {BeginsDigit, BeginsZero, Digits, PrefixTrait(base)}
  {
    hide Fold;
    var x := PrefixChar(base);
    var t := Begins('0') + {Digits};
    assert Prefix(base) + ds == ['0'] + ([x] + ds);
    FoldConcat(Begins('0'), "", ['0'], [x] + ds);
    FoldChar(Begins('0'), "", '0');
    assert "" + ['0'] == ['0'];
    FoldConcat(t, ['0'], [x], ds);
    FoldChar(t, ['0'], x);
    assert AddTrait(t, ['0'], x) == t + {PrefixTrait(base)};
    FoldPrefixed(t + {PrefixTrait(base)}, ['0'] + [x], ds, base);
  }

  /** Pointers into the look-ahead still show what was read. */
  lemma ShownAhead(src: Source, pos: nat, i: nat)
    requires pos <= i < |src.text| && i < pos + MAX_SCAN
    ensures Shown(src.text, pos)[i] == src.text[i]
  {}

  /** Every printed integer is recognised and read back. */
  lemma IntegerReads(src: Source, pos: nat, n: int, base: Base)
    requires FitsI64(n) && (n < 0 ==> base == 10)
    requires At(src.text, pos, IntegerText(n, base)) && ValueEndsAt(src.text, pos + |IntegerText(n, base)|)
    ensures IntegerText(n, base) != "" && BeginsNumber(IntegerText(n, base)[0])
    ensures pos < |src.text| && src.text[pos] == IntegerText(n, base)[0]
    ensures NumberAt(src, pos) == Some(Parsed(Integer(n, FormatOf(base)), pos + |IntegerText(n, base)|))
  {
    hide ToText, Fold, At, ScanValue, Integers.Integer, AllDigitChars, IsValueTerminator;
    if n < 0 {
      NegativeReads(src, pos, n);
    } else if base == 10 {
      NaturalReads(src, pos, n);
    } else {
      PrefixedReads(src, pos, n, base);
    }
  }

  lemma LastShown(src: Source, pos: nat, s: string)
    requires s != "" && At(src.text, pos, s) && Plain(s) && |s| <= MAX_SCAN
    ensures Shown(src.text, pos)[pos + |s| - 1] != '_'
    ensures s <= src.text[pos..]
  {
    AtCharOf(src.text, pos, s, |s| - 1);
    assert s[|s| - 1] in s;
    ShownAhead(src, pos, pos + |s| - 1);
    assert src.text[pos..][..|s|] == src.text[pos..pos + |s|];
  }

  lemma NaturalReads(src: Source, pos: nat, n: nat)
    requires n <= I64_MAX
    requires At(src.text, pos, IntegerText(n, 10)) && ValueEndsAt(src.text, pos + |IntegerText(n, 10)|)
    ensures IntegerText(n, 10) != "" && BeginsNumber(IntegerText(n, 10)[0])
    ensures pos < |src.text| && src.text[pos] == IntegerText(n, 10)[0]
    ensures NumberAt(src, pos) == Some(Parsed(Integer(n, Decimal), pos + |IntegerText(n, 10)|))
  {
    hide ToText, Fold, At, ScanValue, Integers.Integer, IsValueTerminator, Begins, Shown;
    var ds := ToText(n, 10);
    FoldInteger(n);
    assert IntegerText(n, 10) == ds;
    PlainDigits(ds, 10);
    assert ds[0] in ds && (|ds| > 1 ==> ds[1] in ds);
    TokenScanned(src.text, pos, ds);
    LastShown(src, pos, ds);
    if |ds| > 1 {
      KindOfDigits(ScanValue(src.text, pos));
      IntegerRoundTrip(src.text, Shown(src.text, pos), pos, n, 10);
    } else {
      KindOfDigit(ScanValue(src.text, pos));
    }
  }

  lemma KindOfDigits(s: Scanned)
    requires |s.chars| > 1 && s.traits - {BeginsZero} == {BeginsDigit, Digits} && s.chars[1] != '.'
    ensures KindOf(s) == IntegerKind(10)
  {
    forall x | x in s.traits ensures x in {BeginsDigit, Digits, BeginsZero} {
      if x != BeginsZero { assert x in s.traits - {BeginsZero}; }
    }
  }

  lemma KindOfDigit(s: Scanned)
    requires |s.chars| == 1 && s.traits - {BeginsZero} == {BeginsDigit, Digits}
    ensures KindOf(s) == ValueKinds.OneDigit
  {
    assert BeginsDigit in s.traits - {BeginsZero};
  }

  lemma NegativeReads(src: Source, pos: nat, n: int)
    requires I64_MIN <= n < 0
    requires At(src.text, pos, IntegerText(n, 10)) && ValueEndsAt(src.text, pos + |IntegerText(n, 10)|)
    ensures IntegerText(n, 10) != "" && BeginsNumber(IntegerText(n, 10)[0])
    ensures pos < |src.text| && src.text[pos] == IntegerText(n, 10)[0]
    ensures NumberAt(src, pos) == Some(Parsed(Integer(n, Decimal), pos + |IntegerText(n, 10)|))
  {
    hide ToText, Fold, At, ScanValue, Integers.Integer, IsValueTerminator, Begins, Shown, KindOf, EndsAt;
    var ds := ToText(-n, 10);
    var s := "-" + ds;
    FoldNegative(-n);
    assert IntegerText(n, 10) == s;
    PlainDigits(ds, 10);
    MinusIsPlain();
    PlainConcat("-", ds);
    assert ds[0] in ds && (|ds| > 1 ==> ds[1] in ds);
    TokenScanned(src.text, pos, s);
    LastShown(src, pos, s);
    KindOfNegative(ScanValue(src.text, pos));
    if |ds| > 1 { IntegerRoundTrip(src.text, Shown(src.text, pos), pos, n, 10); }
  }

  lemma KindOfNegative(s: Scanned)
    requires |s.chars| > 1 && s.traits == {BeginsSign, Digits, Minus} && IsDecimalDigit(s.chars[1])
    requires |s.chars| > 2 ==> s.chars[2] != '.'
    ensures KindOf(s) == if |s.chars| == 2 then ValueKinds.SignedDigit else IntegerKind(10)
  {}

  lemma MinusIsPlain()
    ensures Plain("-") && Plain("+") && Plain(":") && Plain(".") && Plain("T") && Plain("Z") && Plain("")
    ensures Plain("0b") && Plain("0o") && Plain("0x")
  {}

  lemma PrefixedReads(src: Source, pos: nat, n: nat, base: Base)
    requires n <= I64_MAX && base != 10
    requires At(src.text, pos, IntegerText(n, base)) && ValueEndsAt(src.text, pos + |IntegerText(n, base)|)
    ensures IntegerText(n, base) != "" && BeginsNumber(IntegerText(n, base)[0])
    ensures pos < |src.text| && src.text[pos] == IntegerText(n, base)[0]
    ensures NumberAt(src, pos) == Some(Parsed(Integer(n, FormatOf(base)), pos + |IntegerText(n, base)|))
  {
    hide ToText, Fold, At, ScanValue, Integers.Integer, IsValueTerminator, Begins, Shown, FromText, AllDigitChars;
    var ds := ToText(n, base);
    var s := Prefix(base) + ds;
    NumberText(n, base);
    FoldPrefix(base, ds);
    assert IntegerText(n, base) == s;
    PlainDigits(ds, base);
    MinusIsPlain();
    PlainConcat(Prefix(base), ds);
    TokenScanned(src.text, pos, s);
    LastShown(src, pos, s);
    KindOfPrefixed(ScanValue(src.text, pos), base);
    IntegerRoundTrip(src.text, Shown(src.text, pos), pos, n, base);
  }

  lemma KindOfPrefixed(s: Scanned, base: Base)
    requires base != 10 && |s.chars| > 1
    requires {PrefixTrait(base)} <= s.traits <= {BeginsDigit, BeginsZero, Digits, PrefixTrait(base)}
    ensures KindOf(s) == IntegerKind(base)
  {
    assert PrefixTrait(base) in {PrefixTrait(base)};
  }

  // ---------------------------------------------------------------- dates and times

  predicate IsSeparator(c: char) {
    c == '-' || c == '+' || c == ':' || c == '.' || c == 'T' || c == 'Z'
  }

  function SeparatorTrait(c: char): Trait
    requires IsSeparator(c)
  {
    match c
    case '-' => Minus
    case '+' => Plus
    case ':' => Colon
    case '.' => Dot
    case 'T' => LetterT
    case _ => LetterZ
  }

  lemma FoldSeparator(t: Traits, chars: string, c: char, rest: string)
    requires IsSeparator(c)
    ensures Fold(t, chars, [c] + rest) == Fold(t + {SeparatorTrait(c)}, chars + [c], rest)
  {
    hide Fold;
    FoldConcat(t, chars, [c], rest);
    FoldChar(t, chars, c);
  }

  lemma FoldGroup(t: Traits, chars: string, ds: string, rest: string)
    requires ds != "" && AllDigitChars(ds, 10)
    ensures Fold(t, chars, ds + rest) == Fold(t + {Digits}, chars + ds, rest)
  {
    hide Fold, AllDigitChars;
    FoldConcat(t, chars, ds, rest);
    FoldDigits(t, chars, ds);
  }

  /** Three groups of digits with the same separator. */
  lemma FoldThree(t: Traits, chars: string, a: string, b: string, d: string, c: char)
    requires a != "" && b != "" && d != "" && AllDigitChars(a, 10) && AllDigitChars(b, 10) && AllDigitChars(d, 10)
    requires IsSeparator(c)
    ensures Fold(t, chars, a + [c] + b + [c] + d) == t + {Digits, SeparatorTrait(c)}
    ensures Plain(a + [c] + b + [c] + d)
  {
    hide Fold, AllDigitChars, IsValueTerminator, Plain;
    var rest3 := [c] + d;
    var rest2 := b + rest3;
    assert a + [c] + b + [c] + d == a + ([c] + rest2);
    FoldGroup(t, chars, a, [c] + rest2);
    FoldSeparator(t + {Digits}, chars + a, c, rest2);
    var t2, chars2 := t + {Digits} + {SeparatorTrait(c)}, chars + a + [c];
    FoldGroup(t2, chars2, b, rest3);
    FoldSeparator(t2 + {Digits}, chars2 + b, c, d);
    FoldDigits(t2 + {Digits} + {SeparatorTrait(c)}, chars2 + b + [c], d);
    PlainDigits(a, 10);
    PlainDigits(b, 10);
    PlainDigits(d, 10);
    SeparatorIsPlain(c);
    PlainConcat(a, [c] + rest2);
    PlainConcat([c], rest2);
    PlainConcat(b, rest3);
    PlainConcat([c], d);
  }

  lemma SeparatorIsPlain(c: char)
    requires IsSeparator(c)
    ensures Plain([c])
  {}

  lemma DateFold(t: Traits, chars: string, d: Date)
    requires IsDate(d)
    ensures Fold(t, chars, DateText(d)) == t + {Digits, Minus} && Plain(DateText(d)) && |DateText(d)| == 10
    ensures IsDecimalDigit(DateText(d)[0]) && IsDecimalDigit(DateText(d)[1])
  {
    hide Padded, Fold, AllDigitChars, Pow, Plain;
    Powers10();
    PaddedText(d.year, 4, 10);
    PaddedText(d.month, 2, 10);
    PaddedText(d.day, 2, 10);
    FoldThree(t, chars, Padded(d.year, 4, 10), Padded(d.month, 2, 10), Padded(d.day, 2, 10), '-');
    DigitIn(Padded(d.year, 4, 10), 0);
    DigitIn(Padded(d.year, 4, 10), 1);
  }

  lemma DigitIn(ds: string, i: nat)
    requires AllDigitChars(ds, 10) && i < |ds|
    ensures IsDecimalDigit(ds[i])
  {
    assert ds[i] in ds;
  }

  lemma ClockFold(t: Traits, chars: string, time: Time)
    requires IsTime(time)
    ensures Fold(t, chars, ClockText(time)) == t + {Digits, Colon} && Plain(ClockText(time)) && |ClockText(time)| == 8
    ensures IsDecimalDigit(ClockText(time)[0]) && IsDecimalDigit(ClockText(time)[1])
  {
    hide Padded, Fold, AllDigitChars, Pow, Plain;
    Powers10();
    PaddedText(time.hour, 2, 10);
    PaddedText(time.minute, 2, 10);
    PaddedText(time.second, 2, 10);
    FoldThree(t, chars, Padded(time.hour, 2, 10), Padded(time.minute, 2, 10), Padded(time.second, 2, 10), ':');
    DigitIn(Padded(time.hour, 2, 10), 0);
    DigitIn(Padded(time.hour, 2, 10), 1);
  }

  lemma FractionFold(t: Traits, chars: string, ns: nat)
    requires Digits in t && ns <= 999_999_999
    ensures Fold(t, chars, FractionText(ns)) == if ns == 0 then t else t + {Dot}
    ensures Plain(FractionText(ns)) && |FractionText(ns)| <= 10
  {
    hide Padded, FractionText, Pow, AllDigitChars, Plain;
    MinusIsPlain();
    if ns == 0 {
      NoFraction();
    } else {
      var v, digits := FractionParts(ns);
      PaddedText(v, digits, 10);
      FoldSeparator(t, chars, '.', Padded(v, digits, 10));
      FoldDigits(t + {Dot}, chars + ['.'], Padded(v, digits, 10));
      assert t + {Dot} + {Digits} == t + {Dot};
      PlainDigits(Padded(v, digits, 10), 10);
      PlainConcat(".", Padded(v, digits, 10));
    }
  }

  lemma TimeFold(t: Traits, chars: string, time: Time)
    requires IsTime(time)
    ensures Fold(t, chars, TimeText(time)) - {Dot} == (t + {Digits, Colon}) - {Dot}
    ensures Plain(TimeText(time)) && 8 <= |TimeText(time)| <= 18
    ensures IsDecimalDigit(TimeText(time)[0]) && IsDecimalDigit(TimeText(time)[1])
  {
    hide ClockText, FractionText, Fold, Plain;
    ClockFold(t, chars, time);
    FoldConcat(t, chars, ClockText(time), FractionText(time.nanosecond));
    FractionFold(t + {Digits, Colon}, chars + ClockText(time), time.nanosecond);
    PlainConcat(ClockText(time), FractionText(time.nanosecond));
  }

  /** What an offset adds to the traits of a date-time. */
  lemma OffsetFold(t: Traits, chars: string, o: Offset)
    requires IsOffset(o) && {Digits, Minus, Colon} <= t
    ensures Fold(t, chars, OffsetText(o)) == t
         || Fold(t, chars, OffsetText(o)) == t + {Plus} || Fold(t, chars, OffsetText(o)) == t + {LetterZ}
    ensures Plain(OffsetText(o)) && |OffsetText(o)| <= 6
  {
    hide Padded, Plain, AllDigitChars, Pow;
    MinusIsPlain();
    if o.Offset? && o.minutes == 0 {
      FoldChar(t, chars, 'Z');
    } else if o.Offset? {
      hide Fold;
      var mins: nat := if o.minutes < 0 then -o.minutes else o.minutes;
      var sign := if o.minutes < 0 then '-' else '+';
      Powers10();
      var h, m := Padded(mins / 60, 2, 10), Padded(mins % 60, 2, 10);
      PaddedText(mins / 60, 2, 10);
      PaddedText(mins % 60, 2, 10);
      SignedFold(t, chars, sign, h, m);
      assert OffsetText(o) == [sign] + h + ":" + m;
    }
  }

  lemma SignedFold(t: Traits, chars: string, sign: char, h: string, m: string)
    requires (sign == '-' || sign == '+') && {Digits, Minus, Colon} <= t
    requires h != "" && m != "" && AllDigitChars(h, 10) && AllDigitChars(m, 10)
    ensures Fold(t, chars, [sign] + h + ":" + m) == if sign == '-' then t else t + {Plus}
    ensures Plain([sign] + h + ":" + m)
  {
    hide Fold, AllDigitChars, Plain;
    assert [sign] + h + ":" + m == [sign] + (h + ([':'] + m));
    FoldSeparator(t, chars, sign, h + ([':'] + m));
    var t2, chars2 := t + {SeparatorTrait(sign)}, chars + [sign];
    FoldGroup(t2, chars2, h, [':'] + m);
    FoldSeparator(t2 + {Digits}, chars2 + h, ':', m);
    FoldDigits(t2 + {Digits} + {Colon}, chars2 + h + [':'], m);
    assert t + {Minus} + {Digits} + {Colon} + {Digits} == t;
    PlainDigits(h, 10);
    PlainDigits(m, 10);
    SeparatorIsPlain(sign);
    SeparatorIsPlain(':');
    PlainConcat([sign], h + ([':'] + m));
    PlainConcat(h, [':'] + m);
    PlainConcat([':'], m);
  }

  /** Every printed date is recognised and read back. */
  lemma DateReads(src: Source, pos: nat, d: Date)
    requires IsDate(d)
    requires At(src.text, pos, DateText(d)) && ValueEndsAt(src.text, pos + |DateText(d)|)
    ensures DateText(d) != "" && BeginsNumber(DateText(d)[0]) && pos < |src.text| && src.text[pos] == DateText(d)[0]
    ensures NumberAt(src, pos) == Some(Parsed(LocalDate(d), pos + |DateText(d)|))
  {
    hide DateText, At, ScanValue, IsDate, DateAt, Plain, Fold, EndsAt;
    DateFold({}, "", d);
    DateFold(Begins(DateText(d)[0]), "", d);
    TokenScanned(src.text, pos, DateText(d));
    DateExactly(src.text, pos, d);
    KindOfDate(ScanValue(src.text, pos));
  }

  lemma KindOfDate(s: Scanned)
    requires |s.chars| > 1 && IsDecimalDigit(s.chars[0]) && s.chars[1] != '.'
    requires s.traits == Begins(s.chars[0]) + {Digits, Minus}
    ensures KindOf(s) == DateKind
  {
    assert s.traits - {BeginsZero} == {BeginsDigit, Digits, Minus};
  }

  /** Every printed time is recognised and read back. */
  lemma TimeReads(src: Source, pos: nat, t: Time)
    requires IsTime(t)
    requires At(src.text, pos, TimeText(t)) && ValueEndsAt(src.text, pos + |TimeText(t)|)
    ensures TimeText(t) != "" && BeginsNumber(TimeText(t)[0]) && pos < |src.text| && src.text[pos] == TimeText(t)[0]
    ensures NumberAt(src, pos) == Some(Parsed(LocalTime(t), pos + |TimeText(t)|))
  {
    hide TimeText, At, ScanValue, IsTime, TimeAt, Plain, Fold, EndsAt;
    TimeFold({}, "", t);
    TimeFold(Begins(TimeText(t)[0]), "", t);
    TokenScanned(src.text, pos, TimeText(t));
    TimeRoundTrip(src.text, pos, t, false);
    KindOfTime(ScanValue(src.text, pos));
  }

  lemma KindOfTime(s: Scanned)
    requires |s.chars| > 1 && IsDecimalDigit(s.chars[0]) && s.chars[1] != '.'
    requires s.traits - {Dot} == (Begins(s.chars[0]) + {Digits, Colon}) - {Dot}
    ensures KindOf(s) == TimeKind
  {
    var all := Begins(s.chars[0]) + {Digits, Colon, Dot};
    forall x | x in s.traits ensures x in all { assert x == Dot || x in s.traits - {Dot}; }
    assert Colon in s.traits - {Dot} && BeginsDigit in s.traits - {Dot};
    var d := s.traits - {BeginsZero};
    assert Colon in d;
    assert d - {Dot} == {BeginsDigit, Digits, Colon} by {
      assert d - {Dot} == (s.traits - {Dot}) - {BeginsZero};
      assert (Begins(s.chars[0]) + {Digits, Colon}) - {Dot} - {BeginsZero} == {BeginsDigit, Digits, Colon};
    }
  }

  lemma MomentFold(m: DateTime)
    requires IsMoment(m)
    ensures var s := MomentText(m);
            && 19 <= |s| <= 35 && Plain(s) && IsDecimalDigit(s[0]) && IsDecimalDigit(s[1])
            && var d := Fold(Begins(s[0]), "", s) - {BeginsZero, Dot};
               || d == {BeginsDigit, Digits, Minus, Colon, LetterT}
               || d == {BeginsDigit, Digits, Minus, Colon, LetterT, Plus}
               || d == {BeginsDigit, Digits, Minus, Colon, LetterT, LetterZ}
  {
    hide DateText, TimeText, OffsetText, Fold, Plain, IsDate, IsTime, IsOffset;
    var s, d, t, o := MomentText(m), DateText(m.date), TimeText(m.time), OffsetText(m.offset);
    DateFold({}, "", m.date);
    var b := Begins(d[0]);
    DateFold(b, "", m.date);
    assert s == d + (['T'] + (t + o)) && s[0] == d[0] && s[1] == d[1];
    FoldConcat(b, "", d, ['T'] + (t + o));
    FoldSeparator(b + {Digits, Minus}, "" + d, 'T', t + o);
    var b2, chars2 := b + {Digits, Minus} + {LetterT}, "" + d + ['T'];
    FoldConcat(b2, chars2, t, o);
    TimeFold(b2, chars2, m.time);
    var b3 := Fold(b2, chars2, t);
    TimeTraits(b2, b3);
    OffsetFold(b3, chars2 + t, m.offset);
    PlainConcat(d, ['T'] + (t + o));
    PlainConcat(['T'], t + o);
    PlainConcat(t, o);
    SeparatorIsPlain('T');
    MomentTraits(b, b3);
  }

  lemma TimeTraits(b2: Traits, b3: Traits)
    requires b3 - {Dot} == (b2 + {Digits, Colon}) - {Dot} && Minus in b2
    ensures {Digits, Minus, Colon} <= b3
  {
    assert Digits in b3 - {Dot} && Minus in b3 - {Dot} && Colon in b3 - {Dot};
  }

  lemma MomentTraits(b: Traits, b3: Traits)
    requires b == {BeginsDigit} || b == {BeginsDigit, BeginsZero}
    requires b3 - {Dot} == (b + {Digits, Minus} + {LetterT} + {Digits, Colon}) - {Dot}
    ensures b3 - {BeginsZero, Dot} == {BeginsDigit, Digits, Minus, Colon, LetterT}
    ensures (b3 + {Plus}) - {BeginsZero, Dot} == {BeginsDigit, Digits, Minus, Colon, LetterT, Plus}
    ensures (b3 + {LetterZ}) - {BeginsZero, Dot} == {BeginsDigit, Digits, Minus, Colon, LetterT, LetterZ}
  {
    assert b3 - {BeginsZero, Dot} == (b3 - {Dot}) - {BeginsZero};
  }

  /** Every printed date-time is recognised and read back. */
  lemma MomentReads(src: Source, pos: nat, m: DateTime)
    requires IsMoment(m)
    requires At(src.text, pos, MomentText(m)) && ValueEndsAt(src.text, pos + |MomentText(m)|)
    ensures MomentText(m) != "" && BeginsNumber(MomentText(m)[0])
    ensures pos < |src.text| && src.text[pos] == MomentText(m)[0]
    ensures NumberAt(src, pos) == Some(Parsed(Moment(m), pos + |MomentText(m)|))
  {
    hide MomentText, At, ScanValue, IsMoment, MomentAt, Plain, Fold, EndsAt;
    MomentFold(m);
    TokenScanned(src.text, pos, MomentText(m));
    MomentRoundTrip(src.text, pos, m);
    KindOfMoment(ScanValue(src.text, pos));
  }

  lemma KindOfMoment(s: Scanned)
    requires |s.chars| > 2 && IsDecimalDigit(s.chars[0]) && s.chars[1] != '.'
    requires var d := s.traits - {BeginsZero, Dot};
             || d == {BeginsDigit, Digits, Minus, Colon, LetterT}
             || d == {BeginsDigit, Digits, Minus, Colon, LetterT, Plus}
             || d == {BeginsDigit, Digits, Minus, Colon, LetterT, LetterZ}
    ensures KindOf(s) == MomentKind
  {
    var d, dd := s.traits - {BeginsZero}, s.traits - {BeginsZero, Dot};
    assert Minus in dd && Colon in dd && LetterT in dd;
    forall x | x in s.traits ensures x in {BeginsZero, Dot, BeginsDigit, Digits, Minus, Colon, LetterT, Plus, LetterZ} {
      assert x == BeginsZero || x == Dot || x in dd;
    }
    assert d - {Dot} == dd && d - {Dot, Plus} == dd - {Plus};
    assert Minus in d && Colon in d && LetterT in d && LetterT in d - {Dot};
    assert !(LetterT in {BeginsDigit, Digits, Colon});
    if LetterZ in dd { assert LetterZ in dd - {Plus}; }
  }
}
