/** Which numbers `parse_value` of `toml.hpp` misreads, and two documents with such a number. */
module StaleNumbers {
  import opened Blocks
  import opened Characters
  import opened InlineGrammar
  import opened Integers
  import opened Numerals
  import opened PrintedNumbers
  import opened StalePointers
  import opened TomlValues
  import opened ValueKinds
  import opened Wrappers

  /** What `NumberAt` would be if no pointer ever went stale. */
  function NumberByRules(src: Source, pos: nat): Option<Parsed<Value>>
    requires pos < |src.text| && BeginsNumber(src.text[pos])
  {
    var s := ScanValue(src.text, pos);
    match KindOf(s)
    case IntegerKind(base) =>
      if base == 10 && TooLong(src.text, pos, s) then None else
        var n := Integers.Integer(src.text, src.text, pos, base);
        if n.None? then None else Some(Parsed(Integer(n.value.value, FormatOf(base)), n.value.after))
    case _ => NumberAt(src, pos)
  }

  // ---------------------------------------------------------------- decimal integers are not misread

  lemma {:induction false} ScanKeeps(text: string, pos: nat, count: nat, chars: string, t: Traits)
    requires pos < |text|
    ensures t <= ScanFrom(text, pos, count, chars, t).traits
    decreases |text| - pos
  {
    hide TraitOf;
    var c := text[pos];
    if count + 1 < MAX_SCAN && !EndsAt(text, pos + 1) {
      ScanKeeps(text, pos + 1, count + 1, if c == '_' then chars else chars + [c], if c == '_' then t else AddTrait(t, chars, c));
    }
  }

  /** Dates and date-times are no decimal integers. */
  lemma NoDecimal(s: Scanned)
    requires |s.chars| >= 1 && BeginsDigit in s.traits && (Minus in s.traits || LetterT in s.traits)
    ensures KindOf(s) != IntegerKind(10)
  {
    var d := s.traits - {BeginsZero};
    assert Minus in s.traits ==> Minus in d;
    assert LetterT in s.traits ==> LetterT in d;
  }

  /** The look-ahead of a decimal integer stops at the end of the value or at its limit. */
  lemma DecimalScan(text: string, pos: nat)
    requires pos < |text| && BeginsNumber(text[pos]) && KindOf(ScanValue(text, pos)) == IntegerKind(10)
    ensures ScanValue(text, pos) == ScanFrom(text, pos, 0, "", Begins(text[pos]))
  {
    hide ScanFrom, ScanTime, KindOf, Begins;
    var s := ScanFrom(text, pos, 0, "", Begins(text[pos]));
    ScansSomething(text, pos);
    if CouldGoOn(s) {
      CouldGoOnTraits(s);
      NoDecimal(s);
      var p := s.after;
      if p + 2 < |text| && text[p] == ' ' && IsDecimalDigit(text[p + 1]) {
        var t := s.traits + {LetterT};
        assert BeginsDigit in t && LetterT in t;
        ScanKeeps(text, p + 2, p + 2 - pos, s.chars + [' ', text[p + 1]], t);
        NoDecimal(ScanFrom(text, p + 2, p + 2 - pos, s.chars + [' ', text[p + 1]], t));
      }
      TimeScan(text, pos, s);
    }
  }

  lemma CouldGoOnTraits(s: Scanned)
    requires CouldGoOn(s)
    ensures BeginsDigit in s.traits && Minus in s.traits
  {
    assert BeginsDigit in s.traits + {BeginsZero} && Minus in s.traits + {BeginsZero};
  }

  lemma TimeScan(text: string, pos: nat, s: Scanned)
    requires pos < s.after <= |text|
    ensures var p := s.after;
            ScanTime(text, pos, s) == s
            || (p + 2 < |text| && text[p] == ' ' && IsDecimalDigit(text[p + 1])
                && ScanTime(text, pos, s) == ScanFrom(text, p + 2, p + 2 - pos, s.chars + [' ', text[p + 1]], s.traits + {LetterT}))
  {
    hide ScanFrom;
  }

  lemma DecimalEnd(text: string, pos: nat)
    requires pos < |text| && BeginsNumber(text[pos]) && KindOf(ScanValue(text, pos)) == IntegerKind(10)
    requires !TooLong(text, pos, ScanValue(text, pos)) && DigitsFrom(text, pos, 10) < |text|
    ensures TokenEnd(text, DigitsFrom(text, pos, 10)) <= pos + MAX_SCAN
  {
    hide ScanFrom, ScanValue, KindOf, Begins, IsValueTerminator;
    DecimalScan(text, pos);
    ScanStops(text, pos, 0, "", Begins(text[pos]));
    NumbersBegin(text[pos]);
    TokenEndAt(text, pos, ScanValue(text, pos).after);
    TokenEndLater(text, pos);
  }

  lemma NumbersBegin(c: char)
    requires BeginsNumber(c)
    ensures !IsValueTerminator(c)
  {}

  lemma TokenEndLater(text: string, pos: nat)
    requires pos < |text| && !IsValueTerminator(text[pos])
    ensures TokenEnd(text, pos) == TokenEnd(text, pos + 1)
  {}

  /**
    Which numbers are misread, at every place of every document: only binary, octal and hexadecimal
    integers, on exactly the conditions of `Misread`.
  */
  lemma MisreadNumber(src: Source, pos: nat)
    requires pos < |src.text| && BeginsNumber(src.text[pos])
    ensures NumberAt(src, pos) != NumberByRules(src, pos) <==>
            var k := KindOf(ScanValue(src.text, pos));
            && k.IntegerKind? && k.base != 10 && HasPrefix(src.text, pos, k.base) && DigitsFrom(src.text, pos, k.base) < |src.text|
            && var start := DigitsFrom(src.text, pos, k.base);
               var end := TokenEnd(src.text, start);
               RefusedThoughValid(src.text, pos, start, end, k.base) || AcceptedThoughMalformed(src.text, pos, start, end, k.base)
  {
    hide ScanValue, KindOf, TokenEnd, RefusedThoughValid, AcceptedThoughMalformed, HasPrefix, DigitsFrom, Shown;
    var text, k := src.text, KindOf(ScanValue(src.text, pos));
    if k.IntegerKind? {
      NoDigitsNoInteger(text, pos, k.base);
      if HasPrefix(text, pos, k.base) && DigitsFrom(text, pos, k.base) < |text| {
        Misread(text, pos, k.base);
        if k.base == 10 && !TooLong(text, pos, ScanValue(text, pos)) {
          DecimalEnd(text, pos);
          ShortIsNotMisread(text, pos, 10);
        }
      }
    }
  }

  lemma NoDigitsNoInteger(text: string, pos: nat, base: Base)
    requires pos < |text|
    ensures !HasPrefix(text, pos, base) || DigitsFrom(text, pos, base) >= |text| ==>
              Integers.Integer(text, text, pos, base) == None && Integers.Integer(text, Shown(text, pos), pos, base) == None
  {}

  // ---------------------------------------------------------------- blocks of ASCII

  predicate IsAsciiText(text: string) {
    forall i | 0 <= i < |text| :: text[i] < '\U{80}'
  }

  lemma {:induction false} TotalOnes(n: nat)
    ensures Total(seq(n, i => 1)) == n
  {
    if n > 0 {
      assert seq(n, i => 1)[..n - 1] == seq(n - 1, i => 1);
      TotalOnes(n - 1);
    }
  }

  lemma AsciiBlock(text: string, i: nat)
    requires IsAsciiText(text) && i < |text|
    ensures BlockOf(ByteLengths(text), i) == i / BlockCapacity + 1
  {
    var lens := ByteLengths(text);
    assert lens[..i + 1] == seq(i + 1, q => 1);
    TotalOnes(i + 1);
  }

  /** In ASCII every 32nd code point ends a block, and its slot is that of the code point 32 places on. */
  lemma AsciiSlot(text: string, i: nat)
    requires IsAsciiText(text) && i < |text|
    ensures SlotOf(ByteLengths(text), i) ==
            if i + 1 == |text| || (i + 1) % BlockCapacity != 0 then Some(i)
            else if i + BlockCapacity < |text| then Some(i + BlockCapacity) else None
  {
    hide BlockOf;
    var lens := ByteLengths(text);
    var f := FirstOf(lens, i);
    AsciiBlock(text, i);
    AsciiBlock(text, f);
    if f > 0 { AsciiBlock(text, f - 1); }
    assert f == i - i % BlockCapacity;
    if i + 1 < |text| { AsciiBlock(text, i + 1); }
    if i + BlockCapacity < |text| { AsciiBlock(text, i + BlockCapacity); }
  }

  // ---------------------------------------------------------------- two documents

  function Zeros(n: nat): (s: string)
    ensures |s| == n && forall i | 0 <= i < n :: s[i] == '0'
  {
    seq(n, i => '0')
  }

  lemma ZerosAndOne(n: nat)
    requires n < MAX_DIGITS_READ
    ensures AllDigitChars(Zeros(n) + "1", 16) && AllDigitChars(Zeros(n), 16)
    ensures Denotes(Zeros(n) + "1", 16, false) == Some(1)
  {
    hide FromText;
    var ds := Zeros(n) + "1";
    assert ds[n..] == "1";
    ZerosDrop(ds, n, 16);
    Integers.OneDigit("1", 16);
  }

  /** Zeros, underscores and a one have these digits. */
  lemma DigitsOfOne(text: string, start: nat, n: nat, end: nat)
    requires start + n < end < |text| && text[end] == '1'
    requires forall i | start <= i < start + n :: text[i] == '0'
    requires forall i | start + n <= i < end :: text[i] == '_'
    ensures Integers.Digits(text[start..end + 1]) == Zeros(n) + "1"
  {
    hide Integers.Digits;
    assert text[start..start + n] == Zeros(n);
    DigitsOfDigits(Zeros(n));
    var e := start + n;
    while e < end
      invariant start + n <= e <= end && Integers.Digits(text[start..e]) == Zeros(n)
    {
      DigitsStep(text, start, e);
      e := e + 1;
    }
    DigitsStep(text, start, end);
  }

  /** The look-ahead takes a prefix and many zeros for a hexadecimal integer before it gets any further. */
  lemma HexScan(text: string, pos: nat)
    requires At(text, pos, "0x" + Zeros(125))
    ensures pos < |text| && text[pos] == '0' && KindOf(ScanValue(text, pos)) == IntegerKind(16)
  {
    hide Fold, ScanFrom, KindOf, At, IsValueTerminator, BeginsNumber, Begins, AllDigitChars, Zeros, AddTrait;
    var s := "0x" + Zeros(125);
    ZerosAndOne(125);
    PrintedNumbers.PlainDigits(Zeros(125), 16);
    MinusIsPlain();
    PlainConcat("0x", Zeros(125));
    AtCharOf(text, pos, s, 0);
    ScanFolds(text, pos, 0, "", Begins('0'), s);
    assert "" + s == s;
    FoldPrefix(16, Zeros(125));
    KindOfPrefixed(Scanned(Fold(Begins('0'), "", s), s, pos + |s|), 16);
  }

  lemma OneIsRead(text: string, pos: nat, n: nat, end: nat)
    requires pos + 2 + n < end < |text| && text[pos] == '0' && text[pos + 1] == 'x' && text[end] == '1' && 0 < n < MAX_DIGITS_READ
    requires forall i | pos + 2 <= i < pos + 2 + n :: text[i] == '0'
    requires forall i | pos + 2 + n <= i < end :: text[i] == '_'
    requires EndsAt(text, end + 1)
    ensures HasPrefix(text, pos, 16) && DigitsFrom(text, pos, 16) == pos + 2 && TokenEnd(text, pos + 2) == end + 1
    ensures AllDigitChars(Integers.Digits(text[pos + 2..end + 1]), 16) && Denotes(Integers.Digits(text[pos + 2..end + 1]), 16, false) == Some(1)
    ensures InRange(text, pos, pos + 2, end + 1, 16) && Loose(text, pos + 2, end + 1, 16)
  {
    hide Denotes, Integers.Digits;
    assert text[pos..pos + 2] == "0x";
    TokenEndAt(text, pos + 2, end + 1);
    DigitsOfOne(text, pos + 2, n, end);
    ZerosAndOne(n);
    forall i | pos + 2 <= i < end + 1 ensures IsDigitChar(text[i], 16) || text[i] == '_' {
      assert i < pos + 2 + n || i < end || i == end;
    }
  }

  /** A prefix, zeros up to the end of a block, an underscore and a one before a short end of the file. */
  lemma RefusedAt(text: string)
    requires IsAsciiText(text) && |text| == 162
    requires text[32] == '0' && text[33] == 'x' && (forall i | 34 <= i < 160 :: text[i] == '0') && text[160] == '_' && text[161] == '1'
    ensures Integers.Integer(text, text, 32, 16) == Some(Parsed(1, 162))
    ensures Integers.Integer(text, Shown(text, 32), 32, 16) == None
  {
    hide SlotOf, TokenEnd, Integers.Digits, Denotes, IsDigitChar, InRange, Loose, Shown, IsAsciiText;
    DigitsOfOneChars();
    OneIsRead(text, 32, 126, 161);
    AsciiSlot(text, 159);
    assert BetweenDigits(text, 34, 162, 160, 16);
    assert Spaced(text, 34, 162, 16);
    assert Hidden(text, 32, 162, 16, 159);
    Misread(text, 32, 16);
  }

  /** A prefix, zeros, two underscores around the end of a block and a one, where the next block ends in a digit. */
  lemma AcceptedAt(text: string)
    requires IsAsciiText(text) && |text| == 192
    requires text[32] == '0' && text[33] == 'x' && (forall i | 34 <= i < 159 :: text[i] == '0')
    requires text[159] == '_' && text[160] == '_' && text[161] == '1' && text[162] == '\n' && text[191] == '0'
    ensures Integers.Integer(text, text, 32, 16) == None
    ensures Integers.Integer(text, Shown(text, 32), 32, 16) == Some(Parsed(1, 162))
  {
    hide SlotOf, TokenEnd, Integers.Digits, Denotes, IsDigitChar, InRange, Loose, Shown, IsAsciiText;
    DigitsOfOneChars();
    OneIsRead(text, 32, 125, 161);
    AsciiSlot(text, 159);
    AsciiSlot(text, 161);
    assert !BetweenDigits(text, 34, 162, 159, 16);
    assert !Spaced(text, 34, 162, 16);
    assert Covered(text, 32, 34, 162, 16);
    Misread(text, 32, 16);
  }

  lemma DigitsOfOneChars()
    ensures IsDigitChar('0', 16) && IsDigitChar('1', 16) && !IsDigitChar('\0', 16) && !IsDigitChar('_', 16)
  {}

  lemma ScalarIsNumber(src: Source, pos: nat)
    requires pos < |src.text| && src.text[pos] == '0'
    ensures ScalarAt(src, pos) == NumberAt(src, pos)
  {
    hide ScanValue, KindOf, Shown;
  }

  lemma HexNumber(src: Source, pos: nat)
    requires pos < |src.text| && src.text[pos] == '0' && KindOf(ScanValue(src.text, pos)) == IntegerKind(16)
    ensures var n := Integers.Integer(src.text, Shown(src.text, pos), pos, 16);
            NumberAt(src, pos) == if n.None? then None else Some(Parsed(Integer(n.value.value, Hexadecimal), n.value.after))
    ensures var n := Integers.Integer(src.text, src.text, pos, 16);
            NumberByRules(src, pos) == if n.None? then None else Some(Parsed(Integer(n.value.value, Hexadecimal), n.value.after))
  {
    hide ScanValue, Shown, Integers.Integer;
  }

  /**
    A valid number that is refused, in any ASCII document whose first 32 code points are before it:
    0x, 126 zeros and _1 at the end of the file.
  */
  lemma RefusedInput(lead: string, floats: FloatParser)
    requires IsAsciiText(lead) && |lead| == 32
    ensures var src := Source(lead + "0x" + Zeros(126) + "_1", floats);
            ScalarAt(src, 32) == None && NumberByRules(src, 32) == Some(Parsed(Integer(1, Hexadecimal), 162))
  {
    hide ScanValue, KindOf, Shown, Integers.Integer, ScalarAt, NumberAt, NumberByRules;
    var src := Source(lead + "0x" + Zeros(126) + "_1", floats);
    assert src.text[32..32 + 127] == "0x" + Zeros(125);
    HexScan(src.text, 32);
    ScalarIsNumber(src, 32);
    HexNumber(src, 32);
    RefusedAt(src.text);
  }

  /**
    A malformed number that is accepted: 0x, 125 zeros and __1, where the code point 32 places behind
    the first underscore, in a comment, is a digit.
  */
  lemma AcceptedInput(lead: string, floats: FloatParser)
    requires IsAsciiText(lead) && |lead| == 32
    ensures var src := Source(lead + "0x" + Zeros(125) + "__1" + "\n#" + Zeros(28), floats);
            ScalarAt(src, 32) == Some(Parsed(Integer(1, Hexadecimal), 162)) && NumberByRules(src, 32) == None
  {
    hide ScanValue, KindOf, Shown, Integers.Integer, ScalarAt, NumberAt, NumberByRules;
    var src := Source(lead + "0x" + Zeros(125) + "__1" + "\n#" + Zeros(28), floats);
    assert src.text[32..32 + 127] == "0x" + Zeros(125);
    HexScan(src.text, 32);
    ScalarIsNumber(src, 32);
    HexNumber(src, 32);
    AcceptedAt(src.text);
  }
}
