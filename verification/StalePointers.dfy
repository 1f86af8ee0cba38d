/**
  `parse_integer` of `toml.hpp` keeps a pointer to the code point before the current one. The
  look-ahead has copied the first 127 code points of the value into the reader's history, where they
  stay; behind them the pointer is into the block that is being read, and when the current code
  point has brought in the next block it shows what that block has put into the slot.
*/
module StalePointers {
  import opened Blocks
  import opened Characters
  import opened Integers
  import opened Numerals
  import ValueKinds
  import opened Wrappers
  import Utf8
  import opened Utf8Readers

  /** How many bytes UTF-8 takes for a character. */
  function ByteLength(c: char): nat {
    if c < '\U{80}' then 1 else if c < '\U{800}' then 2 else if c < '\U{10000}' then 3 else 4
  }

  function ByteLengths(text: string): (lens: seq<nat>)
    ensures |lens| == |text|
  {
    seq(|text|, i requires 0 <= i < |text| => ByteLength(text[i]))
  }

  /** What a pointer to the slot of the `i`-th code point shows once the code point behind it has been read. */
  function SlotShows(text: string, i: nat): char
    requires i < |text|
  {
    match SlotOf(ByteLengths(text), i)
    case None => '\0'
    case Some(j) => text[j]
  }

  /** What the parser's pointers into a value that begins at `pos` show. */
  function Shown(text: string, pos: nat): (s: string)
    ensures |s| == |text|
  {
    seq(|text|, i requires 0 <= i < |text| => if i < pos + ValueKinds.MAX_SCAN then text[i] else SlotShows(text, i))
  }

  // ---------------------------------------------------------------- the layout is that of the reader

  ghost predicate AllScalars(t: seq<CodePoint>) {
    forall i | 0 <= i < |t| :: Utf8.IsScalar(t[i].value)
  }

  function AsString(t: seq<CodePoint>): (s: string)
    requires AllScalars(t)
    ensures |s| == |t|
  {
    seq(|t|, i requires 0 <= i < |t| => t[i].value as char)
  }

  lemma {:induction false} CharsAt(cps: seq<nat>, i: nat)
    requires Utf8.Scalars(cps) && i < |cps|
    ensures |Utf8.Chars(cps)| == |cps|
    ensures Utf8.IsScalar(cps[i]) && Utf8.Chars(cps)[i] == Utf8.Char(cps[i], Utf8.EncodeScalar(cps[i]))
    decreases |cps|
  {
    assert cps[0] in cps;
    if |cps| > 1 { CharsAt(cps[1..], if i == 0 then 0 else i - 1); }
  }

  /** The slots of the reader show what the string of a text, on its own, says they show. */
  lemma ReaderShows(source: seq<Utf8.Byte>, i: nat)
    requires Text(source).Some? && i < |Text(source).value|
    ensures AllScalars(Text(source).value)
    ensures ShownAt(Text(source).value, i) == SlotShows(AsString(Text(source).value), i) as int
  {
    var t := Text(source).value;
    var cps := Utf8.Decode(Body(source)).value;
    Utf8.EncodeDecode(Body(source));
    LocateLengths(Utf8.Chars(cps), Origin);
    hide Utf8.Decode, Utf8.Chars, Utf8.EncodeScalar, Locate, SlotOf;
    forall q | 0 <= q < |t| ensures Utf8.IsScalar(t[q].value) && |t[q].bytes| == ByteLength(t[q].value as char) {
      assert Utf8.Char(t[q].value, t[q].bytes) == CharsOf(t)[q];
      NoChars(cps);
      CharsAt(cps, q);
      EncodedLength(cps[q]);
    }
    assert Lengths(CharsOf(t)) == ByteLengths(AsString(t));
  }

  lemma NoChars(cps: seq<nat>)
    requires Utf8.Scalars(cps)
    ensures cps == [] ==> Utf8.Chars(cps) == []
    ensures cps != [] ==> |Utf8.Chars(cps)| == |cps|
  {
    if cps != [] { CharsAt(cps, 0); }
  }

  lemma EncodedLength(v: nat)
    requires Utf8.IsScalar(v)
    ensures |Utf8.EncodeScalar(v)| == ByteLength(v as char)
  {}

  // ---------------------------------------------------------------- what is misread

  /** A pointer that does not show its code point any more: behind the look-ahead, at the end of a block. */
  predicate IsStale(text: string, pos: nat, i: nat)
    requires i < |text|
  {
    i >= pos + ValueKinds.MAX_SCAN && SlotOf(ByteLengths(text), i) != Some(i)
  }

  predicate IsShownAsDigit(text: string, pos: nat, i: nat, base: Base)
    requires i < |text|
  {
    IsDigitChar(if IsStale(text, pos, i) then SlotShows(text, i) else text[i], base)
  }

  predicate IsShownAsUnderscore(text: string, pos: nat, i: nat)
    requires i < |text|
  {
    (if IsStale(text, pos, i) then SlotShows(text, i) else text[i]) == '_'
  }

  /** Digits with single underscores between them. */
  predicate Spaced(text: string, start: nat, end: nat, base: Base)
    requires end <= |text|
  {
    start < end && forall i | start <= i < end :: IsDigitChar(text[i], base) || BetweenDigits(text, start, end, i, base)
  }

  /** Digits and underscores in any order behind a digit. */
  predicate Loose(text: string, start: nat, end: nat, base: Base)
    requires end <= |text|
  {
    && start < end && IsDigitChar(text[start], base)
    && forall i | start <= i < end :: IsDigitChar(text[i], base) || text[i] == '_'
  }

  /** The digits denote a number that is in range. */
  predicate InRange(text: string, pos: nat, start: nat, end: nat, base: Base)
    requires pos < |text| && start <= end <= |text|
  {
    var ds := Digits(text[start..end]);
    AllDigitChars(ds, base) && Denotes(ds, base, Negative(text, pos, base)).Some?
  }

  /**
    A digit whose pointer is stale stands before an underscore and is not shown as a digit, or it is
    the last one and shown as an underscore.
  */
  predicate Hidden(text: string, pos: nat, end: nat, base: Base, i: nat)
    requires i < end <= |text|
  {
    && IsStale(text, pos, i)
    && if i + 1 < end then text[i + 1] == '_' && !IsShownAsDigit(text, pos, i, base) else IsShownAsUnderscore(text, pos, i)
  }

  /** Every underscore stands behind something shown as a digit, and the last code point is not shown as an underscore. */
  predicate Covered(text: string, pos: nat, start: nat, end: nat, base: Base)
    requires end <= |text|
  {
    && (forall i | start <= i < end - 1 :: text[i + 1] == '_' ==> IsShownAsDigit(text, pos, i, base))
    && (start < end ==> !IsShownAsUnderscore(text, pos, end - 1) && (end == |text| ==> text[end - 1] != '_'))
  }

  predicate RefusedThoughValid(text: string, pos: nat, start: nat, end: nat, base: Base)
    requires pos < |text| && start <= end <= |text|
  {
    && Spaced(text, start, end, base) && InRange(text, pos, start, end, base)
    && exists i | start <= i < end :: Hidden(text, pos, end, base, i)
  }

  predicate AcceptedThoughMalformed(text: string, pos: nat, start: nat, end: nat, base: Base)
    requires pos < |text| && start <= end <= |text|
  {
    && Loose(text, start, end, base) && InRange(text, pos, start, end, base)
    && !Spaced(text, start, end, base) && Covered(text, pos, start, end, base)
  }

  lemma ShownIs(text: string, pos: nat, i: nat)
    requires i < |text|
    ensures Shown(text, pos)[i] == if IsStale(text, pos, i) then SlotShows(text, i) else text[i]
  {}

  /** What `parse_integer` accepts, in terms of the text and the position alone. */
  lemma AcceptsSpaced(text: string, pos: nat, start: nat, end: nat, base: Base)
    requires start < end <= |text|
    ensures WellSpaced(text, text, start, end, base) <==> Spaced(text, start, end, base)
    ensures WellSpaced(text, Shown(text, pos), start, end, base) <==>
            Loose(text, start, end, base) && Covered(text, pos, start, end, base)
  {
    hide IsStale, SlotShows, Shown, IsDigitChar;
    UnderscoresBetweenDigits(text, start, end, base);
    DigitsNotTerminators('_', base);
    var shown := Shown(text, pos);
    forall i | start <= i < end
      ensures IsDigitChar(shown[i], base) == IsShownAsDigit(text, pos, i, base)
      ensures (shown[i] == '_') == IsShownAsUnderscore(text, pos, i)
    {
      ShownIs(text, pos, i);
    }
    if WellSpaced(text, shown, start, end, base) {
      forall i | start <= i < end - 1 ensures text[i + 1] == '_' ==> IsShownAsDigit(text, pos, i, base) {
        assert GoesOnAt(text, shown, start, i + 1, base);
      }
      forall i | start <= i < end ensures IsDigitChar(text[i], base) || text[i] == '_' {
        assert GoesOnAt(text, shown, start, i, base);
      }
      assert Loose(text, start, end, base) && Covered(text, pos, start, end, base);
    }
    if Loose(text, start, end, base) && Covered(text, pos, start, end, base) {
      forall i | start <= i < end ensures GoesOnAt(text, shown, start, i, base) {
        if i > start && text[i] == '_' { assert text[i - 1 + 1] == '_' ==> IsShownAsDigit(text, pos, i - 1, base); }
      }
      assert WellSpaced(text, shown, start, end, base);
    }
  }

  /** A valid number is refused exactly where some digit is hidden. */
  lemma CoveredUnlessHidden(text: string, pos: nat, start: nat, end: nat, base: Base)
    requires end <= |text| && Spaced(text, start, end, base)
    ensures Loose(text, start, end, base)
    ensures Covered(text, pos, start, end, base) <==> !exists i | start <= i < end :: Hidden(text, pos, end, base, i)
  {
    hide IsStale, SlotShows, IsDigitChar;
    DigitsNotTerminators('_', base);
    if !(exists i | start <= i < end :: Hidden(text, pos, end, base, i)) && !Covered(text, pos, start, end, base) {
      if i :| start <= i < end - 1 && text[i + 1] == '_' && !IsShownAsDigit(text, pos, i, base) {
        assert BetweenDigits(text, start, end, i + 1, base);
        assert Hidden(text, pos, end, base, i);
      } else {
        assert !BetweenDigits(text, start, end, end - 1, base);
        assert Hidden(text, pos, end, base, end - 1);
      }
    }
  }

  lemma InRangeIs(text: string, pos: nat, start: nat, end: nat, base: Base)
    requires pos < |text| && start <= end <= |text|
    requires AllDigitChars(Digits(text[start..end]), base)
    ensures InRange(text, pos, start, end, base) <==> Denotes(Digits(text[start..end]), base, Negative(text, pos, base)).Some?
  {}

  /**
    Where `parse_integer` does not do what the rules of TOML ask for: it refuses a valid number, or
    accepts a malformed one, exactly under these conditions on the text and the position.
  */
  lemma Misread(text: string, pos: nat, base: Base)
    requires pos < |text| && HasPrefix(text, pos, base) && DigitsFrom(text, pos, base) < |text|
    ensures var start := DigitsFrom(text, pos, base);
            var end := TokenEnd(text, start);
            var read, valid := Integer(text, Shown(text, pos), pos, base), Integer(text, text, pos, base);
            && (valid.Some? && read.None? <==> RefusedThoughValid(text, pos, start, end, base))
            && (valid.None? && read.Some? <==> AcceptedThoughMalformed(text, pos, start, end, base))
            && (read != valid <==>
                  RefusedThoughValid(text, pos, start, end, base) || AcceptedThoughMalformed(text, pos, start, end, base))
  {
    hide IsStale, SlotShows, Shown, IsDigitChar, TokenEnd, WellSpaced, Loose, Covered, Spaced, Denotes, Digits, InRange, Hidden, AllDigitChars;
    var start := DigitsFrom(text, pos, base);
    var end := TokenEnd(text, start);
    if start == end {
      EmptyToken(text, pos, start, base);
    } else {
      AcceptsSpaced(text, pos, start, end, base);
      if WellSpaced(text, text, start, end, base) {
        SpacedDigits(text, text, start, base);
        InRangeIs(text, pos, start, end, base);
        CoveredUnlessHidden(text, pos, start, end, base);
      } else if WellSpaced(text, Shown(text, pos), start, end, base) {
        SpacedDigits(text, Shown(text, pos), start, base);
        InRangeIs(text, pos, start, end, base);
      }
    }
  }

  lemma EmptyToken(text: string, pos: nat, end: nat, base: Base)
    requires end <= |text|
    ensures !WellSpaced(text, text, end, end, base) && !WellSpaced(text, Shown(text, pos), end, end, base)
    ensures !Spaced(text, end, end, base) && !Loose(text, end, end, base)
  {}

  /** A value that the look-ahead passes to its end is never misread. */
  lemma ShortIsNotMisread(text: string, pos: nat, base: Base)
    requires pos < |text| && HasPrefix(text, pos, base) && DigitsFrom(text, pos, base) < |text|
    requires TokenEnd(text, DigitsFrom(text, pos, base)) <= pos + ValueKinds.MAX_SCAN
    ensures Integer(text, Shown(text, pos), pos, base) == Integer(text, text, pos, base)
  {
    hide SlotOf, IsDigitChar, TokenEnd, WellSpaced, Loose, Denotes, Digits, InRange;
    Misread(text, pos, base);
    var start := DigitsFrom(text, pos, base);
    var end := TokenEnd(text, start);
    assert forall i | start <= i < end :: !IsStale(text, pos, i);
    if Loose(text, start, end, base) && Covered(text, pos, start, end, base) {
      hide IsStale;
      NotStaleIsSpaced(text, pos, start, end, base);
    }
  }

  lemma NotStaleIsSpaced(text: string, pos: nat, start: nat, end: nat, base: Base)
    requires end <= |text| && Loose(text, start, end, base) && Covered(text, pos, start, end, base)
    requires forall i | start <= i < end :: !IsStale(text, pos, i)
    ensures Spaced(text, start, end, base)
  {
    hide IsStale, SlotShows, IsDigitChar;
    DigitsNotTerminators('_', base);
    forall i | start <= i < end ensures IsDigitChar(text[i], base) || BetweenDigits(text, start, end, i, base) {
      if text[i] == '_' {
        assert i > start;
        assert text[i - 1 + 1] == '_' ==> IsShownAsDigit(text, pos, i - 1, base);
        assert i + 1 < end ==> (text[i + 1] == '_' ==> IsShownAsDigit(text, pos, i, base));
      }
    }
  }
}
