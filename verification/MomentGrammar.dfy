/** The times and date-times of TOML as a grammar, and that the parsers of `toml.hpp` read exactly them. */
module MomentGrammar {
  import opened Characters
  import opened DateTimes
  import opened Integers
  import opened MomentSpellings
  import opened Numerals
  import opened TomlValues
  import opened Wrappers

  /** The fraction of a second: nothing, or a dot and at most 64 digits, of which the first nine count. */
  ghost predicate IsFraction(f: string, ns: nat) {
    if f == "" then ns == 0
    else
      && f[0] == '.' && 1 <= |f[1..]| <= MAX_FRACTION && AllDigitChars(f[1..], 10)
      && AllDigitChars(f[1..], 16) && ns == Fraction(DigitValues(f[1..]))
  }

  /** What stands behind the time of a date-time: nothing, `Z` or `z`, or hours and minutes behind a sign. */
  predicate IsZone(z: string, o: Offset) {
    match o
    case NoOffset => z == ""
    case Offset(mins) =>
      || (mins == 0 && (z == "Z" || z == "z"))
      || (0 <= mins <= 1439 && z == "+" + HoursText(mins))
      || (-1439 <= mins <= 0 && z == "-" + HoursText(-mins))
  }

  function HoursText(mins: nat): string {
    Padded(mins / 60, 2, 10) + ":" + Padded(mins % 60, 2, 10)
  }

  predicate IsDateTimeSeparator(c: char) {
    c == 'T' || c == 't' || c == ' '
  }

  // ---------------------------------------------------------------- times

  lemma FractionReads(text: string, pos: nat, f: string, ns: nat, inMoment: bool)
    requires IsFraction(f, ns) && At(text, pos, f) && TimeEndsAt(text, pos + |f|, inMoment)
    ensures FractionAt(text, pos, inMoment) == Some(Parsed(ns, pos + |f|))
  {
    hide Fraction, TimeEndsAt, At, AllDigitChars;
    if f != "" {
      assert f == "." + f[1..];
      AllDecimal(f[1..]);
      FractionIsRead(text, pos, f[1..], inMoment);
    }
  }

  lemma AllDecimal(s: string)
    requires AllDigitChars(s, 10)
    ensures forall c | c in s :: IsDecimalDigit(c)
  {}

  lemma ReadFraction(text: string, pos: nat, inMoment: bool) returns (f: string)
    requires pos <= |text| && FractionAt(text, pos, inMoment).Some?
    ensures var r := FractionAt(text, pos, inMoment).value; IsFraction(f, r.value) && At(text, pos, f) && r.after == pos + |f|
  {
    hide Fraction, FractionOf, AllDigitChars;
    if TimeEndsAt(text, pos, inMoment) {
      f := "";
    } else {
      var end := RunEnd(text, pos + 1);
      f := text[pos..end];
      assert f[1..] == text[pos + 1..end];
      FractionIs(text, pos + 1, end);
      RunDigits(text, pos + 1, end);
    }
  }

  lemma ClockReads(text: string, pos: nat, t: Time, inMoment: bool)
    requires t.hour <= 23 && t.minute <= 59 && t.second <= 59
    ensures At(text, pos, ClockText(t)) && |ClockText(t)| == 8 ==>
              TimeAt(text, pos, inMoment) ==
              var f := FractionAt(text, pos + 8, inMoment);
              if f.None? then None else Some(Parsed(t.(nanosecond := f.value.value), f.value.after))
  {
    hide Number, At, FractionAt, ClockText;
    ClockExactly(text, pos, t);
  }

  /** Every time of the grammar is read. */
  lemma TimeIsRead(text: string, pos: nat, t: Time, f: string, inMoment: bool)
    requires IsTime(t) && IsFraction(f, t.nanosecond) && At(text, pos, ClockText(t) + f)
    requires TimeEndsAt(text, pos + |ClockText(t) + f|, inMoment)
    ensures TimeAt(text, pos, inMoment) == Some(Parsed(t, pos + |ClockText(t) + f|))
  {
    hide At, ClockText, TimeAt, FractionAt, TimeEndsAt, IsFraction;
    ClockTextLength(t);
    AtConcat(text, pos, ClockText(t), f);
    FractionReads(text, pos + 8, f, t.nanosecond, inMoment);
    ClockReads(text, pos, t, inMoment);
  }

  /** Every time that is read is one of the grammar. */
  lemma ReadTime(text: string, pos: nat, inMoment: bool) returns (f: string)
    requires TimeAt(text, pos, inMoment).Some?
    ensures var r := TimeAt(text, pos, inMoment).value;
            IsTime(r.value) && IsFraction(f, r.value.nanosecond) && At(text, pos, ClockText(r.value) + f)
            && r.after == pos + |ClockText(r.value) + f|
  {
    hide At, ClockText, FractionAt, Number, IsFraction;
    var t := TimeAt(text, pos, inMoment).value.value;
    ClockTextLength(t);
    ClockExactly(text, pos, t);
    ClockBounds(text, pos, t);
    f := ReadFraction(text, pos + 8, inMoment);
    AtConcat(text, pos, ClockText(t), f);
  }

  lemma ClockBounds(text: string, pos: nat, t: Time)
    requires At(text, pos, ClockText(t)) && |ClockText(t)| == 8
    ensures pos + 8 <= |text|
  {
    hide ClockText;
  }

  // ---------------------------------------------------------------- offsets

  lemma HoursThere(text: string, pos: nat, h: nat, m: nat)
    requires h <= 23 && m <= 59
    ensures |HoursText(h * 60 + m)| == 5
    ensures At(text, pos, HoursText(h * 60 + m)) <==>
              Number(text, pos, 2) == Some(h) && At(text, pos + 2, ":") && Number(text, pos + 3, 2) == Some(m)
  {
    hide Padded, Number, At, Pow;
    Powers10();
    assert (h * 60 + m) / 60 == h && (h * 60 + m) % 60 == m;
    PaddedText(h, 2, 10);
    PaddedText(m, 2, 10);
    NumberIff(text, pos, 2, h);
    NumberIff(text, pos + 3, 2, m);
    AtConcat(text, pos, Padded(h, 2, 10) + ":", Padded(m, 2, 10));
    AtConcat(text, pos, Padded(h, 2, 10), ":");
  }

  /** A signed offset is read exactly where its hours and minutes stand. */
  lemma SignedIs(text: string, pos: nat, sign: int, mins: nat)
    requires (sign == 1 || sign == -1) && mins <= 1439
    ensures At(text, pos, HoursText(mins)) <==> SignedOffset(text, pos, sign) == Some(Parsed(Offset(mins * sign), pos + 5))
    ensures |HoursText(mins)| == 5
  {
    hide HoursText, Number, At;
    HoursThere(text, pos, mins / 60, mins % 60);
    assert mins / 60 * 60 + mins % 60 == mins;
    var r := SignedOffset(text, pos, sign);
    if r == Some(Parsed(Offset(mins * sign), pos + 5)) {
      var h, m := Number(text, pos, 2).value, Number(text, pos + 3, 2).value;
      assert (h * 60 + m) * sign == mins * sign;
      assert h * 60 + m == mins;
    }
  }

  lemma SignedBound(text: string, pos: nat, sign: int)
    requires (sign == 1 || sign == -1) && SignedOffset(text, pos, sign).Some?
    ensures var r := SignedOffset(text, pos, sign).value; r.value.Offset? && 0 <= r.value.minutes * sign <= 1439
  {
    hide Number, At;
  }

  lemma OffsetIsRead(text: string, pos: nat, z: string, o: Offset)
    requires IsZone(z, o) && At(text, pos, z) && EndsAt(text, pos + |z|)
    ensures OffsetAt(text, pos) == Some(Parsed(o, pos + |z|))
    ensures TimeEndsAt(text, pos, true)
  {
    hide HoursText, SignedOffset, At, EndsAt;
    if z != "" {
      AtCharOf(text, pos, z, 0);
      ZoneBegins(text, pos, z);
      AtConcat(text, pos, z[..1], z[1..]);
      assert z == z[..1] + z[1..];
      if z[0] == '+' || z[0] == '-' {
        var mins: nat := if o.minutes < 0 then -o.minutes else o.minutes;
        assert z[1..] == HoursText(mins);
        SignedIs(text, pos + 1, if z[0] == '-' then -1 else 1, mins);
      }
    }
  }

  lemma ZoneBegins(text: string, pos: nat, z: string)
    requires z != "" && At(text, pos, z) && (z[0] == '+' || z[0] == '-' || z[0] == 'Z' || z[0] == 'z')
    ensures pos < |text| && text[pos] == z[0] && !EndsAt(text, pos)
  {
    AtCharOf(text, pos, z, 0);
  }

  lemma ReadOffset(text: string, pos: nat) returns (z: string)
    requires pos <= |text| && OffsetAt(text, pos).Some?
    ensures var r := OffsetAt(text, pos).value; IsZone(z, r.value) && At(text, pos, z) && r.after == pos + |z|
  {
    hide HoursText, SignedOffset, At, EndsAt;
    var r := OffsetAt(text, pos).value;
    if EndsAt(text, pos) {
      z := "";
      NothingThere(text, pos);
    } else {
      InText(text, pos);
      z := [text[pos]];
      AtChar(text, pos, text[pos]);
      if text[pos] == '-' || text[pos] == '+' {
        var sign := if text[pos] == '-' then -1 else 1;
        SignedBound(text, pos + 1, sign);
        var mins: nat := r.value.minutes * sign;
        SignedEnd(text, pos + 1);
        SignedIs(text, pos + 1, sign, mins);
        AtConcat(text, pos, z, HoursText(mins));
        z := z + HoursText(mins);
      }
    }
  }

  lemma NothingThere(text: string, pos: nat)
    requires pos <= |text|
    ensures At(text, pos, "")
  {}

  lemma InText(text: string, pos: nat)
    requires !EndsAt(text, pos)
    ensures pos < |text|
  {}

  // ---------------------------------------------------------------- date-times

  /** A date-time: date, separator, clock, fraction and zone. */
  function MomentWritten(m: DateTime, sep: char, f: string, z: string): string {
    DateText(m.date) + ([sep] + ((ClockText(m.time) + f) + z))
  }

  /** Every date-time of the grammar is read. */
  lemma MomentIsRead(text: string, pos: nat, m: DateTime, sep: char, f: string, z: string)
    requires IsMoment(m) && IsDateTimeSeparator(sep) && IsFraction(f, m.time.nanosecond) && IsZone(z, m.offset)
    requires At(text, pos, MomentWritten(m, sep, f, z)) && EndsAt(text, pos + |MomentWritten(m, sep, f, z)|)
    ensures MomentAt(text, pos) == Some(Parsed(m, pos + |MomentWritten(m, sep, f, z)|))
  {
    hide At, DateText, ClockText, DateAt, TimeAt, OffsetAt, EndsAt, IsFraction, IsZone, IsDate, IsTime, TimeEndsAt;
    var d, t := DateText(m.date), ClockText(m.time) + f;
    DateTextLength(m.date);
    AtConcat(text, pos, d, [sep] + (t + z));
    AtConcat(text, pos + 10, [sep], t + z);
    AtConcat(text, pos + 11, t, z);
    AtChar(text, pos + 10, sep);
    DateExactly(text, pos, m.date);
    OffsetIsRead(text, pos + 11 + |t|, z, m.offset);
    TimeIsRead(text, pos + 11, m.time, f, true);
  }

  /** Every date-time that is read is one of the grammar. */
  lemma ReadMoment(text: string, pos: nat) returns (sep: char, f: string, z: string)
    requires MomentAt(text, pos).Some?
    ensures var r := MomentAt(text, pos).value;
            && IsMoment(r.value) && IsDateTimeSeparator(sep) && IsFraction(f, r.value.time.nanosecond)
            && IsZone(z, r.value.offset) && At(text, pos, MomentWritten(r.value, sep, f, z))
            && r.after == pos + |MomentWritten(r.value, sep, f, z)|
  {
    hide At, DateText, ClockText, DateAt, TimeAt, OffsetAt, EndsAt, IsFraction, IsZone;
    var m := MomentAt(text, pos).value.value;
    sep := text[pos + 10];
    f := ReadTime(text, pos + 11, true);
    var t := ClockText(m.time) + f;
    z := ReadOffset(text, pos + 11 + |t|);
    DateTextLength(m.date);
    DateExactly(text, pos, m.date);
    AtChar(text, pos + 10, sep);
    AtConcat(text, pos + 11, t, z);
    AtConcat(text, pos + 10, [sep], t + z);
    AtConcat(text, pos, DateText(m.date), [sep] + (t + z));
  }
}
