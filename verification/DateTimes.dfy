/** Dates, times and date-times of `toml.hpp`: printing and parsing them. */
module DateTimes {
  import opened Characters
  import opened Numerals
  import opened TomlValues
  import opened Wrappers
  import opened Integers

  const U32: nat := 0x1_0000_0000

  // ---------------------------------------------------------------- numbers of a fixed width

  /** The number that exactly `n` decimal digits at `pos` denote. */
  function Number(text: string, pos: nat, n: nat): Option<nat> {
    if pos + n <= |text| && AllDigitChars(text[pos..pos + n], 10) then Some(FromText(text[pos..pos + n], 10)) else None
  }

  /** Digits of the same number that denote the same value are the same. */
  lemma {:induction false} SameDigits(a: seq<nat>, b: seq<nat>)
    requires |a| == |b| && IsDigits(a, 10) && IsDigits(b, 10) && FromDigits(a, 10) == FromDigits(b, 10)
    ensures a == b
  {
    if a != [] {
      var n := |a| - 1;
      PrefixDigits(a, n, 10);
      PrefixDigits(b, n, 10);
      assert a[n] in a && b[n] in b;
      assert a[n] == b[n] && FromDigits(a[..n], 10) == FromDigits(b[..n], 10);
      SameDigits(a[..n], b[..n]);
      assert a == a[..n] + [a[n]] && b == b[..n] + [b[n]];
    }
  }

  lemma SameText(a: string, b: string)
    requires |a| == |b| && AllDigitChars(a, 10) && AllDigitChars(b, 10) && FromText(a, 10) == FromText(b, 10)
    ensures a == b
  {
    HexDigits(a, 10);
    HexDigits(b, 10);
    SameDigits(DigitValues(a), DigitValues(b));
    forall i | 0 <= i < |a| ensures a[i] == b[i] {
      assert a[i] in a && b[i] in b;
      assert DigitValues(a)[i] == DigitValues(b)[i];
    }
  }

  /** What is read as a number of a fixed width is exactly what is printed for it. */
  lemma NumberIff(text: string, pos: nat, n: nat, v: nat)
    requires n >= 1 && v < Pow(10, n)
    ensures Number(text, pos, n) == Some(v) <==> At(text, pos, Padded(v, n, 10))
  {
    hide Padded, FromText, AllDigitChars, Pow;
    PaddedText(v, n, 10);
    if Number(text, pos, n) == Some(v) { SameText(text[pos..pos + n], Padded(v, n, 10)); }
  }

  lemma NumberBound(text: string, pos: nat, n: nat)
    ensures Number(text, pos, n).Some? ==> Number(text, pos, n).value < Pow(10, n) && pos + n <= |text|
  {
    if Number(text, pos, n).Some? {
      HexDigits(text[pos..pos + n], 10);
      FromDigitsBound(DigitValues(text[pos..pos + n]), 10);
    }
  }

  /** The digits `text[a..b]` consists of. */
  ghost predicate AreDigits(text: string, a: nat, b: nat, ds: seq<nat>) {
    a <= b <= |text| && AllDigitChars(text[a..b], 10) && AllDigitChars(text[a..b], 16) && ds == DigitValues(text[a..b])
  }

  lemma NoDigitsYet(text: string, a: nat)
    requires a <= |text|
    ensures AreDigits(text, a, a, [])
  {}

  lemma OneMoreDigit(text: string, a: nat, b: nat, ds: seq<nat>)
    requires AreDigits(text, a, b, ds) && b < |text| && IsDecimalDigit(text[b])
    ensures IsDigitChar(text[b], 16) && AreDigits(text, a, b + 1, ds + [DigitValue(text[b])])
  {
    assert text[a..b + 1] == text[a..b] + [text[b]];
  }

  lemma DigitsThroughout(text: string, a: nat, b: nat, i: nat)
    requires a <= i < b <= |text| && AllDigitChars(text[a..b], 10)
    ensures IsDecimalDigit(text[i])
  {
    assert text[a..b][i - a] in text[a..b];
  }

  /** `consume_digit_sequence`. */
  method ConsumeDigitSequence(text: string, pos: nat, len: nat) returns (digits: Option<seq<nat>>)
    requires pos <= |text|
    ensures digits.Some? <==> Number(text, pos, len).Some?
    ensures digits.Some? ==> |digits.value| == len && AreDigits(text, pos, pos + len, digits.value)
  {
    hide AllDigitChars, FromText;
    var ds: seq<nat> := [];
    NoDigitsYet(text, pos);
    for i := 0 to len
      invariant |ds| == i && AreDigits(text, pos, pos + i, ds)
    {
      if pos + i == |text| { return None; }
      if !IsDecimalDigit(text[pos + i]) {
        if Number(text, pos, len).Some? { DigitsThroughout(text, pos, pos + len, pos + i); }
        return None;
      }
      OneMoreDigit(text, pos, pos + i, ds);
      ds := ds + [DigitValue(text[pos + i])];
    }
    return Some(ds);
  }

  lemma TwoDigits(ds: seq<nat>)
    requires |ds| == 2
    ensures FromDigits(ds, 10) == ds[1] + ds[0] * 10
  {
    assert ds[..1] == [ds[0]] && ds[..1][..0] == [];
    assert FromDigits(ds[..1], 10) == FromDigits(ds[..1][..0], 10) * 10 + ds[0];
  }

  lemma FourDigits(ds: seq<nat>)
    requires |ds| == 4
    ensures FromDigits(ds, 10) == ds[3] + ds[2] * 10 + ds[1] * 100 + ds[0] * 1000
  {
    assert ds[..3][..2] == ds[..2];
    TwoDigits(ds[..2]);
    assert FromDigits(ds[..3], 10) == FromDigits(ds[..2], 10) * 10 + ds[2];
  }

  method ReadFourDigits(text: string, pos: nat) returns (n: Option<nat>)
    requires pos <= |text|
    ensures n == Number(text, pos, 4)
  {
    var digits := ConsumeDigitSequence(text, pos, 4);
    if digits.None? { return None; }
    FourDigits(digits.value);
    var ds := digits.value;
    return Some(ds[3] + ds[2] * 10 + ds[1] * 100 + ds[0] * 1000);
  }

  method ReadTwoDigits(text: string, pos: nat) returns (n: Option<nat>)
    requires pos <= |text|
    ensures n == Number(text, pos, 2)
  {
    var digits := ConsumeDigitSequence(text, pos, 2);
    if digits.None? { return None; }
    TwoDigits(digits.value);
    return Some(digits.value[1] + digits.value[0] * 10);
  }

  // ---------------------------------------------------------------- dates

  /** The rule of RFC 3339, Appendix C. */
  predicate IsLeapYear(year: nat) {
    year % 4 == 0 && (year % 100 != 0 || year % 400 == 0)
  }

  /** The last day of a month (RFC 3339, section 5.7). */
  function DaysIn(month: nat, year: nat): nat {
    match month
    case 2 => if IsLeapYear(year) then 29 else 28
    case 4 => 30
    case 6 => 30
    case 9 => 30
    case 11 => 30
    case _ => 31
  }

  predicate IsDate(d: Date) {
    d.year <= 9999 && 1 <= d.month <= 12 && 1 <= d.day <= DaysIn(d.month, d.year)
  }

  function DateText(d: Date): string {
    Padded(d.year, 4, 10) + "-" + Padded(d.month, 2, 10) + "-" + Padded(d.day, 2, 10)
  }

  /** The valid date that `YYYY-MM-DD` at `pos` denotes. */
  function DateAt(text: string, pos: nat): (r: Option<Parsed<Date>>)
    ensures r.Some? ==> IsDate(r.value.value) && r.value.after == pos + 10 <= |text|
  {
    var y, m, d := Number(text, pos, 4), Number(text, pos + 5, 2), Number(text, pos + 8, 2);
    if y.None? || m.None? || d.None? || !At(text, pos + 4, "-") || !At(text, pos + 7, "-") then None else
      var date := Date(y.value, m.value, d.value);
      NumberBound(text, pos, 4);
      Powers10();
      if IsDate(date) then Some(Parsed(date, pos + 10)) else None
  }

  lemma Powers10()
    ensures Pow(10, 2) == 100 && Pow(10, 4) == 10000 && Pow(10, 9) == 1_000_000_000 && Pow(10, 0) == 1
  {
    PowDouble(10, 1);
    PowDouble(10, 2);
    PowDouble(10, 4);
  }

  method PrintDate(d: Date) returns (os: string)
    ensures os == DateText(d)
  {
    hide Padded;
    os := PrintPadded(d.year, 4, 10);
    os := os + "-";
    var month := PrintPadded(d.month, 2, 10);
    os := os + month;
    os := os + "-";
    var day := PrintPadded(d.day, 2, 10);
    os := os + day;
  }

  /** `parse_date`; a date that is not part of a date-time has to end with it. */
  method ParseDate(text: string, pos: nat, partOfDateTime: bool) returns (r: Option<Parsed<Date>>)
    requires pos < |text| && IsDecimalDigit(text[pos])
    ensures r == if DateAt(text, pos).Some? && (partOfDateTime || EndsAt(text, pos + 10)) then DateAt(text, pos) else None
  {
    hide FromText, AllDigitChars, EndsAt, IsLeapYear;
    var year := ReadFourDigits(text, pos);
    if year.None? { return None; }
    var isLeapYear := IsLeapYear(year.value);
    if pos + 4 == |text| || text[pos + 4] != '-' || pos + 5 == |text| { return None; }
    var month := ReadTwoDigits(text, pos + 5);
    if month.None? || month.value == 0 || month.value > 12 { return None; }
    var maxDaysInMonth :=
      if month.value == 2 then (if isLeapYear then 29 else 28)
      else if month.value == 4 || month.value == 6 || month.value == 9 || month.value == 11 then 30 else 31;
    if pos + 7 == |text| || text[pos + 7] != '-' || pos + 8 == |text| { return None; }
    var day := ReadTwoDigits(text, pos + 8);
    if day.None? || day.value == 0 || day.value > maxDaysInMonth { return None; }
    if !partOfDateTime && !EndsAt(text, pos + 10) { return None; }
    AtChar(text, pos + 4, '-');
    AtChar(text, pos + 7, '-');
    NumberBound(text, pos, 4);
    Powers10();
    return Some(Parsed(Date(year.value, month.value, day.value), pos + 10));
  }

  /** A date is read exactly where the text of a valid date stands. */
  lemma DateExactly(text: string, pos: nat, d: Date)
    ensures DateAt(text, pos) == Some(Parsed(d, pos + 10)) <==> IsDate(d) && At(text, pos, DateText(d))
  {
    hide Padded, Number, At, Pow, IsLeapYear;
    Powers10();
    if IsDate(d) {
      NumberIff(text, pos, 4, d.year);
      NumberIff(text, pos + 5, 2, d.month);
      NumberIff(text, pos + 8, 2, d.day);
      PaddedText(d.year, 4, 10);
      PaddedText(d.month, 2, 10);
      PaddedText(d.day, 2, 10);
      var y, m, day := Padded(d.year, 4, 10), Padded(d.month, 2, 10), Padded(d.day, 2, 10);
      AtConcat(text, pos, y + "-" + m + "-", day);
      AtConcat(text, pos, y + "-" + m, "-");
      AtConcat(text, pos, y + "-", m);
      AtConcat(text, pos, y, "-");
    }
  }

  // ---------------------------------------------------------------- times

  predicate IsTime(t: Time) {
    t.hour <= 23 && t.minute <= 59 && t.second <= 59 && t.nanosecond <= 999_999_999
  }

  /** Where the run of decimal digits from `pos` on ends. */
  function RunEnd(text: string, pos: nat): (end: nat)
    requires pos <= |text|
    ensures pos <= end <= |text| && (end < |text| ==> !IsDecimalDigit(text[end]))
    ensures forall i | pos <= i < end :: IsDecimalDigit(text[i])
    decreases |text| - pos
  {
    if pos < |text| && IsDecimalDigit(text[pos]) then RunEnd(text, pos + 1) else pos
  }

  const MAX_FRACTION: nat := 64

  /** Nanoseconds from fractional digits: the first nine count, and missing ones are zero. */
  function Fraction(ds: seq<nat>): nat {
    if |ds| >= 9 then FromDigits(ds[..9], 10) else FromDigits(ds, 10) * Pow(10, 9 - |ds|)
  }

  /** The fraction of a second is truncated to nanoseconds, whatever its number of digits. */
  lemma FractionTruncates(ds: seq<nat>)
    requires IsDigits(ds, 10)
    ensures Fraction(ds) * Pow(10, |ds|) <= FromDigits(ds, 10) * Pow(10, 9) < (Fraction(ds) + 1) * Pow(10, |ds|)
  {
    hide FromDigits, IsDigits, Pow;
    var v, w := FromDigits(ds, 10), Pow(10, |ds|);
    PowMonotone(10, 0, |ds|);
    if |ds| >= 9 {
      SplitDigits(ds, 9);
      PrefixDigits(ds, 9, 10);
      FromDigitsBound(ds[9..], 10);
      PowAdd(10, |ds| - 9, 9);
      Truncated(FromDigits(ds[..9], 10), FromDigits(ds[9..], 10), Pow(10, |ds| - 9), Pow(10, 9));
    } else {
      PowAdd(10, 9 - |ds|, |ds|);
      Multiplied(v, Pow(10, 9 - |ds|), w);
    }
  }

  lemma Truncated(a: nat, b: nat, p: nat, q: nat)
    requires b < p && q >= 1
    ensures a * (p * q) <= (a * p + b) * q < (a + 1) * (p * q)
  {
    assert (a * p + b) * q == a * (p * q) + b * q;
    assert b * q < p * q;
    assert (a + 1) * (p * q) == a * (p * q) + p * q;
  }

  lemma Multiplied(v: nat, p: nat, w: nat)
    requires w >= 1
    ensures v * p * w == v * (p * w) && v * p * w < (v * p + 1) * w
  {
    assert (v * p + 1) * w == v * p * w + w;
  }

  lemma Regroup(a: nat, p: nat)
    ensures a * (10 * p) == a * p * 10
  {}

  lemma {:induction false} SplitDigits(ds: seq<nat>, n: nat)
    requires n <= |ds|
    ensures FromDigits(ds, 10) == FromDigits(ds[..n], 10) * Pow(10, |ds| - n) + FromDigits(ds[n..], 10)
    decreases |ds|
  {
    if n == |ds| {
      assert ds[..n] == ds;
    } else {
      var m := |ds| - 1;
      SplitDigits(ds[..m], n);
      assert ds[..m][..n] == ds[..n] && ds[..m][n..] == ds[n..][..m - n];
      assert ds[n..][m - n] == ds[m];
      Regroup(FromDigits(ds[..n], 10), Pow(10, m - n));
    }
  }

  lemma FractionBound(ds: seq<nat>)
    requires IsDigits(ds, 10)
    ensures Fraction(ds) <= 999_999_999
  {
    Powers10();
    if |ds| >= 9 {
      PrefixDigits(ds, 9, 10);
      FromDigitsBound(ds[..9], 10);
    } else {
      FromDigitsBound(ds, 10);
      PowAdd(10, |ds|, 9 - |ds|);
      PowMonotone(10, 0, 9 - |ds|);
      var v, w, p := FromDigits(ds, 10), Pow(10, |ds|), Pow(10, 9 - |ds|);
      assert v * p < w * p;
    }
  }

  lemma RunDigits(text: string, a: nat, b: nat)
    requires a <= b <= |text| && forall i | a <= i < b :: IsDecimalDigit(text[i])
    ensures AllDigitChars(text[a..b], 10)
  {
    forall c | c in text[a..b] ensures IsDecimalDigit(c) {
      var i :| a <= i < b && text[i] == c;
    }
  }

  /** The digits of the fraction between `a` and `b`. */
  function FractionOf(text: string, a: nat, b: nat): (ns: nat)
    requires a <= b <= |text| && forall i | a <= i < b :: IsDecimalDigit(text[i])
    ensures ns <= 999_999_999
  {
    RunDigits(text, a, b);
    HexDigits(text[a..b], 10);
    FractionBound(DigitValues(text[a..b]));
    Fraction(DigitValues(text[a..b]))
  }

  predicate BeginsOffset(c: char) {
    c == '+' || c == '-' || c == 'Z' || c == 'z'
  }

  /** A time may end at `pos`: at the end of the value, or before an offset. */
  predicate TimeEndsAt(text: string, pos: nat, partOfDateTime: bool) {
    EndsAt(text, pos) || (partOfDateTime && pos < |text| && BeginsOffset(text[pos]))
  }

  /** The optional fraction behind the seconds. */
  function FractionAt(text: string, pos: nat, partOfDateTime: bool): (r: Option<Parsed<nat>>)
    ensures r.Some? ==> r.value.value <= 999_999_999
    ensures r.Some? && pos <= |text| ==> pos <= r.value.after <= |text|
  {
    if TimeEndsAt(text, pos, partOfDateTime) then Some(Parsed(0, pos))
    else if text[pos] != '.' then None
    else
      var end := RunEnd(text, pos + 1);
      if end == pos + 1 || end > pos + 1 + MAX_FRACTION || (!partOfDateTime && !EndsAt(text, end)) then None
      else Some(Parsed(FractionOf(text, pos + 1, end), end))
  }

  /** The valid time that `HH:MM:SS` with an optional fraction at `pos` denotes. */
  function TimeAt(text: string, pos: nat, partOfDateTime: bool): (r: Option<Parsed<Time>>)
    ensures r.Some? ==> IsTime(r.value.value) && pos + 8 <= r.value.after <= |text|
  {
    var h, m, s := Number(text, pos, 2), Number(text, pos + 3, 2), Number(text, pos + 6, 2);
    if h.None? || m.None? || s.None? || !At(text, pos + 2, ":") || !At(text, pos + 5, ":") then None
    else if h.value > 23 || m.value > 59 || s.value > 59 then None
    else
      var f := FractionAt(text, pos + 8, partOfDateTime);
      if f.None? then None else Some(Parsed(Time(h.value, m.value, s.value, f.value.value), f.value.after))
  }

  // ---- printing

  /** The nanoseconds without their trailing zeroes, and how many digits are left. */
  function Strip(ns: nat, digits: nat): (r: (nat, nat))
    requires 0 < ns < Pow(10, digits)
    ensures 1 <= r.1 <= digits && 0 < r.0 < Pow(10, r.1)
    ensures r.0 * Pow(10, digits - r.1) == ns && r.0 % 10 != 0
    decreases digits
  {
    if ns % 10 != 0 then
      assert Pow(10, 0) == 1;
      (ns, digits)
    else
      assert Pow(10, digits) == 10 * Pow(10, digits - 1);
      var r := Strip(ns / 10, digits - 1);
      assert r.0 * Pow(10, digits - r.1) == r.0 * (10 * Pow(10, digits - 1 - r.1)) == 10 * (ns / 10);
      r
  }

  function FractionText(ns: nat): string {
    if ns == 0 || ns > 999_999_999 then "" else
      Powers10();
      var (v, digits) := Strip(ns, 9);
      "." + Padded(v, digits, 10)
  }

  function ClockText(t: Time): string {
    Padded(t.hour, 2, 10) + ":" + Padded(t.minute, 2, 10) + ":" + Padded(t.second, 2, 10)
  }

  function TimeText(t: Time): string {
    ClockText(t) + FractionText(t.nanosecond)
  }

  /** `print_to_stream` of a time. */
  method PrintTime(t: Time) returns (os: string)
    ensures os == TimeText(t)
  {
    hide Padded, Pow, Strip;
    os := PrintPadded(t.hour, 2, 10);
    os := os + ":";
    var minute := PrintPadded(t.minute, 2, 10);
    os := os + minute;
    os := os + ":";
    var second := PrintPadded(t.second, 2, 10);
    os := os + second;
    if t.nanosecond != 0 && t.nanosecond <= 999_999_999 {
      os := os + ".";
      var fraction := PrintFraction(t.nanosecond);
      os := os + fraction;
      assert os == ClockText(t) + ("." + fraction);
    }
  }

  /** The loop of `print_to_stream` that drops the trailing zeroes of a fraction. */
  method PrintFraction(nanosecond: nat) returns (os: string)
    requires 0 < nanosecond <= 999_999_999
    ensures "." + os == FractionText(nanosecond)
  {
    Powers10();
    var ns: nat, digits: nat := nanosecond, 9;
    while ns % 10 == 0
      invariant 0 < ns < Pow(10, digits) && Strip(nanosecond, 9) == Strip(ns, digits)
      decreases digits
    {
      assert Pow(10, digits) == if digits == 0 then 1 else 10 * Pow(10, digits - 1);
      ns, digits := ns / 10, digits - 1;
    }
    assert Pow(10, 0) == 1;
    os := PrintPadded(ns, digits, 10);
  }

  // ---- parsing

  /** `consume_variable_length_digit_sequence`. */
  method ConsumeDigitRun(text: string, pos: nat, maxLen: nat) returns (digits: seq<nat>)
    requires pos <= |text|
    ensures |digits| == (if RunEnd(text, pos) - pos <= maxLen then RunEnd(text, pos) - pos else maxLen)
    ensures AreDigits(text, pos, pos + |digits|, digits)
  {
    hide AllDigitChars;
    digits := [];
    NoDigitsYet(text, pos);
    var i := 0;
    while i < maxLen
      invariant |digits| == i <= maxLen && AreDigits(text, pos, pos + i, digits)
      invariant RunEnd(text, pos) == RunEnd(text, pos + i)
    {
      if pos + i == |text| || !IsDecimalDigit(text[pos + i]) { return; }
      OneMoreDigit(text, pos, pos + i, digits);
      digits := digits + [DigitValue(text[pos + i])];
      i := i + 1;
    }
  }

  /** The scaling of a fraction to nanoseconds in a `uint32_t`; neither of its loops wraps. */
  method ScaleFraction(digits: seq<nat>) returns (value: nat)
    requires IsDigits(digits, 10)
    ensures value == Fraction(digits)
  {
    hide FromDigits, IsDigits, Pow;
    Powers10();
    if |digits| >= 9 {
      PrefixDigits(digits, 9, 10);
      value := SumPlaces(digits[..9]);
    } else {
      value := SumPlaces(digits);
      ghost var v := value;
      var i := |digits|;
      while i < 9
        invariant |digits| <= i <= 9 && value == v * Pow(10, i - |digits|)
      {
        ScaledFits(digits, i);
        i := i + 1;
        value := value * 10 % U32;
      }
    }
  }

  method SumPlaces(digits: seq<nat>) returns (value: nat)
    requires IsDigits(digits, 10) && |digits| <= 9
    ensures value == FromDigits(digits, 10)
  {
    hide FromDigits, IsDigits, Pow;
    Powers10();
    NoDigitsLeft(digits);
    var place, i := 1, |digits|;
    value := 0;
    while i > 0
      invariant 0 <= i <= |digits| && value == FromDigits(digits[i..], 10) && place == Pow(10, |digits| - i)
    {
      PlaceFits(digits, i - 1);
      i := i - 1;
      value := (value + digits[i] * place) % U32;
      place := place * 10 % U32;
    }
    assert digits[0..] == digits;
  }

  lemma NoDigitsLeft(ds: seq<nat>)
    ensures FromDigits(ds[|ds|..], 10) == 0
  {}

  lemma PlaceFits(ds: seq<nat>, i: nat)
    requires i < |ds| <= 9 && IsDigits(ds, 10)
    ensures FromDigits(ds[i..], 10) == FromDigits(ds[i + 1..], 10) + ds[i] * Pow(10, |ds| - i - 1) < U32
    ensures Pow(10, |ds| - i) == Pow(10, |ds| - i - 1) * 10 < U32
  {
    hide FromDigits, IsDigits, Pow;
    PrefixDigits(ds, i, 10);
    FromDigitsBound(ds[i..], 10);
    assert ds[i..] == [ds[i]] + ds[i + 1..];
    FromDigitsFront(ds[i], ds[i + 1..], 10);
    PowStep(10, |ds| - i - 1);
    PowMonotone(10, |ds| - i, 9);
    Powers10();
  }

  lemma ScaledFits(ds: seq<nat>, i: nat)
    requires |ds| <= i < 9 && IsDigits(ds, 10)
    ensures FromDigits(ds, 10) * Pow(10, i + 1 - |ds|) == FromDigits(ds, 10) * Pow(10, i - |ds|) * 10 < U32
  {
    hide FromDigits, IsDigits, Pow;
    var v, p, q := FromDigits(ds, 10), Pow(10, i - |ds|), Pow(10, i + 1 - |ds|);
    FromDigitsBound(ds, 10);
    PowStep(10, i - |ds|);
    TimesTen(v, p, q);
    PowAdd(10, |ds|, i + 1 - |ds|);
    PowMonotone(10, i + 1, 9);
    Powers10();
    BelowProduct(v, Pow(10, |ds|), q);
  }

  lemma TimesTen(v: nat, p: nat, q: nat)
    requires q == 10 * p
    ensures v * q == v * p * 10
  {}

  lemma BelowProduct(v: nat, w: nat, q: nat)
    requires v <= w
    ensures v * q <= w * q
  {}

  /** The fraction of `parse_time`. */
  method ParseFraction(text: string, pos: nat, partOfDateTime: bool) returns (r: Option<Parsed<nat>>)
    requires pos <= |text|
    ensures r == FractionAt(text, pos, partOfDateTime)
  {
    hide Fraction, AllDigitChars, RunEnd, FromDigits, IsDigits, DigitValue, DigitValues;
    if EndsAt(text, pos) || (partOfDateTime && BeginsOffset(text[pos])) { return Some(Parsed(0, pos)); }
    if text[pos] != '.' { return None; }
    if pos + 1 == |text| {
      return None;
    }
    var digits := ConsumeDigitRun(text, pos + 1, MAX_FRACTION);
    var p := pos + 1 + |digits|;
    if |digits| == 0 { return None; }
    if p < |text| {
      if |digits| == MAX_FRACTION && IsDecimalDigit(text[p]) { return None; }
      if !partOfDateTime && !EndsAt(text, p) { return None; }
    }
    assert p == RunEnd(text, pos + 1);
    HexDigits(text[pos + 1..p], 10);
    var value := ScaleFraction(digits);
    return Some(Parsed(value, p));
  }

  /** `parse_time`. */
  method ParseTime(text: string, pos: nat, partOfDateTime: bool) returns (r: Option<Parsed<Time>>)
    requires pos < |text|
    ensures r == TimeAt(text, pos, partOfDateTime)
  {
    hide FractionAt, FromText, AllDigitChars;
    AtChar(text, pos + 2, ':');
    AtChar(text, pos + 5, ':');
    var hour := ReadTwoDigits(text, pos);
    if hour.None? || hour.value > 23 { return None; }
    if pos + 2 == |text| || text[pos + 2] != ':' || pos + 3 == |text| { return None; }
    var minute := ReadTwoDigits(text, pos + 3);
    if minute.None? || minute.value > 59 { return None; }
    if pos + 5 == |text| || text[pos + 5] != ':' || pos + 6 == |text| { return None; }
    var second := ReadTwoDigits(text, pos + 6);
    if second.None? || second.value > 59 { return None; }
    var fraction := ParseFraction(text, pos + 8, partOfDateTime);
    if fraction.None? { return None; }
    return Some(Parsed(Time(hour.value, minute.value, second.value, fraction.value.value), fraction.value.after));
  }

  // ---- the round trip

  lemma {:induction false} RunEndAt(text: string, i: nat, e: nat)
    requires i <= e <= |text| && (e < |text| ==> !IsDecimalDigit(text[e]))
    requires forall j | i <= j < e :: IsDecimalDigit(text[j])
    ensures RunEnd(text, i) == e
    decreases e - i
  {
    if i < e { RunEndAt(text, i + 1, e); }
  }

  /** The scaling loops undo the loop that drops the zeroes. */
  lemma FractionRoundTrip(text: string, pos: nat, ns: nat, partOfDateTime: bool)
    requires ns <= 999_999_999 && At(text, pos, FractionText(ns))
    requires TimeEndsAt(text, pos + |FractionText(ns)|, partOfDateTime)
    ensures FractionAt(text, pos, partOfDateTime) == Some(Parsed(ns, pos + |FractionText(ns)|))
  {
    hide Padded, Pow, FromText, RunEnd, At, AllDigitChars, FractionOf, FractionText, EndsAt, TimeEndsAt;
    if ns == 0 {
      NoFraction();
    } else {
      var v, digits := FractionParts(ns);
      AtConcat(text, pos, ".", Padded(v, digits, 10));
      AtChar(text, pos, '.');
      NoDigitAfter(text, pos + 1 + digits, partOfDateTime);
      NoEndBefore(text, pos, partOfDateTime);
      DigitRunAt(text, pos + 1, v, digits);
      ScaledBack(text, pos + 1, pos + 1 + digits, v, digits, ns);
    }
  }

  lemma NoFraction()
    ensures FractionText(0) == ""
  {}

  lemma FractionParts(ns: nat) returns (v: nat, digits: nat)
    requires 0 < ns <= 999_999_999
    ensures 1 <= digits <= 9 && v < Pow(10, digits) && v * Pow(10, 9 - digits) == ns
    ensures FractionText(ns) == "." + Padded(v, digits, 10) && |Padded(v, digits, 10)| == digits
  {
    Powers10();
    v, digits := Strip(ns, 9).0, Strip(ns, 9).1;
    PaddedText(v, digits, 10);
  }

  lemma NoDigitAfter(text: string, pos: nat, partOfDateTime: bool)
    requires TimeEndsAt(text, pos, partOfDateTime)
    ensures pos < |text| ==> !IsDecimalDigit(text[pos])
    ensures !partOfDateTime ==> EndsAt(text, pos)
  {}

  lemma NoEndBefore(text: string, pos: nat, partOfDateTime: bool)
    ensures pos < |text| && text[pos] == '.' ==> !TimeEndsAt(text, pos, partOfDateTime)
  {}

  /** A padded number before something else is a run of digits that denotes the number. */
  lemma DigitRunAt(text: string, a: nat, v: nat, digits: nat)
    requires 1 <= digits && v < Pow(10, digits) && At(text, a, Padded(v, digits, 10))
    requires |Padded(v, digits, 10)| == digits && (a + digits < |text| ==> !IsDecimalDigit(text[a + digits]))
    ensures a + digits <= |text| && RunEnd(text, a) == a + digits
    ensures forall i | a <= i < a + digits :: IsDecimalDigit(text[i])
    ensures AllDigitChars(text[a..a + digits], 10) && FromText(text[a..a + digits], 10) == v
  {
    hide Padded, Pow, FromText, RunEnd, AllDigitChars;
    PaddedText(v, digits, 10);
    forall i | a <= i < a + digits ensures IsDecimalDigit(text[i]) { DigitsThroughout(text, a, a + digits, i); }
    RunEndAt(text, a, a + digits);
  }

  lemma ScaledBack(text: string, a: nat, b: nat, v: nat, digits: nat, ns: nat)
    requires a <= b <= |text| && b - a == digits <= 9 && AllDigitChars(text[a..b], 10)
    requires forall i | a <= i < b :: IsDecimalDigit(text[i])
    requires FromText(text[a..b], 10) == v && v * Pow(10, 9 - digits) == ns
    ensures FractionOf(text, a, b) == ns
  {
    HexDigits(text[a..b], 10);
    var ds := DigitValues(text[a..b]);
    if digits == 9 {
      assert ds[..9] == ds;
      assert Pow(10, 0) == 1;
    }
  }

  lemma ClockTextLength(t: Time)
    requires t.hour <= 23 && t.minute <= 59 && t.second <= 59
    ensures |Padded(t.hour, 2, 10)| == |Padded(t.minute, 2, 10)| == |Padded(t.second, 2, 10)| == 2 && |ClockText(t)| == 8
  {
    hide Padded, Pow;
    Powers10();
    PaddedText(t.hour, 2, 10);
    PaddedText(t.minute, 2, 10);
    PaddedText(t.second, 2, 10);
  }

  /** The clock part is read exactly where its text stands. */
  lemma ClockExactly(text: string, pos: nat, t: Time)
    requires t.hour <= 23 && t.minute <= 59 && t.second <= 59
    ensures At(text, pos, ClockText(t)) <==>
            && Number(text, pos, 2) == Some(t.hour) && At(text, pos + 2, ":")
            && Number(text, pos + 3, 2) == Some(t.minute) && At(text, pos + 5, ":")
            && Number(text, pos + 6, 2) == Some(t.second)
  {
    hide Padded, Number, At, Pow;
    Powers10();
    ClockTextLength(t);
    NumberIff(text, pos, 2, t.hour);
    NumberIff(text, pos + 3, 2, t.minute);
    NumberIff(text, pos + 6, 2, t.second);
    var h, m, s := Padded(t.hour, 2, 10), Padded(t.minute, 2, 10), Padded(t.second, 2, 10);
    AtConcat(text, pos, h + ":" + m + ":", s);
    AtConcat(text, pos, h + ":" + m, ":");
    AtConcat(text, pos, h + ":", m);
    AtConcat(text, pos, h, ":");
  }

  /** A printed time is read back exactly if it is a time. */
  lemma TimeRoundTrip(text: string, pos: nat, t: Time, partOfDateTime: bool)
    requires At(text, pos, TimeText(t)) && TimeEndsAt(text, pos + |TimeText(t)|, partOfDateTime)
    ensures TimeAt(text, pos, partOfDateTime) == Some(Parsed(t, pos + |TimeText(t)|)) <==> IsTime(t)
  {
    hide Number, At, Padded, FractionText, ClockText, TimeEndsAt, FractionAt;
    if IsTime(t) {
      ClockTextLength(t);
      AtConcat(text, pos, ClockText(t), FractionText(t.nanosecond));
      ClockExactly(text, pos, t);
      FractionRoundTrip(text, pos + 8, t.nanosecond, partOfDateTime);
    }
  }

  // ---------------------------------------------------------------- offsets and date-times

  /** An offset of less than a day (RFC 3339, section 5.6). */
  predicate IsOffset(o: Offset) {
    o.NoOffset? || -1439 <= o.minutes <= 1439
  }

  predicate IsMoment(m: DateTime) {
    IsDate(m.date) && IsTime(m.time) && IsOffset(m.offset)
  }

  function OffsetText(o: Offset): string {
    if o.NoOffset? then ""
    else if o.minutes == 0 then "Z"
    else
      var mins: nat := if o.minutes < 0 then -o.minutes else o.minutes;
      (if o.minutes < 0 then "-" else "+") + Padded(mins / 60, 2, 10) + ":" + Padded(mins % 60, 2, 10)
  }

  function MomentText(m: DateTime): string {
    DateText(m.date) + "T" + TimeText(m.time) + OffsetText(m.offset)
  }

  method PrintOffset(o: Offset) returns (os: string)
    requires o.Offset?
    ensures os == OffsetText(o)
  {
    hide Padded;
    if o.minutes == 0 { return "Z"; }
    var mins := o.minutes;
    os := "";
    if mins < 0 {
      os := os + "-";
      mins := -mins;
    } else {
      os := os + "+";
    }
    var hours := mins / 60;
    if hours != 0 {
      var hh := PrintPadded(hours, 2, 10);
      os := os + hh;
      mins := mins - hours * 60;
    } else {
      TwoZeros();
      os := os + "00";
    }
    os := os + ":";
    var mm := PrintPadded(mins, 2, 10);
    os := os + mm;
  }

  lemma TwoZeros()
    ensures Padded(0, 2, 10) == "00"
  {
    NoLeadingZero(0, 10);
    assert ToText(0, 10) == "0";
    assert Zeros(1) == "0";
  }

  method PrintDateTime(m: DateTime) returns (os: string)
    ensures os == MomentText(m)
  {
    hide DateText, TimeText, OffsetText;
    os := PrintDate(m.date);
    os := os + "T";
    var time := PrintTime(m.time);
    os := os + time;
    if m.offset.Offset? {
      var offset := PrintOffset(m.offset);
      os := os + offset;
    } else {
      NoOffsetText();
    }
  }

  lemma NoOffsetText()
    ensures OffsetText(NoOffset) == ""
  {}

  /** The signed offset `HH:MM` behind a sign. */
  function SignedOffset(text: string, pos: nat, sign: int): (r: Option<Parsed<Offset>>)
    requires sign == 1 || sign == -1
    ensures r.Some? ==> IsOffset(r.value.value) && r.value.after == pos + 5 <= |text|
  {
    var h, m := Number(text, pos, 2), Number(text, pos + 3, 2);
    if h.None? || m.None? || !At(text, pos + 2, ":") || h.value > 23 || m.value > 59 then None
    else Some(Parsed(Offset((h.value * 60 + m.value) * sign), pos + 5))
  }

  /** What stands between a time and the end of a date-time. */
  function OffsetAt(text: string, pos: nat): (r: Option<Parsed<Offset>>)
    ensures r.Some? ==> IsOffset(r.value.value) && EndsAt(text, r.value.after)
    ensures r.Some? && pos <= |text| ==> pos <= r.value.after <= |text|
  {
    if EndsAt(text, pos) then Some(Parsed(NoOffset, pos))
    else
      var o :=
        if text[pos] == 'Z' || text[pos] == 'z' then Some(Parsed(Offset(0), pos + 1))
        else if text[pos] == '-' then SignedOffset(text, pos + 1, -1)
        else if text[pos] == '+' then SignedOffset(text, pos + 1, 1)
        else None;
      if o.Some? && EndsAt(text, o.value.after) then o else None
  }

  /** The valid date-time at `pos`. */
  function MomentAt(text: string, pos: nat): (r: Option<Parsed<DateTime>>)
    ensures r.Some? ==> IsMoment(r.value.value) && EndsAt(text, r.value.after) && pos < r.value.after <= |text|
  {
    var d := DateAt(text, pos);
    if d.None? || pos + 10 >= |text| || !(text[pos + 10] == ' ' || text[pos + 10] == 'T' || text[pos + 10] == 't')
    then None
    else
      var t := TimeAt(text, pos + 11, true);
      if t.None? then None else
        var o := OffsetAt(text, t.value.after);
        if o.None? then None
        else Some(Parsed(DateTime(d.value.value, t.value.value, o.value.value), o.value.after))
  }

  /** The explicit offset of `parse_date_time`. */
  method ParseSignedOffset(text: string, pos: nat, sign: int) returns (r: Option<Parsed<Offset>>)
    requires pos <= |text| && (sign == 1 || sign == -1)
    ensures r == SignedOffset(text, pos, sign)
  {
    hide FromText, AllDigitChars;
    AtChar(text, pos + 2, ':');
    var hour := ReadTwoDigits(text, pos);
    if hour.None? || hour.value > 23 { return None; }
    if pos + 2 == |text| || text[pos + 2] != ':' || pos + 3 == |text| { return None; }
    var minute := ReadTwoDigits(text, pos + 3);
    if minute.None? || minute.value > 59 { return None; }
    return Some(Parsed(Offset((hour.value * 60 + minute.value) * sign), pos + 5));
  }

  /** `parse_date_time`. */
  method ParseDateTime(text: string, pos: nat) returns (r: Option<Parsed<DateTime>>)
    requires pos < |text| && IsDecimalDigit(text[pos])
    ensures r == MomentAt(text, pos)
  {
    hide SignedOffset, TimeAt, DateAt, EndsAt;
    var date := ParseDate(text, pos, true);
    if date.None? || date.value.after >= |text| { return None; }
    var p := date.value.after;
    if !(text[p] == ' ' || text[p] == 'T' || text[p] == 't') { return None; }
    p := p + 1;
    NoTimeAtEnd(text, p);
    if p == |text| { return None; }
    var time := ParseTime(text, p, true);
    if time.None? { return None; }
    p := time.value.after;
    if EndsAt(text, p) { return Some(Parsed(DateTime(date.value.value, time.value.value, NoOffset), p)); }
    EndOfText(text, p);
    var offset := Parsed(Offset(0), p);
    if text[p] == 'Z' || text[p] == 'z' {
      offset := Parsed(Offset(0), p + 1);
    } else if text[p] == '+' || text[p] == '-' {
      if p + 1 == |text| {
        NothingSigned(text, p + 1);
        return None;
      }
      var signed := ParseSignedOffset(text, p + 1, if text[p] == '-' then -1 else 1);
      if signed.None? { return None; }
      offset := signed.value;
    }
    if !EndsAt(text, offset.after) { return None; }
    return Some(Parsed(DateTime(date.value.value, time.value.value, offset.value), offset.after));
  }

  lemma EndOfText(text: string, pos: nat)
    ensures !EndsAt(text, pos) ==> pos < |text|
  {}

  lemma NoTimeAtEnd(text: string, pos: nat)
    ensures pos >= |text| ==> TimeAt(text, pos, true) == None
  {}

  lemma NothingSigned(text: string, pos: nat)
    requires pos >= |text|
    ensures SignedOffset(text, pos, 1) == None && SignedOffset(text, pos, -1) == None
  {}

  // ---- the round trip

  lemma SignedRoundTrip(text: string, pos: nat, mins: nat, sign: int)
    requires mins <= 1439 && (sign == 1 || sign == -1)
    requires At(text, pos, Padded(mins / 60, 2, 10) + ":" + Padded(mins % 60, 2, 10))
    ensures SignedOffset(text, pos, sign) == Some(Parsed(Offset(mins * sign), pos + 5))
    ensures |Padded(mins / 60, 2, 10)| == |Padded(mins % 60, 2, 10)| == 2
  {
    hide Padded, Number, At, Pow;
    Powers10();
    var h, m := Padded(mins / 60, 2, 10), Padded(mins % 60, 2, 10);
    PaddedText(mins / 60, 2, 10);
    PaddedText(mins % 60, 2, 10);
    AtConcat(text, pos, h + ":", m);
    AtConcat(text, pos, h, ":");
    NumberIff(text, pos, 2, mins / 60);
    NumberIff(text, pos + 3, 2, mins % 60);
  }

  lemma OffsetRoundTrip(text: string, pos: nat, o: Offset)
    requires IsOffset(o) && At(text, pos, OffsetText(o)) && EndsAt(text, pos + |OffsetText(o)|)
    ensures OffsetAt(text, pos) == Some(Parsed(o, pos + |OffsetText(o)|))
    ensures o.Offset? ==> pos < |text| && BeginsOffset(text[pos])
    ensures o.NoOffset? ==> EndsAt(text, pos)
  {
    hide Padded, SignedOffset, At;
    if o.Offset? && o.minutes == 0 {
      AtChar(text, pos, 'Z');
    } else if o.Offset? {
      var mins: nat := if o.minutes < 0 then -o.minutes else o.minutes;
      var sign := if o.minutes < 0 then "-" else "+";
      var rest := Padded(mins / 60, 2, 10) + ":" + Padded(mins % 60, 2, 10);
      assert OffsetText(o) == sign + rest;
      AtConcat(text, pos, sign, rest);
      AtChar(text, pos, sign[0]);
      SignedRoundTrip(text, pos + 1, mins, if o.minutes < 0 then -1 else 1);
    }
  }

  lemma DateTextLength(d: Date)
    requires IsDate(d)
    ensures |DateText(d)| == 10
  {
    Powers10();
    PaddedText(d.year, 4, 10);
    PaddedText(d.month, 2, 10);
    PaddedText(d.day, 2, 10);
  }

  /** A printed date-time is read back exactly if its date, time and offset are valid. */
  lemma MomentRoundTrip(text: string, pos: nat, m: DateTime)
    requires At(text, pos, MomentText(m)) && EndsAt(text, pos + |MomentText(m)|)
    ensures MomentAt(text, pos) == Some(Parsed(m, pos + |MomentText(m)|)) <==> IsMoment(m)
  {
    hide DateText, TimeText, OffsetText, At, DateAt, TimeAt, OffsetAt, EndsAt, IsDate, IsTime;
    if IsMoment(m) {
      var d, t, o := DateText(m.date), TimeText(m.time), OffsetText(m.offset);
      AtConcat(text, pos, d + "T" + t, o);
      AtConcat(text, pos, d + "T", t);
      AtConcat(text, pos, d, "T");
      DateTextLength(m.date);
      AtChar(text, pos + 10, 'T');
      DateExactly(text, pos, m.date);
      OffsetRoundTrip(text, pos + 11 + |t|, m.offset);
      TimeRoundTrip(text, pos + 11, m.time, true);
    }
  }
}
