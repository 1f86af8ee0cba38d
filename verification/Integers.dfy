/** `parse_integer` and the printing of integers of `toml.hpp`. */
module Integers {
  import opened Characters
  import opened Numerals
  import opened TomlValues
  import opened Wrappers

  const I64_MAX: nat := 0x7FFF_FFFF_FFFF_FFFF
  const I64_MIN: int := -0x8000_0000_0000_0000
  const U64: nat := 0x1_0000_0000_0000_0000

  /** The size of the buffer for digits. */
  const MAX_DIGITS_READ: nat := 128

  predicate FitsI64(n: int) {
    I64_MIN <= n <= I64_MAX
  }

  /** A value that was read, and where the text goes on behind it. */
  datatype Parsed<T> = Parsed(value: T, after: nat)

  // ---------------------------------------------------------------- what an integer in a text denotes

  /** The end of the value that `pos` is in. */
  function TokenEnd(text: string, pos: nat): (end: nat)
    requires pos <= |text|
    ensures pos <= end <= |text| && EndsAt(text, end) && forall i | pos <= i < end :: !IsValueTerminator(text[i])
    decreases |text| - pos
  {
    if EndsAt(text, pos) then pos else TokenEnd(text, pos + 1)
  }

  function Prefix(base: Base): string {
    match base
    case 2 => "0b"
    case 8 => "0o"
    case 16 => "0x"
    case _ => ""
  }

  predicate HasPrefix(text: string, pos: nat, base: Base) {
    base == 10 || (pos + 2 <= |text| && text[pos..pos + 2] == Prefix(base))
  }

  predicate IsSign(c: char) {
    c == '+' || c == '-'
  }

  /** Where the digits begin; only decimal integers have a sign. */
  function DigitsFrom(text: string, pos: nat, base: Base): nat
    requires pos < |text|
  {
    if base != 10 then pos + 2 else if IsSign(text[pos]) then pos + 1 else pos
  }

  function Negative(text: string, pos: nat, base: Base): bool
    requires pos < |text|
  {
    base == 10 && text[pos] == '-'
  }

  /**
    A digit, or an underscore behind a digit. `shown[i]` is what the parser's pointer to the code
    point at `i` refers to once the reader has moved past it: `text[i]`, unless the block that
    held it has been replaced by the next one (see `StalePointers.Shown`).
  */
  predicate GoesOnAt(text: string, shown: string, start: nat, i: nat, base: Base)
    requires start <= i < |text| == |shown|
  {
    IsDigitChar(text[i], base) || (text[i] == '_' && i > start && IsDigitChar(shown[i - 1], base))
  }

  predicate WellSpaced(text: string, shown: string, start: nat, end: nat, base: Base)
    requires end <= |text| == |shown|
  {
    && start < end && IsDigitChar(text[start], base)
    && (forall i | start <= i < end :: GoesOnAt(text, shown, start, i, base))
    && shown[end - 1] != '_' && (end == |text| ==> text[end - 1] != '_')
  }

  /** A text without its underscores. */
  function Digits(s: string): (ds: string)
    ensures |ds| <= |s| && forall c | c in ds :: c in s && c != '_'
  {
    if s == "" then ""
    else if s[|s| - 1] == '_' then Digits(s[..|s| - 1])
    else Digits(s[..|s| - 1]) + [s[|s| - 1]]
  }

  lemma DigitsAreDigits(text: string, shown: string, start: nat, end: nat, base: Base)
    requires end <= |text| == |shown| && start <= end
    requires forall i | start <= i < end :: GoesOnAt(text, shown, start, i, base)
    ensures AllDigitChars(Digits(text[start..end]), base)
  {
    forall c | c in Digits(text[start..end]) ensures IsDigitChar(c, base) {
      assert c in text[start..end];
      var i :| start <= i < end && text[i] == c;
      assert GoesOnAt(text, shown, start, i, base);
    }
  }

  /** What the digits of an integer denote; decimal integers have no leading zeroes. */
  function Denotes(ds: string, base: Base, negative: bool): Option<int>
    requires AllDigitChars(ds, base)
  {
    if |ds| > MAX_DIGITS_READ || (base == 10 && |ds| > 1 && ds[0] == '0') then None else
      var n: int := FromText(ds, base);
      var v := if negative then -n else n;
      if FitsI64(v) then Some(v) else None
  }

  /** The integer of a base at `pos`, if there is one and it fits 64 bits. */
  function Integer(text: string, shown: string, pos: nat, base: Base): (r: Option<Parsed<int>>)
    requires |text| == |shown|
    ensures r.Some? ==> pos < r.value.after <= |text| && EndsAt(text, r.value.after) && FitsI64(r.value.value)
  {
    if pos >= |text| || !HasPrefix(text, pos, base) then None else
      var start := DigitsFrom(text, pos, base);
      if start >= |text| then None else
        var end := TokenEnd(text, start);
        if !WellSpaced(text, shown, start, end, base) then None else
          DigitsAreDigits(text, shown, start, end, base);
          var n := Denotes(Digits(text[start..end]), base, Negative(text, pos, base));
          if n.None? then None else Some(Parsed(n.value, end))
  }

  // ---------------------------------------------------------------- parse_integer

  function MaxDigits(base: Base): nat {
    match base
    case 2 => 63
    case 8 => 21
    case 10 => 19
    case _ => 16
  }

  lemma DigitsGrow(s: string, n: nat)
    requires n <= |s|
    ensures |Digits(s[..n])| <= |Digits(s)| && |Digits(s)| - |Digits(s[..n])| <= |s| - n
    decreases |s|
  {
    if n < |s| {
      var t := s[..|s| - 1];
      DigitsGrow(t, n);
      assert t[..n] == s[..n];
    } else {
      assert s[..n] == s;
    }
  }

  lemma SliceGrows(text: string, a: nat, b: nat, c: nat)
    requires a <= b <= c <= |text|
    ensures text[a..c][..b - a] == text[a..b]
    ensures b < c ==> text[a..b + 1] == text[a..b] + [text[b]]
  {}

  lemma DigitsStep(text: string, a: nat, b: nat)
    requires a <= b < |text|
    ensures Digits(text[a..b + 1]) == if text[b] == '_' then Digits(text[a..b]) else Digits(text[a..b]) + [text[b]]
  {
    SliceGrows(text, a, b, b + 1);
    assert (text[a..b] + [text[b]])[..b - a] == text[a..b];
  }

  lemma DigitsNotTerminators(c: char, base: Base)
    ensures IsDigitChar(c, base) || c == '_' ==> !IsValueTerminator(c)
    ensures IsDigitChar(c, base) ==> c != '_'
  {}

  /** The loop of `parse_integer` that collects digits up to the end of the value. */
  method ConsumeDigits(text: string, shown: string, start: nat, base: Base) returns (r: Option<Parsed<string>>)
    requires start < |text| == |shown| && IsDigitChar(text[start], base)
    ensures var end := TokenEnd(text, start);
            r == if WellSpaced(text, shown, start, end, base) && |Digits(text[start..end])| <= MAX_DIGITS_READ
                 then Some(Parsed(Digits(text[start..end]), end)) else None
  {
    hide TokenEnd, Digits, IsDigitChar;
    var pos, digits := start, "";
    var prev: Option<nat> := None;
    ghost var end := TokenEnd(text, start);
    DigitsNotTerminators(text[start], base);
    assert text[start..start] == "";
    NoDigits();
    while pos < |text| && !IsValueTerminator(text[pos])
      invariant start <= pos <= end && digits == Digits(text[start..pos]) && |digits| <= MAX_DIGITS_READ
      invariant prev == if pos == start then None else Some(pos - 1)
      invariant forall i | start <= i < pos :: GoesOnAt(text, shown, start, i, base)
      invariant pos == |text| ==> text[pos - 1] != '_'
    {
      ghost var goesOn := GoesOnAt(text, shown, start, pos, base);
      DigitsNotTerminators(text[pos], base);
      DigitsStep(text, start, pos);
      SliceGrows(text, start, pos + 1, end);
      DigitsGrow(text[start..end], pos + 1 - start);
      if text[pos] == '_' {
        if prev.None? || !IsDigitChar(shown[prev.value], base) { return None; }
        prev := Some(pos);
        pos := pos + 1;
        if pos == |text| { return None; }
        continue;
      } else if prev.Some? && shown[prev.value] == '_' && !IsDigitChar(text[pos], base) {
        return None;
      } else if !IsDigitChar(text[pos], base) {
        return None;
      } else if |digits| == MAX_DIGITS_READ {
        return None;
      } else {
        digits := digits + [text[pos]];
      }
      prev := Some(pos);
      pos := pos + 1;
    }
    if prev.Some? && shown[prev.value] == '_' { return None; }
    return Some(Parsed(digits, pos));
  }

  lemma NoDigits()
    ensures Digits("") == ""
  {}

  lemma {:induction false} FromDigitsFront(d: nat, ds: seq<nat>, base: nat)
    ensures FromDigits([d] + ds, base) == d * Pow(base, |ds|) + FromDigits(ds, base)
  {
    if ds == [] {
      assert [d] + ds == [d];
      assert FromDigits([d], base) == FromDigits([d][..0], base) * base + d;
    } else {
      var n := |ds| - 1;
      assert ([d] + ds)[..n + 1] == [d] + ds[..n];
      FromDigitsFront(d, ds[..n], base);
      Scale(d, Pow(base, n), FromDigits(ds[..n], base), base);
    }
  }

  lemma Scale(d: nat, p: nat, v: nat, b: nat)
    ensures (d * p + v) * b == d * (b * p) + v * b
  {
    assert d * (b * p) == d * p * b;
  }

  lemma {:induction false} PowAdd(b: nat, m: nat, n: nat)
    ensures Pow(b, m + n) == Pow(b, m) * Pow(b, n)
  {
    if m > 0 {
      PowAdd(b, m - 1, n);
      assert b * (Pow(b, m - 1) * Pow(b, n)) == b * Pow(b, m - 1) * Pow(b, n);
    }
  }

  lemma PowDouble(b: nat, e: nat)
    ensures Pow(b, 2 * e) == Pow(b, e) * Pow(b, e)
    ensures Pow(b, 2 * e + 1) == b * (Pow(b, e) * Pow(b, e))
  {
    PowAdd(b, e, e);
  }

  lemma Powers()
    ensures Pow(2, 63) == 0x8000_0000_0000_0000
    ensures Pow(8, 21) == 0x8000_0000_0000_0000
    ensures Pow(10, 19) == 10_000_000_000_000_000_000
    ensures Pow(16, 16) == 0x1_0000_0000_0000_0000
  {
    assert Pow(2, 1) == 2 && Pow(8, 1) == 8 && Pow(10, 1) == 10 && Pow(16, 1) == 16;
    hide Pow;
    PowDouble(2, 1); PowDouble(2, 3); PowDouble(2, 7); PowDouble(2, 15); PowDouble(2, 31);
    PowDouble(8, 1); PowDouble(8, 2); PowDouble(8, 5); PowDouble(8, 10);
    PowDouble(10, 1); PowDouble(10, 2); PowDouble(10, 4); PowDouble(10, 9);
    PowDouble(16, 1); PowDouble(16, 2); PowDouble(16, 4); PowDouble(16, 8);
  }

  /** What the limits on the number of digits are worth: more of them are out of range, and none wrap. */
  lemma DigitLimits(base: Base)
    ensures I64_MAX + (if base == 10 then 1 else 0) < Pow(base, MaxDigits(base)) <= U64
  {
    Powers();
  }

  lemma {:induction false} PowMonotone(b: nat, k: nat, m: nat)
    requires b >= 1 && k <= m
    ensures 1 <= Pow(b, k) <= Pow(b, m)
    decreases m
  {
    if k < m {
      PowMonotone(b, k, m - 1);
      assert Pow(b, m - 1) <= b * Pow(b, m - 1);
    } else if k > 0 {
      PowMonotone(b, k - 1, k - 1);
      assert b * Pow(b, k - 1) >= 1;
    }
  }

  lemma AllDigitsTail(ds: string, i: nat, base: Base)
    requires i <= |ds| && AllDigitChars(ds, base)
    ensures AllDigitChars(ds[i..], base) && AllDigitChars(ds[..i], base)
  {
    forall c | c in ds[i..] || c in ds[..i] ensures c in ds {}
  }

  lemma FromTextFront(ds: string, i: nat, base: Base)
    requires i < |ds| && AllDigitChars(ds, base)
    ensures AllDigitChars(ds[i..], base) && AllDigitChars(ds[i + 1..], base) && IsDigitChar(ds[i], 16)
    ensures FromText(ds[i..], base) == DigitValue(ds[i]) * Pow(base, |ds| - i - 1) + FromText(ds[i + 1..], base)
    ensures DigitValue(ds[i]) < base && FromText(ds[i..], base) < Pow(base, |ds| - i)
  {
    AllDigitsTail(ds, i, base);
    AllDigitsTail(ds, i + 1, base);
    HexDigits(ds[i..], base);
    HexDigits(ds[i + 1..], base);
    assert ds[i] in ds;
    assert DigitValues(ds[i..])[0] in DigitValues(ds[i..]);
    assert DigitValues(ds[i..]) == [DigitValue(ds[i])] + DigitValues(ds[i + 1..]);
    FromDigitsFront(DigitValue(ds[i]), DigitValues(ds[i + 1..]), base);
    FromDigitsBound(DigitValues(ds[i..]), base);
  }

  /** The accumulation of the value in a `uint64_t`, from the last digit; nothing ever wraps. */
  method Accumulate(ds: string, msd: nat, base: Base) returns (result: nat)
    requires msd < |ds| && AllDigitChars(ds, base) && |ds| - msd <= MaxDigits(base)
    ensures AllDigitChars(ds[msd..], base) && result == FromText(ds[msd..], base)
  {
    hide Pow, FromText, FromDigits, IsDigitChar, DigitValue, AllDigitChars, MaxDigits;
    var end, power := |ds|, 1;
    result := 0;
    EmptyText(ds, base);
    Remainder(1);
    while end > msd
      invariant msd <= end <= |ds| && power == Pow(base, |ds| - end) % U64
      invariant AllDigitChars(ds[end..], base) && result == FromText(ds[end..], base)
    {
      FromTextFront(ds, end - 1, base);
      NothingWraps(base, |ds| - end);
      Remainder(Pow(base, |ds| - end));
      Remainder(FromText(ds[end - 1..], base));
      var digit := DigitValue(ds[end - 1]);
      Commute(power, digit);
      end := end - 1;
      result := (result + power * digit) % U64;
      power := power * base % U64;
    }
  }

  lemma Remainder(n: nat)
    ensures n < U64 ==> n % U64 == n
  {}

  /** A power that a digit is still multiplied with has not wrapped, nor has the value so far. */
  lemma NothingWraps(base: Base, e: nat)
    requires e < MaxDigits(base)
    ensures Pow(base, e) < U64 && Pow(base, e + 1) <= U64 && Pow(base, e + 1) == Pow(base, e) * base
  {
    hide Pow;
    DigitLimits(base);
    PowMonotone(base, e + 1, MaxDigits(base));
    PowMonotone(base, e, e + 1);
    PowStep(base, e);
  }

  lemma Commute(a: nat, b: nat)
    ensures a * b == b * a
  {}

  lemma PowStep(b: nat, e: nat)
    ensures Pow(b, e + 1) == Pow(b, e) * b && Pow(b, 0) == 1
    ensures b >= 2 ==> Pow(b, e) <= Pow(b, e + 1) && (Pow(b, e) > 0 ==> Pow(b, e) < Pow(b, e + 1))
  {}

  lemma EmptyText(ds: string, base: Base)
    ensures AllDigitChars(ds[|ds|..], base) && FromText(ds[|ds|..], base) == 0 && Pow(base, 0) == 1
  {}

  lemma ZerosDrop(ds: string, msd: nat, base: Base)
    requires msd <= |ds| && AllDigitChars(ds, base) && forall i | 0 <= i < msd :: ds[i] == '0'
    ensures AllDigitChars(ds[msd..], base) && FromText(ds, base) == FromText(ds[msd..], base)
  {
    AllDigitsTail(ds, msd, base);
    HexDigits(ds, base);
    HexDigits(ds[msd..], base);
    var zs := DigitValues(ds)[..msd];
    assert DigitValues(ds) == zs + DigitValues(ds[msd..]);
    LeadingZeros(zs, DigitValues(ds[msd..]), base);
  }

  /** Too many digits, the first of which is not zero. */
  lemma TooManyDigits(ds: string, base: Base)
    requires |ds| > MaxDigits(base) && AllDigitChars(ds, base) && ds[0] != '0'
    ensures FromText(ds, base) > I64_MAX + if base == 10 then 1 else 0
  {
    hide Pow, FromText, FromDigits, MaxDigits, AllDigitChars, IsDigitChar, DigitValue;
    FromTextFront(ds, 0, base);
    assert ds[0..] == ds;
    DigitLimits(base);
    PowMonotone(base, MaxDigits(base), |ds| - 1);
    NotZero(ds[0], Pow(base, |ds| - 1));
  }

  lemma NotZero(c: char, p: nat)
    requires IsDigitChar(c, 16) && c != '0'
    ensures DigitValue(c) * p >= p
  {
    assert DigitValue(c) >= 1;
  }

  /** The conversion of the collected digits. */
  method Convert(digits: string, base: Base, negative: bool) returns (r: Option<int>)
    requires 1 <= |digits| <= MAX_DIGITS_READ && AllDigitChars(digits, base) && (negative ==> base == 10)
    ensures r == Denotes(digits, base, negative)
  {
    hide FromText, IsDigitChar, AllDigitChars, DigitValue, MaxDigits;
    if |digits| == 1 {
      OneDigit(digits, base);
      var result: int := DigitValue(digits[0]);
      return Some(if negative then -result else result);
    }
    var msd := 0;
    if base != 10 {
      while msd < |digits| && digits[msd] == '0'
        invariant msd <= |digits| && forall i | 0 <= i < msd :: digits[i] == '0'
      {
        msd := msd + 1;
      }
      ZerosDrop(digits, msd, base);
      if msd == |digits| {
        EmptyText(digits, base);
        return Some(0);
      }
    } else {
      if digits[0] == '0' { return None; }
      assert digits[0..] == digits;
    }
    if |digits| - msd > MaxDigits(base) {
      TooManyDigits(digits[msd..], base);
      return None;
    }
    var result := Accumulate(digits, msd, base);
    if result > I64_MAX + (if negative then 1 else 0) { return None; }
    if negative && result == I64_MAX + 1 { return Some(I64_MIN); }
    var n: int := result;
    return Some(if negative then -n else n);
  }

  lemma OneDigit(ds: string, base: Base)
    requires |ds| == 1 && AllDigitChars(ds, base)
    ensures IsDigitChar(ds[0], 16) && FromText(ds, base) == DigitValue(ds[0]) < 16
  {
    FromTextFront(ds, 0, base);
    EmptyText(ds, base);
    assert ds[0..] == ds && ds[1..] == ds[|ds|..];
  }

  /** `parse_integer`. */
  method ParseInteger(text: string, shown: string, pos: nat, base: Base) returns (r: Option<Parsed<int>>)
    requires pos < |text| == |shown|
    ensures r == Integer(text, shown, pos, base)
  {
    hide Denotes, WellSpaced, TokenEnd, Digits, IsDigitChar;
    var p := pos;
    var negative := false;
    if base == 10 {
      negative := text[p] == '-';
      if IsSign(text[p]) {
        p := p + 1;
        if p == |text| { return None; }
      }
    } else {
      PrefixOf(text, p, base);
      if text[p] != '0' { return None; }
      p := p + 1;
      if p == |text| || text[p] != PrefixChar(base) { return None; }
      p := p + 1;
      if p == |text| { return None; }
    }
    NotADigit(text, shown, p, base);
    if !IsDigitChar(text[p], base) { return None; }
    var digits := ConsumeDigits(text, shown, p, base);
    if digits.None? {
      if WellSpaced(text, shown, p, TokenEnd(text, p), base) { LimitExceeded(text, shown, p, base, negative); }
      return None;
    }
    SpacedDigits(text, shown, p, base);
    var n := Convert(digits.value.value, base, negative);
    if n.None? { return None; }
    return Some(Parsed(n.value, digits.value.after));
  }

  function PrefixChar(base: Base): char
    requires base != 10
  {
    if base == 2 then 'b' else if base == 8 then 'o' else 'x'
  }

  lemma PrefixOf(text: string, pos: nat, base: Base)
    requires pos < |text| && base != 10
    ensures HasPrefix(text, pos, base) <==> pos + 1 < |text| && text[pos] == '0' && text[pos + 1] == PrefixChar(base)
  {
    if pos + 2 <= |text| { assert text[pos..pos + 2] == [text[pos], text[pos + 1]]; }
  }

  lemma NotADigit(text: string, shown: string, start: nat, base: Base)
    requires start < |text| == |shown|
    ensures WellSpaced(text, shown, start, TokenEnd(text, start), base) ==> IsDigitChar(text[start], base)
  {}

  lemma SpacedDigits(text: string, shown: string, start: nat, base: Base)
    requires start < |text| == |shown| && WellSpaced(text, shown, start, TokenEnd(text, start), base)
    ensures var ds := Digits(text[start..TokenEnd(text, start)]); AllDigitChars(ds, base) && |ds| >= 1
  {
    var end := TokenEnd(text, start);
    DigitsAreDigits(text, shown, start, end, base);
    DigitsNotTerminators(text[start], base);
    DigitsStep(text, start, start);
    DigitsGrow(text[start..end], 1);
    assert text[start..end][..1] == text[start..start + 1];
  }

  lemma LimitExceeded(text: string, shown: string, start: nat, base: Base, negative: bool)
    requires start < |text| == |shown|
    requires WellSpaced(text, shown, start, TokenEnd(text, start), base)
    requires |Digits(text[start..TokenEnd(text, start)])| > MAX_DIGITS_READ
    ensures AllDigitChars(Digits(text[start..TokenEnd(text, start)]), base)
    ensures Denotes(Digits(text[start..TokenEnd(text, start)]), base, negative) == None
  {
    SpacedDigits(text, shown, start, base);
  }

  // ---------------------------------------------------------------- printing

  /** The formats a formatter is allowed to use. */
  datatype IntFlags = IntFlags(binary: bool, octal: bool, hexadecimal: bool)

  function BaseOf(f: IntFormat): Base {
    match f
    case Decimal => 10
    case Binary => 2
    case Octal => 8
    case Hexadecimal => 16
  }

  predicate Allows(flags: IntFlags, f: IntFormat) {
    match f
    case Decimal => true
    case Binary => flags.binary
    case Octal => flags.octal
    case Hexadecimal => flags.hexadecimal
  }

  /** The base a formatter prints an integer in; only decimal integers can be negative. */
  function PrintBase(n: int, f: IntFormat, flags: IntFlags): (base: Base)
    ensures n < 0 ==> base == 10
  {
    if n >= 0 && Allows(flags, f) then BaseOf(f) else 10
  }

  /** The text of an integer in a base. */
  function IntegerText(n: int, base: Base): string {
    if n < 0 then "-" + ToText(-n, 10) else Prefix(base) + ToText(n, base)
  }

  /** `print_integer_to_stream` without a minimum number of digits. */
  method PrintIntegerToStream(val: int, format: IntFormat) returns (os: string)
    ensures os == if val < 0 then "-" + ToText(-val, 10) else ToText(val, BaseOf(format))
  {
    if val == 0 { return "0"; }
    var base: Base := 10;
    if format != Decimal && val > 0 { base := BaseOf(format); }
    os := if val < 0 then "-" + ToText(-val, base) else ToText(val, base);
  }

  /** `formatter::print` of an integer. */
  method PrintInteger(val: int, format: IntFormat, flags: IntFlags) returns (os: string)
    ensures os == IntegerText(val, PrintBase(val, format, flags))
  {
    hide ToText;
    if val >= 0 && (flags.binary || flags.octal || flags.hexadecimal) {
      match format
      case Binary =>
        if flags.binary {
          var digits := PrintIntegerToStream(val, format);
          return "0b" + digits;
        }
      case Octal =>
        if flags.octal {
          var digits := PrintIntegerToStream(val, format);
          return "0o" + digits;
        }
      case Hexadecimal =>
        if flags.hexadecimal {
          var digits := PrintIntegerToStream(val, format);
          return "0x" + digits;
        }
      case Decimal =>
    }
    os := PrintIntegerToStream(val, Decimal);
    assert "" + os == os;
  }

  // ---------------------------------------------------------------- the round trip

  lemma {:induction false} TokenEndAt(text: string, i: nat, e: nat)
    requires i <= e <= |text| && EndsAt(text, e) && forall j | i <= j < e :: !IsValueTerminator(text[j])
    ensures TokenEnd(text, i) == e
    decreases e - i
  {
    if i < e { TokenEndAt(text, i + 1, e); }
  }

  lemma {:induction false} DigitsOfDigits(s: string)
    requires '_' !in s
    ensures Digits(s) == s
  {
    if s != "" {
      assert s == s[..|s| - 1] + [s[|s| - 1]];
      DigitsOfDigits(s[..|s| - 1]);
    }
  }

  /** What the digits of a number look like. */
  lemma NumberText(n: nat, base: Base)
    requires n <= I64_MAX + if base == 10 then 1 else 0
    ensures AllDigitChars(ToText(n, base), base) && FromText(ToText(n, base), base) == n
    ensures 1 <= |ToText(n, base)| <= MaxDigits(base)
    ensures |ToText(n, base)| > 1 ==> ToText(n, base)[0] != '0'
  {
    TextRoundTrip(n, base);
    DigitLimits(base);
    DigitCount(n, base, MaxDigits(base));
    NoLeadingZero(n, base);
    ToDigitsAreDigits(n, base);
    assert ToDigits(n, base)[0] in ToDigits(n, base);
    assert DigitChars(ToDigits(n, base))[0] == DigitChar(ToDigits(n, base)[0]);
  }

  /** Digits without underscores that end where the value ends are read as they stand. */
  lemma PlainDigits(text: string, shown: string, start: nat, ds: string, base: Base)
    requires start + |ds| <= |text| == |shown| && text[start..start + |ds|] == ds && EndsAt(text, start + |ds|)
    requires ds != "" && AllDigitChars(ds, base) && shown[start + |ds| - 1] != '_'
    ensures TokenEnd(text, start) == start + |ds|
    ensures WellSpaced(text, shown, start, start + |ds|, base) && Digits(ds) == ds
  {
    var end := start + |ds|;
    forall i | start <= i < end ensures IsDigitChar(text[i], base) && !IsValueTerminator(text[i]) && text[i] != '_' {
      assert text[i] == ds[i - start] && ds[i - start] in ds;
      DigitsNotTerminators(text[i], base);
    }
    TokenEndAt(text, start, end);
    DigitsOfDigits(ds);
  }

  lemma Parts(text: string, pos: nat, a: string, b: string)
    requires pos <= |text| && a + b <= text[pos..]
    ensures pos + |a| + |b| <= |text|
    ensures text[pos..pos + |a|] == a && text[pos + |a|..pos + |a| + |b|] == b
  {
    var s := text[pos..];
    assert s[..|a + b|] == a + b;
    assert text[pos..pos + |a|] == (a + b)[..|a|];
    assert text[pos + |a|..pos + |a| + |b|] == (a + b)[|a|..];
  }

  function Head(n: int, base: Base): string {
    if n < 0 then "-" else Prefix(base)
  }

  lemma HeadIsRead(text: string, pos: nat, n: int, base: Base, ds: string)
    requires n < 0 ==> base == 10
    requires pos + |Head(n, base)| + |ds| <= |text| && text[pos..pos + |Head(n, base)|] == Head(n, base)
    requires text[pos + |Head(n, base)|..pos + |Head(n, base)| + |ds|] == ds
    requires ds != "" && AllDigitChars(ds, base)
    ensures HasPrefix(text, pos, base) && DigitsFrom(text, pos, base) == pos + |Head(n, base)|
    ensures Negative(text, pos, base) <==> n < 0
  {
    var h := Head(n, base);
    assert text[pos + |h|] == ds[0] && ds[0] in ds;
    if n < 0 { assert text[pos] == text[pos..pos + |h|][0]; }
  }

  /** Every printed `int64_t`, in every base, is read back where it ends before a value terminator. */
  lemma IntegerRoundTrip(text: string, shown: string, pos: nat, n: int, base: Base)
    requires FitsI64(n) && (n < 0 ==> base == 10)
    requires pos <= |text| == |shown| && IntegerText(n, base) <= text[pos..] && EndsAt(text, pos + |IntegerText(n, base)|)
    requires shown[pos + |IntegerText(n, base)| - 1] != '_'
    ensures Integer(text, shown, pos, base) == Some(Parsed(n, pos + |IntegerText(n, base)|))
  {
    hide ToText, FromText, IsDigitChar, AllDigitChars, Digits, TokenEnd, WellSpaced, MaxDigits, EndsAt, HasPrefix,
      DigitsFrom, Negative, Prefix;
    var m: nat := if n < 0 then -n else n;
    NumberText(m, base);
    var h, ds := Head(n, base), ToText(m, base);
    assert IntegerText(n, base) == h + ds;
    Parts(text, pos, h, ds);
    HeadIsRead(text, pos, n, base, ds);
    PlainDigits(text, shown, pos + |h|, ds, base);
    ManyDigits(base);
  }

  lemma ManyDigits(base: Base)
    ensures MaxDigits(base) <= MAX_DIGITS_READ
  {}

  // ---------------------------------------------------------------- underscores

  /**
    Where the pointers of the parser still show what was read, an integer is well spaced exactly
    if every underscore has a digit on both sides (TOML v1.0.0, "Integer").
  */
  lemma UnderscoresBetweenDigits(text: string, start: nat, end: nat, base: Base)
    requires start < end <= |text|
    ensures WellSpaced(text, text, start, end, base) <==>
            forall i | start <= i < end :: IsDigitChar(text[i], base) || BetweenDigits(text, start, end, i, base)
  {
    DigitsNotTerminators('_', base);
    if WellSpaced(text, text, start, end, base) {
      forall i | start <= i < end ensures IsDigitChar(text[i], base) || BetweenDigits(text, start, end, i, base) {
        assert GoesOnAt(text, text, start, i, base);
        if i + 1 < end { assert GoesOnAt(text, text, start, i + 1, base); }
      }
    }
  }

  predicate BetweenDigits(text: string, start: nat, end: nat, i: nat, base: Base)
    requires start <= i < end <= |text|
  {
    text[i] == '_' && start < i < end - 1 && IsDigitChar(text[i - 1], base) && IsDigitChar(text[i + 1], base)
  }
}
