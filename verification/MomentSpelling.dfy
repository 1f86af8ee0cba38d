/** The spellings of date-times that `toml.hpp` reads besides the one it prints. */
module MomentSpellings {
  import opened Characters
  import opened DateTimes
  import opened Integers
  import opened Numerals
  import opened TomlValues
  import opened Wrappers

  /** Two texts are the same from a position on, but for the case of `z`. */
  predicate AlikeFrom(a: string, b: string, pos: nat) {
    |a| == |b| && forall i | pos <= i < |a| :: a[i] == b[i] || (a[i] == 'z' && b[i] == 'Z')
  }

  lemma AlikeLater(a: string, b: string, pos: nat, later: nat)
    requires AlikeFrom(a, b, pos) && pos <= later
    ensures AlikeFrom(a, b, later)
  {}

  lemma NumberAlike(a: string, b: string, pos: nat, n: nat)
    requires AlikeFrom(a, b, pos)
    ensures Number(a, pos, n) == Number(b, pos, n)
  {
    hide FromText;
    if pos + n <= |a| {
      var s, t := a[pos..pos + n], b[pos..pos + n];
      if i :| 0 <= i < n && s[i] != t[i] {
        assert s[i] == a[pos + i] && t[i] == b[pos + i];
        assert s[i] in s && t[i] in t;
      } else {
        assert s == t;
      }
    }
  }

  lemma AtAlike(a: string, b: string, pos: nat, c: char)
    requires AlikeFrom(a, b, pos) && c != 'z' && c != 'Z'
    ensures At(a, pos, [c]) == At(b, pos, [c])
  {
    hide At;
    AtChar(a, pos, c);
    AtChar(b, pos, c);
  }

  lemma EndsAlike(a: string, b: string, pos: nat)
    requires AlikeFrom(a, b, pos)
    ensures EndsAt(a, pos) == EndsAt(b, pos)
  {}

  lemma {:induction false} RunAlike(a: string, b: string, pos: nat)
    requires AlikeFrom(a, b, pos) && pos <= |a|
    ensures RunEnd(a, pos) == RunEnd(b, pos)
    decreases |a| - pos
  {
    if pos < |a| && IsDecimalDigit(a[pos]) { RunAlike(a, b, pos + 1); }
  }

  lemma FractionAlike(a: string, b: string, pos: nat, inMoment: bool)
    requires AlikeFrom(a, b, pos)
    ensures FractionAt(a, pos, inMoment) == FractionAt(b, pos, inMoment)
  {
    hide FractionOf, EndsAt;
    EndsAlike(a, b, pos);
    if pos < |a| && a[pos] == '.' {
      AlikeLater(a, b, pos, pos + 1);
      RunAlike(a, b, pos + 1);
      var end := RunEnd(a, pos + 1);
      AlikeLater(a, b, pos, end);
      EndsAlike(a, b, end);
      assert a[pos + 1..end] == b[pos + 1..end];
      FractionIs(a, pos + 1, end);
      FractionIs(b, pos + 1, end);
    }
  }

  lemma FractionIs(text: string, a: nat, b: nat)
    requires a <= b <= |text| && forall i | a <= i < b :: IsDecimalDigit(text[i])
    ensures AllDigitChars(text[a..b], 16) && FractionOf(text, a, b) == Fraction(DigitValues(text[a..b]))
  {
    hide Fraction;
    RunDigits(text, a, b);
    HexDigits(text[a..b], 10);
  }

  lemma TimeAlike(a: string, b: string, pos: nat)
    requires AlikeFrom(a, b, pos)
    ensures TimeAt(a, pos, true) == TimeAt(b, pos, true)
  {
    hide Number, At, FractionAt;
    NumberAlike(a, b, pos, 2);
    NumberAlike(a, b, pos + 3, 2);
    NumberAlike(a, b, pos + 6, 2);
    AtAlike(a, b, pos + 2, ':');
    AtAlike(a, b, pos + 5, ':');
    FractionAlike(a, b, pos + 8, true);
  }

  lemma SignedAlike(a: string, b: string, pos: nat, sign: int)
    requires AlikeFrom(a, b, pos) && (sign == 1 || sign == -1)
    ensures SignedOffset(a, pos, sign) == SignedOffset(b, pos, sign)
  {
    hide Number, At;
    NumberAlike(a, b, pos, 2);
    NumberAlike(a, b, pos + 3, 2);
    AtAlike(a, b, pos + 2, ':');
  }

  lemma OffsetAlike(a: string, b: string, pos: nat)
    requires AlikeFrom(a, b, pos)
    ensures OffsetAt(a, pos) == OffsetAt(b, pos)
  {
    hide SignedOffset;
    EndsAlike(a, b, pos);
    if !EndsAt(a, pos) {
      EndsAlike(a, b, pos + 1);
      SignedAlike(a, b, pos + 1, 1);
      SignedAlike(a, b, pos + 1, -1);
      if SignedOffset(a, pos + 1, 1).Some? || SignedOffset(a, pos + 1, -1).Some? { EndsAlike(a, b, pos + 6); }
      SignedEnd(a, pos + 1);
    }
  }

  lemma SignedEnd(text: string, pos: nat)
    ensures SignedOffset(text, pos, 1).Some? ==> SignedOffset(text, pos, 1).value.after == pos + 5
    ensures SignedOffset(text, pos, -1).Some? ==> SignedOffset(text, pos, -1).value.after == pos + 5
  {
    hide Number, At;
  }

  lemma DateAlike(a: string, b: string, pos: nat)
    requires |a| == |b| && forall i | pos <= i < pos + 10 && i < |a| :: a[i] == b[i] || (a[i] == 'z' && b[i] == 'Z')
    ensures DateAt(a, pos) == DateAt(b, pos)
  {
    hide Number, At;
    var n := if pos + 10 <= |a| then pos + 10 else |a|;
    if pos <= n {
      DateWithin(a, pos, n);
      DateWithin(b, pos, n);
      NumberAlike(a[..n], b[..n], pos, 4);
      NumberAlike(a[..n], b[..n], pos + 5, 2);
      NumberAlike(a[..n], b[..n], pos + 8, 2);
      AtAlike(a[..n], b[..n], pos + 4, '-');
      AtAlike(a[..n], b[..n], pos + 7, '-');
    } else {
      NumberBeyond(a, pos);
      NumberBeyond(b, pos);
    }
  }

  lemma NumberBeyond(text: string, pos: nat)
    requires pos > |text|
    ensures Number(text, pos, 4) == None
  {}

  /** A date does not depend on what is behind it. */
  lemma DateWithin(text: string, pos: nat, n: nat)
    requires n == (if pos + 10 <= |text| then pos + 10 else |text|)
    ensures DateAt(text, pos) == DateAt(text[..n], pos)
  {
    hide FromText, AllDigitChars;
    if pos + 10 <= |text| {
      assert text[pos..pos + 4] == text[..n][pos..pos + 4] && text[pos + 5..pos + 7] == text[..n][pos + 5..pos + 7];
      assert text[pos + 8..pos + 10] == text[..n][pos + 8..pos + 10];
      assert text[pos + 4..pos + 5] == text[..n][pos + 4..pos + 5];
      assert text[pos + 7..pos + 8] == text[..n][pos + 7..pos + 8];
    } else {
      assert text[..n] == text;
    }
  }

  /** The other spellings: a space or `t` between date and time, and `z` for UTC. */
  predicate IsRespelled(a: string, b: string, pos: nat) {
    && |a| == |b|
    && forall i | pos <= i < |a| ::
         || a[i] == b[i] || (a[i] == 'z' && b[i] == 'Z')
         || (i == pos + 10 && (a[i] == ' ' || a[i] == 't') && b[i] == 'T')
  }

  /** A date-time is read in all its spellings as in the one that is printed. */
  lemma RespelledReads(a: string, b: string, pos: nat)
    requires IsRespelled(a, b, pos)
    ensures MomentAt(a, pos) == MomentAt(b, pos)
  {
    hide DateAt, TimeAt, OffsetAt;
    DateAlike(a, b, pos);
    var p := pos + 11;
    assert AlikeFrom(a, b, p);
    TimeAlike(a, b, p);
    var t := TimeAt(a, p, true);
    if t.Some? { OffsetAlike(a, b, t.value.after); }
  }

  /** A printed date-time with another separator or `z` is read back exactly if it is valid. */
  lemma RespelledRoundTrip(a: string, b: string, pos: nat, m: DateTime)
    requires IsRespelled(a, b, pos) && At(b, pos, MomentText(m)) && EndsAt(b, pos + |MomentText(m)|)
    ensures MomentAt(a, pos) == Some(Parsed(m, pos + |MomentText(m)|)) <==> IsMoment(m)
  {
    hide MomentAt, MomentText, At, EndsAt, IsRespelled, IsMoment;
    RespelledReads(a, b, pos);
    MomentRoundTrip(b, pos, m);
  }

  /** A fraction of any digits is read exactly if they are at most 64, and gives the nanoseconds of its first nine. */
  lemma FractionIsRead(text: string, pos: nat, s: string, inMoment: bool)
    requires s != "" && (forall c | c in s :: IsDecimalDigit(c)) && At(text, pos, "." + s)
    requires TimeEndsAt(text, pos + 1 + |s|, inMoment)
    ensures AllDigitChars(s, 16)
    ensures FractionAt(text, pos, inMoment) ==
            if |s| > MAX_FRACTION then None else Some(Parsed(Fraction(DigitValues(s)), pos + 1 + |s|))
  {
    hide FractionOf, Fraction, AllDigitChars, TimeEndsAt;
    var e := pos + 1 + |s|;
    AtConcat(text, pos, ".", s);
    AtChar(text, pos, '.');
    assert text[pos + 1..e] == s;
    forall i | pos + 1 <= i < e ensures IsDecimalDigit(text[i]) { assert text[i] == s[i - pos - 1]; }
    DotEndsNothing(text, pos, inMoment);
    NoDigitAtEnd(text, e, inMoment);
    RunEndAt(text, pos + 1, e);
    FractionIs(text, pos + 1, e);
  }

  lemma DotEndsNothing(text: string, pos: nat, inMoment: bool)
    requires pos < |text| && text[pos] == '.'
    ensures !TimeEndsAt(text, pos, inMoment)
  {}

  lemma NoDigitAtEnd(text: string, pos: nat, inMoment: bool)
    requires TimeEndsAt(text, pos, inMoment)
    ensures pos < |text| ==> !IsDecimalDigit(text[pos])
    ensures !inMoment ==> EndsAt(text, pos)
  {}
}
