/**
  How far `parse_value` of `toml.hpp` reads ahead. Afterwards it steps back by as much, which the history
  of the reader (`BufferedReader.StepBack`) bounds by 127 code points.
*/
module LookAheads {
  import opened BufferedReaders
  import opened Characters
  import opened DateTimes
  import opened Numerals
  import opened PrintedNumbers
  import opened Sequences
  import opened TomlValues
  import opened ValueKinds

  /**
    A date whose ten characters are spread by underscores over nearly the whole history, with a
    space behind it: looking for a time there takes the reader too far.
  */
  predicate LongDate(text: string, pos: nat)
    requires pos < |text|
  {
    var s := ScanFrom(text, pos, 0, "", Begins(text[pos]));
    var n, p := s.after - pos, s.after;
    && CouldGoOn(s) && p < |text| && text[p] == ' '
    && if p + 1 == |text| || !IsDecimalDigit(text[p + 1]) then n == HistorySize
       else if p + 2 == |text| then n >= HistorySize - 1
       else n >= HistorySize - 2
  }

  /** The look-ahead stays within the history exactly if it does not begin at such a date. */
  lemma StepsBackWithinHistory(text: string, pos: nat)
    requires pos < |text|
    ensures Reached(text, pos) - pos <= HistorySize <==> !LongDate(text, pos)
  {
    hide ScanFrom, Begins, CouldGoOn;
    var s := ScanFrom(text, pos, 0, "", Begins(text[pos]));
    var p := s.after;
    ScanStops(text, pos, 0, "", Begins(text[pos]));
    if p + 2 < |text| {
      var n, chars, t := p + 2 - pos, s.chars + [' ', text[p + 1]], s.traits + {LetterT};
      if n < MAX_SCAN { ScanStops(text, p + 2, n, chars, t); } else { ScanUnfolds(text, p + 2, n, chars, t); }
    }
  }

  lemma {:induction false} ScanPasses(text: string, pos: nat, count: nat, chars: string, t: Traits, more: string)
    requires At(text, pos, more) && '_' !in more && count + |more| < MAX_SCAN
    requires !EndsAt(text, pos + |more|) && forall c | c in more :: !IsValueTerminator(c)
    ensures pos + |more| < |text|
    ensures ScanFrom(text, pos, count, chars, t)
         == ScanFrom(text, pos + |more|, count + |more|, chars + more, Fold(t, chars, more))
    decreases |more|
  {
    hide AddTrait, IsValueTerminator, ScanFrom, At;
    if more == "" {
      assert chars + more == chars;
    } else {
      var c, rest := more[0], more[1..];
      assert more == [c] + rest && c in more;
      AtConcat(text, pos, [c], rest);
      AtChar(text, pos, c);
      ScanUnfolds(text, pos, count, chars, t);
      forall d | d in rest ensures d in more {}
      if rest != "" { NotAtEnd(text, pos + 1, rest); }
      ScanPasses(text, pos + 1, count + 1, chars + [c], AddTrait(t, chars, c), rest);
      Assoc(chars, [c], rest);
    }
  }

  function Underscores(n: nat): (s: string)
    ensures |s| == n && forall i | 0 <= i < n :: s[i] == '_'
  {
    seq(n, i => '_')
  }

  lemma {:induction false} ScanUnderscores(text: string, pos: nat, count: nat, chars: string, t: Traits)
    requires count < MAX_SCAN && pos + (MAX_SCAN - count) <= |text|
    requires forall i | pos <= i < pos + (MAX_SCAN - count) :: text[i] == '_'
    ensures ScanFrom(text, pos, count, chars, t) == Scanned(t, chars, pos + (MAX_SCAN - count))
    decreases MAX_SCAN - count
  {
    if count + 1 < MAX_SCAN { ScanUnderscores(text, pos + 1, count + 1, chars, t); }
  }

  /** Such a date: any date with 117 underscores and a space behind it. */
  lemma LongDateInput(text: string, pos: nat, d: Date)
    requires IsDate(d) && At(text, pos, DateText(d) + (Underscores(117) + " "))
    ensures pos < |text| && LongDate(text, pos) && Reached(text, pos) - pos > HistorySize
  {
    hide DateText, ScanFrom, At, IsDate, Fold, Begins, CouldGoOn, Reached, IsValueTerminator;
    var s, us := DateText(d), Underscores(117) + " ";
    AtConcat(text, pos, s, us);
    DateFold({}, "", d);
    DateFold(Begins(s[0]), "", d);
    AtCharOf(text, pos, s, 0);
    AtFits(text, pos + 10, us);
    assert forall i | pos + 10 <= i < pos + MAX_SCAN :: text[i] == us[i - (pos + 10)];
    assert text[pos + MAX_SCAN] == us[117];
    ScanDate(text, pos, s);
    DateGoesOn(d, pos + MAX_SCAN);
    StepsBackWithinHistory(text, pos);
  }

  lemma AtFits(text: string, pos: nat, s: string)
    requires At(text, pos, s)
    ensures pos + |s| <= |text| && forall i | 0 <= i < |s| :: text[pos + i] == s[i]
    ensures forall i | pos <= i < pos + |s| :: text[i] == s[i - pos]
  {
    forall i | 0 <= i < |s| ensures text[pos + i] == s[i] { AtCharOf(text, pos, s, i); }
  }

  lemma ScanDate(text: string, pos: nat, s: string)
    requires At(text, pos, s) && |s| == 10 && PrintedNumbers.Plain(s) && pos + MAX_SCAN < |text|
    requires forall i | pos + 10 <= i < pos + MAX_SCAN :: text[i] == '_'
    ensures ScanFrom(text, pos, 0, "", Begins(text[pos])) == Scanned(Fold(Begins(text[pos]), "", s), s, pos + MAX_SCAN)
  {
    hide ScanFrom, At, Fold, Begins;
    ScanPasses(text, pos, 0, "", Begins(text[pos]), s);
    assert "" + s == s;
    ScanUnderscores(text, pos + 10, 10, s, Fold(Begins(text[pos]), "", s));
  }

  lemma DateGoesOn(d: Date, after: nat)
    requires IsDate(d)
    ensures var s := DateText(d); s != "" && CouldGoOn(Scanned(Fold(Begins(s[0]), "", s), s, after))
  {
    hide Padded, Fold, AllDigitChars, Pow;
    DateFold({}, "", d);
    DateFold(Begins(DateText(d)[0]), "", d);
    Powers10();
    PaddedText(d.year, 4, 10);
    PaddedText(d.month, 2, 10);
    PaddedText(d.day, 2, 10);
    var c := DateText(d)[0];
    assert Begins(c) + {Digits, Minus} + {BeginsZero} == {BeginsZero, BeginsDigit, Digits, Minus};
  }
}
