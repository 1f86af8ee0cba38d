/** How `parse_value` of `toml.hpp` tells integers, floats, dates and times apart: a scan ahead for traits. */
module ValueKinds {
  import opened Characters
  import opened Integers
  import opened Numerals
  import opened Sequences
  import opened Wrappers

  /** `value_traits`, and the set of them that a value has. */
  datatype Trait =
    | Digits | LetterB | LetterE | LetterO | LetterP | LetterT | LetterX | LetterZ
    | Colon | Plus | Minus | Dot | BeginsSign | BeginsDigit | BeginsZero

  type Traits = set<Trait>

  /** How far the scan may read before it has to be able to go back. */
  const MAX_SCAN: nat := 127

  function Begins(c: char): Traits {
    if c == '0' then {BeginsDigit, BeginsZero}
    else if IsDecimalDigit(c) then {BeginsDigit}
    else {BeginsSign}
  }

  function Lower(c: char): char {
    if 'A' <= c <= 'Z' then c + ('a' - 'A') else c
  }

  /** The trait that `c` stands for behind the characters of the value so far. */
  function TraitOf(t: Traits, chars: string, c: char): Option<Trait> {
    var n := |chars| + 1;
    if IsDecimalDigit(c) then Some(Digits)
    else
      match Lower(c)
      case '+' => Some(Plus)
      case '-' => Some(Minus)
      case '.' => Some(Dot)
      case ':' => Some(Colon)
      case 'b' => if n == 2 && BeginsZero in t then Some(LetterB) else None
      case 'e' => if IsExponent(t, n) then Some(LetterE) else None
      case 'o' => if n == 2 && BeginsZero in t then Some(LetterO) else None
      case 'p' => if LetterX in t then Some(LetterP) else None
      case 'x' =>
        if (n == 2 && BeginsZero in t) || (n == 3 && BeginsSign in t && chars[1] == '0') then Some(LetterX) else None
      case 't' => Some(LetterT)
      case 'z' => Some(LetterZ)
      case _ => None
  }

  predicate IsExponent(t: Traits, n: nat) {
    && n > 1 && t * {LetterB, LetterO, LetterP, LetterT, LetterX, LetterZ, Colon} == {}
    && (t * {Plus, Minus} == {} || BeginsSign in t)
  }

  function AddTrait(t: Traits, chars: string, c: char): Traits {
    var x := TraitOf(t, chars, c);
    if x.None? then t else t + {x.value}
  }

  datatype Scanned = Scanned(traits: Traits, chars: string, after: nat)

  /** The scan: the characters without underscores, up to the end of the value or the limit. */
  function ScanFrom(text: string, pos: nat, count: nat, chars: string, t: Traits): (s: Scanned)
    requires pos < |text|
    ensures pos < s.after <= |text| && chars <= s.chars && |s.chars| - |chars| <= s.after - pos
    decreases |text| - pos
  {
    var c := text[pos];
    var more, traits := if c == '_' then chars else chars + [c], if c == '_' then t else AddTrait(t, chars, c);
    if count + 1 < MAX_SCAN && !EndsAt(text, pos + 1) then ScanFrom(text, pos + 1, count + 1, more, traits)
    else Scanned(traits, more, pos + 1)
  }

  /** The first ten characters could be a date with a space and a time behind it. */
  predicate CouldGoOn(s: Scanned) {
    && |s.chars| == 10 && s.chars[4] == '-' && s.chars[7] == '-'
    && s.traits + {BeginsZero} == {BeginsZero, BeginsDigit, Digits, Minus}
  }

  /** A date, a space and a digit: the scan goes on, unless nothing but the digit follows. */
  function ScanTime(text: string, pos: nat, s: Scanned): (r: Scanned)
    requires pos < s.after <= |text|
    ensures s.after <= r.after <= |text| && s.chars <= r.chars && |r.chars| - |s.chars| <= r.after - s.after
  {
    var p := s.after;
    if p + 1 >= |text| || text[p] != ' ' || !IsDecimalDigit(text[p + 1]) || p + 2 == |text| then s
    else
      var r := ScanFrom(text, p + 2, p + 2 - pos, s.chars + [' ', text[p + 1]], s.traits + {LetterT});
      if |r.chars| == 12 then s else r
  }

  predicate BeginsNumber(c: char) {
    IsDecimalDigit(c) || IsSign(c)
  }

  function ScanValue(text: string, pos: nat): (s: Scanned)
    requires pos < |text| && BeginsNumber(text[pos])
    ensures s.after <= |text| && 1 <= |s.chars| <= s.after - pos
  {
    ScansSomething(text, pos);
    var s := ScanFrom(text, pos, 0, "", Begins(text[pos]));
    if CouldGoOn(s) then ScanTime(text, pos, s) else s
  }

  lemma ScansSomething(text: string, pos: nat)
    requires pos < |text| && text[pos] != '_'
    ensures |ScanFrom(text, pos, 0, "", Begins(text[pos])).chars| >= 1
  {
    hide AddTrait;
  }

  datatype Kind = OneDigit | SignedDigit | IntegerKind(base: Base) | FloatKind | DateKind | TimeKind | MomentKind | NoKind

  /** The exclusive matches of the last switch; exponents and prefixes have been dealt with. */
  function SwitchKind(t: Traits): Kind {
    var d := t - {BeginsZero};
    if d == {BeginsDigit, Digits} then IntegerKind(10)
    else if d == {BeginsDigit, Digits, Dot} then FloatKind
    else if d - {Dot} == {BeginsDigit, Digits, Colon} then TimeKind
    else if d == {BeginsDigit, Digits, Minus} then DateKind
    else if d - {Dot, Plus} == {BeginsDigit, Digits, Minus, Colon, LetterT} then MomentKind
    else if d - {Dot} == {BeginsDigit, Digits, Minus, Colon, LetterT, LetterZ} then MomentKind
    else if t == {BeginsSign, Digits, Minus} || t == {BeginsSign, Digits, Plus} then IntegerKind(10)
    else if t == {BeginsSign, Digits, Dot, Minus} || t == {BeginsSign, Digits, Dot, Plus} then FloatKind
    else NoKind
  }

  predicate BeginsInfOrNan(c: char) {
    Lower(c) == 'i' || Lower(c) == 'n'
  }

  /** The kind of a value that begins with a digit or a sign. */
  function KindOf(s: Scanned): Kind
    requires |s.chars| >= 1
  {
    var t := s.traits;
    if |s.chars| == 1 then (if BeginsDigit in t then OneDigit else NoKind)
    else if LetterP in t then FloatKind
    else if LetterX in t then IntegerKind(16)
    else if LetterO in t then IntegerKind(8)
    else if LetterB in t then IntegerKind(2)
    else if LetterE in t || (BeginsDigit in t && s.chars[1] == '.') then FloatKind
    else if BeginsSign in t && |s.chars| == 2 && Digits in t then SignedDigit
    else if BeginsSign in t && IsDecimalDigit(s.chars[1]) && |s.chars| > 2 && s.chars[2] == '.' then FloatKind
    else if BeginsSign in t && BeginsInfOrNan(s.chars[1]) then FloatKind
    else SwitchKind(t)
  }

  /** The scanning loop of `parse_value`. */
  method Scan(text: string, pos: nat, count: nat, chars: string, t: Traits) returns (s: Scanned)
    requires pos < |text|
    ensures s == ScanFrom(text, pos, count, chars, t)
  {
    hide AddTrait, IsValueTerminator, ScanFrom;
    s := Scanned(t, chars, pos);
    var advanceCount: nat := count;
    while true
      invariant s.after < |text| && ScanFrom(text, pos, count, chars, t)
                == ScanFrom(text, s.after, advanceCount, s.chars, s.traits)
      decreases |text| - s.after
    {
      var c := text[s.after];
      ScanUnfolds(text, s.after, advanceCount, s.chars, s.traits);
      if c != '_' { s := s.(chars := s.chars + [c], traits := AddTrait(s.traits, s.chars, c)); }
      s := s.(after := s.after + 1);
      advanceCount := advanceCount + 1;
      if !(advanceCount < MAX_SCAN && s.after < |text| && !IsValueTerminator(text[s.after])) { return; }
    }
  }

  lemma ScanUnfolds(text: string, pos: nat, count: nat, chars: string, t: Traits)
    requires pos < |text|
    ensures var c := text[pos];
            var more, traits := if c == '_' then chars else chars + [c], if c == '_' then t else AddTrait(t, chars, c);
            ScanFrom(text, pos, count, chars, t) ==
            if count + 1 < MAX_SCAN && !EndsAt(text, pos + 1) then ScanFrom(text, pos + 1, count + 1, more, traits)
            else Scanned(traits, more, pos + 1)
  {
    hide AddTrait, EndsAt;
  }

  /** How far the look-ahead reads before the reader is set back to `pos`. */
  function Reached(text: string, pos: nat): (r: nat)
    requires pos < |text|
    ensures pos < r <= |text|
  {
    var s := ScanFrom(text, pos, 0, "", Begins(text[pos]));
    var p := s.after;
    if !CouldGoOn(s) || p == |text| || text[p] != ' ' then p
    else if p + 1 == |text| || !IsDecimalDigit(text[p + 1]) then p + 1
    else if p + 2 == |text| then p + 2
    else ScanFrom(text, p + 2, p + 2 - pos, s.chars + [' ', text[p + 1]], s.traits + {LetterT}).after
  }

  /** The look-ahead of `parse_value`: what it has seen, and how far the reader has to go back. */
  method ScanAhead(text: string, pos: nat) returns (s: Scanned, advanceCount: nat)
    requires pos < |text| && BeginsNumber(text[pos])
    ensures s == ScanValue(text, pos) && pos + advanceCount == Reached(text, pos)
  {
    hide ScanFrom, AddTrait;
    s := Scan(text, pos, 0, "", Begins(text[pos]));
    advanceCount := s.after - pos;
    if CouldGoOn(s) && s.after < |text| && text[s.after] == ' ' {
      advanceCount := advanceCount + 1;
      if pos + advanceCount == |text| || !IsDecimalDigit(text[pos + advanceCount]) { return; }
      advanceCount := advanceCount + 1;
      if pos + advanceCount == |text| { return; }
      var r := Scan(text, pos + advanceCount, advanceCount, s.chars + [' ', text[s.after + 1]], s.traits + {LetterT});
      advanceCount := r.after - pos;
      if |r.chars| != 12 { s := r; }
    }
  }

  lemma {:induction false} ScanKeepsBegin(text: string, pos: nat, count: nat, chars: string, t: Traits)
    requires pos < |text|
    ensures BeginsDigit in ScanFrom(text, pos, count, chars, t).traits <==> BeginsDigit in t
    decreases |text| - pos
  {
    hide TraitOf;
    var c := text[pos];
    AddKeepsBegin(t, chars, c);
    if count + 1 < MAX_SCAN && !EndsAt(text, pos + 1) {
      if c == '_' {
        ScanKeepsBegin(text, pos + 1, count + 1, chars, t);
      } else {
        ScanKeepsBegin(text, pos + 1, count + 1, chars + [c], AddTrait(t, chars, c));
      }
    }
  }

  lemma AddKeepsBegin(t: Traits, chars: string, c: char)
    ensures BeginsDigit in AddTrait(t, chars, c) <==> BeginsDigit in t
  {}

  /** Dates, times and date-times begin with a digit. */
  lemma KindBegins(text: string, pos: nat)
    requires pos < |text| && BeginsNumber(text[pos])
    ensures var k := KindOf(ScanValue(text, pos));
            k.DateKind? || k.TimeKind? || k.MomentKind? ==> IsDecimalDigit(text[pos])
  {
    hide ScanFrom, AddTrait;
    var t := Begins(text[pos]);
    ScanKeepsBegin(text, pos, 0, "", t);
    var s := ScanFrom(text, pos, 0, "", t);
    var p := s.after;
    if p + 2 < |text| {
      ScanKeepsBegin(text, p + 2, p + 2 - pos, s.chars + [' ', text[p + 1]], s.traits + {LetterT});
    }
    DatesBegin(ScanValue(text, pos));
  }

  lemma DatesBegin(s: Scanned)
    requires |s.chars| >= 1
    ensures KindOf(s).DateKind? || KindOf(s).TimeKind? || KindOf(s).MomentKind? ==> BeginsDigit in s.traits
  {
    var d := s.traits - {BeginsZero};
    assert BeginsDigit in d || BeginsDigit !in d - {Dot};
    assert BeginsDigit in d || BeginsDigit !in d - {Dot, Plus};
    assert BeginsDigit in {BeginsDigit, Digits, Colon} && BeginsDigit in {BeginsDigit, Digits, Minus};
    assert BeginsDigit in {BeginsDigit, Digits, Minus, Colon, LetterT};
    assert BeginsDigit in {BeginsDigit, Digits, Minus, Colon, LetterT, LetterZ};
  }

  // ---------------------------------------------------------------- the kinds of printed values

  function Fold(t: Traits, chars: string, more: string): Traits
    decreases |more|
  {
    if more == "" then t else Fold(AddTrait(t, chars, more[0]), chars + [more[0]], more[1..])
  }

  /** The scan stops at the end of the value or at its limit. */
  lemma {:induction false} ScanStops(text: string, pos: nat, count: nat, chars: string, t: Traits)
    requires pos < |text| && count < MAX_SCAN
    ensures var e := ScanFrom(text, pos, count, chars, t).after;
            && e - pos <= MAX_SCAN - count && (EndsAt(text, e) || e - pos == MAX_SCAN - count)
            && forall i | pos < i < e :: !IsValueTerminator(text[i])
    decreases |text| - pos
  {
    hide AddTrait, IsValueTerminator;
    var c := text[pos];
    if count + 1 < MAX_SCAN && !EndsAt(text, pos + 1) {
      ScanStops(text, pos + 1, count + 1, if c == '_' then chars else chars + [c], if c == '_' then t else AddTrait(t, chars, c));
    }
  }

  /** Without underscores, the scan folds the characters of a value up to its end or the limit. */
  lemma {:induction false} ScanFolds(text: string, pos: nat, count: nat, chars: string, t: Traits, more: string)
    requires more != "" && At(text, pos, more) && '_' !in more
    requires count + |more| == MAX_SCAN || (EndsAt(text, pos + |more|) && count + |more| < MAX_SCAN)
    requires forall c | c in more :: !IsValueTerminator(c)
    ensures pos < |text|
    ensures ScanFrom(text, pos, count, chars, t) == Scanned(Fold(t, chars, more), chars + more, pos + |more|)
    decreases |more|
  {
    hide AddTrait, IsValueTerminator, ScanFrom, At;
    var c, rest := more[0], more[1..];
    assert more == [c] + rest && c in more;
    AtConcat(text, pos, [c], rest);
    AtChar(text, pos, c);
    ScanUnfolds(text, pos, count, chars, t);
    if rest == "" {
      FoldChar(t, chars, c);
    } else {
      forall d | d in rest ensures d in more {}
      NotAtEnd(text, pos + 1, rest);
      ScanFolds(text, pos + 1, count + 1, chars + [c], AddTrait(t, chars, c), rest);
      Assoc(chars, [c], rest);
    }
  }

  lemma NotAtEnd(text: string, pos: nat, more: string)
    requires more != "" && At(text, pos, more) && forall c | c in more :: !IsValueTerminator(c)
    ensures !EndsAt(text, pos)
  {
    AtCharOf(text, pos, more, 0);
    assert more[0] in more;
  }

  lemma {:induction false} FoldConcat(t: Traits, chars: string, a: string, b: string)
    ensures Fold(t, chars, a + b) == Fold(Fold(t, chars, a), chars + a, b)
    decreases |a|
  {
    hide AddTrait;
    if a == "" {
      assert a + b == b && chars + a == chars;
    } else {
      assert (a + b)[0] == a[0] && (a + b)[1..] == a[1..] + b;
      FoldConcat(AddTrait(t, chars, a[0]), chars + [a[0]], a[1..], b);
      assert chars + [a[0]] + a[1..] == chars + a;
    }
  }

  lemma FoldChar(t: Traits, chars: string, c: char)
    ensures Fold(t, chars, [c]) == AddTrait(t, chars, c)
  {
    hide AddTrait;
    assert [c][1..] == "";
    assert Fold(AddTrait(t, chars, c), chars + [c], "") == AddTrait(t, chars, c);
  }

  lemma {:induction false} FoldDigits(t: Traits, chars: string, ds: string)
    requires ds != "" && AllDigitChars(ds, 10)
    ensures Fold(t, chars, ds) == t + {Digits}
    decreases |ds|
  {
    hide TraitOf;
    assert ds[0] in ds;
    AllDigitsTail(ds, 1, 10);
    DigitTrait(t, chars, ds[0]);
    if |ds| > 1 {
      FoldDigits(t + {Digits}, chars + [ds[0]], ds[1..]);
      assert t + {Digits} + {Digits} == t + {Digits};
    }
  }

  lemma DigitTrait(t: Traits, chars: string, c: char)
    requires IsDecimalDigit(c)
    ensures TraitOf(t, chars, c) == Some(Digits)
  {}

  /** Behind a prefix, digits of its base add no other traits. */
  lemma {:induction false} FoldPrefixed(t: Traits, chars: string, ds: string, base: Base)
    requires AllDigitChars(ds, base) && |chars| >= 2
    requires base == 16 ==> LetterX in t
    ensures t <= Fold(t, chars, ds) <= t + {Digits}
    decreases |ds|
  {
    hide TraitOf;
    if ds != "" {
      assert ds[0] in ds;
      AllDigitsTail(ds, 1, base);
      PrefixedTrait(t, chars, ds[0], base);
      FoldPrefixed(AddTrait(t, chars, ds[0]), chars + [ds[0]], ds[1..], base);
    }
  }

  lemma PrefixedTrait(t: Traits, chars: string, c: char, base: Base)
    requires IsDigitChar(c, base) && |chars| >= 2
    requires base == 16 ==> LetterX in t
    ensures TraitOf(t, chars, c) == Some(Digits) || TraitOf(t, chars, c) == None
  {
    if LetterX in t { assert LetterX in t * {LetterB, LetterO, LetterP, LetterT, LetterX, LetterZ, Colon}; }
  }
}
