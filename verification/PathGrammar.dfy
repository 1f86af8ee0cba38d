/** The texts of paths as a grammar, and that `parse_path` of `toml.hpp` reads exactly them. */
module PathGrammar {
  import opened Characters
  import opened Numerals
  import opened Paths
  import opened Sequences
  import opened Wrappers

  /**
    A key, or an index in brackets. Blanks may stand around the digits and behind the closing bracket, and the
    closing bracket may be missing.
  */
  datatype Spelled = Named(key: string) | Indexed(lead: string, digits: string, mid: string, closed: bool, tail: string)

  predicate AreDigits(s: string) {
    s != "" && AllDigitChars(s, 10)
  }

  predicate SpelledOk(p: Spelled) {
    match p
    case Named(k) => CleanKey(k)
    case Indexed(lead, digits, mid, closed, tail) =>
      && AllBlank(lead) && AllBlank(mid) && AllBlank(tail) && (!closed ==> tail == "")
      && AreDigits(digits) && FromText(digits, 10) <= U64_MAX
  }

  ghost predicate AllOk(ps: seq<Spelled>) {
    forall p | p in ps :: SpelledOk(p)
  }

  function IndexText(p: Spelled): string
    requires p.Indexed?
  {
    "[" + (p.lead + (p.digits + (p.mid + (if p.closed then "]" + p.tail else ""))))
  }

  /** A dot stands before every key but the first. */
  function Written(ps: seq<Spelled>): string {
    if ps == [] then ""
    else (if ps[0].Named? then "." + ps[0].key else IndexText(ps[0])) + Written(ps[1..])
  }

  function PathText(ps: seq<Spelled>): string {
    if ps != [] && ps[0].Named? then ps[0].key + Written(ps[1..]) else Written(ps)
  }

  function ComponentOf(p: Spelled): Component
    requires SpelledOk(p)
  {
    if p.Named? then Key(p.key) else Index(FromText(p.digits, 10))
  }

  ghost function Components(ps: seq<Spelled>): (cs: seq<Component>)
    requires AllOk(ps)
    ensures |cs| == |ps|
  {
    if ps == [] then [] else
      assert ps[0] in ps;
      [ComponentOf(ps[0])] + Components(ps[1..])
  }

  lemma OkCons(p: Spelled, ps: seq<Spelled>)
    ensures AllOk([p] + ps) <==> SpelledOk(p) && AllOk(ps)
    ensures AllOk([p] + ps) ==> Components([p] + ps) == [ComponentOf(p)] + Components(ps)
    ensures Written([p] + ps) == (if p.Named? then "." + p.key else IndexText(p)) + Written(ps)
  {
    hide SpelledOk;
    var all := [p] + ps;
    assert all[1..] == ps && all[0] == p;
    if AllOk(all) {
      assert p in all;
      forall q | q in ps ensures SpelledOk(q) { assert q in all; }
    }
  }

  /** What the components of a list of pieces amount to: empty keys right before an index do not count. */
  lemma LostCons(p: Spelled, ps: seq<Spelled>)
    requires SpelledOk(p) && AllOk(ps)
    ensures AllOk([p] + ps)
    ensures DropLost(Components([p] + ps)) ==
            if p == Named("") && ps != [] && ps[0].Indexed? then DropLost(Components(ps))
            else [ComponentOf(p)] + DropLost(Components(ps))
  {
    hide SpelledOk, DropLost;
    OkCons(p, ps);
    DropLostCons(ComponentOf(p), Components(ps));
    if ps != [] {
      assert ps == [ps[0]] + ps[1..];
      OkCons(ps[0], ps[1..]);
    }
  }

  // ---------------------------------------------------------------- every path of the grammar is read

  lemma {:induction false} BlanksToDigit(path: string, i: nat, lead: string)
    requires i <= |path| && lead <= path[i..] && AllBlank(lead)
    requires i + |lead| < |path| && IsDecimalDigit(path[i + |lead|])
    ensures IndexStart(path, i) == Some(i + |lead|)
    decreases |lead|
  {
    if lead != "" {
      assert path[i] == lead[0] && lead[0] in lead;
      assert lead[1..] <= path[i + 1..];
      BlanksToDigit(path, i + 1, lead[1..]);
    }
  }

  lemma {:induction false} DigitsEnd(path: string, i: nat, e: nat)
    requires i <= e <= |path| && (forall j | i <= j < e :: IsDecimalDigit(path[j]))
    requires e < |path| ==> IsSpaceOrTab(path[e]) || IsSpecial(path[e])
    ensures IndexEnd(path, i) == Some(e)
    decreases e - i
  {
    if i < e { DigitsEnd(path, i + 1, e); }
  }

  lemma {:induction false} BlanksToBracket(path: string, i: nat, mid: string)
    requires i <= |path| && mid <= path[i..] && AllBlank(mid)
    requires i + |mid| < |path| ==> IsSpecial(path[i + |mid|])
    ensures IndexAfter(path, i) ==
            var e := i + |mid|; Some(if e < |path| && path[e] == ']' then e + 1 else e)
    decreases |mid|
  {
    if mid != "" {
      assert path[i] == mid[0] && mid[0] in mid;
      assert mid[1..] <= path[i + 1..];
      BlanksToBracket(path, i + 1, mid[1..]);
    }
  }

  /** Behind an index that is read there is the end, a dot or a bracket. */
  predicate GoesOn(rest: string) {
    rest == "" || rest[0] == '.' || rest[0] == '['
  }

  lemma WrittenGoesOn(ps: seq<Spelled>)
    ensures GoesOn(Written(ps))
  {}

  lemma Splits(path: string, pos: nat, a: string, b: string)
    requires pos <= |path| && path[pos..] == a + b
    ensures pos + |a| <= |path| && path[pos..pos + |a|] == a && path[pos + |a|..] == b && a <= path[pos..]
  {
    Continues(path, pos, a, b);
  }

  lemma AssocFive(a: string, b: string, c: string, d: string, e: string, f: string)
    ensures (a + (b + (c + (d + e)))) + f == a + (b + (c + (d + (e + f))))
  {
    Assoc(a, b + (c + (d + e)), f);
    Assoc(b, c + (d + e), f);
    Assoc(c, d + e, f);
    Assoc(d, e, f);
  }

  lemma NotEmpty(ds: string)
    requires AreDigits(ds)
    ensures ds != "" && AllDigitChars(ds, 10) && forall c | c in ds :: IsDecimalDigit(c)
  {}

  /** Blanks behind a bracket lead to the first digit. */
  lemma StartIs(path: string, i: nat, lead: string, ds: string, rest: string)
    requires i <= |path| && path[i..] == lead + (ds + rest) && AllBlank(lead) && AreDigits(ds)
    ensures i + |lead| <= |path| && path[i + |lead|..] == ds + rest
    ensures IndexStart(path, i) == Some(i + |lead|)
  {
    hide IsDecimalDigit, AllBlank, IndexStart;
    NotEmpty(ds);
    Splits(path, i, lead, ds + rest);
    assert path[i + |lead|] == path[i + |lead|..][0] == ds[0];
    BlanksToDigit(path, i, lead);
  }

  /** The digits end before a blank, a dot or a bracket. */
  lemma EndIs(path: string, s: nat, ds: string, rest: string)
    requires s <= |path| && path[s..] == ds + rest && AreDigits(ds)
    requires rest != "" ==> IsSpaceOrTab(rest[0]) || IsSpecial(rest[0])
    ensures s < |path| && s + |ds| <= |path| && path[s + |ds|..] == rest && path[s..s + |ds|] == ds
    ensures IndexEnd(path, s + 1) == Some(s + |ds|)
  {
    hide IsDecimalDigit, IndexEnd, IsSpecial, IsSpaceOrTab;
    NotEmpty(ds);
    Splits(path, s, ds, rest);
    forall j | s <= j < s + |ds| ensures IsDecimalDigit(path[j]) {
      assert path[j] == path[s..s + |ds|][j - s] && ds[j - s] in ds;
    }
    if rest != "" { assert path[s + |ds|] == path[s + |ds|..][0]; }
    DigitsEnd(path, s + 1, s + |ds|);
  }

  /** Blanks behind the digits lead to a closing bracket, or to where the path goes on without one. */
  lemma AfterIs(path: string, e: nat, mid: string, rest: string)
    requires e <= |path| && path[e..] == mid + rest && AllBlank(mid) && (rest != "" ==> IsSpecial(rest[0]))
    ensures e + |mid| <= |path| && path[e + |mid|..] == rest
    ensures IndexAfter(path, e) == Some(e + |mid| + if rest != "" && rest[0] == ']' then 1 else 0)
  {
    hide AllBlank, IndexAfter, IsSpecial;
    Splits(path, e, mid, rest);
    if rest != "" { assert path[e + |mid|] == path[e + |mid|..][0]; }
    BlanksToBracket(path, e, mid);
  }

  lemma BlankOrSpecial(mid: string, rest: string)
    requires AllBlank(mid) && (rest != "" ==> IsSpecial(rest[0]))
    ensures mid + rest != "" ==> IsSpaceOrTab((mid + rest)[0]) || IsSpecial((mid + rest)[0])
  {
    if mid != "" { assert mid[0] in mid; }
  }

  lemma TokenIs(path: string, pos: nat, s: nat, e: nat, a: nat, ds: string)
    requires pos < s < e <= a <= |path| && path[s..e] == ds && AllDigitChars(ds, 10) && FromText(ds, 10) <= U64_MAX
    requires IndexStart(path, pos + 1) == Some(s) && IndexEnd(path, s + 1) == Some(e) && IndexAfter(path, e) == Some(a)
    ensures ReadIndex(path, pos) == Some(IndexToken(FromText(ds, 10), a))
  {
    hide FromText, IndexStart, IndexEnd, IndexAfter;
  }

  /** The token of an index, up to behind its bracket. */
  lemma TokenReads(path: string, pos: nat, lead: string, ds: string, mid: string, rest: string)
    requires AllBlank(lead) && AllBlank(mid) && AreDigits(ds) && FromText(ds, 10) <= U64_MAX
    requires pos < |path| && path[pos + 1..] == lead + (ds + (mid + rest)) && (rest != "" ==> IsSpecial(rest[0]))
    ensures var m := pos + 1 + |lead| + |ds| + |mid|;
            && m <= |path| && path[m..] == rest
            && ReadIndex(path, pos)
               == Some(IndexToken(FromText(ds, 10), m + if rest != "" && rest[0] == ']' then 1 else 0))
  {
    hide FromText, IndexStart, IndexEnd, IndexAfter, IsDecimalDigit, AllBlank, AreDigits, ReadIndex, IsSpecial;
    NotEmpty(ds);
    var s := pos + 1 + |lead|;
    var e := s + |ds|;
    StartIs(path, pos + 1, lead, ds, mid + rest);
    BlankOrSpecial(mid, rest);
    EndIs(path, s, ds, mid + rest);
    AfterIs(path, e, mid, rest);
    TokenIs(path, pos, s, e, e + |mid| + if rest != "" && rest[0] == ']' then 1 else 0, ds);
  }

  lemma LengthOf(p: Spelled)
    requires p.Indexed?
    ensures |IndexText(p)| == 1 + |p.lead| + |p.digits| + |p.mid| + if p.closed then 1 + |p.tail| else 0
  {}

  /** What stands behind the digits and blanks of an index. */
  lemma Closes(p: Spelled, rest: string) returns (last: string)
    requires p.Indexed? && SpelledOk(p) && GoesOn(rest)
    ensures IndexText(p) + rest == "[" + (p.lead + (p.digits + (p.mid + last)))
    ensures last != "" ==> IsSpecial(last[0])
    ensures if p.closed then last == "]" + (p.tail + rest) else last == rest && p.tail == ""
  {
    hide FromText, AllBlank, AreDigits;
    var end := if p.closed then "]" + p.tail else "";
    AssocFive("[", p.lead, p.digits, p.mid, end, rest);
    last := end + rest;
    if p.closed { Assoc("]", p.tail, rest); } else { assert "" + rest == rest; }
  }

  lemma IndexReads(path: string, pos: nat, p: Spelled, rest: string)
    requires p.Indexed? && SpelledOk(p) && pos <= |path| && path[pos..] == IndexText(p) + rest && GoesOn(rest)
    ensures pos < |path| && path[pos] == '[' && AllDigitChars(p.digits, 10)
    ensures var a := pos + |IndexText(p)| - |p.tail|;
            && pos < a <= |path| && path[a..] == p.tail + rest
            && ReadIndex(path, pos) == Some(IndexToken(FromText(p.digits, 10), a))
  {
    hide FromText, AllBlank, AreDigits, GoesOn, IndexText, ReadIndex, IsSpecial;
    var last := Closes(p, rest);
    LengthOf(p);
    NotEmpty(p.digits);
    Splits(path, pos, "[", p.lead + (p.digits + (p.mid + last)));
    assert path[pos..pos + 1][0] == '[';
    TokenReads(path, pos, p.lead, p.digits, p.mid, last);
    if p.closed {
      Splits(path, pos + 1 + |p.lead| + |p.digits| + |p.mid|, "]", p.tail + rest);
    } else {
      NoBracket(rest);
      assert p.tail + rest == rest;
    }
  }

  lemma NoBracket(rest: string)
    requires GoesOn(rest)
    ensures rest != "" ==> rest[0] != ']'
  {}

  lemma BlankIsNotSpecial(c: char)
    ensures IsSpaceOrTab(c) ==> !IsSpecial(c)
  {}

  /** Blanks behind an index do not matter. */
  lemma TailIsSkipped(path: string, a: nat, tail: string, rest: string)
    requires a <= |path| && path[a..] == tail + rest && AllBlank(tail) && GoesOn(rest)
    ensures a + |tail| <= |path| && path[a + |tail|..] == rest
    ensures Scan(path, a, true, false) == Scan(path, a + |tail|, false, false)
  {
    hide ReadIndex;
    Continues(path, a, tail, rest);
    if tail != "" {
      var e := a + |tail|;
      forall j | a <= j < e ensures !IsSpecial(path[j]) {
        assert path[j] == tail[j - a] && tail[j - a] in tail;
        BlankIsNotSpecial(path[j]);
      }
      FindSpecialAt(path, a + 1, e);
      assert path[a..e] == tail;
    }
  }

  lemma ScanBracket(path: string, pos: nat, afterIndex: bool, afterDot: bool)
    requires pos < |path| && path[pos] == '[' && ReadIndex(path, pos).Some?
    ensures var t := ReadIndex(path, pos).value;
            Scan(path, pos, afterIndex, afterDot) == Cons(Index(t.value), Scan(path, t.after, true, false))
  {
    hide ReadIndex;
  }

  lemma ScanIndexed(path: string, pos: nat, p: Spelled, rest: string, afterIndex: bool, afterDot: bool)
    requires p.Indexed? && SpelledOk(p) && pos <= |path| && path[pos..] == IndexText(p) + rest && GoesOn(rest)
    ensures var end := pos + |IndexText(p)|;
            && pos < end <= |path| && path[end..] == rest
            && Scan(path, pos, afterIndex, afterDot) == Cons(ComponentOf(p), Scan(path, end, false, false))
  {
    hide ReadIndex, FromText, GoesOn, IndexText, AllBlank, AreDigits, Scan;
    IndexReads(path, pos, p, rest);
    ScanBracket(path, pos, afterIndex, afterDot);
    LengthOf(p);
    TailIsSkipped(path, pos + |IndexText(p)| - |p.tail|, p.tail, rest);
  }

  lemma {:induction false} RestIsRead(path: string, pos: nat, ps: seq<Spelled>)
    requires pos <= |path| && AllOk(ps) && path[pos..] == Written(ps)
    ensures Scan(path, pos, false, false) == Parsed(DropLost(Components(ps)), true)
    decreases |ps|, 1
  {
    hide Scan, SpelledOk, Written, Components, DropLost, ReadIndex, IndexText;
    if ps == [] {
      NothingWritten();
      assert |path[pos..]| == 0;
      ScanEnds(path, false, false);
    } else {
      var p, rest := ps[0], ps[1..];
      assert ps == [p] + rest;
      OkCons(p, rest);
      LostCons(p, rest);
      WrittenGoesOn(rest);
      match p
      case Named(k) =>
        Assoc(".", k, Written(rest));
        ScanDot(path, pos, k + Written(rest), false, false);
        KeyIsRead(path, pos + 1, k, rest);
      case Indexed(_, _, _, _, _) =>
        ScanIndexed(path, pos, p, Written(rest), false, false);
        RestIsRead(path, pos + |IndexText(p)|, rest);
    }
  }

  lemma NothingWritten()
    ensures Written([]) == "" && Components([]) == [] && DropLost([]) == []
  {}

  lemma KeyIsClean(k: string)
    requires SpelledOk(Named(k))
    ensures CleanKey(k) && ComponentOf(Named(k)) == Key(k)
  {}

  /** Behind a dot, or at the beginning. */
  lemma {:induction false} KeyIsRead(path: string, pos: nat, k: string, ps: seq<Spelled>)
    requires pos <= |path| && path[pos..] == k + Written(ps) && SpelledOk(Named(k)) && AllOk(ps)
    ensures AllOk([Named(k)] + ps)
    ensures Scan(path, pos, false, true) == Parsed(DropLost(Components([Named(k)] + ps)), true)
    decreases |ps|, 2
  {
    hide Scan, SpelledOk, Written, Components, DropLost, ReadIndex, IndexText, CleanKey;
    KeyIsClean(k);
    LostCons(Named(k), ps);
    WrittenGoesOn(ps);
    if k != "" {
      ScanWord(path, pos, k, Written(ps), true);
      RestIsRead(path, pos + |k|, ps);
    } else {
      assert path[pos..] == Written(ps);
      EmptyKeyIsRead(path, pos, ps);
    }
  }

  lemma {:induction false} EmptyKeyIsRead(path: string, pos: nat, ps: seq<Spelled>)
    requires pos <= |path| && path[pos..] == Written(ps) && AllOk(ps)
    ensures Scan(path, pos, false, true) ==
            Parsed((if ps != [] && ps[0].Indexed? then [] else [Key("")]) + DropLost(Components(ps)), true)
    decreases |ps|, 0
  {
    hide Scan, SpelledOk, Written, Components, DropLost, ReadIndex, IndexText, AllOk, CleanKey;
    if ps == [] {
      NothingWritten();
      assert |path[pos..]| == 0;
      ScanEnds(path, false, true);
      assert [Key("")] + [] == [Key("")];
    } else {
      var p, rest := ps[0], ps[1..];
      assert ps == [p] + rest;
      OkCons(p, rest);
      LostCons(p, rest);
      if p.Named? {
        Assoc(".", p.key, Written(rest));
        ScanDot(path, pos, p.key + Written(rest), false, true);
        KeyIsRead(path, pos + 1, p.key, rest);
      } else {
        WrittenGoesOn(rest);
        ScanIndexed(path, pos, p, Written(rest), false, true);
        RestIsRead(path, pos + |IndexText(p)|, rest);
        assert [] + DropLost(Components(ps)) == DropLost(Components(ps));
      }
    }
  }

  /** Every path of the grammar is read as its components, without the empty keys right before an index. */
  lemma PathIsRead(ps: seq<Spelled>)
    requires ps != [] && AllOk(ps)
    ensures Parse(PathText(ps)) == Parsed(DropLost(Components(ps)), true)
  {
    hide Scan, SpelledOk, Written, Components, DropLost, IndexText;
    var p, rest := ps[0], ps[1..];
    assert ps == [p] + rest && PathText(ps)[0..] == PathText(ps);
    OkCons(p, rest);
    LostCons(p, rest);
    WrittenGoesOn(rest);
    match p
    case Named(k) =>
      KeyIsRead(PathText(ps), 0, k, rest);
      if PathText(ps) == "" { ScanEnds("", false, true); }
    case Indexed(_, _, _, _, _) =>
      ScanIndexed(PathText(ps), 0, p, Written(rest), false, true);
      RestIsRead(PathText(ps), |IndexText(p)|, rest);
  }

  // ---------------------------------------------------------------- every path that is read is of the grammar

  lemma {:induction false} StartStands(path: string, i: nat)
    requires i <= |path| && IndexStart(path, i).Some?
    ensures AllBlank(path[i..IndexStart(path, i).value])
    decreases |path| - i
  {
    if !IsDecimalDigit(path[i]) {
      StartStands(path, i + 1);
      var s := IndexStart(path, i).value;
      assert path[i..s] == [path[i]] + path[i + 1..s];
    }
  }

  lemma {:induction false} AfterStands(path: string, i: nat)
    requires i <= |path| && IndexAfter(path, i).Some?
    ensures var a := IndexAfter(path, i).value;
            if a > i && path[a - 1] == ']' then AllBlank(path[i..a - 1])
            else AllBlank(path[i..a]) && (a < |path| ==> path[a] == '.' || path[a] == '[')
    decreases |path| - i
  {
    if i < |path| && path[i] != ']' && path[i] != '.' && path[i] != '[' {
      AfterStands(path, i + 1);
      var a := IndexAfter(path, i).value;
      if a > i && path[a - 1] == ']' {
        assert path[i..a - 1] == [path[i]] + path[i + 1..a - 1];
      } else {
        assert path[i..a] == [path[i]] + path[i + 1..a];
      }
    }
  }

  lemma RunIsDigits(path: string, i: nat, e: nat)
    requires i < e <= |path| && forall j | i <= j < e :: IsDecimalDigit(path[j])
    ensures AreDigits(path[i..e])
  {
    forall c | c in path[i..e] ensures IsDigitChar(c, 10) {
      var j :| i <= j < e && path[j] == c;
    }
  }

  /** The index that a token was read from, without what follows its bracket. */
  lemma IndexStands(path: string, pos: nat) returns (p: Spelled)
    requires pos < |path| && path[pos] == '[' && ReadIndex(path, pos).Some?
    ensures p.Indexed? && SpelledOk(p) && p.tail == ""
    ensures var t := ReadIndex(path, pos).value;
            && ComponentOf(p) == Index(t.value) && path[pos..t.after] == IndexText(p)
            && (!p.closed && t.after < |path| ==> path[t.after] == '.' || path[t.after] == '[')
  {
    hide FromText, IndexStart, IndexEnd, IndexAfter, IsDecimalDigit, AllDigitChars, AllBlank, AreDigits;
    var s := IndexStart(path, pos + 1).value;
    var e := IndexEnd(path, s + 1).value;
    var a := IndexAfter(path, e).value;
    StartStands(path, pos + 1);
    AfterStands(path, e);
    RunIsDigits(path, s, e);
    NoBlanks();
    var closed := a > e && path[a - 1] == ']';
    var b := if closed then a - 1 else a;
    p := Indexed(path[pos + 1..s], path[s..e], path[e..b], closed, "");
    FiveParts(path, pos, s, e, b, a, closed);
  }

  lemma NoBlanks()
    ensures AllBlank("")
  {}

  lemma FiveParts(path: string, pos: nat, s: nat, e: nat, b: nat, a: nat, closed: bool)
    requires pos < s <= e <= b <= a <= |path| && path[pos] == '['
    requires if closed then a == b + 1 && path[b] == ']' else a == b
    ensures path[pos..a] == IndexText(Indexed(path[pos + 1..s], path[s..e], path[e..b], closed, ""))
  {
    assert "]" + "" == "]";
    assert path[pos..a] == path[pos..pos + 1] + path[pos + 1..a] && path[pos..pos + 1] == "[";
    assert path[pos + 1..a] == path[pos + 1..s] + path[s..a];
    assert path[s..a] == path[s..e] + path[e..a];
    assert path[e..a] == path[e..b] + path[b..a];
    assert path[b..a] == if closed then "]" else "";
  }

  /** Blanks between an index and what goes on behind it belong to the index. */
  lemma WithTail(path: string, pos: nat, a: nat, e: nat, p: Spelled) returns (q: Spelled)
    requires p.Indexed? && SpelledOk(p) && p.tail == "" && pos <= a <= e <= |path| && path[pos..a] == IndexText(p)
    requires AllBlank(path[a..e]) && (!p.closed ==> a == e)
    ensures q.Indexed? && SpelledOk(q) && ComponentOf(q) == ComponentOf(p) && path[pos..e] == IndexText(q)
  {
    hide FromText, AreDigits;
    q := p.(tail := path[a..e]);
    assert path[pos..e] == path[pos..a] + path[a..e];
    if p.closed { assert "]" + "" + path[a..e] == "]" + path[a..e]; }
  }

  lemma NextIs(path: string, pos: nat, e: nat, p: Spelled, ps: seq<Spelled>)
    requires pos <= e <= |path| && SpelledOk(p) && AllOk(ps) && path[e..] == Written(ps)
    requires path[pos..e] == if p.Named? then "." + p.key else IndexText(p)
    ensures AllOk([p] + ps) && path[pos..] == Written([p] + ps)
  {
    hide SpelledOk, Written;
    OkCons(p, ps);
    assert path[pos..] == path[pos..e] + path[e..];
  }

  /** Where the word behind an index ends, if there is one. */
  function TailEnd(path: string, a: nat): (e: nat)
    requires a <= |path|
    ensures a <= e <= |path|
  {
    if a == |path| || IsSpecial(path[a]) then a else FindSpecial(path, a + 1)
  }

  lemma TailStands(path: string, a: nat)
    requires a <= |path| && Scan(path, a, true, false).ok
    ensures var e := TailEnd(path, a);
            && AllBlank(path[a..e]) && (e == |path| || IsSpecial(path[e]))
            && Scan(path, a, true, false) == Scan(path, e, false, false)
  {
    hide ReadIndex;
    if a == |path| || IsSpecial(path[a]) { assert path[a..a] == ""; }
  }

  /** An index with what goes on behind it. */
  lemma {:induction false} ReadIndexed(path: string, pos: nat) returns (ps: seq<Spelled>)
    requires pos < |path| && path[pos] == '[' && ReadIndex(path, pos).Some?
    requires Scan(path, ReadIndex(path, pos).value.after, true, false).ok
    ensures AllOk(ps) && ps != [] && ps[0].Indexed? && path[pos..] == Written(ps)
    ensures var t := ReadIndex(path, pos).value;
            DropLost(Components(ps)) == [Index(t.value)] + Scan(path, t.after, true, false).comps
    decreases |path| - pos, 0
  {
    hide Scan, ReadIndex, SpelledOk, Written, Components, DropLost, IndexText, TailEnd, AllBlank;
    var t := ReadIndex(path, pos).value;
    var p := IndexStands(path, pos);
    TailStands(path, t.after);
    var e := TailEnd(path, t.after);
    if !p.closed { NoTailThere(path, t.after); }
    var q := WithTail(path, pos, t.after, e, p);
    var rest := ReadRest(path, e);
    NextIs(path, pos, e, q, rest);
    LostCons(q, rest);
    ps := [q] + rest;
  }

  lemma NoTailThere(path: string, a: nat)
    requires a <= |path| && (a < |path| ==> path[a] == '.' || path[a] == '[')
    ensures TailEnd(path, a) == a
  {}

  lemma {:induction false} ReadRest(path: string, pos: nat) returns (ps: seq<Spelled>)
    requires pos <= |path| && Scan(path, pos, false, false).ok && (pos == |path| || IsSpecial(path[pos]))
    ensures AllOk(ps) && path[pos..] == Written(ps)
    ensures Scan(path, pos, false, false).comps == DropLost(Components(ps))
    decreases |path| - pos, 1
  {
    hide ReadIndex, SpelledOk, Components, DropLost, IndexText, Written;
    NothingWritten();
    ps := [];
    if pos < |path| {
      if path[pos] == '[' {
        ps := ReadIndexed(path, pos);
      } else {
        ps := ReadNamed(path, pos + 1);
        DotNamed(path, pos, ps);
      }
    }
  }

  lemma {:induction false} ReadNamed(path: string, pos: nat) returns (ps: seq<Spelled>)
    requires pos <= |path| && Scan(path, pos, false, true).ok
    ensures AllOk(ps) && ps != [] && ps[0].Named? && path[pos..] == ps[0].key + Written(ps[1..])
    ensures Scan(path, pos, false, true).comps == DropLost(Components(ps))
    decreases |path| - pos, 2
  {
    hide ReadIndex, SpelledOk, Components, DropLost, IndexText, Written, AllOk;
    NothingWritten();
    EmptyIsOk();
    var empty := Named("");
    if pos == |path| {
      ps := [empty];
      assert ps == [empty] + [];
      LostCons(empty, []);
    } else if path[pos] == '[' {
      var rest := ReadIndexed(path, pos);
      LostCons(empty, rest);
      ps := [empty] + rest;
      assert "" + Written(rest) == Written(rest);
    } else if path[pos] == '.' {
      var rest := ReadNamed(path, pos + 1);
      LostCons(empty, rest);
      ps := [empty] + rest;
      DotNamed(path, pos, rest);
    } else {
      var e := FindSpecial(path, pos + 1);
      var k := path[pos..e];
      WordIsClean(path, pos, e);
      var rest := ReadRest(path, e);
      LostCons(Named(k), rest);
      ps := [Named(k)] + rest;
      assert path[pos..] == k + path[e..];
    }
  }

  /** A dot and a key. */
  lemma DotNamed(path: string, pos: nat, ps: seq<Spelled>)
    requires pos < |path| && path[pos] == '.' && AllOk(ps) && ps != [] && ps[0].Named?
    requires path[pos + 1..] == ps[0].key + Written(ps[1..])
    ensures path[pos..] == Written(ps) && path[pos..] == "" + Written(ps)
  {
    hide SpelledOk;
    assert ps == [ps[0]] + ps[1..];
    OkCons(ps[0], ps[1..]);
    assert path[pos..] == "." + path[pos + 1..];
    Assoc(".", ps[0].key, Written(ps[1..]));
  }

  lemma EmptyIsOk()
    ensures SpelledOk(Named("")) && ComponentOf(Named("")) == Key("") && AllOk([])
  {}

  lemma WordIsClean(path: string, pos: nat, e: nat)
    requires pos < e <= |path| && forall j | pos <= j < e :: !IsSpecial(path[j])
    ensures SpelledOk(Named(path[pos..e])) && ComponentOf(Named(path[pos..e])) == Key(path[pos..e])
  {
    forall c | c in path[pos..e] ensures !IsSpecial(c) {
      var j :| pos <= j < e && path[j] == c;
    }
  }

  /** Every path that is read is one of the grammar. */
  lemma ReadPath(path: string) returns (ps: seq<Spelled>)
    requires Parse(path).ok
    ensures ps != [] && AllOk(ps) && PathText(ps) == path && Parse(path).comps == DropLost(Components(ps))
  {
    hide Scan, SpelledOk, Components, DropLost, Written;
    ScanEnds("", false, true);
    assert path[0..] == path;
    ps := ReadNamed(path, 0);
  }
}
