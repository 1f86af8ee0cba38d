/**
  How the elements of arrays and the pairs of inline tables may stand in a document: blanks, line breaks and
  comments between them, commas that separate them, and the dangling comma that only arrays allow.
*/
module InlineLayouts {
  import opened Characters
  import opened InlineGrammar
  import opened InlinePrinters
  import opened InlineRoundTrips
  import opened InlineTables
  import opened Integers
  import opened Keys
  import opened PrintedNumbers
  import opened StringGrammar
  import opened StringParser
  import opened TomlValues
  import opened Wrappers

  // ---------------------------------------------------------------- blanks and comments

  /** What may stand between elements: spaces and tabs, line breaks, and comments up to a line break. */
  datatype Gap = Spaces(spaces: string) | Break(crlf: bool) | Remark(body: string, crlf: bool)

  predicate IsGap(g: Gap) {
    match g
    case Spaces(s) => forall c | c in s :: IsSpaceOrTab(c)
    case Break(_) => true
    case Remark(body, _) => forall c | c in body :: !IsNonTabControl(c)
  }

  predicate AreGaps(gs: seq<Gap>) {
    forall g | g in gs :: IsGap(g)
  }

  function GapText(g: Gap): string {
    match g
    case Spaces(s) => s
    case Break(crlf) => BreakText(crlf)
    case Remark(body, crlf) => "#" + (body + BreakText(crlf))
  }

  function GapsText(gs: seq<Gap>): string {
    if gs == [] then "" else GapText(gs[0]) + GapsText(gs[1..])
  }

  lemma NoSpaceAt(text: string, pos: nat)
    requires pos < |text| && (text[pos] == '\n' || text[pos] == '\r' || text[pos] == '#')
    ensures SpacesEnd(text, pos) == Some(pos)
  {}

  lemma SpaceSkips(text: string, pos: nat)
    requires pos < |text| && IsSpaceOrTab(text[pos])
    ensures BlanksEnd(text, pos) == BlanksEnd(text, pos + 1)
  {
    BlankStep(text, pos);
  }

  lemma {:induction false} SpacesSkip(text: string, pos: nat, s: string)
    requires At(text, pos, s) && forall c | c in s :: IsSpaceOrTab(c)
    ensures pos <= |text| && BlanksEnd(text, pos) == BlanksEnd(text, pos + |s|)
    decreases |s|
  {
    hide BlanksEnd, At, IsSpaceOrTab;
    if s == "" {
      AtBoundsOf(text, pos, s);
    } else {
      assert s == [s[0]] + s[1..] && s[0] in s;
      AtConcat(text, pos, [s[0]], s[1..]);
      AtChar(text, pos, s[0]);
      forall c | c in s[1..] ensures c in s {}
      SpacesSkip(text, pos + 1, s[1..]);
      SpaceSkips(text, pos);
    }
  }

  lemma BreakSkips(text: string, pos: nat, crlf: bool)
    requires At(text, pos, BreakText(crlf))
    ensures pos + |BreakText(crlf)| <= |text|
    ensures BlanksEnd(text, pos) == BlanksEnd(text, pos + |BreakText(crlf)|)
  {
    hide LineBreakAt, CommentEnd, SpacesEnd;
    BreakReads(text, pos, crlf);
    AtCharOf(text, pos, BreakText(crlf), 0);
    NoSpaceAt(text, pos);
  }

  /** A comment ends behind its line break. */
  lemma {:induction false} CommentSkips(text: string, pos: nat, body: string, crlf: bool)
    requires At(text, pos, body + BreakText(crlf)) && forall c | c in body :: !IsNonTabControl(c)
    ensures pos < |text| && CommentEnd(text, pos) == Some(pos + |body + BreakText(crlf)|)
    decreases |body|
  {
    hide At, LineBreakAt, BreakText;
    if body == "" {
      assert body + BreakText(crlf) == BreakText(crlf);
      BreakReads(text, pos, crlf);
    } else {
      assert body + BreakText(crlf) == [body[0]] + (body[1..] + BreakText(crlf)) && body[0] in body;
      AtConcat(text, pos, [body[0]], body[1..] + BreakText(crlf));
      AtChar(text, pos, body[0]);
      forall c | c in body[1..] ensures c in body {}
      CommentSkips(text, pos + 1, body[1..], crlf);
      NoBreakAt(text, pos);
    }
  }

  lemma NoBreakAt(text: string, pos: nat)
    requires pos < |text| && !IsNonTabControl(text[pos])
    ensures LineBreakAt(text, pos) == NoBreak
  {}

  lemma RemarkSkips(text: string, pos: nat, body: string, crlf: bool)
    requires At(text, pos, "#" + (body + BreakText(crlf))) && forall c | c in body :: !IsNonTabControl(c)
    ensures pos <= |text|
    ensures BlanksEnd(text, pos) == BlanksEnd(text, pos + |"#" + (body + BreakText(crlf))|)
  {
    hide At, LineBreakAt, BreakText, CommentEnd, SpacesEnd;
    AtConcat(text, pos, "#", body + BreakText(crlf));
    AtChar(text, pos, '#');
    CommentSkips(text, pos + 1, body, crlf);
    NoBreakAt(text, pos);
    NoSpaceAt(text, pos);
  }

  lemma GapSkips(text: string, pos: nat, g: Gap)
    requires At(text, pos, GapText(g)) && IsGap(g)
    ensures pos + |GapText(g)| <= |text|
    ensures BlanksEnd(text, pos) == BlanksEnd(text, pos + |GapText(g)|)
  {
    hide BlanksEnd, At, BreakText, IsSpaceOrTab, IsNonTabControl;
    AtBoundsOf(text, pos, GapText(g));
    match g
    case Spaces(s) => SpacesSkip(text, pos, s);
    case Break(crlf) => BreakSkips(text, pos, crlf);
    case Remark(body, crlf) => RemarkSkips(text, pos, body, crlf);
  }

  /** Blanks and comments are skipped. */
  lemma {:induction false} GapsSkip(text: string, pos: nat, gs: seq<Gap>)
    requires At(text, pos, GapsText(gs)) && AreGaps(gs)
    ensures pos + |GapsText(gs)| <= |text|
    ensures BlanksEnd(text, pos) == BlanksEnd(text, pos + |GapsText(gs)|)
    decreases |gs|
  {
    hide BlanksEnd, At, GapText, IsGap;
    AtBoundsOf(text, pos, GapsText(gs));
    if gs != [] {
      AtConcat(text, pos, GapText(gs[0]), GapsText(gs[1..]));
      GapSkips(text, pos, gs[0]);
      GapsSkip(text, pos + |GapText(gs[0])|, gs[1..]);
    }
  }

  /** What stands between the sign of a comment and its end. */
  lemma {:induction false} CommentStands(text: string, pos: nat) returns (body: string, crlf: bool)
    requires pos <= |text| && CommentEnd(text, pos).Some? && CommentEnd(text, pos).value < |text|
    ensures (forall c | c in body :: !IsNonTabControl(c)) && At(text, pos, body + BreakText(crlf))
    ensures CommentEnd(text, pos).value == pos + |body + BreakText(crlf)|
    decreases |text| - pos
  {
    hide IsNonTabControl;
    match LineBreakAt(text, pos)
    case Broken(after) =>
      body, crlf := "", text[pos] == '\r';
      assert body + BreakText(crlf) == BreakText(crlf);
    case BadBreak =>
      body, crlf := "", false;
    case NoBreak =>
      var b;
      b, crlf := CommentStands(text, pos + 1);
      body := [text[pos]] + b;
      assert body + BreakText(crlf) == [text[pos]] + (b + BreakText(crlf));
      AtConcat(text, pos, [text[pos]], b + BreakText(crlf));
  }

  /** Only blanks and comments are skipped, and all of them. */
  lemma {:induction false} GapsStand(text: string, pos: nat) returns (gs: seq<Gap>)
    requires pos <= |text| && BlanksEnd(text, pos).Some? && BlanksEnd(text, pos).value < |text|
    ensures var e := BlanksEnd(text, pos).value;
            && AreGaps(gs) && text[pos..e] == GapsText(gs)
            && !IsHorizontalSpace(text[e]) && text[e] != '\n' && text[e] != '\r' && text[e] != '#'
    decreases |text| - pos
  {
    hide LineBreakAt, CommentEnd, BreakText, IsHorizontalSpace, IsSpaceOrTab, IsNonTabControl;
    var e := BlanksEnd(text, pos).value;
    var sp := SpacesEnd(text, pos);
    if sp.value > pos {
      SpacesAre(text, pos);
      var rest := GapsStand(text, sp.value);
      gs := Before(text, pos, sp.value, e, Spaces(text[pos..sp.value]), rest);
    } else {
      match LineBreakAt(text, pos)
      case Broken(after) =>
        var crlf := BreakIs(text, pos);
        var rest := GapsStand(text, after);
        gs := Before(text, pos, after, e, Break(crlf), rest);
      case BadBreak =>
        gs := [];
      case NoBreak =>
        if text[pos] == '#' {
          var end := CommentEnd(text, pos + 1);
          var body, crlf := CommentStands(text, pos + 1);
          var rest := GapsStand(text, end.value);
          RemarkThere(text, pos, body, crlf);
          gs := Before(text, pos, end.value, e, Remark(body, crlf), rest);
        } else {
          gs := [];
          NoBreakThere(text, pos);
        }
    }
  }

  lemma Before(text: string, pos: nat, mid: nat, e: nat, g: Gap, rest: seq<Gap>) returns (gs: seq<Gap>)
    requires pos <= mid <= e <= |text| && IsGap(g) && AreGaps(rest)
    requires text[pos..mid] == GapText(g) && text[mid..e] == GapsText(rest)
    ensures AreGaps(gs) && text[pos..e] == GapsText(gs)
  {
    hide IsGap, GapText;
    gs := [g] + rest;
    assert gs[1..] == rest;
    assert text[pos..e] == text[pos..mid] + text[mid..e];
  }

  lemma RemarkThere(text: string, pos: nat, body: string, crlf: bool)
    requires pos < |text| && text[pos] == '#' && At(text, pos + 1, body + BreakText(crlf))
    ensures text[pos..pos + 1 + |body + BreakText(crlf)|] == GapText(Remark(body, crlf))
  {
    AtConcat(text, pos, "#", body + BreakText(crlf));
    AtChar(text, pos, '#');
  }

  lemma NoBreakThere(text: string, pos: nat)
    requires pos < |text| && LineBreakAt(text, pos) == NoBreak
    ensures text[pos] != '\n' && text[pos] != '\r'
  {}

  // ---------------------------------------------------------------- arrays

  /** Where the next element may begin: behind blanks, and behind a comma if there is an element before it. */
  function NextAt(text: string, pos: nat, behind: bool): (r: Option<nat>)
    requires pos <= |text|
    ensures r.Some? ==> pos <= r.value < |text|
  {
    var p := BlanksEnd(text, pos);
    if p.None? || p.value == |text| then None
    else if !behind then p
    else if text[p.value] != ',' then None
    else
      var q := BlanksEnd(text, p.value + 1);
      if q.None? || q.value == |text| then None else q
  }

  /** Where an array ends: at its bracket, which a comma may precede if there is an element before it. */
  function CloseAt(text: string, pos: nat, behind: bool): (r: Option<nat>)
    requires pos <= |text|
    ensures r.Some? ==> pos < r.value <= |text|
  {
    var p := BlanksEnd(text, pos);
    if p.None? || p.value == |text| then None
    else if text[p.value] == ']' then Some(p.value + 1)
    else
      var q := NextAt(text, pos, behind);
      if behind && q.Some? && text[q.value] == ']' then Some(q.value + 1) else None
  }

  /** An element stands between two positions. */
  predicate ElementStands(src: Source, start: nat, nested: nat, v: Value, end: nat) {
    && start < |src.text| && src.text[start] != ',' && src.text[start] != ']'
    && ValueAt(src, start, nested) == Some(Parsed(v, end))
  }

  /** The elements of an array stand between starts and ends, each behind exactly one comma but the first. */
  ghost predicate IsArrayLayout(src: Source, pos: nat, behind: bool, nested: nat, vs: seq<Value>, starts: seq<nat>,
                                ends: seq<nat>, after: nat)
    requires pos <= |src.text|
  {
    && |starts| == |vs| == |ends|
    && (forall i | 0 <= i < |vs| :: ElementStands(src, starts[i], nested, vs[i], ends[i]) && ends[i] <= |src.text|)
    && (forall i | 0 <= i < |vs| ::
          NextAt(src.text, if i == 0 then pos else ends[i - 1], behind || i > 0) == Some(starts[i]))
    && CloseAt(src.text, if vs == [] then pos else ends[|vs| - 1], behind || vs != []) == Some(after)
  }

  /** The loop of `parse_array`, one element at a time. */
  lemma ElementsUnfold(src: Source, pos: nat, nested: nat, behind: bool)
    requires pos <= |src.text|
    ensures ElementsAt(src, pos, nested, if behind then Element else Nothing) ==
            var close, next := CloseAt(src.text, pos, behind), NextAt(src.text, pos, behind);
            if close.Some? then Some(Parsed([], close.value))
            else if next.None? || src.text[next.value] == ',' then None
            else
              var v := ValueAt(src, next.value, nested);
              if v.None? then None else PrependValue(v.value.value, ElementsAt(src, v.value.after, nested, Element))
  {
    hide BlanksEnd, ValueAt;
    var p := BlanksEnd(src.text, pos);
    if behind && p.Some? && p.value + 1 < |src.text| && src.text[p.value] == ',' {
      assert ElementsAt(src, pos, nested, Element) == ElementsAt(src, p.value + 1, nested, Comma);
    } else if behind && p.Some? && p.value + 1 == |src.text| && src.text[p.value] == ',' {
      NothingBehind(src.text);
    }
  }

  lemma NothingBehind(text: string)
    ensures BlanksEnd(text, |text|) == Some(|text|)
  {}

  lemma {:induction false} LaidOutIsRead(src: Source, pos: nat, behind: bool, nested: nat, vs: seq<Value>,
                                         starts: seq<nat>, ends: seq<nat>, after: nat)
    requires pos <= |src.text| && IsArrayLayout(src, pos, behind, nested, vs, starts, ends, after)
    ensures ElementsAt(src, pos, nested, if behind then Element else Nothing) == Some(Parsed(vs, after))
    decreases |vs|
  {
    hide ElementsAt, ValueAt, BlanksEnd, CloseAt, NextAt, IsArrayLayout;
    ElementsUnfold(src, pos, nested, behind);
    LayoutHead(src, pos, behind, nested, vs, starts, ends, after);
    if vs != [] {
      StartsNotClosing(src.text, pos, behind, starts[0]);
      LayoutTail(src, pos, behind, nested, vs, starts, ends, after);
      LaidOutIsRead(src, ends[0], true, nested, vs[1..], starts[1..], ends[1..], after);
      assert [vs[0]] + vs[1..] == vs;
    }
  }

  lemma StartsNotClosing(text: string, pos: nat, behind: bool, start: nat)
    requires pos <= |text| && NextAt(text, pos, behind) == Some(start) && text[start] != ']'
    ensures CloseAt(text, pos, behind) == None
  {
    hide BlanksEnd;
  }

  lemma LayoutHead(src: Source, pos: nat, behind: bool, nested: nat, vs: seq<Value>, starts: seq<nat>, ends: seq<nat>,
                   after: nat)
    requires pos <= |src.text| && IsArrayLayout(src, pos, behind, nested, vs, starts, ends, after)
    ensures |starts| == |vs| == |ends|
    ensures if vs == [] then CloseAt(src.text, pos, behind) == Some(after)
            else
              && ElementStands(src, starts[0], nested, vs[0], ends[0]) && ends[0] <= |src.text|
              && NextAt(src.text, pos, behind) == Some(starts[0])
  {
    hide ElementStands, CloseAt, NextAt;
  }

  lemma LayoutTail(src: Source, pos: nat, behind: bool, nested: nat, vs: seq<Value>, starts: seq<nat>, ends: seq<nat>,
                   after: nat)
    requires pos <= |src.text| && IsArrayLayout(src, pos, behind, nested, vs, starts, ends, after) && vs != []
    ensures IsArrayLayout(src, ends[0], true, nested, vs[1..], starts[1..], ends[1..], after)
  {
    hide ElementStands, CloseAt, NextAt;
    forall i | 0 <= i < |vs[1..]|
      ensures NextAt(src.text, if i == 0 then ends[0] else ends[1..][i - 1], true) == Some(starts[1..][i])
    {
      assert starts[1..][i] == starts[i + 1];
    }
  }

  lemma {:induction false} ReadIsLaidOut(src: Source, pos: nat, behind: bool, nested: nat)
    returns (starts: seq<nat>, ends: seq<nat>)
    requires pos <= |src.text| && ElementsAt(src, pos, nested, if behind then Element else Nothing).Some?
    ensures var r := ElementsAt(src, pos, nested, if behind then Element else Nothing).value;
            IsArrayLayout(src, pos, behind, nested, r.value, starts, ends, r.after)
    decreases |src.text| - pos
  {
    hide ElementsAt, ValueAt, BlanksEnd, CloseAt, NextAt;
    ElementsUnfold(src, pos, nested, behind);
    starts, ends := [], [];
    if CloseAt(src.text, pos, behind).None? {
      var start := NextAt(src.text, pos, behind).value;
      var v := ValueAt(src, start, nested).value;
      var s, e := ReadIsLaidOut(src, v.after, true, nested);
      var r := ElementsAt(src, v.after, nested, Element).value;
      ClosedByBracket(src.text, pos, behind, start);
      starts, ends := [start] + s, [v.after] + e;
      LayoutCons(src, pos, behind, nested, [v.value] + r.value, starts, ends, r.after);
    }
  }

  lemma ClosedByBracket(text: string, pos: nat, behind: bool, start: nat)
    requires pos <= |text| && NextAt(text, pos, behind) == Some(start) && CloseAt(text, pos, behind) == None
    ensures text[start] != ']'
  {
    hide BlanksEnd;
  }

  lemma LayoutCons(src: Source, pos: nat, behind: bool, nested: nat, vs: seq<Value>, starts: seq<nat>, ends: seq<nat>,
                   after: nat)
    requires pos <= |src.text| && vs != [] && |starts| == |vs| == |ends|
    requires ElementStands(src, starts[0], nested, vs[0], ends[0]) && ends[0] <= |src.text|
    requires NextAt(src.text, pos, behind) == Some(starts[0])
    requires IsArrayLayout(src, ends[0], true, nested, vs[1..], starts[1..], ends[1..], after)
    ensures IsArrayLayout(src, pos, behind, nested, vs, starts, ends, after)
  {
    hide ElementStands, CloseAt, NextAt;
    forall i | 0 < i < |vs|
      ensures ElementStands(src, starts[i], nested, vs[i], ends[i]) && ends[i] <= |src.text|
      ensures NextAt(src.text, ends[i - 1], true) == Some(starts[i])
    {
      var j := i - 1;
      assert vs[1..][j] == vs[i] && starts[1..][j] == starts[i] && ends[1..][j] == ends[i];
      assert i > 1 ==> ends[1..][j - 1] == ends[i - 1];
    }
  }

  /**
    What is read as the elements of an array are elements with exactly one comma between two of them, and perhaps
    one more behind the last; blanks and comments may stand everywhere.
  */
  lemma ArrayIsLaidOut(src: Source, pos: nat, nested: nat, vs: seq<Value>, after: nat)
    requires pos <= |src.text|
    ensures ElementsAt(src, pos, nested, Nothing) == Some(Parsed(vs, after)) <==>
            exists starts, ends :: IsArrayLayout(src, pos, false, nested, vs, starts, ends, after)
  {
    hide ElementsAt, IsArrayLayout;
    if ElementsAt(src, pos, nested, Nothing) == Some(Parsed(vs, after)) {
      var starts, ends := ReadIsLaidOut(src, pos, false, nested);
    }
    if starts, ends :| IsArrayLayout(src, pos, false, nested, vs, starts, ends, after) {
      LaidOutIsRead(src, pos, false, nested, vs, starts, ends, after);
    }
  }

  // ---------------------------------------------------------------- inline tables

  /** Where the next pair may begin: behind spaces, and behind a comma if there is a pair before it. */
  function NextPairAt(text: string, pos: nat, behind: bool): (r: Option<nat>)
    requires pos <= |text|
    ensures r.Some? ==> pos <= r.value < |text|
  {
    var p := SpacesEnd(text, pos);
    if p.None? || p.value == |text| then None
    else if !behind then p
    else if text[p.value] != ',' then None
    else
      var q := SpacesEnd(text, p.value + 1);
      if q.None? || q.value == |text| then None else q
  }

  /** A pair stands between two positions. */
  predicate PairStands(src: Source, start: nat, nested: nat, p: Pair, end: nat) {
    && start < |src.text| && (IsDelimiter(src.text[start]) || IsBareKeyChar(src.text[start]))
    && var k := PairAt(src.text, start);
       k.Some? && k.value.value == p.keys && ValueAt(src, k.value.after, nested) == Some(Parsed(p.value, end))
  }

  /** The pairs of a table stand between starts and ends, each behind exactly one comma but the first. */
  ghost predicate IsTableLayout(src: Source, pos: nat, behind: bool, nested: nat, ps: seq<Pair>, starts: seq<nat>,
                                ends: seq<nat>, after: nat)
    requires pos <= |src.text|
  {
    && |starts| == |ps| == |ends|
    && (forall i | 0 <= i < |ps| :: PairStands(src, starts[i], nested, ps[i], ends[i]) && ends[i] <= |src.text|)
    && (forall i | 0 <= i < |ps| ::
          NextPairAt(src.text, if i == 0 then pos else ends[i - 1], behind || i > 0) == Some(starts[i]))
    && var p := SpacesEnd(src.text, if ps == [] then pos else ends[|ps| - 1]);
       p.Some? && p.value < |src.text| && src.text[p.value] == '}' && after == p.value + 1
  }

  lemma PairsUnfold(src: Source, pos: nat, nested: nat, behind: bool)
    requires pos <= |src.text|
    ensures PairsAt(src, pos, nested, if behind then Element else Nothing) ==
            var p, next := SpacesEnd(src.text, pos), NextPairAt(src.text, pos, behind);
            if p.Some? && p.value < |src.text| && src.text[p.value] == '}' then Some(Parsed([], p.value + 1))
            else if next.None? || !(IsDelimiter(src.text[next.value]) || IsBareKeyChar(src.text[next.value])) then None
            else
              var k := PairAt(src.text, next.value);
              var v := if k.None? then None else ValueAt(src, k.value.after, nested);
              if v.None? then None
              else PrependPair(Pair(k.value.value, v.value.value), PairsAt(src, v.value.after, nested, Element))
  {
    hide SpacesEnd, ValueAt, PairAt;
    var p := SpacesEnd(src.text, pos);
    if behind && p.Some? && p.value + 1 < |src.text| && src.text[p.value] == ',' {
      assert PairsAt(src, pos, nested, Element) == PairsAt(src, p.value + 1, nested, Comma);
    } else if behind && p.Some? && p.value + 1 == |src.text| && src.text[p.value] == ',' {
      NoPairBehind(src.text);
    }
  }

  lemma NoPairBehind(text: string)
    ensures SpacesEnd(text, |text|) == Some(|text|)
  {}

  lemma {:induction false} LaidOutPairsAreRead(src: Source, pos: nat, behind: bool, nested: nat, ps: seq<Pair>,
                                               starts: seq<nat>, ends: seq<nat>, after: nat)
    requires pos <= |src.text| && IsTableLayout(src, pos, behind, nested, ps, starts, ends, after)
    ensures PairsAt(src, pos, nested, if behind then Element else Nothing) == Some(Parsed(ps, after))
    decreases |ps|
  {
    hide PairsAt, ValueAt, SpacesEnd, PairAt, NextPairAt, IsDelimiter, IsBareKeyChar, IsTableLayout;
    PairsUnfold(src, pos, nested, behind);
    TableLayoutHead(src, pos, behind, nested, ps, starts, ends, after);
    if ps != [] {
      PairNotClosing(src.text, pos, behind, starts[0]);
      TableLayoutTail(src, pos, behind, nested, ps, starts, ends, after);
      LaidOutPairsAreRead(src, ends[0], true, nested, ps[1..], starts[1..], ends[1..], after);
      assert [ps[0]] + ps[1..] == ps;
    }
  }

  lemma PairNotClosing(text: string, pos: nat, behind: bool, start: nat)
    requires pos <= |text| && NextPairAt(text, pos, behind) == Some(start)
    requires IsDelimiter(text[start]) || IsBareKeyChar(text[start])
    ensures var p := SpacesEnd(text, pos); p.Some? && p.value < |text| && text[p.value] != '}'
  {
    hide SpacesEnd;
  }

  lemma TableLayoutHead(src: Source, pos: nat, behind: bool, nested: nat, ps: seq<Pair>, starts: seq<nat>,
                        ends: seq<nat>, after: nat)
    requires pos <= |src.text| && IsTableLayout(src, pos, behind, nested, ps, starts, ends, after)
    ensures |starts| == |ps| == |ends|
    ensures if ps == [] then
              var p := SpacesEnd(src.text, pos);
              p.Some? && p.value < |src.text| && src.text[p.value] == '}' && after == p.value + 1
            else
              && PairStands(src, starts[0], nested, ps[0], ends[0]) && ends[0] <= |src.text|
              && NextPairAt(src.text, pos, behind) == Some(starts[0])
  {
    hide PairStands, SpacesEnd, NextPairAt;
  }

  lemma TableLayoutTail(src: Source, pos: nat, behind: bool, nested: nat, ps: seq<Pair>, starts: seq<nat>,
                        ends: seq<nat>, after: nat)
    requires pos <= |src.text| && IsTableLayout(src, pos, behind, nested, ps, starts, ends, after) && ps != []
    ensures IsTableLayout(src, ends[0], true, nested, ps[1..], starts[1..], ends[1..], after)
  {
    hide PairStands, SpacesEnd, NextPairAt;
    forall i | 0 <= i < |ps[1..]|
      ensures NextPairAt(src.text, if i == 0 then ends[0] else ends[1..][i - 1], true) == Some(starts[1..][i])
    {
      assert starts[1..][i] == starts[i + 1];
    }
  }

  lemma {:induction false} ReadPairsAreLaidOut(src: Source, pos: nat, behind: bool, nested: nat)
    returns (starts: seq<nat>, ends: seq<nat>)
    requires pos <= |src.text| && PairsAt(src, pos, nested, if behind then Element else Nothing).Some?
    ensures var r := PairsAt(src, pos, nested, if behind then Element else Nothing).value;
            IsTableLayout(src, pos, behind, nested, r.value, starts, ends, r.after)
    decreases |src.text| - pos
  {
    hide PairsAt, ValueAt, SpacesEnd, PairAt, NextPairAt, IsDelimiter, IsBareKeyChar;
    PairsUnfold(src, pos, nested, behind);
    starts, ends := [], [];
    var p := SpacesEnd(src.text, pos);
    if !(p.Some? && p.value < |src.text| && src.text[p.value] == '}') {
      var start := NextPairAt(src.text, pos, behind).value;
      var k := PairAt(src.text, start).value;
      var v := ValueAt(src, k.after, nested).value;
      var s, e := ReadPairsAreLaidOut(src, v.after, true, nested);
      var r := PairsAt(src, v.after, nested, Element).value;
      starts, ends := [start] + s, [v.after] + e;
      TableLayoutCons(src, pos, behind, nested, [Pair(k.value, v.value)] + r.value, starts, ends, r.after);
    }
  }

  lemma TableLayoutCons(src: Source, pos: nat, behind: bool, nested: nat, ps: seq<Pair>, starts: seq<nat>,
                        ends: seq<nat>, after: nat)
    requires pos <= |src.text| && ps != [] && |starts| == |ps| == |ends|
    requires PairStands(src, starts[0], nested, ps[0], ends[0]) && ends[0] <= |src.text|
    requires NextPairAt(src.text, pos, behind) == Some(starts[0])
    requires IsTableLayout(src, ends[0], true, nested, ps[1..], starts[1..], ends[1..], after)
    ensures IsTableLayout(src, pos, behind, nested, ps, starts, ends, after)
  {
    hide PairStands, SpacesEnd, NextPairAt;
    forall i | 0 < i < |ps|
      ensures PairStands(src, starts[i], nested, ps[i], ends[i]) && ends[i] <= |src.text|
      ensures NextPairAt(src.text, ends[i - 1], true) == Some(starts[i])
    {
      var j := i - 1;
      assert ps[1..][j] == ps[i] && starts[1..][j] == starts[i] && ends[1..][j] == ends[i];
      assert i > 1 ==> ends[1..][j - 1] == ends[i - 1];
    }
  }

  /** What is read as the pairs of an inline table are pairs with exactly one comma between two of them, and no other. */
  lemma TableIsLaidOut(src: Source, pos: nat, nested: nat, ps: seq<Pair>, after: nat)
    requires pos <= |src.text|
    ensures PairsAt(src, pos, nested, Nothing) == Some(Parsed(ps, after)) <==>
            exists starts, ends :: IsTableLayout(src, pos, false, nested, ps, starts, ends, after)
  {
    hide PairsAt, IsTableLayout;
    if PairsAt(src, pos, nested, Nothing) == Some(Parsed(ps, after)) {
      var starts, ends := ReadPairsAreLaidOut(src, pos, false, nested);
    }
    if starts, ends :| IsTableLayout(src, pos, false, nested, ps, starts, ends, after) {
      LaidOutPairsAreRead(src, pos, false, nested, ps, starts, ends, after);
    }
  }

  // ---------------------------------------------------------------- printed elements with anything between them

  /** Where an element stands in a document: what is before and behind it, and how far it is indented. */
  datatype Place = Place(before: seq<Gap>, indent: int, behind: seq<Gap>)

  ghost predicate ArePlaces(ps: seq<Place>) {
    forall p | p in ps :: AreGaps(p.before) && AreGaps(p.behind)
  }

  /** The printed elements of an array, each at its place. */
  function Placed(cfg: Config, es: seq<Value>, ps: seq<Place>, first: bool): string
    requires |es| == |ps|
  {
    if es == [] then "" else
      (if first then "" else ",") + (GapsText(ps[0].before) + (ValueText(cfg, es[0], ps[0].indent)
        + (GapsText(ps[0].behind) + Placed(cfg, es[1..], ps[1..], false))))
  }

  /** The end of an array behind its last element, perhaps with a dangling comma. */
  function Closing(dangling: bool, gs: seq<Gap>): string {
    (if dangling then "," + GapsText(gs) else "") + "]"
  }

  /** What follows an element ends it, and is not the time of a date. */
  predicate IsEnding(s: string) {
    s != "" && IsValueTerminator(s[0]) && (s[0] == ' ' ==> |s| > 1 && !IsDecimalDigit(s[1]))
  }

  lemma {:induction false} GapsThenEnding(gs: seq<Gap>, s: string)
    requires AreGaps(gs) && s != "" && (s[0] == ',' || s[0] == ']')
    ensures IsEnding(GapsText(gs) + s) && !IsDecimalDigit((GapsText(gs) + s)[0])
    decreases |gs|
  {
    hide IsForeignSpace, IsNonTabControl;
    if gs == [] {
      assert GapsText(gs) + s == s;
    } else {
      GapsThenEnding(gs[1..], s);
      GapThenEnding(gs[0], GapsText(gs[1..]) + s);
      assert GapsText(gs) + s == GapText(gs[0]) + (GapsText(gs[1..]) + s);
    }
  }

  lemma GapThenEnding(g: Gap, s: string)
    requires IsGap(g) && IsEnding(s) && !IsDecimalDigit(s[0])
    ensures IsEnding(GapText(g) + s) && !IsDecimalDigit((GapText(g) + s)[0])
  {
    hide IsForeignSpace, IsNonTabControl;
    var x := GapText(g) + s;
    match g
    case Spaces(b) =>
      if b == "" {
        assert x == s;
      } else {
        assert x[0] == b[0] && b[0] in b;
        if |b| > 1 { assert x[1] == b[1] && b[1] in b; } else { assert x[1] == s[0]; }
      }
    case Break(crlf) => assert x[0] == BreakText(crlf)[0];
    case Remark(_, _) => assert x[0] == '#';
  }

  lemma EndingEnds(text: string, pos: nat, s: string)
    requires At(text, pos, s) && IsEnding(s)
    ensures ValueEndsAt(text, pos)
  {
    hide IsValueTerminator;
    AtCharOf(text, pos, s, 0);
    if |s| > 1 { AtCharOf(text, pos, s, 1); }
  }

  lemma PlacedBegins(cfg: Config, es: seq<Value>, ps: seq<Place>, dangling: bool, gs: seq<Gap>)
    requires |es| == |ps|
    ensures var s := Placed(cfg, es, ps, false) + Closing(dangling, gs); s != "" && (s[0] == ',' || s[0] == ']')
  {
    hide ValueText, GapsText;
  }

  /** The parts of the text of the elements, and what follows the first of them. */
  lemma SplitPlaced(text: string, pos: nat, cfg: Config, es: seq<Value>, ps: seq<Place>, first: bool, dangling: bool,
                    gs: seq<Gap>)
    requires |es| == |ps| && es != [] && ArePlaces(ps)
    requires At(text, pos, Placed(cfg, es, ps, first) + Closing(dangling, gs))
    ensures var sep, before := if first then "" else ",", GapsText(ps[0].before);
            var v, behind := ValueText(cfg, es[0], ps[0].indent), GapsText(ps[0].behind);
            var rest := Placed(cfg, es[1..], ps[1..], false) + Closing(dangling, gs);
            var q := pos + |sep| + |before|;
            && At(text, pos, sep) && At(text, pos + |sep|, before) && At(text, q, v) && At(text, q + |v|, behind)
            && At(text, q + |v| + |behind|, rest) && ValueEndsAt(text, q + |v|)
            && |Placed(cfg, es, ps, first) + Closing(dangling, gs)| == |sep| + |before| + |v| + |behind| + |rest|
  {
    hide At, GapsText, ValueText, Closing, ValueEndsAt, IsEnding, IsDecimalDigit;
    var sep, before := if first then "" else ",", GapsText(ps[0].before);
    var v, behind := ValueText(cfg, es[0], ps[0].indent), GapsText(ps[0].behind);
    var more := Placed(cfg, es[1..], ps[1..], false);
    var rest := more + Closing(dangling, gs);
    assert (sep + (before + (v + (behind + more)))) + Closing(dangling, gs) == sep + (before + (v + (behind + rest)));
    AtConcat(text, pos, sep, before + (v + (behind + rest)));
    AtConcat(text, pos + |sep|, before, v + (behind + rest));
    AtConcat(text, pos + |sep| + |before|, v, behind + rest);
    AtConcat(text, pos + |sep| + |before| + |v|, behind, rest);
    PlacedBegins(cfg, es[1..], ps[1..], dangling, gs);
    assert ps[0] in ps;
    GapsThenEnding(ps[0].behind, rest);
    EndingEnds(text, pos + |sep| + |before| + |v|, behind + rest);
  }

  lemma GapsBefore(src: Source, pos: nat, gs: seq<Gap>, nested: nat, last: Last)
    requires At(src.text, pos, GapsText(gs)) && AreGaps(gs)
    ensures pos + |GapsText(gs)| <= |src.text|
    ensures ElementsAt(src, pos, nested, last) == ElementsAt(src, pos + |GapsText(gs)|, nested, last)
  {
    hide BlanksEnd, ValueAt, GapsText, AreGaps, At;
    GapsSkip(src.text, pos, gs);
  }

  lemma ClosingRead(src: Source, pos: nat, dangling: bool, gs: seq<Gap>, nested: nat, last: Last)
    requires At(src.text, pos, Closing(dangling, gs)) && AreGaps(gs) && last != Comma && (dangling ==> last == Element)
    ensures pos <= |src.text|
    ensures ElementsAt(src, pos, nested, last) == Some(Parsed([], pos + |Closing(dangling, gs)|))
  {
    hide ElementsAt, BlanksEnd, AreGaps, GapsText, At;
    if dangling {
      assert Closing(dangling, gs) == "," + (GapsText(gs) + "]");
      AtConcat(src.text, pos, ",", GapsText(gs) + "]");
      AtConcat(src.text, pos + 1, GapsText(gs), "]");
      AtChar(src.text, pos, ',');
      AtChar(src.text, pos + 1 + |GapsText(gs)|, ']');
      CommaStep(src, pos, nested);
      GapsBefore(src, pos + 1, gs, nested, Comma);
      BracketCloses(src, pos + 1 + |GapsText(gs)|, nested, Comma);
    } else {
      assert Closing(dangling, gs) == "]";
      AtChar(src.text, pos, ']');
      BracketCloses(src, pos, nested, last);
    }
  }

  lemma BracketCloses(src: Source, pos: nat, nested: nat, last: Last)
    requires pos < |src.text| && src.text[pos] == ']'
    ensures ElementsAt(src, pos, nested, last) == Some(Parsed([], pos + 1))
  {
    NotBlank(src.text, pos);
    hide BlanksEnd, ValueAt;
  }

  /** Behind a separator, blanks and comments the parser comes to the next element. */
  lemma PlaceRead(src: Source, pos: nat, first: bool, gs: seq<Gap>, nested: nat)
    requires var sep := if first then "" else ","; At(src.text, pos, sep) && At(src.text, pos + |sep|, GapsText(gs))
    requires var q := pos + (if first then 0 else 1) + |GapsText(gs)|; q < |src.text| && IsValueStart(src.text[q])
    requires AreGaps(gs)
    ensures pos <= |src.text|
    ensures ElementsAt(src, pos, nested, if first then Nothing else Element) ==
            var v := ValueAt(src, pos + (if first then 0 else 1) + |GapsText(gs)|, nested);
            if v.None? then None else PrependValue(v.value.value, ElementsAt(src, v.value.after, nested, Element))
  {
    hide ElementsAt, ValueAt, BlanksEnd, AreGaps, GapsText, At, IsValueStart;
    var p := pos + if first then 0 else 1;
    var q := p + |GapsText(gs)|;
    NotBlank(src.text, q);
    GapsBefore(src, p, gs, nested, if first then Nothing else Comma);
    ElementStep(src, q, q, nested, if first then Nothing else Comma);
    if !first {
      AtChar(src.text, pos, ',');
      CommaStep(src, pos, nested);
    }
  }

  /**
    Blanks, line breaks and comments around printed elements and a dangling comma do not change what is read:
    the same elements, exactly if each of them can be read back.
  */
  lemma {:induction false} PlacedAreRead(src: Source, pos: nat, cfg: Config, es: seq<Value>, ps: seq<Place>, first: bool,
                                         dangling: bool, gs: seq<Gap>, nested: nat)
    requires HasBlankIndent(cfg) && AreStorable(es) && nested <= MAX_NESTED_VALUES
    requires |es| == |ps| && ArePlaces(ps) && AreGaps(gs) && (dangling ==> es != [] || !first)
    requires At(src.text, pos, Placed(cfg, es, ps, first) + Closing(dangling, gs))
    ensures pos <= |src.text|
    ensures AllReadBack(ElementsAt(src, pos, nested, if first then Nothing else Element), cfg, es,
                        AreGood(cfg, es, nested), pos + |Placed(cfg, es, ps, first) + Closing(dangling, gs)|)
    decreases |es|
  {
    hide ElementsAt, ValueAt, ValueText, GapsText, Closing, At, ValueEndsAt, IsStorable, Depth, HasLost, IsValueStart,
      Unformatted, Reread, AreGaps, Placed;
    var end := pos + |Placed(cfg, es, ps, first) + Closing(dangling, gs)|;
    if es == [] {
      PlacedNothing(cfg, ps, first, dangling, gs);
      ClosingRead(src, pos, dangling, gs, nested, if first then Nothing else Element);
    } else {
      var before, v, behind := GapsText(ps[0].before), ValueText(cfg, es[0], ps[0].indent), GapsText(ps[0].behind);
      var q := pos + (if first then 0 else 1) + |before|;
      SplitPlaced(src.text, pos, cfg, es, ps, first, dangling, gs);
      assert ps[0] in ps && forall p | p in ps[1..] :: p in ps;
      ValueReads(src, q, cfg, es[0], ps[0].indent, nested);
      PlaceRead(src, pos, first, ps[0].before, nested);
      if IsGood(cfg, es[0], nested) {
        GapsBefore(src, q + |v|, ps[0].behind, nested, Element);
        PlacedAreRead(src, q + |v| + |behind|, cfg, es[1..], ps[1..], false, dangling, gs, nested);
        GoodElement(cfg, es, ElementsAt(src, q + |v|, nested, Element), nested, end);
      } else {
        var r := ValueAt(src, q, nested);
        if r.Some? { BadElement(cfg, es, r.value.value, ElementsAt(src, r.value.after, nested, Element)); }
      }
    }
  }

  lemma PlacedNothing(cfg: Config, ps: seq<Place>, first: bool, dangling: bool, gs: seq<Gap>)
    requires ps == []
    ensures Placed(cfg, [], ps, first) + Closing(dangling, gs) == Closing(dangling, gs)
  {
    hide Closing;
  }
}
