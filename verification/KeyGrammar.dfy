/** The keys of TOML as a grammar, and that `parse_key` of `toml.hpp` reads exactly them. */
module KeyGrammar {
  import opened Characters
  import opened Integers
  import opened Keys
  import opened StringGrammar
  import opened StringParser
  import opened StringPrinter
  import opened Wrappers

  /** A segment is bare or a string on a single line. */
  datatype Segment = Name(name: string) | Quoting(sp: Spelling)

  /** A segment with the blanks behind it, and those behind the dot that follows. */
  datatype Part = Part(segment: Segment, behind: string, next: string)

  ghost predicate SegmentOk(s: Segment) {
    match s
    case Name(name) => name != "" && IsBareText(name)
    case Quoting(sp) => SpellingOk(sp) && !sp.st.multi
  }

  function SegmentText(s: Segment): string {
    match s
    case Name(name) => name
    case Quoting(sp) => Written(sp)
  }

  ghost function NameOf(s: Segment): string
    requires SegmentOk(s)
  {
    match s
    case Name(name) => name
    case Quoting(sp) => Meanings(sp.items, sp.st)
  }

  predicate IsBlank(s: string) {
    forall c | c in s :: IsSpaceOrTab(c)
  }

  ghost predicate PartOk(p: Part) {
    SegmentOk(p.segment) && IsBlank(p.behind) && IsBlank(p.next)
  }

  ghost predicate PartsOk(ps: seq<Part>) {
    ps != [] && forall p | p in ps :: PartOk(p)
  }

  /** Segments with dots between them; blanks may stand around the dots and behind the last segment. */
  function KeyWritten(ps: seq<Part>): string {
    if ps == [] then ""
    else SegmentText(ps[0].segment) + (ps[0].behind + (if |ps| == 1 then "" else "." + (ps[0].next + KeyWritten(ps[1..]))))
  }

  ghost function Names(ps: seq<Part>): (ks: seq<string>)
    requires forall p | p in ps :: PartOk(p)
    ensures |ks| == |ps|
  {
    if ps == [] then [] else assert PartOk(ps[0]); [NameOf(ps[0].segment)] + Names(ps[1..])
  }

  /** No blank, dot or further part of the last segment may follow. */
  predicate KeyEnds(text: string, end: nat, touching: bool) {
    end < |text| ==>
      !IsHorizontalSpace(text[end]) && text[end] != '.' && (touching ==> !IsBareKeyChar(text[end]) && !IsDelimiter(text[end]))
  }

  // ---------------------------------------------------------------- every key of the grammar is read

  lemma SegmentReads(text: string, pos: nat, s: Segment)
    requires SegmentOk(s) && At(text, pos, SegmentText(s)) && SegmentEndsAt(text, pos + |SegmentText(s)|)
    ensures pos < |text| && !IsHorizontalSpace(text[pos])
    ensures SegmentAt(text, pos) == Some(Parsed(NameOf(s), pos + |SegmentText(s)|))
  {
    hide At, StringAt, BareEnd, Items, IsBareText, SpellingOk;
    match s
    case Name(name) =>
      BareReads(text, pos, name);
      BareIsNoSpace(text[pos]);
    case Quoting(sp) =>
      SpellingParts(sp);
      NotLongerThere(sp, text, pos + |Written(sp)|);
      StringIsRead(text, pos, sp);
      NotBoth(text[pos]);
  }

  lemma BareIsNoSpace(c: char)
    ensures IsBareKeyChar(c) ==> !IsHorizontalSpace(c)
  {}

  lemma SpellingParts(sp: Spelling)
    requires SpellingOk(sp)
    ensures IsDelimiter(sp.st.quote) && Items(sp.items, sp.st)
  {
    hide Items;
  }

  lemma NotLongerThere(sp: Spelling, text: string, end: nat)
    requires !sp.st.multi && SpellingOk(sp) && SegmentEndsAt(text, end)
    ensures NotLonger(sp, text, end)
  {
    hide Items;
  }

  lemma BlanksPass(text: string, pos: nat, s: string)
    requires At(text, pos, s) && IsBlank(s)
    requires pos + |s| < |text| ==> !IsHorizontalSpace(text[pos + |s|])
    ensures pos + |s| <= |text| && SpacesEnd(text, pos) == Some(pos + |s|)
  {
    hide SpacesEnd, IsHorizontalSpace;
    SpacesPass(text, pos, s);
    SpacesEndHere(text, pos + |s|);
  }

  lemma SplitKey(text: string, pos: nat, ps: seq<Part>)
    requires |ps| > 1 && At(text, pos, KeyWritten(ps))
    ensures var s, b, x, rest := SegmentText(ps[0].segment), ps[0].behind, ps[0].next, KeyWritten(ps[1..]);
            var dot := pos + |s| + |b|;
            && At(text, pos, s) && At(text, pos + |s|, b) && dot < |text| && text[dot] == '.'
            && At(text, dot + 1, x) && At(text, dot + 1 + |x|, rest)
            && |KeyWritten(ps)| == |s| + |b| + 1 + |x| + |rest|
  {
    hide At, SegmentText;
    var s, b, x, rest := SegmentText(ps[0].segment), ps[0].behind, ps[0].next, KeyWritten(ps[1..]);
    AtConcat(text, pos, s, b + ("." + (x + rest)));
    AtConcat(text, pos + |s|, b, "." + (x + rest));
    AtConcat(text, pos + |s| + |b|, ".", x + rest);
    AtConcat(text, pos + |s| + |b| + 1, x, rest);
    AtChar(text, pos + |s| + |b|, '.');
  }

  /** A segment is followed by a blank or a dot. */
  lemma FollowedByBlank(text: string, pos: nat, b: string)
    requires At(text, pos, b) && IsBlank(b) && pos + |b| < |text| && text[pos + |b|] == '.'
    ensures SegmentEndsAt(text, pos)
  {
    if b != "" {
      AtCharOf(text, pos, b, 0);
      assert b[0] in b;
    }
  }

  lemma FollowedByEnd(text: string, pos: nat, b: string)
    requires At(text, pos, b) && IsBlank(b) && KeyEnds(text, pos + |b|, b == "")
    ensures SegmentEndsAt(text, pos)
  {
    if b != "" {
      AtCharOf(text, pos, b, 0);
      assert b[0] in b;
    }
  }

  function LastPart(ps: seq<Part>): Part
    requires ps != []
  {
    ps[|ps| - 1]
  }

  /** Every key of the grammar is read as its names, unless there are more than 1024. */
  lemma {:induction false} KeyIsRead(text: string, pos: nat, ps: seq<Part>, n: nat)
    requires PartsOk(ps) && At(text, pos, KeyWritten(ps)) && n <= MAX_DOTTED_KEYS_DEPTH
    requires KeyEnds(text, pos + |KeyWritten(ps)|, LastPart(ps).behind == "")
    ensures pos < |text| && !IsHorizontalSpace(text[pos])
    ensures KeyAt(text, pos, n) ==
            if n + |ps| <= MAX_DOTTED_KEYS_DEPTH then Some(Parsed(Names(ps), pos + |KeyWritten(ps)|)) else None
    decreases |ps|
  {
    hide At, SegmentAt, SegmentText, SpacesEnd, IsHorizontalSpace, SegmentOk, NameOf, IsBlank, SegmentEndsAt, PartsOk,
      KeyWritten, Names, KeyEnds;
    PartsFirst(ps);
    var p := ps[0];
    var s, b := SegmentText(p.segment), p.behind;
    if |ps| == 1 {
      PartsOne(p);
      AtConcat(text, pos, s, b);
      FollowedByEnd(text, pos + |s|, b);
      SegmentReads(text, pos, p.segment);
      EndIsNoSpace(text, pos + |s| + |b|, b == "");
      BlanksPass(text, pos + |s|, b);
    } else {
      SplitKey(text, pos, ps);
      var dot := pos + |s| + |b|;
      FollowedByBlank(text, pos + |s|, b);
      SegmentReads(text, pos, p.segment);
      DotIsNoSpace(text, dot);
      BlanksPass(text, pos + |s|, b);
      KeyIsReadOn(ps);
      if n + 1 <= MAX_DOTTED_KEYS_DEPTH {
        KeyIsRead(text, dot + 1 + |p.next|, ps[1..], n + 1);
        BlanksPass(text, dot + 1, p.next);
      }
    }
  }

  lemma PartsFirst(ps: seq<Part>)
    requires PartsOk(ps)
    ensures ps != [] && PartOk(ps[0]) && (|ps| == 1 ==> ps == [ps[0]])
  {
    hide PartOk;
  }

  lemma EndIsNoSpace(text: string, end: nat, touching: bool)
    requires KeyEnds(text, end, touching)
    ensures end < |text| ==> !IsHorizontalSpace(text[end]) && text[end] != '.'
  {}

  lemma DotIsNoSpace(text: string, pos: nat)
    requires pos < |text| && text[pos] == '.'
    ensures !IsHorizontalSpace(text[pos])
  {}

  lemma KeyIsReadOn(ps: seq<Part>)
    requires PartsOk(ps) && |ps| > 1
    ensures PartOk(ps[0]) && PartsOk(ps[1..]) && LastPart(ps[1..]) == LastPart(ps)
    ensures Names(ps) == [NameOf(ps[0].segment)] + Names(ps[1..])
  {
    hide PartOk, NameOf;
    assert forall q | q in ps[1..] :: q in ps;
  }

  // ---------------------------------------------------------------- every key that is read is of the grammar

  lemma SegmentStands(text: string, pos: nat) returns (s: Segment)
    requires pos < |text| && SegmentAt(text, pos).Some?
    ensures SegmentOk(s) && At(text, pos, SegmentText(s))
    ensures SegmentAt(text, pos) == Some(Parsed(NameOf(s), pos + |SegmentText(s)|))
    ensures s.Name? ==> pos + |SegmentText(s)| < |text| ==> !IsBareKeyChar(text[pos + |SegmentText(s)|])
  {
    hide At, StringAt, BareEnd, Items, SpellingOk;
    if IsBareKeyChar(text[pos]) {
      var end := BareEnd(text, pos);
      s := Name(text[pos..end]);
      BareRun(text, pos);
      SliceAt(text, pos, end);
    } else {
      var sp := ReadString(text, pos);
      SpellingParts(sp);
      StringIsRead(text, pos, sp);
      s := Quoting(sp);
    }
  }

  lemma BareRun(text: string, pos: nat)
    requires pos < |text| && IsBareKeyChar(text[pos])
    ensures pos < BareEnd(text, pos) && IsBareText(text[pos..BareEnd(text, pos)])
  {
    var end := BareEnd(text, pos);
    forall c | c in text[pos..end] ensures IsBareKeyChar(c) {
      var i :| pos <= i < end && text[i] == c;
    }
  }

  lemma BlanksStand(text: string, pos: nat)
    requires pos <= |text| && SpacesEnd(text, pos).Some?
    ensures var e := SpacesEnd(text, pos).value;
            pos <= e <= |text| && IsBlank(text[pos..e]) && At(text, pos, text[pos..e])
  {
    hide IsSpaceOrTab, IsHorizontalSpace;
    SpacesAre(text, pos);
    SliceAt(text, pos, SpacesEnd(text, pos).value);
  }

  lemma PartsOne(p: Part)
    requires PartOk(p)
    ensures PartsOk([p]) && KeyWritten([p]) == SegmentText(p.segment) + p.behind && Names([p]) == [NameOf(p.segment)]
  {
    hide PartOk, SegmentText, NameOf;
    assert [p][1..] == [];
    assert p.behind + "" == p.behind;
  }

  lemma PartsCons(p: Part, rest: seq<Part>)
    requires PartOk(p) && PartsOk(rest)
    ensures PartsOk([p] + rest) && Names([p] + rest) == [NameOf(p.segment)] + Names(rest)
    ensures KeyWritten([p] + rest) == SegmentText(p.segment) + (p.behind + ("." + (p.next + KeyWritten(rest))))
  {
    hide PartOk, SegmentText, NameOf;
    var ps := [p] + rest;
    assert ps[1..] == rest && ps[0] == p;
    forall q | q in ps ensures PartOk(q) { assert q == p || q in rest; }
  }

  /** Every key that is read is one of the grammar, with at most 1024 names. */
  lemma {:induction false} ReadKey(text: string, pos: nat, n: nat) returns (ps: seq<Part>)
    requires pos < |text| && KeyAt(text, pos, n).Some?
    ensures PartsOk(ps) && At(text, pos, KeyWritten(ps)) && n + |ps| <= MAX_DOTTED_KEYS_DEPTH
    ensures KeyAt(text, pos, n) == Some(Parsed(Names(ps), pos + |KeyWritten(ps)|))
    ensures var end := pos + |KeyWritten(ps)|; end < |text| ==> !IsHorizontalSpace(text[end]) && text[end] != '.'
    decreases |text| - pos
  {
    hide At, SegmentAt, SegmentText, SpacesEnd, IsHorizontalSpace, SegmentOk, NameOf, IsBlank, PartsOk, KeyWritten, Names;
    var s := SegmentStands(text, pos);
    var k := SegmentAt(text, pos).value;
    BlanksStand(text, k.after);
    NoBlank();
    var e := SpacesEnd(text, k.after).value;
    var b := text[k.after..e];
    if e == |text| || text[e] != '.' {
      ps := [Part(s, b, "")];
      PartsOne(ps[0]);
      AtConcat(text, pos, SegmentText(s), b);
    } else {
      BlanksStand(text, e + 1);
      var q := SpacesEnd(text, e + 1).value;
      var x := text[e + 1..q];
      var rest := ReadKey(text, q, n + 1);
      ps := [Part(s, b, x)] + rest;
      PartsCons(Part(s, b, x), rest);
      JoinKey(text, pos, SegmentText(s), b, x, KeyWritten(rest));
    }
  }

  lemma NoBlank()
    ensures IsBlank("")
  {}

  lemma JoinKey(text: string, pos: nat, s: string, b: string, x: string, rest: string)
    requires var dot := pos + |s| + |b|;
             && At(text, pos, s) && At(text, pos + |s|, b) && dot < |text| && text[dot] == '.'
             && At(text, dot + 1, x) && At(text, dot + 1 + |x|, rest)
    ensures At(text, pos, s + (b + ("." + (x + rest))))
    ensures |s + (b + ("." + (x + rest)))| == |s| + |b| + 1 + |x| + |rest|
  {
    hide At;
    AtConcat(text, pos, s, b + ("." + (x + rest)));
    AtConcat(text, pos + |s|, b, "." + (x + rest));
    AtConcat(text, pos + |s| + |b|, ".", x + rest);
    AtConcat(text, pos + |s| + |b| + 1, x, rest);
    AtChar(text, pos + |s| + |b|, '.');
  }
}
