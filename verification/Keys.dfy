/** Keys of `toml.hpp`: `parse_key`, and the printing of dotted keys. */
module Keys {
  import opened Characters
  import opened Integers
  import opened StringParser
  import opened StringPrinter
  import opened StringRoundTrips
  import opened Wrappers

  const MAX_DOTTED_KEYS_DEPTH: nat := 1024

  // ---------------------------------------------------------------- parsing

  function BareEnd(text: string, pos: nat): (end: nat)
    requires pos <= |text|
    ensures pos <= end <= |text| && (end < |text| ==> !IsBareKeyChar(text[end]))
    ensures forall i | pos <= i < end :: IsBareKeyChar(text[i])
    decreases |text| - pos
  {
    if pos < |text| && IsBareKeyChar(text[pos]) then BareEnd(text, pos + 1) else pos
  }

  /** The segment of a key at `pos`: bare, or a string on a single line. */
  function SegmentAt(text: string, pos: nat): (r: Option<Parsed<string>>)
    requires pos < |text|
    ensures r.Some? ==> pos < r.value.after <= |text|
  {
    if IsBareKeyChar(text[pos]) then
      var end := BareEnd(text, pos);
      Some(Parsed(text[pos..end], end))
    else if IsDelimiter(text[pos]) then
      var s := StringAt(text, pos);
      if s.None? || s.value.value.wasMultiLine then None else Some(Parsed(s.value.value.value, s.value.after))
    else None
  }

  function PrependKey(k: string, r: Option<Parsed<seq<string>>>): Option<Parsed<seq<string>>> {
    if r.None? then None else Some(Parsed([k] + r.value.value, r.value.after))
  }

  /** The segments of a key from `pos` on, behind `n` others; it ends behind the blanks that follow it. */
  function KeyAt(text: string, pos: nat, n: nat): (r: Option<Parsed<seq<string>>>)
    requires pos < |text|
    ensures r.Some? ==> pos < r.value.after <= |text| && r.value.value != []
    decreases |text| - pos
  {
    var k := SegmentAt(text, pos);
    if k.None? then None else
      var sp := SpacesEnd(text, k.value.after);
      if sp.None? || n + 1 > MAX_DOTTED_KEYS_DEPTH then None
      else if sp.value == |text| || text[sp.value] != '.' then Some(Parsed([k.value.value], sp.value))
      else
        var next := SpacesEnd(text, sp.value + 1);
        if next.None? || next.value == |text| then None
        else PrependKey(k.value.value, KeyAt(text, next.value, n + 1))
  }

  /** `parse_bare_key_segment`. */
  method ParseBareKeySegment(text: string, pos: nat) returns (r: Parsed<string>)
    requires pos < |text| && IsBareKeyChar(text[pos])
    ensures SegmentAt(text, pos) == Some(r)
  {
    hide IsBareKeyChar;
    var p, buffer := pos, "";
    while p < |text|
      invariant pos <= p <= |text| && buffer == text[pos..p] && BareEnd(text, pos) == BareEnd(text, p)
    {
      if !IsBareKeyChar(text[p]) { break; }
      buffer := buffer + [text[p]];
      p := p + 1;
    }
    return Parsed(buffer, p);
  }

  /** One segment of `parse_key`. */
  method ParseSegment(text: string, pos: nat) returns (r: Option<Parsed<string>>)
    requires pos < |text|
    ensures r == SegmentAt(text, pos)
  {
    hide BareEnd, StringAt;
    if IsBareKeyChar(text[pos]) {
      var bare := ParseBareKeySegment(text, pos);
      return Some(bare);
    } else if IsDelimiter(text[pos]) {
      var str := ParseString(text, pos);
      if str.None? || str.value.value.wasMultiLine { return None; }
      return Some(Parsed(str.value.value.value, str.value.after));
    }
    return None;
  }

  function AddKeys(keys: seq<string>, r: Option<Parsed<seq<string>>>): Option<Parsed<seq<string>>> {
    if r.None? then None else Some(Parsed(keys + r.value.value, r.value.after))
  }

  lemma AddKey(keys: seq<string>, k: string, r: Option<Parsed<seq<string>>>)
    ensures AddKeys(keys, PrependKey(k, r)) == AddKeys(keys + [k], r)
    ensures AddKeys(keys, None) == None
  {
    if r.Some? { assert keys + ([k] + r.value.value) == keys + [k] + r.value.value; }
  }

  /** `parse_key`: the segments that are put into the key buffer, and where the key ends. */
  method ParseKey(text: string, pos: nat) returns (r: Option<Parsed<seq<string>>>)
    requires pos < |text|
    ensures r == KeyAt(text, pos, 0)
  {
    hide SegmentAt, SpacesEnd, AddKeys, PrependKey;
    var p: nat := pos;
    var keyBuffer: seq<string> := [];
    ghost var whole := KeyAt(text, pos, 0);
    AddNothing(whole);
    while true
      invariant p < |text| && whole == AddKeys(keyBuffer, KeyAt(text, p, |keyBuffer|))
      decreases |text| - p
    {
      AddKey(keyBuffer, "", None);
      var segment := ParseSegment(text, p);
      if segment.None? { return None; }
      var k := segment.value.value;
      var spaces := ConsumeLeadingWhitespace(text, segment.value.after);
      if spaces.None? { return None; }
      AddLast(keyBuffer, k, spaces.value);
      keyBuffer := keyBuffer + [k];
      if |keyBuffer| > MAX_DOTTED_KEYS_DEPTH { return None; }
      if spaces.value == |text| || text[spaces.value] != '.' { return Some(Parsed(keyBuffer, spaces.value)); }
      var next := ConsumeLeadingWhitespace(text, spaces.value + 1);
      if next.None? || next.value == |text| { return None; }
      AddKey(keyBuffer[..|keyBuffer| - 1], k, KeyAt(text, next.value, |keyBuffer|));
      assert keyBuffer[..|keyBuffer| - 1] + [k] == keyBuffer;
      p := next.value;
    }
  }

  lemma AddNothing(r: Option<Parsed<seq<string>>>)
    ensures AddKeys([], r) == r
  {
    if r.Some? { assert [] + r.value.value == r.value.value; }
  }

  lemma AddLast(keys: seq<string>, k: string, end: nat)
    ensures AddKeys(keys, Some(Parsed([k], end))) == Some(Parsed(keys + [k], end))
  {}

  // ---------------------------------------------------------------- printing

  function KeyText(k: string, flags: StringFlags): string {
    StringText(k, KEY_USE, flags)
  }

  /** Keys joined by dots. */
  function KeyPathText(ks: seq<string>, flags: StringFlags): string {
    if ks == [] then "" else if |ks| == 1 then KeyText(ks[0], flags)
    else KeyText(ks[0], flags) + ("." + KeyPathText(ks[1..], flags))
  }

  /** The dot before all but the first key. */
  function Separator(ks: seq<string>, i: nat): string {
    if 0 < i < |ks| then "." else ""
  }

  /** `print_key_path`. */
  method PrintKeyPath(keyPath: seq<string>, flags: StringFlags) returns (os: string)
    ensures os == KeyPathText(keyPath, flags)
  {
    hide StringText, KeyText, KeyPathText;
    os := "";
    var n := 0;
    PathEnds(keyPath, flags);
    for i := 0 to |keyPath|
      invariant n == i
      invariant KeyPathText(keyPath, flags) == os + (Separator(keyPath, i) + KeyPathText(keyPath[i..], flags))
    {
      PathStep(keyPath, i, flags);
      var before := os;
      if n != 0 { os := os + "."; }
      n := n + 1;
      var key := PrintKey(keyPath[i], flags);
      os := os + key;
      JoinStep(before, Separator(keyPath, i), key, Separator(keyPath, i + 1) + KeyPathText(keyPath[i + 1..], flags));
    }
  }

  /** `print` of a key. */
  method PrintKey(k: string, flags: StringFlags) returns (os: string)
    ensures os == KeyText(k, flags)
  {
    os := PrintString(k, KEY_USE, flags);
  }

  lemma PathEnds(ks: seq<string>, flags: StringFlags)
    ensures KeyPathText(ks, flags) == "" + (Separator(ks, 0) + KeyPathText(ks[0..], flags))
    ensures forall os: string :: os + (Separator(ks, |ks|) + KeyPathText(ks[|ks|..], flags)) == os
  {
    hide KeyText;
    assert ks[0..] == ks && ks[|ks|..] == [];
    assert "" + ("" + KeyPathText(ks, flags)) == KeyPathText(ks, flags);
  }

  lemma JoinStep(os: string, sep: string, key: string, rest: string)
    ensures os + (sep + (key + rest)) == os + sep + key + rest
  {}

  lemma PathStep(ks: seq<string>, i: nat, flags: StringFlags)
    requires i < |ks|
    ensures KeyPathText(ks[i..], flags)
         == KeyText(ks[i], flags) + (Separator(ks, i + 1) + KeyPathText(ks[i + 1..], flags))
  {
    hide KeyText;
    var tail := ks[i..];
    assert tail[0] == ks[i] && tail[1..] == ks[i + 1..];
    if |tail| == 1 {
      assert KeyText(ks[i], flags) + ("" + "") == KeyText(ks[i], flags);
    }
  }

  // ---------------------------------------------------------------- the round trip

  /** A segment that ends at `pos` cannot go on there. */
  predicate SegmentEndsAt(text: string, pos: nat) {
    pos < |text| ==> !IsBareKeyChar(text[pos]) && !IsDelimiter(text[pos])
  }

  lemma {:induction false} BareEndAt(text: string, i: nat, e: nat)
    requires i <= e <= |text| && (e < |text| ==> !IsBareKeyChar(text[e]))
    requires forall j | i <= j < e :: IsBareKeyChar(text[j])
    ensures BareEnd(text, i) == e
    decreases e - i
  {
    if i < e { BareEndAt(text, i + 1, e); }
  }

  lemma BareReads(text: string, pos: nat, k: string)
    requires At(text, pos, k) && k != "" && IsBareText(k) && SegmentEndsAt(text, pos + |k|)
    ensures pos < |text| && SegmentAt(text, pos) == Some(Parsed(k, pos + |k|))
  {
    hide IsBareKeyChar, BareEnd;
    forall i | pos <= i < pos + |k| ensures IsBareKeyChar(text[i]) {
      AtCharOf(text, pos, k, i - pos);
      assert k[i - pos] in k;
    }
    BareEndAt(text, pos, pos + |k|);
  }

  /** Keys are printed on a single line. */
  lemma KeyStyle(k: string, flags: StringFlags)
    ensures !IsLost(k, StyleOf(k, KEY_USE, flags))
    ensures StyleOf(k, KEY_USE, flags).Bare? <==> IsBareText(k)
    ensures !StyleOf(k, KEY_USE, flags).Bare? ==> !StyleOf(k, KEY_USE, flags).multiLine
  {
    hide HasControl, HasNonAscii;
  }

  /** Every printed key is read back: bare, literal or escaped. */
  lemma KeyReads(text: string, pos: nat, k: string, flags: StringFlags)
    requires At(text, pos, KeyText(k, flags)) && SegmentEndsAt(text, pos + |KeyText(k, flags)|)
    ensures pos < |text| && !IsHorizontalSpace(text[pos])
    ensures SegmentAt(text, pos) == Some(Parsed(k, pos + |KeyText(k, flags)|))
  {
    hide IsBareText, At, StringAt, BareEnd, StyleOf, HasTriple;
    KeyStyle(k, flags);
    if k != "" && IsBareText(k) {
      BareReads(text, pos, k);
    } else {
      StringRoundTrip(text, pos, k, KEY_USE, flags);
      NotBoth(text[pos]);
    }
  }

  lemma NotBoth(c: char)
    ensures IsDelimiter(c) ==> !IsBareKeyChar(c) && !IsHorizontalSpace(c)
  {}

  lemma SpacesEndHere(text: string, pos: nat)
    requires pos <= |text| && (pos < |text| ==> !IsHorizontalSpace(text[pos]))
    ensures SpacesEnd(text, pos) == Some(pos)
  {}

  lemma DotAfter(text: string, pos: nat)
    requires pos < |text| && text[pos] == '.'
    ensures SegmentEndsAt(text, pos) && SpacesEnd(text, pos) == Some(pos)
  {}

  /**
    The keys of a printed path are read back exactly if there are at most 1024 of them; behind
    the last one blanks are skipped, and no dot may follow.
  */
  lemma {:induction false} KeysRead(text: string, pos: nat, ks: seq<string>, flags: StringFlags, n: nat, end: nat)
    requires ks != [] && At(text, pos, KeyPathText(ks, flags)) && n <= MAX_DOTTED_KEYS_DEPTH
    requires SegmentEndsAt(text, pos + |KeyPathText(ks, flags)|)
    requires pos + |KeyPathText(ks, flags)| <= |text|
    requires SpacesEnd(text, pos + |KeyPathText(ks, flags)|) == Some(end) && (end < |text| ==> text[end] != '.')
    ensures pos < |text| && !IsHorizontalSpace(text[pos])
    ensures KeyAt(text, pos, n) == if n + |ks| <= MAX_DOTTED_KEYS_DEPTH then Some(Parsed(ks, end)) else None
    decreases |ks|
  {
    hide At, KeyText, SegmentAt, SpacesEnd, IsHorizontalSpace, IsBareKeyChar;
    var k := KeyText(ks[0], flags);
    if |ks| == 1 {
      KeyReads(text, pos, ks[0], flags);
      assert [ks[0]] == ks;
    } else {
      var rest := KeyPathText(ks[1..], flags);
      AtConcat(text, pos, k, "." + rest);
      AtConcat(text, pos + |k|, ".", rest);
      AtChar(text, pos + |k|, '.');
      DotAfter(text, pos + |k|);
      KeyReads(text, pos, ks[0], flags);
      assert |"." + rest| == 1 + |rest|;
      if n + 1 <= MAX_DOTTED_KEYS_DEPTH {
        KeysRead(text, pos + |k| + 1, ks[1..], flags, n + 1, end);
        SpacesEndHere(text, pos + |k| + 1);
        assert [ks[0]] + ks[1..] == ks;
      }
    }
  }

  /** `parse_key` on the keys that `print` writes, joined by dots, gives exactly those keys back. */
  lemma KeyPathRoundTrip(text: string, pos: nat, ks: seq<string>, flags: StringFlags)
    requires ks != [] && At(text, pos, KeyPathText(ks, flags))
    requires var end := pos + |KeyPathText(ks, flags)|;
             end < |text| ==> text[end] == '=' || text[end] == ']'
    ensures pos < |text|
    ensures KeyAt(text, pos, 0)
         == if |ks| <= MAX_DOTTED_KEYS_DEPTH then Some(Parsed(ks, pos + |KeyPathText(ks, flags)|)) else None
  {
    var end := pos + |KeyPathText(ks, flags)|;
    SpacesEndHere(text, end);
    KeysRead(text, pos, ks, flags, 0, end);
  }
}
