/**
  The block reader of `toml.hpp`: it decodes a string in blocks of 32 bytes, takes a fast path for
  blocks of ASCII, and hands out code points one at a time with their lines and columns.
*/
module Utf8Readers {
  import opened Blocks
  import opened Wrappers
  import opened Utf8

  const ByteOrderMark: seq<Byte> := [0xEF, 0xBB, 0xBF]

  // ---------------------------------------------------------------- is_ascii

  function Or(a: Byte, b: Byte): Byte {
    ((a as bv8) | (b as bv8)) as int
  }

  lemma HighBits(x: bv8, y: bv8)
    ensures (x | y) >= 0x80 <==> x >= 0x80 || y >= 0x80
  {}

  lemma HighByte(x: bv8)
    ensures x >= 0x80 <==> (x as int) >= 128
  {}

  lemma ByteHigh(a: Byte)
    ensures (a as bv8) >= 0x80 <==> a >= 128
  {}

  lemma OrHigh(a: Byte, b: Byte)
    ensures Or(a, b) >= 128 <==> a >= 128 || b >= 128
  {
    ByteHigh(a);
    ByteHigh(b);
    HighBits(a as bv8, b as bv8);
    HighByte((a as bv8) | (b as bv8));
  }

  predicate AllAscii(bs: seq<Byte>) {
    forall b | b in bs :: b < 128
  }

  lemma AsciiAppend(a: seq<Byte>, b: seq<Byte>)
    ensures AllAscii(a + b) <==> AllAscii(a) && AllAscii(b)
  {
    assert forall x :: x in a + b <==> x in a || x in b;
  }

  /** One step of the vector loop: 16 lanes are or-ed at once. */
  function OrLanes(mask: seq<Byte>, block: seq<Byte>): (r: seq<Byte>)
    requires |mask| == |block| == 16
    ensures |r| == 16
    ensures AllAscii(r) <==> AllAscii(mask) && AllAscii(block)
  {
    var r := seq(16, i requires 0 <= i < 16 => Or(mask[i], block[i]));
    assert AllAscii(r) <==> AllAscii(mask) && AllAscii(block) by {
      forall i | 0 <= i < 16 ensures r[i] >= 128 <==> mask[i] >= 128 || block[i] >= 128 { OrHigh(mask[i], block[i]); }
      if AllAscii(r) {
        forall b | b in mask || b in block ensures b < 128 {
          var i :| 0 <= i < 16 && (mask[i] == b || block[i] == b);
          assert r[i] in r;
        }
      } else {
        var b :| b in r && b >= 128;
        var i :| 0 <= i < 16 && r[i] == b;
        assert mask[i] in mask && block[i] in block;
      }
    }
    r
  }

  /** `is_ascii`: whole vectors first, then the bytes that are left. */
  method IsAscii(str: seq<Byte>) returns (ascii: bool)
    ensures ascii <==> AllAscii(str)
  {
    var simdable := |str| - |str| % 16;
    var i := 0;
    var mask: seq<Byte> := seq(16, _ => 0);
    while i < simdable
      invariant i % 16 == 0 && i <= simdable && |mask| == 16
      invariant AllAscii(mask) <==> AllAscii(str[..i])
    {
      assert str[..i + 16] == str[..i] + str[i..i + 16];
      AsciiAppend(str[..i], str[i..i + 16]);
      mask := OrLanes(mask, str[i..i + 16]);
      i := i + 16;
    }
    assert str == str[..i] + str[i..];
    AsciiAppend(str[..i], str[i..]);
    if exists b | b in mask :: b >= 128 { return false; }
    while i < |str|
      invariant simdable <= i <= |str|
      invariant AllAscii(str[..i])
    {
      if str[i] > 127 {
        assert str[i] in str;
        return false;
      }
      assert str[..i + 1] == str[..i] + [str[i]];
      i := i + 1;
    }
    assert str[..i] == str;
    return true;
  }

  // ---------------------------------------------------------------- positions

  datatype Position = Position(line: nat, column: nat)

  datatype CodePoint = CodePoint(value: nat, bytes: seq<Byte>, position: Position)

  const Origin := Position(1, 1)

  function Advance(p: Position, value: nat): Position {
    if value == 0x0A then Position(p.line + 1, 1) else Position(p.line, p.column + 1)
  }

  /** The position after some code points. */
  function After(cs: seq<Char>, p: Position): Position
    decreases |cs|
  {
    if cs == [] then p else After(cs[1..], Advance(p, cs[0].value))
  }

  /** Code points with the positions they have in the text. */
  function Locate(cs: seq<Char>, p: Position): (r: seq<CodePoint>)
    ensures |r| == |cs|
    decreases |cs|
  {
    if cs == [] then [] else [CodePoint(cs[0].value, cs[0].bytes, p)] + Locate(cs[1..], Advance(p, cs[0].value))
  }

  lemma {:induction false} LocateAppend(a: seq<Char>, b: seq<Char>, p: Position)
    ensures Locate(a + b, p) == Locate(a, p) + Locate(b, After(a, p))
    ensures After(a + b, p) == After(b, After(a, p))
    decreases |a|
  {
    if a == [] {
      assert a + b == b;
    } else {
      assert (a + b)[0] == a[0] && (a + b)[1..] == a[1..] + b;
      LocateAppend(a[1..], b, Advance(p, a[0].value));
    }
  }

  function Newlines(cs: seq<Char>): nat {
    if cs == [] then 0 else (if cs[0].value == 0x0A then 1 else 0) + Newlines(cs[1..])
  }

  /** How many code points follow the last newline. */
  function SinceNewline(cs: seq<Char>): nat {
    if cs == [] || cs[|cs| - 1].value == 0x0A then 0 else 1 + SinceNewline(cs[..|cs| - 1])
  }

  lemma {:induction false} NewlinesAppend(a: seq<Char>, c: Char)
    ensures Newlines(a + [c]) == Newlines(a) + if c.value == 0x0A then 1 else 0
  {
    if a != [] {
      assert (a + [c])[1..] == a[1..] + [c];
      NewlinesAppend(a[1..], c);
    }
  }

  /** Lines count the newlines before a code point, columns the code points since the last of them. */
  lemma {:induction false} PositionCounts(cs: seq<Char>, i: nat)
    requires i <= |cs|
    ensures After(cs[..i], Origin) == Position(1 + Newlines(cs[..i]), 1 + SinceNewline(cs[..i]))
    ensures i < |cs| ==> Locate(cs, Origin)[i] == CodePoint(cs[i].value, cs[i].bytes, After(cs[..i], Origin))
  {
    if i > 0 {
      PositionCounts(cs, i - 1);
      assert cs[..i] == cs[..i - 1] + [cs[i - 1]] && cs[..i][..i - 1] == cs[..i - 1];
      NewlinesAppend(cs[..i - 1], cs[i - 1]);
      LocateAppend(cs[..i - 1], [cs[i - 1]], Origin);
    }
    if i < |cs| {
      assert cs == cs[..i] + cs[i..];
      LocateAppend(cs[..i], cs[i..], Origin);
    }
  }

  // ---------------------------------------------------------------- what a whole text reads as

  /** The text without a leading byte order mark. */
  function Body(source: seq<Byte>): seq<Byte> {
    if ByteOrderMark <= source then source[3..] else source
  }

  /** The code points of a text, in order and located, if it is well-formed UTF-8. */
  function Text(source: seq<Byte>): Option<seq<CodePoint>> {
    var d := Decode(Body(source));
    if d.None? then None else
      EncodeDecode(Body(source));
      Some(Locate(Chars(d.value), Origin))
  }

  lemma {:induction false} FeedExtends(p: Progress, bs: seq<Byte>)
    requires FeedAll(p, bs).Some?
    ensures p.chars <= FeedAll(p, bs).value.chars
    decreases |bs|
  {
    hide Step;
    if bs != [] { FeedExtends(Feed(p, bs[0]).value, bs[1..]); }
  }

  /** In a boundary state the code point that was computed last does not matter. */
  lemma FeedFromBoundary(p: Progress, q: Progress, bs: seq<Byte>)
    requires p.d.state == Accept && q.d.state == Accept && bs != []
    requires p.pending == q.pending && p.chars == q.chars
    ensures FeedAll(p, bs) == FeedAll(q, bs)
  {
    assert Step(p.d, bs[0]) == Step(q.d, bs[0]);
    hide Step;
  }

  /** The code points of a block without their positions. */
  function CharsOf(cps: seq<CodePoint>): (r: seq<Char>)
    ensures |r| == |cps|
  {
    seq(|cps|, i requires 0 <= i < |cps| => Char(cps[i].value, cps[i].bytes))
  }

  function AsciiChars(bs: seq<Byte>): seq<Char> {
    seq(|bs|, i requires 0 <= i < |bs| => Char(bs[i], [bs[i]]))
  }

  lemma {:induction false} FeedAscii(p: Progress, bs: seq<Byte>)
    requires Midway(p) && p.d.state == Accept && AllAscii(bs)
    ensures var r := FeedAll(p, bs);
            && r.Some? && r.value.d.state == Accept && r.value.pending == []
            && r.value.chars == p.chars + AsciiChars(bs)
    decreases |bs|
  {
    hide Step, Feed, Midway, FeedAll;
    if bs == [] {
      BoundaryPending(p);
      FeedNothing(p, bs);
    } else {
      assert bs == [bs[0]] + bs[1..];
      AsciiAppend([bs[0]], bs[1..]);
      assert bs[0] in [bs[0]];
      FeedLead(p, bs[0]);
      FeedSome(p, bs);
      FeedAscii(Feed(p, bs[0]).value, bs[1..]);
      assert AsciiChars(bs) == [Char(bs[0], [bs[0]])] + AsciiChars(bs[1..]);
    }
  }

  /** Two decoders that differ at most in the code point of a boundary state go on alike. */
  lemma Resume(r: Progress, p: Progress, bs: seq<Byte>)
    requires r.d.state == p.d.state && (r.d.state != Accept ==> r.d == p.d)
    requires r.pending == p.pending && r.chars == p.chars && bs != []
    ensures FeedAll(r, bs) == FeedAll(p, bs) && (Midway(r) ==> Midway(p))
  {
    if r.d.state == Accept { FeedFromBoundary(r, p, bs); }
  }

  lemma MidwayState(p: Progress)
    requires Midway(p)
    ensures ValidState(p.d.state) && p.d.state != Reject && (p.d.state == Accept <==> p.pending == []) && |p.pending| <= 3
  {}

  lemma Slices(source: seq<Byte>, k: nat, n: nat)
    requires var start := |source| - |Body(source)|; start <= k <= k + n <= |source|
    ensures var start := |source| - |Body(source)|;
            && source[start..k + n] == source[start..k] + source[k..k + n]
            && source[start..k] + source[k..k + n] <= Body(source)
            && Body(source) == source[start..]
  {
    var start := |source| - |Body(source)|;
    assert Body(source) == source[start..];
    assert source[start..k] + source[k..k + n] == source[start..][..k + n - start];
  }

  lemma FeedNext(p: Progress, bs: seq<Byte>, i: nat)
    requires i < |bs| && FeedAll(p, bs[..i]).Some?
    ensures FeedAll(p, bs[..i + 1]) == Feed(FeedAll(p, bs[..i]).value, bs[i])
  {
    hide Feed;
    assert bs[..i + 1] == bs[..i] + [bs[i]];
    FeedAppend(p, bs[..i], [bs[i]]);
    assert forall q :: FeedAll(q, [bs[i]]) == Feed(q, bs[i]);
  }

  /** If the decoder errs on a part of a text, the text is not well-formed. */
  lemma ErrorIsFinal(source: seq<Byte>, a: seq<Byte>, b: seq<Byte>)
    requires a + b <= Body(source)
    requires FeedAll(Begin, a).Some? && FeedAll(FeedAll(Begin, a).value, b) == None
    ensures Text(source) == None
  {
    hide FeedAll, Decode;
    var c := Body(source)[|a + b|..];
    assert Body(source) == (a + b) + c;
    FeedAppend(Begin, a, b);
    FeedAppend(Begin, a + b, c);
    DecoderAccepts(Begin, Body(source));
  }

  /** A text that ends inside a code point is not well-formed; one that ends at a boundary is. */
  lemma EndOfText(source: seq<Byte>)
    requires FeedAll(Begin, Body(source)).Some?
    ensures var r := FeedAll(Begin, Body(source)).value;
            if r.pending == [] then Text(source) == Some(Locate(r.chars, Origin)) else Text(source) == None
  {
    hide FeedAll, Decode;
    DecoderAccepts(Begin, Body(source));
    if Decode(Body(source)).Some? {
      assert [] + Chars(Decode(Body(source)).value) == Chars(Decode(Body(source)).value);
    }
  }

  lemma TextIsDecoded(source: seq<Byte>)
    requires Text(source).Some?
    ensures FeedAll(Begin, Body(source)).Some? && Text(source).value == Locate(FeedAll(Begin, Body(source)).value.chars, Origin)
  {
    hide FeedAll, Decode;
    DecoderAccepts(Begin, Body(source));
    EndOfText(source);
  }

  /** What has been decoded of a well-formed text is where the text begins. */
  lemma DecodedIsPrefix(source: seq<Byte>, a: seq<Byte>)
    requires a <= Body(source) && FeedAll(Begin, a).Some? && Text(source).Some?
    ensures Locate(FeedAll(Begin, a).value.chars, Origin) <= Text(source).value
  {
    hide FeedAll, Decode;
    var b := Body(source)[|a|..];
    assert Body(source) == a + b;
    FeedAppend(Begin, a, b);
    DecoderAccepts(Begin, Body(source));
    var r := FeedAll(Begin, a).value;
    EndOfText(source);
    FeedExtends(r, b);
    var cs := FeedAll(Begin, Body(source)).value.chars;
    assert cs == r.chars + cs[|r.chars|..];
    LocateAppend(r.chars, cs[|r.chars|..], Origin);
  }

  // ---------------------------------------------------------------- blocks

  /** How many bytes each code point takes. */
  function Lengths(cs: seq<Char>): (lens: seq<nat>)
    ensures |lens| == |cs|
  {
    seq(|cs|, i requires 0 <= i < |cs| => |cs[i].bytes|)
  }

  lemma {:induction false} FeedLengths(p: Progress, bs: seq<Byte>)
    requires FeedAll(p, bs).Some?
    ensures var r := FeedAll(p, bs).value;
            Total(Lengths(r.chars)) + |r.pending| == Total(Lengths(p.chars)) + |p.pending| + |bs|
    decreases |bs|
  {
    hide Step;
    if bs != [] {
      var q := Feed(p, bs[0]).value;
      if |q.chars| > |p.chars| {
        assert Lengths(q.chars) == Lengths(p.chars) + [|p.pending| + 1];
        TotalAppend(Lengths(p.chars), [|p.pending| + 1]);
        assert Total([|p.pending| + 1]) == Total([]) + |p.pending| + 1;
      }
      FeedLengths(q, bs[1..]);
    }
  }

  /** The code point that is completed next takes all pending bytes and at least one more. */
  lemma {:induction false} NextIsLonger(p: Progress, bs: seq<Byte>)
    requires FeedAll(p, bs).Some? && |FeedAll(p, bs).value.chars| > |p.chars|
    ensures |FeedAll(p, bs).value.chars[|p.chars|].bytes| > |p.pending|
    decreases |bs|
  {
    hide Step;
    var q := Feed(p, bs[0]).value;
    FeedExtends(q, bs[1..]);
    if |q.chars| == |p.chars| { NextIsLonger(q, bs[1..]); }
  }

  /** The code points decoded from the first `n` bytes are those that end within them. */
  lemma EndWithin(body: seq<Byte>, n: nat)
    requires n <= |body| && FeedAll(Begin, body).Some? && FeedAll(Begin, body[..n]).Some?
    ensures var cs, lens := FeedAll(Begin, body[..n]).value.chars, Lengths(FeedAll(Begin, body).value.chars);
            |cs| <= |lens| && forall q | 0 <= q < |lens| :: EndOf(lens, q) <= n <==> q < |cs|
  {
    hide FeedAll, Total;
    var r, all := FeedAll(Begin, body[..n]).value, FeedAll(Begin, body).value;
    var lens, d := Lengths(all.chars), |r.chars|;
    assert body == body[..n] + body[n..];
    FeedAppend(Begin, body[..n], body[n..]);
    FeedExtends(r, body[n..]);
    FeedLengths(Begin, body[..n]);
    NoTotal();
    assert Lengths(r.chars) == lens[..d];
    forall q | 0 <= q < |lens| ensures EndOf(lens, q) <= n <==> q < d {
      if q < d {
        TotalGrows(lens, q + 1, d);
      } else {
        NextIsLonger(r, body[n..]);
        assert lens[..d + 1] == lens[..d] + [lens[d]];
        TotalAppend(lens[..d], [lens[d]]);
        OneTotal(lens[d]);
        TotalGrows(lens, d + 1, q + 1);
      }
    }
  }

  /** A boundary of two blocks, or the end of the text. */
  ghost predicate Cut(body: seq<Byte>, n: nat, m: nat) {
    n <= |body| && (n == m * BlockCapacity || (n == |body| && n <= m * BlockCapacity))
  }

  /** What is decoded up to the end of a block are the code points of the blocks so far. */
  lemma BlocksWithin(body: seq<Byte>, n: nat, m: nat)
    requires Cut(body, n, m) && FeedAll(Begin, body).Some? && FeedAll(Begin, body[..n]).Some?
    ensures var cs, lens := FeedAll(Begin, body[..n]).value.chars, Lengths(FeedAll(Begin, body).value.chars);
            && |cs| <= |lens| && (n == |body| ==> |cs| == |lens|)
            && forall q | 0 <= q < |lens| :: BlockOf(lens, q) <= m <==> q < |cs|
  {
    hide FeedAll, Total, EndOf, BlockOf;
    var cs, lens := FeedAll(Begin, body[..n]).value.chars, Lengths(FeedAll(Begin, body).value.chars);
    EndWithin(body, n);
    if n == |body| { assert body[..n] == body; }
    forall q | 0 <= q < |lens| ensures BlockOf(lens, q) <= m <==> q < |cs| {
      InBlock(lens, q, m);
    }
  }

  /** The code points of two blocks that follow one another, and the slots of the first of them. */
  lemma TwoBlocks(body: seq<Byte>, k: nat, n0: nat, n1: nat, n2: nat, i: nat)
    requires Cut(body, n0, k) && Cut(body, n1, k + 1) && Cut(body, n2, k + 2) && n0 <= n1 <= n2
    requires FeedAll(Begin, body).Some? && FeedAll(Begin, body[..n0]).Some?
    requires FeedAll(Begin, body[..n1]).Some? && FeedAll(Begin, body[..n2]).Some?
    requires var a, b, c := |FeedAll(Begin, body[..n0]).value.chars|, |FeedAll(Begin, body[..n1]).value.chars|,
                            |FeedAll(Begin, body[..n2]).value.chars|;
             a <= i < b <= c && (n1 < |body| ==> b < c)
    ensures var a, b, c := |FeedAll(Begin, body[..n0]).value.chars|, |FeedAll(Begin, body[..n1]).value.chars|,
                           |FeedAll(Begin, body[..n2]).value.chars|;
            var lens := Lengths(FeedAll(Begin, body).value.chars);
            && b <= |lens|
            && SlotOf(lens, i) == if i + 1 < b || b == |lens| then Some(i) else if b + (i - a) < c then Some(b + (i - a)) else None
  {
    hide FeedAll, BlockOf, SlotOf, Lengths;
    BlocksWithin(body, n0, k);
    BlocksWithin(body, n1, k + 1);
    BlocksWithin(body, n2, k + 2);
    var lens := Lengths(FeedAll(Begin, body).value.chars);
    SlotBetween(lens, k + 1, |FeedAll(Begin, body[..n0]).value.chars|, |FeedAll(Begin, body[..n1]).value.chars|,
                |FeedAll(Begin, body[..n2]).value.chars|, i);
  }

  /**
    What the slot of the `i`-th code point of a text holds once the code point behind it has been
    read; a slot that the next block leaves empty is zero.
  */
  function ShownAt(t: seq<CodePoint>, i: nat): nat
    requires i < |t|
  {
    match SlotOf(Lengths(CharsOf(t)), i)
    case None => 0
    case Some(j) => t[j].value
  }

  lemma {:induction false} LocateLengths(cs: seq<Char>, p: Position)
    ensures CharsOf(Locate(cs, p)) == cs
    decreases |cs|
  {
    if cs != [] {
      LocateLengths(cs[1..], Advance(p, cs[0].value));
      assert CharsOf(Locate(cs, p)) == [cs[0]] + CharsOf(Locate(cs[1..], Advance(p, cs[0].value)));
    }
  }

  lemma HeldSlot(lens: seq<nat>, m: nat, a: nat, b: nat, i: nat)
    requires a <= i < b <= |lens| && (i + 1 < b || b == |lens|)
    requires forall q | 0 <= q < |lens| :: BlockOf(lens, q) <= m - 1 <==> q < a
    requires forall q | 0 <= q < |lens| :: BlockOf(lens, q) <= m <==> q < b
    ensures SlotOf(lens, i) == Some(i)
  {}

  lemma NoTotal()
    ensures Total(Lengths(Begin.chars)) == 0 && |Begin.pending| == 0
  {}

  lemma OneTotal(n: nat)
    ensures Total([n]) == n
  {
    assert Total([n]) == Total([n][..0]) + n;
  }

  // ---------------------------------------------------------------- the decoder object

  class Utf8Decoder {
    var state: nat
    var codepoint: nat

    ghost function Value(): Decoder
      reads this
    {
      Decoder(state, codepoint)
    }

    constructor ()
      ensures Value() == Fresh
    {
      state, codepoint := Accept, 0;
    }

    predicate Error()
      reads this
    {
      state == Reject
    }

    predicate HasCodePoint()
      reads this
    {
      state == Accept
    }

    predicate NeedsMoreInput()
      reads this
    {
      !HasCodePoint() && !Error()
    }

    /** `operator()`: one byte through the table. */
    method Put(byte: Byte)
      requires ValidState(state) && !Error()
      modifies this
      ensures Value() == Step(old(Value()), byte)
    {
      var class_ := Classes()[byte];
      assert class_ < 12 by { ClassOf(byte); }
      hide Classes, Transitions;
      codepoint := if HasCodePoint() then byte % MaskSize(class_) else byte % 64 + codepoint * 64 % 0x1_0000_0000;
      state := Transitions()[state + class_];
    }

    method Reset()
      modifies this
      ensures Value() == Decoder(Accept, old(codepoint))
    {
      state := Accept;
    }
  }

  // ---------------------------------------------------------------- the reader

  class Utf8Reader {
    const source: seq<Byte>
    var position: nat
    var nextPos: Position
    const decoder: Utf8Decoder
    var currentlyDecoding: seq<Byte>
    var codepoints: seq<CodePoint>
    var current: nat
    var err: bool
    /** The code points handed out so far. */
    ghost var delivered: seq<CodePoint>
    /** Every code point decoded so far. */
    ghost var decoded: seq<Char>
    /** How many blocks there are before the one in `codepoints`. */
    ghost var block: nat

    ghost function Start(): nat {
      if ByteOrderMark <= source then 3 else 0
    }

    /** The part of the text that has been through the decoder. */
    ghost function Consumed(): seq<Byte>
      requires Start() <= position <= |source|
      reads this`position
    {
      source[Start()..position]
    }

    /** The decoder is where decoding the consumed bytes at once would have left it. */
    ghost predicate InStep()
      requires Start() <= position <= |source|
      reads this`position, this`currentlyDecoding, this`decoded, decoder
    {
      var r := FeedAll(Begin, Consumed());
      && r.Some? && Midway(r.value)
      && r.value.d.state == decoder.state
      && (decoder.state != Accept ==> r.value.d == decoder.Value())
      && r.value.pending == currentlyDecoding
      && r.value.chars == decoded
    }

    /** The slots hold what has been decoded from the last block. */
    ghost predicate Loaded()
      requires Start() <= position <= |source|
      reads this`codepoints, this`position, this`decoded, this`block
    {
      var from := Start() + block * BlockCapacity;
      if codepoints == [] then position == Start() && decoded == [] else
        && from < position && Cut(source[Start()..], position - Start(), block + 1)
        && FeedAll(Begin, source[Start()..from]).Some?
        && |FeedAll(Begin, source[Start()..from]).value.chars| + |codepoints| == |decoded|
        && codepoints == Locate(decoded, Origin)[|decoded| - |codepoints|..]
    }

    ghost predicate Valid()
      reads this, decoder
    {
      && Start() <= position <= |source|
      && (!err ==>
            && InStep() && Loaded()
            && current <= |codepoints| <= BlockCapacity
            && delivered + codepoints[current..] == Locate(decoded, Origin)
            && nextPos == After(decoded, Origin)
            && (position == |source| ==> currentlyDecoding == []))
      && (err ==> Text(source) == None)
      && (Text(source).Some? ==> delivered <= Text(source).value)
    }

    constructor (source: seq<Byte>)
      ensures Valid() && this.source == source && delivered == [] && !err && fresh(decoder)
    {
      this.source := source;
      position := if ByteOrderMark <= source then 3 else 0;
      nextPos := Origin;
      decoder := new Utf8Decoder();
      currentlyDecoding, codepoints, current, err := [], [], 0, false;
      delivered, decoded, block := [], [], 0;
      new;
      assert Consumed() == [];
    }

    /** The stream is at its end. */
    predicate Eof()
      reads this`position
    {
      position >= |source|
    }

    lemma StartIs()
      ensures Start() == |source| - |Body(source)| && Start() <= |source|
    {}

    /** `calc_positions`: fills in the positions of the block and moves the next position past it. */
    method CalcPositions()
      modifies this`codepoints, this`nextPos
      ensures codepoints == Locate(CharsOf(old(codepoints)), old(nextPos))
      ensures nextPos == After(CharsOf(old(codepoints)), old(nextPos))
    {
      ghost var cs, p := CharsOf(codepoints), nextPos;
      for i := 0 to |codepoints|
        invariant |codepoints| == |cs| && CharsOf(codepoints) == cs
        invariant codepoints[..i] == Locate(cs[..i], p) && nextPos == After(cs[..i], p)
      {
        assert cs[..i + 1] == cs[..i] + [cs[i]];
        LocateAppend(cs[..i], [cs[i]], p);
        var cp := codepoints[i];
        codepoints := codepoints[i := cp.(position := nextPos)];
        if cp.value == 0x0A {
          nextPos := Position(nextPos.line + 1, 1);
        } else {
          nextPos := Position(nextPos.line, nextPos.column + 1);
        }
      }
      assert cs[..|cs|] == cs && codepoints[..|cs|] == codepoints;
    }

    /** All blocks but the last one are full. */
    lemma AtCut()
      requires Valid() && !err && !Eof()
      ensures (position - Start()) % BlockCapacity == 0
    {
      hide FeedAll, Feed, Step, Midway, Decode, Text, Locate, After, Transitions, Classes, InStep, Start;
    }

    /** Where decoding all consumed bytes at once has come to, and where the reader has. */
    lemma InStepParts(r: Progress)
      requires Start() <= position <= |source| && FeedAll(Begin, Consumed()) == Some(r)
      ensures InStep() <==>
                && Midway(r) && r.d.state == decoder.state && (decoder.state != Accept ==> r.d == decoder.Value())
                && r.pending == currentlyDecoding && r.chars == decoded
    {}

    lemma InStepSome()
      requires Start() <= position <= |source| && InStep()
      ensures FeedAll(Begin, Consumed()).Some?
    {}

    lemma LoadedNow(from: nat, before: seq<Char>, cs: seq<Char>)
      requires Start() <= from < position <= |source| && from == Start() + block * BlockCapacity
      requires position == from + BlockCapacity || (position == |source| && position <= from + BlockCapacity)
      requires FeedAll(Begin, source[Start()..from]).Some? && FeedAll(Begin, source[Start()..from]).value.chars == before
      requires decoded == before + cs && cs != [] && codepoints == Locate(cs, After(before, Origin))
      ensures Loaded()
    {
      hide FeedAll;
      LocateAppend(before, cs, Origin);
    }

    /**
      `read_next_block`. It fails exactly when the text turns out not to be UTF-8; a block that
      succeeds holds at least one code point.
    */
    method ReadNextBlock() returns (ok: bool)
      requires Valid() && !err && !Eof() && current == |codepoints|
      modifies this, decoder
      ensures Valid() && delivered == old(delivered) && ok == !err
      ensures ok ==> current == 0 && codepoints != []
      ensures ok && old(current) > 0 && Text(source).Some? ==> |delivered| > 0 && Shows(old(current) - 1, |delivered| - 1)
    {
      hide FeedAll, Feed, Step, Midway, Decode, Text, Locate, After, Transitions, Classes, Cut, Loaded, InStep, Shows;
      ghost var start := Start() + block * BlockCapacity;
      if current > 0 { LoadedParts(); }
      ghost var from, done := position, decoded;
      AtCut();
      InStepSome();
      InStepParts(FeedAll(Begin, Consumed()).value);
      ok := DecodeNext();
      if !ok {
        CalcPositions();
        err := true;
        return false;
      }
      ghost var cs, r := CharsOf(codepoints), FeedAll(Begin, Consumed()).value;
      LocateAppend(done, cs, Origin);
      block := (from - Start()) / BlockCapacity;
      decoded := done + cs;
      CalcPositions();
      LoadedNow(from, done, cs);
      InStepParts(r);
      if Text(source).Some? && old(current) > 0 {
        NextHeld(start, |FeedAll(Begin, source[Start()..start]).value.chars|);
      }
      return true;
    }

    /** The part of `read_next_block` that takes up to 32 bytes and decodes them, without positions. */
    method DecodeNext() returns (ok: bool)
      requires Start() <= position < |source| && InStep()
      modifies this`position, this`codepoints, this`current, this`currentlyDecoding, decoder
      ensures position == old(position) + BlockCapacity || (position == |source| && position <= old(position) + BlockCapacity)
      ensures old(position) < position <= |source|
      ensures !ok ==> Text(source) == None
      ensures ok ==>
                && FeedAll(Begin, Consumed()).Some?
                && var r := FeedAll(Begin, Consumed()).value;
                   && Midway(r) && r.d.state == decoder.state && (decoder.state != Accept ==> r.d == decoder.Value())
                   && r.pending == currentlyDecoding && r.chars == decoded + CharsOf(codepoints)
                   && current == 0 && 0 < |codepoints| <= BlockCapacity
                   && (position == |source| ==> currentlyDecoding == [])
    {
      hide FeedAll, Feed, Step, Midway, Decode, Text, Locate, After, Transitions, Classes, InStep;
      var n := if position + BlockCapacity <= |source| then BlockCapacity else |source| - position;
      var raw := source[position..position + n];
      InStepSome();
      ghost var before, r := Consumed(), FeedAll(Begin, Consumed()).value;
      ghost var p := Progress(decoder.Value(), currentlyDecoding, decoded);
      InStepParts(r);
      StartIs();
      Slices(source, position, n);
      FeedAppend(Begin, before, raw);
      Resume(r, p, raw);
      MidwayState(r);
      position := position + n;
      ok := DecodeBlock(raw);
      if !ok {
        ErrorIsFinal(source, before, raw);
        return;
      }
      FeedAllMidway(p, raw);
      MidwayState(FeedAll(p, raw).value);
      if decoder.NeedsMoreInput() && Eof() {
        assert before + raw == Body(source);
        EndOfText(source);
        ok := false;
      }
    }

    /** The two paths of `read_next_block`: what is decoded of a block, without positions. */
    method DecodeBlock(raw: seq<Byte>) returns (ok: bool)
      requires 0 < |raw| <= BlockCapacity
      requires Midway(Progress(decoder.Value(), currentlyDecoding, decoded))
      modifies this`codepoints, this`current, this`currentlyDecoding, decoder
      ensures var r := FeedAll(Progress(old(decoder.Value()), old(currentlyDecoding), decoded), raw);
              && ok == r.Some?
              && (ok ==>
                    && r.value.d.state == decoder.state && (decoder.state != Accept ==> r.value.d == decoder.Value())
                    && r.value.pending == currentlyDecoding && r.value.chars == decoded + CharsOf(codepoints)
                    && current == 0 && |codepoints| <= BlockCapacity
                    && (codepoints == [] ==> |currentlyDecoding| == |old(currentlyDecoding)| + |raw|))
    {
      hide FeedAll, Feed, Step, Midway, Decode, Text, Locate, After, Transitions, Classes;
      ghost var p := Progress(decoder.Value(), currentlyDecoding, decoded);
      MidwayState(p);
      codepoints, current := [], 0;
      var ascii := false;
      if !decoder.NeedsMoreInput() { ascii := IsAscii(raw); }
      if ascii {
        decoder.Reset();
        currentlyDecoding := [];
        for i := 0 to |raw|
          invariant |codepoints| == i && CharsOf(codepoints) == AsciiChars(raw[..i])
          invariant decoder.state == Accept && currentlyDecoding == [] && current == 0
        {
          assert AsciiChars(raw[..i + 1]) == AsciiChars(raw[..i]) + [Char(raw[i], [raw[i]])];
          codepoints := codepoints + [CodePoint(raw[i], [raw[i]], Origin)];
        }
        assert raw[..|raw|] == raw;
        FeedAscii(p, raw);
        return true;
      } else {
        ok := DecodeSlowly(raw);
      }
    }

    /** How far the block is decoded. */
    ghost function Now(): Progress
      reads this`currentlyDecoding, this`decoded, this`codepoints, decoder
    {
      Progress(decoder.Value(), currentlyDecoding, decoded + CharsOf(codepoints))
    }

    /** The slow path of `read_next_block`. */
    method DecodeSlowly(raw: seq<Byte>) returns (ok: bool)
      requires |raw| <= BlockCapacity && codepoints == []
      requires Midway(Progress(decoder.Value(), currentlyDecoding, decoded))
      modifies this`codepoints, this`currentlyDecoding, decoder
      ensures var r := FeedAll(Progress(old(decoder.Value()), old(currentlyDecoding), decoded), raw);
              && ok == r.Some?
              && (ok ==>
                    && r.value == Progress(decoder.Value(), currentlyDecoding, decoded + CharsOf(codepoints))
                    && |codepoints| <= BlockCapacity
                    && (codepoints == [] ==> |currentlyDecoding| == |old(currentlyDecoding)| + |raw|))
    {
      hide FeedAll, Feed, Step, Midway;
      assert decoded + CharsOf(codepoints) == decoded;
      ghost var p := Now();
      FeedNothing(p, raw[..0]);
      for i := 0 to |raw|
        invariant |codepoints| <= i && Midway(Now())
        invariant FeedAll(p, raw[..i]) == Some(Now())
        invariant codepoints == [] ==> |currentlyDecoding| == |p.pending| + i
      {
        FeedNext(p, raw, i);
        ok := DecodeByte(raw[i]);
        if !ok {
          StaysNone(p, raw, i + 1);
          return false;
        }
      }
      assert raw[..|raw|] == raw;
      return true;
    }

    /** One turn of the slow path. */
    method DecodeByte(b: Byte) returns (ok: bool)
      requires Midway(Now())
      modifies this`codepoints, this`currentlyDecoding, decoder
      ensures var q := Feed(old(Now()), b);
              ok == q.Some? && (ok ==> Now() == q.value && Midway(Now()))
      ensures |old(codepoints)| <= |codepoints| <= |old(codepoints)| + 1
      ensures ok && codepoints == [] ==> |currentlyDecoding| == |old(currentlyDecoding)| + 1
    {
      hide Step;
      ghost var q := Now();
      decoder.Put(b);
      if decoder.Error() { return false; }
      FeedMidway(q, b);
      assert |currentlyDecoding| < 4;
      currentlyDecoding := currentlyDecoding + [b];
      if decoder.HasCodePoint() {
        codepoints := codepoints + [CodePoint(decoder.codepoint, currentlyDecoding, Origin)];
        currentlyDecoding := [];
        assert q.chars + [Char(decoder.codepoint, q.pending + [b])] == decoded + CharsOf(codepoints);
      } else if |currentlyDecoding| == 4 {
        assert false; // no code point takes more than four bytes: the "overlong" error cannot occur
      }
      return true;
    }

    static lemma StaysNone(p: Progress, bs: seq<Byte>, i: nat)
      requires i <= |bs| && FeedAll(p, bs[..i]) == None
      ensures FeedAll(p, bs) == None
    {
      assert bs == bs[..i] + bs[i..];
      FeedAppend(p, bs[..i], bs[i..]);
    }

    /** What is in a slot: all slots are cleared before a block is decoded. */
    function Held(k: nat): nat
      reads this`codepoints
    {
      if k < |codepoints| then codepoints[k].value else 0
    }

    lemma AllDecoded()
      requires Valid() && !err && Text(source).Some?
      ensures var t, all := Text(source).value, FeedAll(Begin, source[Start()..]);
              && all.Some? && t == Locate(all.value.chars, Origin) && Lengths(CharsOf(t)) == Lengths(all.value.chars)
              && |decoded| <= |t| && Locate(decoded, Origin) == t[..|decoded|]
              && |delivered| + |codepoints| - current == |decoded|
              && FeedAll(Begin, source[Start()..position]).Some?
              && FeedAll(Begin, source[Start()..position]).value.chars == decoded
    {
      hide FeedAll, Feed, Step, Midway, Decode, Transitions, Classes, Loaded, Lengths, Text, Locate, After;
      StartIs();
      Slices(source, position, 0);
      assert Consumed() + source[position..position + 0] == Consumed();
      DecodedIsPrefix(source, Consumed());
      TextIsDecoded(source);
      LocateLengths(FeedAll(Begin, Body(source)).value.chars, Origin);
    }

    /** The slot `k` shows what the layout of the blocks says about the code point at `i`. */
    ghost predicate Shows(k: nat, i: nat)
      requires Text(source).Some?
      reads this`codepoints
    {
      i < |Text(source).value| && Held(k) == ShownAt(Text(source).value, i)
    }

    /** A code point keeps its slot while its block is being read, and at the end of the text. */
    lemma StillHeld()
      requires Valid() && !err && Text(source).Some? && 0 < current && (current < |codepoints| || Eof())
      ensures |delivered| > 0 && Shows(current - 1, |delivered| - 1)
    {
      hide FeedAll, Feed, Step, Midway, Decode, Text, Locate, After, Transitions, Classes, InStep, SlotOf, BlockOf, Lengths;
      AllDecoded();
      var body, k := source[Start()..], current - 1;
      var from := block * BlockCapacity;
      assert source[Start()..Start() + from] == body[..from] && source[Start()..position] == body[..position - Start()];
      BlocksWithin(body, from, block);
      BlocksWithin(body, position - Start(), block + 1);
      HeldSlot(Lengths(CharsOf(Text(source).value)), block + 1, |decoded| - |codepoints|, |decoded|, |delivered| - 1);
    }

    /** Once the next block is there, a slot shows what that block has put into it. */
    lemma NextHeld(from: nat, a: nat)
      requires Valid() && !err && Text(source).Some? && codepoints != [] && current == 0
      requires from == Start() + (block - 1) * BlockCapacity && 0 < block && FeedAll(Begin, source[Start()..from]).Some?
      requires a == |FeedAll(Begin, source[Start()..from]).value.chars| < |delivered|
      ensures Shows(|delivered| - 1 - a, |delivered| - 1)
    {
      hide FeedAll, Feed, Step, Midway, Decode, Text, Locate, After, Transitions, Classes, InStep, SlotOf, BlockOf, Lengths;
      AllDecoded();
      var body, n := source[Start()..], block * BlockCapacity;
      assert source[Start()..Start() + n] == body[..n] && source[Start()..position] == body[..position - Start()];
      assert source[Start()..from] == body[..from - Start()];
      TwoBlocks(body, block - 1, from - Start(), n, position - Start(), |delivered| - 1);
    }

    lemma LoadedParts()
      requires Valid() && !err && !Eof() && codepoints != [] && current == |codepoints|
      ensures var from := Start() + block * BlockCapacity;
              && from <= |source| && position == from + BlockCapacity
              && FeedAll(Begin, source[Start()..from]).Some?
              && |FeedAll(Begin, source[Start()..from]).value.chars| + |codepoints| == |delivered|
    {
      hide FeedAll, Feed, Step, Midway, Decode, Text, Locate, After, Transitions, Classes, InStep;
    }

    /**
      `read_next`. The code points handed out are those of the text, in order; the end is reported
      when all of them have been, and an error exactly when the text is not UTF-8. The slot of the
      code point before, which the parser may still point to, shows what `ShownAt` says.
    */
    method ReadNext() returns (cp: Option<CodePoint>)
      requires Valid()
      modifies this, decoder
      ensures Valid()
      ensures cp.Some? ==> !err && delivered == old(delivered) + [cp.value]
      ensures cp.None? ==> delivered == old(delivered) && Text(source) == if err then None else Some(delivered)
      ensures !old(err) && old(current) > 0 && Text(source).Some? ==>
                |old(delivered)| > 0 && Shows(old(current) - 1, |old(delivered)| - 1)
    {
      hide FeedAll, Feed, Step, Midway, Decode, Text, Locate, After, Transitions, Classes, Loaded, InStep, Shows;
      if err { return None; }
      if Text(source).Some? && current > 0 && (current < |codepoints| || Eof()) { StillHeld(); }
      if current == |codepoints| {
        if Eof() {
          AtEnd();
          return None;
        }
        var ok := ReadNextBlock();
        if !ok { return None; }
      }
      cp := Some(codepoints[current]);
      if Text(source).Some? {
        InStepSome();
        InStepParts(FeedAll(Begin, Consumed()).value);
        DecodedIsPrefix(source, Consumed());
      }
      assert codepoints[current..] == [cp.value] + codepoints[current + 1..];
      current := current + 1;
      delivered := delivered + [cp.value];
    }

    lemma AtEnd()
      requires Valid() && !err && Eof() && current == |codepoints|
      ensures Text(source) == Some(delivered)
    {
      hide FeedAll, Feed, Step, Midway, Decode, Text, Locate, After, Transitions, Classes;
      StartIs();
      Slices(source, position, 0);
      assert Consumed() == Body(source);
      EndOfText(source);
      assert codepoints[current..] == [] && delivered + [] == delivered;
    }
  }
}
