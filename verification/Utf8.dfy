/**
  UTF-8 in `toml.hpp`: the table-driven decoder, the grammar of section 4 of RFC 3629, and the
  bytes the parser emits for a `\u` or `\U` escape.
*/
module Utf8 {
  import opened Wrappers

  type Byte = b: int | 0 <= b < 256

  // ---------------------------------------------------------------- the decoder

  function Run(n: nat, v: nat): (r: seq<nat>)
    ensures |r| == n && forall i | 0 <= i < n :: r[i] == v
  {
    seq(n, _ => v)
  }

  /** The first 256 entries of `state_table`: the class of every byte. */
  function Classes(): (r: seq<nat>)
    ensures |r| == 256
  {
    Run(128, 0) + Run(16, 1) + Run(16, 9) + Run(32, 7) + [8, 8] + Run(30, 2)
    + [10] + Run(12, 3) + [4] + Run(2, 3) + [11] + Run(3, 6) + [5] + Run(11, 8)
  }

  /** The other 108 entries: a row of 12 classes for every state 0, 12, ..., 96. */
  function Row(state: nat): (r: seq<nat>)
    ensures |r| == 12
  {
    match state
    case 0 => [0, 12, 24, 36, 60, 96, 84, 12, 12, 12, 48, 72]
    case 12 => [12, 12, 12, 12, 12, 12, 12, 12, 12, 12, 12, 12]
    case 24 => [12, 0, 12, 12, 12, 12, 12, 0, 12, 0, 12, 12]
    case 36 => [12, 24, 12, 12, 12, 12, 12, 24, 12, 24, 12, 12]
    case 48 => [12, 12, 12, 12, 12, 12, 12, 24, 12, 12, 12, 12]
    case 60 => [12, 24, 12, 12, 12, 12, 12, 12, 12, 24, 12, 12]
    case 72 => [12, 12, 12, 12, 12, 12, 12, 36, 12, 36, 12, 12]
    case 84 => [12, 36, 12, 12, 12, 12, 12, 36, 12, 36, 12, 12]
    case _ => [12, 36, 12, 12, 12, 12, 12, 12, 12, 12, 12, 12]
  }

  function Transitions(): (r: seq<nat>)
    ensures |r| == 108
  {
    Row(0) + Row(12) + Row(24) + Row(36) + Row(48) + Row(60) + Row(72) + Row(84) + Row(96)
  }

  const Accept := 0
  const Reject := 12

  datatype Decoder = Decoder(state: nat, codepoint: nat)

  const Fresh := Decoder(Accept, 0)

  predicate ValidState(state: nat) {
    state % 12 == 0 && state <= 96
  }

  /** `0xFF >> c`, as the power of two whose remainder the mask takes. */
  function MaskSize(c: nat): nat {
    match c
    case 0 => 256 case 1 => 128 case 2 => 64 case 3 => 32 case 4 => 16
    case 5 => 8 case 6 => 4 case 7 => 2 case _ => 1
  }

  /** `operator()`: masks of low bits are remainders, a shift by six is a factor of 64. */
  function Step(d: Decoder, byte: Byte): Decoder {
    if !ValidState(d.state) then Decoder(Reject, 0) else
      var c := Classes()[byte];
      assert c < 12;
      var codepoint := if d.state == Accept then byte % MaskSize(c) else byte % 64 + d.codepoint * 64 % 0x1_0000_0000;
      Decoder(Transitions()[d.state + c], codepoint)
  }

  // ---------------------------------------------------------------- RFC 3629, section 4

  predicate Tail(b: Byte) {
    0x80 <= b <= 0xBF
  }

  /** The length of the UTF8-char that `bs` begins with, if it begins with one. */
  function CharLength(bs: seq<Byte>): (r: Option<nat>)
    ensures r.Some? ==> 1 <= r.value <= 4 && r.value <= |bs|
  {
    if |bs| >= 1 && bs[0] <= 0x7F then Some(1)
    else if |bs| >= 2 && 0xC2 <= bs[0] <= 0xDF && Tail(bs[1]) then Some(2)
    else if |bs| >= 3 && Tail(bs[2]) && ThreeByteLead(bs[0], bs[1]) then Some(3)
    else if |bs| >= 4 && Tail(bs[2]) && Tail(bs[3]) && FourByteLead(bs[0], bs[1]) then Some(4)
    else None
  }

  predicate ThreeByteLead(a: Byte, b: Byte) {
    || (a == 0xE0 && 0xA0 <= b <= 0xBF)
    || (0xE1 <= a <= 0xEC && Tail(b))
    || (a == 0xED && 0x80 <= b <= 0x9F)
    || (0xEE <= a <= 0xEF && Tail(b))
  }

  predicate FourByteLead(a: Byte, b: Byte) {
    || (a == 0xF0 && 0x90 <= b <= 0xBF)
    || (0xF1 <= a <= 0xF3 && Tail(b))
    || (a == 0xF4 && 0x80 <= b <= 0x8F)
  }

  /** The scalar value of a UTF8-char, from the table in section 3. */
  function ScalarOf(bs: seq<Byte>): nat
    requires CharLength(bs) == Some(|bs|)
  {
    var a: int := bs[0];
    if |bs| == 1 then a else
    var b: int := bs[1] - 0x80;
    if |bs| == 2 then (a - 0xC0) * 64 + b else
    var c: int := bs[2] - 0x80;
    if |bs| == 3 then ((a - 0xE0) * 64 + b) * 64 + c else
    var d: int := bs[3] - 0x80;
    (((a - 0xF0) * 64 + b) * 64 + c) * 64 + d
  }

  predicate IsScalar(v: nat) {
    v <= 0x10FFFF && !(0xD800 <= v <= 0xDFFF)
  }

  /** UTF8-octets: the scalar values of a whole string, if it is one. */
  function Decode(bs: seq<Byte>): (r: Option<seq<nat>>)
    decreases |bs|
  {
    if bs == [] then Some([]) else
      var n := CharLength(bs);
      if n.None? then None else
        CharLengthPrefix(bs);
        var rest := Decode(bs[n.value..]);
        if rest.None? then None else Some([ScalarOf(bs[..n.value])] + rest.value)
  }

  lemma CharLengthPrefix(bs: seq<Byte>)
    ensures CharLength(bs).Some? ==> CharLength(bs[..CharLength(bs).value]) == CharLength(bs)
  {}

  // ---------------------------------------------------------------- encoding

  /** What the parser appends for an escaped scalar value. */
  function EncodeScalar(v: nat): (bs: seq<Byte>)
    requires v <= 0x10FFFF
  {
    if v < 0x80 then [v]
    else if v < 0x800 then [v / 64 + 0xC0, v % 64 + 0x80]
    else if v < 0x1_0000 then [v / 4096 + 0xE0, v / 64 % 64 + 0x80, v % 64 + 0x80]
    else [v / 0x4_0000 + 0xF0, v / 4096 % 64 + 0x80, v / 64 % 64 + 0x80, v % 64 + 0x80]
  }

  ghost predicate Scalars(cps: seq<nat>) {
    forall v | v in cps :: IsScalar(v)
  }

  function Encode(cps: seq<nat>): seq<Byte>
    requires Scalars(cps)
  {
    if cps == [] then [] else
      assert cps[0] in cps;
      EncodeScalar(cps[0]) + Encode(cps[1..])
  }

  lemma Div64(a: nat, b: nat)
    requires b < 64
    ensures (a * 64 + b) / 64 == a && (a * 64 + b) % 64 == b
  {}

  lemma Digits64(v: nat)
    ensures v == v / 64 * 64 + v % 64
    ensures v / 4096 == v / 64 / 64 && v / 0x4_0000 == v / 64 / 64 / 64
  {}

  lemma EncodedChar(v: nat)
    requires IsScalar(v)
    ensures var bs := EncodeScalar(v); CharLength(bs) == Some(|bs|) && ScalarOf(bs) == v
  {
    if v < 0x800 {
      Digits64(v);
    } else if v < 0x1_0000 {
      ThreeBytes(v);
    } else {
      FourBytes(v);
    }
  }

  lemma ThreeBytes(v: nat)
    requires IsScalar(v) && 0x800 <= v < 0x1_0000
    ensures var bs := EncodeScalar(v); CharLength(bs) == Some(|bs|) && ScalarOf(bs) == v
  {
    Digits64(v);
    Digits64(v / 64);
  }

  lemma FourBytes(v: nat)
    requires IsScalar(v) && 0x1_0000 <= v
    ensures var bs := EncodeScalar(v); CharLength(bs) == Some(|bs|) && ScalarOf(bs) == v
  {
    Digits64(v);
    Digits64(v / 64);
    Digits64(v / 64 / 64);
  }

  lemma DecodedChar(bs: seq<Byte>)
    requires CharLength(bs) == Some(|bs|)
    ensures IsScalar(ScalarOf(bs)) && EncodeScalar(ScalarOf(bs)) == bs
  {
    if |bs| == 2 {
      Div64(bs[0] - 0xC0, bs[1] - 0x80);
    } else if |bs| == 3 {
      DecodedThree(bs);
    } else if |bs| == 4 {
      DecodedFour(bs);
    }
  }

  lemma DecodedThree(bs: seq<Byte>)
    requires CharLength(bs) == Some(3) && |bs| == 3
    ensures IsScalar(ScalarOf(bs)) && EncodeScalar(ScalarOf(bs)) == bs
  {
    ThreeDigits(bs[0] - 0xE0, bs[1] - 0x80, bs[2] - 0x80);
  }

  lemma DecodedFour(bs: seq<Byte>)
    requires CharLength(bs) == Some(4) && |bs| == 4
    ensures IsScalar(ScalarOf(bs)) && EncodeScalar(ScalarOf(bs)) == bs
  {
    FourDigits(bs[0] - 0xF0, bs[1] - 0x80, bs[2] - 0x80, bs[3] - 0x80);
  }

  lemma ThreeDigits(a: nat, b: nat, c: nat)
    requires b < 64 && c < 64
    ensures var v := (a * 64 + b) * 64 + c; v / 4096 == a && v / 64 == a * 64 + b && v / 64 % 64 == b && v % 64 == c
  {
    Digits64((a * 64 + b) * 64 + c);
    Div64(a * 64 + b, c);
    Div64(a, b);
  }

  lemma FourDigits(a: nat, b: nat, c: nat, d: nat)
    requires b < 64 && c < 64 && d < 64
    ensures var v := ((a * 64 + b) * 64 + c) * 64 + d;
            v / 0x4_0000 == a && v / 4096 % 64 == b && v / 64 % 64 == c && v % 64 == d
  {
    Digits64(((a * 64 + b) * 64 + c) * 64 + d);
    Div64((a * 64 + b) * 64 + c, d);
    ThreeDigits(a, b, c);
    Digits64((a * 64 + b) * 64 + c);
  }

  lemma CharLengthAppend(bs: seq<Byte>, rest: seq<Byte>)
    requires CharLength(bs) == Some(|bs|)
    ensures CharLength(bs + rest) == Some(|bs|)
  {}

  lemma DecodeCons(bs: seq<Byte>, rest: seq<Byte>)
    requires CharLength(bs) == Some(|bs|)
    ensures Decode(bs + rest) == if Decode(rest).None? then None else Some([ScalarOf(bs)] + Decode(rest).value)
  {
    CharLengthAppend(bs, rest);
    assert (bs + rest)[..|bs|] == bs && (bs + rest)[|bs|..] == rest;
  }

  /** Decoding what the parser emits for any sequence of scalars gives the sequence back. */
  lemma {:induction false} DecodeEncode(cps: seq<nat>)
    requires Scalars(cps)
    ensures Decode(Encode(cps)) == Some(cps)
  {
    hide CharLength, ScalarOf, EncodeScalar, IsScalar;
    if cps != [] {
      assert cps[0] in cps;
      EncodedCharOf(cps[0]);
      DecodeCons(EncodeScalar(cps[0]), Encode(cps[1..]));
      DecodeEncode(cps[1..]);
      assert [cps[0]] + cps[1..] == cps;
    }
  }

  lemma EncodedCharOf(v: nat)
    requires IsScalar(v)
    ensures v <= 0x10FFFF
    ensures CharLength(EncodeScalar(v)) == Some(|EncodeScalar(v)|) && ScalarOf(EncodeScalar(v)) == v
  {
    EncodedChar(v);
  }

  /** Every well-formed string is the encoding of the scalar values it decodes to. */
  lemma {:induction false} EncodeDecode(bs: seq<Byte>)
    requires Decode(bs).Some?
    ensures Scalars(Decode(bs).value) && Encode(Decode(bs).value) == bs
    decreases |bs|
  {
    hide CharLength, ScalarOf, EncodeScalar, IsScalar;
    if bs != [] {
      var n := CharLength(bs).value;
      CharLengthPrefix(bs);
      DecodedChar(bs[..n]);
      EncodeDecode(bs[n..]);
      var v, cps := ScalarOf(bs[..n]), Decode(bs[n..]).value;
      assert Decode(bs).value == [v] + cps && ([v] + cps)[1..] == cps;
      assert bs == bs[..n] + bs[n..];
    }
  }

  // ---------------------------------------------------------------- the decoder accepts exactly the grammar

  lemma ClassOf(b: Byte)
    ensures Classes()[b] ==
            if b < 0x80 then 0 else if b < 0x90 then 1 else if b < 0xA0 then 9 else if b < 0xC0 then 7
            else if b < 0xC2 then 8 else if b < 0xE0 then 2 else if b == 0xE0 then 10
            else if b == 0xED then 4 else if b < 0xF0 then 3 else if b == 0xF0 then 11
            else if b < 0xF4 then 6 else if b == 0xF4 then 5 else 8
  {}

  /** The decoder's next state, by ranges of bytes instead of classes. */
  function Next(state: nat, b: Byte): nat {
    if state == Accept then
      if b < 0x80 then Accept
      else if 0xC2 <= b <= 0xDF then 24
      else if b == 0xE0 then 48
      else if b == 0xED then 60
      else if 0xE1 <= b <= 0xEF then 36
      else if b == 0xF0 then 72
      else if 0xF1 <= b <= 0xF3 then 84
      else if b == 0xF4 then 96
      else Reject
    else if !Tail(b) then Reject
    else if state == 24 then Accept
    else if state == 36 then 24
    else if state == 48 then (if b >= 0xA0 then 24 else Reject)
    else if state == 60 then (if b <= 0x9F then 24 else Reject)
    else if state == 72 then (if b >= 0x90 then 36 else Reject)
    else if state == 84 then 36
    else if state == 96 then (if b <= 0x8F then 36 else Reject)
    else Reject
  }

  lemma TableState(d: Decoder, b: Byte)
    requires ValidState(d.state)
    ensures Step(d, b).state == Next(d.state, b)
  {
    ClassOf(b);
    var c := Classes()[b];
    RowOf(d.state, c);
    RowByClass(d.state, c);
    hide Classes, Transitions, Row, Run;
  }

  /** A row of the table, by cases. */
  function ByClass(state: nat, c: nat): nat {
    var tail := c == 1 || c == 7 || c == 9;
    match state
    case 0 => (match c case 0 => 0 case 2 => 24 case 3 => 36 case 4 => 60 case 5 => 96 case 6 => 84
               case 10 => 48 case 11 => 72 case _ => 12)
    case 24 => if tail then 0 else 12
    case 36 => if tail then 24 else 12
    case 48 => if c == 7 then 24 else 12
    case 60 => if c == 1 || c == 9 then 24 else 12
    case 72 => if c == 7 || c == 9 then 36 else 12
    case 84 => if tail then 36 else 12
    case 96 => if c == 1 then 36 else 12
    case _ => 12
  }

  lemma RowByClass(state: nat, c: nat)
    requires c < 12 && ValidState(state)
    ensures Row(state)[c] == ByClass(state, c)
  {
    assert state in {0, 12, 24, 36, 48, 60, 72, 84, 96};
  }

  lemma RowOf(state: nat, c: nat)
    requires c < 12 && ValidState(state)
    ensures Transitions()[state + c] == Row(state)[c]
  {
    hide Row;
    assert state in {0, 12, 24, 36, 48, 60, 72, 84, 96};
  }

  lemma LeadBits(b: Byte, c: nat)
    requires Next(Accept, b) != Reject
    requires c == if b < 0x80 then 0 else if b < 0xE0 then 2 else if b == 0xE0 then 10
             else if b == 0xED then 4 else if b < 0xF0 then 3 else if b == 0xF0 then 11 else if b < 0xF4 then 6 else 5
    ensures b % MaskSize(c) == if b < 0x80 then b else if b < 0xE0 then b - 0xC0 else if b < 0xF0 then b - 0xE0 else b - 0xF0
  {}

  lemma TailBits(b: Byte, cp: nat)
    requires Tail(b) && cp < 0x4_0000
    ensures b % 64 + cp * 64 % 0x1_0000_0000 == cp * 64 + (b - 0x80)
  {
    assert b % 64 == b - 0x80;
    assert cp * 64 < 0x1_0000_0000;
  }

  lemma StepCodepoint(d: Decoder, b: Byte)
    requires ValidState(d.state)
    ensures Step(d, b).codepoint ==
            if d.state == Accept then b % MaskSize(Classes()[b]) else b % 64 + d.codepoint * 64 % 0x1_0000_0000
  {}

  lemma StepLead(d: Decoder, b: Byte)
    requires d.state == Accept && Next(Accept, b) != Reject
    ensures Step(d, b) == Decoder(Next(Accept, b), if b < 0x80 then b else if b < 0xE0 then b - 0xC0 else if b < 0xF0 then b - 0xE0 else b - 0xF0)
  {
    hide Step, Transitions, MaskSize;
    TableState(d, b);
    StepCodepoint(d, b);
    ClassOf(b);
    hide Classes;
    LeadBits(b, Classes()[b]);
  }

  lemma StepTail(d: Decoder, b: Byte)
    requires ValidState(d.state) && d.state != Accept && Tail(b) && d.codepoint < 0x4_0000
    ensures Step(d, b) == Decoder(Next(d.state, b), d.codepoint * 64 + (b - 0x80))
  {
    hide Step, Transitions, Next;
    TableState(d, b);
    StepCodepoint(d, b);
    TailBits(b, d.codepoint);
  }

  // ---------------------------------------------------------------- decoding a stream of bytes

  /** A decoded code point with the bytes it came from. */
  datatype Char = Char(value: nat, bytes: seq<Byte>)

  /** The decoder on its way through a string: the bytes of the unfinished code point, and what is done. */
  datatype Progress = Progress(d: Decoder, pending: seq<Byte>, chars: seq<Char>)

  const Begin := Progress(Fresh, [], [])

  /** One byte; `None` where the decoder is in error. */
  function Feed(p: Progress, b: Byte): Option<Progress> {
    var d := Step(p.d, b);
    if d.state == Reject then None
    else if d.state == Accept then Some(Progress(d, [], p.chars + [Char(d.codepoint, p.pending + [b])]))
    else Some(Progress(d, p.pending + [b], p.chars))
  }

  /** How many of the bytes of a code point are still missing in a state. */
  function Missing(state: nat): nat {
    if state == Accept then 0 else if state == 24 then 1 else if state in {36, 48, 60} then 2 else 3
  }

  /** What the decoder can be in the middle of. */
  ghost predicate Midway(p: Progress) {
    && ValidState(p.d.state) && p.d.state != Reject
    && (p.d.state == Accept <==> p.pending == [])
    && |p.pending| + Missing(p.d.state) <= 4
    && (p.pending != [] ==> p.d.codepoint < if |p.pending| == 1 then 0x40 else if |p.pending| == 2 then 0x1000 else 0x4_0000)
  }

  lemma FeedMidway(p: Progress, b: Byte)
    requires Midway(p) && Feed(p, b).Some?
    ensures Midway(Feed(p, b).value)
  {
    hide Step, MaskSize;
    TableState(p.d, b);
    if p.d.state == Accept { StepLead(p.d, b); } else { StepTail(p.d, b); }
  }

  function FeedAll(p: Progress, bs: seq<Byte>): Option<Progress>
    decreases |bs|
  {
    if bs == [] then Some(p) else
      var q := Feed(p, bs[0]);
      if q.None? then None else FeedAll(q.value, bs[1..])
  }

  lemma {:induction false} FeedAllMidway(p: Progress, bs: seq<Byte>)
    requires Midway(p) && FeedAll(p, bs).Some?
    ensures Midway(FeedAll(p, bs).value)
    decreases |bs|
  {
    hide Midway, Feed;
    if bs != [] {
      FeedMidway(p, bs[0]);
      FeedAllMidway(Feed(p, bs[0]).value, bs[1..]);
    }
  }

  /** The code points of a well-formed string, each with its bytes. */
  function Chars(cps: seq<nat>): seq<Char>
    requires Scalars(cps)
  {
    if cps == [] then [] else
      assert cps[0] in cps;
      [Char(cps[0], EncodeScalar(cps[0]))] + Chars(cps[1..])
  }

  lemma {:induction false} FeedAppend(p: Progress, a: seq<Byte>, b: seq<Byte>)
    ensures FeedAll(p, a + b) == var q := FeedAll(p, a); if q.None? then None else FeedAll(q.value, b)
    decreases |a|
  {
    hide Feed;
    if a == [] {
      assert a + b == b;
    } else {
      assert (a + b)[0] == a[0] && (a + b)[1..] == a[1..] + b;
      var q := Feed(p, a[0]);
      if q.Some? { FeedAppend(q.value, a[1..], b); }
    }
  }

  /** The first byte of a code point. */
  lemma FeedLead(p: Progress, b: Byte)
    requires Midway(p) && p.d.state == Accept
    ensures Feed(p, b) ==
            if Next(Accept, b) == Reject then None
            else if b < 0x80 then Some(Progress(Decoder(Accept, b), [], p.chars + [Char(b, [b])]))
            else Some(Progress(Decoder(Next(Accept, b), if b < 0xE0 then b - 0xC0 else if b < 0xF0 then b - 0xE0 else b - 0xF0), [b], p.chars))
  {
    hide Step;
    TableState(p.d, b);
    if Next(Accept, b) != Reject { StepLead(p.d, b); }
    assert p.pending + [b] == [b];
  }

  /** A later byte of a code point. */
  lemma FeedTail(p: Progress, b: Byte)
    requires Midway(p) && p.d.state != Accept
    ensures Feed(p, b) ==
            var s, v, bs := Next(p.d.state, b), p.d.codepoint * 64 + (b - 0x80), p.pending + [b];
            if s == Reject then None
            else if s == Accept then Some(Progress(Decoder(s, v), [], p.chars + [Char(v, bs)]))
            else Some(Progress(Decoder(s, v), bs, p.chars))
  {
    hide Step;
    TableState(p.d, b);
    if Tail(b) { StepTail(p.d, b); }
  }

  lemma FeedSome(p: Progress, bs: seq<Byte>)
    requires Midway(p) && bs != []
    ensures Feed(p, bs[0]).None? ==> FeedAll(p, bs) == None
    ensures Feed(p, bs[0]).Some? ==> Midway(Feed(p, bs[0]).value) && FeedAll(p, bs) == FeedAll(Feed(p, bs[0]).value, bs[1..])
  {
    hide Feed, Midway;
    if Feed(p, bs[0]).Some? { FeedMidway(p, bs[0]); }
  }

  lemma FeedNothing(p: Progress, bs: seq<Byte>)
    requires bs == []
    ensures FeedAll(p, bs) == Some(p)
  {}

  /** Where no code point begins, the decoder errs or is left in the middle of one. */
  lemma FeedBad(p: Progress, bs: seq<Byte>)
    requires Midway(p) && p.d.state == Accept && bs != [] && CharLength(bs) == None
    ensures FeedAll(p, bs).Some? ==> FeedAll(p, bs).value.pending != []
  {
    hide FeedAll, Feed, Step;
    FeedLead(p, bs[0]);
    FeedSome(p, bs);
    var q := Feed(p, bs[0]);
    if q.Some? {
      if |bs| == 1 { FeedNothing(q.value, bs[1..]); } else { FeedBad2(q.value, bs); }
    }
  }

  lemma FeedBad2(p: Progress, bs: seq<Byte>)
    requires |bs| >= 2 && CharLength(bs) == None
    requires Midway(p) && p.d.state == Next(Accept, bs[0]) && p.d.state != Accept && |p.pending| == 1
    ensures FeedAll(p, bs[1..]).Some? ==> FeedAll(p, bs[1..]).value.pending != []
  {
    hide FeedAll, Feed, Step, Midway;
    FeedTail(p, bs[1]);
    FeedSome(p, bs[1..]);
    var q := Feed(p, bs[1]);
    if q.Some? {
      assert bs[1..][1..] == bs[2..];
      if |bs| == 2 { FeedNothing(q.value, bs[2..]); } else { FeedBad3(q.value, bs); }
    }
  }

  lemma FeedBad3(p: Progress, bs: seq<Byte>)
    requires |bs| >= 3 && CharLength(bs) == None
    requires Midway(p) && p.d.state == Next(Next(Accept, bs[0]), bs[1]) && |p.pending| == 2
    requires Next(Accept, bs[0]) != Accept && p.d.state != Accept
    ensures FeedAll(p, bs[2..]).Some? ==> FeedAll(p, bs[2..]).value.pending != []
  {
    hide FeedAll, Feed, Step, Midway;
    FeedTail(p, bs[2]);
    FeedSome(p, bs[2..]);
    var q := Feed(p, bs[2]);
    if q.Some? {
      assert bs[2..][1..] == bs[3..];
      if |bs| == 3 { FeedNothing(q.value, bs[3..]); } else {
        FeedTail(q.value, bs[3]);
        FeedSome(q.value, bs[3..]);
      }
    }
  }

  /** The bytes of one code point take the decoder from one boundary to the next, with its scalar value. */
  lemma FeedChar(p: Progress, bs: seq<Byte>)
    requires Midway(p) && p.d.state == Accept && CharLength(bs) == Some(|bs|)
    ensures FeedAll(p, bs) == Some(Progress(Decoder(Accept, ScalarOf(bs)), [], p.chars + [Char(ScalarOf(bs), bs)]))
  {
    hide FeedAll, Feed, Step, Midway;
    FeedLead(p, bs[0]);
    FeedSome(p, bs);
    var p1 := Feed(p, bs[0]).value;
    assert bs[..1] == [bs[0]];
    if |bs| == 1 { FeedNothing(p1, bs[1..]); assert bs == [bs[0]]; } else {
      FeedTail(p1, bs[1]);
      FeedSome(p1, bs[1..]);
      var p2 := Feed(p1, bs[1]).value;
      assert bs[1..][1..] == bs[2..] && bs[..2] == [bs[0]] + [bs[1]];
      if |bs| == 2 { FeedNothing(p2, bs[2..]); assert bs[..2] == bs; } else { FeedChar3(p, bs, p2); }
    }
  }

  /** The bits of the first two bytes of a code point of three or four bytes. */
  function LeadValue(a: int, b: int): int {
    (if a < 0xF0 then a - 0xE0 else a - 0xF0) * 64 + (b - 0x80)
  }

  lemma FeedChar3(p: Progress, bs: seq<Byte>, p2: Progress)
    requires CharLength(bs) == Some(|bs|) && |bs| >= 3 && Midway(p2) && LeadValue(bs[0], bs[1]) >= 0
    requires p2 == Progress(Decoder(Next(Next(Accept, bs[0]), bs[1]), LeadValue(bs[0], bs[1])), bs[..2], p.chars)
    ensures FeedAll(p2, bs[2..]) == Some(Progress(Decoder(Accept, ScalarOf(bs)), [], p.chars + [Char(ScalarOf(bs), bs)]))
  {
    hide FeedAll, Feed, Step, Midway;
    FeedTail(p2, bs[2]);
    FeedSome(p2, bs[2..]);
    var p3 := Feed(p2, bs[2]).value;
    assert bs[2..][1..] == bs[3..] && bs[..3] == bs[..2] + [bs[2]];
    if |bs| == 3 { FeedNothing(p3, bs[3..]); assert bs[..3] == bs; } else {
      FeedTail(p3, bs[3]);
      FeedSome(p3, bs[3..]);
      assert bs[..3] + [bs[3]] == bs;
      FeedNothing(Feed(p3, bs[3]).value, bs[3..][1..]);
    }
  }

  /**
    The decoder accepts exactly the UTF8-octets of RFC 3629, and yields their scalar values with
    the bytes of each.
  */
  lemma {:induction false} DecoderAccepts(p: Progress, bs: seq<Byte>)
    requires Midway(p) && p.d.state == Accept
    ensures var r := FeedAll(p, bs);
            && ((r.Some? && r.value.pending == []) <==> Decode(bs).Some?)
            && (Decode(bs).Some? ==> Scalars(Decode(bs).value) && r.value.chars == p.chars + Chars(Decode(bs).value))
    decreases |bs|
  {
    hide FeedAll, Feed, Step, Midway, CharLength, ScalarOf, IsScalar, EncodeScalar;
    if bs == [] {
      FeedNothing(p, bs);
      BoundaryPending(p);
    } else if CharLength(bs).None? {
      FeedBad(p, bs);
    } else {
      var n := CharLength(bs).value;
      CharLengthPrefix(bs);
      var a, b := bs[..n], bs[n..];
      assert bs == a + b;
      FeedChar(p, a);
      FeedAppend(p, a, b);
      var q := FeedAll(p, a).value;
      FeedAllMidway(p, a);
      DecoderAccepts(q, b);
      DecodedChar(a);
      if Decode(b).Some? {
        EncodeDecode(bs);
        var v, cps := ScalarOf(a), Decode(b).value;
        assert Decode(bs).value == [v] + cps && ([v] + cps)[1..] == cps;
        assert p.chars + [Char(v, a)] + Chars(cps) == p.chars + ([Char(v, a)] + Chars(cps));
      }
    }
  }

  lemma BoundaryPending(p: Progress)
    requires Midway(p) && p.d.state == Accept
    ensures p.pending == []
  {}
}
