/**
  How the code points of a text lie in the blocks of 32 bytes that it is read in. A code point is in
  the block that holds its last byte; only one block is kept, each code point in a slot of its own.
*/
module Blocks {
  import opened Wrappers

  const BlockCapacity := 32

  /** How many bytes code points take together. */
  function Total(lens: seq<nat>): nat {
    if lens == [] then 0 else Total(lens[..|lens| - 1]) + lens[|lens| - 1]
  }

  /** How many bytes the text has up to the end of the `i`-th code point. */
  function EndOf(lens: seq<nat>, i: nat): nat
    requires i < |lens|
  {
    Total(lens[..i + 1])
  }

  /** The number of the block that the last byte of the `i`-th code point is in, from 1. */
  function BlockOf(lens: seq<nat>, i: nat): nat
    requires i < |lens|
  {
    (EndOf(lens, i) + BlockCapacity - 1) / BlockCapacity
  }

  predicate SameBlock(lens: seq<nat>, i: nat, j: nat) {
    i < |lens| && j < |lens| && BlockOf(lens, i) == BlockOf(lens, j)
  }

  /** The first code point of a block. */
  function FirstOf(lens: seq<nat>, i: nat): (f: nat)
    requires i < |lens|
    ensures f <= i && SameBlock(lens, f, i) && (f > 0 ==> !SameBlock(lens, f - 1, i))
  {
    if i > 0 && SameBlock(lens, i - 1, i) then FirstOf(lens, i - 1) else i
  }

  /**
    What the slot of the `i`-th code point holds once the code point behind it has been read: still
    the same, unless that one has brought in the next block; then what is in the slot there, if anything.
  */
  function SlotOf(lens: seq<nat>, i: nat): (r: Option<nat>)
    requires i < |lens|
    ensures r.Some? ==> r.value < |lens|
  {
    if i + 1 == |lens| || SameBlock(lens, i, i + 1) then Some(i) else
      var j := i + 1 + (i - FirstOf(lens, i));
      if SameBlock(lens, i + 1, j) then Some(j) else None
  }

  lemma {:induction false} TotalAppend(a: seq<nat>, b: seq<nat>)
    ensures Total(a + b) == Total(a) + Total(b)
  {
    if b == [] {
      assert a + b == a;
    } else {
      assert (a + b)[..|a + b| - 1] == a + b[..|b| - 1];
      TotalAppend(a, b[..|b| - 1]);
    }
  }

  lemma TotalGrows(lens: seq<nat>, i: nat, j: nat)
    requires i <= j <= |lens|
    ensures Total(lens[..i]) <= Total(lens[..j])
  {
    assert lens[..j] == lens[..i] + lens[i..j];
    TotalAppend(lens[..i], lens[i..j]);
  }

  /** The code points of a block are those that end within its bytes. */
  lemma InBlock(lens: seq<nat>, i: nat, m: nat)
    requires i < |lens|
    ensures BlockOf(lens, i) <= m <==> EndOf(lens, i) <= m * BlockCapacity
  {
    Ceiling(EndOf(lens, i), m);
  }

  lemma Ceiling(n: nat, m: nat)
    ensures (n + 31) / 32 <= m <==> n <= m * 32
  {}

  /** Slots, from where two blocks begin and end. */
  lemma SlotBetween(lens: seq<nat>, m: nat, a: nat, b: nat, c: nat, i: nat)
    requires a <= i < b <= c <= |lens|
    requires forall q | 0 <= q < a :: BlockOf(lens, q) < m
    requires forall q | a <= q < b :: BlockOf(lens, q) == m
    requires forall q | b <= q < c :: BlockOf(lens, q) == m + 1
    requires forall q | c <= q < |lens| :: BlockOf(lens, q) > m + 1
    requires b < |lens| ==> b < c
    ensures SlotOf(lens, i) == if i + 1 < b || b == |lens| then Some(i) else if b + (i - a) < c then Some(b + (i - a)) else None
  {
    assert FirstOf(lens, i) == a;
  }
}
