/**
  The reader with a memory of `toml.hpp`: a ring of 127 code points behind the one the block reader
  has handed out last lets the parser step back.
*/
module BufferedReaders {
  import opened Wrappers
  import opened Utf8
  import opened Utf8Readers

  const HistorySize := 127

  /** The slots of the ring hold the end of the past, from index `first` on. */
  ghost predicate Holds(ring: seq<CodePoint>, past: seq<CodePoint>, first: nat)
    requires |ring| == HistorySize
  {
    forall i | first <= i < |past| :: ring[i % HistorySize] == past[i]
  }

  /** A new code point takes the slot after the last one; once the ring is full that is the oldest one's. */
  lemma PushHolds(ring: seq<CodePoint>, past: seq<CodePoint>, first: nat, cp: CodePoint)
    requires |ring| == HistorySize && first <= |past| && Holds(ring, past, first)
    requires |past| - first <= HistorySize
    ensures var first' := if |past| - first < HistorySize then first else first + 1;
            Holds(ring[|past| % HistorySize := cp], past + [cp], first')
  {
    var n := |past|;
    forall i | n - HistorySize < i < n ensures i % HistorySize != n % HistorySize { SlotsDiffer(i, n); }
  }

  lemma SlotsDiffer(i: int, n: int)
    requires i < n < i + HistorySize
    ensures i % HistorySize != n % HistorySize
  {}

  class BufferedReader {
    const reader: Utf8Reader
    const buffer: array<CodePoint>
    var count: nat
    var first: nat
    var head: Option<CodePoint>
    var negativeOffset: nat
    ghost var started: bool

    /** Everything the block reader has handed out: the part of the tape that is known. */
    ghost function Tape(): seq<CodePoint>
      reads reader
    {
      reader.delivered
    }

    /** What lies behind the head. */
    ghost function Past(): seq<CodePoint>
      reads this`head, reader
    {
      if head.Some? && Tape() != [] then Tape()[..|Tape()| - 1] else Tape()
    }

    /** The place on the tape of the code point the parser is looking at; -1 before the first read. */
    ghost function Cursor(): int
      reads this, reader
    {
      if !started then -1 else |Past()| - negativeOffset
    }

    /** The tape: code points in order, then nothing. */
    ghost function At(i: int): Option<CodePoint>
      reads reader
    {
      if 0 <= i < |Tape()| then Some(Tape()[i]) else None
    }

    ghost predicate Valid()
      reads this, buffer, reader, reader.decoder
    {
      && reader.Valid() && buffer.Length == HistorySize
      && (head.Some? ==> Tape() != [] && head.value == Tape()[|Tape()| - 1])
      && (!started ==> head == None && Tape() == [])
      && (started && head == None && !reader.err ==> Text(reader.source) == Some(Tape()))
      && (reader.err ==> started && head == None)
      && count == (if |Past()| < HistorySize then |Past()| else HistorySize)
      && first == |Past()| - count
      && negativeOffset <= count
      && Holds(buffer[..], Past(), first)
    }

    constructor (reader: Utf8Reader)
      requires reader.Valid() && reader.delivered == [] && !reader.err
      ensures Valid() && Cursor() == -1 && this.reader == reader
    {
      this.reader := reader;
      buffer := new CodePoint[HistorySize](_ => CodePoint(0, [], Origin));
      count, first, head, negativeOffset, started := 0, 0, None, 0, false;
    }

    /** The head joins the history, in the place of the oldest code point once the ring is full. */
    method PushHead()
      requires buffer.Length == HistorySize && head.Some? && Tape() != [] && head.value == Tape()[|Tape()| - 1]
      requires count == (if |Past()| < HistorySize then |Past()| else HistorySize)
      requires first == |Past()| - count && Holds(buffer[..], Past(), first)
      modifies this`count, this`first, buffer
      ensures count == (if |Tape()| < HistorySize then |Tape()| else HistorySize)
      ensures first == |Tape()| - count && Holds(buffer[..], Tape(), first)
    {
      hide Utf8Reader.Valid, Text, Holds;
      ghost var ring, past := buffer[..], Past();
      assert Tape() == past + [head.value];
      PushHolds(ring, past, first, head.value);
      if count < HistorySize {
        assert count == |past| % HistorySize;
        buffer[count] := head.value;
        count := count + 1;
      } else {
        assert (first + HistorySize) % HistorySize == |past| % HistorySize;
        buffer[(first + HistorySize) % HistorySize] := head.value;
        first := first + 1;
      }
      assert buffer[..] == ring[|past| % HistorySize := head.value];
    }

    /** What the parser is looking at: the head, or a slot of the ring behind it. */
    function Current(): (cp: Option<CodePoint>)
      requires buffer.Length == HistorySize && negativeOffset <= first + count
      reads this, buffer
    {
      if negativeOffset == 0 then head
      else Some(buffer[(first + count - negativeOffset) % HistorySize])
    }

    /** It is the element of the tape at the cursor, also where the ring has wrapped around. */
    lemma CurrentIsAt()
      requires Valid() && started
      ensures !reader.err ==> Current() == At(Cursor())
      ensures Text(reader.source).Some? ==> !reader.err && Current() == TextAt(Cursor())
    {
      hide Utf8Reader.Valid;
      EndIsText();
      if negativeOffset > 0 {
        var i := |Past()| - negativeOffset;
        assert buffer[..][i % HistorySize] == Past()[i];
      }
    }

    /** The code point of a well-formed text at a place, then nothing. */
    ghost function TextAt(i: int): Option<CodePoint>
      reads {}
    {
      var t := Text(reader.source);
      if t.Some? && 0 <= i < |t.value| then Some(t.value[i]) else None
    }

    /** The tape is a beginning of the text. */
    lemma EndIsText()
      requires reader.Valid()
      ensures Text(reader.source).Some? ==> !reader.err && Tape() <= Text(reader.source).value
    {}

    /**
      `read_next`: the element of the tape after the current one. At the end of the tape it stays
      there. For well-formed text the tape is the text. What is read again after a step back comes
      from the ring, which does not change meanwhile: pointers into it go on showing what was read.
    */
    method ReadNext() returns (cp: Option<CodePoint>)
      requires Valid()
      modifies this, buffer, reader, reader.decoder
      ensures Valid()
      ensures old(Tape()) <= Tape() && started
      ensures !reader.err ==>
                && cp == At(Cursor())
                && Cursor() == old(Cursor()) + (if old(Cursor()) >= 0 && old(Cursor()) == |Tape()| then 0 else 1)
      ensures Text(reader.source).Some? ==> !reader.err && cp == TextAt(Cursor())
      ensures old(negativeOffset) > 0 ==> buffer[..] == old(buffer[..]) && Tape() == old(Tape())
    {
      hide Utf8Reader.Valid, Text, Holds;
      if reader.err {
        EndIsText();
        return None;
      }
      if negativeOffset > 0 {
        negativeOffset := negativeOffset - 1;
      } else {
        ReadFresh();
      }
      CurrentIsAt();
      return Current();
    }

    /** The part of `read_next` that asks the block reader. */
    method ReadFresh()
      requires Valid() && !reader.err && negativeOffset == 0
      modifies this, buffer, reader, reader.decoder
      ensures Valid() && old(Tape()) <= Tape() && started
      ensures !reader.err ==> Cursor() == old(Cursor()) + (if old(Cursor()) >= 0 && old(Cursor()) == |Tape()| then 0 else 1)
    {
      hide Utf8Reader.Valid, Text, Holds;
      if count == 0 && head == None {
        head := reader.ReadNext();
        EndIsText();
        started := true;
      } else if head.Some? {
        ReadOn();
      }
    }

    /** Reading on behind a head, which joins the history. */
    method ReadOn()
      requires Valid() && !reader.err && negativeOffset == 0 && head.Some?
      modifies this, buffer, reader, reader.decoder
      ensures Valid() && old(Tape()) <= Tape() && started
      ensures !reader.err ==> old(Cursor()) == |old(Tape())| - 1 && Cursor() == |old(Tape())|
    {
      hide Utf8Reader.Valid, Text, Holds;
      PushHead();
      ghost var past := Tape();
      head := reader.ReadNext();
      assert Past() == past;
    }

    /** From the head, the history reaches back to the code point `n` places before exactly if it has room for as many. */
    lemma HistoryReaches(n: nat)
      requires Valid() && started && negativeOffset == 0 && n <= Cursor()
      ensures n <= count <==> n <= HistorySize
    {
      hide Utf8Reader.Valid, Text, Holds;
    }

    /** `step_back`: as far back as the history reaches. */
    method StepBack(n: nat) returns (cp: Option<CodePoint>)
      requires Valid() && !reader.err
      requires count > 0 && negativeOffset + n <= count
      modifies this`negativeOffset
      ensures Valid()
      ensures Cursor() == old(Cursor()) - n && cp == At(Cursor())
      ensures negativeOffset == old(negativeOffset) + n
    {
      hide Utf8Reader.Valid, Text, Holds;
      negativeOffset := negativeOffset + n;
      CurrentIsAt();
      return Current();
    }
  }
}
