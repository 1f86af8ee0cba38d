/** `array::flatten` of `toml.hpp`, done in place by erasing, shifting and moving. */
module ArrayFlatten {
  import opened Sequences
  import opened Wrappers
  import opened TomlValues

  /** The elements that are not arrays, from left to right. */
  function Leaves(v: Value): seq<Value>
    decreases v
  {
    if v.Array? then AllLeaves(v.elems) else [v]
  }

  function AllLeaves(vs: seq<Value>): seq<Value>
    decreases vs
  {
    if vs == [] then [] else Leaves(vs[0]) + AllLeaves(vs[1..])
  }

  /** The slots of a vector of owning pointers; a slot that was moved from is empty. */
  function Slots(vs: seq<Value>): (r: seq<Option<Value>>)
    ensures |r| == |vs|
  {
    seq(|vs|, i requires 0 <= i < |vs| => Some(vs[i]))
  }

  function EmptySlots(n: nat): (r: seq<Option<Value>>)
    ensures |r| == n
  {
    seq(n, _ => None)
  }

  lemma {:induction false} AllLeavesAppend(a: seq<Value>, b: seq<Value>)
    ensures AllLeaves(a + b) == AllLeaves(a) + AllLeaves(b)
  {
    hide Leaves;
    if a == [] {
      assert a + b == b;
    } else {
      assert (a + b)[0] == a[0] && (a + b)[1..] == a[1..] + b;
      AllLeavesAppend(a[1..], b);
      Assoc(Leaves(a[0]), AllLeaves(a[1..]), AllLeaves(b));
    }
  }

  lemma SlotsAppend(a: seq<Value>, b: seq<Value>)
    ensures Slots(a + b) == Slots(a) + Slots(b)
  {}

  /** The arrays that hold no leaf at all. */
  predicate Hollow(v: Value) {
    v.Array? && Leaves(v) == []
  }

  function DropHollow(vs: seq<Value>): seq<Value> {
    if vs == [] then [] else (if Hollow(vs[0]) then [] else [vs[0]]) + DropHollow(vs[1..])
  }

  lemma {:induction false} DropHollowLeaves(vs: seq<Value>)
    ensures AllLeaves(DropHollow(vs)) == AllLeaves(vs)
    ensures forall v | v in DropHollow(vs) :: v in vs && !Hollow(v)
  {
    hide Leaves;
    if vs != [] {
      DropHollowLeaves(vs[1..]);
      if !Hollow(vs[0]) {
        assert DropHollow(vs) == [vs[0]] + DropHollow(vs[1..]);
      } else {
        assert DropHollow(vs) == DropHollow(vs[1..]);
        assert AllLeaves(vs) == [] + AllLeaves(vs[1..]);
      }
    }
  }

  lemma {:induction false} FlatIsFlat(vs: seq<Value>)
    requires forall v | v in vs :: !v.Array?
    ensures AllLeaves(vs) == vs
  {
    if vs != [] {
      FlatIsFlat(vs[1..]);
      assert vs[0] in vs && vs == [vs[0]] + vs[1..];
    }
  }

  lemma {:induction false} LeavesAreFlat(v: Value)
    ensures forall x | x in Leaves(v) :: !x.Array?
    decreases v, 1
  {
    if v.Array? { AllLeavesAreFlat(v.elems); }
  }

  lemma {:induction false} AllLeavesAreFlat(vs: seq<Value>)
    ensures forall x | x in AllLeaves(vs) :: !x.Array?
    decreases vs, 0
  {
    if vs != [] {
      LeavesAreFlat(vs[0]);
      AllLeavesAreFlat(vs[1..]);
    }
  }

  /** `total_leaf_count`. */
  method TotalLeafCount(elems: seq<Value>) returns (leaves: nat)
    ensures leaves == |AllLeaves(elems)|
    decreases elems
  {
    leaves := 0;
    for i := 0 to |elems|
      invariant leaves == |AllLeaves(elems[..i])|
    {
      assert elems[..i + 1] == elems[..i] + [elems[i]];
      AllLeavesAppend(elems[..i], [elems[i]]);
      assert AllLeaves([elems[i]]) == Leaves(elems[i]);
      if elems[i].Array? {
        var n := TotalLeafCount(elems[i].elems);
        leaves := leaves + n;
      } else {
        leaves := leaves + 1;
      }
    }
    assert elems[..|elems|] == elems;
  }

  /** `s` with `count` empty slots before index `i`. */
  function WithRoom(s: seq<Option<Value>>, i: nat, count: nat): (r: seq<Option<Value>>)
    requires i <= |s|
    ensures |r| == |s| + count
  {
    s[..i] + EmptySlots(count) + s[i..]
  }

  lemma RoomMoves(s: seq<Option<Value>>, i: nat, count: nat)
    requires i < |s| && count >= 1
    ensures WithRoom(s, i + 1, count)[i] == s[i]
    ensures WithRoom(s, i + 1, count)[i := None][i + count := s[i]] == WithRoom(s, i, count)
  {}

  /** `s` with the values of `vs` in the slots from `dest` on. */
  function Filled(s: seq<Option<Value>>, dest: nat, vs: seq<Value>): (r: seq<Option<Value>>)
    requires dest + |vs| <= |s|
    ensures |r| == |s|
  {
    s[..dest] + Slots(vs) + s[dest + |vs|..]
  }

  lemma NothingFilled(s: seq<Option<Value>>, dest: nat)
    requires dest <= |s|
    ensures Filled(s, dest, []) == s
  {}

  lemma FilledRest(s: seq<Option<Value>>, dest: nat, done: seq<Value>)
    requires dest + |done| <= |s|
    ensures forall k | dest + |done| <= k < |s| :: Filled(s, dest, done)[k] == s[k]
  {}

  lemma FillMore(s: seq<Option<Value>>, dest: nat, done: seq<Value>, here: seq<Value>)
    requires dest + |done| + |here| <= |s|
    ensures Filled(Filled(s, dest, done), dest + |done|, here) == Filled(s, dest, done + here)
  {
    SlotsAppend(done, here);
  }

  lemma FillOne(s: seq<Option<Value>>, dest: nat, v: Value)
    requires dest < |s|
    ensures Filled(s, dest, [v]) == s[dest := Some(v)]
  {}

  lemma NoLeaves()
    ensures AllLeaves([]) == []
  {}

  lemma LeavesOfArray(v: Value)
    requires v.Array?
    ensures Leaves(v) == AllLeaves(v.elems)
  {}

  lemma LeavesOfScalar(v: Value)
    requires !v.Array?
    ensures Leaves(v) == [v]
  {}

  class TomlArray {
    var elems: seq<Option<Value>>

    constructor (vs: seq<Value>)
      ensures elems == Slots(vs)
    {
      elems := Slots(vs);
    }

    /** `preinsertion_resize`: makes room before index `idx`, moving the tail up from its end. */
    method PreinsertionResize(idx: nat, count: nat)
      requires idx <= |elems| && count >= 1
      modifies this
      ensures elems == WithRoom(old(elems), idx, count)
    {
      var oldSize := |elems|;
      var newSize := oldSize + count;
      ghost var was := elems;
      elems := elems + EmptySlots(count);
      assert elems == WithRoom(was, oldSize, count);
      if idx != oldSize {
        hide WithRoom;
        var left, right := oldSize, newSize - 1;
        while left > idx
          invariant idx <= left <= oldSize && right == left + count - 1
          invariant elems == WithRoom(was, left, count)
          decreases left
        {
          left := left - 1;
          RoomMoves(was, left, count);
          var moved := elems[left];
          elems := elems[left := None][right := moved];
          right := right - 1;
        }
      }
    }

    /** `flatten_child`: moves the leaves of a child, in order, into empty slots from `dest` on. */
    method FlattenChild(child: seq<Value>, dest: nat) returns (end: nat)
      requires dest + |AllLeaves(child)| <= |elems|
      requires forall k | dest <= k < dest + |AllLeaves(child)| :: elems[k] == None
      modifies this
      ensures end == dest + |AllLeaves(child)|
      ensures elems == Filled(old(elems), dest, AllLeaves(child))
      decreases child
    {
      hide Leaves, AllLeaves, Filled;
      end := dest;
      ghost var was := elems;
      assert child[..0] == [];
      NothingFilled(was, dest);
      NoLeaves();
      for i := 0 to |child|
        invariant |AllLeaves(child)| == |AllLeaves(child[..i])| + |AllLeaves(child[i..])|
        invariant end == dest + |AllLeaves(child[..i])|
        invariant elems == Filled(was, dest, AllLeaves(child[..i]))
      {
        ghost var done, here := AllLeaves(child[..i]), Leaves(child[i]);
        Unroll(child, i);
        FilledRest(was, dest, done);
        if child[i].Array? {
          LeavesOfArray(child[i]);
          if child[i].elems != [] {
            end := FlattenChild(child[i].elems, end);
          } else {
            NoLeaves();
            NothingFilled(elems, end);
          }
          FillMore(was, dest, done, here);
        } else {
          LeavesOfScalar(child[i]);
          assert elems[end] == None; // every slot is filled once
          FillMore(was, dest, done, here);
          FillOne(elems, end, child[i]);
          elems := elems[end := Some(child[i])];
          end := end + 1;
        }
      }
      assert child[..|child|] == child;
    }

    static lemma Unroll(child: seq<Value>, i: nat)
      requires i < |child|
      ensures AllLeaves(child[i..]) == Leaves(child[i]) + AllLeaves(child[i + 1..])
      ensures AllLeaves(child[..i + 1]) == AllLeaves(child[..i]) + Leaves(child[i])
    {
      assert child[i..] == [child[i]] + child[i + 1..] && child[..i + 1] == child[..i] + [child[i]];
      AllLeavesAppend(child[..i], [child[i]]);
      assert AllLeaves([child[i]]) == Leaves(child[i]);
    }

    /**
      `flatten`: in place, with every slot filled exactly once and no slot left empty, the array
      becomes the concatenation of its leaves.
    */
    method Flatten(ghost vs: seq<Value>)
      requires elems == Slots(vs)
      modifies this
      ensures elems == Slots(AllLeaves(vs))
    {
      hide Leaves, AllLeaves, DropHollow;
      if elems == [] {
        NoLeaves();
        return;
      }
      var requiresFlattening := EraseHollow(vs);
      ghost var ws := DropHollow(vs);
      DropHollowLeaves(vs);
      if !requiresFlattening {
        FlatIsFlat(ws);
        return;
      }

      var i := 0;
      ghost var k := 0;
      assert ws[..0] == [] && ws[0..] == ws;
      NoLeaves();
      while i < |elems|
        invariant k <= |ws| && i == |AllLeaves(ws[..k])|
        invariant elems == Slots(AllLeaves(ws[..k]) + ws[k..])
        decreases |elems| - i
      {
        ghost var done := AllLeaves(ws[..k]);
        assert elems[i] == Some(ws[k]) && ws[k] in ws;
        Unroll(ws, k);
        assert ws[k..][0] == ws[k] && ws[k..][1..] == ws[k + 1..] && [ws[k]] + ws[k + 1..] == ws[k..];
        if !elems[i].value.Array? {
          LeavesOfScalar(ws[k]);
          Assoc(done, [ws[k]], ws[k + 1..]);
          i := i + 1;
        } else {
          i := ExpandAt(i, done, ws[k..]);
        }
        assert elems == Slots(done + Leaves(ws[k]) + ws[k + 1..]);
        k := k + 1;
      }
      assert ws[..|ws|] == ws && ws[k..] == [];
      assert AllLeaves(ws) + [] == AllLeaves(ws);
    }

    /** The body of the second loop of `flatten` for an array: its leaves take its place. */
    method ExpandAt(i: nat, ghost done: seq<Value>, ghost rest: seq<Value>) returns (next: nat)
      requires rest != [] && rest[0].Array? && !Hollow(rest[0])
      requires elems == Slots(done + rest) && i == |done|
      modifies this
      ensures next == i + |Leaves(rest[0])|
      ensures elems == Slots(done + Leaves(rest[0]) + rest[1..])
    {
      hide Leaves, AllLeaves;
      LeavesOfArray(rest[0]);
      ghost var here := AllLeaves(rest[0].elems);
      var arr := elems[i].value;
      elems := elems[i := None];
      var leafCount := TotalLeafCount(arr.elems);
      ghost var before := elems;
      if leafCount > 1 {
        PreinsertionResize(i + 1, leafCount - 1);
      }
      Expanded(done, rest, before, elems, leafCount);
      next := FlattenChild(arr.elems, i);
    }

    static lemma Expanded(done: seq<Value>, rest: seq<Value>, before: seq<Option<Value>>, after: seq<Option<Value>>, n: nat)
      requires rest != [] && rest[0].Array? && n == |AllLeaves(rest[0].elems)| && n >= 1
      requires before == Slots(done + rest)[|done| := None]
      requires after == if n > 1 then WithRoom(before, |done| + 1, n - 1) else before
      ensures forall k | |done| <= k < |done| + n :: k < |after| && after[k] == None
      ensures Filled(after, |done|, AllLeaves(rest[0].elems)) == Slots(done + AllLeaves(rest[0].elems) + rest[1..])
    {
      hide AllLeaves, WithRoom, Filled;
      ghost var a, here, b := Slots(done), AllLeaves(rest[0].elems), Slots(rest[1..]);
      assert before == a + EmptySlots(1) + b;
      hide Slots, EmptySlots;
      RoomAfter(a, b, n);
      FilledMiddle(a, b, here);
      SlotsAppend(done, here);
      SlotsAppend(done + here, rest[1..]);
    }

    static lemma RoomAfter(a: seq<Option<Value>>, b: seq<Option<Value>>, n: nat)
      requires n >= 1
      ensures n > 1 ==> WithRoom(a + EmptySlots(1) + b, |a| + 1, n - 1) == a + EmptySlots(n) + b
    {}

    static lemma FilledMiddle(a: seq<Option<Value>>, b: seq<Option<Value>>, vs: seq<Value>)
      ensures Filled(a + EmptySlots(|vs|) + b, |a|, vs) == a + Slots(vs) + b
      ensures forall k | |a| <= k < |a| + |vs| :: (a + EmptySlots(|vs|) + b)[k] == None
    {}

    /** The first loop of `flatten`, from the back: arrays without leaves are erased. */
    method EraseHollow(ghost vs: seq<Value>) returns (requiresFlattening: bool)
      requires elems == Slots(vs)
      modifies this
      ensures elems == Slots(DropHollow(vs))
      ensures requiresFlattening <==> exists v :: v in DropHollow(vs) && v.Array?
    {
      hide Leaves, AllLeaves, DropHollow, Slots;
      requiresFlattening := false;
      var sizeAfter := |elems|;
      var i := |elems|;
      assert vs[i..] == [] && vs[..i] + [] == vs;
      NoLeaves();
      NoneDropped();
      while i > 0
        invariant i <= |vs|
        invariant elems == Slots(vs[..i] + DropHollow(vs[i..]))
        invariant requiresFlattening <==> exists v :: v in DropHollow(vs[i..]) && v.Array?
        invariant sizeAfter == i + |AllLeaves(vs[i..])|
      {
        i := i - 1;
        DropStep(vs, i);
        Unroll(vs, i);
        if elems[i].value.Array? {
          LeavesOfArray(vs[i]);
          sizeAfter := sizeAfter - 1;
          var leafCount := TotalLeafCount(elems[i].value.elems);
          if leafCount > 0 {
            requiresFlattening := true;
            sizeAfter := sizeAfter + leafCount;
          } else {
            elems := elems[..i] + elems[i + 1..];
          }
        } else {
          LeavesOfScalar(vs[i]);
        }
      }
      assert vs[0..] == vs && [] + DropHollow(vs) == DropHollow(vs);
    }

    static lemma NoneDropped()
      ensures DropHollow([]) == []
    {}

    /** One turn of the first loop: element `i` stays, or its slot is erased. */
    static lemma DropStep(vs: seq<Value>, i: nat)
      requires i < |vs|
      ensures var es := Slots(vs[..i + 1] + DropHollow(vs[i + 1..]));
              && es[i] == Some(vs[i])
              && (Hollow(vs[i]) ==> es[..i] + es[i + 1..] == Slots(vs[..i] + DropHollow(vs[i..])))
              && (!Hollow(vs[i]) ==> es == Slots(vs[..i] + DropHollow(vs[i..])))
      ensures DropHollow(vs[i..]) == (if Hollow(vs[i]) then [] else [vs[i]]) + DropHollow(vs[i + 1..])
    {
      hide Leaves, Slots;
      var kept := DropHollow(vs[i + 1..]);
      assert vs[i..][0] == vs[i] && vs[i..][1..] == vs[i + 1..];
      assert vs[..i + 1] == vs[..i] + [vs[i]];
      EraseMiddle(vs[..i], vs[i], kept);
      Assoc(vs[..i], [vs[i]], kept);
      assert [] + kept == kept;
    }

    static lemma EraseMiddle(a: seq<Value>, x: Value, b: seq<Value>)
      ensures var es := Slots(a + [x] + b);
              es[|a|] == Some(x) && es[..|a|] + es[|a| + 1..] == Slots(a + b)
    {}
  }
}
