/** The arena behind field maps and message bytes (core/Alloc.hpp:15-68): a bump allocator whose offset moves up on
    allocation and down again on deallocation. An address is an offset from the start of the arena. */
module Arena {
  import opened Orders

  datatype Block = Block(start: nat, length: nat) {
    function End(): nat {
      start + length
    }
  }

  /** Blocks in the order of their addresses, none of which reaches into the next. */
  ghost predicate Disjoint(live: seq<Block>) {
    forall i, j :: 0 <= i < j < |live| ==> live[i].End() <= live[j].start
  }

  ghost predicate EndsBefore(live: seq<Block>, offset: nat) {
    live == [] || live[|live| - 1].End() <= offset
  }

  /** What is left when the offset moves down: the youngest blocks go until one lies wholly below it. */
  function Surviving(live: seq<Block>, offset: nat): seq<Block> {
    if live == [] || live[|live| - 1].End() <= offset then live else Surviving(live[..|live| - 1], offset)
  }

  /** Exactly the blocks that lie below the new offset survive, in their order, still disjoint. */
  lemma {:induction false} SurvivorsLieBelow(live: seq<Block>, offset: nat)
    requires Disjoint(live)
    ensures var s := Surviving(live, offset);
      && s <= live && Disjoint(s) && EndsBefore(s, offset)
      && forall b :: b in s <==> b in live && b.End() <= offset
  {
    if live != [] {
      var last := live[|live| - 1];
      if last.End() > offset {
        var front := live[..|live| - 1];
        SurvivorsLieBelow(front, offset);
        assert live == front + [last];
      } else {
        forall b | b in live
          ensures b.End() <= offset
        {
          var i :| 0 <= i < |live| && live[i] == b;
          if i < |live| - 1 {
            assert live[i].End() <= live[|live| - 1].start;
          }
        }
      }
    }
  }

  class Buffer {
    const capacity: nat
    var offset: nat
    var bytesAllocated: nat
    ghost var live: seq<Block>

    ghost predicate Valid()
      reads this
    {
      offset == bytesAllocated <= capacity && Disjoint(live) && EndsBefore(live, offset)
    }

    constructor (capacity: nat)
      ensures Valid() && this.capacity == capacity && live == [] && offset == 0
    {
      this.capacity := capacity;
      offset, bytesAllocated := 0, 0;
      live := [];
    }

    /** The new block overlaps no live one. No block means that the arena is exhausted. */
    method Allocate(n: nat) returns (address: Option<nat>)
      requires Valid()
      modifies this
      ensures Valid() && address == (if old(offset) + n <= capacity then Some(old(offset)) else None)
      ensures live == old(live) + (if address.Some? then [Block(address.value, n)] else [])
      ensures offset == old(offset) + if address.Some? then n else 0
    {
      if offset + n > capacity {
        return None;
      }
      address := Some(offset);
      offset := offset + n;
      bytesAllocated := bytesAllocated + n;
      ghost var before := live;
      live := live + [Block(address.value, n)];
      forall i | 0 <= i < |before|
        ensures before[i].End() <= address.value
      {
        if i < |before| - 1 {
          assert before[i].End() <= before[|before| - 1].start;
        }
      }
    }

    /** Giving back more than was allocated does nothing. Giving back other than what the youngest blocks take cuts into
        a block; what remains of it is not live. */
    method Deallocate(n: nat)
      requires Valid()
      modifies this
      ensures Valid()
      ensures offset == old(offset) - if n <= old(bytesAllocated) then n else 0
      ensures forall b :: b in live <==> b in old(live) && b.End() <= offset
      ensures live <= old(live)
    {
      SurvivorsLieBelow(live, if n > bytesAllocated then offset else offset - n);
      if n > bytesAllocated {
        assert Surviving(live, offset) == live;
        return;
      }
      bytesAllocated := bytesAllocated - n;
      offset := offset - n;
      live := Surviving(live, offset);
    }

    method Reset()
      requires Valid()
      modifies this
      ensures Valid() && offset == 0 && live == []
    {
      offset := 0;
      bytesAllocated := 0;
      live := [];
    }
  }
}
