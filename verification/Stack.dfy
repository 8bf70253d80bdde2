// The mark stack: ranges of words in a fixed buffer (include/stack.h).
module Stacks {

  datatype Range = Range(sp: nat, bottom: nat)

  // The ranges stored pairwise in the first entries of a buffer.
  function Ranges(entries: seq<nat>): (rs: seq<Range>)
    requires |entries| % 2 == 0
    ensures |rs| == |entries| / 2
  {
    seq(|entries| / 2, i requires 0 <= i < |entries| / 2 => Range(entries[2 * i], entries[2 * i + 1]))
  }

  lemma RangesPush(entries: seq<nat>, sp: nat, bottom: nat)
    requires |entries| % 2 == 0
    ensures Ranges(entries + [sp, bottom]) == Ranges(entries) + [Range(sp, bottom)]
  {
  }

  class Stack {
    const buffer: array<nat>
    var cursor: nat

    ghost predicate Valid()
      reads this
    {
      cursor % 2 == 0 && cursor <= buffer.Length && buffer.Length % 2 == 0
    }

    ghost function Contents(): (rs: seq<Range>)
      requires Valid()
      reads this, buffer
    {
      Ranges(buffer[..cursor])
    }

    ghost function Capacity(): nat {
      buffer.Length / 2
    }

    constructor (capacity: nat)
      ensures Valid() && Contents() == [] && Capacity() == capacity && fresh(buffer)
    {
      buffer := new nat[2 * capacity];
      cursor := 0;
    }

    method Push(sp: nat, bottom: nat)
      requires Valid() && |Contents()| < Capacity()
      modifies this`cursor, buffer
      ensures Valid() && Contents() == old(Contents()) + [Range(sp, bottom)]
    {
      RangesPush(buffer[..cursor], sp, bottom);
      buffer[cursor] := sp;
      buffer[cursor + 1] := bottom;
      cursor := cursor + 2;
      assert buffer[..cursor] == old(buffer[..cursor]) + [sp, bottom];
    }

    method Pop() returns (found: bool, sp: nat, bottom: nat)
      requires Valid()
      modifies this`cursor
      ensures Valid() && found == (old(Contents()) != [])
      ensures if found then old(Contents()) == Contents() + [Range(sp, bottom)] else Contents() == []
    {
      if cursor == 0 {
        return false, 0, 0;
      }
      cursor := cursor - 2;
      sp, bottom := buffer[cursor], buffer[cursor + 1];
      RangesPush(buffer[..cursor], sp, bottom);
      assert buffer[..cursor + 2] == buffer[..cursor] + [sp, bottom];
      found := true;
    }
  }
}
