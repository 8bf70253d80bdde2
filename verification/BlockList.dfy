// The FIFO list of blocks linked through their headers (include/block_list.h).
module BlockLists {
  import opened Space
  import opened Memory

  predicate NoDuplicates(s: seq<nat>) {
    forall i, j | 0 <= i < j < |s| :: s[i] != s[j]
  }

  // Everything in a block header but the link.
  function Body(block: Block): Block {
    block.(next := 0)
  }

  // The link of the i-th block of a list.
  function Link(contents: seq<nat>, i: nat): nat
    requires i < |contents|
  {
    if i + 1 < |contents| then contents[i + 1] else 0
  }

  predicate Linked(contents: seq<nat>, blocks: seq<Block>) {
    && NoDuplicates(contents)
    && (forall i | 0 <= i < |contents| :: 0 < contents[i] < |blocks|)
    && (forall i | 0 <= i < |contents| :: blocks[contents[i]].next == Link(contents, i))
  }

  // The fields of a list and the links in memory describe s.
  predicate Describes(first: nat, last: nat, size: nat, s: seq<nat>, blocks: seq<Block>) {
    && size == |s| && Linked(s, blocks)
    && (if s == [] then first == 0 else first == s[0] && last == s[|s| - 1])
  }

  class BlockList {
    // Block numbers; 0 stands for NULL.  `last` goes stale when the list empties.
    var first: nat
    var last: nat
    var size: nat
    ghost var contents: seq<nat>

    ghost predicate Valid(blocks: seq<Block>)
      reads this
    {
      Describes(first, last, size, contents, blocks)
    }

    constructor ()
      ensures contents == [] && first == 0 && size == 0
    {
      first, last, size := 0, 0, 0;
      contents := [];
    }

    method Clear()
      modifies this
      ensures contents == [] && first == 0 && size == 0
    {
      first, last, size := 0, 0, 0;
      contents := [];
    }

    predicate IsEmpty()
      reads this
    {
      first == 0
    }

    method Push(memory: Memory, block: nat)
      requires Valid(memory.space.blocks)
      requires 0 < block < |memory.space.blocks| && block !in contents
      modifies this, memory
      ensures Valid(memory.space.blocks) && contents == old(contents) + [block]
      ensures memory.space == old(memory.space).(blocks := memory.space.blocks)
      ensures Relinked(old(memory.space.blocks), memory.space.blocks, contents)
    {
      hide Describes, Relinked;
      ghost var blocks, first0, last0 := memory.space.blocks, first, last;
      Pushed(first, last, size, contents, blocks, block);
      memory.space := SetBlock(memory.space, block, memory.space.blocks[block].(next := 0));
      if IsEmpty() {
        first := block;
      } else {
        memory.space := SetBlock(memory.space, last, memory.space.blocks[last].(next := block));
      }
      assert memory.space.blocks == Relink(blocks, first0, last0, block);
      hide *;
      last := block;
      size := size + 1;
      contents := contents + [block];
    }

    method Shift(memory: Memory) returns (block: nat)
      requires Valid(memory.space.blocks)
      modifies this
      ensures Valid(memory.space.blocks)
      ensures block == 0 <==> old(contents) == []
      ensures block == 0 ==> contents == []
      ensures block != 0 ==> old(contents) == [block] + contents
    {
      block := first;
      if block != 0 {
        first := memory.space.blocks[block].next;
        size := size - 1;
        Dropped(contents, memory.space.blocks);
        contents := contents[1..];
      }
    }
  }

  // Only links, and only those of listed blocks, differ.
  predicate Relinked(blocks: seq<Block>, blocks': seq<Block>, contents: seq<nat>) {
    && |blocks'| == |blocks|
    && (forall b | 0 <= b < |blocks| :: Body(blocks'[b]) == Body(blocks[b]))
    && (forall b | 0 <= b < |blocks| && b !in contents :: blocks'[b] == blocks[b])
  }

  function Chained(s: seq<nat>, blocks: seq<Block>, block: nat): seq<Block>
    requires Linked(s, blocks) && block < |blocks|
  {
    var cut := blocks[block := blocks[block].(next := 0)];
    if s == [] then cut else cut[s[|s| - 1] := cut[s[|s| - 1]].(next := block)]
  }

  // The links after a push.
  function Relink(blocks: seq<Block>, first: nat, last: nat, block: nat): seq<Block>
    requires block < |blocks| && (first == 0 || last < |blocks|)
  {
    var cut := blocks[block := blocks[block].(next := 0)];
    if first == 0 then cut else cut[last := cut[last].(next := block)]
  }

  lemma Pushed(first: nat, last: nat, size: nat, s: seq<nat>, blocks: seq<Block>, block: nat)
    requires Describes(first, last, size, s, blocks) && 0 < block < |blocks| && block !in s
    ensures first == 0 || last < |blocks|
    ensures Describes(if first == 0 then block else first, block, size + 1, s + [block],
                      Relink(blocks, first, last, block))
    ensures Relinked(blocks, Relink(blocks, first, last, block), s + [block])
  {
    Appended(s, blocks, block);
  }

  lemma Appended(s: seq<nat>, blocks: seq<Block>, block: nat)
    requires Linked(s, blocks) && 0 < block < |blocks| && block !in s
    ensures Linked(s + [block], Chained(s, blocks, block))
    ensures Relinked(blocks, Chained(s, blocks, block), s + [block])
  {
    var t := s + [block];
    var blocks' := Chained(s, blocks, block);
    forall i | 0 <= i < |t|
      ensures 0 < t[i] < |blocks'| && blocks'[t[i]].next == Link(t, i)
    {
      assert i < |s| ==> t[i] == s[i] && s[i] in s;
      assert i + 1 < |s| ==> s[i] != s[|s| - 1] && blocks[s[i]].next == Link(s, i);
    }
    AppendedOnly(s, blocks, block);
    assert NoDuplicates(t) by {
      assert forall i | 0 <= i < |s| :: s[i] in s;
    }
  }

  lemma AppendedOnly(s: seq<nat>, blocks: seq<Block>, block: nat)
    requires Linked(s, blocks) && 0 < block < |blocks| && block !in s
    ensures Relinked(blocks, Chained(s, blocks, block), s + [block])
  {
  }

  lemma Dropped(s: seq<nat>, blocks: seq<Block>)
    requires Linked(s, blocks) && s != []
    ensures Linked(s[1..], blocks) && blocks[s[0]].next == Link(s, 0)
  {
  }

  // A list stays linked while the links of its own blocks do not change.
  lemma LinksKept(s: seq<nat>, blocks: seq<Block>, blocks': seq<Block>)
    requires Linked(s, blocks) && |blocks'| == |blocks|
    requires forall b | b in s :: blocks'[b].next == blocks[b].next
    ensures Linked(s, blocks')
  {
  }
}
