// The mapped memory of the small heap, updated in place.
module Memory {
  import opened LineHeader
  import opened Space

  // Word a of the address space lives at byte 8 * a.
  function SetWord(s: Space, a: nat, w: nat): Space
    requires a < |s.words|
  {
    s.(words := s.words[a := w])
  }

  function SetLine(s: Space, l: nat, line: Line): Space
    requires l < |s.lines|
  {
    s.(lines := s.lines[l := line])
  }

  function SetBlock(s: Space, b: nat, block: Block): Space
    requires b < |s.blocks|
  {
    s.(blocks := s.blocks[b := block])
  }

  class Memory {
    var space: Space

    constructor (space: Space)
      ensures this.space == space
    {
      this.space := space;
    }

    // Block_init: memset of the block header clears all fields and line headers.
    // (Entry 128 * b of `lines` stands for the metadata line and is not used.)
    method BlockInit(b: nat)
      requires Shape(space) && b < |space.blocks|
      modifies this
      ensures SameBut(old(space), space) && space.blocks == old(space).blocks[b := FRESH_BLOCK]
      ensures Cleared(old(space).lines, space.lines, BLOCK_LINES * b, BLOCK_LINES * (b + 1))
    {
      space := SetBlock(space, b, FRESH_BLOCK);
      for l := BLOCK_LINES * b to BLOCK_LINES * (b + 1)
        invariant SameBut(old(space), space) && space.blocks == old(space).blocks[b := FRESH_BLOCK]
        invariant Cleared(old(space).lines, space.lines, BLOCK_LINES * b, l)
      {
        space := SetLine(space, l, EMPTY);
      }
    }
  }

  // The two spaces differ in headers only.
  predicate SameBut(s: Space, t: Space) {
    t.words == s.words && t.low == s.low && t.high == s.high
  }

  predicate Cleared(lines: seq<Line>, lines': seq<Line>, from: nat, to: nat) {
    && |lines'| == |lines|
    && forall l: nat | l < |lines| :: lines'[l] == if from <= l < to then EMPTY else lines[l]
  }
}
