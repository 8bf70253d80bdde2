// The one-byte line header (include/line_header.h): bit 0 is the mark, bit 1
// says that an object starts in the line, the six high bits are the byte offset
// of the first such object.  The rest of the project works on the record Line;
// the lemmas here show that the packed byte implements it.
module LineHeader {

  const LINE_WORDS: nat := 32

  // `offset` counts 8-byte words.
  datatype Line = Line(marked: bool, occupied: bool, offset: nat) {
    predicate Valid() {
      offset < LINE_WORDS && (!occupied ==> offset == 0)
    }

    function Mark(): Line {
      this.(marked := true)
    }

    function Unmark(): Line {
      this.(marked := false)
    }

    // Setting the offset rewrites the whole byte, so it drops the mark.
    function SetOffset(newOffset: nat): Line {
      Line(false, true, newOffset)
    }
  }

  const EMPTY := Line(false, false, 0)

  const MARKED_BIT: bv8 := 0x01
  const OBJECT_BIT: bv8 := 0x02
  const OFFSET_MASK: bv8 := 0xFC

  function IsMarked(flag: bv8): bool {
    flag & MARKED_BIT == MARKED_BIT
  }

  function ContainsObject(flag: bv8): bool {
    flag & OBJECT_BIT == OBJECT_BIT
  }

  function GetOffset(flag: bv8): bv8 {
    flag & OFFSET_MASK
  }

  function MarkByte(flag: bv8): bv8 {
    flag | MARKED_BIT
  }

  function UnmarkByte(flag: bv8): bv8 {
    flag & !MARKED_BIT
  }

  function SetOffsetByte(offset: bv8): bv8 {
    (offset & OFFSET_MASK) | OBJECT_BIT
  }

  // The byte `flag` stores the header `line`.
  ghost predicate Stores(flag: bv8, line: Line) {
    && IsMarked(flag) == line.marked
    && ContainsObject(flag) == line.occupied
    && GetOffset(flag) as nat == 8 * line.offset
  }

  lemma BitsOfUpdates(flag: bv8)
    ensures IsMarked(MarkByte(flag)) && !IsMarked(UnmarkByte(flag))
    ensures ContainsObject(MarkByte(flag)) == ContainsObject(flag) == ContainsObject(UnmarkByte(flag))
    ensures GetOffset(MarkByte(flag)) == GetOffset(flag) == GetOffset(UnmarkByte(flag))
  {
  }

  lemma OffsetBits(offset: bv8)
    requires offset & 7 == 0
    ensures !IsMarked(SetOffsetByte(offset)) && ContainsObject(SetOffsetByte(offset))
    ensures GetOffset(SetOffsetByte(offset)) == offset
  {
  }

  // Every byte update of the source acts on the record as the record's own
  // update does, and the zero byte is the empty header.
  lemma ByteImplementsLine(flag: bv8, line: Line, offset: bv8)
    requires Stores(flag, line) && offset & 7 == 0
    ensures Stores(0, EMPTY)
    ensures Stores(MarkByte(flag), line.Mark())
    ensures Stores(UnmarkByte(flag), line.Unmark())
    ensures Stores(SetOffsetByte(offset), line.SetOffset(offset as nat / 8))
  {
    BitsOfUpdates(flag);
    OffsetBits(offset);
    MultipleOfEight(offset);
  }

  lemma MultipleOfEight(offset: bv8)
    requires offset & 7 == 0
    ensures offset as nat % 8 == 0
  {
  }
}
