// What the operations on the large heap do to its chunks and to its end.
module LargeSteps {
  import opened Chunks

  predicate Suits(c: Chunk, size: nat) {
    !c.used && size <= c.size
  }

  // The first free chunk with room for `size` words, or |cs|.
  function FirstFit(cs: seq<Chunk>, size: nat): (i: nat)
    ensures i <= |cs| && (i < |cs| ==> Suits(cs[i], size))
    ensures forall j | 0 <= j < i :: !Suits(cs[j], size)
  {
    if cs == [] || Suits(cs[0], size) then 0 else 1 + FirstFit(cs[1..], size)
  }

  // What an allocation of `size` words makes of the chunks: first fit, if any.
  function Placed(cs: seq<Chunk>, size: nat, atomic: bool): seq<Chunk> {
    var i := FirstFit(cs, size);
    if i < |cs| then Allocate(cs, i, size, atomic) else cs
  }

  // The free chunk by which a growth extends the heap.
  function Extended(cs: seq<Chunk>, stop: nat, words: nat): seq<Chunk>
    requires words >= CHUNK_HEADER
  {
    cs + [FreeChunk(stop, words - CHUNK_HEADER)]
  }

  datatype State = State(chunks: seq<Chunk>, stop: nat)

  datatype Action =
    | Place(words: nat, atomic: bool)
    | Release(i: nat)
    | Extend(words: nat)
    | Collect(marked: set<nat>)   // the positions of the marked chunks

  function Marks(cs: seq<Chunk>, marked: set<nat>): seq<Chunk> {
    seq(|cs|, i requires 0 <= i < |cs| => cs[i].(marked := i in marked))
  }

  predicate Step(st: State, a: Action, st': State) {
    match a
    case Place(words, atomic) => st' == State(Placed(st.chunks, words + OBJECT_HEADER, atomic), st.stop)
    case Release(i) => i < |st.chunks| && st' == State(st.chunks[i := st.chunks[i].(used := false)], st.stop)
    case Extend(words) => words >= CHUNK_WORDS && st' == State(Extended(st.chunks, st.stop, words), st.stop + words)
    case Collect(marked) =>
      && (forall i | i in marked :: i < |st.chunks| && st.chunks[i].used)
      && st' == State(SweepCode(Marks(st.chunks, marked)), st.stop)
  }

  // What has to hold for the int that measures a chunk.
  predicate Guard(st: State, a: Action) {
    a.Collect? ==> 8 * st.stop < TWO_64 / 2 && !Overflows(Marks(st.chunks, a.marked))
  }
}
