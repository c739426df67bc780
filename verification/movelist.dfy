/** `MoveGen::MoveList`: a fixed buffer of 256 moves and a fill counter.
    Entries at and above `size` are leftovers and carry no meaning. */
module MoveLists {
  import opened Pieces
  import opened Moves

  /** `MoveGen::MAX_MOVES`. */
  const MaxMoves: nat := 256

  datatype MoveList = MoveList(buf: seq<Move>, size: int)

  predicate Valid(ml: MoveList) {
    |ml.buf| == MaxMoves && 0 <= ml.size <= MaxMoves
  }

  /** The moves the list holds: the first `size` buffer entries. */
  function Contents(ml: MoveList): seq<Move>
    requires Valid(ml)
  {
    ml.buf[..ml.size]
  }

  /** The default constructor: an empty list.  The buffer is left
      uninitialised in the engine; here it holds a filler move. */
  function NewMoveList(): (ml: MoveList)
    ensures Valid(ml)
    ensures Contents(ml) == []
  {
    MoveList(seq(MaxMoves, _ => Move(0, 0, Empty, 0)), 0)
  }

  /** `MoveList::clear`: the list becomes empty; the buffer is not touched. */
  function Clear(ml: MoveList): (r: MoveList)
    requires Valid(ml)
    ensures Valid(r) && r.size == 0 && Contents(r) == []
    ensures r.buf == ml.buf
  {
    ml.(size := 0)
  }

  /** `MoveList::addMove`: writes `Move(from, to, promoteTo, 0)` at index
      `size` and increments `size`.  The engine does not check the
      capacity; the caller guarantees room. */
  function AddMove(ml: MoveList, from: int, to: int, promoteTo: Piece): (r: MoveList)
    requires Valid(ml) && ml.size < MaxMoves
    ensures Valid(r) && r.size == ml.size + 1
    ensures Contents(r) == Contents(ml) + [Move(from, to, promoteTo, 0)]
  {
    var r := MoveList(ml.buf[ml.size := Move(from, to, promoteTo, 0)], ml.size + 1);
    assert Contents(r) == Contents(ml) + [Move(from, to, promoteTo, 0)];
    r
  }

  /** `addMove` writes the buffer slot at `size` and no other. */
  lemma AddMoveBuffer(ml: MoveList, from: int, to: int, promoteTo: Piece)
    requires Valid(ml) && ml.size < MaxMoves
    ensures AddMove(ml, from, to, promoteTo).buf[ml.size] == Move(from, to, promoteTo, 0)
    ensures forall i :: 0 <= i < MaxMoves && i != ml.size ==> AddMove(ml, from, to, promoteTo).buf[i] == ml.buf[i]
  {
  }

  /** Adding moves only appends: every move listed before stays where it was. */
  lemma AddMoveKeepsPrefix(ml: MoveList, from: int, to: int, promoteTo: Piece)
    requires Valid(ml) && ml.size < MaxMoves
    ensures Contents(ml) <= Contents(AddMove(ml, from, to, promoteTo))
    ensures forall i :: 0 <= i < ml.size ==> Contents(AddMove(ml, from, to, promoteTo))[i] == Contents(ml)[i]
  {
  }
}
