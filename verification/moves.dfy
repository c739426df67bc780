/** The `Move` value type: origin, destination, promotion piece and a sort
    score.  `move.hpp` is not part of this model; the accessors and `equals`
    are specified by what `moveTest.cpp` asserts about them. */
module Moves {
  import opened Pieces

  /** A move; `score` is only used for ordering and is not part of its identity. */
  datatype Move = Move(from: int, to: int, promoteTo: Piece, score: int)

  /** `Move::equals`: same origin, destination and promotion piece. */
  predicate Equals(a: Move, b: Move) {
    a.from == b.from && a.to == b.to && a.promoteTo == b.promoteTo
  }

  /** Two moves are equal exactly when they agree once their scores are
      disregarded. */
  lemma EqualsIgnoresOnlyScore(a: Move, b: Move)
    ensures Equals(a, b) <==> a.(score := 0) == b.(score := 0)
  {
    if a.(score := 0) == b.(score := 0) {
      assert a.(score := 0).from == b.(score := 0).from;
      assert a.(score := 0).to == b.(score := 0).to;
      assert a.(score := 0).promoteTo == b.(score := 0).promoteTo;
    }
  }

  /** `equals` is an equivalence relation. */
  lemma EqualsIsEquivalence(a: Move, b: Move, c: Move)
    ensures Equals(a, a)
    ensures Equals(a, b) ==> Equals(b, a)
    ensures Equals(a, b) && Equals(b, c) ==> Equals(a, c)
  {
  }

  /** The constructor's arguments come back from the accessors. */
  lemma ConstructorAccessors(f: int, t: int, p: Piece)
    ensures Move(f, t, p, 0).from == f
    ensures Move(f, t, p, 0).to == t
    ensures Move(f, t, p, 0).promoteTo == p
  {
  }

  /** The moves of the `equals` test: differing in destination, origin or
      promotion piece makes them unequal; identical arguments make them equal. */
  lemma EqualsTestCases()
    ensures var m1 := Move(GetSquare(0, 6), GetSquare(1, 7), WRook, 0);
            var m2 := Move(GetSquare(0, 6), GetSquare(0, 7), WRook, 0);
            var m3 := Move(GetSquare(1, 6), GetSquare(1, 7), WRook, 0);
            var m4 := Move(GetSquare(0, 6), GetSquare(1, 7), WKnight, 0);
            var m5 := Move(GetSquare(0, 6), GetSquare(1, 7), WRook, 0);
            !Equals(m1, m2) && !Equals(m1, m3) && !Equals(m1, m4) && Equals(m1, m5)
  {
  }

  /** Moves that differ in exactly one of the three identifying fields are unequal. */
  lemma DifferingMovesUnequal(f: int, t: int, p: Piece, f2: int, t2: int, p2: Piece)
    ensures t != t2 ==> !Equals(Move(f, t, p, 0), Move(f, t2, p, 0))
    ensures f != f2 ==> !Equals(Move(f, t, p, 0), Move(f2, t, p, 0))
    ensures p != p2 ==> !Equals(Move(f, t, p, 0), Move(f, t, p2, 0))
    ensures Equals(Move(f, t, p, 0), Move(f, t, p, 0))
  {
  }
}
