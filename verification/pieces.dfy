/** Chess pieces and squares, as the engine's `Piece` and `Position` helpers
    use them.  `piece.hpp` and `position.hpp` are not part of this model; the
    piece order follows the engine's numbering (EMPTY first, then the white
    pieces king to pawn, then the black ones). */
module Pieces {

  datatype Piece =
    | Empty
    | WKing | WQueen | WRook | WBishop | WKnight | WPawn
    | BKing | BQueen | BRook | BBishop | BKnight | BPawn

  predicate IsWhite(p: Piece) {
    p == WKing || p == WQueen || p == WRook || p == WBishop || p == WKnight || p == WPawn
  }

  predicate IsBlack(p: Piece) {
    p == BKing || p == BQueen || p == BRook || p == BBishop || p == BKnight || p == BPawn
  }

  /** Every piece is exactly one of empty, white or black. */
  lemma ColourPartition(p: Piece)
    ensures p == Empty || IsWhite(p) || IsBlack(p)
    ensures !(IsWhite(p) && IsBlack(p))
    ensures p == Empty ==> !IsWhite(p) && !IsBlack(p)
  {
  }

  /** `Position::getSquare(x, y)`: file `x` and rank `y` to a square index. */
  function GetSquare(x: int, y: int): (sq: int)
    requires 0 <= x < 8 && 0 <= y < 8
    ensures 0 <= sq < 64
    ensures GetX(sq) == x && GetY(sq) == y
  {
    y * 8 + x
  }

  /** `Position::getX`: the file of a square. */
  function GetX(sq: int): int
    requires 0 <= sq < 64
  {
    sq % 8
  }

  /** `Position::getY`: the rank of a square. */
  function GetY(sq: int): int
    requires 0 <= sq < 64
  {
    sq / 8
  }

  /** File and rank determine the square. */
  lemma SquareOfCoords(sq: int)
    requires 0 <= sq < 64
    ensures 0 <= GetX(sq) < 8 && 0 <= GetY(sq) < 8
    ensures GetSquare(GetX(sq), GetY(sq)) == sq
  {
  }
}
