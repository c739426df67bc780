/** The parts of the engine's `Position` that move generation reads.
    `position.hpp` is not part of this model: a position is the board array,
    one bitboard per piece type, the white and black occupancy bitboards,
    the side to move and the two king squares.  The hash key that
    `setWhiteMove` also updates is left out. */
module Positions {
  import opened BitBoard
  import opened Pieces

  /** The engine's numeric piece code, the index into `pieceTypeBB`. */
  function PieceIndex(p: Piece): (i: nat)
    ensures i < 13
    ensures i == 0 <==> p == Empty
  {
    match p
    case Empty => 0
    case WKing => 1
    case WQueen => 2
    case WRook => 3
    case WBishop => 4
    case WKnight => 5
    case WPawn => 6
    case BKing => 7
    case BQueen => 8
    case BRook => 9
    case BBishop => 10
    case BKnight => 11
    case BPawn => 12
  }

  /** Distinct pieces have distinct codes. */
  lemma PieceIndexInjective(p: Piece, q: Piece)
    ensures PieceIndex(p) == PieceIndex(q) <==> p == q
  {
  }

  /** The 64-entry board array. */
  type Board = b: seq<Piece> | |b| == 64 witness seq(64, _ => Empty)

  /** One bitboard per piece code 0..12 (entry 0, `EMPTY`, is unused). */
  type PieceBitboards = s: seq<U64> | |s| == 13 witness seq(13, _ => 0)

  datatype Position = Position(
    board: Board,
    pieceTypeBB: PieceBitboards,
    whiteBB: U64,
    blackBB: U64,
    whiteMove: bool,
    wKingSq: Square,
    bKingSq: Square)

  /** `pos.pieceTypeBB[p]`. */
  function PieceBB(pos: Position, p: Piece): U64 {
    pos.pieceTypeBB[PieceIndex(p)]
  }

  /** Each piece bitboard holds exactly the squares of that piece. */
  predicate PiecesMatch(pos: Position) {
    forall p: Piece, sq: Square {:trigger Has(PieceBB(pos, p), sq)} ::
      p != Empty ==> (Has(PieceBB(pos, p), sq) <==> pos.board[sq] == p)
  }

  /** The colour bitboards hold exactly the squares of each colour. */
  predicate ColoursMatch(pos: Position) {
    (forall sq: Square {:trigger Has(pos.whiteBB, sq)} :: Has(pos.whiteBB, sq) <==> IsWhite(pos.board[sq])) &&
    (forall sq: Square {:trigger Has(pos.blackBB, sq)} :: Has(pos.blackBB, sq) <==> IsBlack(pos.board[sq]))
  }

  /** The bitboards describe the board array and the king squares hold the
      kings. */
  predicate Consistent(pos: Position) {
    PiecesMatch(pos) && ColoursMatch(pos) &&
    pos.board[pos.wKingSq] == WKing && pos.board[pos.bKingSq] == BKing
  }

  /** `Position::getPiece`. */
  function GetPiece(pos: Position, sq: Square): Piece
  {
    pos.board[sq]
  }

  /** `Position::getKingSq(white)`: the square of that side's king. */
  function GetKingSq(pos: Position, white: bool): (sq: Square)
    ensures Consistent(pos) ==> GetPiece(pos, sq) == (if white then WKing else BKing)
  {
    if white then pos.wKingSq else pos.bKingSq
  }

  /** `Position::setWhiteMove`: only the side to move changes. */
  function SetWhiteMove(pos: Position, white: bool): (r: Position)
    ensures r.whiteMove == white
    ensures r.(whiteMove := pos.whiteMove) == pos
    ensures Consistent(r) <==> Consistent(pos)
  {
    SideToMoveIrrelevant(pos, white);
    pos.(whiteMove := white)
  }

  /** Consistency does not depend on the side to move. */
  lemma SideToMoveIrrelevant(pos: Position, white: bool)
    ensures Consistent(pos.(whiteMove := white)) <==> Consistent(pos)
  {
    var r := pos.(whiteMove := white);
    forall p: Piece
      ensures PieceBB(r, p) == PieceBB(pos, p)
    {
    }
  }

  /** A square is in the union of a white and a black mask that hold
      exactly the white and the black pieces when it is not empty. */
  lemma UnionOfColours(w: U64, b: U64, p: Piece, sq: Square)
    requires Has(w, sq) <==> IsWhite(p)
    requires Has(b, sq) <==> IsBlack(p)
    ensures Has(w | b, sq) <==> p != Empty
  {
    HasOr(w, b, sq);
    ColourPartition(p);
  }

  /** In a consistent position the union of the colour bitboards holds
      exactly the occupied squares. */
  lemma OccupiedSquares(pos: Position, sq: Square)
    requires Consistent(pos)
    ensures Has(pos.whiteBB | pos.blackBB, sq) <==> pos.board[sq] != Empty
  {
    UnionOfColours(pos.whiteBB, pos.blackBB, pos.board[sq], sq);
  }
}
