/** `MoveGen::sqAttacked` (all three overloads), `inCheck` and
    `canTakeKing`.  The bitboard test is an OR of five intersections of an
    attack table looked up from the target square with the opponent's piece
    bitboards; it is proved equivalent to the board-level statement "some
    enemy piece attacks the square". */
module AttackTest {
  import opened BitBoard
  import opened Pieces
  import opened Positions
  import opened Attacks

  /** The body of `sqAttacked<wtm>`: return true at the first of the five
      intersections (knight, king, pawn, diagonal slider, orthogonal slider
      table against the matching piece bitboard) that is non-empty. */
  predicate AnyHit(knightTable: U64, knights: U64, kingTable: U64, kings: U64,
                   pawnTable: U64, pawns: U64, bishopTable: U64, diag: U64,
                   rookTable: U64, orth: U64)
  {
    if knightTable & knights != 0 then true
    else if kingTable & kings != 0 then true
    else if pawnTable & pawns != 0 then true
    else if bishopTable & diag != 0 then true
    else if rookTable & orth != 0 then true
    else false
  }

  /** Returning at the first hit is the same as asking whether any of the
      five intersections is non-empty. */
  lemma AnyHitIsOr(knightTable: U64, knights: U64, kingTable: U64, kings: U64,
                   pawnTable: U64, pawns: U64, bishopTable: U64, diag: U64,
                   rookTable: U64, orth: U64)
    ensures AnyHit(knightTable, knights, kingTable, kings, pawnTable, pawns, bishopTable, diag, rookTable, orth)
      <==> (knightTable & knights != 0 || kingTable & kings != 0 || pawnTable & pawns != 0 ||
            bishopTable & diag != 0 || rookTable & orth != 0)
  {
  }

  /** The body of `sqAttacked<wtm>` once the six bitboards of the attacking
      side are looked up: with white to move (`wtm`) the attackers are black
      and are found with the white-pawn table, otherwise the black-pawn table
      finds the white pawns.  The sliders are blocked by the squares of
      `occupied`; the queen bitboard joins both slider terms. */
  predicate AttackedBy(tables: AttackTables, sq: Square, occupied: U64, wtm: bool,
                       knights: U64, kings: U64, pawns: U64, bishops: U64, rooks: U64, bbQueen: U64)
  {
    AnyHit(tables.knight[sq], knights, tables.king[sq], kings,
           if wtm then tables.wPawn[sq] else tables.bPawn[sq], pawns,
           tables.bishop(sq, occupied), bishops | bbQueen,
           tables.rook(sq, occupied), rooks | bbQueen)
  }

  /** `sqAttacked<wtm>(pos, sq, occupied)`: the attackers are the pieces of
      the side not to move. */
  predicate SqAttackedWtm(tables: AttackTables, pos: Position, sq: Square, occupied: U64, wtm: bool) {
    if wtm then
      AttackedBy(tables, sq, occupied, wtm, PieceBB(pos, BKnight), PieceBB(pos, BKing), PieceBB(pos, BPawn),
                 PieceBB(pos, BBishop), PieceBB(pos, BRook), PieceBB(pos, BQueen))
    else
      AttackedBy(tables, sq, occupied, wtm, PieceBB(pos, WKnight), PieceBB(pos, WKing), PieceBB(pos, WPawn),
                 PieceBB(pos, WBishop), PieceBB(pos, WRook), PieceBB(pos, WQueen))
  }

  // ---------------------------------------------------------------------
  // The board-level reference.

  /** Does piece `p` standing on `from` attack `target`, with `occ` blocking
      the sliders? */
  predicate PieceAttacks(p: Piece, from: Square, target: Square, occ: U64) {
    match p
    case Empty => false
    case WKnight => KnightStep(from, target)
    case BKnight => KnightStep(from, target)
    case WKing => KingStep(from, target)
    case BKing => KingStep(from, target)
    case WPawn => WPawnStep(from, target)
    case BPawn => BPawnStep(from, target)
    case WBishop => DiagonalReach(from, target, occ)
    case BBishop => DiagonalReach(from, target, occ)
    case WRook => OrthogonalReach(from, target, occ)
    case BRook => OrthogonalReach(from, target, occ)
    case WQueen => DiagonalReach(from, target, occ) || OrthogonalReach(from, target, occ)
    case BQueen => DiagonalReach(from, target, occ) || OrthogonalReach(from, target, occ)
  }

  /** `mask` holds exactly the squares where `p` stands. */
  predicate Holds(mask: U64, board: Board, p: Piece) {
    forall t: Square {:trigger Has(mask, t)} :: Has(mask, t) <==> board[t] == p
  }

  /** `mask` holds exactly the squares where `p` or `q` stands. */
  predicate HoldsEither(mask: U64, board: Board, p: Piece, q: Piece) {
    forall t: Square {:trigger Has(mask, t)} :: Has(mask, t) <==> board[t] == p || board[t] == q
  }

  /** The opponent of the side to move: black when white is to move. */
  predicate Enemy(p: Piece, wtm: bool) {
    if wtm then IsBlack(p) else IsWhite(p)
  }

  /** Some enemy piece on `board` attacks `sq`. */
  predicate AttackedOn(board: Board, sq: Square, occ: U64, wtm: bool) {
    exists t: Square :: Enemy(board[t], wtm) && PieceAttacks(board[t], t, sq, occ)
  }

  /** The six kinds of piece of one side. */
  datatype Army = Army(knight: Piece, king: Piece, pawn: Piece, bishop: Piece, rook: Piece, queen: Piece)

  /** The pieces that attack the side to move: black when white is to move. */
  predicate IsEnemyArmy(a: Army, wtm: bool) {
    a == if wtm then Army(BKnight, BKing, BPawn, BBishop, BRook, BQueen)
         else Army(WKnight, WKing, WPawn, WBishop, WRook, WQueen)
  }

  /** The enemy pieces are exactly the six pieces of the enemy army. */
  lemma EnemyKinds(a: Army, wtm: bool, p: Piece)
    requires IsEnemyArmy(a, wtm)
    ensures Enemy(p, wtm) <==>
      p == a.knight || p == a.king || p == a.pawn || p == a.bishop || p == a.rook || p == a.queen
  {
  }

  /** The pieces `knight` (`king`, `pawn`, ...) that attack `sq`. */
  predicate KnightAttacker(board: Board, sq: Square, knight: Piece) {
    exists t: Square :: board[t] == knight && KnightStep(t, sq)
  }

  predicate KingAttacker(board: Board, sq: Square, king: Piece) {
    exists t: Square :: board[t] == king && KingStep(t, sq)
  }

  predicate PawnAttacker(board: Board, sq: Square, wtm: bool, pawn: Piece) {
    exists t: Square :: board[t] == pawn && (if wtm then BPawnStep(t, sq) else WPawnStep(t, sq))
  }

  predicate DiagonalAttacker(board: Board, sq: Square, occ: U64, bishop: Piece, queen: Piece) {
    exists t: Square :: (board[t] == bishop || board[t] == queen) && DiagonalReach(t, sq, occ)
  }

  predicate OrthogonalAttacker(board: Board, sq: Square, occ: U64, rook: Piece, queen: Piece) {
    exists t: Square :: (board[t] == rook || board[t] == queen) && OrthogonalReach(t, sq, occ)
  }

  /** Some attacker of one of the five kinds of army `a`. */
  predicate SomeKindAttacks(board: Board, sq: Square, occ: U64, wtm: bool, a: Army) {
    KnightAttacker(board, sq, a.knight) || KingAttacker(board, sq, a.king) ||
    PawnAttacker(board, sq, wtm, a.pawn) ||
    DiagonalAttacker(board, sq, occ, a.bishop, a.queen) ||
    OrthogonalAttacker(board, sq, occ, a.rook, a.queen)
  }

  // ---------------------------------------------------------------------
  // One intersection at a time.  Each lemma is stated for any board, any
  // attack table described square by square, and any mask that holds
  // exactly the squares of the pieces in question.

  /** The knight intersection finds the knights attacking `sq`. */
  lemma KnightTerm(board: Board, table: U64, knights: U64, sq: Square, knight: Piece)
    requires KnightTable(table, sq)
    requires Holds(knights, board, knight)
    ensures table & knights != 0 <==> KnightAttacker(board, sq, knight)
  {
    if table & knights != 0 {
      var t := CommonSquare(table, knights);
      KnightSymmetric(sq, t);
    }
    if exists t: Square :: board[t] == knight && KnightStep(t, sq) {
      var t: Square :| board[t] == knight && KnightStep(t, sq);
      KnightSymmetric(sq, t);
      MeetOf(table, knights, t);
    }
  }

  /** The king intersection finds the king if it is next to `sq`. */
  lemma KingTerm(board: Board, table: U64, kings: U64, sq: Square, king: Piece)
    requires KingTable(table, sq)
    requires Holds(kings, board, king)
    ensures table & kings != 0 <==> KingAttacker(board, sq, king)
  {
    if table & kings != 0 {
      var t := CommonSquare(table, kings);
      KingSymmetric(sq, t);
    }
    if exists t: Square :: board[t] == king && KingStep(t, sq) {
      var t: Square :| board[t] == king && KingStep(t, sq);
      KingSymmetric(sq, t);
      MeetOf(table, kings, t);
    }
  }

  /** The pawn intersection: a white pawn's table read from `sq` finds the
      black pawns attacking `sq`, and a black pawn's table the white ones. */
  lemma PawnTerm(board: Board, table: U64, pawns: U64, sq: Square, wtm: bool, pawn: Piece)
    requires pawn == if wtm then BPawn else WPawn
    requires PawnTable(table, sq, wtm)
    requires Holds(pawns, board, pawn)
    ensures table & pawns != 0 <==> PawnAttacker(board, sq, wtm, pawn)
  {
    if table & pawns != 0 {
      var t := CommonSquare(table, pawns);
      PawnMirror(sq, t);
      PawnMirror(t, sq);
    }
    if exists t: Square :: board[t] == pawn && (if wtm then BPawnStep(t, sq) else WPawnStep(t, sq)) {
      var t: Square :| board[t] == pawn && (if wtm then BPawnStep(t, sq) else WPawnStep(t, sq));
      PawnMirror(sq, t);
      PawnMirror(t, sq);
      MeetOf(table, pawns, t);
    }
  }

  /** The diagonal intersection, over the bishops and queens of one side. */
  lemma DiagonalTerm(board: Board, table: U64, sliders: U64, sq: Square, occ: U64, bishop: Piece, queen: Piece)
    requires DiagonalTable(table, sq, occ)
    requires HoldsEither(sliders, board, bishop, queen)
    ensures table & sliders != 0 <==> DiagonalAttacker(board, sq, occ, bishop, queen)
  {
    if table & sliders != 0 {
      var t := CommonSquare(table, sliders);
      DiagonalSymmetric(sq, t, occ);
    }
    if exists t: Square :: (board[t] == bishop || board[t] == queen) && DiagonalReach(t, sq, occ) {
      var t: Square :| (board[t] == bishop || board[t] == queen) && DiagonalReach(t, sq, occ);
      DiagonalSymmetric(sq, t, occ);
      MeetOf(table, sliders, t);
    }
  }

  /** The orthogonal intersection, over the rooks and queens of one side. */
  lemma OrthogonalTerm(board: Board, table: U64, sliders: U64, sq: Square, occ: U64, rook: Piece, queen: Piece)
    requires OrthogonalTable(table, sq, occ)
    requires HoldsEither(sliders, board, rook, queen)
    ensures table & sliders != 0 <==> OrthogonalAttacker(board, sq, occ, rook, queen)
  {
    if table & sliders != 0 {
      var t := CommonSquare(table, sliders);
      OrthogonalSymmetric(sq, t, occ);
    }
    if exists t: Square :: (board[t] == rook || board[t] == queen) && OrthogonalReach(t, sq, occ) {
      var t: Square :| (board[t] == rook || board[t] == queen) && OrthogonalReach(t, sq, occ);
      OrthogonalSymmetric(sq, t, occ);
      MeetOf(table, sliders, t);
    }
  }

  // ---------------------------------------------------------------------
  // From the five kinds of attacker to "some enemy piece".

  /** An enemy attacker is of one of the five kinds. */
  lemma AttackerHasKind(board: Board, sq: Square, occ: U64, wtm: bool, a: Army)
    requires IsEnemyArmy(a, wtm) && AttackedOn(board, sq, occ, wtm)
    ensures SomeKindAttacks(board, sq, occ, wtm, a)
  {
    var t: Square :| Enemy(board[t], wtm) && PieceAttacks(board[t], t, sq, occ);
    EnemyKinds(a, wtm, board[t]);
  }

  /** An attacker of any of the five kinds is an enemy attacker. */
  lemma KindIsAttacker(board: Board, sq: Square, occ: U64, wtm: bool, a: Army)
    requires IsEnemyArmy(a, wtm) && SomeKindAttacks(board, sq, occ, wtm, a)
    ensures AttackedOn(board, sq, occ, wtm)
  {
    var t: Square;
    if KnightAttacker(board, sq, a.knight) {
      t :| board[t] == a.knight && KnightStep(t, sq);
    } else if KingAttacker(board, sq, a.king) {
      t :| board[t] == a.king && KingStep(t, sq);
    } else if PawnAttacker(board, sq, wtm, a.pawn) {
      t :| board[t] == a.pawn && (if wtm then BPawnStep(t, sq) else WPawnStep(t, sq));
    } else if DiagonalAttacker(board, sq, occ, a.bishop, a.queen) {
      t :| (board[t] == a.bishop || board[t] == a.queen) && DiagonalReach(t, sq, occ);
    } else {
      t :| (board[t] == a.rook || board[t] == a.queen) && OrthogonalReach(t, sq, occ);
    }
    assert Enemy(board[t], wtm) && PieceAttacks(board[t], t, sq, occ);
  }

  /** The attackers of the five kinds are exactly the enemy attackers. */
  lemma KindsAreAttackers(board: Board, sq: Square, occ: U64, wtm: bool, a: Army)
    requires IsEnemyArmy(a, wtm)
    ensures SomeKindAttacks(board, sq, occ, wtm, a) <==> AttackedOn(board, sq, occ, wtm)
  {
    if AttackedOn(board, sq, occ, wtm) {
      AttackerHasKind(board, sq, occ, wtm, a);
    }
    if SomeKindAttacks(board, sq, occ, wtm, a) {
      KindIsAttacker(board, sq, occ, wtm, a);
    }
  }

  /** The five intersections, for any tables that describe the attack
      geometry of `sq` and any masks that hold exactly the enemy pieces of
      each kind, find exactly the attacked squares. */
  lemma IntersectionsFindAttackers(board: Board, sq: Square, occ: U64, wtm: bool,
                                   knight: Piece, king: Piece, pawn: Piece,
                                   bishop: Piece, rook: Piece, queen: Piece,
                                   knightTable: U64, kingTable: U64, pawnTable: U64,
                                   bishopTable: U64, rookTable: U64,
                                   knights: U64, kings: U64, pawns: U64, diag: U64, orth: U64)
    requires IsEnemyArmy(Army(knight, king, pawn, bishop, rook, queen), wtm)
    requires KnightTable(knightTable, sq)
    requires KingTable(kingTable, sq)
    requires PawnTable(pawnTable, sq, wtm)
    requires DiagonalTable(bishopTable, sq, occ)
    requires OrthogonalTable(rookTable, sq, occ)
    requires Holds(knights, board, knight)
    requires Holds(kings, board, king)
    requires Holds(pawns, board, pawn)
    requires HoldsEither(diag, board, bishop, queen)
    requires HoldsEither(orth, board, rook, queen)
    ensures AnyHit(knightTable, knights, kingTable, kings, pawnTable, pawns, bishopTable, diag, rookTable, orth)
            <==> AttackedOn(board, sq, occ, wtm)
  {
    var a := Army(knight, king, pawn, bishop, rook, queen);
    AnyHitIsOr(knightTable, knights, kingTable, kings, pawnTable, pawns, bishopTable, diag, rookTable, orth);
    KnightTerm(board, knightTable, knights, sq, knight);
    KingTerm(board, kingTable, kings, sq, king);
    PawnTerm(board, pawnTable, pawns, sq, wtm, pawn);
    DiagonalTerm(board, bishopTable, diag, sq, occ, bishop, queen);
    OrthogonalTerm(board, rookTable, orth, sq, occ, rook, queen);
    KindsAreAttackers(board, sq, occ, wtm, a);
  }

  // ---------------------------------------------------------------------
  // The position-level statements.

  /** The squares of the union of two masks that each hold exactly the
      squares of one piece. */
  lemma UnionSquares(board: Board, m: U64, n: U64, p: Piece, q: Piece)
    requires Holds(m, board, p) && Holds(n, board, q)
    ensures HoldsEither(m | n, board, p, q)
  {
    forall t: Square
      ensures Has(m | n, t) <==> board[t] == p || board[t] == q
    {
      HasOr(m, n, t);
    }
  }

  /** In a position whose piece bitboards match the board, the bitboard of
      a piece holds exactly the squares where that piece stands. */
  lemma MaskOf(pos: Position, p: Piece)
    requires PiecesMatch(pos) && p != Empty
    ensures Holds(PieceBB(pos, p), pos.board, p)
  {
  }

  /** The body of `sqAttacked<wtm>`, for any board and any six bitboards
      that hold exactly the pieces of the attacking army, finds exactly the
      attacked squares. */
  lemma AttackedByMeaning(tables: AttackTables, board: Board, sq: Square, occ: U64, wtm: bool,
                          knight: Piece, king: Piece, pawn: Piece, bishop: Piece, rook: Piece, queen: Piece,
                          knights: U64, kings: U64, pawns: U64, bishops: U64, rooks: U64, queens: U64)
    requires Geometric(tables)
    requires IsEnemyArmy(Army(knight, king, pawn, bishop, rook, queen), wtm)
    requires Holds(knights, board, knight)
    requires Holds(kings, board, king)
    requires Holds(pawns, board, pawn)
    requires Holds(bishops, board, bishop)
    requires Holds(rooks, board, rook)
    requires Holds(queens, board, queen)
    ensures AttackedBy(tables, sq, occ, wtm, knights, kings, pawns, bishops, rooks, queens) <==>
      AttackedOn(board, sq, occ, wtm)
  {
    UnionSquares(board, bishops, queens, bishop, queen);
    UnionSquares(board, rooks, queens, rook, queen);
    var pawnTable := if wtm then tables.wPawn[sq] else tables.bPawn[sq];
    assert PawnTable(pawnTable, sq, wtm);
    IntersectionsFindAttackers(board, sq, occ, wtm, knight, king, pawn, bishop, rook, queen,
      tables.knight[sq], tables.king[sq], pawnTable, tables.bishop(sq, occ), tables.rook(sq, occ),
      knights, kings, pawns, bishops | queens, rooks | queens);
  }

  /** The six bitboards of the black pieces. */
  lemma BlackMasks(pos: Position)
    requires PiecesMatch(pos)
    ensures Holds(PieceBB(pos, BKnight), pos.board, BKnight) && Holds(PieceBB(pos, BKing), pos.board, BKing)
    ensures Holds(PieceBB(pos, BPawn), pos.board, BPawn) && Holds(PieceBB(pos, BBishop), pos.board, BBishop)
    ensures Holds(PieceBB(pos, BRook), pos.board, BRook) && Holds(PieceBB(pos, BQueen), pos.board, BQueen)
  {
    MaskOf(pos, BKnight); MaskOf(pos, BKing); MaskOf(pos, BPawn);
    MaskOf(pos, BBishop); MaskOf(pos, BRook); MaskOf(pos, BQueen);
  }

  /** With white to move, the black pieces attack. */
  lemma BlackAttackers(tables: AttackTables, pos: Position, sq: Square, occ: U64)
    requires Geometric(tables) && PiecesMatch(pos)
    ensures SqAttackedWtm(tables, pos, sq, occ, true) <==> AttackedOn(pos.board, sq, occ, true)
  {
    BlackMasks(pos);
    AttackedByMeaning(tables, pos.board, sq, occ, true, BKnight, BKing, BPawn, BBishop, BRook, BQueen,
      PieceBB(pos, BKnight), PieceBB(pos, BKing), PieceBB(pos, BPawn),
      PieceBB(pos, BBishop), PieceBB(pos, BRook), PieceBB(pos, BQueen));
  }

  /** The six bitboards of the white pieces. */
  lemma WhiteMasks(pos: Position)
    requires PiecesMatch(pos)
    ensures Holds(PieceBB(pos, WKnight), pos.board, WKnight) && Holds(PieceBB(pos, WKing), pos.board, WKing)
    ensures Holds(PieceBB(pos, WPawn), pos.board, WPawn) && Holds(PieceBB(pos, WBishop), pos.board, WBishop)
    ensures Holds(PieceBB(pos, WRook), pos.board, WRook) && Holds(PieceBB(pos, WQueen), pos.board, WQueen)
  {
    MaskOf(pos, WKnight); MaskOf(pos, WKing); MaskOf(pos, WPawn);
    MaskOf(pos, WBishop); MaskOf(pos, WRook); MaskOf(pos, WQueen);
  }

  /** With black to move, the white pieces attack. */
  lemma WhiteAttackers(tables: AttackTables, pos: Position, sq: Square, occ: U64)
    requires Geometric(tables) && PiecesMatch(pos)
    ensures SqAttackedWtm(tables, pos, sq, occ, false) <==> AttackedOn(pos.board, sq, occ, false)
  {
    WhiteMasks(pos);
    AttackedByMeaning(tables, pos.board, sq, occ, false, WKnight, WKing, WPawn, WBishop, WRook, WQueen,
      PieceBB(pos, WKnight), PieceBB(pos, WKing), PieceBB(pos, WPawn),
      PieceBB(pos, WBishop), PieceBB(pos, WRook), PieceBB(pos, WQueen));
  }

  /** `sqAttacked<wtm>(pos, sq, occupied)` holds exactly when some enemy
      piece attacks `sq`, the sliders being blocked by `occupied`. */
  lemma SqAttackedMeaning(tables: AttackTables, pos: Position, sq: Square, occ: U64, wtm: bool)
    requires Geometric(tables) && PiecesMatch(pos)
    ensures SqAttackedWtm(tables, pos, sq, occ, wtm) <==> AttackedOn(pos.board, sq, occ, wtm)
  {
    if wtm {
      BlackAttackers(tables, pos, sq, occ);
    } else {
      WhiteAttackers(tables, pos, sq, occ);
    }
  }

  /** `SqAttackedMeaning` for any tables and positions. */
  lemma SqAttackedIfMatch(tables: AttackTables, pos: Position, sq: Square, occ: U64, wtm: bool)
    ensures Geometric(tables) && PiecesMatch(pos) ==>
      (SqAttackedWtm(tables, pos, sq, occ, wtm) <==> AttackedOn(pos.board, sq, occ, wtm))
  {
    if Geometric(tables) && PiecesMatch(pos) {
      SqAttackedMeaning(tables, pos, sq, occ, wtm);
    }
  }

  // ---------------------------------------------------------------------
  // The entry points.  When the tables are the geometric ones and the
  // position is consistent, each answers the board-level question.

  /** `sqAttacked(pos, sq, occupied)`: dispatch on the side to move. */
  function SqAttackedOcc(tables: AttackTables, pos: Position, sq: Square, occupied: U64): (r: bool)
    ensures Geometric(tables) && PiecesMatch(pos) ==>
      (r <==> AttackedOn(pos.board, sq, occupied, pos.whiteMove))
  {
    SqAttackedIfMatch(tables, pos, sq, occupied, pos.whiteMove);
    SqAttackedWtm(tables, pos, sq, occupied, pos.whiteMove)
  }

  /** `sqAttacked(pos, sq)`: the blocking squares are all occupied squares
      (see `OccupiedSquares`). */
  function SqAttacked(tables: AttackTables, pos: Position, sq: Square): (r: bool)
    ensures Geometric(tables) && Consistent(pos) ==>
      (r <==> AttackedOn(pos.board, sq, pos.whiteBB | pos.blackBB, pos.whiteMove))
  {
    SqAttackedOcc(tables, pos, sq, pos.whiteBB | pos.blackBB)
  }

  /** `inCheck`: the king of the side to move (on the square `GetKingSq`
      finds) is in check exactly when an enemy piece attacks it. */
  function InCheck(tables: AttackTables, pos: Position): (r: bool)
    ensures Geometric(tables) && Consistent(pos) ==>
      (r <==> AttackedOn(pos.board, GetKingSq(pos, pos.whiteMove), pos.whiteBB | pos.blackBB, pos.whiteMove))
  {
    SqAttacked(tables, pos, GetKingSq(pos, pos.whiteMove))
  }

  /** `canTakeKing`: flips the side to move, asks `inCheck`, and flips it
      back.  The position handed back is the one received, and the answer
      is whether a piece of the side to move attacks the opponent's king. */
  function CanTakeKing(tables: AttackTables, pos: Position): (res: (bool, Position))
    ensures res.1 == pos
    ensures Geometric(tables) && Consistent(pos) ==>
      (res.0 <==> AttackedOn(pos.board, GetKingSq(pos, !pos.whiteMove), pos.whiteBB | pos.blackBB, !pos.whiteMove))
  {
    var flipped := SetWhiteMove(pos, !pos.whiteMove);
    var ret := InCheck(tables, flipped);
    (ret, SetWhiteMove(flipped, !flipped.whiteMove))
  }
}
