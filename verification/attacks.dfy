/** Attack tables, defined geometrically.

    `BitBoard::knightAttacks`, `kingAttacks`, `wPawnAttacks`, `bPawnAttacks`,
    `bishopAttacks` and `rookAttacks` are not part of this model: the engine
    fills them once at start-up from precomputed data and magic bitboards.
    Move generation receives them here as an `AttackTables` value, and
    `Geometric` states what they hold: the mask of the squares a piece on
    `sq` reaches, by board geometry (file/rank distances for the leapers
    and pawns, a walk along each ray that stops at the first occupied
    square for the sliders).  `StandardTables` shows such tables exist. */
module Attacks {
  import opened BitBoard
  import opened Pieces

  function Abs(a: int): nat {
    if a < 0 then -a else a
  }

  predicate OnBoard(x: int, y: int) {
    0 <= x < 8 && 0 <= y < 8
  }

  /** Is the square at file `x`, rank `y` on the board and in `occ`? */
  predicate HasXY(occ: U64, x: int, y: int) {
    OnBoard(x, y) && Has(occ, GetSquare(x, y))
  }

  /** A knight on `a` attacks `b`. */
  predicate KnightStep(a: Square, b: Square) {
    var dx := Abs(GetX(b) - GetX(a));
    var dy := Abs(GetY(b) - GetY(a));
    (dx == 1 && dy == 2) || (dx == 2 && dy == 1)
  }

  /** A king on `a` attacks `b`. */
  predicate KingStep(a: Square, b: Square) {
    a != b && Abs(GetX(b) - GetX(a)) <= 1 && Abs(GetY(b) - GetY(a)) <= 1
  }

  /** A white pawn on `a` attacks `b` (one rank up, one file aside). */
  predicate WPawnStep(a: Square, b: Square) {
    GetY(b) == GetY(a) + 1 && Abs(GetX(b) - GetX(a)) == 1
  }

  /** A black pawn on `a` attacks `b` (one rank down, one file aside). */
  predicate BPawnStep(a: Square, b: Square) {
    GetY(b) == GetY(a) - 1 && Abs(GetX(b) - GetX(a)) == 1
  }

  /** Coordinate `c` moved `i` steps in direction `d` (-1, 0 or 1). */
  function Step(c: int, d: int, i: int): int {
    if d == 1 then c + i else if d == -1 then c - i else c
  }

  predicate IsUnit(d: int) {
    d == -1 || d == 0 || d == 1
  }

  /** A slider on `a` moving in direction (`dx`, `dy`) reaches `b`: `b` lies
      `n` steps away on that ray and the `n - 1` squares before it are not
      in `occ`.  `b` itself may be occupied (a capture). */
  predicate SlidesTo(a: Square, b: Square, dx: int, dy: int, occ: U64) {
    exists n | 1 <= n < 8 ::
      Step(GetX(a), dx, n) == GetX(b) && Step(GetY(a), dy, n) == GetY(b) &&
      forall i | 1 <= i < n :: !HasXY(occ, Step(GetX(a), dx, i), Step(GetY(a), dy, i))
  }

  predicate DiagonalReach(a: Square, b: Square, occ: U64) {
    SlidesTo(a, b, 1, 1, occ) || SlidesTo(a, b, -1, 1, occ) ||
    SlidesTo(a, b, 1, -1, occ) || SlidesTo(a, b, -1, -1, occ)
  }

  predicate OrthogonalReach(a: Square, b: Square, occ: U64) {
    SlidesTo(a, b, 1, 0, occ) || SlidesTo(a, b, -1, 0, occ) ||
    SlidesTo(a, b, 0, 1, occ) || SlidesTo(a, b, 0, -1, occ)
  }

  // ---------------------------------------------------------------------
  // What a table holds: the squares one step of the piece away from `sq`.

  predicate KnightTable(table: U64, sq: Square) {
    forall t: Square {:trigger Has(table, t)} :: Has(table, t) <==> KnightStep(sq, t)
  }

  predicate KingTable(table: U64, sq: Square) {
    forall t: Square {:trigger Has(table, t)} :: Has(table, t) <==> KingStep(sq, t)
  }

  /** The squares a pawn of colour `white` on `sq` attacks. */
  predicate PawnTable(table: U64, sq: Square, white: bool) {
    forall t: Square {:trigger Has(table, t)} :: Has(table, t) <==>
      if white then WPawnStep(sq, t) else BPawnStep(sq, t)
  }

  predicate DiagonalTable(table: U64, sq: Square, occ: U64) {
    forall t: Square {:trigger Has(table, t)} :: Has(table, t) <==> DiagonalReach(sq, t, occ)
  }

  predicate OrthogonalTable(table: U64, sq: Square, occ: U64) {
    forall t: Square {:trigger Has(table, t)} :: Has(table, t) <==> OrthogonalReach(sq, t, occ)
  }

  function KnightAttacks(sq: Square): (r: U64)
    ensures KnightTable(r, sq)
  {
    FromPred((t: Square) => KnightStep(sq, t))
  }

  function KingAttacks(sq: Square): (r: U64)
    ensures KingTable(r, sq)
  {
    FromPred((t: Square) => KingStep(sq, t))
  }

  function WPawnAttacks(sq: Square): (r: U64)
    ensures PawnTable(r, sq, true)
  {
    FromPred((t: Square) => WPawnStep(sq, t))
  }

  function BPawnAttacks(sq: Square): (r: U64)
    ensures PawnTable(r, sq, false)
  {
    FromPred((t: Square) => BPawnStep(sq, t))
  }

  function BishopAttacks(sq: Square, occ: U64): (r: U64)
    ensures DiagonalTable(r, sq, occ)
  {
    FromPred((t: Square) => DiagonalReach(sq, t, occ))
  }

  function RookAttacks(sq: Square, occ: U64): (r: U64)
    ensures OrthogonalTable(r, sq, occ)
  {
    FromPred((t: Square) => OrthogonalReach(sq, t, occ))
  }

  // ---------------------------------------------------------------------
  // Symmetry: a table looked up from the target square finds the attackers.

  lemma KnightSymmetric(a: Square, b: Square)
    ensures KnightStep(a, b) <==> KnightStep(b, a)
  {
  }

  lemma KingSymmetric(a: Square, b: Square)
    ensures KingStep(a, b) <==> KingStep(b, a)
  {
  }

  /** A black pawn on `b` attacks `a` exactly when a white pawn on `a` would
      attack `b`, and the other way round. */
  lemma PawnMirror(a: Square, b: Square)
    ensures WPawnStep(a, b) <==> BPawnStep(b, a)
  {
  }

  /** Walking a ray backwards from its end visits the same squares. */
  lemma SlidesToReverse(a: Square, b: Square, dx: int, dy: int, occ: U64)
    requires IsUnit(dx) && IsUnit(dy)
    requires SlidesTo(a, b, dx, dy, occ)
    ensures SlidesTo(b, a, -dx, -dy, occ)
  {
    var n :| 1 <= n < 8 &&
      Step(GetX(a), dx, n) == GetX(b) && Step(GetY(a), dy, n) == GetY(b) &&
      forall i | 1 <= i < n :: !HasXY(occ, Step(GetX(a), dx, i), Step(GetY(a), dy, i));
    var xb, yb, ex, ey := GetX(b), GetY(b), -dx, -dy;
    assert Step(xb, ex, n) == GetX(a);
    assert Step(yb, ey, n) == GetY(a);
    forall i | 1 <= i < n
      ensures !HasXY(occ, Step(xb, ex, i), Step(yb, ey, i))
    {
      assert Step(xb, ex, i) == Step(GetX(a), dx, n - i);
      assert Step(yb, ey, i) == Step(GetY(a), dy, n - i);
    }
  }

  lemma SlidesToSymmetric(a: Square, b: Square, dx: int, dy: int, occ: U64)
    requires IsUnit(dx) && IsUnit(dy)
    ensures SlidesTo(a, b, dx, dy, occ) <==> SlidesTo(b, a, -dx, -dy, occ)
  {
    if SlidesTo(a, b, dx, dy, occ) {
      SlidesToReverse(a, b, dx, dy, occ);
    }
    if SlidesTo(b, a, -dx, -dy, occ) {
      SlidesToReverse(b, a, -dx, -dy, occ);
    }
  }

  lemma DiagonalSymmetric(a: Square, b: Square, occ: U64)
    ensures DiagonalReach(a, b, occ) <==> DiagonalReach(b, a, occ)
  {
    SlidesToSymmetric(a, b, 1, 1, occ);
    SlidesToSymmetric(a, b, -1, 1, occ);
    SlidesToSymmetric(a, b, 1, -1, occ);
    SlidesToSymmetric(a, b, -1, -1, occ);
  }

  lemma OrthogonalSymmetric(a: Square, b: Square, occ: U64)
    ensures OrthogonalReach(a, b, occ) <==> OrthogonalReach(b, a, occ)
  {
    SlidesToSymmetric(a, b, 1, 0, occ);
    SlidesToSymmetric(a, b, -1, 0, occ);
    SlidesToSymmetric(a, b, 0, 1, occ);
    SlidesToSymmetric(a, b, 0, -1, occ);
  }

  // ---------------------------------------------------------------------
  // The tables move generation reads.

  /** One mask per square. */
  type Table = s: seq<U64> | |s| == 64 witness seq(64, _ => 0)

  /** The leaper and pawn tables indexed by square, and the two slider
      lookups, which also depend on the occupied squares. */
  datatype AttackTables = AttackTables(
    knight: Table,
    king: Table,
    wPawn: Table,
    bPawn: Table,
    bishop: (Square, U64) -> U64,
    rook: (Square, U64) -> U64)

  /** Every entry holds exactly the squares the piece reaches. */
  ghost predicate Geometric(t: AttackTables) {
    (forall sq: Square :: KnightTable(t.knight[sq], sq)) &&
    (forall sq: Square :: KingTable(t.king[sq], sq)) &&
    (forall sq: Square :: PawnTable(t.wPawn[sq], sq, true)) &&
    (forall sq: Square :: PawnTable(t.bPawn[sq], sq, false)) &&
    (forall sq: Square, occ: U64 :: DiagonalTable(t.bishop(sq, occ), sq, occ)) &&
    (forall sq: Square, occ: U64 :: OrthogonalTable(t.rook(sq, occ), sq, occ))
  }

  /** The tables built from the geometric definitions. */
  function StandardTables(): (t: AttackTables)
    ensures Geometric(t)
  {
    AttackTables(
      seq(64, i requires 0 <= i < 64 => KnightAttacks(i)),
      seq(64, i requires 0 <= i < 64 => KingAttacks(i)),
      seq(64, i requires 0 <= i < 64 => WPawnAttacks(i)),
      seq(64, i requires 0 <= i < 64 => BPawnAttacks(i)),
      (sq: Square, occ: U64) => BishopAttacks(sq, occ),
      (sq: Square, occ: U64) => RookAttacks(sq, occ))
  }
}
