/** `MoveGen::nextPiece` and `MoveGen::nextPieceSafe`: walk from a square in
    one direction and return the first piece met. */
module RayWalk {
  import opened BitBoard
  import opened Pieces
  import opened Positions
  import opened Attacks

  /** The eight board directions as square-index offsets. */
  predicate IsDirection(delta: int) {
    delta == 1 || delta == 9 || delta == 8 || delta == 7 ||
    delta == -1 || delta == -9 || delta == -8 || delta == -7
  }

  /** The `switch` of `nextPieceSafe`: the file and rank step of an offset;
      any other offset leaves both at 0. */
  function DirectionOf(delta: int): (d: (int, int))
    ensures IsDirection(delta) <==> d != (0, 0)
    ensures IsUnit(d.0) && IsUnit(d.1)
    ensures IsDirection(delta) ==> delta == d.0 + 8 * d.1
  {
    match delta
    case 1 => (1, 0)
    case 9 => (1, 1)
    case 8 => (0, 1)
    case 7 => (-1, 1)
    case -1 => (-1, 0)
    case -9 => (-1, -1)
    case -8 => (0, -1)
    case -7 => (1, -1)
    case _ => (0, 0)
  }

  /** The square `i` steps from `sq` in direction (`dx`, `dy`) is on the
      board. */
  predicate OnRay(sq: Square, dx: int, dy: int, i: int) {
    OnBoard(Step(GetX(sq), dx, i), Step(GetY(sq), dy, i))
  }

  /** That square. */
  function RaySquare(sq: Square, dx: int, dy: int, i: int): Square
    requires OnRay(sq, dx, dy, i)
  {
    GetSquare(Step(GetX(sq), dx, i), Step(GetY(sq), dy, i))
  }

  /** Once a ray has left the board it does not come back. */
  lemma OffStaysOff(sq: Square, dx: int, dy: int, i: int, j: int)
    requires IsUnit(dx) && IsUnit(dy)
    requires 0 <= i <= j && !OnRay(sq, dx, dy, i)
    ensures !OnRay(sq, dx, dy, j)
  {
  }

  /** A ray in a real direction leaves the board within seven steps. */
  lemma RayLength(sq: Square, dx: int, dy: int, i: int)
    requires IsUnit(dx) && IsUnit(dy) && (dx, dy) != (0, 0)
    requires OnRay(sq, dx, dy, i) && i >= 0
    ensures i < 8
  {
  }

  /** Every on-board square of the ray from `sq` is empty. */
  predicate RayEmpty(board: Board, sq: Square, dx: int, dy: int) {
    forall i | 1 <= i < 8 && OnRay(sq, dx, dy, i) :: board[RaySquare(sq, dx, dy, i)] == Empty
  }

  /** `p` is the first piece on the ray from `sq`, `n` steps away. */
  predicate FirstOnRay(board: Board, sq: Square, dx: int, dy: int, n: int, p: Piece) {
    1 <= n < 8 && OnRay(sq, dx, dy, n) && p != Empty && board[RaySquare(sq, dx, dy, n)] == p &&
    forall i | 1 <= i < n :: OnRay(sq, dx, dy, i) && board[RaySquare(sq, dx, dy, i)] == Empty
  }

  /** The first piece on a ray is unique, and a ray with a first piece is
      not empty: the contract of `NextPieceSafe` determines its answer. */
  lemma FirstOnRayUnique(board: Board, sq: Square, dx: int, dy: int, n: int, p: Piece, m: int, q: Piece)
    requires FirstOnRay(board, sq, dx, dy, n, p)
    ensures FirstOnRay(board, sq, dx, dy, m, q) ==> n == m && p == q
    ensures !RayEmpty(board, sq, dx, dy)
  {
  }

  /** `nextPieceSafe(pos, sq, delta)`: step file and rank until the walk
      leaves the board (the answer is `EMPTY`) or meets a piece (the answer
      is that piece).  The engine only passes the eight directions; for any
      other offset both steps are 0 and the walk would not terminate on an
      empty square, so the model requires a direction. */
  method NextPieceSafe(pos: Position, sq: Square, delta: int) returns (p: Piece)
    requires IsDirection(delta)
    ensures var d := DirectionOf(delta);
      (p == Empty <==> RayEmpty(pos.board, sq, d.0, d.1)) &&
      (p != Empty ==> exists n :: FirstOnRay(pos.board, sq, d.0, d.1, n, p))
  {
    var d := DirectionOf(delta);
    var dx, dy := d.0, d.1;
    var x, y := GetX(sq), GetY(sq);
    var i := 0;
    while true
      invariant 0 <= i < 8
      invariant x == Step(GetX(sq), dx, i) && y == Step(GetY(sq), dy, i)
      invariant forall j | 1 <= j <= i :: OnRay(sq, dx, dy, j) && pos.board[RaySquare(sq, dx, dy, j)] == Empty
      decreases 8 - i
    {
      x := x + dx;
      y := y + dy;
      i := i + 1;
      if x < 0 || x > 7 || y < 0 || y > 7 {
        forall j | 1 <= j < 8 && OnRay(sq, dx, dy, j)
          ensures pos.board[RaySquare(sq, dx, dy, j)] == Empty
        {
          if j >= i {
            OffStaysOff(sq, dx, dy, i, j);
          }
        }
        return Empty;
      }
      p := pos.board[GetSquare(x, y)];
      if p != Empty {
        assert FirstOnRay(pos.board, sq, dx, dy, i, p);
        return p;
      }
      RayLength(sq, dx, dy, i);
    }
  }

  /** The square index `k` offsets of `delta` from `sq`. */
  function IndexStep(sq: int, delta: int, k: int): int {
    sq + k * delta
  }

  /** `nextPiece(pos, sq, delta)`: add `delta` to the square index until a
      piece is met, with no check of the board edges.  The caller promises
      (`n`) that a piece is met after at most `n` steps whose indices all
      lie on the board; the answer is the first piece met. */
  method NextPiece(pos: Position, sq: Square, delta: int, ghost n: nat) returns (p: Piece)
    requires 1 <= n
    requires forall k | 1 <= k <= n :: 0 <= IndexStep(sq, delta, k) < 64
    requires pos.board[IndexStep(sq, delta, n)] != Empty
    ensures p != Empty
    ensures exists m | 1 <= m <= n ::
      (pos.board[IndexStep(sq, delta, m)] == p &&
       forall k | 1 <= k < m :: pos.board[IndexStep(sq, delta, k)] == Empty)
  {
    var cur := sq;
    ghost var k := 0;
    while true
      invariant 0 <= k < n
      invariant cur == IndexStep(sq, delta, k)
      invariant forall j | 1 <= j <= k :: pos.board[IndexStep(sq, delta, j)] == Empty
      decreases n - k
    {
      cur := cur + delta;
      k := k + 1;
      assert cur == IndexStep(sq, delta, k);
      p := pos.board[cur];
      if p != Empty {
        return p;
      }
    }
  }
}
