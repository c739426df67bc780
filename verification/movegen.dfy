/** The move emitters of `MoveGen`: each walks a target bitboard lowest
    square first (`numberOfTrailingZeros`, then `mask &= mask - 1`) and
    appends one move per square, or four/two promotion moves for a pawn
    reaching rank 1 or 8.

    Each emitter is specified against a reference list built from
    `SquaresAsc`, the mask's squares in ascending order. */
module MoveGen {
  import opened BitBoard
  import opened Pieces
  import opened Moves
  import opened MoveLists

  // ---------------------------------------------------------------------
  // Reference move lists.

  /** One plain move from `sq0` to each square, in order. */
  function FixedOriginMoves(sq0: int, sqs: seq<Square>): (r: seq<Move>)
    ensures |r| == |sqs|
    ensures forall i :: 0 <= i < |sqs| ==> r[i] == Move(sq0, sqs[i], Empty, 0)
  {
    if sqs == [] then [] else [Move(sq0, sqs[0], Empty, 0)] + FixedOriginMoves(sq0, sqs[1..])
  }

  /** One plain move to each square, from the square `delta` away. */
  function ShiftMoves(sqs: seq<Square>, delta: int): (r: seq<Move>)
    ensures |r| == |sqs|
    ensures forall i :: 0 <= i < |sqs| ==> r[i] == Move(sqs[i] + delta, sqs[i], Empty, 0)
  {
    if sqs == [] then [] else [Move(sqs[0] + delta, sqs[0], Empty, 0)] + ShiftMoves(sqs[1..], delta)
  }

  /** The promotion pieces for a pawn arriving on `sq`: white on rank 8,
      black otherwise; queen and knight always, rook and bishop only when
      all promotions are wanted. */
  function PromotionPieces(sq: Square, allPromotions: bool): seq<Piece> {
    if sq >= 56 then
      [WQueen, WKnight] + (if allPromotions then [WRook, WBishop] else [])
    else
      [BQueen, BKnight] + (if allPromotions then [BRook, BBishop] else [])
  }

  /** Number of promotion moves per promotion square. */
  function PromotionFactor(allPromotions: bool): nat {
    if allPromotions then 4 else 2
  }

  /** Number of promotion moves for `n` promotion squares. */
  function PromotionCount(n: nat, allPromotions: bool): nat {
    if allPromotions then 4 * n else 2 * n
  }

  /** The promotion moves of a pawn arriving on `sq` from `sq + delta`. */
  function PromotionMovesAt(sq: Square, delta: int, allPromotions: bool): (r: seq<Move>)
    ensures |r| == PromotionFactor(allPromotions)
  {
    var ps := PromotionPieces(sq, allPromotions);
    seq(|ps|, i requires 0 <= i < |ps| => Move(sq + delta, sq, ps[i], 0))
  }

  /** The promotion moves for each square in turn. */
  function PromotionMoves(sqs: seq<Square>, delta: int, allPromotions: bool): (r: seq<Move>)
    ensures |r| == PromotionCount(|sqs|, allPromotions)
  {
    if sqs == [] then []
    else PromotionMovesAt(sqs[0], delta, allPromotions) + PromotionMoves(sqs[1..], delta, allPromotions)
  }

  /** The number of moves `addPawnMovesByMask` appends for `mask`. */
  function PawnMoveCount(mask: U64, allPromotions: bool): nat {
    PopCount(mask & !MaskRow1Row8) + PromotionCount(PopCount(mask & MaskRow1Row8), allPromotions)
  }

  // ---------------------------------------------------------------------
  // What the reference lists contain.

  /** A promotion move goes to a promotion square, promotes to a real piece,
      and the piece is white exactly when the square is on rank 8. */
  predicate IsPromotionTo(m: Move, delta: int) {
    0 <= m.to < 64 && m.from == m.to + delta && m.promoteTo != Empty &&
    (IsWhite(m.promoteTo) <==> m.to >= 56)
  }

  lemma {:induction false} PromotionMovesShape(sqs: seq<Square>, delta: int, allPromotions: bool)
    ensures forall m :: m in PromotionMoves(sqs, delta, allPromotions) ==>
      IsPromotionTo(m, delta) && m.to in sqs
  {
    if sqs != [] {
      PromotionMovesShape(sqs[1..], delta, allPromotions);
      var head := PromotionMovesAt(sqs[0], delta, allPromotions);
      var tail := PromotionMoves(sqs[1..], delta, allPromotions);
      forall m | m in head + tail
        ensures IsPromotionTo(m, delta) && m.to in sqs
      {
        if m in head {
          var i :| 0 <= i < |head| && head[i] == m;
          assert m.to == sqs[0];
        } else {
          assert m in tail;
          assert m.to in sqs[1..];
        }
      }
    }
  }

  /** The promotion pieces are queen and knight, plus rook and bishop
      exactly when all promotions are wanted, all of one colour: white
      exactly on rank 8. */
  lemma PromotionPiecesContents(sq: Square, allPromotions: bool, p: Piece)
    ensures p in PromotionPieces(sq, allPromotions) <==>
      (IsWhite(p) <==> sq >= 56) &&
      (p in {WQueen, WKnight, BQueen, BKnight} ||
       (allPromotions && p in {WRook, WBishop, BRook, BBishop}))
  {
  }

  /** Every promotion square gets one move per promotion piece. */
  lemma {:induction false} PromotionMovesComplete(sqs: seq<Square>, delta: int, allPromotions: bool, k: nat)
    requires k < |sqs|
    ensures forall p :: p in PromotionPieces(sqs[k], allPromotions) ==>
      Move(sqs[k] + delta, sqs[k], p, 0) in PromotionMoves(sqs, delta, allPromotions)
  {
    var head := PromotionMovesAt(sqs[0], delta, allPromotions);
    var tail := PromotionMoves(sqs[1..], delta, allPromotions);
    assert PromotionMoves(sqs, delta, allPromotions) == head + tail;
    if k == 0 {
      forall p | p in PromotionPieces(sqs[0], allPromotions)
        ensures Move(sqs[0] + delta, sqs[0], p, 0) in head + tail
      {
        var ps := PromotionPieces(sqs[0], allPromotions);
        var i :| 0 <= i < |ps| && ps[i] == p;
        assert head[i] == Move(sqs[0] + delta, sqs[0], p, 0);
        assert (head + tail)[i] == head[i];
      }
    } else {
      PromotionMovesComplete(sqs[1..], delta, allPromotions, k - 1);
      assert sqs[1..][k - 1] == sqs[k];
      ConcatKeepsRight(head, tail);
    }
  }

  // ---------------------------------------------------------------------
  // Splitting off the first square of a mask.

  lemma SquaresAscStep(m: U64)
    requires m != 0
    ensures SquaresAsc(m) == [Ntz(m)] + SquaresAsc(ClearLowest(m))
  {
  }

  lemma FixedOriginMovesCons(sq0: int, sq: Square, rest: seq<Square>)
    ensures FixedOriginMoves(sq0, [sq] + rest) == [Move(sq0, sq, Empty, 0)] + FixedOriginMoves(sq0, rest)
  {
    assert ([sq] + rest)[1..] == rest;
  }

  lemma ShiftMovesCons(sq: Square, rest: seq<Square>, delta: int)
    ensures ShiftMoves([sq] + rest, delta) == [Move(sq + delta, sq, Empty, 0)] + ShiftMoves(rest, delta)
  {
    assert ([sq] + rest)[1..] == rest;
  }

  lemma PromotionMovesCons(sq: Square, rest: seq<Square>, delta: int, allPromotions: bool)
    ensures PromotionMoves([sq] + rest, delta, allPromotions) ==
      PromotionMovesAt(sq, delta, allPromotions) + PromotionMoves(rest, delta, allPromotions)
  {
    assert ([sq] + rest)[1..] == rest;
  }

  /** Moving the next moves from the pending part to the done part keeps
      their concatenation. */
  lemma ShiftDoneBlock(done: seq<Move>, block: seq<Move>, pending: seq<Move>, total: seq<Move>)
    requires done + (block + pending) == total
    ensures (done + block) + pending == total
  {
    assert done + (block + pending) == (done + block) + pending;
  }

  /** The promotion moves of one square, written out. */
  lemma PromotionMovesAtList(sq: Square, delta: int, allPromotions: bool)
    ensures var f := sq + delta;
      PromotionMovesAt(sq, delta, allPromotions) ==
        if sq >= 56 then
          [Move(f, sq, WQueen, 0), Move(f, sq, WKnight, 0)] +
          (if allPromotions then [Move(f, sq, WRook, 0), Move(f, sq, WBishop, 0)] else [])
        else
          [Move(f, sq, BQueen, 0), Move(f, sq, BKnight, 0)] +
          (if allPromotions then [Move(f, sq, BRook, 0), Move(f, sq, BBishop, 0)] else [])
  {
  }

  /** Clearing the promotion squares from a mask leaves its other squares. */
  lemma NonPromotionMask(mask: U64)
    ensures mask & !(mask & MaskRow1Row8) == mask & !MaskRow1Row8
  {
  }

  /** Moving the next move from the pending part to the done part keeps
      their concatenation. */
  lemma ShiftDone(done: seq<Move>, m: Move, pending: seq<Move>, total: seq<Move>)
    requires done + ([m] + pending) == total
    ensures (done + [m]) + pending == total
  {
    assert done + ([m] + pending) == (done + [m]) + pending;
  }

  // ---------------------------------------------------------------------
  // The emitters.

  /** `addMovesByMask`: one plain move from `sq0` to every square of `mask`,
      lowest square first. */
  method AddMovesByMask(ml: MoveList, sq0: int, mask: U64) returns (r: MoveList)
    requires Valid(ml) && ml.size + PopCount(mask) <= MaxMoves
    ensures Valid(r) && r.size == ml.size + PopCount(mask)
    ensures Contents(r) == Contents(ml) + FixedOriginMoves(sq0, SquaresAsc(mask))
  {
    r := ml;
    var m := mask;
    while m != 0
      invariant Valid(r)
      invariant r.size + PopCount(m) == ml.size + PopCount(mask)
      invariant Contents(r) + FixedOriginMoves(sq0, SquaresAsc(m)) ==
                Contents(ml) + FixedOriginMoves(sq0, SquaresAsc(mask))
      decreases PopCount(m)
    {
      var sq := Ntz(m);
      SquaresAscStep(m);
      FixedOriginMovesCons(sq0, sq, SquaresAsc(ClearLowest(m)));
      ShiftDone(Contents(r), Move(sq0, sq, Empty, 0), FixedOriginMoves(sq0, SquaresAsc(ClearLowest(m))),
                Contents(ml) + FixedOriginMoves(sq0, SquaresAsc(mask)));
      r := AddMove(r, sq0, sq, Empty);
      m := ClearLowest(m);
    }
  }

  /** `addPawnDoubleMovesByMask`: one plain move to every square of `mask`,
      from the square `delta` away, lowest square first. */
  method AddPawnDoubleMovesByMask(ml: MoveList, mask: U64, delta: int) returns (r: MoveList)
    requires Valid(ml) && ml.size + PopCount(mask) <= MaxMoves
    ensures Valid(r) && r.size == ml.size + PopCount(mask)
    ensures Contents(r) == Contents(ml) + ShiftMoves(SquaresAsc(mask), delta)
  {
    r := ml;
    var m := mask;
    while m != 0
      invariant Valid(r)
      invariant r.size + PopCount(m) == ml.size + PopCount(mask)
      invariant Contents(r) + ShiftMoves(SquaresAsc(m), delta) ==
                Contents(ml) + ShiftMoves(SquaresAsc(mask), delta)
      decreases PopCount(m)
    {
      var sq := Ntz(m);
      SquaresAscStep(m);
      ShiftMovesCons(sq, SquaresAsc(ClearLowest(m)), delta);
      ShiftDone(Contents(r), Move(sq + delta, sq, Empty, 0), ShiftMoves(SquaresAsc(ClearLowest(m)), delta),
                Contents(ml) + ShiftMoves(SquaresAsc(mask), delta));
      r := AddMove(r, sq + delta, sq, Empty);
      m := ClearLowest(m);
    }
  }

  /** The promotion branch of `addPawnMovesByMask` for one square `sq`
      reached from `sq0`. */
  method AddPromotions(ml: MoveList, sq: Square, sq0: int, allPromotions: bool) returns (r: MoveList)
    requires Valid(ml) && ml.size + PromotionFactor(allPromotions) <= MaxMoves
    ensures Valid(r) && r.size == ml.size + PromotionFactor(allPromotions)
    ensures Contents(r) == Contents(ml) + PromotionMovesAt(sq, sq0 - sq, allPromotions)
  {
    PromotionMovesAtList(sq, sq0 - sq, allPromotions);
    r := ml;
    if sq >= 56 { // white promotion
      r := AddMove(r, sq0, sq, WQueen);
      r := AddMove(r, sq0, sq, WKnight);
      if allPromotions {
        r := AddMove(r, sq0, sq, WRook);
        r := AddMove(r, sq0, sq, WBishop);
      }
    } else { // black promotion
      r := AddMove(r, sq0, sq, BQueen);
      r := AddMove(r, sq0, sq, BKnight);
      if allPromotions {
        r := AddMove(r, sq0, sq, BRook);
        r := AddMove(r, sq0, sq, BBishop);
      }
    }
  }

  /** The first loop of `addPawnMovesByMask`: the promotion moves of each
      square of `promMask`, lowest square first. */
  method AddPromotionsByMask(ml: MoveList, promMask: U64, delta: int, allPromotions: bool) returns (r: MoveList)
    requires Valid(ml) && ml.size + PromotionCount(PopCount(promMask), allPromotions) <= MaxMoves
    ensures Valid(r) && r.size == ml.size + PromotionCount(PopCount(promMask), allPromotions)
    ensures Contents(r) == Contents(ml) + PromotionMoves(SquaresAsc(promMask), delta, allPromotions)
  {
    r := ml;
    var pm := promMask;
    while pm != 0
      invariant Valid(r)
      invariant r.size + PromotionCount(PopCount(pm), allPromotions) == ml.size + PromotionCount(PopCount(promMask), allPromotions)
      invariant Contents(r) + PromotionMoves(SquaresAsc(pm), delta, allPromotions) ==
                Contents(ml) + PromotionMoves(SquaresAsc(promMask), delta, allPromotions)
      decreases PopCount(pm)
    {
      var sq := Ntz(pm);
      var sq0 := sq + delta;
      SquaresAscStep(pm);
      PromotionMovesCons(sq, SquaresAsc(ClearLowest(pm)), delta, allPromotions);
      ShiftDoneBlock(Contents(r), PromotionMovesAt(sq, delta, allPromotions),
                     PromotionMoves(SquaresAsc(ClearLowest(pm)), delta, allPromotions),
                     Contents(ml) + PromotionMoves(SquaresAsc(promMask), delta, allPromotions));
      r := AddPromotions(r, sq, sq0, allPromotions);
      pm := ClearLowest(pm);
    }
    assert SquaresAsc(pm) == [];
  }

  /** `addPawnMovesByMask`: for each square of `mask` on rank 1 or 8 (lowest
      first) its promotion moves, then for every other square (lowest first)
      one plain move; every move comes from the square `delta` away.  The
      engine's second loop is the loop of `addPawnDoubleMovesByMask`. */
  method AddPawnMovesByMask(ml: MoveList, mask: U64, delta: int, allPromotions: bool) returns (r: MoveList)
    requires Valid(ml) && ml.size + PawnMoveCount(mask, allPromotions) <= MaxMoves
    ensures Valid(r) && r.size == ml.size + PawnMoveCount(mask, allPromotions)
    ensures mask == 0 ==> r == ml
    ensures Contents(r) == Contents(ml) + PawnMoves(mask, delta, allPromotions)
  {
    if mask == 0 {
      assert SquaresAsc(mask & MaskRow1Row8) == [] && SquaresAsc(mask & !MaskRow1Row8) == [];
      assert PawnMoves(mask, delta, allPromotions) == [];
      return ml;
    }
    var promMask := mask & MaskRow1Row8;
    var rest := mask & !promMask;
    NonPromotionMask(mask);
    var proms := AddPromotionsByMask(ml, promMask, delta, allPromotions);
    r := AddPawnDoubleMovesByMask(proms, rest, delta);
    PawnMovesAppended(Contents(ml), Contents(proms), Contents(r), mask, delta, allPromotions);
  }

  /** Appending the promotions of a mask and then the plain moves of the
      rest of it appends the pawn moves of the mask. */
  lemma PawnMovesAppended(a: seq<Move>, b: seq<Move>, c: seq<Move>, mask: U64, delta: int, allPromotions: bool)
    requires b == a + PromotionMoves(SquaresAsc(mask & MaskRow1Row8), delta, allPromotions)
    requires c == b + ShiftMoves(SquaresAsc(mask & !(mask & MaskRow1Row8)), delta)
    ensures c == a + PawnMoves(mask, delta, allPromotions)
  {
    NonPromotionMask(mask);
  }

  // ---------------------------------------------------------------------
  // What the emitters append, stated on squares of the mask.

  /** The destinations of a list of moves. */
  function Targets(ms: seq<Move>): (ts: seq<int>)
    ensures |ts| == |ms|
  {
    seq(|ms|, i requires 0 <= i < |ms| => ms[i].to)
  }

  lemma TargetsOfFixedOrigin(sq0: int, s: seq<Square>)
    ensures Targets(FixedOriginMoves(sq0, s)) == s
  {
  }

  lemma TargetsOfShift(s: seq<Square>, delta: int)
    ensures Targets(ShiftMoves(s, delta)) == s
  {
  }

  /** `addMovesByMask` appends exactly one move per square of the mask: from
      `sq0`, without promotion, with distinct destinations in ascending order. */
  lemma FixedOriginMovesOfMask(sq0: int, mask: U64)
    ensures var ms := FixedOriginMoves(sq0, SquaresAsc(mask));
      |ms| == PopCount(mask) &&
      (forall i :: 0 <= i < |ms| ==> ms[i].from == sq0 && ms[i].promoteTo == Empty) &&
      (forall t: Square :: t in Targets(ms) <==> Has(mask, t)) &&
      StrictlyIncreasing(Targets(ms))
  {
    SquaresAscIncreasing(mask);
    TargetsOfFixedOrigin(sq0, SquaresAsc(mask));
  }

  /** `addPawnDoubleMovesByMask` appends exactly one move per square `sq` of
      the mask: from `sq + delta`, without promotion, in ascending order. */
  lemma ShiftMovesOfMask(mask: U64, delta: int)
    ensures var ms := ShiftMoves(SquaresAsc(mask), delta);
      |ms| == PopCount(mask) &&
      (forall i :: 0 <= i < |ms| ==> ms[i].from == ms[i].to + delta && ms[i].promoteTo == Empty) &&
      (forall t: Square :: t in Targets(ms) <==> Has(mask, t)) &&
      StrictlyIncreasing(Targets(ms))
  {
    SquaresAscIncreasing(mask);
    TargetsOfShift(SquaresAsc(mask), delta);
  }

  /** The moves of `addPawnMovesByMask`, as a whole. */
  function PawnMoves(mask: U64, delta: int, allPromotions: bool): seq<Move> {
    PromotionMoves(SquaresAsc(mask & MaskRow1Row8), delta, allPromotions)
      + ShiftMoves(SquaresAsc(mask & !MaskRow1Row8), delta)
  }

  lemma ConcatKeepsLeft(a: seq<Move>, b: seq<Move>)
    ensures forall m :: m in a ==> m in a + b
  {
  }

  lemma ConcatKeepsRight(a: seq<Move>, b: seq<Move>)
    ensures forall m :: m in b ==> m in a + b
  {
  }

  /** If exactly the first `k` moves are promotions, no promotion follows a
      plain move. */
  lemma PromotionsFirst(ms: seq<Move>, k: int)
    requires forall i :: 0 <= i < |ms| ==> (ms[i].promoteTo != Empty <==> i < k)
    ensures forall i, j :: 0 <= i < j < |ms| && ms[i].promoteTo == Empty ==> ms[j].promoteTo == Empty
  {
  }

  /** Promotion moves for `proms` followed by plain moves for `plains`:
      promotions come first, every move comes from `delta` away, a promotion
      goes to a square of `proms` with a piece that is white exactly on rank
      8, and a plain move goes to a square of `plains`. */
  lemma PawnListShape(proms: seq<Square>, plains: seq<Square>, delta: int, allPromotions: bool)
    ensures var ps := PromotionMoves(proms, delta, allPromotions);
      var ms := ps + ShiftMoves(plains, delta);
      (forall i :: 0 <= i < |ms| ==> (ms[i].promoteTo != Empty <==> i < |ps|)) &&
      (forall m: Move :: m in ms ==> m.from == m.to + delta && 0 <= m.to < 64) &&
      (forall m: Move :: m in ms && m.promoteTo != Empty ==> m.to in proms && (IsWhite(m.promoteTo) <==> m.to >= 56)) &&
      (forall m: Move :: m in ms && m.promoteTo == Empty ==> m.to in plains)
  {
    PawnListIndices(proms, plains, delta, allPromotions);
    PawnListMembers(proms, plains, delta, allPromotions);
  }

  lemma PawnListIndices(proms: seq<Square>, plains: seq<Square>, delta: int, allPromotions: bool)
    ensures var ps := PromotionMoves(proms, delta, allPromotions);
      var ms := ps + ShiftMoves(plains, delta);
      forall i :: 0 <= i < |ms| ==> (ms[i].promoteTo != Empty <==> i < |ps|)
  {
    var ps := PromotionMoves(proms, delta, allPromotions);
    var qs := ShiftMoves(plains, delta);
    var ms := ps + qs;
    PromotionMovesShape(proms, delta, allPromotions);
    forall i | 0 <= i < |ms|
      ensures ms[i].promoteTo != Empty <==> i < |ps|
    {
      if i < |ps| {
        assert ms[i] == ps[i] && ps[i] in ps;
      } else {
        assert ms[i] == qs[i - |ps|];
      }
    }
  }

  lemma PawnListMembers(proms: seq<Square>, plains: seq<Square>, delta: int, allPromotions: bool)
    ensures var ms := PromotionMoves(proms, delta, allPromotions) + ShiftMoves(plains, delta);
      (forall m: Move :: m in ms ==> m.from == m.to + delta && 0 <= m.to < 64) &&
      (forall m: Move :: m in ms && m.promoteTo != Empty ==> m.to in proms && (IsWhite(m.promoteTo) <==> m.to >= 56)) &&
      (forall m: Move :: m in ms && m.promoteTo == Empty ==> m.to in plains)
  {
    var ps := PromotionMoves(proms, delta, allPromotions);
    var qs := ShiftMoves(plains, delta);
    PromotionMovesShape(proms, delta, allPromotions);
    forall m: Move | m in ps + qs
      ensures m.from == m.to + delta && 0 <= m.to < 64
      ensures m.promoteTo != Empty ==> m.to in proms && (IsWhite(m.promoteTo) <==> m.to >= 56)
      ensures m.promoteTo == Empty ==> m.to in plains
    {
      if m !in ps {
        var i :| 0 <= i < |qs| && qs[i] == m;
        assert m.to == plains[i];
      }
    }
  }

  /** `addPawnMovesByMask` appends exactly its move count: the plain
      squares plus two or four moves per promotion square. */
  lemma PawnMovesCount(mask: U64, delta: int, allPromotions: bool)
    ensures |PawnMoves(mask, delta, allPromotions)| == PawnMoveCount(mask, allPromotions)
  {
  }

  /** `addPawnMovesByMask` emits all promotion moves before all plain moves,
      every move comes from `delta` away, and a promotion piece is white
      exactly on rank 8. */
  lemma PawnMovesOrder(mask: U64, delta: int, allPromotions: bool)
    ensures var ms := PawnMoves(mask, delta, allPromotions);
      (forall i, j :: 0 <= i < j < |ms| && ms[i].promoteTo == Empty ==> ms[j].promoteTo == Empty) &&
      (forall m: Move :: m in ms ==> m.from == m.to + delta && 0 <= m.to < 64) &&
      (forall m :: m in ms && m.promoteTo != Empty ==> (IsWhite(m.promoteTo) <==> m.to >= 56))
  {
    var proms := SquaresAsc(mask & MaskRow1Row8);
    var plains := SquaresAsc(mask & !MaskRow1Row8);
    PawnListShape(proms, plains, delta, allPromotions);
    PromotionsFirst(PawnMoves(mask, delta, allPromotions), |PromotionMoves(proms, delta, allPromotions)|);
  }

  /** Every move of `addPawnMovesByMask` goes to a square of the mask: a
      promotion to rank 1 or 8, a plain move to a square off those ranks. */
  lemma PawnMovesTargets(mask: U64, delta: int, allPromotions: bool)
    ensures var ms := PawnMoves(mask, delta, allPromotions);
      (forall m :: m in ms ==> 0 <= m.to < 64 && Has(mask, m.to)) &&
      (forall m :: m in ms && m.promoteTo != Empty ==> m.to < 8 || 56 <= m.to) &&
      (forall m :: m in ms && m.promoteTo == Empty ==> 8 <= m.to < 56)
  {
    var proms := SquaresAsc(mask & MaskRow1Row8);
    var plains := SquaresAsc(mask & !MaskRow1Row8);
    PawnListShape(proms, plains, delta, allPromotions);
    var ms := PawnMoves(mask, delta, allPromotions);
    forall m | m in ms
      ensures 0 <= m.to < 64 && Has(mask, m.to)
      ensures m.promoteTo != Empty ==> m.to < 8 || 56 <= m.to
      ensures m.promoteTo == Empty ==> 8 <= m.to < 56
    {
      var t: Square := m.to;
      SplitRow1Row8(mask, t);
    }
  }

  /** Every square of the mask on rank 1 or 8 gets one promotion move per
      promotion piece from `addPawnMovesByMask`. */
  lemma PawnPromotionsComplete(mask: U64, delta: int, allPromotions: bool, t: Square)
    requires Has(mask, t) && (t < 8 || 56 <= t)
    ensures forall p :: p in PromotionPieces(t, allPromotions) ==>
      Move(t + delta, t, p, 0) in PawnMoves(mask, delta, allPromotions)
  {
    var proms := SquaresAsc(mask & MaskRow1Row8);
    SplitRow1Row8(mask, t);
    var k :| 0 <= k < |proms| && proms[k] == t;
    PromotionMovesComplete(proms, delta, allPromotions, k);
    ConcatKeepsLeft(PromotionMoves(proms, delta, allPromotions), ShiftMoves(SquaresAsc(mask & !MaskRow1Row8), delta));
  }

  /** Every other square of the mask gets one plain move from
      `addPawnMovesByMask`. */
  lemma PawnPlainComplete(mask: U64, delta: int, allPromotions: bool, t: Square)
    requires Has(mask, t) && 8 <= t < 56
    ensures Move(t + delta, t, Empty, 0) in PawnMoves(mask, delta, allPromotions)
  {
    var plains := SquaresAsc(mask & !MaskRow1Row8);
    var qs := ShiftMoves(plains, delta);
    SplitRow1Row8(mask, t);
    var k :| 0 <= k < |plains| && plains[k] == t;
    assert qs[k] == Move(t + delta, t, Empty, 0);
    ConcatKeepsRight(PromotionMoves(SquaresAsc(mask & MaskRow1Row8), delta, allPromotions), qs);
  }
}
