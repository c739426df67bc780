/** Bitboards: 64-bit masks with one bit per square (bit 0 is a1, bit 63 is h8).

    The engine walks a mask lowest bit first with `numberOfTrailingZeros` and
    `mask &= mask - 1`.  This module gives those two primitives a meaning in
    terms of the set of squares a mask holds.  Facts about single bits are
    proved on 7-bit bit positions (`Bit`) and lifted to integer squares. */
module BitBoard {

  type U64 = bv64

  /** A square index 0..63; file = sq % 8, rank = sq / 8. */
  type Square = i: int | 0 <= i < 64

  /** A bit position 0..63 of a 64-bit mask. */
  type Bit = b: bv7 | b < 64

  /** The bit position of a square. */
  function BitOf(sq: Square): Bit {
    sq as bv7
  }

  /** Is bit `k` of `m` set? */
  predicate HasBit(m: U64, k: Bit) {
    m & (1 << k) != 0
  }

  /** The one-bit mask of a square. */
  function Mask(sq: Square): U64 {
    1 << BitOf(sq)
  }

  /** Does mask `m` hold square `sq`? */
  predicate Has(m: U64, sq: Square) {
    HasBit(m, BitOf(sq))
  }

  /** The squares a mask holds. */
  function Squares(m: U64): set<Square> {
    set sq: int | 0 <= sq < 64 && Has(m, sq)
  }

  /** `BitBoard::bitCount`: the number of squares a mask holds. */
  function PopCount(m: U64): nat {
    |Squares(m)|
  }

  /** Ranks 1 and 8, the promotion ranks (`BitBoard::maskRow1Row8`). */
  const MaskRow1Row8: U64 := 0xFF00_0000_0000_00FF

  // ---------------------------------------------------------------------
  // Single-bit facts on bit positions.

  lemma AndBit(a: U64, b: U64, k: Bit)
    ensures HasBit(a & b, k) <==> HasBit(a, k) && HasBit(b, k)
  {
  }

  lemma OrBit(a: U64, b: U64, k: Bit)
    ensures HasBit(a | b, k) <==> HasBit(a, k) || HasBit(b, k)
  {
    assert (a | b) & (1 << k) == (a & (1 << k)) | (b & (1 << k));
  }

  lemma NotBit(a: U64, k: Bit)
    ensures HasBit(!a, k) <==> !HasBit(a, k)
  {
  }

  lemma OneBit(j: Bit, k: Bit)
    ensures HasBit(1 << j, k) <==> j == k
  {
  }

  lemma ZeroBit(k: Bit)
    ensures !HasBit(0, k)
  {
  }

  lemma Row1Row8Bit(k: Bit)
    ensures HasBit(MaskRow1Row8, k) <==> k < 8 || 56 <= k
  {
  }

  lemma BitOfRoundTrip(a: Square)
    ensures BitOf(a) as int == a
  {
    // One case per rank keeps each conversion problem small.
    if a < 8 {} else if a < 16 {} else if a < 24 {} else if a < 32 {}
    else if a < 40 {} else if a < 48 {} else if a < 56 {} else {}
  }

  /** Bit positions are ordered like the squares they come from. */
  lemma BitOfOrder(a: Square, b: Square)
    ensures BitOf(a) == BitOf(b) <==> a == b
    ensures BitOf(a) < BitOf(b) <==> a < b
  {
    BitOfRoundTrip(a);
    BitOfRoundTrip(b);
  }

  /** The square of a bit position. */
  function SquareOf(k: Bit): (sq: Square)
    ensures BitOf(sq) == k
  {
    k as int
  }

  // ---------------------------------------------------------------------
  // Single-square facts.

  lemma HasAnd(a: U64, b: U64, sq: Square)
    ensures Has(a & b, sq) <==> Has(a, sq) && Has(b, sq)
  {
    AndBit(a, b, BitOf(sq));
  }

  lemma HasOr(a: U64, b: U64, sq: Square)
    ensures Has(a | b, sq) <==> Has(a, sq) || Has(b, sq)
  {
    OrBit(a, b, BitOf(sq));
  }

  lemma HasNot(a: U64, sq: Square)
    ensures Has(!a, sq) <==> !Has(a, sq)
  {
    NotBit(a, BitOf(sq));
  }

  lemma HasMask(k: Square, sq: Square)
    ensures Has(Mask(k), sq) <==> sq == k
  {
    OneBit(BitOf(k), BitOf(sq));
    BitOfOrder(k, sq);
  }

  lemma HasZero(sq: Square)
    ensures !Has(0, sq)
  {
    ZeroBit(BitOf(sq));
  }

  /** The promotion-rank mask holds exactly the squares of ranks 1 and 8. */
  lemma HasRow1Row8(sq: Square)
    ensures Has(MaskRow1Row8, sq) <==> sq < 8 || 56 <= sq
  {
    Row1Row8Bit(BitOf(sq));
    BitOfOrder(sq, 8);
    BitOfOrder(55, sq);
  }

  /** Splitting a mask at the promotion ranks. */
  lemma SplitRow1Row8(mask: U64, sq: Square)
    ensures Has(mask & MaskRow1Row8, sq) <==> Has(mask, sq) && (sq < 8 || 56 <= sq)
    ensures Has(mask & !MaskRow1Row8, sq) <==> Has(mask, sq) && 8 <= sq < 56
  {
    HasAnd(mask, MaskRow1Row8, sq);
    HasAnd(mask, !MaskRow1Row8, sq);
    HasNot(MaskRow1Row8, sq);
    HasRow1Row8(sq);
  }

  // ---------------------------------------------------------------------
  // numberOfTrailingZeros and clearing the lowest bit.

  /** The lowest set bit isolated (two's complement `m & -m`). */
  function LowBit(m: U64): U64 {
    m & (0 - m)
  }

  /** Trailing-zero count by binary search on halves, as a bit position. */
  function NtzBits(m: U64): bv7 {
    var a: bv7 := if m & 0xFFFF_FFFF == 0 then 32 else 0;
    var m1 := m >> a;
    var b: bv7 := if m1 & 0xFFFF == 0 then 16 else 0;
    var m2 := m1 >> b;
    var c: bv7 := if m2 & 0xFF == 0 then 8 else 0;
    var m3 := m2 >> c;
    var d: bv7 := if m3 & 0xF == 0 then 4 else 0;
    var m4 := m3 >> d;
    var e: bv7 := if m4 & 0x3 == 0 then 2 else 0;
    var m5 := m4 >> e;
    var f: bv7 := if m5 & 0x1 == 0 then 1 else 0;
    a + b + c + d + e + f
  }

  lemma NtzBitsIsLowBit(m: U64)
    requires m != 0
    ensures NtzBits(m) < 64
    ensures LowBit(m) == 1 << NtzBits(m)
  {
  }

  /** If `k` is the isolated lowest bit, `k` is set and no bit below it. */
  lemma LowBitIsLowest(m: U64, k: Bit)
    requires LowBit(m) == 1 << k
    ensures HasBit(m, k)
    ensures forall j: Bit :: j < k ==> !HasBit(m, j)
  {
  }

  /** `m & (m - 1)` removes the isolated lowest bit. */
  lemma ClearIsXorLowBit(m: U64)
    ensures m & (m - 1) == m ^ LowBit(m)
  {
  }

  /** Xor with a one-bit mask flips exactly that bit. */
  lemma XorOneBit(m: U64, b: U64, k: Bit, j: Bit)
    requires b == 1 << k
    ensures HasBit(m ^ b, j) <==> HasBit(m, j) != (j == k)
  {
  }

  /** Clearing the lowest bit clears exactly that bit. */
  lemma ClearLowestBit(m: U64, k: Bit, j: Bit)
    requires LowBit(m) == 1 << k
    ensures HasBit(m & (m - 1), j) <==> HasBit(m, j) && j != k
  {
    ClearIsXorLowBit(m);
    XorOneBit(m, LowBit(m), k, j);
    LowBitIsLowest(m, k);
  }

  /** `BitBoard::numberOfTrailingZeros`: the lowest square of a non-empty mask. */
  function Ntz(m: U64): (k: Square)
    requires m != 0
    ensures Has(m, k)
    ensures forall sq: Square :: sq < k ==> !Has(m, sq)
  {
    NtzBitsIsLowBit(m);
    var b: Bit := NtzBits(m);
    LowBitIsLowest(m, b);
    var k := SquareOf(b);
    forall sq: Square | sq < k
      ensures !Has(m, sq)
    {
      BitOfOrder(sq, k);
    }
    k
  }

  /** `mask & (mask - 1)`: the mask without its lowest square. */
  function ClearLowest(m: U64): (r: U64)
    requires m != 0
    ensures forall sq: Square :: Has(r, sq) <==> Has(m, sq) && sq != Ntz(m)
    ensures Squares(r) == Squares(m) - {Ntz(m)}
    ensures PopCount(r) == PopCount(m) - 1
  {
    var k := Ntz(m);
    NtzBitsIsLowBit(m);
    var r := m & (m - 1);
    forall sq: Square
      ensures Has(r, sq) <==> Has(m, sq) && sq != k
    {
      ClearLowestBit(m, BitOf(k), BitOf(sq));
      BitOfOrder(sq, k);
    }
    assert Squares(r) == Squares(m) - {k};
    r
  }

  /** A mask is zero exactly when it holds no square. */
  lemma EmptyIffNoSquares(m: U64)
    ensures m == 0 <==> Squares(m) == {}
    ensures m == 0 <==> PopCount(m) == 0
    ensures m == 0 ==> forall sq: Square :: !Has(m, sq)
  {
    if m != 0 {
      assert Ntz(m) in Squares(m);
    } else {
      forall sq: Square
        ensures !Has(m, sq)
      {
        HasZero(sq);
      }
    }
  }

  /** A square two intersecting masks share (the lowest one). */
  function CommonSquare(a: U64, b: U64): (t: Square)
    requires a & b != 0
    ensures Has(a, t) && Has(b, t)
  {
    HasAnd(a, b, Ntz(a & b));
    Ntz(a & b)
  }

  /** Two masks that share a square intersect. */
  lemma MeetOf(a: U64, b: U64, t: Square)
    requires Has(a, t) && Has(b, t)
    ensures a & b != 0
  {
    HasAnd(a, b, t);
    HasZero(t);
  }

  /** Two masks intersect exactly when some square is in both. */
  lemma IntersectIff(a: U64, b: U64)
    ensures a & b != 0 <==> exists sq: Square :: Has(a, sq) && Has(b, sq)
  {
    if a & b != 0 {
      var k := Ntz(a & b);
      HasAnd(a, b, k);
    } else {
      forall sq: Square
        ensures !(Has(a, sq) && Has(b, sq))
      {
        HasAnd(a, b, sq);
        HasZero(sq);
      }
    }
  }

  predicate StrictlyIncreasing(s: seq<int>) {
    forall i, j :: 0 <= i < j < |s| ==> s[i] < s[j]
  }

  /** The squares of a mask in the order the engine visits them: the
      lowest square first, then those of the mask with it cleared. */
  function SquaresAsc(m: U64): (s: seq<Square>)
    ensures forall sq: Square :: sq in s <==> Has(m, sq)
    ensures |s| == PopCount(m)
    decreases PopCount(m)
  {
    if m == 0 then
      EmptyIffNoSquares(m);
      []
    else
      [Ntz(m)] + SquaresAsc(ClearLowest(m))
  }

  /** Putting a smaller element in front keeps a sequence increasing. */
  lemma ConsIncreasing(k: int, t: seq<int>)
    requires StrictlyIncreasing(t)
    requires forall i :: 0 <= i < |t| ==> k < t[i]
    ensures StrictlyIncreasing([k] + t)
  {
    var s := [k] + t;
    forall i, j | 0 <= i < j < |s|
      ensures s[i] < s[j]
    {
      assert s[j] == t[j - 1];
      if i > 0 {
        assert s[i] == t[i - 1];
      }
    }
  }

  /** The visiting order is strictly increasing. */
  lemma {:induction false} SquaresAscIncreasing(m: U64)
    ensures StrictlyIncreasing(SquaresAsc(m))
    decreases PopCount(m)
  {
    if m != 0 {
      var k := Ntz(m);
      var rest := ClearLowest(m);
      var tail := SquaresAsc(rest);
      SquaresAscIncreasing(rest);
      forall i | 0 <= i < |tail|
        ensures k < tail[i]
      {
        assert Has(rest, tail[i]);
      }
      ConsIncreasing(k, tail);
    }
  }

  // ---------------------------------------------------------------------
  // Building a mask from a predicate on squares.

  /** The mask of the squares below `n` that satisfy `f`. */
  function FromPredBelow(f: Square -> bool, n: nat): (r: U64)
    requires n <= 64
    ensures forall sq: Square :: Has(r, sq) <==> sq < n && f(sq)
  {
    if n == 0 then
      EmptyIffNoSquares(0);
      0
    else
      var below := FromPredBelow(f, n - 1);
      var top: U64 := if f(n - 1) then Mask(n - 1) else 0;
      forall sq: Square
        ensures Has(below | top, sq) <==> sq < n && f(sq)
      {
        HasOr(below, top, sq);
        HasMask(n - 1, sq);
        HasZero(sq);
      }
      below | top
  }

  /** The mask of all squares satisfying `f`. */
  function FromPred(f: Square -> bool): (r: U64)
    ensures forall sq: Square :: Has(r, sq) <==> f(sq)
  {
    FromPredBelow(f, 64)
  }
}
