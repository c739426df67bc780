/** `RangeSumArray<N>`: an array of `N` integers, all zero at first, with
    `add(i, v)`, `get(i)` and `sum(i, j)` (the sum of the entries
    `i..j-1`).  Only its unit test is part of this model, so the array is
    modelled by its running totals: `sum` is a difference of two of them. */
module RangeSum {

  /** `totals[k]` is the sum of the first `k` entries. */
  datatype RangeSumArray = RangeSumArray(totals: seq<int>)

  predicate Valid(a: RangeSumArray) {
    |a.totals| >= 1 && a.totals[0] == 0
  }

  function Size(a: RangeSumArray): nat
    requires Valid(a)
  {
    |a.totals| - 1
  }

  /** The array of `n` zeros. */
  function New(n: nat): (a: RangeSumArray)
    ensures Valid(a) && Size(a) == n
    ensures forall i | 0 <= i < n :: Get(a, i) == 0
  {
    RangeSumArray(seq(n + 1, _ => 0))
  }

  /** `get(i)`: entry `i`. */
  function Get(a: RangeSumArray, i: nat): int
    requires Valid(a) && i < Size(a)
  {
    a.totals[i + 1] - a.totals[i]
  }

  /** `add(i, v)`: entry `i` grows by `v` and no other entry changes. */
  function Add(a: RangeSumArray, i: nat, v: int): (b: RangeSumArray)
    requires Valid(a) && i < Size(a)
    ensures Valid(b) && Size(b) == Size(a)
    ensures Get(b, i) == Get(a, i) + v
    ensures forall k | 0 <= k < Size(a) && k != i :: Get(b, k) == Get(a, k)
  {
    RangeSumArray(seq(|a.totals|, k requires 0 <= k < |a.totals| => if k > i then a.totals[k] + v else a.totals[k]))
  }

  /** `sum(i, j)`. */
  function Sum(a: RangeSumArray, i: nat, j: nat): int
    requires Valid(a) && i <= j <= Size(a)
  {
    a.totals[j] - a.totals[i]
  }

  /** The sum the unit test computes: `get(i) + ... + get(j-1)`. */
  function SumOfGets(a: RangeSumArray, i: nat, j: nat): int
    requires Valid(a) && i <= j <= Size(a)
    decreases j - i
  {
    if i == j then 0 else SumOfGets(a, i, j - 1) + Get(a, j - 1)
  }

  /** `sum(i, j)` is the sum of the entries `i..j-1`, for all
      `0 <= i <= j <= N`. */
  lemma {:induction false} SumIsSumOfGets(a: RangeSumArray, i: nat, j: nat)
    requires Valid(a) && i <= j <= Size(a)
    ensures Sum(a, i, j) == SumOfGets(a, i, j)
    decreases j - i
  {
    if i < j {
      SumIsSumOfGets(a, i, j - 1);
    }
  }

  /** Adding to one entry changes every range sum that covers it by the
      amount added, and no other. */
  lemma AddChangesCoveringSums(a: RangeSumArray, k: nat, v: int, i: nat, j: nat)
    requires Valid(a) && k < Size(a) && i <= j <= Size(a)
    ensures Sum(Add(a, k, v), i, j) == Sum(a, i, j) + (if i <= k < j then v else 0)
  {
  }

  /** Adding all the values `vs[k]` to entry `k`, one after the other. */
  function AddAll(a: RangeSumArray, vs: seq<int>): (b: RangeSumArray)
    requires Valid(a) && |vs| <= Size(a)
    ensures Valid(b) && Size(b) == Size(a)
    ensures forall k | 0 <= k < |vs| :: Get(b, k) == Get(a, k) + vs[k]
    ensures forall k | |vs| <= k < Size(a) :: Get(b, k) == Get(a, k)
  {
    if |vs| == 0 then a
    else
      var b := AddAll(a, vs[..|vs| - 1]);
      Add(b, |vs| - 1, vs[|vs| - 1])
  }

  /** The unit test: fifteen zeros, then `add(i, 1 << i)` for every `i`,
      after which `get(i)` is `1 << i` and every `sum(i, j)` is the sum
      of the `get`s it covers. */
  lemma UnitTest(i: nat, j: nat)
    requires i <= j <= 15
    ensures var vs := seq(15, k requires 0 <= k < 15 => Pow2(k));
      var a := AddAll(New(15), vs);
      (forall k | 0 <= k < 15 :: Get(a, k) == Pow2(k)) &&
      Sum(a, i, j) == SumOfGets(a, i, j)
  {
    var vs := seq(15, k requires 0 <= k < 15 => Pow2(k));
    var a := AddAll(New(15), vs);
    SumIsSumOfGets(a, i, j);
  }

  /** `1 << k`. */
  function Pow2(k: nat): nat {
    if k == 0 then 1 else 2 * Pow2(k - 1)
  }
}
