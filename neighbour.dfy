/** The neighbour-index rule of the relaxation sweep: which cell of an axis of
    length `len` is read as the neighbour of cell `i`. The same rule serves the
    x axis (columns) and the y axis (rows). Indices are returned as `int` so that
    the `usize` underflow of `i - 1` at `i == 0` shows up as -1 instead of being
    hidden by a `nat`. */
module Neighbour {

  /** Right (x) or down (y) neighbour: `i + 1`, or `i - 1` on the last cell of the axis. */
  function Forward(i: nat, len: nat): (r: int)
    ensures r == i + 1 || r == i - 1
    ensures i < len ==> (0 <= r < len <==> 2 <= len)
  {
    if i + 1 >= len then i - 1 else i + 1
  }

  /** Left (x) or up (y) neighbour: `i - 1`, except that the guard `i - 1 <= 0`
      (computed in 32-bit signed arithmetic) holds for both `i == 0` and `i == 1`,
      so both read `i + 1`. Does not depend on the axis length. */
  function Backward(i: nat): (r: int)
    ensures r == i + 1 || r == i - 1
    ensures 0 < r
  {
    if i - 1 <= 0 then i + 1 else i - 1
  }

  /** Every neighbour index of every cell lies on the axis. */
  ghost predicate AllInRange(len: nat)
  {
    forall i :: 0 <= i < len ==> 0 <= Forward(i, len) < len && 0 <= Backward(i) < len
  }

  /** The four neighbour lookups are in range for every cell exactly when the axis
      is empty or has at least three cells: with one cell `Forward` underflows to -1,
      with two cells `Backward(1)` reads index 2. */
  lemma {:induction false} NeighboursInRange(len: nat)
    ensures AllInRange(len) <==> (len == 0 || 3 <= len)
  {
    if len == 1 {
      assert Forward(0, 1) == -1;
    } else if len == 2 {
      assert Backward(1) == 2;
    } else if 3 <= len {
      forall i | 0 <= i < len
        ensures 0 <= Forward(i, len) < len && 0 <= Backward(i) < len
      {
      }
    }
  }

  /** Reference boundary rule: an index one step past either end is reflected back
      onto the axis about the edge cell (-1 reads 1, `len` reads `len - 2`). */
  function Mirror(j: int, len: nat): (r: int)
    requires 2 <= len && -1 <= j <= len
    ensures 0 <= r < len
  {
    if j < 0 then -j else if j == len then len - 2 else j
  }

  /** `Forward` is the reflecting rule applied to `i + 1`; `Backward` is the reflecting
      rule applied to `i - 1` on every cell but cell 1, whose up/left neighbour is cell 2
      where the reflecting rule gives cell 0. The boundary is a mirror, never a wrap to
      the opposite edge. */
  lemma {:induction false} MirrorBoundary(i: nat, len: nat)
    requires 3 <= len && i < len
    ensures Forward(i, len) == Mirror(i + 1, len)
    ensures i != 1 ==> Backward(i) == Mirror(i - 1, len)
    ensures i == 1 ==> Backward(i) == 2 && Mirror(i - 1, len) == 0
    ensures Forward(len - 1, len) == len - 2 && Backward(0) == 1
  {
  }
}
