/** The intensity field as a value, and the relaxation scheme of `Area::iterate`
    stated as functions on it. A grid is indexed `g[x][y]`: the outer index runs
    over the columns, the inner one over the rows, as in the source's
    `Vec<Vec<f32>>`. Intensities are `real`. */
module Diffusion {
  import opened Neighbour

  type Grid = seq<seq<real>>

  /** `g` is an n-by-n grid: n columns of n rows each. */
  predicate IsSquare<T>(g: seq<seq<T>>, n: nat)
  {
    |g| == n && forall x :: 0 <= x < n ==> |g[x]| == n
  }

  /** Two grids of the same side, at least 3, which is what the sweep needs to
      read every neighbour inside the grid. */
  predicate Fits(orig: Grid, t: Grid)
  {
    3 <= |t| && IsSquare(orig, |t|) && IsSquare(t, |t|)
  }

  /** Every cell of `g` lies in [lo, hi]. */
  predicate InBounds(g: Grid, lo: real, hi: real)
  {
    forall x, y :: 0 <= x < |g| && 0 <= y < |g[x]| ==> lo <= g[x][y] <= hi
  }

  /** Two grids with equal shape and equal cells are equal. */
  lemma GridsEqual<T>(g: seq<seq<T>>, h: seq<seq<T>>)
    requires |g| == |h|
    requires forall x :: 0 <= x < |g| ==> |g[x]| == |h[x]|
    requires forall x, y :: 0 <= x < |g| && 0 <= y < |g[x]| ==> g[x][y] == h[x][y]
    ensures g == h
  {
    forall x | 0 <= x < |g|
      ensures g[x] == h[x]
    {
    }
  }

  // ---------------------------------------------------------------------------
  // Seeding

  /** `g` with its centre cell, at `(|g| / 2, |g| / 2)`, set to `v`. */
  function SetCentre<T>(g: seq<seq<T>>, v: T): (r: seq<seq<T>>)
    requires 1 <= |g| && IsSquare(g, |g|)
    ensures IsSquare(r, |g|)
    ensures r[|g| / 2][|g| / 2] == v
    ensures forall x, y :: 0 <= x < |g| && 0 <= y < |g| && (x != |g| / 2 || y != |g| / 2) ==> r[x][y] == g[x][y]
  {
    var c := |g| / 2;
    g[c := g[c][c := v]]
  }

  /** Seeding a second time gives the state the first seeding gave. */
  lemma SetCentreIdempotent<T>(g: seq<seq<T>>, v: T)
    requires 1 <= |g| && IsSquare(g, |g|)
    ensures SetCentre(SetCentre(g, v), v) == SetCentre(g, v)
  {
    var c, once := |g| / 2, SetCentre(g, v);
    assert once[c][c := v] == once[c];
  }

  /** The n-by-n grid with every cell `v`. */
  function Filled<T>(n: nat, v: T): (r: seq<seq<T>>)
    ensures IsSquare(r, n)
    ensures forall x, y :: 0 <= x < n && 0 <= y < n ==> r[x][y] == v
  {
    seq(n, _ => seq(n, _ => v))
  }

  // ---------------------------------------------------------------------------
  // One cell update

  /** The strength used when none is given. */
  const DefaultStrength: real := 1.0

  /** The least of five values. */
  function Least(a: real, b: real, c: real, d: real, e: real): (m: real)
    ensures m <= a && m <= b && m <= c && m <= d && m <= e
    ensures m == a || m == b || m == c || m == d || m == e
  {
    var ab := if a <= b then a else b;
    var cd := if c <= d then c else d;
    var abcd := if ab <= cd then ab else cd;
    if abcd <= e then abcd else e
  }

  /** The greatest of five values. */
  function Greatest(a: real, b: real, c: real, d: real, e: real): (m: real)
    ensures a <= m && b <= m && c <= m && d <= m && e <= m
    ensures m == a || m == b || m == c || m == d || m == e
  {
    var ab := if a <= b then b else a;
    var cd := if c <= d then d else c;
    var abcd := if ab <= cd then cd else ab;
    if abcd <= e then e else abcd
  }

  /** The update rule: value `a` blended with the mean of the four values summing
      to `s`, with weights 1/(1+k) and k/(1+k). */
  function Blend(k: real, a: real, s: real): real
    requires k != -1.0
  {
    (1.0 / (1.0 + k)) * (a + k * (s / 4.0))
  }

  /** The value written into cell (x, y): the cell's value in the pre-call grid
      `orig`, blended with the mean of its four neighbours as they stand in the
      scratch grid `t`, with weights 1/(1+k) and k/(1+k). For k >= 0 it lies
      between the least and the greatest of the five values it reads. */
  function Relaxed(orig: Grid, t: Grid, k: real, x: nat, y: nat): (r: real)
    requires Fits(orig, t) && x < |t| && y < |t| && k != -1.0
    ensures var n := |t|;
      var a, e, w, s, nn := orig[x][y], t[Forward(x, n)][y], t[Backward(x)][y], t[x][Forward(y, n)], t[x][Backward(y)];
      0.0 <= k ==>
        (a <= r || e <= r || w <= r || s <= r || nn <= r) &&
        (r <= a || r <= e || r <= w || r <= s || r <= nn)
  {
    var n := |t|;
    var a, e, w, s, nn := orig[x][y], t[Forward(x, n)][y], t[Backward(x)][y], t[x][Forward(y, n)], t[x][Backward(y)];
    if 0.0 <= k then
      BlendBounded(k, a, e + w + s + nn, Least(a, e, w, s, nn), Greatest(a, e, w, s, nn));
      Blend(k, a, e + w + s + nn)
    else
      Blend(k, a, e + w + s + nn)
  }

  /** The blend (a + k * s / 4) / (1 + k) is c * a + w * s with c = 1/(1+k) and
      w = k/(4(1+k)); the weights sum to 1 and, for k >= 0, none is negative. */
  lemma BlendIsConvex(k: real, a: real, s: real)
    requires k != -1.0
    ensures var c, w := 1.0 / (1.0 + k), k / (4.0 * (1.0 + k));
      && Blend(k, a, s) == c * a + w * s
      && c + 4.0 * w == 1.0
      && (0.0 <= k ==> 0.0 < c && 0.0 <= w)
  {
    var c, w := 1.0 / (1.0 + k), k / (4.0 * (1.0 + k));
    assert c * (k * (s / 4.0)) == w * s by {
      assert c * k == k / (1.0 + k);
    }
    assert c + 4.0 * w == (1.0 + k) / (1.0 + k);
    if 0.0 <= k {
      assert 0.0 < 1.0 + k;
    }
  }

  /** For k >= 0 the blend of a value and a sum of four values, all in [lo, hi],
      lies in [lo, hi]. */
  lemma BlendBounded(k: real, a: real, s: real, lo: real, hi: real)
    requires 0.0 <= k && lo <= a <= hi && 4.0 * lo <= s <= 4.0 * hi
    ensures lo <= Blend(k, a, s) <= hi
  {
    BlendIsConvex(k, a, s);
    WeightedMeanBounded(1.0 / (1.0 + k), k / (4.0 * (1.0 + k)), a, s, lo, hi);
  }

  /** The update is an affine combination of five inputs: weight 1/(1+k) on the
      cell's old value and k/(4(1+k)) on each of the four neighbours read; the
      weights sum to 1 and, for k >= 0, none is negative. */
  lemma {:induction false} RelaxedIsConvex(orig: Grid, t: Grid, k: real, x: nat, y: nat)
    requires Fits(orig, t) && x < |t| && y < |t| && k != -1.0
    ensures var n, c, w := |t|, 1.0 / (1.0 + k), k / (4.0 * (1.0 + k));
      && Relaxed(orig, t, k, x, y)
         == c * orig[x][y] + w * (t[Forward(x, n)][y] + t[Backward(x)][y] + t[x][Forward(y, n)] + t[x][Backward(y)])
      && c + 4.0 * w == 1.0
      && (0.0 <= k ==> 0.0 < c && 0.0 <= w)
  {
    var n := |t|;
    var a, s := orig[x][y], t[Forward(x, n)][y] + t[Backward(x)][y] + t[x][Forward(y, n)] + t[x][Backward(y)];
    assert Relaxed(orig, t, k, x, y) == Blend(k, a, s);
    BlendIsConvex(k, a, s);
  }

  /** c * a + w * s with c + 4w = 1 and nonnegative weights lies between the bounds
      of a and s / 4. */
  lemma WeightedMeanBounded(c: real, w: real, a: real, s: real, lo: real, hi: real)
    requires 0.0 <= c && 0.0 <= w && c + 4.0 * w == 1.0
    requires lo <= a <= hi && 4.0 * lo <= s <= 4.0 * hi
    ensures lo <= c * a + w * s <= hi
  {
    ProductNonNegative(c, a - lo);
    ProductNonNegative(w, s - 4.0 * lo);
    ProductNonNegative(c, hi - a);
    ProductNonNegative(w, 4.0 * hi - s);
  }

  lemma ProductNonNegative(p: real, q: real)
    requires 0.0 <= p && 0.0 <= q
    ensures 0.0 <= p * q
  {
  }

  /** A convex combination of values in [lo, hi] stays in [lo, hi]. */
  lemma {:induction false} RelaxedBounded(orig: Grid, t: Grid, k: real, x: nat, y: nat, lo: real, hi: real)
    requires Fits(orig, t) && x < |t| && y < |t| && 0.0 <= k
    requires InBounds(orig, lo, hi) && InBounds(t, lo, hi)
    ensures lo <= Relaxed(orig, t, k, x, y) <= hi
  {
    var n := |t|;
    assert lo <= orig[x][y] <= hi;
    assert lo <= t[Forward(x, n)][y] <= hi && lo <= t[Backward(x)][y] <= hi;
    assert lo <= t[x][Forward(y, n)] <= hi && lo <= t[x][Backward(y)] <= hi;
  }

  // ---------------------------------------------------------------------------
  // Sweeps

  /** `t` after cells (x, 0), ..., (x, y - 1) of column x have been updated in turn,
      each update reading the scratch grid as the earlier ones left it. */
  function SweepColumn(orig: Grid, t: Grid, k: real, x: nat, y: nat): (r: Grid)
    requires Fits(orig, t) && x < |t| && y <= |t| && k != -1.0
    ensures IsSquare(r, |t|)
    decreases y
  {
    if y == 0 then t
    else
      var s := SweepColumn(orig, t, k, x, y - 1);
      s[x := s[x][y - 1 := Relaxed(orig, s, k, x, y - 1)]]
  }

  /** `t` after columns 0, ..., x - 1 have each been swept top to bottom: the
      row-major visiting order of one pass, x outer and y inner. */
  function Sweep(orig: Grid, t: Grid, k: real, x: nat): (r: Grid)
    requires Fits(orig, t) && x <= |t| && k != -1.0
    ensures IsSquare(r, |t|)
    decreases x
  {
    if x == 0 then t
    else SweepColumn(orig, Sweep(orig, t, k, x - 1), k, x - 1, |t|)
  }

  /** The scratch grid after `passes` full passes, starting from a copy of `orig`;
      every pass takes its centre terms from `orig`. */
  function Relax(orig: Grid, k: real, passes: nat): (r: Grid)
    requires IsSquare(orig, |orig|)
    requires passes == 0 || (3 <= |orig| && k != -1.0)
    ensures IsSquare(r, |orig|)
    ensures passes == 0 ==> r == orig
    decreases passes
  {
    if passes == 0 then orig
    else Sweep(orig, Relax(orig, k, passes - 1), k, |orig|)
  }

  // ---------------------------------------------------------------------------
  // What a pass touches, and in which order

  /** Sweeping column x up to row y writes only cells (x, 0), ..., (x, y - 1). */
  lemma {:induction false} SweepColumnFrame(orig: Grid, t: Grid, k: real, x: nat, y: nat)
    requires Fits(orig, t) && x < |t| && y <= |t| && k != -1.0
    ensures forall i, j :: 0 <= i < |t| && 0 <= j < |t| && (i != x || y <= j) ==>
      SweepColumn(orig, t, k, x, y)[i][j] == t[i][j]
  {
    if y > 0 {
      SweepColumnFrame(orig, t, k, x, y - 1);
    }
  }

  /** Each cell of the column is written once, at its turn: its final value is the
      update computed from the scratch grid as it stood when the sweep reached it. */
  lemma {:induction false} SweepColumnOrder(orig: Grid, t: Grid, k: real, x: nat, y: nat, j: nat)
    requires Fits(orig, t) && x < |t| && j < y <= |t| && k != -1.0
    ensures SweepColumn(orig, t, k, x, y)[x][j] == Relaxed(orig, SweepColumn(orig, t, k, x, j), k, x, j)
    decreases y
  {
    if j < y - 1 {
      SweepColumnOrder(orig, t, k, x, y - 1, j);
    }
  }

  /** After the first x columns of a pass, columns x and beyond are untouched. */
  lemma {:induction false} SweepFrame(orig: Grid, t: Grid, k: real, x: nat)
    requires Fits(orig, t) && x <= |t| && k != -1.0
    ensures forall i, j :: x <= i < |t| && 0 <= j < |t| ==> Sweep(orig, t, k, x)[i][j] == t[i][j]
    decreases x
  {
    if x > 0 {
      SweepFrame(orig, t, k, x - 1);
      SweepColumnFrame(orig, Sweep(orig, t, k, x - 1), k, x - 1, |t|);
    }
  }

  // ---------------------------------------------------------------------------
  // The convex bound

  lemma {:induction false} SweepColumnBounded(orig: Grid, t: Grid, k: real, x: nat, y: nat, lo: real, hi: real)
    requires Fits(orig, t) && x < |t| && y <= |t| && 0.0 <= k
    requires InBounds(orig, lo, hi) && InBounds(t, lo, hi)
    ensures InBounds(SweepColumn(orig, t, k, x, y), lo, hi)
    decreases y
  {
    if y > 0 {
      var s := SweepColumn(orig, t, k, x, y - 1);
      SweepColumnBounded(orig, t, k, x, y - 1, lo, hi);
      RelaxedBounded(orig, s, k, x, y - 1, lo, hi);
    }
  }

  lemma {:induction false} SweepBounded(orig: Grid, t: Grid, k: real, x: nat, lo: real, hi: real)
    requires Fits(orig, t) && x <= |t| && 0.0 <= k
    requires InBounds(orig, lo, hi) && InBounds(t, lo, hi)
    ensures InBounds(Sweep(orig, t, k, x), lo, hi)
    decreases x
  {
    if x > 0 {
      SweepBounded(orig, t, k, x - 1, lo, hi);
      SweepColumnBounded(orig, Sweep(orig, t, k, x - 1), k, x - 1, |t|, lo, hi);
    }
  }

  /** With k >= 0, if every cell of the pre-call grid lies in [lo, hi], so does every
      cell after any number of passes: the relaxation creates no new extremes. */
  lemma {:induction false} RelaxBounded(orig: Grid, k: real, passes: nat, lo: real, hi: real)
    requires 3 <= |orig| && IsSquare(orig, |orig|) && 0.0 <= k
    requires InBounds(orig, lo, hi)
    ensures InBounds(Relax(orig, k, passes), lo, hi)
    decreases passes
  {
    if passes > 0 {
      RelaxBounded(orig, k, passes - 1, lo, hi);
      SweepBounded(orig, Relax(orig, k, passes - 1), k, |orig|, lo, hi);
    }
  }

  // ---------------------------------------------------------------------------
  // The read order, on a concrete grid

  /** On a 3-by-3 grid seeded with 100 in the centre, one pass with k = 1 leaves 6.25
      in cell (0, 2), although every neighbour of that cell is 0 before the pass: the
      cell reads cell (0, 1), which the same pass has already raised to 25. A pass
      that read only the pre-pass grid would leave 0 there. */
  lemma GaussSeidelReadOrder()
    ensures var seed := SetCentre(Filled(3, 0.0), 100.0);
      && seed[0][1] == 0.0 && seed[1][2] == 0.0
      && Relax(seed, 1.0, 1)[0][1] == 25.0
      && Relax(seed, 1.0, 1)[0][2] == 6.25
  {
    var seed := SetCentre(Filled(3, 0.0), 100.0);
    assert seed[1][1] == 100.0;
    var c1 := SweepColumn(seed, seed, 1.0, 0, 1);
    assert c1[0][0] == Relaxed(seed, seed, 1.0, 0, 0) == 0.0;
    var c2 := SweepColumn(seed, seed, 1.0, 0, 2);
    assert c2 == c1[0 := c1[0][1 := Relaxed(seed, c1, 1.0, 0, 1)]];
    assert c1[1] == seed[1] && c1[0][2] == 0.0;
    assert c2[0][1] == Relaxed(seed, c1, 1.0, 0, 1) == 25.0;
    var c3 := SweepColumn(seed, seed, 1.0, 0, 3);
    assert c2[1] == seed[1] && c2[0][2] == 0.0;
    assert c3[0][2] == Relaxed(seed, c2, 1.0, 0, 2) == 6.25;
    assert c3[0][1] == 25.0;
    assert Sweep(seed, seed, 1.0, 1) == c3;
    SweepColumnFrame(seed, Sweep(seed, seed, 1.0, 1), 1.0, 1, 3);
    SweepColumnFrame(seed, Sweep(seed, seed, 1.0, 2), 1.0, 2, 3);
  }

  /** The 5-by-5 grid with 100 in the centre cell. */
  function Seed5(): (g: Grid)
    ensures IsSquare(g, 5)
  {
    SetCentre(Filled(5, 0.0), 100.0)
  }

  /** Column 0 of the first pass over the 5-by-5 seed with k = 1 reads only zeros, so
      it leaves the grid as it was. */
  lemma {:induction false} FirstColumnUnchanged()
    ensures var g: Grid := [[0.0, 0.0, 0.0, 0.0, 0.0], [0.0, 0.0, 0.0, 0.0, 0.0], [0.0, 0.0, 100.0, 0.0, 0.0], [0.0, 0.0, 0.0, 0.0, 0.0], [0.0, 0.0, 0.0, 0.0, 0.0]];
      SweepColumn(g, g, 1.0, 0, 5) == g
  {
    var g: Grid := [[0.0, 0.0, 0.0, 0.0, 0.0], [0.0, 0.0, 0.0, 0.0, 0.0], [0.0, 0.0, 100.0, 0.0, 0.0], [0.0, 0.0, 0.0, 0.0, 0.0], [0.0, 0.0, 0.0, 0.0, 0.0]];
    assert g[0][0 := 0.0] == g[0] && g[0][1 := 0.0] == g[0] && g[0][2 := 0.0] == g[0];
    assert g[0][3 := 0.0] == g[0] && g[0][4 := 0.0] == g[0];
    assert Relaxed(g, g, 1.0, 0, 0) == 0.0 && SweepColumn(g, g, 1.0, 0, 1) == g;
    assert Relaxed(g, g, 1.0, 0, 1) == 0.0 && SweepColumn(g, g, 1.0, 0, 2) == g;
    assert Relaxed(g, g, 1.0, 0, 2) == 0.0 && SweepColumn(g, g, 1.0, 0, 3) == g;
    assert Relaxed(g, g, 1.0, 0, 3) == 0.0 && SweepColumn(g, g, 1.0, 0, 4) == g;
    assert Relaxed(g, g, 1.0, 0, 4) == 0.0;
  }

  /** Column 1 of that pass reads column 2 on both sides: cell (1, 2) gets 25 from the
      hot cell, and the cells below it get the spill-over. */
  lemma {:induction false} SecondColumn()
    ensures var g: Grid := [[0.0, 0.0, 0.0, 0.0, 0.0], [0.0, 0.0, 0.0, 0.0, 0.0], [0.0, 0.0, 100.0, 0.0, 0.0], [0.0, 0.0, 0.0, 0.0, 0.0], [0.0, 0.0, 0.0, 0.0, 0.0]];
      SweepColumn(g, g, 1.0, 1, 5) == g[1 := [0.0, 0.0, 25.0, 3.125, 0.78125]]
  {
    var g: Grid := [[0.0, 0.0, 0.0, 0.0, 0.0], [0.0, 0.0, 0.0, 0.0, 0.0], [0.0, 0.0, 100.0, 0.0, 0.0], [0.0, 0.0, 0.0, 0.0, 0.0], [0.0, 0.0, 0.0, 0.0, 0.0]];
    assert g[1][0 := 0.0] == g[1] && g[1][1 := 0.0] == g[1];
    assert Relaxed(g, g, 1.0, 1, 0) == 0.0 && SweepColumn(g, g, 1.0, 1, 1) == g;
    assert Relaxed(g, g, 1.0, 1, 1) == 0.0 && SweepColumn(g, g, 1.0, 1, 2) == g;
    var b3 := g[1 := [0.0, 0.0, 25.0, 0.0, 0.0]];
    assert Relaxed(g, g, 1.0, 1, 2) == 25.0 && g[1][2 := 25.0] == b3[1];
    assert SweepColumn(g, g, 1.0, 1, 3) == b3;
    var b4 := g[1 := [0.0, 0.0, 25.0, 3.125, 0.0]];
    assert Relaxed(g, b3, 1.0, 1, 3) == 3.125 && b3[1][3 := 3.125] == b4[1];
    assert SweepColumn(g, g, 1.0, 1, 4) == b4;
    assert Relaxed(g, b4, 1.0, 1, 4) == 0.78125 && b4[1][4 := 0.78125] == [0.0, 0.0, 25.0, 3.125, 0.78125];
  }

  /** The first two columns of the first pass over the 5-by-5 seed with k = 1. */
  lemma {:induction false} FirstTwoColumns()
    ensures Sweep(Seed5(), Seed5(), 1.0, 2) == [[0.0, 0.0, 0.0, 0.0, 0.0], [0.0, 0.0, 25.0, 3.125, 0.78125], [0.0, 0.0, 100.0, 0.0, 0.0], [0.0, 0.0, 0.0, 0.0, 0.0], [0.0, 0.0, 0.0, 0.0, 0.0]]
  {
    var g: Grid := [[0.0, 0.0, 0.0, 0.0, 0.0], [0.0, 0.0, 0.0, 0.0, 0.0], [0.0, 0.0, 100.0, 0.0, 0.0], [0.0, 0.0, 0.0, 0.0, 0.0], [0.0, 0.0, 0.0, 0.0, 0.0]];
    GridsEqual(Seed5(), g);
    FirstColumnUnchanged();
    SecondColumn();
    assert Sweep(g, g, 1.0, 1) == g;
    assert Sweep(g, g, 1.0, 2) == g[1 := [0.0, 0.0, 25.0, 3.125, 0.78125]];
  }

  /** Column 2 of that pass up to the centre: (2, 1) gets 25, and the centre then reads
      25 from both (1, 2) and (2, 1). */
  lemma {:induction false} CentreWrite()
    ensures var g: Grid, t2: Grid := [[0.0, 0.0, 0.0, 0.0, 0.0], [0.0, 0.0, 0.0, 0.0, 0.0], [0.0, 0.0, 100.0, 0.0, 0.0], [0.0, 0.0, 0.0, 0.0, 0.0], [0.0, 0.0, 0.0, 0.0, 0.0]], [[0.0, 0.0, 0.0, 0.0, 0.0], [0.0, 0.0, 25.0, 3.125, 0.78125], [0.0, 0.0, 100.0, 0.0, 0.0], [0.0, 0.0, 0.0, 0.0, 0.0], [0.0, 0.0, 0.0, 0.0, 0.0]];
      var c2 := SweepColumn(g, t2, 1.0, 2, 2);
      c2 == t2[2 := [0.0, 25.0, 100.0, 0.0, 0.0]] && Relaxed(g, c2, 1.0, 2, 2) == 56.25
  {
    var g: Grid, t2: Grid := [[0.0, 0.0, 0.0, 0.0, 0.0], [0.0, 0.0, 0.0, 0.0, 0.0], [0.0, 0.0, 100.0, 0.0, 0.0], [0.0, 0.0, 0.0, 0.0, 0.0], [0.0, 0.0, 0.0, 0.0, 0.0]], [[0.0, 0.0, 0.0, 0.0, 0.0], [0.0, 0.0, 25.0, 3.125, 0.78125], [0.0, 0.0, 100.0, 0.0, 0.0], [0.0, 0.0, 0.0, 0.0, 0.0], [0.0, 0.0, 0.0, 0.0, 0.0]];
    assert Relaxed(g, t2, 1.0, 2, 0) == 0.0 && t2[2][0 := 0.0] == t2[2];
    assert SweepColumn(g, t2, 1.0, 2, 1) == t2;
    var c2 := t2[2 := [0.0, 25.0, 100.0, 0.0, 0.0]];
    assert Relaxed(g, t2, 1.0, 2, 1) == 25.0 && t2[2][1 := 25.0] == c2[2];
    assert SweepColumn(g, t2, 1.0, 2, 2) == c2;
    assert Relaxed(g, c2, 1.0, 2, 2) == 56.25;
  }

  /** On a 5-by-5 grid seeded with 100 in the centre, one pass with k = 1 leaves 56.25
      in the centre, where the same update computed from the pre-pass grid alone gives
      50: by the time the sweep reaches (2, 2), cells (1, 2) and (2, 1) already hold 25. */
  lemma {:induction false} CentreAfterOnePass()
    ensures var seed := Seed5();
      Relax(seed, 1.0, 1)[2][2] == 56.25 && Relaxed(seed, seed, 1.0, 2, 2) == 50.0
  {
    var g: Grid, t2: Grid := [[0.0, 0.0, 0.0, 0.0, 0.0], [0.0, 0.0, 0.0, 0.0, 0.0], [0.0, 0.0, 100.0, 0.0, 0.0], [0.0, 0.0, 0.0, 0.0, 0.0], [0.0, 0.0, 0.0, 0.0, 0.0]], [[0.0, 0.0, 0.0, 0.0, 0.0], [0.0, 0.0, 25.0, 3.125, 0.78125], [0.0, 0.0, 100.0, 0.0, 0.0], [0.0, 0.0, 0.0, 0.0, 0.0], [0.0, 0.0, 0.0, 0.0, 0.0]];
    GridsEqual(Seed5(), g);
    assert Relaxed(g, g, 1.0, 2, 2) == 50.0;
    FirstTwoColumns();
    CentreWrite();
    SweepColumnOrder(g, t2, 1.0, 2, 5, 2);
    var t3 := Sweep(g, g, 1.0, 3);
    assert t3[2][2] == 56.25;
    SweepColumnFrame(g, t3, 1.0, 3, 5);
    SweepColumnFrame(g, Sweep(g, g, 1.0, 4), 1.0, 4, 5);
  }

  // ---------------------------------------------------------------------------
  // The total intensity is not conserved

  /** Sum of a column. */
  function ColumnTotal(c: seq<real>): real
  {
    if |c| == 0 then 0.0 else ColumnTotal(c[..|c| - 1]) + c[|c| - 1]
  }

  /** Sum of every cell of a grid. */
  function Total(g: Grid): real
  {
    if |g| == 0 then 0.0 else Total(g[..|g| - 1]) + ColumnTotal(g[|g| - 1])
  }

  /** A column of three cells totals the sum of its cells. */
  lemma ColumnTotalOfThree(c: seq<real>)
    requires |c| == 3
    ensures ColumnTotal(c) == c[0] + c[1] + c[2]
  {
    assert c[..2][..1] == c[..1] && c[..1][..0] == [];
    assert ColumnTotal(c[..1]) == c[0];
    assert ColumnTotal(c[..2]) == ColumnTotal(c[..1]) + c[1];
  }

  /** A grid of three columns totals the sum of its column totals. */
  lemma TotalOfThree(g: Grid)
    requires |g| == 3
    ensures Total(g) == ColumnTotal(g[0]) + ColumnTotal(g[1]) + ColumnTotal(g[2])
  {
    assert g[..2][..1] == g[..1] && g[..1][..0] == [];
    assert Total(g[..1]) == ColumnTotal(g[0]);
    assert Total(g[..2]) == Total(g[..1]) + ColumnTotal(g[1]);
  }

  /** The 3-by-3 grid with 100 in the centre cell. */
  function Seed3(): (g: Grid)
    ensures IsSquare(g, 3)
  {
    SetCentre(Filled(3, 0.0), 100.0)
  }

  /** Column 0 of the first pass over the 3-by-3 seed with k = 1: (0, 1) reads the hot
      cell twice and gets 25, and (0, 2) then reads (0, 1) twice and gets 6.25. */
  lemma {:induction false} SeedThreeColumn0()
    ensures var g: Grid := [[0.0, 0.0, 0.0], [0.0, 100.0, 0.0], [0.0, 0.0, 0.0]];
      SweepColumn(g, g, 1.0, 0, 3) == [[0.0, 25.0, 6.25], [0.0, 100.0, 0.0], [0.0, 0.0, 0.0]]
  {
    var g: Grid := [[0.0, 0.0, 0.0], [0.0, 100.0, 0.0], [0.0, 0.0, 0.0]];
    assert Relaxed(g, g, 1.0, 0, 0) == 0.0 && g[0][0 := 0.0] == g[0];
    assert SweepColumn(g, g, 1.0, 0, 1) == g;
    var a2 := [[0.0, 25.0, 0.0], [0.0, 100.0, 0.0], [0.0, 0.0, 0.0]];
    assert Relaxed(g, g, 1.0, 0, 1) == 25.0 && g[0][1 := 25.0] == a2[0];
    assert SweepColumn(g, g, 1.0, 0, 2) == a2;
    assert Relaxed(g, a2, 1.0, 0, 2) == 6.25 && a2[0][2 := 6.25] == [0.0, 25.0, 6.25];
  }

  /** Column 1 of that pass: it reads column 2 on both sides, and its centre terms come
      from the seed, so (1, 1) drops from 100 to 50. */
  lemma {:induction false} SeedThreeColumn1()
    ensures var g: Grid := [[0.0, 0.0, 0.0], [0.0, 100.0, 0.0], [0.0, 0.0, 0.0]];
      SweepColumn(g, [[0.0, 25.0, 6.25], [0.0, 100.0, 0.0], [0.0, 0.0, 0.0]], 1.0, 1, 3) == [[0.0, 25.0, 6.25], [25.0, 50.0, 12.5], [0.0, 0.0, 0.0]]
  {
    var g: Grid := [[0.0, 0.0, 0.0], [0.0, 100.0, 0.0], [0.0, 0.0, 0.0]];
    var t1 := [[0.0, 25.0, 6.25], [0.0, 100.0, 0.0], [0.0, 0.0, 0.0]];
    var b1 := [[0.0, 25.0, 6.25], [25.0, 100.0, 0.0], [0.0, 0.0, 0.0]];
    assert Relaxed(g, t1, 1.0, 1, 0) == 25.0 && t1[1][0 := 25.0] == b1[1];
    assert SweepColumn(g, t1, 1.0, 1, 1) == b1;
    var b2 := [[0.0, 25.0, 6.25], [25.0, 50.0, 0.0], [0.0, 0.0, 0.0]];
    assert Relaxed(g, b1, 1.0, 1, 1) == 50.0 && b1[1][1 := 50.0] == b2[1];
    assert SweepColumn(g, t1, 1.0, 1, 2) == b2;
    assert Relaxed(g, b2, 1.0, 1, 2) == 12.5 && b2[1][2 := 12.5] == [25.0, 50.0, 12.5];
  }

  /** Column 2 of that pass: it reads column 1 on both sides. */
  lemma {:induction false} SeedThreeColumn2()
    ensures var g: Grid := [[0.0, 0.0, 0.0], [0.0, 100.0, 0.0], [0.0, 0.0, 0.0]];
      SweepColumn(g, [[0.0, 25.0, 6.25], [25.0, 50.0, 12.5], [0.0, 0.0, 0.0]], 1.0, 2, 3) == [[0.0, 25.0, 6.25], [25.0, 50.0, 12.5], [6.25, 12.5, 6.25]]
  {
    var g: Grid := [[0.0, 0.0, 0.0], [0.0, 100.0, 0.0], [0.0, 0.0, 0.0]];
    var t2 := [[0.0, 25.0, 6.25], [25.0, 50.0, 12.5], [0.0, 0.0, 0.0]];
    var d1 := [[0.0, 25.0, 6.25], [25.0, 50.0, 12.5], [6.25, 0.0, 0.0]];
    assert Relaxed(g, t2, 1.0, 2, 0) == 6.25 && t2[2][0 := 6.25] == d1[2];
    assert SweepColumn(g, t2, 1.0, 2, 1) == d1;
    var d2 := [[0.0, 25.0, 6.25], [25.0, 50.0, 12.5], [6.25, 12.5, 0.0]];
    assert Relaxed(g, d1, 1.0, 2, 1) == 12.5 && d1[2][1 := 12.5] == d2[2];
    assert SweepColumn(g, t2, 1.0, 2, 2) == d2;
    assert Relaxed(g, d2, 1.0, 2, 2) == 6.25 && d2[2][2 := 6.25] == [6.25, 12.5, 6.25];
  }

  /** One pass over the 3-by-3 seed with k = 1, cell by cell. */
  lemma {:induction false} SeedThreePass()
    ensures Relax(Seed3(), 1.0, 1) == [[0.0, 25.0, 6.25], [25.0, 50.0, 12.5], [6.25, 12.5, 6.25]]
  {
    var g: Grid := [[0.0, 0.0, 0.0], [0.0, 100.0, 0.0], [0.0, 0.0, 0.0]];
    GridsEqual(Seed3(), g);
    SeedThreeColumn0();
    SeedThreeColumn1();
    SeedThreeColumn2();
    assert Sweep(g, g, 1.0, 1) == [[0.0, 25.0, 6.25], [0.0, 100.0, 0.0], [0.0, 0.0, 0.0]];
    assert Sweep(g, g, 1.0, 2) == [[0.0, 25.0, 6.25], [25.0, 50.0, 12.5], [0.0, 0.0, 0.0]];
    assert Sweep(g, g, 1.0, 3) == [[0.0, 25.0, 6.25], [25.0, 50.0, 12.5], [6.25, 12.5, 6.25]];
  }

  /** One pass over the 3-by-3 seed with k = 1 takes the total intensity from 100 to
      143.75: the mirrored boundary makes edge cells read the same neighbour twice,
      and every centre term is the pre-call value, so the update is not a
      redistribution of the existing total. */
  lemma {:induction false} PassChangesTotal()
    ensures Total(Seed3()) == 100.0
    ensures Relax(Seed3(), 1.0, 1) == [[0.0, 25.0, 6.25], [25.0, 50.0, 12.5], [6.25, 12.5, 6.25]]
    ensures Total(Relax(Seed3(), 1.0, 1)) == 143.75
  {
    var g: Grid := [[0.0, 0.0, 0.0], [0.0, 100.0, 0.0], [0.0, 0.0, 0.0]];
    GridsEqual(Seed3(), g);
    TotalOfThree(g);
    ColumnTotalOfThree(g[0]);
    ColumnTotalOfThree(g[1]);
    ColumnTotalOfThree(g[2]);
    var t3: Grid := [[0.0, 25.0, 6.25], [25.0, 50.0, 12.5], [6.25, 12.5, 6.25]];
    SeedThreePass();
    TotalOfThree(t3);
    ColumnTotalOfThree(t3[0]);
    ColumnTotalOfThree(t3[1]);
    ColumnTotalOfThree(t3[2]);
  }
}
