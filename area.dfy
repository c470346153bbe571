/** The simulation state of the pixel-based fluid demo: an n-by-n intensity grid
    with a parallel n-by-n velocity grid, seeded with one hot centre cell and
    relaxed in place. */
module Simulation {
  import opened Neighbour
  import opened Diffusion

  /** A 2D vector. Velocities are only seeded, never evolved. */
  datatype Vec2 = Vec2(x: real, y: real)

  /** The on-screen extent the grid is laid over. */
  datatype Rect = Rect(width: real, height: real)

  datatype Option<T> = None | Some(value: T)

  /** The diffusion strength a caller asked for, or the default. */
  function Strength(k: Option<real>): (r: real)
    ensures k.Some? ==> r == k.value
    ensures k.None? ==> r == DefaultStrength
  {
    match k
    case Some(v) => v
    case None => DefaultStrength
  }

  /** The contents of a 2D array as columns of rows: `Cells(a)[x][y] == a[x, y]`. */
  ghost function Cells<T>(a: array2<T>): (g: seq<seq<T>>)
    reads a
    ensures |g| == a.Length0
    ensures forall x :: 0 <= x < a.Length0 ==> |g[x]| == a.Length1
    ensures forall x, y :: 0 <= x < a.Length0 && 0 <= y < a.Length1 ==> g[x][y] == a[x, y]
  {
    seq(a.Length0, x requires 0 <= x < a.Length0 reads a =>
      seq(a.Length1, y requires 0 <= y < a.Length1 reads a => a[x, y]))
  }

  class Area {
    const n: nat
    const rows: nat
    const columns: nat
    /** Width and height of one cell on screen; set once, never read by the relaxation. */
    const w: real
    const h: real
    var grid: array2<real>
    var velocity: array2<Vec2>

    /** Both grids are `columns` by `rows`, and both are n. */
    ghost predicate Valid()
      reads this
    {
      1 <= n && rows == n && columns == n &&
      grid.Length0 == columns && grid.Length1 == rows &&
      velocity.Length0 == columns && velocity.Length1 == rows
    }

    /** Allocates both grids zero-filled and seeds them. The source panics for n == 0,
        where seeding indexes an empty grid. */
    constructor (rect: Rect, n: nat)
      requires 1 <= n
      ensures Valid() && fresh(grid) && fresh(velocity)
      ensures this.n == n && w == rect.width / n as real && h == rect.height / n as real
      ensures Cells(grid) == SetCentre(Filled(n, 0.0), 100.0)
      ensures Cells(velocity) == SetCentre(Filled(n, Vec2(0.0, 0.0)), Vec2(-5.0, 1.0))
      ensures forall x, y :: 0 <= x < n && 0 <= y < n ==>
        grid[x, y] == (if x == n / 2 && y == n / 2 then 100.0 else 0.0)
    {
      this.n := n;
      rows := n;
      columns := n;
      w := rect.width / n as real;
      h := rect.height / n as real;
      grid := new real[n, n]((x, y) => 0.0);
      velocity := new Vec2[n, n]((x, y) => Vec2(0.0, 0.0));
      new;
      GridsEqual(Cells(grid), Filled(n, 0.0));
      GridsEqual(Cells(velocity), Filled(n, Vec2(0.0, 0.0)));
      Init();
    }

    /** Writes the hot centre cell and its velocity; every other cell keeps its value. */
    method Init()
      requires Valid()
      modifies grid, velocity
      ensures Valid()
      ensures Cells(grid) == SetCentre(old(Cells(grid)), 100.0)
      ensures Cells(velocity) == SetCentre(old(Cells(velocity)), Vec2(-5.0, 1.0))
    {
      ghost var g, v := Cells(grid), Cells(velocity);
      grid[columns / 2, rows / 2] := 100.0;
      velocity[columns / 2, rows / 2] := Vec2(-5.0, 1.0);
      GridsEqual(Cells(grid), SetCentre(g, 100.0));
      GridsEqual(Cells(velocity), SetCentre(v, Vec2(-5.0, 1.0)));
    }

    /** One tick of the simulation: 20 passes with strength 2. */
    method Generate()
      requires Valid() && 3 <= n
      modifies this`grid
      ensures Valid() && fresh(grid) && velocity == old(velocity)
      ensures Cells(grid) == Relax(old(Cells(grid)), 2.0, 20)
    {
      Iterate(20, Some(2.0));
    }

    /** Runs `iterations` passes over a copy of the grid and then makes the copy the
        grid. Centre terms read the grid as it was on entry; neighbour terms read the
        copy, which already holds this pass's values for the cells visited before.
        The source panics on an out-of-range neighbour when a pass runs on a grid
        smaller than 3 by 3. */
    method Iterate(iterations: int, k: Option<real>)
      requires Valid()
      requires iterations <= 0 || (3 <= n && Strength(k) != -1.0)
      modifies this`grid
      ensures Valid() && fresh(grid) && velocity == old(velocity)
      ensures Cells(grid) == Relax(old(Cells(grid)), Strength(k), if iterations <= 0 then 0 else iterations)
      ensures iterations <= 0 ==> Cells(grid) == old(Cells(grid))
    {
      var k := Strength(k);
      var orig := grid;
      ghost var g0 := Cells(orig);
      var temp := Clone(orig);
      var passes: nat := if iterations <= 0 then 0 else iterations;
      RelaxPasses(orig, temp, k, passes);
      grid := temp;
    }
  }
  /** A fresh array with the shape and the cells of `a`: `Vec::clone` of the grid. */
  method Clone(a: array2<real>) returns (c: array2<real>)
    ensures fresh(c) && c.Length0 == a.Length0 && c.Length1 == a.Length1
    ensures Cells(c) == Cells(a)
  {
    c := new real[a.Length0, a.Length1]((x, y) requires 0 <= x < a.Length0 && 0 <= y < a.Length1 reads a => a[x, y]);
    GridsEqual(Cells(c), Cells(a));
  }

  /** `passes` passes over the scratch grid `temp`, which starts as a copy of `orig`:
      the `for i in 0..iterations` loop of `Area::iterate`. */
  method RelaxPasses(orig: array2<real>, temp: array2<real>, k: real, passes: nat)
    requires orig != temp && orig.Length1 == orig.Length0
    requires temp.Length0 == orig.Length0 && temp.Length1 == orig.Length0
    requires passes == 0 || (3 <= orig.Length0 && k != -1.0)
    requires Cells(temp) == Cells(orig)
    modifies temp
    ensures Cells(temp) == Relax(Cells(orig), k, passes)
  {
    ghost var g0 := Cells(orig);
    var i := 0;
    while i < passes
      invariant 0 <= i <= passes
      invariant Cells(temp) == Relax(g0, k, i)
    {
      ghost var before := Cells(temp);
      RelaxPass(orig, temp, k);
      assert Cells(temp) == Sweep(g0, before, k, |g0|) == Relax(g0, k, i + 1);
      i := i + 1;
    }
  }

  /** One pass over the scratch grid `temp`, column by column (x outer, y inner):
      the loop body of `Area::iterate`. */
  method RelaxPass(orig: array2<real>, temp: array2<real>, k: real)
    requires orig != temp && 3 <= orig.Length0 && k != -1.0
    requires orig.Length1 == orig.Length0 && temp.Length0 == orig.Length0 && temp.Length1 == orig.Length0
    modifies temp
    ensures Cells(temp) == Sweep(Cells(orig), old(Cells(temp)), k, orig.Length0)
  {
    ghost var g0, start := Cells(orig), Cells(temp);
    var x := 0;
    while x < temp.Length0
      invariant 0 <= x <= temp.Length0
      invariant Cells(temp) == Sweep(g0, start, k, x)
    {
      RelaxColumn(orig, temp, k, x);
      x := x + 1;
    }
  }

  /** Updates cells (x, 0), ..., (x, n - 1) of `temp` in turn. Each new value takes its
      centre term from `orig` and its four neighbour terms from `temp` as it stands. */
  method RelaxColumn(orig: array2<real>, temp: array2<real>, k: real, x: nat)
    requires orig != temp && 3 <= orig.Length0 && k != -1.0 && x < orig.Length0
    requires orig.Length1 == orig.Length0 && temp.Length0 == orig.Length0 && temp.Length1 == orig.Length0
    modifies temp
    ensures Cells(temp) == SweepColumn(Cells(orig), old(Cells(temp)), k, x, orig.Length0)
  {
    ghost var g0, before := Cells(orig), Cells(temp);
    var columns, rows := temp.Length0, temp.Length1;
    var y := 0;
    while y < rows
      invariant 0 <= y <= rows
      invariant Cells(temp) == SweepColumn(g0, before, k, x, y)
    {
      ghost var s := Cells(temp);
      var sum := temp[Forward(x, columns), y] + temp[Backward(x), y] +
        temp[x, Forward(y, rows)] + temp[x, Backward(y)];
      var v := (1.0 / (1.0 + k)) * (orig[x, y] + k * (sum / 4.0));
      assert v == Blend(k, g0[x][y], sum);
      assert v == Relaxed(g0, s, k, x, y);
      temp[x, y] := v;
      GridsEqual(Cells(temp), s[x := s[x][y := v]]);
      y := y + 1;
    }
  }
}
