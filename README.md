# Pixel-based diffusion grid: a Dafny model

This project models the `Area` grid of the pixel-based fluid demo (`pixel-based/src/main.rs`).
An `Area` holds an n×n intensity grid and a parallel n×n velocity grid. Construction
allocates both zero-filled and seeds one hot centre cell, with intensity 100 and velocity
(-5, 1). Every tick, `generate` calls `iterate(20, Some(2.0))`. `iterate` copies the grid
into a scratch grid and relaxes the copy in place. It makes `iterations` passes, column by
column (x outer, y inner), and then makes the copy the grid.

Each cell is updated to `(1/(1+k)) * (grid[x][y] + k * (sum of four neighbours) / 4)`:
- The centre term reads the grid as it was when the call began. That grid is not written
  during the call.
- The neighbour terms read the scratch grid as it stands. Earlier cells of the same pass
  already hold their new values there, so the scheme is Gauss-Seidel-like.

The neighbour rule mirrors at the edges; it does not wrap:
- The right/down neighbour is `i + 1`, or `i - 1` on the last cell.
- The left/up neighbour is `i - 1`, or `i + 1` when `i - 1 <= 0`. That test holds for cell 1
  as well as cell 0, so cell 1 reads cell 2 on that side.

As a result, every neighbour index is in range exactly when n ≥ 3.

Layout:
- `neighbour.dfy` (module `Neighbour`): the index rule, and a reflecting reference rule it is
  compared with.
- `diffusion.dfy` (module `Diffusion`): the grid as a value (`seq<seq<real>>`), the update of
  one cell, one column, one pass and `passes` passes as functions, and the lemmas about them.
- `area.dfy` (module `Simulation`): class `Area` with `array2` fields. Its constructor, `Init`,
  `Iterate` and `Generate` are proved against the functions of `Diffusion`.

Consequences of the code that are easy to get wrong:
- The boundary mirrors; it does not wrap to the opposite edge. Cell 0's left/up neighbour
  is cell 1, and cell 1's is cell 2 (`MirrorBoundary`).
- The constructor requires n ≥ 1: with n = 0, `init` indexes an empty grid and panics.
- One pass with k = 1 on a 5×5 grid seeded with 100 leaves 56.25 in the centre, not 50.
  The centre reads two neighbours the same pass has already raised to 25
  (`CentreAfterOnePass`). `GaussSeidelReadOrder` shows the same effect on a 3×3 grid.
- A pass does not conserve the total intensity. On the 3×3 seed, one pass with k = 1 takes
  the total from 100 to 143.75 (`PassChangesTotal`).

## Model

| member | source | states |
|---|---|---|
| `Neighbour.Forward` | pixel-based/src/main.rs:64-66 | The right/down neighbour of cell i is i+1 or i-1. For a cell on the axis it is in range exactly when the axis has at least 2 cells; with 1 cell it underflows. |
| `Neighbour.Backward` | pixel-based/src/main.rs:65-67 | The left/up neighbour of cell i is i+1 or i-1, and never below 1: the `<= 0` guard sends both cell 0 and cell 1 to i+1. |
| `Neighbour.NeighboursInRange` | pixel-based/src/main.rs:64-67 | All four neighbour lookups of every cell are in range if and only if n = 0 or n ≥ 3. With n = 1, `x-1` underflows; with n = 2, cell 1's left lookup reads index 2. |
| `Neighbour.MirrorBoundary` | pixel-based/src/main.rs:64-67 | Compared with a reflecting reference rule: the forward neighbour always agrees with it; the backward neighbour agrees on every cell except cell 1, which reads cell 2 where reflection gives cell 0. The last cell's forward neighbour is n-2, not 0 (no wrap). |
| `Diffusion.Filled` | pixel-based/src/main.rs:22-23 | The freshly allocated grid is n×n with every cell the given value. |
| `Diffusion.SetCentre` | pixel-based/src/main.rs:42-43 | Seeding writes cell (n/2, n/2) and leaves every other cell and the shape unchanged. |
| `Diffusion.SetCentreIdempotent` | pixel-based/src/main.rs:42-43 | Seeding twice gives the same grid as seeding once. |
| `Diffusion.Relaxed` | pixel-based/src/main.rs:62-71 | The value written into cell (x, y). It takes its centre term from the entry grid and its four neighbour terms from the scratch grid, at the indices `Forward` and `Backward` give, with weights 1/(1+k) and k/(1+k) on the neighbours' mean. For k ≥ 0 it lies between the least and the greatest of the five values read. |
| `Diffusion.BlendBounded` | pixel-based/src/main.rs:62-71 | For k ≥ 0, blending a centre value in [lo, hi] with four neighbours whose sum is in [4·lo, 4·hi] gives a value in [lo, hi]. |
| `Diffusion.RelaxedIsConvex` | pixel-based/src/main.rs:62-71 | The update is 1/(1+k) times the centre plus k/(4(1+k)) times each of the four neighbours. The weights sum to 1, and for k ≥ 0 none is negative. |
| `Diffusion.RelaxedBounded` | pixel-based/src/main.rs:62-71 | For k ≥ 0, if the pre-call grid and the scratch grid lie in [lo, hi], the value written lies in [lo, hi]. |
| `Diffusion.SweepColumn` | pixel-based/src/main.rs:61-72 | Updating one column row by row, each cell reading the scratch grid as the earlier cells left it, keeps the grid n×n. |
| `Diffusion.Sweep` | pixel-based/src/main.rs:60-73 | One pass, column by column (x outer, y inner), keeps the grid n×n. |
| `Diffusion.Relax` | pixel-based/src/main.rs:58-75 | `passes` passes starting from a copy of the grid keep it n×n. Zero passes give the grid back unchanged. |
| `Diffusion.SweepColumnFrame` | pixel-based/src/main.rs:61-72 | Sweeping column x up to row y writes only cells (x, 0..y-1); every other cell keeps its scratch value. |
| `Diffusion.SweepColumnOrder` | pixel-based/src/main.rs:61-67 | Each cell of a column is written once, at its turn. Its final value is the update computed from the scratch grid as it stood when the sweep reached it. |
| `Diffusion.SweepFrame` | pixel-based/src/main.rs:60-73 | After the first x columns of a pass, columns x and beyond still hold their values from before the pass. |
| `Diffusion.SweepColumnBounded` | pixel-based/src/main.rs:61-72 | For k ≥ 0, sweeping a column keeps every cell of the scratch grid within the bounds of the pre-call and scratch grids. |
| `Diffusion.SweepBounded` | pixel-based/src/main.rs:60-73 | For k ≥ 0, a pass keeps every cell within those bounds. |
| `Diffusion.RelaxBounded` | pixel-based/src/main.rs:58-75 | For k ≥ 0, if every cell of the grid lies in [lo, hi] before `iterate`, every cell lies in [lo, hi] after any number of passes. |
| `Diffusion.GaussSeidelReadOrder` | pixel-based/src/main.rs:60-67 | Take a 3×3 grid seeded with 100 at the centre, with k = 1. One pass raises (0,1) to 25 and then gives (0,2) 6.25, although all of (0,2)'s neighbours were 0 before the pass. Neighbours are read from the grid being written. |
| `Diffusion.FirstTwoColumns` | pixel-based/src/main.rs:60-71 | Take a 5×5 grid seeded with 100 at the centre, with k = 1. After the first two columns of a pass the grid is known exactly: column 0 stays 0, column 1 holds 0, 0, 25, 3.125, 0.78125 (it reads column 2 on both sides), and columns 2 to 4 still hold the seed. |
| `Diffusion.CentreAfterOnePass` | pixel-based/src/main.rs:60-71 | On the same grid, one pass leaves 56.25 at the centre, because (1,2) and (2,1) already hold 25 when the sweep reaches it. The same update computed from the seed grid alone gives 50. |
| `Diffusion.PassChangesTotal` | pixel-based/src/main.rs:58-75 | Take a 3×3 grid seeded with 100 at the centre, with k = 1. One pass gives the grid [[0, 25, 6.25], [25, 50, 12.5], [6.25, 12.5, 6.25]]; the total intensity goes from 100 to 143.75. |
| `Simulation.Strength` | pixel-based/src/main.rs:57 | The strength is the one given, or 1.0 when none is given. |
| `Simulation.Area.constructor` | pixel-based/src/main.rs:17-38 | Both grids are n×n with rows = columns = n. The cell size is the extent divided by n. Every intensity is 0 except 100 at (n/2, n/2). Every velocity is (0, 0) except (-5, 1) there. |
| `Simulation.Area.Init` | pixel-based/src/main.rs:40-49 | Sets intensity 100 and velocity (-5, 1) at the centre cell and changes no other cell. |
| `Simulation.Area.Iterate` | pixel-based/src/main.rs:56-76 | The new grid is `Relax` of the grid on entry, with the given or default strength and max(iterations, 0) passes. It is n×n, and the velocity grid, n, rows, columns, w and h are unchanged. With iterations ≤ 0 the grid is unchanged. |
| `Simulation.Area.Generate` | pixel-based/src/main.rs:51-54 | One tick is 20 passes with strength 2.0. |
| `Simulation.Clone` | pixel-based/src/main.rs:58 | The scratch grid is a fresh array with the grid's shape and cells. |
| `Simulation.RelaxPasses` | pixel-based/src/main.rs:59-74 | The loop over the passes leaves the scratch array, which starts as a copy of the grid, equal to `Relax` of the grid with the given strength and number of passes. |
| `Simulation.RelaxPass` | pixel-based/src/main.rs:60-73 | The pass loop over x leaves the scratch array equal to `Sweep` of its previous contents. It reads centre terms from the entry grid. |
| `Simulation.RelaxColumn` | pixel-based/src/main.rs:61-72 | The row loop over y updates one column in place, and leaves the scratch array equal to `SweepColumn` of its previous contents. |

## Left out

- `display` (pixel-based/src/main.rs:78-103) draws rectangles and arrows through the graphics library; it changes no state.
- `main`, `model`, `update` and `view` (pixel-based/src/main.rs:106-141) create the window and run the frame loop. Only `update` calling `generate` matters to the state, and `Generate` stands for it.
- The random-number generator in `init` and `generate`, and the commented-out random fill, have no effect on any state.
- Intensities, strengths and velocities are `real`, not `f32`: rounding is not modelled. With `f32` a strength of -1 gives an infinite weight; over reals the model requires 1 + k ≠ 0 whenever a pass runs.
- `w` and `h` are the extent's width and height divided by n, computed exactly over reals.
- Panics are preconditions. `Area.constructor` requires n ≥ 1, because `init` indexes an empty grid when n = 0. `Area.Iterate` requires n ≥ 3 whenever it makes a pass; `NeighboursInRange` shows this is exactly the condition for every neighbour index to be in range.
- Backward: the guard converts the index to a 32-bit signed integer. The model uses the mathematical value, which is the same for every index below 2^31.
- Area.Iterate: the `iterations` count is an unbounded integer rather than an `i32`; negative counts run no pass, as the empty range does.
- Area.Iterate: the three nested loops are split into `RelaxPasses` (passes), `RelaxPass` (x) and `RelaxColumn` (y), and the clone into `Clone`. The order of reads and writes is the same.
- Area.Iterate: the `clone` of the grid is a fresh array initialised from it. The old grid array is dropped, as in the source.
- Cell reads through a `cell(x, y)` accessor are not modelled; the code has none, and the drawing reads the fields directly.
- The velocity grid is only written by seeding, and the model proves nothing more about it than what seeding writes and that `Iterate` leaves it unchanged.
