# Himeno point-Jacobi kernel, modelled in Dafny

This project models the pressure-Poisson kernel of a Himeno benchmark variant (`openmp_for.c`).
The benchmark keeps seven static 3-D arrays over an `MIMAX x MJMAX x MKMAX` grid:
- the pressure `p`;
- the coefficients `a` (4 per cell), `b` and `c` (3 per cell);
- the boundary mask `bnd`;
- the source term `wrk1`;
- the scratch buffer `wrk2`.

The extents `imax = MIMAX-1`, `jmax = MJMAX-1`, `kmax = MKMAX-1` and the relaxation factor
`omega = 0.8` are globals. `initmt` fills the arrays. `jacobi(nn)` runs `nn` point-Jacobi sweeps.
Each sweep computes, for every strict-interior cell, the stencil value `s0` and the masked
residual `ss = (s0*a[3] - p) * bnd` from the pre-sweep pressure. It stores `p + omega*ss` in
`wrk2`, sums `ss*ss` into `gosa`, and then copies `wrk2` back into `p`. `main` also computes the
operation count `nflop` in C `int`.

Modules:
- `Fields` (fields.dfy): field values as nested sequences, and `Mirrors`, which ties a value to the array holding it.
- `Kernel` (kernel.dfy): the specification of one sweep (`Residual`, `Relaxed`, `Sweep`, `Gosa`), iteration (`Iterate`) and their lemmas.
- `Seeding` (kernel.dfy): the state `initmt` leaves and what the first sweep does to it.
- `Storage` (storage.dfy): the layout of the static arrays.
- `Flops` (flops.dfy): the grid-size presets, the C `int` evaluation of `nflop`, and its 64-bit correction.
- `Himeno` (himeno.dfy): class `Grid`, whose `const` array fields are the static arrays. Its methods run the loops of `initmt` and `jacobi` in place on those arrays. `Setup` and `Run` follow `main`.

`double` is modelled as `real`, so the sums are exact and `gosa >= 0` holds. The sweeps run
in sequential `n`, `i`, `j`, `k` order. The methods of `Grid` are proved against the
value-level functions of `Kernel`. For example, `Jacobi` ends with the arrays holding
`Iterate(nn, P0, pr)` and returns `Gosa(Iterate(nn-1, P0, pr), pr)`. The lemmas of `Kernel`
state what those functions mean.

## Model

| member | source | states |
|---|---|---|
| `Kernel.S0` | openmp_for.c:168-180 | `s0` from the taps of one cell: the axial neighbours weighted by `a[0..2]` and `c[0..2]`, the three cross differences weighted by `b[0..2]`, and the source term, in the source's order of terms (a definition; its properties are in `SeededStencil` and `StencilReadsNeighbours`) |
| `Kernel.SS` | openmp_for.c:182 | `ss = (s0*a[3] - p)*bnd` is 0 whenever the mask `bnd` is 0 |
| `Kernel.Stencil` | openmp_for.c:168-180 | `s0` at interior cell `(i, j, k)` of a field, reading the nineteen pressures and eleven coefficients the source reads there (a definition; see `StencilReadsNeighbours`) |
| `Kernel.Update` | openmp_for.c:186 | the relaxation step `p + omega*ss` (a definition; see `RelaxedUnchangedIff`) |
| `Kernel.Residual` | openmp_for.c:168-182 | ss at an interior cell is 0 wherever `bnd` is 0 (the masking rule) |
| `Kernel.Relaxed` | openmp_for.c:182-186 | the value stored for an interior cell equals its old pressure wherever `bnd` is 0 |
| `Kernel.RelaxedUnchangedIff` | openmp_for.c:182-186 | relaxing leaves a cell as it was exactly when `omega` or its residual is 0 |
| `Kernel.Sweep` | openmp_for.c:165-192 | one sweep sets every interior cell to its relaxed value computed from the pre-sweep field alone, and keeps every other cell |
| `Kernel.Gosa` | openmp_for.c:163-184 | the residual of a sweep, the sum of `ss*ss` over the interior in loop order, is non-negative |
| `Kernel.SquareZero` | openmp_for.c:184 | `ss*ss` is non-negative and is 0 exactly when `ss` is 0 |
| `Kernel.RowSqZero` | openmp_for.c:167-184 | the innermost loop's sum of squares is 0 exactly when every residual of the row is 0 |
| `Kernel.PlaneSqZero` | openmp_for.c:166-184 | the middle loop's sum is 0 exactly when every residual of the plane is 0 |
| `Kernel.BlockSqZero` | openmp_for.c:165-184 | the outer loop's sum is 0 exactly when every interior residual is 0 |
| `Kernel.GosaZeroIff` | openmp_for.c:163-184 | `gosa` is 0 exactly when every interior residual is 0 |
| `Kernel.FixedPointOfZeroGosa` | openmp_for.c:182-192 | a sweep whose `gosa` is 0 leaves the pressure unchanged |
| `Kernel.ZeroGosaOfFixedPoint` | openmp_for.c:182-192 | with `omega != 0`, a sweep that changes nothing has `gosa` 0 |
| `Kernel.FixedPointIff` | openmp_for.c:182-192 | with `omega != 0`, a sweep leaves the pressure unchanged if and only if its `gosa` is 0 |
| `Kernel.MaskedSweep` | openmp_for.c:182-186 | a mask that is 0 over the whole interior makes a sweep the identity with `gosa` 0 |
| `Kernel.Iterate` | openmp_for.c:162-193 | `n` sweeps, each applied to the field the previous one left; every result covers the same grid |
| `Kernel.IterateLast` | openmp_for.c:162-193 | the (n+1)-th pass of the `n` loop sweeps the field left by the first n |
| `Kernel.IterateKeepsBoundary` | openmp_for.c:165-192 | after any number of sweeps, every cell with an index 0 or max-1 (or the outer layer) holds its initial value |
| `Kernel.FixedPointStays` | openmp_for.c:162-193 | a field one sweep leaves unchanged stays unchanged for any number of sweeps |
| `Kernel.StencilReadsNeighbours` | openmp_for.c:168-180 | `s0`, `ss` and the relaxed value at an interior cell depend only on the pressures of its 3x3x3 neighbourhood, all inside `i < imax`, `j < jmax`, `k < kmax` |
| `Kernel.SweepIgnoresOuterLayer` | openmp_for.c:165-192 | the outermost layer (index `MIMAX-1`, `MJMAX-1` or `MKMAX-1`) is never read: fields agreeing elsewhere sweep to fields agreeing elsewhere |
| `Kernel.GosaIgnoresOuterLayer` | openmp_for.c:165-184 | the `gosa` of a sweep does not depend on the outermost layer |
| `Kernel.IterateIgnoresOuterLayer` | openmp_for.c:162-193 | no number of sweeps depends on the outermost layer |
| `Kernel.IterateGosaIgnoresOuterLayer` | openmp_for.c:162-195 | the returned `gosa` does not depend on the outermost layer |
| `Seeding.Seed` | openmp_for.c:150 | the seed pressure `k*k/((kmax-1)*(kmax-1))` of plane `k` is non-negative |
| `Seeding.SeedRamp` | openmp_for.c:150 | the seed pressure `k*k/((kmax-1)*(kmax-1))` is 0 at `k = 0`, 1 at `k = kmax-1`, and strictly increasing in between |
| `Seeding.SeedSecondDifference` | openmp_for.c:150 | the seed's second difference along `k` is `2/(kmax-1)^2` |
| `Seeding.SeededStencil` | openmp_for.c:168-180 | with the seeded coefficients, `s0` is the sum of the six axial neighbours |
| `Seeding.SeededResidual` | openmp_for.c:168-182 | from the seeded state, every interior residual is `1/(3(kmax-1)^2)` |
| `Seeding.FirstSweepFromSeed` | openmp_for.c:182-186 | the first sweep from the seeded state raises every interior cell by `omega/(3(kmax-1)^2)` |
| `Flops.Product` | openmp_for.c:98 | `(kmax-2)*(jmax-2)*(imax-2)*34` evaluated left to right in a signed type: when no step overflows, the result is representable and is the exact count |
| `Flops.NFlop` | openmp_for.c:98 | `nflop` as written: `Product` in 32-bit `int` (a definition; see `PresetCount` and `ExtLargeOverflows`) |
| `Flops.NFlopWide` | openmp_for.c:98 | the corrected `nflop`: `Product` in 64 bits (a definition; see `PresetCountWide`) |
| `Flops.ProductExact` | openmp_for.c:98 | for extents of at least 3, the left-to-right product in a signed type is exact when the count fits the type and overflows otherwise |
| `Flops.PresetsFit` | openmp_for.c:24-40 | the small, middle and large presets' counts fit in `int`: 16467696, 137105136, 1118707440 |
| `Flops.ExtLargeOverflows` | openmp_for.c:42-46 | the ext.large count 9,037,954,800 exceeds `INT_MAX`; the last multiplication overflows |
| `Flops.PresetCount` | openmp_for.c:98 | for a preset's extents, the `int` count is defined exactly when the preset is not ext.large, and is then the work of one sweep |
| `Flops.PresetCountWide` | openmp_for.c:98 | evaluated in 64 bits, the count of every preset is exact |
| `Himeno.Grid.constructor` | openmp_for.c:54-75 | zero-filled static arrays of extents `MIMAX x MJMAX x MKMAX`, `imax = MIMAX-1` and the like, `omega = 0.8` |
| `Himeno.Grid.ZeroCell` | openmp_for.c:122-134 | the first loop body zeroes the 13 entries of one cell and nothing else |
| `Himeno.Grid.ZeroBox` | openmp_for.c:118-135 | the first loop nest zeroes every cell with `i < imax`, `j < jmax`, `k < kmax` and keeps the outer layer |
| `Himeno.Grid.FillCell` | openmp_for.c:140-152 | the second loop body stores the coefficients, mask, source and seed of one cell and nothing else |
| `Himeno.Grid.FillBox` | openmp_for.c:136-153 | the second loop nest seeds every cell with `i < imax`, `j < jmax`, `k < kmax` and keeps the outer layer |
| `Himeno.Grid.Initmt` | openmp_for.c:114-154 | after `initmt`, every cell of the box holds `a = [1,1,1,1/6]`, `b = 0`, `c = 1`, `bnd = 1`, `wrk1 = 0`, `p = k*k/((kmax-1)*(kmax-1))`, whatever the first nest wrote; the outer layer is kept |
| `Himeno.Grid.SeededState` | openmp_for.c:137-153 | the seeded arrays, read as field values, are the `Initialized` state |
| `Himeno.Grid.CellResidual` | openmp_for.c:168-182 | `ss` at an interior cell read directly from the arrays `p`, `a`, `b`, `c`, `wrk1`, `bnd`; every index is within one of the cell, so in bounds (a definition; see `CellResidualIs`) |
| `Himeno.Grid.CellRelaxed` | openmp_for.c:186 | the value `p + omega*ss` the compute loop stores in `wrk2` (a definition; see `CellRelaxedIs`) |
| `Himeno.Grid.CellResidualIs` | openmp_for.c:168-182 | `ss` computed from the arrays is the residual of the field they hold |
| `Himeno.Grid.CellRelaxedIs` | openmp_for.c:186 | the value stored in `wrk2` is the relaxed value of the field the arrays hold |
| `Himeno.Grid.RowGosaIs` | openmp_for.c:167-184 | what the innermost loop adds to `gosa` is the row's sum of squared residuals |
| `Himeno.Grid.PlaneGosaIs` | openmp_for.c:166-184 | what the middle loop adds is the plane's sum |
| `Himeno.Grid.BlockGosaIs` | openmp_for.c:165-184 | what the outer loop adds is the interior's sum |
| `Himeno.Grid.RelaxRow` | openmp_for.c:167-187 | the innermost loop writes the relaxed value into `wrk2` along row `(i, j)`, only there, and adds the row's squares to `gosa` |
| `Himeno.Grid.RelaxPlane` | openmp_for.c:166-187 | the middle loop does the same for plane `i` |
| `Himeno.Grid.RelaxBlock` | openmp_for.c:165-187 | the outer loop does the same for the whole interior; other cells of `wrk2` are kept |
| `Himeno.Grid.Relax` | openmp_for.c:163-187 | the compute phase, starting from `gosa = 0`, returns `Gosa(P)` and leaves `wrk2` holding the relaxed values of the pre-sweep field `P` |
| `Himeno.Grid.CopyBack` | openmp_for.c:189-192 | the copy loop sets interior `p` to `wrk2` and keeps every other cell of `p` |
| `Himeno.Grid.Commit` | openmp_for.c:189-192 | after the copy, the arrays hold `Sweep(P)`: no cell saw a partially updated field |
| `Himeno.Grid.SweepOnce` | openmp_for.c:163-192 | one pass of the `n` loop turns `P` into `Sweep(P)` and returns `Gosa(P)`, touching only `p` and `wrk2`; afterwards the interior of `wrk2` equals the new `p` |
| `Himeno.Grid.Pass` | openmp_for.c:162-193 | pass `n` turns n sweeps of `P0` into n+1 sweeps, returns the `gosa` of that sweep, and leaves the interior of `wrk2` equal to the new `p` |
| `Himeno.Grid.Jacobi` | openmp_for.c:156-196 | the arrays end holding `nn` sweeps of the initial pressure with `a`, `b`, `c`, `bnd`, `wrk1` unchanged; the returned `gosa` is that of the last sweep alone; the interior of `wrk2` ends equal to the final `p`; the outer layer and boundary cells of `p` and `wrk2` are never written |
| `Himeno.Setup` | openmp_for.c:72-80 | `main`'s setup of the extents and `omega` followed by `initmt` gives the seeded state of the chosen preset, with the outer layer of `p` at 0 |
| `Himeno.Run` | openmp_for.c:65-98 | `main` runs `NN` sweeps of the seeded state and reports the last sweep's `gosa`; its `int` `nflop` is defined exactly for the presets other than ext.large, while the 64-bit count is exact for every preset |

## Left out

- OpenMP: the `#pragma omp parallel for` at openmp_for.c:118, 136 and 161 and `omp_set_num_threads` at openmp_for.c:71 are concurrency concerns. The pragma on the `n` loop races on `p`, `wrk2` and `gosa`, so only the sequential loop order is modelled.
- `second()` (openmp_for.c:198-221) reads the wall clock and keeps hidden static state; it is not modelled.
- `main`'s argument parsing with `strtol` and all `printf` reporting (openmp_for.c:71, 82-83, 105-109) are I/O and are not modelled.
- The MFLOPS figure and the score (openmp_for.c:100-103) are floating-point divisions by a measured time. `xmflops2` is also left unset when `cpu1 == 0`. They are not modelled.
- IEEE-754 rounding and the summation order of `s0` and `gosa` are not modelled: values are `real`. `Kernel.S0` keeps the source's order of terms, but addition over `real` is associative.
- Himeno.Grid.Jacobi: requires `nn >= 1`. With `nn < 1` the C function returns `gosa` uninitialised, which has no defined value to model. The model initialises `gosa` to 0 before the loop.
- Himeno.Grid.Initmt: requires `(kmax-1)*(kmax-1)` to fit in a C `int`. That product, and `k*k`, are computed in `int` before the conversion to `double`, and an overflow would be undefined behaviour. All four presets satisfy it.

## Findings

| source | as written | input that shows it | evidently intended | confidence | as-written member | corrected member |
|---|---|---|---|---|---|---|
| openmp_for.c:98 | `nflop = (kmax-2)*(jmax-2)*(imax-2)*34` is evaluated in 32-bit `int` before it is stored in the `double` `nflop` | ext.large preset (1025, 513, 513): the count 9,037,954,800 exceeds `INT_MAX`, so the last multiplication overflows | the exact count of one sweep's operations, for example computed in 64 bits | high; not executed | `Flops.ExtLargeOverflows` | `Flops.PresetCountWide` |
