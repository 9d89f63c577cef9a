# Diamond-square terrain and height-map-to-mesh, modelled in Dafny

This project models two pieces of a small terrain generator.

**The diamond-square synthesiser** (`diamondSquareAlgorithim.py`).
- It covers the two neighbour-averaging boundary rules, `fixed` and `periodic`.
- It covers one subdivision step, `single_diamond_square_step`. A step is a diamond pass at the centres of the current squares, then a row square pass, then a column square pass.
- It covers the halving loop of `diamondSquareGenerator`.
- The grid is a square `seq<seq<real>>`.
- A pass is modelled as the sequential left-to-right update the Python loops perform.
- The t-th call `random.uniform(-s, s)` of a run is `s * u(t)`, where `u` is a supplied stream of unit draws.

**The height-map-to-mesh pipeline** (`HeightMapToMesh.py`).
- `getColor`, the first-match threshold classifier over (height, slope), and `getColoredMap`.
- `scaleHeightMap`.
- The vertex layout of `generateVertices`.
- The quad-to-triangle index arithmetic of `generateTriangles`.
- The face-record mapping `saveToOBJ` applies to each triangle.

Modules, in dependency order:
- `Arith`: powers of two, absolute value, Euclidean division facts.
- `Grid`: grid, positions, Python `range`, nested-loop traversal order.
- `Boundary`: `fixed` and `periodic` as `Result`-valued functions, and what they read.
- `Pass`: one sequential pass, and when it equals a simultaneous update.
- `Synthesis`: passes, step, halving loop, and the schedule of widths and scales.
- `Layout`: the residue classes modulo the width that each pass writes and reads.
- `Steps`: what a step does to the grid, the corners, and the edge copies.
- `Terrain`: colours.
- `Mesh`: scaling, vertices, triangles, face records.

The error cases of the source are modelled, not excluded:
- `fixed` with no neighbour in range divides by zero. It returns `Failure(BoundaryUnderflow)`.
- `periodic` fails exactly when the grid side is below 2 and the offset list is not empty. At side 1 it takes a modulus by zero. At side 0 it reduces modulo -1 and then indexes the empty array out of range. Both return `Failure(DegeneratePeriod)`. With no offsets it succeeds at any side.

The periodic mode is meant to produce a map that tiles, with row 0 equal to row n-1. The code draws an independent perturbation for each of the two copies. So after a step, the copies differ by exactly the difference of their two draws (`Steps.RowEdgeCopies`, `Steps.ColEdgeCopies`). The model follows the code.

## Model

| member | source | states |
|---|---|---|
| Grid.Range | diamondSquareAlgorithim.py:42 | `range(start, stop, step)`: every element is in [start, stop), in strictly increasing order |
| Grid.RangeMembers | diamondSquareAlgorithim.py:42 | x is in `range(start, stop, step)` exactly when start <= x < stop and x is congruent to start modulo step |
| Grid.Cells | diamondSquareAlgorithim.py:42-43 | the nested `for i … for j …` loop visits exactly the pairs of the two ranges, len(xs) * len(ys) of them |
| Grid.CellAt | diamondSquareAlgorithim.py:42-43 | the visit order is row by row: the pair (xs[a], ys[b]) is visited a * len(ys) + b-th, so the t-th visited position gets the t-th draw of the pass |
| Grid.CellsDistinct | diamondSquareAlgorithim.py:42-43 | when neither range repeats a value, the nested loop visits each position once |
| Grid.Set | diamondSquareAlgorithim.py:44 | `d[i, j] = x` changes position (i, j) to x and no other position |
| Boundary.FixedLoop | diamondSquareAlgorithim.py:17-22 | the count of `fixed` never exceeds the number of offsets, and is positive exactly when some offset neighbour is in range |
| Boundary.FixedAverage | diamondSquareAlgorithim.py:14-23 | `fixed` fails (division by zero) exactly when no offset neighbour is inside the grid |
| Boundary.PeriodicAverage | diamondSquareAlgorithim.py:26-31 | `periodic` fails exactly when the side is below 2 and there is an offset: for side 1 the modulus is zero, and for side 0 (modulus -1) the index into the empty array is out of range |
| Boundary.Average | diamondSquareAlgorithim.py:44 | the caller-chosen rule succeeds exactly when its definedness condition holds |
| Boundary.InRangeNeighbours | diamondSquareAlgorithim.py:18-20 | the neighbours `fixed` adds are exactly the offset neighbours inside the grid |
| Boundary.Reads | diamondSquareAlgorithim.py:26-30 | every position a rule reads is on the grid, and `periodic` never reads the last row or the last column |
| Boundary.FixedIsInRangeMean | diamondSquareAlgorithim.py:14-23 | `fixed` is the sum of the in-range neighbours divided by their number, and fails exactly when there are none |
| Boundary.PeriodicIsQuarterSum | diamondSquareAlgorithim.py:26-31 | `periodic` is the sum of the four wrapped neighbours divided by 4 |
| Boundary.AverageFrame | diamondSquareAlgorithim.py:14-31 | a rule's value depends only on the positions it reads |
| Boundary.FixedAllInRange | diamondSquareAlgorithim.py:20-23 | when all four neighbours are in range, `fixed` is their plain mean |
| Boundary.FixedAtDiamondCentre | diamondSquareAlgorithim.py:42-44 | at a centre with v <= i, j <= n-1-v, all four diagonal neighbours are in range, so `fixed` divides by 4 |
| Boundary.FixedAgreesWithPeriodicInside | diamondSquareAlgorithim.py:14-31 | when no neighbour needs wrapping, `fixed` and `periodic` give the same average |
| Boundary.PeriodicRowWrap | diamondSquareAlgorithim.py:27-30 | `periodic` gives the same value at (0, j) and (n-1, j) |
| Boundary.PeriodicColumnWrap | diamondSquareAlgorithim.py:27-30 | `periodic` gives the same value at (i, 0) and (i, n-1) |
| Pass.ApplyPass | diamondSquareAlgorithim.py:42-44 | a sequential pass keeps the grid square and changes no position outside its targets |
| Pass.PassIsSimultaneous | diamondSquareAlgorithim.py:42-44 | if no target reads another target, the sequential pass sets each target to (average over the input grid) + its perturbation |
| Pass.TwoPasses | diamondSquareAlgorithim.py:46-54 | two such passes, the second reading none of the first's targets: each target gets its average over the input grid plus its perturbation |
| Pass.PassesCommute | diamondSquareAlgorithim.py:46-54 | two passes over disjoint targets, neither reading the other's targets, give the same grid in either order |
| Synthesis.TargetsValid | diamondSquareAlgorithim.py:42-54 | every target of the three passes is on the grid, and the rule call there is defined |
| Synthesis.DiamondPass | diamondSquareAlgorithim.py:42-44 | the diamond pass keeps the grid square of the same side |
| Synthesis.SquarePasses | diamondSquareAlgorithim.py:46-54 | the two square passes keep the grid square of the same side |
| Synthesis.Step | diamondSquareAlgorithim.py:34-54 | a step keeps the grid square of the same side |
| Synthesis.Run | diamondSquareAlgorithim.py:61-66 | the halving loop keeps the grid square of the same side |
| Synthesis.Generate | diamondSquareAlgorithim.py:57-68 | the generator returns a square n x n grid |
| Synthesis.DiamondSquareGenerator | diamondSquareAlgorithim.py:57-68 | the imperative loop computes the generator's grid; for n = 2^k + 1 it runs exactly k steps |
| Synthesis.ScheduleBounded | diamondSquareAlgorithim.py:62-65 | every width the loop runs at lies in (1, w] |
| Synthesis.RunSchedule | diamondSquareAlgorithim.py:61-66 | running a list of (width, scale) steps keeps the grid square of the same side |
| Synthesis.ScheduleWidths | diamondSquareAlgorithim.py:61-66 | from w = 2^k the loop runs k steps, the m-th at width 2^(k-m) |
| Synthesis.ScheduleScale | diamondSquareAlgorithim.py:61-66 | the m-th step runs at scale s * ds^m |
| Synthesis.RunFollowsSchedule | diamondSquareAlgorithim.py:61-66 | the halving loop is the run of its (width, scale) schedule |
| Synthesis.GenerateIsKSteps | diamondSquareAlgorithim.py:57-68 | for n = 2^k + 1 the generator's schedule is exactly (2^(k-m), ds^m) for m < k |
| Layout.RangeResidue | diamondSquareAlgorithim.py:42 | `range(r, n, w)` with 0 <= r < w holds exactly the x in [0, n) with x mod w = r |
| Layout.DiamondTargets | diamondSquareAlgorithim.py:42-43 | the diamond pass writes exactly the on-grid positions whose two coordinates are both congruent to v mod w |
| Layout.RowTargets | diamondSquareAlgorithim.py:47-48 | the row square pass writes exactly the on-grid positions of residue class (v, 0) |
| Layout.ColTargets | diamondSquareAlgorithim.py:52-53 | the column square pass writes exactly the on-grid positions of residue class (0, v) |
| Layout.NeighbourResidue | diamondSquareAlgorithim.py:19 | moving by an offset of ±v flips the residue of that coordinate between 0 and v |
| Layout.WrapResidue | diamondSquareAlgorithim.py:30 | wrapping modulo n - 1 keeps the residue modulo w when w divides n - 1 |
| Layout.ReadResidue | diamondSquareAlgorithim.py:18-30 | every position a rule reads has the residue of one of the unwrapped neighbours |
| Layout.DiamondReadsCoarse | diamondSquareAlgorithim.py:42-44 | under either rule, the diamond pass reads only positions with both coordinates multiples of w |
| Layout.RowReads | diamondSquareAlgorithim.py:47-49 | the row square pass reads only coarse positions and diamond positions |
| Layout.ColReads | diamondSquareAlgorithim.py:52-54 | the column square pass reads only coarse positions and diamond positions |
| Layout.DiamondAvoidsItself | diamondSquareAlgorithim.py:42-44 | the diamond pass never reads one of its own targets |
| Layout.SquaresAvoidSquares | diamondSquareAlgorithim.py:46-54 | neither square pass reads a target of either square pass |
| Layout.TargetsDisjoint | diamondSquareAlgorithim.py:42-54 | the three target lists have no repeats and are pairwise disjoint |
| Layout.ScheduleAligned | diamondSquareAlgorithim.py:61-65 | for n = 2^k + 1 every width the loop runs at is even, at least 2 and divides n - 1, so the step lemmas apply to every step of the run |
| Steps.ColumnsThenRows | diamondSquareAlgorithim.py:46-54 | the square passes in the other order keep the grid square of the same side |
| Steps.SquarePassesCommute | diamondSquareAlgorithim.py:46-54 | running the column pass before the row pass gives the same grid |
| Steps.DiamondPassEffect | diamondSquareAlgorithim.py:42-44 | each diamond target ends up its average under the chosen rule plus its own draw; nothing else changes |
| Steps.SquarePassesEffect | diamondSquareAlgorithim.py:46-54 | each square target ends up its `periodic` average plus its own draw; nothing else changes |
| Steps.StepEffect | diamondSquareAlgorithim.py:34-54 | one step: diamond targets from the input grid under the caller's rule; row and column targets from the post-diamond grid, always under `periodic`; draws in loop order; every other position unchanged |
| Steps.DrawBound | diamondSquareAlgorithim.py:44 | a draw with a unit value in [-1, 1] is at most s in magnitude |
| Steps.StepWithinScale | diamondSquareAlgorithim.py:42-54 | every position a step writes differs from its neighbour average by at most the current scale s |
| Steps.StepFrame | diamondSquareAlgorithim.py:34-54 | a step changes no position outside its three target lists |
| Steps.StepKeepsCoarse | diamondSquareAlgorithim.py:34-54 | a step at width w leaves every position with both coordinates multiples of w unchanged |
| Steps.RunKeepsCoarse | diamondSquareAlgorithim.py:61-66 | the whole loop from width 2^j leaves positions on the 2^j lattice unchanged |
| Steps.GenerateKeepsCorners | diamondSquareAlgorithim.py:59-66 | for n = 2^k + 1 the four corners of the result stay 0 |
| Steps.RowEdgeCopies | diamondSquareAlgorithim.py:47-49 | after a step, the row targets (i, 0) and (i, n-1) differ by exactly the difference of their draws |
| Steps.ColEdgeCopies | diamondSquareAlgorithim.py:52-54 | after a step, the column targets (0, j) and (n-1, j) differ by exactly the difference of their draws |
| Terrain.PaletteFacts | HeightMapToMesh.py:6-13 | the six colours are distinct, and none is black (0, 0, 0) |
| Terrain.Classify | HeightMapToMesh.py:28-40 | the first-match chain picks the one biome whose band contains (height, slope); the bands partition the plane |
| Terrain.GetColor | HeightMapToMesh.py:28-40 | `getColor` is total and never black; it returns a biome's colour exactly when (height, slope) is in that biome's band |
| Terrain.ThresholdsAreStrict | HeightMapToMesh.py:29-40 | the comparisons are strict: .95 is not snow, .03 is water, and slope .001 at height .7 is forest |
| Terrain.ColoredMap | HeightMapToMesh.py:62-69 | each cell with x < rows-1 and y < cols-1 gets `getColor(height, abs(slope))`; every cell of the last row or the last column keeps the (0, 0, 0) of `np.zeros`; a cell holds a palette colour exactly when it is not in the last row or column |
| Mesh.Min | HeightMapToMesh.py:17 | `np.min`: no larger than any entry, and equal to some entry |
| Mesh.Max | HeightMapToMesh.py:18 | `np.max`: no smaller than any entry, and equal to some entry |
| Mesh.ScaleHeightMapAsWritten | HeightMapToMesh.py:16-21 | `(v + abs(min)) / (max - min)` keeps the shape (see the findings) |
| Mesh.ScaleHeightMap | HeightMapToMesh.py:16-21 | the min-max normalisation: every output is in [0, 1]; it is 0 exactly at the minimum and 1 exactly at the maximum |
| Mesh.ScaleAgreesWhenMinNonPositive | HeightMapToMesh.py:16-21 | when min <= 0 the source's formula is exactly the normalisation |
| Mesh.ScaleAsWrittenOvershoots | HeightMapToMesh.py:19-21 | for [[1, 2]] the source's formula maps the minimum to 2 |
| Mesh.ScaleAsWrittenNotNormalisation | HeightMapToMesh.py:16-21 | for every map whose minimum is positive, the source's formula differs from the normalisation (at the minimum it gives 2 min / (max - min) > 0) |
| Mesh.GenerateVertices | HeightMapToMesh.py:43-59 | rows * cols vertices in row-major order; vertex k belongs to cell (k / cols, k % cols); every x and z coordinate is in [-1, 1] |
| Mesh.FlatCell | HeightMapToMesh.py:52-57 | vertex x * cols + y is the vertex of cell (x, y) |
| Mesh.FlatInSquare | HeightMapToMesh.py:46-56 | every vertex lies over the square [-1, 1] x [-1, 1] |
| Mesh.SpreadBound | HeightMapToMesh.py:49-56 | -1 + 2k / (n - 1) is in [-1, 1] for 0 <= k < n |
| Mesh.VertexPositionsDistinct | HeightMapToMesh.py:49-56 | two cells with the same ground position (x, z) are the same cell |
| Mesh.QuadEdgesAreSides | HeightMapToMesh.py:79-90 | a quad's five edges are exactly the sides of its two surfaces, which share the diagonal a–c |
| Mesh.QuadSurfacesJoinCorners | HeightMapToMesh.py:79-90 | with stride cols, the surfaces of quad (x, y) join the vertices of cells (x, y), (x, y+1), (x+1, y+1) and (x, y), (x+1, y+1), (x+1, y), all inside the vertex list |
| Mesh.GenerateTriangles | HeightMapToMesh.py:73-93 | 2 (rows-1)(cols-1) surfaces and 5 (rows-1)(cols-1) edges, two and five per quad in loop order; with the row-major stride every corner of every surface and both ends of every edge are vertex indices in [0, rows * cols) |
| Mesh.RowMajorSurfacesInside | HeightMapToMesh.py:79-90 | surfaces built with stride cols index only the rows * cols vertices |
| Mesh.RowMajorEdgesInside | HeightMapToMesh.py:79-88 | edges built with stride cols join only the rows * cols vertices |
| Mesh.TrianglesAsWrittenLeaveGrid | HeightMapToMesh.py:79-83 | with the source's stride shape[0], a 3 x 2 map gets the surface (3, 4, 7), but there are only 6 vertices |
| Mesh.TrianglesAsWrittenOnSquare | HeightMapToMesh.py:76-90 | on a square n x n map the source's stride keeps every surface corner and every edge end among the n^2 vertices |
| Mesh.FaceOf | HeightMapToMesh.py:107-108 | the face record `(c+1, b+1, a+1)` reads back as the surface it came from |
| Mesh.FaceRoundTrip | HeightMapToMesh.py:107-108 | surfaces and face records correspond one-to-one, in both directions; a surface indexes 0 .. n-1 exactly when its record indexes 1 .. n |
| Mesh.Faces | HeightMapToMesh.py:107-108 | one face line per surface, in order, each reading back as its surface |

## Left out

- Module-level script code is not modelled: the driver calls, `matplotlib` plotting and the large generation at import time (HeightMapToMesh.py:118-132, diamondSquareAlgorithim.py:70-78).
- File output in `saveToOBJ` is not modelled: `open`/`write`, number formatting, the vertex/colour lines, the missing separator between the last two colour channels, and the `colors=None` branch (it zips with `None` and would raise). Only the face index mapping is modelled.
- `generateSlopeMap` is a wrapper over `np.gradient`, so the slope map is an input of `Terrain.ColoredMap`.
- `random.uniform` is replaced by the supplied unit stream `u`. `Steps.StepWithinScale` assumes every draw is in [-1, 1], which is the range of `uniform(-s, s) / s`.
- The progress messages `print("Vertices generated")` and `print("Edges, surfaces generated")` (HeightMapToMesh.py:58, :91) are console output and are left out.
- Synthesis.Generate takes the side as a `nat`: a negative n, for which `np.zeros((n, n))` raises ValueError (diamondSquareAlgorithim.py:59), is not modelled.
- The numba `@jit` decorator and the unused `plyfile` import change nothing that is modelled.
- Floating point is modelled as exact `real` arithmetic: no rounding, no NaN and no infinity.
- Mesh.ScaleHeightMap, Mesh.ScaleHeightMapAsWritten: a constant map (max == min) is excluded by a precondition. numpy divides by zero there and yields NaN or infinity, which reals cannot represent. An empty array is also excluded, because `np.min` raises on it.
- Mesh.GenerateVertices: a map with 1 row or 1 column is excluded by a precondition, because `size / (shape - 1)` raises ZeroDivisionError there.
- Terrain.ColoredMap: the final `astype(np.uint8)` is not modelled. All colour channels are already integers in 0 .. 255, so the cast changes no value.
- Mesh.GenerateTriangles: the method takes the stride as a parameter. The source passes `shape[0]`. The corrected stride is `shape[1]`, under which the bound on every surface and edge index is proved. The map shape is given as the two sides rather than as an array.
- Steps.StepEffect, Steps.StepWithinScale and the `Layout` lemmas assume the alignment the generator runs with: w even, w >= 2, and w dividing n - 1. `Layout.ScheduleAligned` proves that it holds for every step when n = 2^k + 1. For other sides only the frame facts (`Steps.StepFrame`, `Steps.StepKeepsCoarse`) and the loop facts are stated.

## Findings

| source | as written | input that shows it | evidently intended | confidence | as-written member | corrected member |
|---|---|---|---|---|---|---|
| HeightMapToMesh.py:79-83 | the quad base is `x * shape[0] + y`, and `c`, `d` add `shape[0]` | a 3 x 2 map (6 vertices): quad (1, 0) gives the surface (3, 4, 7), and 7 is not a vertex | stride `shape[1]`, the row length of the row-major list `generateVertices` builds; the two agree on square maps | high; not executed | Mesh.TrianglesAsWrittenLeaveGrid | Mesh.QuadSurfacesJoinCorners |
| HeightMapToMesh.py:19-21 | `(v + abs(min)) / (max - min)` | [[1, 2]]: the minimum 1 maps to 2, outside [0, 1], so `getColor` would colour everything snow | `(v - min) / (max - min)`; the two agree whenever min <= 0, which holds in the script because the generator's corners stay 0 (`Steps.GenerateKeepsCorners`) and are squared to 0 | medium; not executed | Mesh.ScaleAsWrittenOvershoots | Mesh.ScaleHeightMap |
