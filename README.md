# hilbert-knot, modelled in Dafny

hilbert-knot draws a Hilbert curve of "endless knots". A 2^depth x 2^depth grid of
27 x 27 knot tiles is stamped onto a canvas. Neighbouring tiles are then joined by
small connector rectangles placed along the steps of the Hilbert poly-line of order
depth, so that the knots read as one continuous interlaced line.

The model covers the whole computation behind the drawing, at scale 1:

- `HilbertCurve` (`hilbert_curve.dfy`) is the pure model of the turtle.
  - Headings, poses, `forward` and the two quarter turns.
  - The pose each rule call `A(d)` / `B(d)` ends in (`End`).
  - The points the call appends (`Visits`, mirroring the recursion).
  - The same points as a transformed copy of one reference curve (`Trace`, from `Curve`).
  - Proved: the curve of order d has 4^d points, starts at the origin and ends at (2^d - 1, 0), moves in unit axis-aligned steps, and visits every cell of the 2^d x 2^d square exactly once.
- `PolyLine` (`poly_line.dfy`) is `hilbertPolyLine` as written.
  - A `Turtle` class holds the mutable `pos_x`, `pos_y`, `dir_x`, `dir_y` and the growing `result`.
  - Its methods `Forward`, `RotPlus`, `RotMinus`, `A` and `B` are each proved against the pure model.
  - `HilbertPolyLine(depth)` returns exactly `Curve(depth)`.
- `Knot` (`knot.dfy`) holds the motif and its rotation.
  - The 27 x 27 motif `baseKnot`, as literal rows.
  - The symbol-to-colour table, with the four colours as an enumeration.
  - The rotation giving `baseKnot2`.
  - Proved: both motifs are 27 x 27 over the four symbols, four rotations give the motif back, and the two motifs differ.
- `Tiles` (`tiles.dfy`) is the tile-stamping loops over a two-dimensional array of colours.
  - Proved: the final colour of every board cell.
  - Proved: the checkerboard choice of motif.
  - Proved: every board cell lies in exactly one tile.
- `Connectors` (`connectors.dfy`) covers the connector geometry and the `map` over the poly-line.
  - The three rectangles of a step, or the rejection the code throws.
  - The map itself as a loop, `Stitch`, proved against the recursive `Stitched`.
  - Proved: the map throws exactly at the first step that is zero-length or diagonal.
  - Proved: the horizontal layout is the vertical one transposed.
  - Proved: for unit steps, the rectangles of a connector share one centre, on the edge between the two tiles, three units beside the tiles' middle line.
- `KnotEffect` (`knot_effect.dfy`) is the drawing effect end to end.
  - Proved: the board holds every tile's motif.
  - Proved: the Hilbert poly-line is stitched without a throw, with 3 (4^depth - 1) rectangles.

The canvas is replaced by an array of colours for the tiles and by a list of
rectangles for the connectors.

Facts about the code's output that the model pins down:

- `hilbertPolyLine(depth)` returns 4^depth points: the origin and one per `forward`
  (`Curve`, `Visits`, `CurveIsHilbert`).
- At depth 1 the first step goes along +y: the points are (0,0), (0,1), (1,1), (1,0)
  (`CurveOne`).
- The depth-1 connector offsets across the three steps are +3, -3, -3 (`CurveOneParities`).
- Each tile is stamped cell by cell, straight from its motif.

## Model

| member | source | states |
|---|---|---|
| HilbertCurve.RotPlus | src/index.tsx:56 | the new direction vector is `[-dir_y, dir_x]` of the old |
| HilbertCurve.RotMinus | src/index.tsx:57 | the new direction vector is `[dir_y, -dir_x]` of the old |
| HilbertCurve.TurnsInverse | src/index.tsx:56-57 | `rotPlus` and `rotMinus` undo each other; each applied twice reverses the heading |
| HilbertCurve.UnitInjective | src/index.tsx:50 | the four headings have four different direction vectors, so `[dir_x, dir_y]` determines the heading |
| HilbertCurve.TurnBack | src/index.tsx:59-86 | the closing turn of the partner rule undoes a rule's opening turn, and the opening turns of A and B point opposite ways |
| HilbertCurve.Forward | src/index.tsx:55 | `forward` keeps the heading and its displacement is a single unit step, +1 along the heading |
| HilbertCurve.Starts | src/index.tsx:59-86 | the first sub-call starts after the opening turn; the middle two run along the call's own heading; the last runs along the partner's turn |
| HilbertCurve.EndComposes | src/index.tsx:59-86 | after the four sub-calls, three forwards and the closing turn, a call ends 2^d - 1 steps straight ahead with its starting heading |
| HilbertCurve.End | src/index.tsx:59-86 | a call `A(d)` or `B(d)` leaves the heading as it found it; `Turtle.A`/`Turtle.B` prove the turtle ends in this pose |
| HilbertCurve.EndAhead | src/index.tsx:59-86 | a call ends 2^d - 1 unit steps ahead along its heading and none to the side |
| HilbertCurve.Pow4IsSquare | src/index.tsx:95 | the arithmetic identity 4^d = (2^d)^2, relating the 4^d points to the n x n grid with n = `1 << depth` |
| HilbertCurve.Curve | src/index.tsx:49-90 | the reference curve of order d has 4^d points and starts at the origin |
| HilbertCurve.CurveIsHilbert | src/index.tsx:49-90 | the curve ends at (2^d - 1, 0), takes unit axis-aligned steps, repeats no point, and contains exactly the cells of the 2^d x 2^d square |
| HilbertCurve.Trace | src/index.tsx:59-86 | a call's points in the world number 4^d and start at the turtle's position |
| HilbertCurve.TraceIsHilbert | src/index.tsx:59-86 | a call from any pose visits its own 2^d x 2^d block once each, in unit steps, ending where the turtle ends |
| HilbertCurve.TraceSplit | src/index.tsx:59-86 | a call's points are those of its four sub-calls, in order |
| HilbertCurve.Visits | src/index.tsx:59-86 | the points a call appends, following the recursion: 4^d - 1 of them, one per `forward`; `VisitsTrace` ties them to `Trace` |
| HilbertCurve.VisitsTrace | src/index.tsx:59-86 | the points appended by the recursion, after the start point, are the transformed reference curve |
| HilbertCurve.OriginTrace | src/index.tsx:50-51 | from the origin heading +x, rule A's points are the reference curve itself |
| HilbertCurve.CurveOne | src/index.tsx:49-90 | at depth 1 the poly-line is (0,0), (0,1), (1,1), (1,0) |
| HilbertCurve.PolyLineIsCurve | src/index.tsx:49-90 | the origin followed by what rule A appends is the curve of order depth |
| PolyLine.Turtle.constructor | src/index.tsx:50-51 | the turtle starts at (0,0) heading +x, with `result` holding just the origin |
| PolyLine.Turtle.Forward | src/index.tsx:55 | `forward` moves one step along the direction and appends the new position |
| PolyLine.Turtle.RotPlus | src/index.tsx:56 | `rotPlus` turns the direction a quarter turn and leaves position and result alone |
| PolyLine.Turtle.RotMinus | src/index.tsx:57 | `rotMinus` turns the other way and leaves position and result alone |
| PolyLine.Turtle.A | src/index.tsx:59-72 | `A(depth)` leaves the heading unchanged, ends 2^depth - 1 steps ahead, and appends exactly the points of rule A from its start pose |
| PolyLine.Turtle.B | src/index.tsx:73-86 | `B(depth)`: the same for rule B |
| PolyLine.HilbertPolyLine | src/index.tsx:49-90 | `hilbertPolyLine(depth)` returns the Hilbert curve of order depth |
| Knot.ColorNamesSymbol | src/index.tsx:42-47 | in a motif two cells get the same colour from `colors` exactly when they hold the same symbol, so a drawn tile shows its motif |
| Knot.ColorsInjective | src/index.tsx:42-47 | the table `Colors` maps exactly the four symbols `.`, `#`, `~`, `*`, to four different colours |
| Knot.Rotate | src/index.tsx:36-40 | the rotation of a 27 x 27 grid is 27 x 27 with cell (i, j) taken from (j, 26 - i) |
| Knot.RotateMotif | src/index.tsx:36-40 | rotating a motif keeps it over the four symbols |
| Knot.RotateFour | src/index.tsx:36-40 | four rotations give the grid back |
| Knot.BaseKnotIsMotif | src/index.tsx:6-34 | the literal `BaseKnot` (the rows of `baseKnot`) is 27 rows of 27 symbols, each with a colour |
| Knot.BaseKnot2IsMotif | src/index.tsx:36-40 | `baseKnot2` is a motif too, and three more rotations turn it back into `baseKnot` |
| Knot.BaseKnotsDiffer | src/index.tsx:6-40 | the two motifs are different grids |
| Tiles.TileMotif | src/index.tsx:107 | tile (r, c) uses `baseKnot` iff r + c is even and `baseKnot2` iff it is odd |
| Tiles.NeighboursDiffer | src/index.tsx:107 | tiles sharing an edge show different motifs |
| Tiles.InBand | src/index.tsx:110-116 | a coordinate in the 27-wide band c is 27c plus its offset in the band |
| Tiles.TileCells | src/index.tsx:110-116 | the cells written for tile (r, c) are exactly those whose coordinates divided by 27 give (c, r) |
| Tiles.OneTilePerCell | src/index.tsx:105-120 | each cell of the 27n x 27n board lies in exactly one of the n x n tiles |
| Tiles.StampTile | src/index.tsx:108-119 | the two inner loops write symbol (i, j)'s colour at (27c + i, 27r + j) and change no other cell |
| Tiles.StampTiles | src/index.tsx:105-120 | after the four loops every board cell holds the colour of its symbol in its tile's motif |
| Connectors.Connector | src/index.tsx:134-186 | a step is rejected iff it is zero-length or diagonal; otherwise it yields three rectangles |
| Connectors.Parity | src/index.tsx:134 | `parity` is true iff JavaScript's truncating `%` of the sum of the smaller coordinates by 2 is non-zero |
| Connectors.ConnectorTransposed | src/index.tsx:139-186 | mirroring a step in the diagonal mirrors its connector: the horizontal layout is the vertical one with x and y swapped |
| Connectors.ConnectorColors | src/index.tsx:140-162 | the rectangles are drawn orange, black, light blue, in that order |
| Connectors.VerticalBridge | src/index.tsx:139-162 | for a vertical unit step the three rectangles share a centre, on the edge between the two tiles and 3 units left (parity) or right of the tile's middle column, and each reaches into both tiles |
| Connectors.HorizontalBridge | src/index.tsx:163-186 | the same for a horizontal unit step, with the roles of x and y exchanged |
| Connectors.ParityIsMotif | src/index.tsx:107-134 | `parity` holds iff the tile at the lower end of the step shows `baseKnot2` |
| Connectors.UnitStepConnects | src/index.tsx:135-138 | a unit axis-aligned step is never rejected |
| Connectors.CurveOneParities | src/index.tsx:134-135 | on the depth-1 poly-line the steps are vertical, horizontal, vertical, with parity false, true, true |
| Connectors.Stitched | src/index.tsx:124-187 | the `map` over the first k points draws nothing for k <= 1 and at most three rectangles per step; `StitchedFinishes`, `StitchedRects` and `StitchedThrows` state what it draws and when it throws |
| Connectors.StitchedFinishes | src/index.tsx:124-138 | the `map` finishes iff every step is accepted |
| Connectors.StitchedRects | src/index.tsx:124-187 | when it finishes it has drawn 3 rectangles per step, step i's at positions 3(i-1) to 3i |
| Connectors.StitchedThrows | src/index.tsx:136-138 | when it throws, it does so at the first rejected step, having drawn exactly the earlier steps' connectors |
| Connectors.StillThrown | src/index.tsx:136-138 | after the throw, later points draw nothing |
| Connectors.UnitStepsFinish | src/index.tsx:124-138 | a path of unit steps never makes the `map` throw |
| Connectors.Stitch | src/index.tsx:124-187 | the loop over indices i >= 1 draws and throws exactly as `Stitched` says |
| KnotEffect.DrawKnots | src/index.tsx:95-187 | the board is 27n x 27n with n = 2^depth and holds every tile's motif; the poly-line is stitched without a throw, with 3 (4^depth - 1) rectangles |

## Left out

- The Preact component machinery is not modelled: `useState`, `useRef`, `useEffect`, the sliders, the outputs and `render` (src/index.tsx:92-103, 188-210). It is user interface.
- The canvas context and its real `fillRect` are not modelled (src/index.tsx:101-102 and the `fillRect` calls). Tile cells become writes to an array of colours; connector rectangles become a returned list of `Rect` values.
- `scale` and `ctx.scale` are not modelled. The model works at scale 1, so a tile cell is exactly one board cell.
- The hex colour strings are not modelled; the four colours are an enumeration.
- The commented-out debug rectangle (src/index.tsx:127-133) is not modelled.
- The string exception at src/index.tsx:137 is not modelled as an exception. It becomes the `NotAxisAligned` result and the `thrown` flag. The rectangles drawn before the throw are kept, as they stay on the canvas.
- KnotEffect.DrawKnots: `n = 1 << depth` is modelled as 2^depth. JavaScript's shift wraps at 32 bits, which the slider's range of 0 to 4 never reaches.
- HilbertCurve.Pow4IsSquare: the number of points is an unbounded integer. JavaScript numbers are exact only up to 2^53, far above 4^4.
- Rectangle coordinates are exact `real`s. JavaScript's doubles hold these half-unit values exactly.
- `depth` is a natural number. In the code a negative depth would never meet `depth-- === 0`, so the recursion would never stop.
- Tiles.StampTile: the two inner loops are a method of their own, taking the motif chosen by the `c` loop; the loop nest is otherwise as in the code.
