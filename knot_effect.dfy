/**
 * The drawing effect of the `App` component at scale 1, with the canvas replaced by
 * a board of colours and a list of connector rectangles: first the knot tiles of the
 * 2^depth x 2^depth grid, then one connector per step of the Hilbert poly-line.
 */
module KnotEffect {
  import H = HilbertCurve
  import K = Knot
  import T = Tiles
  import C = Connectors
  import P = PolyLine

  /**
   * With n = `1 << depth` tiles a side, every board cell holds its tile's motif colour,
   * and the poly-line of 4^depth points is connected without a throw: three
   * rectangles for each of its 4^depth - 1 steps.
   */
  method DrawKnots(depth: nat) returns (board: array2<K.Color>, rects: seq<C.Rect>, thrown: bool)
    ensures board.Length0 == H.Pow2(depth) * 27 && board.Length1 == H.Pow2(depth) * 27
    ensures forall x, y :: 0 <= x < board.Length0 && 0 <= y < board.Length1 ==> board[x, y] == T.CellColor(x, y)
    ensures rects == C.Stitched(H.Curve(depth), H.Pow4(depth)).rects
    ensures !thrown && |rects| == 3 * (H.Pow4(depth) - 1)
  {
    var n := H.Pow2(depth);
    board := new K.Color[n * 27, n * 27];
    T.StampTiles(board, n);
    var points := P.HilbertPolyLine(depth);
    rects, thrown := C.Stitch(points);
    H.CurveIsHilbert(depth);
    C.UnitStepsFinish(points);
    C.StitchedRects(points, |points|);
  }
}
