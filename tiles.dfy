/**
 * The first half of the drawing effect: the board of (2^depth)^2 knot tiles,
 * each 27 x 27 cells, stamped cell by cell at scale 1. The tile in tile-row r
 * and tile-column c shows `baseKnot` when r + c is even and `baseKnot2`
 * otherwise, and its symbol (i, j) lands on board cell (c * 27 + i, r * 27 + j).
 */
module Tiles {
  import K = Knot

  /** `knot` for the tile in tile-row r and tile-column c: a checkerboard of the two motifs. */
  function TileMotif(r: nat, c: nat): (k: seq<string>)
    ensures K.IsMotif(k)
    ensures k == K.BaseKnot <==> (r + c) % 2 == 0
    ensures k == K.BaseKnot2 <==> (r + c) % 2 != 0
  {
    K.BaseKnotIsMotif();
    K.BaseKnot2IsMotif();
    K.BaseKnotsDiffer();
    if (r + c) % 2 == 0 then K.BaseKnot else K.BaseKnot2
  }

  /** The colour the loops write for symbol (i, j) of the tile (r, c). */
  function TileColor(r: nat, c: nat, i: nat, j: nat): K.Color
    requires i < 27 && j < 27
  {
    K.ColorAt(TileMotif(r, c), i, j)
  }

  /** The colour of board cell (x, y) once every tile is stamped. */
  function CellColor(x: nat, y: nat): K.Color
  {
    TileColor(y / 27, x / 27, x % 27, y % 27)
  }

  /** Board cell (x, y) lies in tile (r, c). */
  predicate InTile(r: nat, c: nat, x: int, y: int)
  {
    c * 27 <= x < c * 27 + 27 && r * 27 <= y < r * 27 + 27
  }

  /** A coordinate in the 27-wide band number c is 27 c plus its offset in the band. */
  lemma {:induction false} InBand(c: nat, x: int)
    requires c * 27 <= x < c * 27 + 27
    ensures x / 27 == c && x % 27 == x - c * 27
  {
  }

  /** Every cell of the 27n x 27n board lies in exactly one of the n x n tiles. */
  lemma {:induction false} OneTilePerCell(n: nat, x: nat, y: nat)
    requires x < n * 27 && y < n * 27
    ensures y / 27 < n && x / 27 < n && InTile(y / 27, x / 27, x, y)
    ensures forall r: nat, c: nat :: InTile(r, c, x, y) ==> r == y / 27 && c == x / 27
  {
    TileCells(y / 27, x / 27);
    forall r: nat, c: nat | InTile(r, c, x, y)
      ensures r == y / 27 && c == x / 27
    {
      InBand(c, x);
      InBand(r, y);
    }
  }

  /** Tiles that share an edge show different motifs. */
  lemma {:induction false} NeighboursDiffer(r: nat, c: nat)
    ensures TileMotif(r, c + 1) != TileMotif(r, c)
    ensures TileMotif(r + 1, c) != TileMotif(r, c)
  {
  }

  /** The cells of tile (r, c) are exactly those with row band r and column band c. */
  lemma {:induction false} TileCells(r: nat, c: nat)
    ensures forall x: nat, y: nat :: InTile(r, c, x, y) <==>
      (x / 27 == c && y / 27 == r)
    ensures forall x: nat, y: nat :: InTile(r, c, x, y) ==>
      (x % 27 == x - c * 27 && y % 27 == y - r * 27)
  {
    forall x: nat, y: nat
      ensures InTile(r, c, x, y) <==> (x / 27 == c && y / 27 == r)
      ensures InTile(r, c, x, y) ==> (x % 27 == x - c * 27 && y % 27 == y - r * 27)
    {
      if c * 27 <= x < c * 27 + 27 { InBand(c, x); }
      if r * 27 <= y < r * 27 + 27 { InBand(r, y); }
    }
  }

  /**
   * The two inner loops for one tile: every symbol (i, j) of the tile's `knot`
   * is written at (c * 27 + i, r * 27 + j), and no cell outside the tile changes.
   */
  method StampTile(board: array2<K.Color>, r: nat, c: nat, knot: seq<string>)
    requires K.IsMotif(knot)
    requires c * 27 + 27 <= board.Length0 && r * 27 + 27 <= board.Length1
    modifies board
    ensures forall x, y :: 0 <= x < board.Length0 && 0 <= y < board.Length1 ==>
      board[x, y] == if InTile(r, c, x, y) then K.ColorAt(knot, x - c * 27, y - r * 27) else old(board[x, y])
  {
    var i := 0;
    while i < 27
      invariant 0 <= i <= 27
      invariant forall x, y :: 0 <= x < board.Length0 && 0 <= y < board.Length1 ==>
        board[x, y] == if InTile(r, c, x, y) && x < c * 27 + i then K.ColorAt(knot, x - c * 27, y - r * 27) else old(board[x, y])
    {
      var j := 0;
      while j < 27
        invariant 0 <= j <= 27
        invariant forall x, y :: 0 <= x < board.Length0 && 0 <= y < board.Length1 ==>
          board[x, y] ==
            if InTile(r, c, x, y) && (x < c * 27 + i || (x == c * 27 + i && y < r * 27 + j))
            then K.ColorAt(knot, x - c * 27, y - r * 27) else old(board[x, y])
      {
        board[c * 27 + i, r * 27 + j] := K.ColorAt(knot, i, j);
        j := j + 1;
      }
      i := i + 1;
    }
  }

  /**
   * The tile-stamping loops: for every tile (r, c) of the n x n grid, stamp
   * the tile. Afterwards every cell of the 27n x 27n board holds `CellColor`.
   */
  method StampTiles(board: array2<K.Color>, n: nat)
    requires board.Length0 == n * 27 && board.Length1 == n * 27
    modifies board
    ensures forall x, y :: 0 <= x < board.Length0 && 0 <= y < board.Length1 ==> board[x, y] == CellColor(x, y)
  {
    var r := 0;
    while r < n
      invariant 0 <= r <= n
      invariant forall x, y :: 0 <= x < board.Length0 && 0 <= y < r * 27 ==> board[x, y] == CellColor(x, y)
    {
      var c := 0;
      while c < n
        invariant 0 <= c <= n
        invariant forall x, y ::
          0 <= x < board.Length0 && 0 <= y < board.Length1 && (y < r * 27 || (y < r * 27 + 27 && x < c * 27))
          ==> board[x, y] == CellColor(x, y)
      {
        StampTile(board, r, c, TileMotif(r, c));
        TileCells(r, c);
        c := c + 1;
      }
      r := r + 1;
    }
  }
}
