/**
 * The second half of the drawing effect: for every step of the Hilbert poly-line,
 * three rectangles that bridge the two neighbouring knot tiles, drawn in the order
 * orange (`~`), black (`#`), light blue (`.`). A step that is not axis-aligned makes
 * the effect throw; the rectangles drawn before the throw stay on the canvas.
 * Coordinates are board units (scale 1); `real` keeps the `.5` offsets exact.
 */
module Connectors {
  import H = HilbertCurve
  import K = Knot
  import T = Tiles

  /** One `fillRect` call: its fill colour, top-left corner (x, y), width w and height h. */
  datatype Rect = Rect(color: K.Color, x: real, y: real, w: real, h: real)

  /** What one step draws, or the rejection of a step that is neither horizontal nor vertical. */
  datatype Connection = Rects(rects: seq<Rect>) | NotAxisAligned

  function Min(a: int, b: int): int { if a <= b then a else b }

  function Max(a: int, b: int): int { if a <= b then b else a }

  /** JavaScript's `%`: the remainder of the division truncated towards zero, signed like n. */
  function TruncRem(n: int, m: int): int
    requires m > 0
  {
    if n >= 0 then n % m else -((-n) % m)
  }

  /**
   * `parity`: the sum of the smaller coordinates of the step is odd. The source's
   * `% 2` truncates towards zero, so it may yield -1; only its truth value is used,
   * and that agrees with Dafny's `% 2 != 0`.
   */
  predicate Parity(a: H.Vec, b: H.Vec): (odd: bool)
    ensures odd <==> TruncRem(Min(a.x, b.x) + Min(a.y, b.y), 2) != 0
  {
    (Min(a.x, b.x) + Min(a.y, b.y)) % 2 != 0
  }

  /** `(u + v) / 2 * 27`: the midpoint of two coordinates in board units. */
  function Mid(u: int, v: int): real
  {
    (u + v) as real / 2.0 * 27.0
  }

  /** The offset of a connector rectangle across the step: `parity ? low : high`. */
  function Across(parity: bool, low: real, high: real): real
  {
    if parity then low else high
  }

  /**
   * The connector of the step from `a` (`[xOld, yOld]`) to `b` (`[x, y]`). A vertical
   * step gets rectangles 7 x 4, 5 x 4 and 3 x 6; a horizontal one the same layout
   * with x and y exchanged. Only a step that moves, and along one axis, is accepted.
   */
  function Connector(a: H.Vec, b: H.Vec): (c: Connection)
    ensures c.Rects? <==> a != b && (a.x == b.x || a.y == b.y)
    ensures c.Rects? ==> |c.rects| == 3
  {
    var parity, vertical := Parity(a, b), b.x == a.x;
    if vertical == (b.y == a.y) then
      NotAxisAligned
    else if vertical then
      Rects([Rect(K.Colors['~'], Mid(a.x, b.x) + Across(parity, 7.0, 13.0), Mid(a.y, b.y) + 11.5, 7.0, 4.0),
             Rect(K.Colors['#'], Mid(a.x, b.x) + Across(parity, 8.0, 14.0), Mid(a.y, b.y) + 11.5, 5.0, 4.0),
             Rect(K.Colors['.'], Mid(a.x, b.x) + Across(parity, 9.0, 15.0), Mid(a.y, b.y) + 10.5, 3.0, 6.0)])
    else
      Rects([Rect(K.Colors['~'], Mid(a.x, b.x) + 11.5, Mid(a.y, b.y) + Across(parity, 7.0, 13.0), 4.0, 7.0),
             Rect(K.Colors['#'], Mid(a.x, b.x) + 11.5, Mid(a.y, b.y) + Across(parity, 8.0, 14.0), 4.0, 5.0),
             Rect(K.Colors['.'], Mid(a.x, b.x) + 10.5, Mid(a.y, b.y) + Across(parity, 9.0, 15.0), 6.0, 3.0)])
  }

  /** A point with its coordinates exchanged. */
  function Swap(v: H.Vec): H.Vec { H.Vec(v.y, v.x) }

  /** A rectangle mirrored in the diagonal x = y. */
  function Transpose(r: Rect): Rect { Rect(r.color, r.y, r.x, r.h, r.w) }

  function TransposeAll(c: Connection): Connection
  {
    match c
    case NotAxisAligned => NotAxisAligned
    case Rects(rs) => Rects(seq(|rs|, i requires 0 <= i < |rs| => Transpose(rs[i])))
  }

  /**
   * The horizontal layout is the vertical layout with the roles of x and y swapped:
   * mirroring a step in the diagonal mirrors its connector.
   */
  lemma {:induction false} ConnectorTransposed(a: H.Vec, b: H.Vec)
    ensures Connector(Swap(a), Swap(b)) == TransposeAll(Connector(a, b))
  {
    assert Parity(Swap(a), Swap(b)) == Parity(a, b);
    var c, d := Connector(a, b), Connector(Swap(a), Swap(b));
    if c.Rects? {
      var t := TransposeAll(c);
      assert |t.rects| == 3 == |d.rects|;
      forall i | 0 <= i < 3
        ensures d.rects[i] == t.rects[i]
      {
      }
    }
  }

  /** The three rectangles, in drawing order, are orange, black and light blue. */
  lemma {:induction false} ConnectorColors(a: H.Vec, b: H.Vec)
    requires Connector(a, b).Rects?
    ensures var rs := Connector(a, b).rects;
      rs[0].color == K.Orange && rs[1].color == K.Black && rs[2].color == K.LightBlue
  {
  }

  /** The centre of a rectangle. */
  function CentreX(r: Rect): real { r.x + r.w / 2.0 }

  function CentreY(r: Rect): real { r.y + r.h / 2.0 }

  /**
   * For a vertical unit step the three rectangles share one centre. It lies on the
   * edge between the two tiles the step joins, 3 units beside the tile's middle
   * column: left of it when `parity` holds, right of it otherwise. Each rectangle
   * reaches into both tiles.
   */
  lemma {:induction false} VerticalBridge(a: H.Vec, b: H.Vec)
    requires a.x == b.x && (b.y == a.y + 1 || a.y == b.y + 1)
    ensures Connector(a, b).Rects?
    ensures forall r :: r in Connector(a, b).rects ==>
      && CentreX(r) == 27.0 * a.x as real + 13.5 + Across(Parity(a, b), -3.0, 3.0)
      && CentreY(r) == 27.0 * Max(a.y, b.y) as real
      && r.y < 27.0 * Max(a.y, b.y) as real < r.y + r.h
  {
    var rs := Connector(a, b).rects;
    assert Mid(a.x, b.x) == 27.0 * a.x as real;
    assert Mid(a.y, b.y) == 27.0 * Max(a.y, b.y) as real - 13.5;
    forall r | r in rs
      ensures r == rs[0] || r == rs[1] || r == rs[2]
    {
    }
  }

  /** The same for a horizontal unit step, by transposing the vertical case. */
  lemma {:induction false} HorizontalBridge(a: H.Vec, b: H.Vec)
    requires a.y == b.y && (b.x == a.x + 1 || a.x == b.x + 1)
    ensures Connector(a, b).Rects?
    ensures forall r :: r in Connector(a, b).rects ==>
      && CentreY(r) == 27.0 * a.y as real + 13.5 + Across(Parity(a, b), -3.0, 3.0)
      && CentreX(r) == 27.0 * Max(a.x, b.x) as real
      && r.x < 27.0 * Max(a.x, b.x) as real < r.x + r.w
  {
    VerticalBridge(Swap(a), Swap(b));
    ConnectorTransposed(Swap(a), Swap(b));
    assert Swap(Swap(a)) == a && Swap(Swap(b)) == b;
    assert Parity(Swap(a), Swap(b)) == Parity(a, b);
    var vs := Connector(Swap(a), Swap(b)).rects;
    forall r | r in Connector(a, b).rects
      ensures CentreY(r) == 27.0 * a.y as real + 13.5 + Across(Parity(a, b), -3.0, 3.0)
      ensures CentreX(r) == 27.0 * Max(a.x, b.x) as real
      ensures r.x < 27.0 * Max(a.x, b.x) as real < r.x + r.w
    {
      var i :| 0 <= i < 3 && r == Connector(a, b).rects[i];
      assert r == Transpose(vs[i]);
      assert vs[i] in vs;
    }
  }

  /**
   * `parity` names the motif of the tile at the lower end of a step: the board shows
   * `baseKnot2` there exactly when `parity` holds (point (x, y) is tile-row y, tile-column x).
   */
  lemma {:induction false} ParityIsMotif(a: H.Vec, b: H.Vec)
    requires Min(a.x, b.x) >= 0 && Min(a.y, b.y) >= 0
    ensures Parity(a, b) <==> T.TileMotif(Min(a.y, b.y), Min(a.x, b.x)) == K.BaseKnot2
    ensures !Parity(a, b) <==> T.TileMotif(Min(a.y, b.y), Min(a.x, b.x)) == K.BaseKnot
  {
    var r: nat, c: nat := Min(a.y, b.y), Min(a.x, b.x);
    assert (r + c) % 2 != 0 <==> (Min(a.x, b.x) + Min(a.y, b.y)) % 2 != 0;
  }

  /** Every unit step of the poly-line is accepted. */
  lemma {:induction false} UnitStepConnects(a: H.Vec, b: H.Vec)
    requires H.IsUnitStep(H.Minus(b, a))
    ensures Connector(a, b).Rects?
  {
  }

  /**
   * The three steps of the order-1 poly-line, (0,0) to (0,1) to (1,1) to (1,0): the
   * first is vertical and is drawn right of the middle (no parity), the other two
   * have parity, so the offsets across the steps are +3, -3, -3.
   */
  lemma {:induction false} CurveOneParities()
    ensures var c := H.Curve(1);
      && !Parity(c[0], c[1]) && c[0].x == c[1].x
      && Parity(c[1], c[2]) && c[1].y == c[2].y
      && Parity(c[2], c[3]) && c[2].x == c[3].x
  {
    H.CurveOne();
  }

  /** What the poly-line `map` has drawn, and whether it threw. */
  datatype Drawing = Drawing(rects: seq<Rect>, thrown: bool)

  /**
   * The `map` over the points, run on the first k of them: for each index i >= 1 the
   * connector of points i - 1 and i, until the first step that is rejected.
   */
  function Stitched(s: seq<H.Vec>, k: nat): (dr: Drawing)
    requires k <= |s|
    ensures k > 0 ==> |dr.rects| <= 3 * (k - 1)
    ensures k <= 1 ==> dr == Drawing([], false)
    decreases k
  {
    if k <= 1 then Drawing([], false)
    else
      var prev := Stitched(s, k - 1);
      if prev.thrown then prev
      else match Connector(s[k - 2], s[k - 1])
        case NotAxisAligned => Drawing(prev.rects, true)
        case Rects(rs) => Drawing(prev.rects + rs, false)
  }

  /** The `map` finishes exactly when every step is accepted. */
  lemma {:induction false} StitchedFinishes(s: seq<H.Vec>, k: nat)
    requires k <= |s|
    ensures !Stitched(s, k).thrown <==> forall i :: 1 <= i < k ==> Connector(s[i - 1], s[i]).Rects?
    decreases k
  {
    if k > 1 {
      StitchedFinishes(s, k - 1);
    }
  }

  /** When it finishes, it has drawn three rectangles per step: step i's at 3(i-1) .. 3i. */
  lemma {:induction false} StitchedRects(s: seq<H.Vec>, k: nat)
    requires k <= |s| && !Stitched(s, k).thrown
    ensures |Stitched(s, k).rects| == if k == 0 then 0 else 3 * (k - 1)
    ensures forall i :: 1 <= i < k ==>
      Connector(s[i - 1], s[i]).Rects? && Stitched(s, k).rects[3 * (i - 1) .. 3 * i] == Connector(s[i - 1], s[i]).rects
    decreases k
  {
    if k > 1 {
      var prev := Stitched(s, k - 1);
      StitchedRects(s, k - 1);
      var rs := Connector(s[k - 2], s[k - 1]).rects;
      assert Stitched(s, k).rects == prev.rects + rs;
      forall i | 1 <= i < k
        ensures Connector(s[i - 1], s[i]).Rects? && Stitched(s, k).rects[3 * (i - 1) .. 3 * i] == Connector(s[i - 1], s[i]).rects
      {
        if i < k - 1 {
          assert Stitched(s, k).rects[3 * (i - 1) .. 3 * i] == prev.rects[3 * (i - 1) .. 3 * i];
        } else {
          assert Stitched(s, k).rects[3 * (i - 1) .. 3 * i] == rs;
        }
      }
    }
  }

  /**
   * When it throws, it throws at the first rejected step j, having drawn exactly the
   * connectors of the steps before j.
   */
  lemma {:induction false} StitchedThrows(s: seq<H.Vec>, k: nat)
    requires k <= |s| && Stitched(s, k).thrown
    ensures exists j ::
      && 1 <= j < k && Connector(s[j - 1], s[j]).NotAxisAligned?
      && !Stitched(s, j).thrown && Stitched(s, k).rects == Stitched(s, j).rects
    decreases k
  {
    if Stitched(s, k - 1).thrown {
      StitchedThrows(s, k - 1);
      var j :| 1 <= j < k - 1 && Connector(s[j - 1], s[j]).NotAxisAligned?
        && !Stitched(s, j).thrown && Stitched(s, k - 1).rects == Stitched(s, j).rects;
    } else {
      assert Connector(s[k - 2], s[k - 1]).NotAxisAligned?;
    }
  }

  /** A path of unit steps, such as the Hilbert poly-line, never makes the `map` throw. */
  lemma {:induction false} UnitStepsFinish(s: seq<H.Vec>)
    requires H.UnitSteps(s)
    ensures !Stitched(s, |s|).thrown
  {
    forall i | 1 <= i < |s|
      ensures Connector(s[i - 1], s[i]).Rects?
    {
      UnitStepConnects(s[i - 1], s[i]);
    }
    StitchedFinishes(s, |s|);
  }

  /**
   * The `map` callback, as a loop over the indices i >= 1 of `points`; it stops at
   * the first rejected step with what it has drawn so far.
   */
  method Stitch(points: seq<H.Vec>) returns (rects: seq<Rect>, thrown: bool)
    ensures rects == Stitched(points, |points|).rects && thrown == Stitched(points, |points|).thrown
    ensures !thrown <==> forall i :: 1 <= i < |points| ==> Connector(points[i - 1], points[i]).Rects?
  {
    rects, thrown := [], false;
    if |points| == 0 {
      return;
    }
    var i := 1;
    while i < |points|
      invariant 1 <= i <= |points|
      invariant Stitched(points, i) == Drawing(rects, false)
    {
      var c := Connector(points[i - 1], points[i]);
      if c.NotAxisAligned? {
        thrown := true;
        StillThrown(points, i + 1, |points|);
        StitchedFinishes(points, |points|);
        return;
      }
      rects := rects + c.rects;
      i := i + 1;
    }
    StitchedFinishes(points, |points|);
  }

  /** Once the `map` has thrown, later points change nothing. */
  lemma {:induction false} StillThrown(s: seq<H.Vec>, j: nat, k: nat)
    requires j <= k <= |s| && Stitched(s, j).thrown
    ensures Stitched(s, k) == Stitched(s, j)
    decreases k
  {
    if k > j {
      StillThrown(s, j, k - 1);
    }
  }
}
