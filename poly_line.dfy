/**
 * `hilbertPolyLine(depth)` as the source writes it: a turtle whose position,
 * direction and list of visited points are updated in place by `forward`,
 * `rotPlus` and `rotMinus`, driven by the two mutually recursive rules `A` and
 * `B`. Every operation is proved against the pure model in `HilbertCurve`: the
 * pose it leaves the turtle in and the points it appends.
 */
module PolyLine {
  import H = HilbertCurve

  /** The closure state of `hilbertPolyLine`: `pos_x`, `pos_y`, `dir_x`, `dir_y` and `result`. */
  class Turtle {
    var posX: int
    var posY: int
    var dirX: int
    var dirY: int
    var result: seq<H.Vec>
    /** The heading `[dirX, dirY]` stands for. */
    ghost var heading: H.Heading

    /** The direction is always one of the four unit vectors. */
    ghost predicate Valid()
      reads this
    {
      H.Vec(dirX, dirY) == H.Unit(heading)
    }

    ghost function Pose(): H.Pose
      reads this
    {
      H.Pose(H.Vec(posX, posY), heading)
    }

    /** The turtle at the origin, heading +x, with the origin as the only point so far. */
    constructor ()
      ensures Valid() && Pose() == H.Pose(H.Vec(0, 0), H.East) && result == [H.Vec(0, 0)]
    {
      posX, posY, dirX, dirY := 0, 0, 1, 0;
      result := [H.Vec(0, 0)];
      heading := H.East;
    }

    /** `forward`: one step along the direction, appending the new position. */
    method Forward()
      requires Valid()
      modifies this
      ensures Valid() && Pose() == H.Forward(old(Pose()))
      ensures result == old(result) + [Pose().pos]
    {
      posX := posX + dirX;
      posY := posY + dirY;
      result := result + [H.Vec(posX, posY)];
    }

    /** `rotPlus`: `[dir_x, dir_y] = [-dir_y, dir_x]`. */
    method RotPlus()
      requires Valid()
      modifies this
      ensures Valid() && Pose() == H.Turned(H.A, old(Pose())) && heading == H.RotPlus(old(heading))
      ensures result == old(result)
    {
      dirX, dirY := -dirY, dirX;
      heading := H.RotPlus(heading);
    }

    /** `rotMinus`: `[dir_x, dir_y] = [dir_y, -dir_x]`. */
    method RotMinus()
      requires Valid()
      modifies this
      ensures Valid() && Pose() == H.Turned(H.B, old(Pose())) && heading == H.RotMinus(old(heading))
      ensures result == old(result)
    {
      dirX, dirY := dirY, -dirX;
      heading := H.RotMinus(heading);
    }

    /**
     * Rule A: appends the points `H.Visits(A, depth, _)`, the trace of the call after its start,
     * and leaves the turtle 2^depth - 1 steps further ahead, heading as before.
     */
    method A(depth: nat)
      requires Valid()
      modifies this
      ensures Valid() && Pose() == H.End(H.A, depth, old(Pose()))
      ensures result == old(result) + H.Visits(H.A, depth, old(Pose()))
      decreases depth
    {
      if depth == 0 {
        return;
      }
      ghost var p, r0 := Pose(), result;
      var d := depth - 1;
      ghost var qs := H.Starts(H.A, d + 1, p);
      H.StartsNext(H.A, d, p);
      RotPlus();
      assert Pose() == qs.q1;
      B(d);
      Forward();
      RotMinus();
      assert Pose() == qs.q2;
      A(d);
      Forward();
      assert Pose() == qs.q3;
      A(d);
      RotMinus();
      assert Pose() == H.Turned(H.B, H.End(H.A, d, qs.q3));
      Forward();
      assert Pose() == qs.q4;
      B(d);
      RotPlus();
      assert Pose() == H.Turned(H.A, H.End(H.B, d, qs.q4));
      H.EndNext(H.A, d, p);
      H.VisitsNext(H.A, d, p);
      H.AppendSeven(r0, H.Visits(H.B, d, qs.q1), [qs.q2.pos], H.Visits(H.A, d, qs.q2), [qs.q3.pos], H.Visits(H.A, d, qs.q3),
                    [qs.q4.pos], H.Visits(H.B, d, qs.q4));
      H.ShiftVisits(H.A, p, d, depth);
      H.ShiftEnd(H.A, p, d, depth);
    }

    /** Rule B: rule A mirrored, opening with `rotMinus` instead of `rotPlus`. */
    method B(depth: nat)
      requires Valid()
      modifies this
      ensures Valid() && Pose() == H.End(H.B, depth, old(Pose()))
      ensures result == old(result) + H.Visits(H.B, depth, old(Pose()))
      decreases depth
    {
      if depth == 0 {
        return;
      }
      ghost var p, r0 := Pose(), result;
      var d := depth - 1;
      ghost var qs := H.Starts(H.B, d + 1, p);
      H.StartsNext(H.B, d, p);
      RotMinus();
      assert Pose() == qs.q1;
      A(d);
      Forward();
      RotPlus();
      assert Pose() == qs.q2;
      B(d);
      Forward();
      assert Pose() == qs.q3;
      B(d);
      RotPlus();
      assert Pose() == H.Turned(H.A, H.End(H.B, d, qs.q3));
      Forward();
      assert Pose() == qs.q4;
      A(d);
      RotMinus();
      assert Pose() == H.Turned(H.B, H.End(H.A, d, qs.q4));
      H.EndNext(H.B, d, p);
      H.VisitsNext(H.B, d, p);
      H.AppendSeven(r0, H.Visits(H.A, d, qs.q1), [qs.q2.pos], H.Visits(H.B, d, qs.q2), [qs.q3.pos], H.Visits(H.B, d, qs.q3),
                    [qs.q4.pos], H.Visits(H.A, d, qs.q4));
      H.ShiftVisits(H.B, p, d, depth);
      H.ShiftEnd(H.B, p, d, depth);
    }
  }

  /**
   * `hilbertPolyLine(depth)`: rule A run from the origin heading +x returns the
   * Hilbert curve of order depth, whose properties `H.CurveIsHilbert` states.
   */
  method HilbertPolyLine(depth: nat) returns (points: seq<H.Vec>)
    ensures points == H.Curve(depth)
  {
    var turtle := new Turtle();
    turtle.A(depth);
    points := turtle.result;
    H.PolyLineIsCurve(depth);
  }
}
