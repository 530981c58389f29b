/**
 * The turtle traversal behind `hilbertPolyLine` as pure functions: a pose
 * (position and heading), the two turns, the forward step, and the two
 * Lindenmayer rules A and B of the Hilbert curve, followed by the lemmas that
 * make the traversal a Hilbert polyline: 4^d points starting at the origin,
 * unit axis-aligned steps, the heading restored by every rule, and every cell
 * of the 2^d x 2^d grid visited exactly once.
 */
module HilbertCurve {

  /** A lattice point, or a displacement between two of them. */
  datatype Vec = Vec(x: int, y: int)

  function Plus(a: Vec, b: Vec): Vec { Vec(a.x + b.x, a.y + b.y) }

  function Minus(a: Vec, b: Vec): Vec { Vec(a.x - b.x, a.y - b.y) }

  function Pow2(n: nat): (r: nat)
    ensures r >= 1
  {
    if n == 0 then 1 else 2 * Pow2(n - 1)
  }

  function Pow4(n: nat): (r: nat)
    ensures r >= 1
  {
    if n == 0 then 1 else 4 * Pow4(n - 1)
  }

  lemma {:induction false} Pow4IsSquare(n: nat)
    ensures Pow4(n) == Pow2(n) * Pow2(n)
  {
    if n > 0 {
      Pow4IsSquare(n - 1);
    }
  }

  /**
   * The four values the turtle's direction `[dir_x, dir_y]` takes: it starts
   * at [1, 0] and is only ever changed by the two quarter turns.
   */
  datatype Heading = East | North | West | South

  /** The direction vector `[dir_x, dir_y]` of a heading. */
  function Unit(h: Heading): Vec
  {
    match h
    case East => Vec(1, 0)
    case North => Vec(0, 1)
    case West => Vec(-1, 0)
    case South => Vec(0, -1)
  }

  /** Only one heading has a given direction vector. */
  lemma {:induction false} UnitInjective(h: Heading, k: Heading)
    ensures Unit(h) == Unit(k) <==> h == k
  {
  }

  function Opposite(h: Heading): (r: Heading)
    ensures Unit(r) == Vec(-Unit(h).x, -Unit(h).y)
  {
    match h
    case East => West
    case North => South
    case West => East
    case South => North
  }

  /** `rotPlus`: `[dir_x, dir_y] = [-dir_y, dir_x]`, a quarter turn from +x towards +y. */
  function RotPlus(h: Heading): (r: Heading)
    ensures Unit(r) == Vec(-Unit(h).y, Unit(h).x)
  {
    match h
    case East => North
    case North => West
    case West => South
    case South => East
  }

  /** `rotMinus`: `[dir_x, dir_y] = [dir_y, -dir_x]`, a quarter turn from +x towards -y. */
  function RotMinus(h: Heading): (r: Heading)
    ensures Unit(r) == Vec(Unit(h).y, -Unit(h).x)
  {
    match h
    case East => South
    case North => East
    case West => North
    case South => West
  }

  /** The two turns undo each other, and together with their doubles they are the four rotations. */
  lemma {:induction false} TurnsInverse(h: Heading)
    ensures RotMinus(RotPlus(h)) == h && RotPlus(RotMinus(h)) == h
    ensures RotPlus(RotPlus(h)) == Opposite(h) && RotMinus(RotMinus(h)) == Opposite(h)
  {
  }

  /** `k` unit steps along the heading `h`. */
  function Times(k: int, h: Heading): Vec
  {
    match h
    case East => Vec(k, 0)
    case North => Vec(0, k)
    case West => Vec(-k, 0)
    case South => Vec(0, -k)
  }

  /** The coordinate of `v` along the heading `h`: the dot product of `v` and `Unit(h)`. */
  function Along(v: Vec, h: Heading): int
  {
    match h
    case East => v.x
    case North => v.y
    case West => -v.x
    case South => -v.y
  }

  /** The two productions of the Hilbert L-system: `A` and `B`. */
  datatype Rule = A | B

  /** The rule a rule calls for its first and last sub-call. */
  function Other(r: Rule): Rule { if r == A then B else A }

  /** The turn a rule opens and closes with: `rotPlus` for A, `rotMinus` for B. */
  function Turn(r: Rule, h: Heading): Heading { if r == A then RotPlus(h) else RotMinus(h) }

  /** The closing turn of a rule's partner undoes its opening turn, and points the other way. */
  lemma {:induction false} TurnBack(r: Rule, h: Heading)
    ensures Turn(Other(r), Turn(r, h)) == h
    ensures Turn(Other(r), h) == Opposite(Turn(r, h))
    ensures Turn(r, Turn(Other(r), h)) == h
    ensures Turn(r, Turn(r, h)) == Opposite(h)
  {
  }

  /** The turtle state of `hilbertPolyLine`: position `[pos_x, pos_y]` and heading. */
  datatype Pose = Pose(pos: Vec, dir: Heading)

  /** `forward`: advance the position by the heading. */
  function Forward(p: Pose): (q: Pose)
    ensures q.dir == p.dir && Along(Minus(q.pos, p.pos), p.dir) == 1
    ensures IsUnitStep(Minus(q.pos, p.pos))
  {
    Pose(Plus(p.pos, Unit(p.dir)), p.dir)
  }

  /** The turn `Turn(r, _)` applied to the turtle. */
  function Turned(r: Rule, p: Pose): Pose { Pose(p.pos, Turn(r, p.dir)) }

  /**
   * The pose a call `A(d)` (r = A) or `B(d)` (r = B) from pose p leaves the
   * turtle in: 2^d - 1 steps straight ahead, with the heading it started with.
   */
  function End(r: Rule, d: nat, p: Pose): (q: Pose)
    ensures q.dir == p.dir
  {
    Pose(Plus(p.pos, Times(Pow2(d) - 1, p.dir)), p.dir)
  }
  /** A call ends 2^d - 1 unit steps ahead along its heading, and nowhere to the side. */
  lemma {:induction false} EndAhead(r: Rule, d: nat, p: Pose)
    ensures var q := End(r, d, p);
      Along(Minus(q.pos, p.pos), p.dir) == Pow2(d) - 1 && Along(Minus(q.pos, p.pos), Turn(r, p.dir)) == 0
  {
  }


  /** The poses from which the four sub-calls of a call at depth d > 0 start. */
  datatype Quarters = Quarters(q1: Pose, q2: Pose, q3: Pose, q4: Pose)

  function Starts(r: Rule, d: nat, p: Pose): (qs: Quarters)
    requires d > 0
    ensures qs.q1 == Pose(p.pos, Turn(r, p.dir))
    ensures qs.q2.dir == qs.q3.dir == p.dir && qs.q4.dir == Turn(Other(r), p.dir)
  {
    var o := Other(r);
    TurnBack(r, p.dir);
    var q1 := Turned(r, p);
    var q2 := Turned(o, Forward(End(o, d - 1, q1)));
    var q3 := Forward(End(r, d - 1, q2));
    var q4 := Forward(Turned(o, End(r, d - 1, q3)));
    Quarters(q1, q2, q3, q4)
  }

  /**
   * The sub-calls compose: after the last sub-call and the closing turn the
   * turtle is where the whole call ends, with the heading it started with.
   */
  lemma {:induction false} EndComposes(r: Rule, d: nat, p: Pose)
    requires d > 0
    ensures Turned(r, End(Other(r), d - 1, Starts(r, d, p).q4)) == End(r, d, p)
  {
    var h := p.dir;
    TurnBack(r, h);
    TurnsInverse(h);
    assert Starts(r, d, p).q4.dir == Opposite(Turn(r, h));
  }

  /*
   * The Hilbert curve of order d in a frame of its own, where x counts the
   * steps ahead of the start and y the steps towards the side the opening turn
   * faces. In that frame rules A and B draw the same curve (B is A mirrored,
   * and so is its side), built from four copies of the curve of order d - 1:
   * the first sub-call's copy transposed (it runs along the side with the
   * heading as its own side), the middle two shifted, and the last one turned
   * half-way round and shifted to end on the start row.
   */

  /** The four sub-calls of a call, as a position in the call's frame. */
  datatype Quarter = First | Second | Third | Fourth

  /** Where a sub-call's frame point v lies in the frame of the call, whose sub-calls have side k. */
  function Local(qt: Quarter, k: int, v: Vec): Vec
  {
    match qt
    case First => Vec(v.y, v.x)
    case Second => Vec(v.x, v.y + k)
    case Third => Vec(v.x + k, v.y + k)
    case Fourth => Vec(2 * k - 1 - v.y, k - 1 - v.x)
  }

  /** The inverse of `Local`: the sub-call frame point that lies at v. */
  function Unlocal(qt: Quarter, k: int, v: Vec): (u: Vec)
    ensures Local(qt, k, u) == v
  {
    match qt
    case First => Vec(v.y, v.x)
    case Second => Vec(v.x, v.y - k)
    case Third => Vec(v.x - k, v.y - k)
    case Fourth => Vec(k - 1 - v.y, 2 * k - 1 - v.x)
  }

  lemma {:induction false} UnlocalLocal(qt: Quarter, k: int, v: Vec)
    ensures Unlocal(qt, k, Local(qt, k, v)) == v
  {
  }

  function MapLocal(qt: Quarter, k: int, c: seq<Vec>): (m: seq<Vec>)
    ensures |m| == |c|
  {
    seq(|c|, i requires 0 <= i < |c| => Local(qt, k, c[i]))
  }

  /** Four copies of the curve c with side k, one per quarter of the square of side 2k, in drawing order. */
  function Assembled(c: seq<Vec>, k: int): (a: seq<Vec>)
    ensures |a| == 4 * |c|
    ensures |c| > 0 && c[0] == Vec(0, 0) ==> a[0] == Vec(0, 0)
  {
    MapLocal(First, k, c) + MapLocal(Second, k, c) + MapLocal(Third, k, c) + MapLocal(Fourth, k, c)
  }

  /** The Hilbert curve of order d, in its own frame. */
  function Curve(d: nat): (c: seq<Vec>)
    ensures |c| == Pow4(d) && c[0] == Vec(0, 0)
    decreases d
  {
    if d == 0 then [Vec(0, 0)]
    else
      Assembled(Curve(d - 1), Pow2(d - 1))
  }

  /** The square of side n at the frame's origin. */
  predicate InSquare(v: Vec, n: int)
  {
    0 <= v.x < n && 0 <= v.y < n
  }

  /** A step of one unit along one axis. */
  predicate IsUnitStep(v: Vec)
  {
    (v.x == 0 && (v.y == 1 || v.y == -1)) || (v.y == 0 && (v.x == 1 || v.x == -1))
  }

  /** Consecutive points differ by one unit along exactly one axis. */
  predicate UnitSteps(s: seq<Vec>)
  {
    forall i :: 1 <= i < |s| ==> IsUnitStep(Minus(s[i], s[i - 1]))
  }

  /** No point occurs twice. */
  predicate Distinct(s: seq<Vec>)
  {
    forall i, j :: 0 <= i < j < |s| ==> s[i] != s[j]
  }

  /** A point lies on a moved copy exactly when the point it came from lies on the original. */
  lemma {:induction false} MapLocalHas(qt: Quarter, k: int, c: seq<Vec>, v: Vec)
    ensures v in MapLocal(qt, k, c) <==> Unlocal(qt, k, v) in c
  {
    var m := MapLocal(qt, k, c);
    if v in m {
      var i :| 0 <= i < |m| && m[i] == v;
      UnlocalLocal(qt, k, c[i]);
    }
    if Unlocal(qt, k, v) in c {
      var i :| 0 <= i < |c| && c[i] == Unlocal(qt, k, v);
      assert m[i] == v;
    }
  }

  /** The four quarters of the square of side 2k, which do not overlap, are where the four copies go. */
  lemma {:induction false} QuarterSquares(k: int, v: Vec)
    ensures var in1, in2 := InSquare(Unlocal(First, k, v), k), InSquare(Unlocal(Second, k, v), k);
      var in3, in4 := InSquare(Unlocal(Third, k, v), k), InSquare(Unlocal(Fourth, k, v), k);
      (InSquare(v, 2 * k) <==> in1 || in2 || in3 || in4)
      && !(in1 && in2) && !(in1 && in3) && !(in1 && in4) && !(in2 && in3) && !(in2 && in4) && !(in3 && in4)
  {
  }

  /** Moving a curve point by point keeps its points apart, and its steps unit steps. */
  lemma {:induction false} MapLocalKeeps(qt: Quarter, k: int, c: seq<Vec>)
    ensures Distinct(c) ==> Distinct(MapLocal(qt, k, c))
    ensures UnitSteps(c) ==> UnitSteps(MapLocal(qt, k, c))
  {
    var m := MapLocal(qt, k, c);
    forall i, j | 0 <= i < j < |m| && Distinct(c)
      ensures m[i] != m[j]
    {
      UnlocalLocal(qt, k, c[i]);
      UnlocalLocal(qt, k, c[j]);
    }
  }

  lemma {:induction false} DistinctConcat(a: seq<Vec>, b: seq<Vec>)
    requires Distinct(a) && Distinct(b)
    requires forall v :: v in a ==> v !in b
    ensures Distinct(a + b)
  {
    var ab := a + b;
    forall i, j | 0 <= i < j < |ab|
      ensures ab[i] != ab[j]
    {
      if i < |a| <= j {
        assert ab[i] in a && ab[j] == b[j - |a|];
      }
    }
  }

  lemma {:induction false} UnitStepsConcat(a: seq<Vec>, b: seq<Vec>)
    requires UnitSteps(a) && UnitSteps(b) && |a| > 0 && |b| > 0
    requires IsUnitStep(Minus(b[0], a[|a| - 1]))
    ensures UnitSteps(a + b)
  {
    var ab := a + b;
    forall i | 1 <= i < |ab|
      ensures IsUnitStep(Minus(ab[i], ab[i - 1]))
    {
      if i > |a| {
        assert ab[i] == b[i - |a|] && ab[i - 1] == b[i - 1 - |a|];
      }
    }
  }

  lemma {:induction false} LastOfConcat(a: seq<Vec>, b: seq<Vec>)
    requires |b| > 0
    ensures (a + b)[|a + b| - 1] == b[|b| - 1]
  {
  }

  /**
   * The ends of the four copies of a curve that starts at the origin and ends
   * at (k - 1, 0): each copy starts one unit step after the one before ends.
   */
  lemma {:induction false} CopyEnds(c: seq<Vec>, k: int)
    requires |c| > 0 && c[0] == Vec(0, 0) && c[|c| - 1] == Vec(k - 1, 0)
    ensures var n, m1, m2 := |c|, MapLocal(First, k, c), MapLocal(Second, k, c);
      var m3, m4 := MapLocal(Third, k, c), MapLocal(Fourth, k, c);
      m1[0] == Vec(0, 0) && m1[n - 1] == Vec(0, k - 1) && m2[0] == Vec(0, k) && m2[n - 1] == Vec(k - 1, k)
      && m3[0] == Vec(k, k) && m3[n - 1] == Vec(2 * k - 1, k)
      && m4[0] == Vec(2 * k - 1, k - 1) && m4[n - 1] == Vec(2 * k - 1, 0)
  {
  }

  /** Assembling four copies of a curve that fills the square of side k fills the square of side 2k. */
  lemma {:induction false} AssembledCovers(c: seq<Vec>, k: int)
    requires forall v :: v in c <==> InSquare(v, k)
    ensures forall v :: v in Assembled(c, k) <==> InSquare(v, 2 * k)
  {
    forall v
      ensures v in Assembled(c, k) <==> InSquare(v, 2 * k)
    {
      MapLocalHas(First, k, c, v);
      MapLocalHas(Second, k, c, v);
      MapLocalHas(Third, k, c, v);
      MapLocalHas(Fourth, k, c, v);
      QuarterSquares(k, v);
    }
  }

  /** The four copies of a curve with distinct points that stays in the square of side k share no point. */
  lemma {:induction false} AssembledDistinct(c: seq<Vec>, k: int)
    requires Distinct(c)
    requires forall v :: v in c ==> InSquare(v, k)
    ensures Distinct(Assembled(c, k))
  {
    var m1, m2, m3, m4 := MapLocal(First, k, c), MapLocal(Second, k, c), MapLocal(Third, k, c), MapLocal(Fourth, k, c);
    MapLocalKeeps(First, k, c);
    MapLocalKeeps(Second, k, c);
    MapLocalKeeps(Third, k, c);
    MapLocalKeeps(Fourth, k, c);
    forall v
      ensures (v in m1 ==> v !in m2 && v !in m3 && v !in m4) && (v in m2 ==> v !in m3 && v !in m4)
        && (v in m3 ==> v !in m4)
    {
      MapLocalHas(First, k, c, v);
      MapLocalHas(Second, k, c, v);
      MapLocalHas(Third, k, c, v);
      MapLocalHas(Fourth, k, c, v);
      QuarterSquares(k, v);
    }
    DistinctConcat(m1, m2);
    DistinctConcat(m1 + m2, m3);
    DistinctConcat(m1 + m2 + m3, m4);
  }

  /** The first two copies make a curve of unit steps from the origin to (k - 1, k). */
  lemma {:induction false} FirstHalfSteps(c: seq<Vec>, k: int)
    requires |c| > 0 && c[0] == Vec(0, 0) && c[|c| - 1] == Vec(k - 1, 0)
    requires UnitSteps(c)
    ensures var h := MapLocal(First, k, c) + MapLocal(Second, k, c);
      UnitSteps(h) && h[0] == Vec(0, 0) && h[|h| - 1] == Vec(k - 1, k)
  {
    var m1, m2 := MapLocal(First, k, c), MapLocal(Second, k, c);
    MapLocalKeeps(First, k, c);
    MapLocalKeeps(Second, k, c);
    CopyEnds(c, k);
    UnitStepsConcat(m1, m2);
    LastOfConcat(m1, m2);
  }

  /** The last two copies make a curve of unit steps from (k, k) to (2k - 1, 0). */
  lemma {:induction false} SecondHalfSteps(c: seq<Vec>, k: int)
    requires |c| > 0 && c[0] == Vec(0, 0) && c[|c| - 1] == Vec(k - 1, 0)
    requires UnitSteps(c)
    ensures var g := MapLocal(Third, k, c) + MapLocal(Fourth, k, c);
      UnitSteps(g) && g[0] == Vec(k, k) && g[|g| - 1] == Vec(2 * k - 1, 0)
  {
    var m3, m4 := MapLocal(Third, k, c), MapLocal(Fourth, k, c);
    MapLocalKeeps(Third, k, c);
    MapLocalKeeps(Fourth, k, c);
    CopyEnds(c, k);
    UnitStepsConcat(m3, m4);
    LastOfConcat(m3, m4);
  }

  /**
   * The four copies of a curve of unit steps from the origin to (k - 1, 0) make
   * a curve of unit steps from the origin to (2k - 1, 0): each copy starts one
   * unit step after the one before it ends.
   */
  lemma {:induction false} AssembledSteps(c: seq<Vec>, k: int)
    requires |c| > 0 && c[0] == Vec(0, 0) && c[|c| - 1] == Vec(k - 1, 0)
    requires UnitSteps(c)
    ensures var a := Assembled(c, k); UnitSteps(a) && a[|a| - 1] == Vec(2 * k - 1, 0)
  {
    var h := MapLocal(First, k, c) + MapLocal(Second, k, c);
    var g := MapLocal(Third, k, c) + MapLocal(Fourth, k, c);
    FirstHalfSteps(c, k);
    SecondHalfSteps(c, k);
    UnitStepsConcat(h, g);
    LastOfConcat(h, g);
    assert Assembled(c, k) == h + g;
  }

  /**
   * The Hilbert curve of order d: 4^d points from the origin to (2^d - 1, 0),
   * one unit step apart, visiting every cell of the 2^d x 2^d square once.
   */
  lemma {:induction false} CurveIsHilbert(d: nat)
    ensures var c := Curve(d);
      c[Pow4(d) - 1] == Vec(Pow2(d) - 1, 0) && UnitSteps(c) && Distinct(c)
      && forall v :: v in c <==> InSquare(v, Pow2(d))
    decreases d
  {
    if d > 0 {
      var c, k := Curve(d - 1), Pow2(d - 1);
      CurveIsHilbert(d - 1);
      AssembledCovers(c, k);
      AssembledDistinct(c, k);
      AssembledSteps(c, k);
    }
  }

  /** The image of a curve under a map of the plane, point by point. */
  function MapVec(f: Vec -> Vec, c: seq<Vec>): (t: seq<Vec>)
    ensures |t| == |c|
  {
    seq(|c|, i requires 0 <= i < |c| => f(c[i]))
  }

  lemma {:induction false} MapVecConcat(f: Vec -> Vec, a: seq<Vec>, b: seq<Vec>)
    ensures MapVec(f, a + b) == MapVec(f, a) + MapVec(f, b)
  {
  }

  /** A map that takes unit steps to unit steps takes a curve of unit steps to one. */
  lemma {:induction false} MapVecSteps(f: Vec -> Vec, c: seq<Vec>)
    requires forall u, v :: IsUnitStep(Minus(v, u)) ==> IsUnitStep(Minus(f(v), f(u)))
    requires UnitSteps(c)
    ensures UnitSteps(MapVec(f, c))
  {
    var t := MapVec(f, c);
    forall i | 1 <= i < |t|
      ensures IsUnitStep(Minus(t[i], t[i - 1]))
    {
      assert IsUnitStep(Minus(c[i], c[i - 1]));
    }
  }

  /** A map with a left inverse keeps distinct points distinct. */
  lemma {:induction false} MapVecDistinct(f: Vec -> Vec, g: Vec -> Vec, c: seq<Vec>)
    requires forall v :: g(f(v)) == v
    requires Distinct(c)
    ensures Distinct(MapVec(f, c))
  {
    var t := MapVec(f, c);
    forall i, j | 0 <= i < j < |t|
      ensures t[i] != t[j]
    {
      assert g(t[i]) == c[i] && g(t[j]) == c[j];
    }
  }

  /** Under a map with a two-sided inverse g, q is on the image exactly when g(q) is on the original. */
  lemma {:induction false} MapVecHas(f: Vec -> Vec, g: Vec -> Vec, c: seq<Vec>, q: Vec)
    requires forall v :: g(f(v)) == v
    requires f(g(q)) == q
    ensures q in MapVec(f, c) <==> g(q) in c
  {
    var t := MapVec(f, c);
    if g(q) in c {
      var i :| 0 <= i < |c| && c[i] == g(q);
      assert t[i] == q;
    }
  }

  /** Two maps that agree on the images of `Local` agree on a moved copy and its original. */
  lemma {:induction false} MapVecLocal(f: Vec -> Vec, g: Vec -> Vec, qt: Quarter, k: int, c: seq<Vec>)
    requires forall v :: f(Local(qt, k, v)) == g(v)
    ensures MapVec(f, MapLocal(qt, k, c)) == MapVec(g, c)
  {
  }

  /*
   * The curve in the world: a call of rule r from pose p draws the curve of
   * its depth with the frame's x axis along the heading and its y axis along
   * the turn the rule opens with.
   */

  /** Where the frame point v of a call of rule r from pose p lies. */
  function Locate(r: Rule, p: Pose, v: Vec): Vec
  {
    Plus(Plus(p.pos, Times(v.x, p.dir)), Times(v.y, Turn(r, p.dir)))
  }

  /** The coordinates of q in the frame of a call of rule r from pose p. */
  function Frame(r: Rule, p: Pose, q: Vec): Vec
  {
    var rel := Minus(q, p.pos);
    Vec(Along(rel, p.dir), Along(rel, Turn(r, p.dir)))
  }

  function Locator(r: Rule, p: Pose): Vec -> Vec { v => Locate(r, p, v) }

  function Framer(r: Rule, p: Pose): Vec -> Vec { q => Frame(r, p, q) }

  /**
   * The points a call `A(d)` (r = A) or `B(d)` (r = B) from pose p visits: its
   * starting position, then the position after each `forward`, in order.
   */
  function Trace(r: Rule, d: nat, p: Pose): (t: seq<Vec>)
    ensures |t| == Pow4(d) && t[0] == p.pos
  {
    MapVec(Locator(r, p), Curve(d))
  }

  /** `Frame` and `Locate` are inverse to each other: a call's frame covers the plane once. */
  lemma {:induction false} FrameLocate(r: Rule, p: Pose, v: Vec, q: Vec)
    ensures Frame(r, p, Locate(r, p, v)) == v
    ensures Locate(r, p, Frame(r, p, q)) == q
  {
  }

  /** The frame's x axis runs along the heading. */
  lemma {:induction false} LocateAhead(r: Rule, p: Pose, k: int)
    ensures Locate(r, p, Vec(k, 0)) == Plus(p.pos, Times(k, p.dir))
  {
  }

  /** A unit step in the frame is a unit step in the world. */
  lemma {:induction false} LocateStep(r: Rule, p: Pose, u: Vec, v: Vec)
    requires IsUnitStep(Minus(v, u))
    ensures IsUnitStep(Minus(Locate(r, p, v), Locate(r, p, u)))
  {
  }

  /** `Frame` undoes the whole map `Locate` of a frame. */
  lemma {:induction false} LocatorInverse(r: Rule, p: Pose)
    ensures forall v :: Framer(r, p)(Locator(r, p)(v)) == v
  {
    forall v {
      FrameLocate(r, p, v, v);
    }
  }

  /** The map `Locate` of a frame takes unit steps to unit steps. */
  lemma {:induction false} LocatorSteps(r: Rule, p: Pose)
    ensures forall u, v :: IsUnitStep(Minus(v, u)) ==> IsUnitStep(Minus(Locator(r, p)(v), Locator(r, p)(u)))
  {
    forall u, v | IsUnitStep(Minus(v, u)) {
      LocateStep(r, p, u, v);
    }
  }

  /**
   * The block of cells a call of rule r at depth d from pose p sweeps: 2^d cells
   * ahead along the heading, and 2^d cells towards the side the rule first
   * turns to (left for A, right for B).
   */
  predicate InBlock(r: Rule, d: nat, p: Pose, q: Vec)
  {
    InSquare(Frame(r, p, q), Pow2(d))
  }

  lemma {:induction false} CurveLast(d: nat)
    ensures Curve(d)[Pow4(d) - 1] == Vec(Pow2(d) - 1, 0)
  {
    CurveIsHilbert(d);
  }

  /** A call's points are one unit step apart. */
  lemma {:induction false} TraceSteps(r: Rule, d: nat, p: Pose)
    ensures UnitSteps(Trace(r, d, p))
  {
    CurveIsHilbert(d);
    LocatorSteps(r, p);
    MapVecSteps(Locator(r, p), Curve(d));
  }

  /** A call visits no point twice. */
  lemma {:induction false} TraceDistinct(r: Rule, d: nat, p: Pose)
    ensures Distinct(Trace(r, d, p))
  {
    CurveIsHilbert(d);
    LocatorInverse(r, p);
    MapVecDistinct(Locator(r, p), Framer(r, p), Curve(d));
  }

  /** A call visits every cell of its block and nothing outside it. */
  lemma {:induction false} TraceCovers(r: Rule, d: nat, p: Pose)
    ensures forall q :: q in Trace(r, d, p) <==> InBlock(r, d, p, q)
  {
    CurveIsHilbert(d);
    LocatorInverse(r, p);
    forall q
      ensures q in Trace(r, d, p) <==> InBlock(r, d, p, q)
    {
      FrameLocate(r, p, q, q);
      MapVecHas(Locator(r, p), Framer(r, p), Curve(d), q);
    }
  }

  /** A call ends its trace where the turtle ends up. */
  lemma {:induction false} TraceLast(r: Rule, d: nat, p: Pose)
    ensures Trace(r, d, p)[Pow4(d) - 1] == End(r, d, p).pos
  {
    CurveLast(d);
    LocateAhead(r, p, Pow2(d) - 1);
    assert Trace(r, d, p)[Pow4(d) - 1] == Locate(r, p, Vec(Pow2(d) - 1, 0));
  }

  /**
   * A call of rule r at depth d from pose p visits 4^d points, starting where
   * it starts and ending where the turtle ends up, one unit step apart, and
   * visits every cell of its block exactly once and nothing outside it.
   */
  lemma {:induction false} TraceIsHilbert(r: Rule, d: nat, p: Pose)
    ensures var t := Trace(r, d, p);
      |t| == Pow4(d) && t[0] == p.pos && t[Pow4(d) - 1] == End(r, d, p).pos
      && UnitSteps(t) && Distinct(t) && forall q :: q in t <==> InBlock(r, d, p, q)
  {
    TraceSteps(r, d, p);
    TraceDistinct(r, d, p);
    TraceCovers(r, d, p);
    TraceLast(r, d, p);
  }

  /** Where the four sub-calls start, relative to the start of the call. */
  lemma {:induction false} StartOffsets(r: Rule, d: nat, p: Pose)
    requires d > 0
    ensures var qs, s, h, k := Starts(r, d, p), Turn(r, p.dir), p.dir, Pow2(d - 1);
      qs.q2.pos == Plus(p.pos, Times(k, s))
      && qs.q3.pos == Plus(Plus(p.pos, Times(k, s)), Times(k, h))
      && qs.q4.pos == Plus(Plus(p.pos, Times(k - 1, s)), Times(2 * k - 1, h))
  {
    TurnBack(r, p.dir);
    TurnsInverse(p.dir);
  }

  /** Each sub-call's frame is the call's frame moved by `Local`: the first sub-call's, transposed. */
  lemma {:induction false} FirstFrame(r: Rule, d: nat, p: Pose, v: Vec)
    requires d > 0
    ensures Locate(r, p, Local(First, Pow2(d - 1), v)) == Locate(Other(r), Starts(r, d, p).q1, v)
  {
    TurnBack(r, p.dir);
  }

  /** The second sub-call's frame: shifted 2^(d-1) steps to the side. */
  lemma {:induction false} SecondFrame(r: Rule, d: nat, p: Pose, v: Vec)
    requires d > 0
    ensures Locate(r, p, Local(Second, Pow2(d - 1), v)) == Locate(r, Starts(r, d, p).q2, v)
  {
    StartOffsets(r, d, p);
  }

  /** The third sub-call's frame: shifted 2^(d-1) steps to the side and 2^(d-1) ahead. */
  lemma {:induction false} ThirdFrame(r: Rule, d: nat, p: Pose, v: Vec)
    requires d > 0
    ensures Locate(r, p, Local(Third, Pow2(d - 1), v)) == Locate(r, Starts(r, d, p).q3, v)
  {
    StartOffsets(r, d, p);
  }

  /** The fourth sub-call's frame: turned half-way round, from the far corner of the start row's half. */
  lemma {:induction false} FourthFrame(r: Rule, d: nat, p: Pose, v: Vec)
    requires d > 0
    ensures Locate(r, p, Local(Fourth, Pow2(d - 1), v)) == Locate(Other(r), Starts(r, d, p).q4, v)
  {
    StartOffsets(r, d, p);
    TurnBack(r, p.dir);
    TurnBack(Other(r), p.dir);
  }

  /**
   * The trace of a call at depth d > 0 is the traces of its four sub-calls,
   * one after the other, each from the pose the turtle is in when it starts.
   */
  lemma {:induction false} TraceSplit(r: Rule, d: nat, p: Pose)
    requires d > 0
    ensures var o, qs := Other(r), Starts(r, d, p);
      Trace(r, d, p) == Trace(o, d - 1, qs.q1) + Trace(r, d - 1, qs.q2) + Trace(r, d - 1, qs.q3) + Trace(o, d - 1, qs.q4)
  {
    var o, qs, c, k, f := Other(r), Starts(r, d, p), Curve(d - 1), Pow2(d - 1), Locator(r, p);
    var m1, m2, m3, m4 := MapLocal(First, k, c), MapLocal(Second, k, c), MapLocal(Third, k, c), MapLocal(Fourth, k, c);
    assert Curve(d) == m1 + m2 + m3 + m4;
    MapVecConcat(f, m1 + m2 + m3, m4);
    MapVecConcat(f, m1 + m2, m3);
    MapVecConcat(f, m1, m2);
    forall v
      ensures f(Local(First, k, v)) == Locator(o, qs.q1)(v)
    {
      FirstFrame(r, d, p, v);
    }
    MapVecLocal(f, Locator(o, qs.q1), First, k, c);
    forall v
      ensures f(Local(Second, k, v)) == Locator(r, qs.q2)(v)
    {
      SecondFrame(r, d, p, v);
    }
    MapVecLocal(f, Locator(r, qs.q2), Second, k, c);
    forall v
      ensures f(Local(Third, k, v)) == Locator(r, qs.q3)(v)
    {
      ThirdFrame(r, d, p, v);
    }
    MapVecLocal(f, Locator(r, qs.q3), Third, k, c);
    forall v
      ensures f(Local(Fourth, k, v)) == Locator(o, qs.q4)(v)
    {
      FourthFrame(r, d, p, v);
    }
    MapVecLocal(f, Locator(o, qs.q4), Fourth, k, c);
  }

  /**
   * The points a call `A(d)` (r = A) or `B(d)` (r = B) from pose p appends to
   * `result`, by the turtle's own recursion: the points of the four sub-calls,
   * each of the last three preceded by the `forward` that leads to its start.
   */
  function Visits(r: Rule, d: nat, p: Pose): (v: seq<Vec>)
    ensures |v| == Pow4(d) - 1
    decreases d
  {
    if d == 0 then []
    else
      var o, qs := Other(r), Starts(r, d, p);
      Visits(o, d - 1, qs.q1) + [qs.q2.pos] + Visits(r, d - 1, qs.q2) + [qs.q3.pos] + Visits(r, d - 1, qs.q3)
        + [qs.q4.pos] + Visits(o, d - 1, qs.q4)
  }

  /** Four traces that each start with their own point, joined. */
  lemma {:induction false} JoinFour(t1: seq<Vec>, t2: seq<Vec>, t3: seq<Vec>, t4: seq<Vec>,
                                    v1: seq<Vec>, v2: seq<Vec>, v3: seq<Vec>, v4: seq<Vec>, a1: Vec, a2: Vec, a3: Vec, a4: Vec)
    requires t1 == [a1] + v1 && t2 == [a2] + v2 && t3 == [a3] + v3 && t4 == [a4] + v4
    ensures t1 + t2 + t3 + t4 == [a1] + (v1 + [a2] + v2 + [a3] + v3 + [a4] + v4)
  {
  }

  /**
   * What the turtle's recursion appends is the trace of the call after its
   * starting point: the operational and the geometric description agree.
   */
  lemma {:induction false} VisitsTrace(r: Rule, d: nat, p: Pose)
    ensures [p.pos] + Visits(r, d, p) == Trace(r, d, p)
    decreases d, 1
  {
    if d == 0 {
      TraceZero(r, p);
    } else {
      var e := d - 1;
      VisitsTraceNext(r, e, p);
      Shift((k: nat) => [p.pos] + Visits(r, k, p) == Trace(r, k, p), e, d);
    }
  }

  lemma {:induction false} VisitsTraceNext(r: Rule, e: nat, p: Pose)
    ensures [p.pos] + Visits(r, e + 1, p) == Trace(r, e + 1, p)
    decreases e + 1, 0
  {
    var o, qs := Other(r), Starts(r, e + 1, p);
    VisitsTrace(o, e, qs.q1);
    VisitsTrace(r, e, qs.q2);
    VisitsTrace(r, e, qs.q3);
    VisitsTrace(o, e, qs.q4);
    TraceSplit(r, e + 1, p);
    JoinFour(Trace(o, e, qs.q1), Trace(r, e, qs.q2), Trace(r, e, qs.q3), Trace(o, e, qs.q4),
             Visits(o, e, qs.q1), Visits(r, e, qs.q2), Visits(r, e, qs.q3), Visits(o, e, qs.q4),
             qs.q1.pos, qs.q2.pos, qs.q3.pos, qs.q4.pos);
  }

  lemma {:induction false} TraceZero(r: Rule, p: Pose)
    ensures Trace(r, 0, p) == [p.pos]
  {
  }

  /** A fact about d - 1 + 1 is the same fact about d. */
  lemma {:induction false} Shift(f: nat -> bool, e: nat, d: nat)
    requires d == e + 1 && f(e + 1)
    ensures f(d)
  {
  }

  /** One level of the turtle's recursion, for a call at depth e + 1. */
  lemma {:induction false} VisitsNext(r: Rule, e: nat, p: Pose)
    ensures var o, qs := Other(r), Starts(r, e + 1, p);
      Visits(r, e + 1, p)
      == Visits(o, e, qs.q1) + [qs.q2.pos] + Visits(r, e, qs.q2) + [qs.q3.pos] + Visits(r, e, qs.q3) + [qs.q4.pos] + Visits(o, e, qs.q4)
  {
  }

  /** How the sub-calls of a call at depth e + 1 hand the turtle on to each other. */
  lemma {:induction false} StartsNext(r: Rule, e: nat, p: Pose)
    ensures var o, qs := Other(r), Starts(r, e + 1, p);
      qs.q1 == Turned(r, p)
      && qs.q2 == Turned(o, Forward(End(o, e, qs.q1)))
      && qs.q3 == Forward(End(r, e, qs.q2))
      && qs.q4 == Forward(Turned(o, End(r, e, qs.q3)))
  {
  }

  /** `EndComposes` for a call at depth e + 1. */
  lemma {:induction false} EndNext(r: Rule, e: nat, p: Pose)
    ensures Turned(r, End(Other(r), e, Starts(r, e + 1, p).q4)) == End(r, e + 1, p)
  {
    EndComposes(r, e + 1, p);
  }

  /** Appending seven pieces one by one appends their concatenation. */
  lemma {:induction false} AppendSeven(s: seq<Vec>, a: seq<Vec>, b: seq<Vec>, c: seq<Vec>, d: seq<Vec>, e: seq<Vec>, f: seq<Vec>, g: seq<Vec>)
    ensures s + a + b + c + d + e + f + g == s + (a + b + c + d + e + f + g)
  {
  }

  lemma {:induction false} ShiftVisits(r: Rule, p: Pose, e: nat, d: nat)
    requires d == e + 1
    ensures Visits(r, d, p) == Visits(r, e + 1, p)
  {
  }

  lemma {:induction false} ShiftEnd(r: Rule, p: Pose, e: nat, d: nat)
    requires d == e + 1
    ensures End(r, d, p) == End(r, e + 1, p)
  {
  }

  /** A map that moves no point leaves a curve as it is. */
  lemma {:induction false} MapVecIdentity(f: Vec -> Vec, c: seq<Vec>)
    requires forall v :: f(v) == v
    ensures MapVec(f, c) == c
  {
  }

  /**
   * `hilbertPolyLine(depth)` runs rule A from the origin heading +x. There the
   * frame of rule A is the plane's own, so the points it visits are exactly the
   * curve `Curve(depth)`.
   */
  lemma {:induction false} OriginTrace(depth: nat)
    ensures Trace(A, depth, Pose(Vec(0, 0), East)) == Curve(depth)
  {
    var f := Locator(A, Pose(Vec(0, 0), East));
    forall v
      ensures f(v) == v
    {
    }
    MapVecIdentity(f, Curve(depth));
  }

  lemma {:induction false} MapLocalOne(qt: Quarter, k: int, v: Vec)
    ensures MapLocal(qt, k, [v]) == [Local(qt, k, v)]
  {
  }

  /** At depth 1 the curve goes up first: (0,0), (0,1), (1,1), (1,0). */
  lemma {:induction false} CurveOne()
    ensures Curve(1) == [Vec(0, 0), Vec(0, 1), Vec(1, 1), Vec(1, 0)]
  {
    var o := Vec(0, 0);
    assert Curve(1) == Assembled([o], 1);
    MapLocalOne(First, 1, o);
    MapLocalOne(Second, 1, o);
    MapLocalOne(Third, 1, o);
    MapLocalOne(Fourth, 1, o);
  }

  /**
   * The polyline `hilbertPolyLine(depth)` returns, the origin followed by what
   * rule A appends, is the Hilbert curve of order depth.
   */
  lemma {:induction false} PolyLineIsCurve(depth: nat)
    ensures [Vec(0, 0)] + Visits(A, depth, Pose(Vec(0, 0), East)) == Curve(depth)
  {
    VisitsTrace(A, depth, Pose(Vec(0, 0), East));
    OriginTrace(depth);
  }
}
