/**
 * Homogeneous-space triangle clipping (Core/Clipper.h): six-bit outcodes,
 * trivial accept and reject, and one Sutherland-Hodgman pass per violated
 * plane in the order near, far, left, right, bottom, top, each followed by
 * draining the triangles that have become fully inside.
 *
 * The functions state what each step produces; the `Clipper` class carries
 * the loops, which are proved to produce exactly that.
 */
module Clipping {
  import opened Vectors

  datatype FragmentLayout = Base | Extension0 | Extension1 | Extension2

  /** The vertex record a vertex buffer holds. */
  datatype Vertex = Vertex(pos: Vec3, normal: Vec3, uv: Vec2, pack0: Vec4, pack1: Vec4)

  /** A shaded vertex: clip-space position and the attributes carried along. */
  datatype Fragment = Fragment(pos: Vec4, normal: Vec3, uv: Vec2, pack0: Vec4, pack1: Vec4)

  /** `Fragment()`: every member zero. */
  const DefaultFragment: Fragment := Fragment(Zero4, Zero3, Zero2, Zero4, Zero4)

  datatype Triangle = Triangle(v0: Fragment, v1: Fragment, v2: Fragment)
  {
    /** `m_vertex[i]`. */
    function V(i: nat): Fragment
      requires i < 3
    {
      if i == 0 then v0 else if i == 1 then v1 else v2
    }
  }

  datatype Viewport = Viewport(topLeftX: real, topLeftY: real, width: real, height: real)

  // ---------------------------------------------------------------- outcodes

  /** A six-bit outcode; bit set means outside the corresponding plane. */
  type ClipCode = bv6

  const Inside: ClipCode := 0

  datatype Plane = Near | Far | Left | Right | Bottom | Top

  /** The order in which `Clip` processes the planes. */
  const PlaneOrder: seq<Plane> := [Near, Far, Left, Right, Bottom, Top]

  /** The single-bit constants `Left` .. `Far`. */
  function Code(pl: Plane): ClipCode
  {
    match pl
    case Left => 1
    case Right => 2
    case Bottom => 4
    case Top => 8
    case Near => 16
    case Far => 32
  }

  /** The predicate `Clip` passes to `ClipPlane` for each plane. */
  predicate Outside(pl: Plane, p: Vec4)
  {
    match pl
    case Near => p.z < 0.0
    case Far => p.z > p.w
    case Left => p.x < -p.w
    case Right => p.x > p.w
    case Bottom => p.y < -p.w
    case Top => p.y > p.w
  }

  /** Signed distance to a plane in clip space, negative exactly outside. */
  function Dist(pl: Plane, p: Vec4): real
  {
    match pl
    case Near => p.z
    case Far => p.w - p.z
    case Left => p.x + p.w
    case Right => p.w - p.x
    case Bottom => p.y + p.w
    case Top => p.w - p.y
  }

  lemma DistSign(pl: Plane, p: Vec4)
    ensures Dist(pl, p) < 0.0 <==> Outside(pl, p)
  {
  }

  function ComputeClipCode(p: Vec4): ClipCode
  {
    (if p.x < -p.w then 1 else 0) | (if p.x > p.w then 2 else 0)
    | (if p.y < -p.w then 4 else 0) | (if p.y > p.w then 8 else 0)
    | (if p.z < 0.0 then 16 else 0) | (if p.z > p.w then 32 else 0)
  }

  /** Each bit of `ComputeClipCode` is set exactly when the vertex is strictly outside that plane. */
  lemma ClipCodeBits(p: Vec4)
    ensures forall pl: Plane :: (ComputeClipCode(p) & Code(pl) != 0) <==> Outside(pl, p)
    ensures ComputeClipCode(p) == Inside <==> forall pl: Plane :: !Outside(pl, p)
  {
    var c := ComputeClipCode(p);
    if c != Inside {
      var pl := if c & 1 != 0 then Left else if c & 2 != 0 then Right
        else if c & 4 != 0 then Bottom else if c & 8 != 0 then Top
        else if c & 16 != 0 then Near else Far;
      assert c & Code(pl) != 0;
    }
  }

  /** The XOR-combine of three codes; it equals their OR whenever their AND is zero. */
  function XorCombine(c0: ClipCode, c1: ClipCode, c2: ClipCode): (x: ClipCode)
    ensures c0 & c1 & c2 == 0 ==> x == c0 | c1 | c2
    ensures x & (c0 & c1 & c2) == 0 && x & !(c0 | c1 | c2) == 0
  {
    (c0 ^ c1) | (c1 ^ c2) | (c2 ^ c0)
  }

  function AndCode(tri: Triangle): ClipCode
  {
    ComputeClipCode(tri.v0.pos) & ComputeClipCode(tri.v1.pos) & ComputeClipCode(tri.v2.pos)
  }

  function OrCode(tri: Triangle): ClipCode
  {
    ComputeClipCode(tri.v0.pos) | ComputeClipCode(tri.v1.pos) | ComputeClipCode(tri.v2.pos)
  }

  datatype TriClass = Rejected | Accepted | Straddling

  /** Trivial reject on a nonzero AND, trivial accept on a zero OR. */
  function Classify(tri: Triangle): TriClass
  {
    if AndCode(tri) != Inside then Rejected
    else if OrCode(tri) == Inside then Accepted
    else Straddling
  }

  predicate FullyInside(tri: Triangle)
  {
    forall pl: Plane, i: nat | i < 3 :: !Outside(pl, tri.V(i).pos)
  }

  /** Trivial accept holds exactly for the triangles inside every plane at every vertex. */
  lemma AcceptedIffFullyInside(tri: Triangle)
    ensures Classify(tri) == Accepted <==> FullyInside(tri)
  {
    var c0, c1, c2 := ComputeClipCode(tri.v0.pos), ComputeClipCode(tri.v1.pos), ComputeClipCode(tri.v2.pos);
    ClipCodeBits(tri.v0.pos);
    ClipCodeBits(tri.v1.pos);
    ClipCodeBits(tri.v2.pos);
    assert tri.V(0) == tri.v0 && tri.V(1) == tri.v1 && tri.V(2) == tri.v2;
    assert Classify(tri) == Accepted <==> c0 == Inside && c1 == Inside && c2 == Inside;
  }

  /** Trivial reject only drops triangles that lie entirely outside one plane. */
  lemma RejectedLiesOutsideOnePlane(tri: Triangle) returns (pl: Plane)
    requires Classify(tri) == Rejected
    ensures Outside(pl, tri.v0.pos) && Outside(pl, tri.v1.pos) && Outside(pl, tri.v2.pos)
  {
    var a := AndCode(tri);
    pl := if a & 1 != 0 then Left else if a & 2 != 0 then Right
      else if a & 4 != 0 then Bottom else if a & 8 != 0 then Top
      else if a & 16 != 0 then Near else Far;
    assert a & Code(pl) != 0;
    ClipCodeBits(tri.v0.pos);
    ClipCodeBits(tri.v1.pos);
    ClipCodeBits(tri.v2.pos);
  }

  // ------------------------------------------------- one edge, one plane

  /** The `t` formula for a plane; both ends on different sides, so the divisor is nonzero. */
  function SolveT(pl: Plane, p0: Vec4, p1: Vec4): (t: real)
    requires Outside(pl, p0) != Outside(pl, p1)
    ensures t == Dist(pl, p0) / (Dist(pl, p0) - Dist(pl, p1))
    ensures 0.0 <= t <= 1.0
  {
    var d0, d1 := Dist(pl, p0), Dist(pl, p1);
    var t := match pl
      case Near => p0.z / (p0.z - p1.z)
      case Far => (p0.z - p0.w) / ((p0.z - p0.w) - (p1.z - p1.w))
      case Left => (p0.x + p0.w) / ((p0.x + p0.w) - (p1.x + p1.w))
      case Right => (p0.x - p0.w) / ((p0.x - p0.w) - (p1.x - p1.w))
      case Bottom => (p0.y + p0.w) / ((p0.y + p0.w) - (p1.y + p1.w))
      case Top => (p0.y - p0.w) / ((p0.y - p0.w) - (p1.y - p1.w));
    assert t == d0 / (d0 - d1) by {
      if pl == Far || pl == Right || pl == Top {
        NegateFraction(-d0, -d0 + d1);
      }
    }
    DistSign(pl, p0);
    DistSign(pl, p1);
    UnitFraction(d0, d1);
    t
  }

  lemma NegateFraction(a: real, b: real)
    requires b != 0.0
    ensures a / b == (-a) / (-b)
  {
  }

  /** `d0 / (d0 - d1)` lies in [0, 1] when `d0` and `d1` are on different sides of zero. */
  lemma UnitFraction(d0: real, d1: real)
    requires (d0 < 0.0) != (d1 < 0.0)
    ensures 0.0 <= d0 / (d0 - d1) <= 1.0
  {
    var t := d0 / (d0 - d1);
    assert t * (d0 - d1) == d0;
    if d0 < 0.0 {
      assert d0 - d1 < 0.0;
    } else {
      assert d0 - d1 > 0.0;
    }
  }

  /** The position fix-up that puts a new point exactly on the plane. */
  function Project(pl: Plane, p: Vec4): Vec4
  {
    match pl
    case Near => p.(z := 0.0)
    case Far => p.(z := p.w)
    case Left => p.(x := -p.w)
    case Right => p.(x := p.w)
    case Bottom => p.(y := -p.w)
    case Top => p.(y := p.w)
  }

  /** A distance is affine along a segment. */
  lemma DistLerp(pl: Plane, p0: Vec4, p1: Vec4, t: real)
    ensures Dist(pl, Lerp4(p0, p1, t)) == Dist(pl, p0) * (1.0 - t) + Dist(pl, p1) * t
  {
    DistAdd(pl, Scale4(p0, 1.0 - t), Scale4(p1, t));
    DistScale(pl, p0, 1.0 - t);
    DistScale(pl, p1, t);
  }

  lemma DistAdd(pl: Plane, a: Vec4, b: Vec4)
    ensures Dist(pl, Add4(a, b)) == Dist(pl, a) + Dist(pl, b)
  {
  }

  lemma DistScale(pl: Plane, a: Vec4, s: real)
    ensures Dist(pl, Scale4(a, s)) == Dist(pl, a) * s
  {
  }

  /** The solved point already lies on the plane, so the fix-up changes nothing. */
  lemma {:induction false} SolvedPointOnPlane(pl: Plane, p0: Vec4, p1: Vec4)
    requires Outside(pl, p0) != Outside(pl, p1)
    ensures Dist(pl, Lerp4(p0, p1, SolveT(pl, p0, p1))) == 0.0
    ensures Project(pl, Lerp4(p0, p1, SolveT(pl, p0, p1))) == Lerp4(p0, p1, SolveT(pl, p0, p1))
  {
    var t := SolveT(pl, p0, p1);
    DistSign(pl, p0);
    DistSign(pl, p1);
    CrossingOnPlane(pl, p0, p1, t);
    ProjectKeepsOnPlane(pl, Lerp4(p0, p1, t));
  }

  lemma CrossingOnPlane(pl: Plane, p0: Vec4, p1: Vec4, t: real)
    requires Dist(pl, p0) != Dist(pl, p1) && t == Dist(pl, p0) / (Dist(pl, p0) - Dist(pl, p1))
    ensures Dist(pl, Lerp4(p0, p1, t)) == 0.0
  {
    DistLerp(pl, p0, p1, t);
    AffineZero(Dist(pl, p0), Dist(pl, p1), t);
  }

  lemma ProjectKeepsOnPlane(pl: Plane, q: Vec4)
    requires Dist(pl, q) == 0.0
    ensures Project(pl, q) == q
  {
  }

  lemma AffineZero(d0: real, d1: real, t: real)
    requires d0 != d1 && t == d0 / (d0 - d1)
    ensures d0 * (1.0 - t) + d1 * t == 0.0
  {
    assert t * (d0 - d1) == d0;
    assert d0 * (1.0 - t) + d1 * t == d0 - t * (d0 - d1);
  }

  datatype Interp = BaseInterp | Extension0Interp | Extension1Interp

  /** `SetFragmentLayout`: `EXTENSION2` falls to the default branch and keeps the current function. */
  function LayoutInterp(layout: FragmentLayout, current: Interp): (r: Interp)
    ensures layout == Extension2 ==> r == current
  {
    match layout
    case Base => BaseInterp
    case Extension0 => Extension0Interp
    case Extension1 => Extension1Interp
    case Extension2 => current
  }

  /**
   * A new point: position `pos`, attributes blended with the same `t`;
   * `pack0`/`pack1` keep the zero of a fresh `Fragment` unless the layout carries them.
   */
  function ClipLerp(interp: Interp, f0: Fragment, f1: Fragment, t: real, pos: Vec4): (r: Fragment)
    ensures r.pos == pos
    ensures interp == BaseInterp ==> r.pack0 == Zero4 && r.pack1 == Zero4
    ensures interp == Extension0Interp ==> r.pack1 == Zero4
    ensures t == 0.0 ==> r.normal == f0.normal && r.uv == f0.uv
    ensures t == 1.0 ==> r.normal == f1.normal && r.uv == f1.uv
  {
    Fragment(pos, Lerp3(f0.normal, f1.normal, t), Lerp2(f0.uv, f1.uv, t),
      if interp != BaseInterp then Lerp4(f0.pack0, f1.pack0, t) else Zero4,
      if interp == Extension1Interp then Lerp4(f0.pack1, f1.pack1, t) else Zero4)
  }

  /** The point where edge `f0 -> f1` crosses the plane. */
  function NewPoint(interp: Interp, pl: Plane, f0: Fragment, f1: Fragment): (r: Fragment)
    requires Outside(pl, f0.pos) != Outside(pl, f1.pos)
    ensures Dist(pl, r.pos) == 0.0 && !Outside(pl, r.pos)
  {
    var t := SolveT(pl, f0.pos, f1.pos);
    SolvedPointOnPlane(pl, f0.pos, f1.pos);
    DistSign(pl, Project(pl, Lerp4(f0.pos, f1.pos, t)));
    ClipLerp(interp, f0, f1, t, Project(pl, Lerp4(f0.pos, f1.pos, t)))
  }

  /** The points edge `i -> (i + 1) % 3` contributes to the clipped polygon. */
  function EdgeEmit(interp: Interp, pl: Plane, tri: Triangle, i: nat): seq<Fragment>
    requires i < 3
  {
    var k := (i + 1) % 3;
    var f0, f1 := tri.V(i), tri.V(k);
    var code0, code1 := Outside(pl, f0.pos), Outside(pl, f1.pos);
    if !code0 && !code1 then [f1]
    else if code0 && !code1 then [NewPoint(interp, pl, f0, f1), f1]
    else if !code0 && code1 then [NewPoint(interp, pl, f0, f1)]
    else []
  }

  /** The points of the first `n` edges. */
  function EmitPrefix(interp: Interp, pl: Plane, tri: Triangle, n: nat): seq<Fragment>
    requires n <= 3
  {
    if n == 0 then [] else EmitPrefix(interp, pl, tri, n - 1) + EdgeEmit(interp, pl, tri, n - 1)
  }

  /** The clipped polygon. */
  function Polygon(interp: Interp, pl: Plane, tri: Triangle): seq<Fragment>
  {
    EmitPrefix(interp, pl, tri, 3)
  }

  /** Some vertex is outside the plane and some is not. */
  predicate Straddles(pl: Plane, tri: Triangle)
  {
    var p0, p1, p2 := Outside(pl, tri.v0.pos), Outside(pl, tri.v1.pos), Outside(pl, tri.v2.pos);
    (p0 != p1) || (p1 != p2) || (p2 != p0)
  }

  function NumOutside(pl: Plane, tri: Triangle): nat
  {
    (if Outside(pl, tri.v0.pos) then 1 else 0) + (if Outside(pl, tri.v1.pos) then 1 else 0)
    + (if Outside(pl, tri.v2.pos) then 1 else 0)
  }

  /** The polygon is the three edges' contributions in order. */
  lemma PolygonEdges(interp: Interp, pl: Plane, tri: Triangle)
    ensures Polygon(interp, pl, tri)
      == EdgeEmit(interp, pl, tri, 0) + EdgeEmit(interp, pl, tri, 1) + EdgeEmit(interp, pl, tri, 2)
  {
    var e0, e1, e2 := EdgeEmit(interp, pl, tri, 0), EdgeEmit(interp, pl, tri, 1), EdgeEmit(interp, pl, tri, 2);
    assert EmitPrefix(interp, pl, tri, 1) == [] + e0 == e0;
    assert EmitPrefix(interp, pl, tri, 2) == e0 + e1;
    assert EmitPrefix(interp, pl, tri, 3) == e0 + e1 + e2;
  }

  /**
   * A straddling triangle clips to a quadrilateral when one vertex is outside
   * and to a triangle when two are.
   */
  lemma PolygonSize(interp: Interp, pl: Plane, tri: Triangle)
    requires Straddles(pl, tri)
    ensures NumOutside(pl, tri) == 1 ==> |Polygon(interp, pl, tri)| == 4
    ensures NumOutside(pl, tri) == 2 ==> |Polygon(interp, pl, tri)| == 3
    ensures NumOutside(pl, tri) == 1 || NumOutside(pl, tri) == 2
  {
    PolygonEdges(interp, pl, tri);
    EdgeEmitSize(interp, pl, tri, 0);
    EdgeEmitSize(interp, pl, tri, 1);
    EdgeEmitSize(interp, pl, tri, 2);
  }

  /** No point of the clipped polygon is outside the plane. */
  lemma PolygonInside(interp: Interp, pl: Plane, tri: Triangle)
    ensures forall f | f in Polygon(interp, pl, tri) :: !Outside(pl, f.pos)
  {
    PolygonEdges(interp, pl, tri);
    EdgeEmitInside(interp, pl, tri, 0);
    EdgeEmitInside(interp, pl, tri, 1);
    EdgeEmitInside(interp, pl, tri, 2);
  }

  /** Every point an edge emits is inside the plane. */
  lemma EdgeEmitInside(interp: Interp, pl: Plane, tri: Triangle, i: nat)
    requires i < 3
    ensures forall f | f in EdgeEmit(interp, pl, tri, i) :: !Outside(pl, f.pos)
  {
  }

  /** An edge emits two points when it enters, none when it stays outside, one otherwise. */
  lemma EdgeEmitSize(interp: Interp, pl: Plane, tri: Triangle, i: nat)
    requires i < 3
    ensures var in0, in1 := !Outside(pl, tri.V(i).pos), !Outside(pl, tri.V(if i == 2 then 0 else i + 1).pos);
      |EdgeEmit(interp, pl, tri, i)| == if !in0 && in1 then 2 else if in0 || in1 then 1 else 0
  {
    assert (i + 1) % 3 == if i == 2 then 0 else i + 1;
  }

  lemma ModSmall(a: int, b: int)
    requires 0 <= a < b
    ensures a % b == a
  {
  }

  /** Fan triangulation around the first point. */
  function Fan(pts: seq<Fragment>): (r: seq<Triangle>)
    ensures |pts| >= 2 ==> |r| == |pts| - 2
    ensures forall j | 0 <= j < |r| :: 2 < |pts| && r[j].v0 == pts[0] && r[j].v1 in pts && r[j].v2 in pts
  {
    if |pts| < 2 then []
    else seq(|pts| - 2, j requires 0 <= j < |pts| - 2 => Triangle(pts[0], pts[j + 1], pts[j + 2]))
  }

  /** What `ClipPlane` appends for one triangle. */
  function ClipPlaneSpec(interp: Interp, pl: Plane, tri: Triangle): seq<Triangle>
  {
    if Straddles(pl, tri) then Fan(Polygon(interp, pl, tri)) else [tri]
  }

  /**
   * One plane yields two triangles for one vertex outside, one for two
   * outside, and the triangle itself when the vertices agree; no output
   * vertex is outside the plane unless the triangle passed through.
   */
  lemma ClipPlaneCount(interp: Interp, pl: Plane, tri: Triangle)
    ensures !Straddles(pl, tri) ==> ClipPlaneSpec(interp, pl, tri) == [tri]
    ensures Straddles(pl, tri) && NumOutside(pl, tri) == 1 ==> |ClipPlaneSpec(interp, pl, tri)| == 2
    ensures Straddles(pl, tri) && NumOutside(pl, tri) == 2 ==> |ClipPlaneSpec(interp, pl, tri)| == 1
    ensures Straddles(pl, tri) ==>
      forall r, i: nat | r in ClipPlaneSpec(interp, pl, tri) && i < 3 :: !Outside(pl, r.V(i).pos)
  {
    if Straddles(pl, tri) {
      PolygonSize(interp, pl, tri);
      PolygonInside(interp, pl, tri);
      var pts := Polygon(interp, pl, tri);
      forall r, i: nat | r in ClipPlaneSpec(interp, pl, tri) && i < 3
        ensures !Outside(pl, r.V(i).pos)
      {
        var j :| 0 <= j < |pts| - 2 && ClipPlaneSpec(interp, pl, tri)[j] == r;
        assert r.V(i) in pts;
      }
    }
  }

  /** `ClipPlane` applied to every triangle of a working list, outputs appended in order. */
  function ClipAllPlane(interp: Interp, pl: Plane, work: seq<Triangle>): seq<Triangle>
  {
    if work == [] then []
    else ClipAllPlane(interp, pl, work[..|work| - 1]) + ClipPlaneSpec(interp, pl, work[|work| - 1])
  }

  // ------------------------------------------------------------ filtering

  datatype Split = Split(accepted: seq<Triangle>, retained: seq<Triangle>)

  /**
   * `FilterTriangles`: rejected triangles are dropped, accepted ones go to
   * the output, the rest stay in the working list, each in input order.
   */
  function Partition(tris: seq<Triangle>): Split
  {
    if tris == [] then Split([], [])
    else
      var s := Partition(tris[..|tris| - 1]);
      var t := tris[|tris| - 1];
      match Classify(t)
      case Rejected => s
      case Accepted => Split(s.accepted + [t], s.retained)
      case Straddling => Split(s.accepted, s.retained + [t])
  }

  /**
   * The partition is exact: the accepted part holds exactly the input's
   * trivially accepted triangles, the retained part exactly its straddling
   * ones, and only trivially rejected triangles are lost.
   */
  lemma {:induction false} PartitionExact(tris: seq<Triangle>)
    ensures forall t :: t in Partition(tris).accepted <==> t in tris && Classify(t) == Accepted
    ensures forall t :: t in Partition(tris).retained <==> t in tris && Classify(t) == Straddling
    ensures |Partition(tris).accepted| + |Partition(tris).retained| + NumRejected(tris) == |tris|
  {
    if tris != [] {
      var init, t := tris[..|tris| - 1], tris[|tris| - 1];
      assert tris == init + [t];
      PartitionExact(init);
    }
  }

  function NumRejected(tris: seq<Triangle>): nat
  {
    if tris == [] then 0
    else NumRejected(tris[..|tris| - 1]) + (if Classify(tris[|tris| - 1]) == Rejected then 1 else 0)
  }

  // ------------------------------------------------------ the whole clip

  /**
   * The planes from position `k` of `PlaneOrder` on, for the triangles still
   * straddling: only planes whose bit is in `mask` are processed, and
   * whatever still straddles after the last one is discarded.
   */
  function ClipFrom(interp: Interp, mask: ClipCode, k: nat, work: seq<Triangle>): seq<Triangle>
    requires k <= 6
    decreases 6 - k
  {
    if k == 6 then []
    else if mask & Code(PlaneOrder[k]) != Code(PlaneOrder[k]) then ClipFrom(interp, mask, k + 1, work)
    else
      var s := Partition(ClipAllPlane(interp, PlaneOrder[k], work));
      s.accepted + (if s.retained == [] then [] else ClipFrom(interp, mask, k + 1, s.retained))
  }

  lemma ClipAllSnoc(interp: Interp, tris: seq<Triangle>, t: Triangle)
    ensures ClipAll(interp, tris + [t]) == ClipAll(interp, tris) + ClipTriangle(interp, t)
  {
    assert (tris + [t])[..|tris|] == tris;
  }

  /** One plane block of `Clip` (as `Clipper.ClipNextPlane` ensures it) advances `ClipFrom` by one plane. */
  lemma ClipFromAdvance(interp: Interp, mask: ClipCode, k: nat, work: seq<Triangle>,
                        r: seq<Triangle>, finished: bool, work': seq<Triangle>, r': seq<Triangle>)
    requires k < 6
    requires mask & Code(PlaneOrder[k]) != Code(PlaneOrder[k]) ==>
      !finished && work' == work && r' == r
    requires mask & Code(PlaneOrder[k]) == Code(PlaneOrder[k]) ==>
      var s := Partition(ClipAllPlane(interp, PlaneOrder[k], work));
      r' == r + s.accepted && work' == s.retained && (finished <==> s.retained == [])
    ensures finished ==> r' == r + ClipFrom(interp, mask, k, work)
    ensures !finished ==> r' + ClipFrom(interp, mask, k + 1, work') == r + ClipFrom(interp, mask, k, work)
  {
    if mask & Code(PlaneOrder[k]) == Code(PlaneOrder[k]) {
      ClipFromPass(interp, mask, k, work);
      var s := Partition(ClipAllPlane(interp, PlaneOrder[k], work));
      if finished {
        assert s.accepted + [] == s.accepted;
      } else {
        AppendAssoc(r, s.accepted, ClipFrom(interp, mask, k + 1, work'));
      }
    }
  }

  lemma AppendAssoc<T>(a: seq<T>, b: seq<T>, c: seq<T>)
    ensures (a + b) + c == a + (b + c)
  {
  }

  lemma ClipFromPass(interp: Interp, mask: ClipCode, k: nat, work: seq<Triangle>)
    requires k < 6 && mask & Code(PlaneOrder[k]) == Code(PlaneOrder[k])
    ensures var s := Partition(ClipAllPlane(interp, PlaneOrder[k], work));
      ClipFrom(interp, mask, k, work) == s.accepted + (if s.retained == [] then [] else ClipFrom(interp, mask, k + 1, s.retained))
  {
  }

  function ClipTriangle(interp: Interp, tri: Triangle): seq<Triangle>
  {
    match Classify(tri)
    case Rejected => []
    case Accepted => [tri]
    case Straddling =>
      ClipFrom(interp, XorCombine(ComputeClipCode(tri.v0.pos), ComputeClipCode(tri.v1.pos),
        ComputeClipCode(tri.v2.pos)), 0, [tri])
  }

  /** The output of `Clip` for an input list: each triangle's outputs, in input order. */
  function ClipAll(interp: Interp, tris: seq<Triangle>): seq<Triangle>
  {
    if tris == [] then []
    else ClipAll(interp, tris[..|tris| - 1]) + ClipTriangle(interp, tris[|tris| - 1])
  }

  /** Every triangle the plane passes emit has passed trivial accept. */
  lemma {:induction false} ClipFromAccepted(interp: Interp, mask: ClipCode, k: nat, work: seq<Triangle>)
    requires k <= 6
    ensures forall t | t in ClipFrom(interp, mask, k, work) :: Classify(t) == Accepted
    decreases 6 - k
  {
    if k < 6 {
      if mask & Code(PlaneOrder[k]) != Code(PlaneOrder[k]) {
        ClipFromAccepted(interp, mask, k + 1, work);
      } else {
        var s := Partition(ClipAllPlane(interp, PlaneOrder[k], work));
        PartitionExact(ClipAllPlane(interp, PlaneOrder[k], work));
        ClipFromAccepted(interp, mask, k + 1, s.retained);
      }
    }
  }

  /** Every triangle `Clip` outputs is fully inside the clip volume. */
  lemma {:induction false} ClipAllInside(interp: Interp, tris: seq<Triangle>)
    ensures forall t | t in ClipAll(interp, tris) :: Classify(t) == Accepted && FullyInside(t)
  {
    if tris != [] {
      ClipAllInside(interp, tris[..|tris| - 1]);
      var tri := tris[|tris| - 1];
      if Classify(tri) == Straddling {
        ClipFromAccepted(interp, XorCombine(ComputeClipCode(tri.v0.pos), ComputeClipCode(tri.v1.pos),
          ComputeClipCode(tri.v2.pos)), 0, [tri]);
      }
      forall t | t in ClipAll(interp, tris)
        ensures FullyInside(t)
      {
        AcceptedIffFullyInside(t);
      }
    }
  }

  /** A list of fully inside triangles passes through `Clip` unchanged. */
  lemma {:induction false} ClipAllKeepsAccepted(interp: Interp, tris: seq<Triangle>)
    requires forall t | t in tris :: Classify(t) == Accepted
    ensures ClipAll(interp, tris) == tris
  {
    if tris != [] {
      ClipAllKeepsAccepted(interp, tris[..|tris| - 1]);
      assert tris == tris[..|tris| - 1] + [tris[|tris| - 1]];
    }
  }

  /** Clipping is idempotent. */
  lemma ClipIdempotent(interp: Interp, tris: seq<Triangle>)
    ensures ClipAll(interp, ClipAll(interp, tris)) == ClipAll(interp, tris)
  {
    ClipAllInside(interp, tris);
    ClipAllKeepsAccepted(interp, ClipAll(interp, tris));
  }

  // ---------------------------------------------------------- the class

  class Clipper {
    /** `m_inter_fun`. */
    var interp: Interp

    constructor ()
      ensures interp == BaseInterp
    {
      interp := BaseInterp;
    }

    method SetFragmentLayout(layout: FragmentLayout)
      modifies this
      ensures interp == LayoutInterp(layout, old(interp))
    {
      match layout
      case Base => interp := BaseInterp;
      case Extension0 => interp := Extension0Interp;
      case Extension1 => interp := Extension1Interp;
      case Extension2 =>
    }

    /** `ClipPlane`: appends the triangles one plane turns `tri` into. */
    method ClipPlane(tri: Triangle, pl: Plane, clipped: seq<Triangle>) returns (r: seq<Triangle>)
      ensures r == clipped + ClipPlaneSpec(interp, pl, tri)
    {
      var pos := [tri.v0.pos, tri.v1.pos, tri.v2.pos];
      var predicates := [Outside(pl, pos[0]), Outside(pl, pos[1]), Outside(pl, pos[2])];
      if (predicates[0] != predicates[1]) || (predicates[1] != predicates[2]) || (predicates[2] != predicates[0]) {
        var clipPoint := ClipPoints(tri, pl);
        PolygonSize(interp, pl, tri);
        assert NumOutside(pl, tri) == 1 || NumOutside(pl, tri) == 2;
        r := FanOut(clipPoint, clipped);
      } else {
        r := clipped + [tri];
      }
    }

    /** The triangulation loop of `ClipPlane`. */
    method FanOut(clipPoint: seq<Fragment>, clipped: seq<Triangle>) returns (r: seq<Triangle>)
      requires |clipPoint| >= 2
      ensures r == clipped + Fan(clipPoint)
    {
      r := clipped;
      ghost var fan := Fan(clipPoint);
      for j := 0 to |clipPoint| - 2
        invariant r == clipped + fan[..j]
      {
        var n := (j + 1) % |clipPoint|;
        var m := (j + 2) % |clipPoint|;
        ModSmall(j + 1, |clipPoint|);
        ModSmall(j + 2, |clipPoint|);
        assert fan[j] == Triangle(clipPoint[0], clipPoint[n], clipPoint[m]);
        assert fan[..j + 1] == fan[..j] + [fan[j]];
        r := r + [Triangle(clipPoint[0], clipPoint[n], clipPoint[m])];
      }
      assert fan[..|clipPoint| - 2] == fan;
    }

    /** The edge loop of `ClipPlane`: the clipped polygon's points, edge by edge. */
    method ClipPoints(tri: Triangle, pl: Plane) returns (clipPoint: seq<Fragment>)
      ensures clipPoint == Polygon(interp, pl, tri)
    {
      clipPoint := [];
      for i := 0 to 3
        invariant clipPoint == EmitPrefix(interp, pl, tri, i)
      {
        var k := (i + 1) % 3;
        var pos0, pos1 := tri.V(i).pos, tri.V(k).pos;
        var code0, code1 := Outside(pl, pos0), Outside(pl, pos1);
        if !code0 && !code1 {
          clipPoint := clipPoint + [tri.V(k)];
        } else if code0 && !code1 {
          var newPoint := NewPoint(interp, pl, tri.V(i), tri.V(k));
          clipPoint := clipPoint + [newPoint, tri.V(k)];
        } else if !code0 && code1 {
          var newPoint := NewPoint(interp, pl, tri.V(i), tri.V(k));
          clipPoint := clipPoint + [newPoint];
        }
      }
    }

    /** `FilterTriangles`: true iff nothing is left in the working list. */
    method FilterTriangles(current: seq<Triangle>, clipped: seq<Triangle>)
      returns (done: bool, current': seq<Triangle>, clipped': seq<Triangle>)
      ensures current' == Partition(current).retained
      ensures clipped' == clipped + Partition(current).accepted
      ensures done <==> current' == []
    {
      var failed: seq<Triangle> := [];
      clipped' := clipped;
      for i := 0 to |current|
        invariant failed == Partition(current[..i]).retained
        invariant clipped' == clipped + Partition(current[..i]).accepted
      {
        assert current[..i + 1][..i] == current[..i];
        var tri := current[i];
        var c := ClassifyTriangle(tri);
        match c
        case Rejected =>
        case Accepted => clipped' := clipped' + [tri];
        case Straddling => failed := failed + [tri];
      }
      assert current[..|current|] == current;
      current' := failed;
      done := |current'| == 0;
    }

    /**
     * `Clip(pTris, pSize)`: the output replaces the input in place, in a
     * new array when it has more triangles than the input had.
     */
    method Clip(tris: array<Triangle>, size: nat) returns (out: array<Triangle>, outSize: nat)
      requires size <= tris.Length
      modifies tris
      ensures outSize == |ClipAll(interp, old(tris[..size]))|
      ensures outSize <= out.Length && out[..outSize] == ClipAll(interp, old(tris[..size]))
      ensures outSize > size ==> fresh(out)
      ensures outSize <= size ==> out == tris
    {
      var clippedTris := ClipList(tris, size);
      outSize := |clippedTris|;
      if outSize > size {
        out := new Triangle[outSize](j requires 0 <= j < outSize => clippedTris[j]);
      } else {
        out := tris;
        forall j | 0 <= j < outSize {
          tris[j] := clippedTris[j];
        }
      }
    }

    /** The loop of `Clip`: every input triangle's outputs, collected in input order. */
    method ClipList(tris: array<Triangle>, size: nat) returns (clipped: seq<Triangle>)
      requires size <= tris.Length
      ensures clipped == ClipAll(interp, tris[..size])
    {
      clipped := [];
      for i := 0 to size
        invariant clipped == ClipAll(interp, tris[..i])
      {
        var tri := tris[i];
        ClipAllSnoc(interp, tris[..i], tri);
        assert tris[..i + 1] == tris[..i] + [tri];
        clipped := ClipOne(tri, clipped);
      }
    }

    /** The body of `Clip`'s loop for one input triangle: reject, accept, or clip plane by plane. */
    method ClipOne(tri: Triangle, clipped: seq<Triangle>) returns (r: seq<Triangle>)
      ensures r == clipped + ClipTriangle(interp, tri)
    {
      var c := ClassifyTriangle(tri);
      match c
      case Rejected =>
        r := clipped;
        assert ClipTriangle(interp, tri) == [];
      case Accepted =>
        r := clipped + [tri];
      case Straddling =>
        var c0, c1, c2 := ComputeClipCode(tri.v0.pos), ComputeClipCode(tri.v1.pos), ComputeClipCode(tri.v2.pos);
        var xorCode := (c0 ^ c1) | (c1 ^ c2) | (c2 ^ c0);
        r := ClipStraddling(tri, xorCode, clipped);
    }

    /** The trivial reject and accept tests `Clip` and `FilterTriangles` both perform. */
    method ClassifyTriangle(tri: Triangle) returns (c: TriClass)
      ensures c == Classify(tri)
    {
      var c0, c1, c2 := ComputeClipCode(tri.v0.pos), ComputeClipCode(tri.v1.pos), ComputeClipCode(tri.v2.pos);
      var andCode, orCode := c0 & c1 & c2, c0 | c1 | c2;
      if andCode != Inside {
        c := Rejected;
      } else if orCode == Inside {
        c := Accepted;
      } else {
        c := Straddling;
      }
    }

    /** The per-plane passes of `Clip` for one straddling triangle with XOR-combined code `xorCode`. */
    method ClipStraddling(tri: Triangle, xorCode: ClipCode, clipped: seq<Triangle>) returns (r: seq<Triangle>)
      ensures r == clipped + ClipFrom(interp, xorCode, 0, [tri])
    {
      ghost var goal := ClipFrom(interp, xorCode, 0, [tri]);
      var unclipped := [tri];
      var k := 0;
      var finished := false;
      r := clipped;
      while k < 6 && !finished
        invariant 0 <= k <= 6
        invariant finished ==> r == clipped + goal
        invariant !finished ==> r + ClipFrom(interp, xorCode, k, unclipped) == clipped + goal
        decreases 6 - k
      {
        var f, u, r' := ClipNextPlane(xorCode, k, unclipped, r);
        ClipFromAdvance(interp, xorCode, k, unclipped, r, f, u, r');
        finished, unclipped, r := f, u, r';
        k := k + 1;
      }
      if !finished {
        assert r + ClipFrom(interp, xorCode, 6, unclipped) == r + [];
      }
    }

    /** One of the six plane blocks of `Clip`: skipped unless its bit is set, then clip and drain. */
    method ClipNextPlane(xorCode: ClipCode, k: nat, unclipped: seq<Triangle>, clipped: seq<Triangle>)
      returns (finished: bool, unclipped': seq<Triangle>, clipped': seq<Triangle>)
      requires k < 6
      ensures xorCode & Code(PlaneOrder[k]) != Code(PlaneOrder[k]) ==>
        !finished && unclipped' == unclipped && clipped' == clipped
      ensures xorCode & Code(PlaneOrder[k]) == Code(PlaneOrder[k]) ==>
        var s := Partition(ClipAllPlane(interp, PlaneOrder[k], unclipped));
        clipped' == clipped + s.accepted && unclipped' == s.retained && (finished <==> s.retained == [])
    {
      var pl := PlaneOrder[k];
      finished, unclipped', clipped' := false, unclipped, clipped;
      if xorCode & Code(pl) == Code(pl) {
        var current := ClipWorkingList(unclipped, pl);
        var done;
        done, current, clipped' := FilterTriangles(current, clipped);
        finished, unclipped' := done, current;
      }
    }

    /** `ClipPlane` over every triangle of the working list. */
    method ClipWorkingList(unclipped: seq<Triangle>, pl: Plane) returns (current: seq<Triangle>)
      ensures current == ClipAllPlane(interp, pl, unclipped)
    {
      current := [];
      for j := 0 to |unclipped|
        invariant current == ClipAllPlane(interp, pl, unclipped[..j])
      {
        assert unclipped[..j + 1][..j] == unclipped[..j];
        current := ClipPlane(unclipped[j], pl, current);
      }
      assert unclipped[..|unclipped|] == unclipped;
    }
  }
}
