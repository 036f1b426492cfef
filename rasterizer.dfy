/**
 * Triangle rasterization (Core/Rasterizer.h): perspective divide, viewport
 * mapping, a clamped bounding box walked in 16 by 16 blocks, and a
 * perspective-correct depth test per pixel that writes the depth image in
 * place and appends a fragment and its pixel to two parallel lists.
 *
 * The traversal is specified by functions that consume the pixels in the
 * order the loops visit them (`ShadePixel`, `SpanFrom`, `BlockFrom`,
 * `RowOfBlocksFrom`, `BlocksFrom`, `RasterizeSpec`); the methods of this
 * module run the same loops and are proved to produce exactly that output.
 */
module Rasterization {
  import opened Vectors
  import opened Images
  import opened Clipping
  import opened EdgeEquations

  // ------------------------------------------------------------ setup

  /** `1 / w`. IEEE division by zero is infinite; that case is taken as 0 here. */
  function Recip(w: real): real
  {
    if w == 0.0 then 0.0 else 1.0 / w
  }

  /** `m_pos *= inv_camera_z[i]`: all four components are divided by `w`. */
  function DivideVertex(f: Fragment): (r: Fragment)
    ensures f.pos.w != 0.0 ==> r.pos == Vec4(f.pos.x / f.pos.w, f.pos.y / f.pos.w, f.pos.z / f.pos.w, 1.0)
    ensures r.normal == f.normal && r.uv == f.uv && r.pack0 == f.pack0 && r.pack1 == f.pack1
  {
    f.(pos := Scale4(f.pos, Recip(f.pos.w)))
  }

  /** The perspective divide `Rasterize` applies to the caller's triangle before anything else. */
  function PerspectiveDivide(tri: Triangle): Triangle
  {
    Triangle(DivideVertex(tri.v0), DivideVertex(tri.v1), DivideVertex(tri.v2))
  }

  /** Dividing a triangle whose vertices already have `w == 1` changes nothing. */
  lemma DivideIdempotent(tri: Triangle)
    requires tri.v0.pos.w != 0.0 && tri.v1.pos.w != 0.0 && tri.v2.pos.w != 0.0
    ensures PerspectiveDivide(PerspectiveDivide(tri)) == PerspectiveDivide(tri)
  {
    var d := PerspectiveDivide(tri);
    assert d.v0.pos.w == 1.0 && d.v1.pos.w == 1.0 && d.v2.pos.w == 1.0;
  }

  /** `NDCSpaceToRasterSpace`: x grows to the right, y is flipped so that NDC `y = 1` is row 0. */
  function NDCToRaster(p: Vec4, width: real, height: real): Vec2I
  {
    Vec2I(Trunc((1.0 + p.x) * 0.5 * width), Trunc((1.0 - p.y) * 0.5 * height))
  }

  /** The NDC square lands in the closed raster rectangle `[0, width] x [0, height]`. */
  lemma NDCToRasterRange(p: Vec4, width: real, height: real)
    requires -1.0 <= p.x <= 1.0 && -1.0 <= p.y <= 1.0 && 0.0 <= width && 0.0 <= height
    ensures 0 <= NDCToRaster(p, width, height).x && NDCToRaster(p, width, height).x as real <= width
    ensures 0 <= NDCToRaster(p, width, height).y && NDCToRaster(p, width, height).y as real <= height
  {
    var a, b := 1.0 + p.x, 1.0 - p.y;
    TruncHalfScaled(a, width);
    TruncHalfScaled(b, height);
    assert NDCToRaster(p, width, height) == Vec2I(Trunc(a * 0.5 * width), Trunc(b * 0.5 * height));
  }

  lemma TruncHalfScaled(a: real, s: real)
    requires 0.0 <= a <= 2.0 && 0.0 <= s
    ensures 0 <= Trunc(a * 0.5 * s) && Trunc(a * 0.5 * s) as real <= s
  {
    var v := a * 0.5 * s;
    assert v == (a * 0.5) * s;
    assert 0.0 <= a * 0.5 <= 1.0;
    assert 0.0 <= v <= s;
  }

  /** The left-top corner of NDC goes to pixel `(0, 0)`; the right-bottom corner to `(width, height)` truncated. */
  lemma NDCCorners(width: real, height: real)
    ensures NDCToRaster(Vec4(-1.0, 1.0, 0.0, 1.0), width, height) == Vec2I(0, 0)
    ensures NDCToRaster(Vec4(1.0, -1.0, 0.0, 1.0), width, height) == Vec2I(Trunc(width), Trunc(height))
  {
  }

  /** What `Rasterize` computes once per triangle: the divided triangle, `inv_camera_z` and `raster_pos`. */
  datatype Setup = Setup(tri: Triangle, inv: Vec3, r0: Vec2I, r1: Vec2I, r2: Vec2I, interp: Interp)

  function MakeSetup(vp: Viewport, interp: Interp, tri: Triangle): Setup
  {
    var d := PerspectiveDivide(tri);
    Setup(d, Vec3(Recip(tri.v0.pos.w), Recip(tri.v1.pos.w), Recip(tri.v2.pos.w)),
      NDCToRaster(d.v0.pos, vp.width, vp.height), NDCToRaster(d.v1.pos, vp.width, vp.height),
      NDCToRaster(d.v2.pos, vp.width, vp.height), interp)
  }

  // ------------------------------------------------------- bounding box

  /** The `max`/`min` macros on a float and an int: the larger (smaller) value as a float. */
  function RMax(a: real, b: real): real { if a > b then a else b }
  function RMin(a: real, b: real): real { if a < b then a else b }

  datatype Box = Box(lo: Vec2I, hi: Vec2I)

  /**
   * `box_min`/`box_max`: the vertices' extent clamped below by the viewport's
   * top-left corner and above by `width - 1`, `height - 1` (not by
   * `top_left + width - 1`), truncated toward zero.
   */
  function BoundingBox(vp: Viewport, r0: Vec2I, r1: Vec2I, r2: Vec2I): Box
  {
    Box(Vec2I(Trunc(RMax(Min(Min(r0.x, r1.x), r2.x) as real, vp.topLeftX)),
              Trunc(RMax(Min(Min(r0.y, r1.y), r2.y) as real, vp.topLeftY))),
        Vec2I(Trunc(RMin(Max(Max(r0.x, r1.x), r2.x) as real, vp.width - 1.0)),
              Trunc(RMin(Max(Max(r0.y, r1.y), r2.y) as real, vp.height - 1.0))))
  }

  /** A box that survives the emptiness test lies inside the viewport's pixel range. */
  lemma BoundingBoxInViewport(vp: Viewport, r0: Vec2I, r1: Vec2I, r2: Vec2I)
    requires 0.0 <= vp.topLeftX && 0.0 <= vp.topLeftY
    ensures var b := BoundingBox(vp, r0, r1, r2);
      0 <= b.lo.x && 0 <= b.lo.y &&
      (b.lo.x < b.hi.x ==> b.hi.x as real <= vp.width - 1.0 && b.hi.x <= Max(Max(r0.x, r1.x), r2.x)) &&
      (b.lo.y < b.hi.y ==> b.hi.y as real <= vp.height - 1.0 && b.hi.y <= Max(Max(r0.y, r1.y), r2.y))
  {
  }

  /** `x & ~(blockSize - 1)`: round down to a multiple of 16 (two's complement, so also below zero). */
  function AlignDown(x: int): int
  {
    (x / BlockSize) * BlockSize
  }

  lemma AlignDownBounds(x: int)
    ensures AlignDown(x) <= x < AlignDown(x) + BlockSize
    ensures AlignDown(x) % BlockSize == 0
    ensures 0 <= x ==> 0 <= AlignDown(x)
  {
  }

  // --------------------------------------------------- per-pixel values

  /** `param_k = inv_camera_z[k] * e_k.value`. */
  function Params(st: Setup, s: EdgeEquationSet): Vec3
  {
    Vec3(st.inv.x * s.e0.value as real, st.inv.y * s.e1.value as real, st.inv.z * s.e2.value as real)
  }

  function ParamSum(st: Setup, s: EdgeEquationSet): real
  {
    var p := Params(st, s);
    p.x + p.y + p.z
  }

  /**
   * `curr_ndc_z`, defined where the weights do not sum to 0 (the source
   * divides by that sum; `ShadePixel` lets such a pixel fail the test).
   */
  function PixelDepth(st: Setup, s: EdgeEquationSet): real
    requires ParamSum(st, s) != 0.0
  {
    var p := Params(st, s);
    (1.0 / (p.x + p.y + p.z)) * (st.tri.v0.pos.z * p.x + st.tri.v1.pos.z * p.y + st.tri.v2.pos.z * p.z)
  }

  /** The perspective-correct weights `param_k * curr_camera_z`. */
  function Weights(st: Setup, s: EdgeEquationSet): Vec3
    requires ParamSum(st, s) != 0.0
  {
    var p := Params(st, s);
    var cz := 1.0 / (p.x + p.y + p.z);
    Vec3(p.x * cz, p.y * cz, p.z * cz)
  }

  /** The weights are barycentric: they sum to one. */
  lemma WeightsSumToOne(st: Setup, s: EdgeEquationSet)
    requires ParamSum(st, s) != 0.0
    ensures var t := Weights(st, s); t.x + t.y + t.z == 1.0
  {
    var p := Params(st, s);
    var cz := 1.0 / (p.x + p.y + p.z);
    assert p.x * cz + p.y * cz + p.z * cz == (p.x + p.y + p.z) * cz;
  }

  /** The interpolated depth is the weighted blend of the (divided) vertex depths. */
  lemma DepthIsBlend(st: Setup, s: EdgeEquationSet)
    requires ParamSum(st, s) != 0.0
    ensures var t := Weights(st, s);
      PixelDepth(st, s) == st.tri.v0.pos.z * t.x + st.tri.v1.pos.z * t.y + st.tri.v2.pos.z * t.z
  {
    var p := Params(st, s);
    var cz := 1.0 / (p.x + p.y + p.z);
    var z0, z1, z2 := st.tri.v0.pos.z, st.tri.v1.pos.z, st.tri.v2.pos.z;
    assert Weights(st, s) == Vec3(p.x * cz, p.y * cz, p.z * cz);
    assert PixelDepth(st, s) == cz * (z0 * p.x + z1 * p.y + z2 * p.z);
    calc {
      cz * (z0 * p.x + z1 * p.y + z2 * p.z);
      cz * (z0 * p.x) + cz * (z1 * p.y) + cz * (z2 * p.z);
      z0 * (p.x * cz) + z1 * (p.y * cz) + z2 * (p.z * cz);
    }
  }

  /**
   * For a front-facing triangle in front of the camera (all `w > 0`), every
   * covered pixel has a positive weight sum, so its depth is defined.
   */
  lemma CoveredPixelHasDepth(st: Setup, p: Vec2I)
    requires st.inv.x > 0.0 && st.inv.y > 0.0 && st.inv.z > 0.0
    requires MakeEdge(st.r0, st.r1, st.r2).value > 0
    requires Covered(st.r0, st.r1, st.r2, p)
    ensures ParamSum(st, MakeSet(st.r0, st.r1, st.r2, p)) > 0.0
  {
    var s := MakeSet(st.r0, st.r1, st.r2, p);
    AreaSum(st.r0, st.r1, st.r2, p);
    ParamSumPositive(st, s);
  }

  /** Positive inverse depths of non-negative edge values that are not all zero have a positive sum. */
  lemma ParamSumPositive(st: Setup, s: EdgeEquationSet)
    requires st.inv.x > 0.0 && st.inv.y > 0.0 && st.inv.z > 0.0
    requires s.e0.value >= 0 && s.e1.value >= 0 && s.e2.value >= 0
    requires s.e0.value + s.e1.value + s.e2.value > 0
    ensures ParamSum(st, s) > 0.0
  {
    NonNegProduct(st.inv.x, s.e0.value);
    NonNegProduct(st.inv.y, s.e1.value);
    NonNegProduct(st.inv.z, s.e2.value);
  }

  lemma NonNegProduct(a: real, n: int)
    requires a > 0.0 && n >= 0
    ensures a * n as real >= 0.0
    ensures n > 0 ==> a * n as real > 0.0
  {
  }

  /** The `Rasterizer*Fun` blends: `pos`, `normal`, `uv` always; `pack0` from EXTENSION0 on; `pack1` for EXTENSION1. */
  function RasterInterp(interp: Interp, f0: Fragment, f1: Fragment, f2: Fragment, t0: real, t1: real, t2: real): (r: Fragment)
    ensures interp == BaseInterp ==> r.pack0 == Zero4 && r.pack1 == Zero4
    ensures interp == Extension0Interp ==> r.pack1 == Zero4
  {
    Fragment(Blend4(f0.pos, f1.pos, f2.pos, t0, t1, t2), Blend3(f0.normal, f1.normal, f2.normal, t0, t1, t2),
      Blend2(f0.uv, f1.uv, f2.uv, t0, t1, t2),
      if interp != BaseInterp then Blend4(f0.pack0, f1.pack0, f2.pack0, t0, t1, t2) else Zero4,
      if interp == Extension1Interp then Blend4(f0.pack1, f1.pack1, f2.pack1, t0, t1, t2) else Zero4)
  }

  /** At a vertex (weights 1, 0, 0) the blend reproduces every attribute the layout carries. */
  lemma InterpAtVertex(interp: Interp, f0: Fragment, f1: Fragment, f2: Fragment)
    ensures var r := RasterInterp(interp, f0, f1, f2, 1.0, 0.0, 0.0);
      r.pos == f0.pos && r.normal == f0.normal && r.uv == f0.uv &&
      (interp != BaseInterp ==> r.pack0 == f0.pack0) && (interp == Extension1Interp ==> r.pack1 == f0.pack1)
  {
  }

  /** The fragment `Rasterize` emits for a pixel with edge values `s`. */
  function PixelFragment(st: Setup, s: EdgeEquationSet): Fragment
    requires ParamSum(st, s) != 0.0
  {
    var t := Weights(st, s);
    RasterInterp(st.interp, st.tri.v0, st.tri.v1, st.tri.v2, t.x, t.y, t.z)
  }

  // ------------------------------------------------------ traversal spec

  /** The depth image's texels and the two output vectors. */
  datatype Output = Output(depth: seq<Texel>, fragments: seq<Fragment>, indexes: seq<Vec2I>)

  predicate InImage(p: Vec2I, w: nat, h: nat)
  {
    0 <= p.x < w && 0 <= p.y < h
  }

  /**
   * One pixel: the coverage test when `test` is set (intersect blocks), then
   * the strict depth test; on success the depth is overwritten and one
   * fragment and its pixel are appended. A texel that is not a float never
   * passes (an R32_FLOAT image has none).
   */
  function ShadePixel(st: Setup, w: nat, h: nat, test: bool, o: Output, p: Vec2I): Output
    requires InImage(p, w, h) && |o.depth| == w * h
  {
    var s := MakeSet(st.r0, st.r1, st.r2, p);
    if test && !Evaluate(s) then o
    else if ParamSum(st, s) == 0.0 then o
    else
      var z := PixelDepth(st, s);
      var i := PixelIndex(p.x, p.y, w, h);
      if o.depth[i].F1? && z < o.depth[i].f then
        Output(o.depth[i := F1(z)], o.fragments + [PixelFragment(st, s)], o.indexes + [p])
      else o
  }

  /** Pixels `x .. xEnd - 1` of row `y`, left to right. */
  function SpanFrom(st: Setup, w: nat, h: nat, test: bool, o: Output, x: int, xEnd: int, y: int): (r: Output)
    requires 0 <= x && xEnd <= w && 0 <= y < h && |o.depth| == w * h
    ensures |r.depth| == w * h
    decreases xEnd - x
  {
    if x >= xEnd then o
    else SpanFrom(st, w, h, test, ShadePixel(st, w, h, test, o, Vec2I(x, y)), x + 1, xEnd, y)
  }

  /** Rows `y .. yEnd - 1` of the columns `x0 .. xEnd - 1`, top to bottom. */
  function BlockFrom(st: Setup, w: nat, h: nat, test: bool, o: Output, x0: int, xEnd: int, y: int, yEnd: int): (r: Output)
    requires 0 <= x0 && xEnd <= w && 0 <= y && yEnd <= h && |o.depth| == w * h
    ensures |r.depth| == w * h
    decreases yEnd - y
  {
    if y >= yEnd then o
    else BlockFrom(st, w, h, test, SpanFrom(st, w, h, test, o, x0, xEnd, y), x0, xEnd, y + 1, yEnd)
  }

  /**
   * Where a block's pixel loops stop: `b + blockSize` in the source, here
   * also clamped to the image, which the source does not do (see
   * `BlockEndAsWritten` and `TraversalOverrun`).
   */
  function BlockEnd(b: int, size: nat): (e: int)
    ensures e <= size && e <= b + BlockSize
    ensures b + BlockSize <= size ==> e == b + BlockSize
  {
    Min(b + BlockSize, size)
  }

  datatype BlockKind = InsideBlock | IntersectBlock | SkippedBlock

  /** All three edge values are non-negative at each of the block's four corner pixels. */
  predicate CornersCovered(st: Setup, b: Vec2I)
  {
    Covered(st.r0, st.r1, st.r2, b) && Covered(st.r0, st.r1, st.r2, Vec2I(b.x + BlockSize - 1, b.y)) &&
    Covered(st.r0, st.r1, st.r2, Vec2I(b.x + BlockSize - 1, b.y + BlockSize - 1)) &&
    Covered(st.r0, st.r1, st.r2, Vec2I(b.x, b.y + BlockSize - 1))
  }

  /**
   * The classification `Rasterize` makes of the block at `b`: inside when all
   * four corners are covered, intersecting when some are, or when a vertex
   * lies in the block, or when a side of the block crosses an edge of the
   * triangle; skipped otherwise.
   */
  function ClassifyBlock(st: Setup, b: Vec2I): (k: BlockKind)
    ensures k == InsideBlock <==> CornersCovered(st, b)
  {
    var last := Vec2I(b.x + BlockSize - 1, b.y + BlockSize - 1);
    var lt := Covered(st.r0, st.r1, st.r2, b);
    var rt := Covered(st.r0, st.r1, st.r2, Vec2I(last.x, b.y));
    var rb := Covered(st.r0, st.r1, st.r2, last);
    var lb := Covered(st.r0, st.r1, st.r2, Vec2I(b.x, last.y));
    if lb && lt && rb && rt then InsideBlock
    else if lb || lt || rb || rt then IntersectBlock
    else if PointInsideAABB(b, last, st.r0) || PointInsideAABB(b, last, st.r1) || PointInsideAABB(b, last, st.r2)
    then IntersectBlock
    else if BlockTriangleSegmentIntersection(b, BlockSize - 1, BlockSize - 1, st.r0, st.r1, st.r2) then IntersectBlock
    else SkippedBlock
  }

  /** A block whose left-top corner is covered but whose right-top corner is not is walked with the coverage test. */
  lemma PartlyCoveredBlock(st: Setup, b: Vec2I)
    requires Covered(st.r0, st.r1, st.r2, b)
    requires !Covered(st.r0, st.r1, st.r2, Vec2I(b.x + BlockSize - 1, b.y))
    ensures ClassifyBlock(st, b) == IntersectBlock
  {
  }

  /** A skipped block has no covered corner and no vertex of the triangle. */
  lemma SkippedBlockHasNoCornerOrVertex(st: Setup, b: Vec2I)
    requires ClassifyBlock(st, b) == SkippedBlock
    ensures !Covered(st.r0, st.r1, st.r2, b)
    ensures !Covered(st.r0, st.r1, st.r2, Vec2I(b.x + BlockSize - 1, b.y + BlockSize - 1))
    ensures !PointInsideAABB(b, Vec2I(b.x + BlockSize - 1, b.y + BlockSize - 1), st.r0)
    ensures !PointInsideAABB(b, Vec2I(b.x + BlockSize - 1, b.y + BlockSize - 1), st.r1)
    ensures !PointInsideAABB(b, Vec2I(b.x + BlockSize - 1, b.y + BlockSize - 1), st.r2)
  {
  }

  /** One block, rendered by the inside path (no coverage test) or the intersect path. */
  function BlockStep(st: Setup, w: nat, h: nat, o: Output, b: Vec2I): (r: Output)
    requires 0 <= b.x && 0 <= b.y && |o.depth| == w * h
    ensures |r.depth| == w * h
  {
    match ClassifyBlock(st, b)
    case InsideBlock => BlockFrom(st, w, h, false, o, b.x, BlockEnd(b.x, w), b.y, BlockEnd(b.y, h))
    case IntersectBlock => BlockFrom(st, w, h, true, o, b.x, BlockEnd(b.x, w), b.y, BlockEnd(b.y, h))
    case SkippedBlock => o
  }

  /** The blocks `x, x + 16, ...` up to `xLast` of the block row at `y`. */
  function RowOfBlocksFrom(st: Setup, w: nat, h: nat, o: Output, x: int, xLast: int, y: int): (r: Output)
    requires 0 <= x && 0 <= y && |o.depth| == w * h
    ensures |r.depth| == w * h
    decreases xLast + BlockSize - x
  {
    if x > xLast then o
    else RowOfBlocksFrom(st, w, h, BlockStep(st, w, h, o, Vec2I(x, y)), x + BlockSize, xLast, y)
  }

  /** The block rows `y, y + 16, ...` up to `yLast`, each from `x0` to `xLast`. */
  function BlocksFrom(st: Setup, w: nat, h: nat, o: Output, x0: int, xLast: int, y: int, yLast: int): (r: Output)
    requires 0 <= x0 && 0 <= y && |o.depth| == w * h
    ensures |r.depth| == w * h
    decreases yLast + BlockSize - y
  {
    if y > yLast then o
    else BlocksFrom(st, w, h, RowOfBlocksFrom(st, w, h, o, x0, xLast, y), x0, xLast, y + BlockSize, yLast)
  }

  /** The triangle is culled: its box is empty or its area value is not positive. */
  predicate Culled(vp: Viewport, st: Setup)
  {
    var box := BoundingBox(vp, st.r0, st.r1, st.r2);
    box.lo.x >= box.hi.x || box.lo.y >= box.hi.y || MakeEdge(st.r0, st.r1, st.r2).value <= 0
  }

  /** Everything one `Rasterize` call does to the depth image and the two output vectors. */
  function RasterizeSpec(vp: Viewport, interp: Interp, tri: Triangle, w: nat, h: nat, o: Output): (r: Output)
    requires 0.0 <= vp.topLeftX && 0.0 <= vp.topLeftY && |o.depth| == w * h
    ensures |r.depth| == w * h
  {
    var st := MakeSetup(vp, interp, tri);
    var box := BoundingBox(vp, st.r0, st.r1, st.r2);
    if Culled(vp, st) then o
    else
      BoundingBoxInViewport(vp, st.r0, st.r1, st.r2);
      AlignDownBounds(box.lo.x);
      AlignDownBounds(box.lo.y);
      BlocksFrom(st, w, h, o, AlignDown(box.lo.x), AlignDown(box.hi.x), AlignDown(box.lo.y), AlignDown(box.hi.y))
  }

  /** A back-facing or degenerate triangle, or one whose box is empty, changes nothing. */
  lemma CulledTriangleDrawsNothing(vp: Viewport, interp: Interp, tri: Triangle, w: nat, h: nat, o: Output)
    requires 0.0 <= vp.topLeftX && 0.0 <= vp.topLeftY && |o.depth| == w * h
    requires Culled(vp, MakeSetup(vp, interp, tri))
    ensures RasterizeSpec(vp, interp, tri, w, h, o) == o
  {
  }

  // ------------------------------------------------- traversal properties

  /** Texel `t'` is `t`, or a float strictly below the float `t`. */
  predicate NotDeeper(t': Texel, t: Texel)
  {
    t' == t || (t.F1? && t'.F1? && t'.f < t.f)
  }

  /**
   * What every stretch of the traversal keeps: the depth image's size; no
   * stored depth increases; both vectors are only extended, by the same
   * number of entries; every new index is a pixel of the image covered by
   * the triangle; and every stored depth that changed belongs to one of the
   * new indexes.
   */
  ghost predicate Grows(st: Setup, w: nat, h: nat, o: Output, o': Output)
  {
    |o'.depth| == |o.depth| &&
    (forall i | 0 <= i < |o.depth| :: NotDeeper(o'.depth[i], o.depth[i])) &&
    |o.fragments| <= |o'.fragments| && o'.fragments[..|o.fragments|] == o.fragments &&
    |o.indexes| <= |o'.indexes| && o'.indexes[..|o.indexes|] == o.indexes &&
    |o'.fragments| - |o.fragments| == |o'.indexes| - |o.indexes| &&
    (forall k | |o.indexes| <= k < |o'.indexes| ::
       InImage(o'.indexes[k], w, h) && Covered(st.r0, st.r1, st.r2, o'.indexes[k])) &&
    (forall i | 0 <= i < |o.depth| && o'.depth[i] != o.depth[i] :: WrittenAt(w, h, o, o', i))
  }

  /** Depth index `i` is the storage index of one of the indexes `o'` appended to `o`. */
  ghost predicate WrittenAt(w: nat, h: nat, o: Output, o': Output, i: int)
  {
    exists k | |o.indexes| <= k < |o'.indexes| ::
      InImage(o'.indexes[k], w, h) && PixelIndex(o'.indexes[k].x, o'.indexes[k].y, w, h) == i
  }

  lemma GrowsTrans(st: Setup, w: nat, h: nat, o1: Output, o2: Output, o3: Output)
    requires Grows(st, w, h, o1, o2) && Grows(st, w, h, o2, o3)
    ensures Grows(st, w, h, o1, o3)
  {
    assert o3.fragments[..|o1.fragments|] == o3.fragments[..|o2.fragments|][..|o1.fragments|];
    assert o3.indexes[..|o1.indexes|] == o3.indexes[..|o2.indexes|][..|o1.indexes|];
    forall k | |o1.indexes| <= k < |o3.indexes|
      ensures InImage(o3.indexes[k], w, h) && Covered(st.r0, st.r1, st.r2, o3.indexes[k])
    {
      if k < |o2.indexes| {
        assert o3.indexes[k] == o3.indexes[..|o2.indexes|][k];
      }
    }
    forall i | 0 <= i < |o1.depth| && o3.depth[i] != o1.depth[i]
      ensures WrittenAt(w, h, o1, o3, i)
    {
      if o2.depth[i] != o1.depth[i] {
        var k :| |o1.indexes| <= k < |o2.indexes| &&
          InImage(o2.indexes[k], w, h) && PixelIndex(o2.indexes[k].x, o2.indexes[k].y, w, h) == i;
        assert o3.indexes[k] == o3.indexes[..|o2.indexes|][k];
      }
    }
  }

  /** Pixel `p` lies in the 16 by 16 block whose left-top pixel is `b`. */
  predicate InBlock(b: Vec2I, p: Vec2I)
  {
    b.x <= p.x <= b.x + BlockSize - 1 && b.y <= p.y <= b.y + BlockSize - 1
  }

  /**
   * One pixel keeps `Grows`; without the coverage test the pixel must already
   * be covered. A pixel either changes nothing, or writes a strictly nearer
   * depth at its own index only and appends exactly one fragment and `p`.
   */
  lemma ShadeGrows(st: Setup, w: nat, h: nat, test: bool, o: Output, p: Vec2I)
    requires InImage(p, w, h) && |o.depth| == w * h
    requires test || Covered(st.r0, st.r1, st.r2, p)
    ensures Grows(st, w, h, o, ShadePixel(st, w, h, test, o, p))
    ensures var o' := ShadePixel(st, w, h, test, o, p);
            var i := PixelIndex(p.x, p.y, w, h);
            o' == o ||
            (o'.indexes == o.indexes + [p] &&
             |o'.fragments| == |o.fragments| + 1 && o'.fragments[..|o.fragments|] == o.fragments &&
             o'.depth == o.depth[i := o'.depth[i]] &&
             o.depth[i].F1? && o'.depth[i].F1? && o'.depth[i].f < o.depth[i].f)
  {
    var o' := ShadePixel(st, w, h, test, o, p);
    if o' != o {
      assert o'.fragments[..|o.fragments|] == o.fragments;
      assert o'.indexes[..|o.indexes|] == o.indexes;
      var i := PixelIndex(p.x, p.y, w, h);
      forall j | 0 <= j < |o.depth| && o'.depth[j] != o.depth[j]
        ensures WrittenAt(w, h, o, o', j)
      {
        assert o'.indexes[|o.indexes|] == p;
      }
    }
  }

  /** The pixel `(x, y)` of a block whose four corners are covered is covered. */
  lemma InsideBlockPixelCovered(st: Setup, b: Vec2I, p: Vec2I)
    requires CornersCovered(st, b) && InBlock(b, p)
    ensures Covered(st.r0, st.r1, st.r2, p)
  {
    CornersCoverRectangle(st.r0, st.r1, st.r2, b.x, b.x + BlockSize - 1, b.y, b.y + BlockSize - 1, p);
  }

  lemma {:induction false} SpanGrows(st: Setup, w: nat, h: nat, test: bool, o: Output, x: int, xEnd: int, y: int, b: Vec2I)
    requires 0 <= x && xEnd <= w && 0 <= y < h && |o.depth| == w * h
    requires test || (CornersCovered(st, b) && b.x <= x && xEnd <= b.x + BlockSize && b.y <= y < b.y + BlockSize)
    ensures Grows(st, w, h, o, SpanFrom(st, w, h, test, o, x, xEnd, y))
    decreases xEnd - x
  {
    if x < xEnd {
      var p := Vec2I(x, y);
      if !test {
        InsideBlockPixelCovered(st, b, p);
      }
      ShadeGrows(st, w, h, test, o, p);
      var o' := ShadePixel(st, w, h, test, o, p);
      SpanGrows(st, w, h, test, o', x + 1, xEnd, y, b);
      GrowsTrans(st, w, h, o, o', SpanFrom(st, w, h, test, o', x + 1, xEnd, y));
    }
  }

  lemma {:induction false} BlockGrows(st: Setup, w: nat, h: nat, test: bool, o: Output, x0: int, xEnd: int, y: int, yEnd: int, b: Vec2I)
    requires 0 <= x0 && xEnd <= w && 0 <= y && yEnd <= h && |o.depth| == w * h
    requires test || (CornersCovered(st, b) && b.x <= x0 && xEnd <= b.x + BlockSize && b.y <= y && yEnd <= b.y + BlockSize)
    ensures Grows(st, w, h, o, BlockFrom(st, w, h, test, o, x0, xEnd, y, yEnd))
    decreases yEnd - y
  {
    if y < yEnd {
      var o' := SpanFrom(st, w, h, test, o, x0, xEnd, y);
      SpanGrows(st, w, h, test, o, x0, xEnd, y, b);
      BlockGrows(st, w, h, test, o', x0, xEnd, y + 1, yEnd, b);
      GrowsTrans(st, w, h, o, o', BlockFrom(st, w, h, test, o', x0, xEnd, y + 1, yEnd));
    }
  }

  lemma BlockStepGrows(st: Setup, w: nat, h: nat, o: Output, b: Vec2I)
    requires 0 <= b.x && 0 <= b.y && |o.depth| == w * h
    ensures Grows(st, w, h, o, BlockStep(st, w, h, o, b))
  {
    match ClassifyBlock(st, b)
    case InsideBlock =>
      BlockGrows(st, w, h, false, o, b.x, BlockEnd(b.x, w), b.y, BlockEnd(b.y, h), b);
    case IntersectBlock =>
      BlockGrows(st, w, h, true, o, b.x, BlockEnd(b.x, w), b.y, BlockEnd(b.y, h), b);
    case SkippedBlock =>
  }

  lemma {:induction false} RowOfBlocksGrows(st: Setup, w: nat, h: nat, o: Output, x: int, xLast: int, y: int)
    requires 0 <= x && 0 <= y && |o.depth| == w * h
    ensures Grows(st, w, h, o, RowOfBlocksFrom(st, w, h, o, x, xLast, y))
    decreases xLast + BlockSize - x
  {
    if x <= xLast {
      var o' := BlockStep(st, w, h, o, Vec2I(x, y));
      BlockStepGrows(st, w, h, o, Vec2I(x, y));
      RowOfBlocksGrows(st, w, h, o', x + BlockSize, xLast, y);
      GrowsTrans(st, w, h, o, o', RowOfBlocksFrom(st, w, h, o', x + BlockSize, xLast, y));
    }
  }

  lemma {:induction false} BlocksGrows(st: Setup, w: nat, h: nat, o: Output, x0: int, xLast: int, y: int, yLast: int)
    requires 0 <= x0 && 0 <= y && |o.depth| == w * h
    ensures Grows(st, w, h, o, BlocksFrom(st, w, h, o, x0, xLast, y, yLast))
    decreases yLast + BlockSize - y
  {
    if y <= yLast {
      var o' := RowOfBlocksFrom(st, w, h, o, x0, xLast, y);
      RowOfBlocksGrows(st, w, h, o, x0, xLast, y);
      BlocksGrows(st, w, h, o', x0, xLast, y + BlockSize, yLast);
      GrowsTrans(st, w, h, o, o', BlocksFrom(st, w, h, o', x0, xLast, y + BlockSize, yLast));
    }
  }

  /**
   * One `Rasterize` call never raises a stored depth, only appends to the two
   * vectors and keeps them in step, and emits only covered pixels of the image.
   */
  lemma RasterizeGrows(vp: Viewport, interp: Interp, tri: Triangle, w: nat, h: nat, o: Output)
    requires 0.0 <= vp.topLeftX && 0.0 <= vp.topLeftY && |o.depth| == w * h
    ensures Grows(MakeSetup(vp, interp, tri), w, h, o, RasterizeSpec(vp, interp, tri, w, h, o))
  {
    var st := MakeSetup(vp, interp, tri);
    var box := BoundingBox(vp, st.r0, st.r1, st.r2);
    if !Culled(vp, st) {
      BoundingBoxInViewport(vp, st.r0, st.r1, st.r2);
      AlignDownBounds(box.lo.x);
      AlignDownBounds(box.lo.y);
      BlocksGrows(st, w, h, o, AlignDown(box.lo.x), AlignDown(box.hi.x), AlignDown(box.lo.y), AlignDown(box.hi.y));
    }
  }

  /**
   * Why the inside path may skip the coverage test: on a block whose four
   * corners are covered, rendering with and without the test agree.
   */
  lemma {:induction false} InsideSpanNeedsNoTest(st: Setup, w: nat, h: nat, o: Output, x: int, xEnd: int, y: int, b: Vec2I)
    requires 0 <= x && xEnd <= w && 0 <= y < h && |o.depth| == w * h
    requires CornersCovered(st, b) && b.x <= x && xEnd <= b.x + BlockSize && b.y <= y < b.y + BlockSize
    ensures SpanFrom(st, w, h, false, o, x, xEnd, y) == SpanFrom(st, w, h, true, o, x, xEnd, y)
    decreases xEnd - x
  {
    if x < xEnd {
      var p := Vec2I(x, y);
      InsideBlockPixelCovered(st, b, p);
      assert ShadePixel(st, w, h, false, o, p) == ShadePixel(st, w, h, true, o, p);
      InsideSpanNeedsNoTest(st, w, h, ShadePixel(st, w, h, false, o, p), x + 1, xEnd, y, b);
    }
  }

  lemma {:induction false} InsideBlockNeedsNoTest(st: Setup, w: nat, h: nat, o: Output, x0: int, xEnd: int, y: int, yEnd: int, b: Vec2I)
    requires 0 <= x0 && xEnd <= w && 0 <= y && yEnd <= h && |o.depth| == w * h
    requires CornersCovered(st, b) && b.x <= x0 && xEnd <= b.x + BlockSize && b.y <= y && yEnd <= b.y + BlockSize
    ensures BlockFrom(st, w, h, false, o, x0, xEnd, y, yEnd) == BlockFrom(st, w, h, true, o, x0, xEnd, y, yEnd)
    decreases yEnd - y
  {
    if y < yEnd {
      InsideSpanNeedsNoTest(st, w, h, o, x0, xEnd, y, b);
      InsideBlockNeedsNoTest(st, w, h, SpanFrom(st, w, h, false, o, x0, xEnd, y), x0, xEnd, y + 1, yEnd, b);
    }
  }


  /** The four corner sets `Rasterize` derives from the block's left-top set are the sets built at the corners. */
  lemma CornerSets(v0: Vec2I, v1: Vec2I, v2: Vec2I, b: Vec2I)
    ensures var lt := MakeSet(v0, v1, v2, b);
      var rt := SetIncrementX(lt, BlockSize - 1);
      var rb := SetIncrementY(rt, BlockSize - 1);
      var lb := SetIncrementX(rb, 1 - BlockSize);
      rt == MakeSet(v0, v1, v2, Vec2I(b.x + BlockSize - 1, b.y)) &&
      rb == MakeSet(v0, v1, v2, Vec2I(b.x + BlockSize - 1, b.y + BlockSize - 1)) &&
      lb == MakeSet(v0, v1, v2, Vec2I(b.x, b.y + BlockSize - 1))
  {
    SetStepX(v0, v1, v2, b, BlockSize - 1);
    SetStepY(v0, v1, v2, Vec2I(b.x + BlockSize - 1, b.y), BlockSize - 1);
    SetStepX(v0, v1, v2, Vec2I(b.x + BlockSize - 1, b.y + BlockSize - 1), 1 - BlockSize);
  }

  // ------------------------------------------------------------- methods

  /** The body of both block loops for pixel `(x, y)`, whose edge values are `s`. */
  method ShadeAt(st: Setup, s: EdgeEquationSet, x: int, y: int, test: bool, depth: Image,
                 frags: seq<Fragment>, idx: seq<Vec2I>) returns (frags': seq<Fragment>, idx': seq<Vec2I>)
    requires depth.Valid() && depth.format == R32Float
    requires InImage(Vec2I(x, y), depth.width, depth.height)
    requires s == MakeSet(st.r0, st.r1, st.r2, Vec2I(x, y))
    modifies depth.data
    ensures Output(depth.data[..], frags', idx') ==
      ShadePixel(st, depth.width, depth.height, test, Output(old(depth.data[..]), frags, idx), Vec2I(x, y))
  {
    frags', idx' := frags, idx;
    if test && !Evaluate(s) {
      return;
    }
    var params := Params(st, s);
    if params.x + params.y + params.z == 0.0 {
      return;
    }
    var ndcZ := PixelDepth(st, s);
    var stored := depth.GetPixel(x, y);
    if stored.F1? && ndcZ < stored.f {
      depth.SetPixel(F1(ndcZ), x, y);
      frags' := frags + [PixelFragment(st, s)];
      idx' := idx + [Vec2I(x, y)];
    }
  }

  /** The inner loop of `RenderInsideBlock`/`RenderIntersectBlock`: `blockXSet` stepped along row `y`. */
  method RenderSpan(st: Setup, start: EdgeEquationSet, x0: int, xEnd: int, y: int, test: bool, depth: Image,
                    frags: seq<Fragment>, idx: seq<Vec2I>) returns (frags': seq<Fragment>, idx': seq<Vec2I>)
    requires depth.Valid() && depth.format == R32Float
    requires 0 <= x0 && xEnd <= depth.width && 0 <= y < depth.height
    requires start == MakeSet(st.r0, st.r1, st.r2, Vec2I(x0, y))
    modifies depth.data
    ensures Output(depth.data[..], frags', idx') ==
      SpanFrom(st, depth.width, depth.height, test, Output(old(depth.data[..]), frags, idx), x0, xEnd, y)
  {
    var blockXSet := start;
    var x := x0;
    frags', idx' := frags, idx;
    while x < xEnd
      invariant x0 <= x && (x <= xEnd || x == x0)
      invariant blockXSet == MakeSet(st.r0, st.r1, st.r2, Vec2I(x, y))
      invariant SpanFrom(st, depth.width, depth.height, test, Output(depth.data[..], frags', idx'), x, xEnd, y) ==
                SpanFrom(st, depth.width, depth.height, test, Output(old(depth.data[..]), frags, idx), x0, xEnd, y)
      decreases xEnd - x
    {
      frags', idx' := ShadeAt(st, blockXSet, x, y, test, depth, frags', idx');
      SetStepX(st.r0, st.r1, st.r2, Vec2I(x, y), 1);
      blockXSet := SetIncrementX(blockXSet, 1);
      x := x + 1;
    }
  }

  /**
   * `RenderInsideBlock` (`test` false) and `RenderIntersectBlock` (`test`
   * true): the block's rows, each from the left-top set stepped down by one,
   * the loops stopped at the image's edge.
   */
  method RenderBlock(st: Setup, start: EdgeEquationSet, x0: int, y0: int, test: bool, depth: Image,
                     frags: seq<Fragment>, idx: seq<Vec2I>) returns (frags': seq<Fragment>, idx': seq<Vec2I>)
    requires depth.Valid() && depth.format == R32Float && 0 <= x0 && 0 <= y0
    requires start == MakeSet(st.r0, st.r1, st.r2, Vec2I(x0, y0))
    modifies depth.data
    ensures Output(depth.data[..], frags', idx') ==
      BlockFrom(st, depth.width, depth.height, test, Output(old(depth.data[..]), frags, idx),
                x0, BlockEnd(x0, depth.width), y0, BlockEnd(y0, depth.height))
  {
    var yEnd := BlockEnd(y0, depth.height);
    var xEnd := BlockEnd(x0, depth.width);
    var blockYSet := start;
    var y := y0;
    frags', idx' := frags, idx;
    while y < yEnd
      invariant y0 <= y && (y <= yEnd || y == y0)
      invariant blockYSet == MakeSet(st.r0, st.r1, st.r2, Vec2I(x0, y))
      invariant BlockFrom(st, depth.width, depth.height, test, Output(depth.data[..], frags', idx'), x0, xEnd, y, yEnd) ==
                BlockFrom(st, depth.width, depth.height, test, Output(old(depth.data[..]), frags, idx), x0, xEnd, y0, yEnd)
      decreases yEnd - y
    {
      frags', idx' := RenderSpan(st, blockYSet, x0, xEnd, y, test, depth, frags', idx');
      SetStepY(st.r0, st.r1, st.r2, Vec2I(x0, y), 1);
      blockYSet := SetIncrementY(blockYSet, 1);
      y := y + 1;
    }
  }

  /** The body of the block loop of `Rasterize`: classify the block at `(x, y)` by its corners and render it. */
  method RasterizeBlock(st: Setup, setX: EdgeEquationSet, x: int, y: int, depth: Image,
                        frags: seq<Fragment>, idx: seq<Vec2I>) returns (frags': seq<Fragment>, idx': seq<Vec2I>)
    requires depth.Valid() && depth.format == R32Float && 0 <= x && 0 <= y
    requires setX == MakeSet(st.r0, st.r1, st.r2, Vec2I(x, y))
    modifies depth.data
    ensures Output(depth.data[..], frags', idx') ==
      BlockStep(st, depth.width, depth.height, Output(old(depth.data[..]), frags, idx), Vec2I(x, y))
  {
    var kind := ClassifyCorners(st, setX, x, y);
    match kind
    case InsideBlock =>
      frags', idx' := RenderBlock(st, setX, x, y, false, depth, frags, idx);
    case IntersectBlock =>
      frags', idx' := RenderBlock(st, setX, x, y, true, depth, frags, idx);
    case SkippedBlock =>
      frags', idx' := frags, idx;
  }

  /**
   * The classification in the block loop of `Rasterize`: the corner sets by
   * stepping `temp`, then the inside, intersect, vertex-in-block and
   * side-crossing tests in the source's order.
   */
  method ClassifyCorners(st: Setup, setX: EdgeEquationSet, x: int, y: int) returns (kind: BlockKind)
    requires setX == MakeSet(st.r0, st.r1, st.r2, Vec2I(x, y))
    ensures kind == ClassifyBlock(st, Vec2I(x, y))
  {
    var temp := setX;
    var leftTopCorner := temp;
    temp := SetIncrementX(temp, BlockSize - 1);
    var rightTopCorner := temp;
    temp := SetIncrementY(temp, BlockSize - 1);
    var rightBottomCorner := temp;
    temp := SetIncrementX(temp, 1 - BlockSize);
    var leftBottomCorner := temp;
    CornerSets(st.r0, st.r1, st.r2, Vec2I(x, y));

    var lb := Evaluate(leftBottomCorner);
    var lt := Evaluate(leftTopCorner);
    var rb := Evaluate(rightBottomCorner);
    var rt := Evaluate(rightTopCorner);

    var inside := lb && lt && rb && rt;
    if inside {
      return InsideBlock;
    }
    var intersect := lb || lt || rb || rt;
    if !intersect {
      var aabbMin := Vec2I(x, y);
      var aabbMax := Vec2I(x + BlockSize - 1, y + BlockSize - 1);
      if PointInsideAABB(aabbMin, aabbMax, st.r0) || PointInsideAABB(aabbMin, aabbMax, st.r1) ||
         PointInsideAABB(aabbMin, aabbMax, st.r2)
      {
        return IntersectBlock;
      }
      if BlockTriangleSegmentIntersection(aabbMin, BlockSize - 1, BlockSize - 1, st.r0, st.r1, st.r2) {
        return IntersectBlock;
      }
      return SkippedBlock;
    }
    return IntersectBlock;
  }

  /** The inner block loop of `Rasterize`: blocks `x0, x0 + 16, ...` up to `xLast` of the block row at `y`. */
  method RasterizeBlockRow(st: Setup, setY: EdgeEquationSet, x0: int, xLast: int, y: int, depth: Image,
                           frags: seq<Fragment>, idx: seq<Vec2I>) returns (frags': seq<Fragment>, idx': seq<Vec2I>)
    requires depth.Valid() && depth.format == R32Float && 0 <= x0 && 0 <= y
    requires setY == MakeSet(st.r0, st.r1, st.r2, Vec2I(x0, y))
    modifies depth.data
    ensures Output(depth.data[..], frags', idx') ==
      RowOfBlocksFrom(st, depth.width, depth.height, Output(old(depth.data[..]), frags, idx), x0, xLast, y)
  {
    var setX := setY;
    var x := x0;
    frags', idx' := frags, idx;
    while x <= xLast
      invariant x0 <= x
      invariant setX == MakeSet(st.r0, st.r1, st.r2, Vec2I(x, y))
      invariant RowOfBlocksFrom(st, depth.width, depth.height, Output(depth.data[..], frags', idx'), x, xLast, y) ==
                RowOfBlocksFrom(st, depth.width, depth.height, Output(old(depth.data[..]), frags, idx), x0, xLast, y)
      decreases xLast + BlockSize - x
    {
      var leftTopCorner := setX;
      SetStepX(st.r0, st.r1, st.r2, Vec2I(x, y), BlockSize);
      setX := SetIncrementX(setX, BlockSize);
      frags', idx' := RasterizeBlock(st, leftTopCorner, x, y, depth, frags', idx');
      x := x + BlockSize;
    }
  }

  /** The outer block loop of `Rasterize`: block rows `y0, y0 + 16, ...` up to `yLast`, each from `x0` to `xLast`. */
  method RasterizeBlockRows(st: Setup, x0: int, xLast: int, y0: int, yLast: int, depth: Image,
                            frags: seq<Fragment>, idx: seq<Vec2I>) returns (frags': seq<Fragment>, idx': seq<Vec2I>)
    requires depth.Valid() && depth.format == R32Float && 0 <= x0 && 0 <= y0
    modifies depth.data
    ensures Output(depth.data[..], frags', idx') ==
      BlocksFrom(st, depth.width, depth.height, Output(old(depth.data[..]), frags, idx), x0, xLast, y0, yLast)
  {
    var setY := MakeSet(st.r0, st.r1, st.r2, Vec2I(x0, y0));
    var y := y0;
    frags', idx' := frags, idx;
    while y <= yLast
      invariant y0 <= y
      invariant setY == MakeSet(st.r0, st.r1, st.r2, Vec2I(x0, y))
      invariant BlocksFrom(st, depth.width, depth.height, Output(depth.data[..], frags', idx'), x0, xLast, y, yLast) ==
                BlocksFrom(st, depth.width, depth.height, Output(old(depth.data[..]), frags, idx), x0, xLast, y0, yLast)
      decreases yLast + BlockSize - y
    {
      frags', idx' := RasterizeBlockRow(st, setY, x0, xLast, y, depth, frags', idx');
      SetStepY(st.r0, st.r1, st.r2, Vec2I(x0, y), BlockSize);
      setY := SetIncrementY(setY, BlockSize);
      y := y + BlockSize;
    }
  }

  /** `Rasterizer`: the viewport and the interpolation function chosen by the layout. */
  class Rasterizer {
    var viewport: Viewport
    var interp: Interp

    /** `Rasterizer()`: BASE interpolation. The source leaves the viewport unset; it starts at zero here. */
    constructor ()
      ensures interp == BaseInterp && viewport == Viewport(0.0, 0.0, 0.0, 0.0)
    {
      interp := BaseInterp;
      viewport := Viewport(0.0, 0.0, 0.0, 0.0);
    }

    method SetViewport(vp: Viewport)
      modifies this
      ensures viewport == vp && interp == old(interp)
    {
      viewport := vp;
    }

    /** `SetFragmentLayout`: EXTENSION2 falls to the default branch and keeps the current function. */
    method SetFragmentLayout(layout: FragmentLayout)
      modifies this
      ensures interp == LayoutInterp(layout, old(interp)) && viewport == old(viewport)
    {
      match layout
      case Base => interp := BaseInterp;
      case Extension0 => interp := Extension0Interp;
      case Extension1 => interp := Extension1Interp;
      case Extension2 =>
    }

    /**
     * `Rasterize(pTriangle, pFragments, pFragmentIndexes, pDepthBuffer)`:
     * returns the caller's triangle as the source leaves it (divided by `w`)
     * and the two vectors with this triangle's fragments appended.
     */
    method Rasterize(tri: Triangle, depth: Image, frags: seq<Fragment>, idx: seq<Vec2I>)
      returns (divided: Triangle, frags': seq<Fragment>, idx': seq<Vec2I>)
      requires depth.Valid() && depth.format == R32Float
      requires 0.0 <= viewport.topLeftX && 0.0 <= viewport.topLeftY
      modifies depth.data
      ensures divided == PerspectiveDivide(tri)
      ensures Output(depth.data[..], frags', idx') ==
        RasterizeSpec(viewport, interp, tri, depth.width, depth.height, Output(old(depth.data[..]), frags, idx))
    {
      var inv := Vec3(Recip(tri.v0.pos.w), Recip(tri.v1.pos.w), Recip(tri.v2.pos.w));
      divided := Triangle(tri.v0.(pos := Scale4(tri.v0.pos, inv.x)), tri.v1.(pos := Scale4(tri.v1.pos, inv.y)),
                          tri.v2.(pos := Scale4(tri.v2.pos, inv.z)));
      var r0 := NDCToRaster(divided.v0.pos, viewport.width, viewport.height);
      var r1 := NDCToRaster(divided.v1.pos, viewport.width, viewport.height);
      var r2 := NDCToRaster(divided.v2.pos, viewport.width, viewport.height);
      var st := Setup(divided, inv, r0, r1, r2, interp);
      assert st == MakeSetup(viewport, interp, tri);

      frags', idx' := frags, idx;
      var box := BoundingBox(viewport, r0, r1, r2);
      if box.lo.x >= box.hi.x || box.lo.y >= box.hi.y {
        return;
      }
      var minX, minY := AlignDown(box.lo.x), AlignDown(box.lo.y);
      var maxX, maxY := AlignDown(box.hi.x), AlignDown(box.hi.y);
      var area := MakeEdge(r0, r1, r2);
      if area.value <= 0 {
        return;
      }
      BoundingBoxInViewport(viewport, r0, r1, r2);
      AlignDownBounds(box.lo.x);
      AlignDownBounds(box.lo.y);

      frags', idx' := RasterizeBlockRows(st, minX, maxX, minY, maxY, depth, frags, idx);
    }
  }
}
