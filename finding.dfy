/**
 * The block traversal of `Rasterizer::Rasterize` as written: the inner loops
 * run to `pX + blockSize` and `pY + blockSize` without clamping to the
 * image, so the last block column or row can reach pixels outside it.
 * A concrete triangle in a 600 by 600 viewport (the size of the demo
 * window) exhibits this; `Rasterization.BlockEnd` is the corrected bound
 * that the rest of the model uses.
 */
module TraversalFinding {
  import opened Vectors
  import opened Images
  import opened Clipping
  import opened EdgeEquations
  import opened Rasterization

  /** A triangle filling the upper-left half of the NDC square, vertices already divided (`w = 1`). */
  function OverrunTriangle(): Triangle
  {
    Triangle(DefaultFragment.(pos := Vec4(-1.0, 1.0, 0.5, 1.0)),
             DefaultFragment.(pos := Vec4(1.0, 1.0, 0.5, 1.0)),
             DefaultFragment.(pos := Vec4(-1.0, -1.0, 0.5, 1.0)))
  }

  /** The demo window's viewport. */
  function OverrunViewport(): Viewport
  {
    Viewport(0.0, 0.0, 600.0, 600.0)
  }

  /** `x_end = pX + blockSize` (and `y_end`), as the source computes it. */
  function BlockEndAsWritten(b: int): int
  {
    b + BlockSize
  }

  /** The setup of a triangle `tri` whose raster vertices are (0, 0), (600, 0) and (0, 600), all at `w = 1`. */
  function OverrunSetup(tri: Triangle): Setup
  {
    Setup(tri, Vec3(1.0, 1.0, 1.0), Vec2I(0, 0), Vec2I(600, 0), Vec2I(0, 600), BaseInterp)
  }

  /** `Rasterize` maps `OverrunTriangle` to such a setup in the demo viewport. */
  lemma OverrunSetupComputed()
    ensures MakeSetup(OverrunViewport(), BaseInterp, OverrunTriangle()) == OverrunSetup(OverrunTriangle())
  {
    var t := OverrunTriangle();
    assert PerspectiveDivide(t) == t;
    CornerToRaster(-1.0, 1.0, 0, 0);
    CornerToRaster(1.0, 1.0, 600, 0);
    CornerToRaster(-1.0, -1.0, 0, 600);
  }

  /** An NDC corner of the square lands on a corner of the 600 by 600 raster. */
  lemma CornerToRaster(x: real, y: real, rx: int, ry: int)
    requires (x == -1.0 && rx == 0) || (x == 1.0 && rx == 600)
    requires (y == 1.0 && ry == 0) || (y == -1.0 && ry == 600)
    ensures NDCToRaster(Vec4(x, y, 0.5, 1.0), 600.0, 600.0) == Vec2I(rx, ry)
  {
    TruncOfInt(rx);
    TruncOfInt(ry);
    assert (1.0 + x) * 0.5 * 600.0 == rx as real;
    assert (1.0 - y) * 0.5 * 600.0 == ry as real;
  }

  /** The triangle is not culled, and its box is (0, 0)-(599, 599): the last block column starts at AlignDown(599) = 592. */
  lemma OverrunNotCulled(tri: Triangle)
    ensures BoundingBox(OverrunViewport(), Vec2I(0, 0), Vec2I(600, 0), Vec2I(0, 600)) == Box(Vec2I(0, 0), Vec2I(599, 599))
    ensures !Culled(OverrunViewport(), OverrunSetup(tri)) && AlignDown(599) == 592
  {
    assert RMax(0 as real, 0.0) == 0 as real && RMin(600 as real, 600.0 - 1.0) == 599 as real;
    TruncOfInt(0);
    TruncOfInt(599);
  }

  /** The block at (592, 0) is rendered with the coverage test: its left-top corner is covered, its right-top corner is not. */
  lemma OverrunBlock(tri: Triangle)
    ensures ClassifyBlock(OverrunSetup(tri), Vec2I(592, 0)) == IntersectBlock
  {
    PartlyCoveredBlock(OverrunSetup(tri), Vec2I(592, 0));
  }

  /**
   * The as-written column loop of that block runs to 608, where the
   * corrected bound stops at the image width 600: column 600 lies outside
   * the 600 by 600 image.
   */
  lemma OverrunLoopBound()
    ensures 592 <= 600 < BlockEndAsWritten(592) && BlockEnd(592, 600) == 600
    ensures !InImage(Vec2I(600, 0), 600, 600)
  {
  }

  /** Pixel (600, 0), which the as-written loop visits, is covered by the triangle, so it passes the coverage test. */
  lemma OverrunPixelCovered()
    ensures Covered(Vec2I(0, 0), Vec2I(600, 0), Vec2I(0, 600), Vec2I(600, 0))
  {
  }

  /**
   * The row-major index 600 of pixel (600, 0) is that of pixel (0, 1), so its
   * depth test reads pixel (0, 1) of the next row.
   */
  lemma OverrunIndex()
    ensures 600 + 0 * 600 == PixelIndex(0, 1, 600, 600)
  {
  }

  /**
   * In the last block row the same happens below the image: block (0, 592)
   * takes the intersect path (its left-top corner is covered, its right-top
   * corner is not) ...
   */
  lemma OverrunLastRowBlock(tri: Triangle)
    ensures ClassifyBlock(OverrunSetup(tri), Vec2I(0, 592)) == IntersectBlock
  {
    PartlyCoveredBlock(OverrunSetup(tri), Vec2I(0, 592));
  }

  /**
   * ... and its row 600, outside the image, holds the covered pixel (0, 600),
   * whose index 0 + 600 * 600 = 360000 lies past the 600 by 600 storage.
   */
  lemma OverrunPastStorage()
    ensures 592 <= 600 < BlockEndAsWritten(592) && !InImage(Vec2I(0, 600), 600, 600)
    ensures Covered(Vec2I(0, 0), Vec2I(600, 0), Vec2I(0, 600), Vec2I(0, 600))
  {
  }

  lemma TruncOfInt(n: int)
    ensures Trunc(n as real) == n
  {
  }
}
