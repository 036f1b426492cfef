# SimpleRasterizer core, modelled in Dafny

SimpleRasterizer is a software triangle rasterizer written in C++. It works
like a small Direct3D-style pipeline. The application creates images (render
targets, shader resources, a depth buffer) and buffers (vertices, indices)
through a device. It binds them to a draw context and calls `Draw`. `Draw`
does five things in order:

1. It runs the vertex shader over every vertex of the vertex buffer.
2. It assembles triangles from consecutive triples of the index buffer.
3. It clips the triangles against the six planes of the clip volume.
4. It rasterizes each triangle in 16 by 16 pixel blocks, with a
   perspective-correct depth test against the depth buffer.
5. It runs the fragment shader on every fragment that passes the test and
   writes the outputs into the bound render targets.

This project models that core: `Core/Buffer.h`, `Core/Image.h`,
`Core/Clipper.h`, `Core/Rasterizer.h`, `Core/RenderInterface.h` and
`Core/RenderInterface.cpp` (without the Win32 swap chain).

The modules are:

- `Wrappers` (`wrappers.dfy`): `Option`, `Result`, `Outcome`, and the error
  kinds that stand for the exceptions the source throws.
- `Vectors` (`vectors.dfy`): the few vector operations the core uses, with
  floats as reals and `static_cast<int>` as truncation toward zero.
- `Images` (`image.dfy`): one `Image` class whose storage is an array of
  tagged texels. The tag is the element type the format names. The module
  covers the bind flag protocol, `Clear`, `ResizeImage` and
  `SetPixel`/`GetPixel`.
- `Buffers` (`buffer.dfy`): descriptors, the buffer class with its byte
  array, and element slicing.
- `Clipping` (`clipper.dfy`): clip codes, the per-plane polygon clipper and
  its fan triangulation, the accept/reject filter, and `Clip`. `Clip` is
  proved equal to a functional specification `ClipAll`. Properties of
  `ClipAll` (every output lies inside the volume; clipping is idempotent)
  are proved as lemmas.
- `EdgeEquations` (`edges.dfy`): the integer edge functions, their
  incremental stepping, and the segment intersection test of the block
  classifier.
- `Rasterization` (`rasterizer.dfy`): the perspective divide, the raster
  mapping, the bounding box, the block classification, and the traversal.
  The traversal is specified by functions that fold over the pixels in the
  loops' order. The methods run the same loops in place on the depth image
  and are proved to produce exactly that fold.
- `TraversalFinding` (`finding.dfy`): a concrete input on which the
  traversal as written leaves the image (see "## Findings").
- `RenderInterface` (`render_interface.dfy`): the device factories, the
  `Context3D` class with its slots, setters and unbind loops, the per-fragment
  write into the render targets, and `Draw`. `Draw` is proved to leave the
  depth buffer and the render targets exactly as the functional pipeline
  `DrawSpec` (shade, assemble, clip, rasterize and shade the fragments)
  prescribes.

The shaders are passed in as functions. The decoding of a buffer's bytes as
vertex records or indices is passed to `Draw` as two decoding functions.

## Model

| member | source | states |
|---|---|---|
| Buffers.CopyBufferDesc | SimpleRasterizer/Core/Buffer.h:9-13 | the copy keeps count, stride and data and recomputes the byte size as count times stride, so the copy is always consistent |
| Buffers.CopyPreservesExactlyConsistent | SimpleRasterizer/Core/Buffer.h:9-13 | a copy equals the original exactly when the original's byte size already was count times stride |
| Buffers.ElementSlice | SimpleRasterizer/Core/Buffer.h:78-81 | element `i` is the `stride` bytes starting at `i * stride` |
| Buffers.Elements | SimpleRasterizer/Core/Buffer.h:78-86 | the first `n` elements, each one the slice at its index |
| Buffers.ElementsTileBuffer | SimpleRasterizer/Core/Buffer.h:78-86 | for a buffer of exactly `n * stride` bytes, the elements laid end to end give back the whole buffer |
| Buffers.ElementsPrefix | SimpleRasterizer/Core/Buffer.h:78-86 | the first `n` elements laid end to end are the first `n * stride` bytes |
| Buffers.Buffer.constructor | SimpleRasterizer/Core/Buffer.h:43-47 | as written: storage and copy use the caller's byte size while the stored descriptor recomputes it; the buffer is valid exactly when the caller's descriptor was consistent |
| Buffers.Buffer.Sized | SimpleRasterizer/Core/Buffer.h:43-47 | corrected: the storage holds count times stride bytes, copied from the data, and the buffer is always valid |
| Buffers.Buffer.SetRawData | SimpleRasterizer/Core/Buffer.h:57-70 | a size other than the recorded byte size fails with `DataSizeMismatch` (checked first), null data fails with `NullData`, both leave the bytes unchanged; otherwise the bytes become the given ones |
| Buffers.Buffer.GetRawData | SimpleRasterizer/Core/Buffer.h:72-76 | returns the recorded byte size and a copy of all stored bytes |
| Buffers.Buffer.GetElementData | SimpleRasterizer/Core/Buffer.h:78-81 | returns element `i` of the stored bytes |
| Buffers.Buffer.GetElementNum | SimpleRasterizer/Core/Buffer.h:83-86 | the element count; in a valid buffer whose descriptor is consistent, count times stride is exactly the stored byte count, so `GetElementData` reaches every byte |
| Buffers.BufferSizeMismatch | SimpleRasterizer/Core/Buffer.h:9-13 | as written: a descriptor with 2 elements of 4 bytes but a byte size of 4 is not consistent, and its copy records 8 bytes where the caller's descriptor says 4 |
| Buffers.OversizedBuffer | SimpleRasterizer/Core/Buffer.h:43-47 | as written: the constructor on that descriptor gives a buffer that stores 4 bytes, records 8, and so is not valid |
| Vectors.Trunc | SimpleRasterizer/Core/Rasterizer.h:410-411 | `static_cast<int>` of a float truncates toward zero: the result is within one below a non-negative value and within one above a negative one |
| Images.TypeCheck | SimpleRasterizer/Core/Image.h:22-81 | an element type passes exactly when the format is one of the five and names that element type |
| Images.GetTextureFormatSize | SimpleRasterizer/Core/Image.h:83-87 | the byte size of a texel is the size of the format's element type, and positive |
| Images.ZeroTexel | SimpleRasterizer/Core/Image.h:129-134 | fresh storage holds texels of the format's own element type |
| Images.Bind | SimpleRasterizer/Core/Image.h:217-235 | binding succeeds exactly when the image is unbound or already bound in the same role, and then sets that role; otherwise it fails with the error naming the other role |
| Images.BindIdempotent | SimpleRasterizer/Core/Image.h:217-235 | binding twice in the same role is the same as binding once |
| Images.UnboundAcceptsEitherRole | SimpleRasterizer/Core/Image.h:217-235 | an unbound image can be bound in either role |
| Images.PixelIndex | SimpleRasterizer/Core/Image.h:276 | the row-major index `x + y * width` of an in-range pixel lies inside the storage |
| Images.PixelIndexInjective | SimpleRasterizer/Core/Image.h:276 | two in-range pixels share an index exactly when they are the same pixel |
| Images.Image.constructor | SimpleRasterizer/Core/Image.h:129-134 | an owned, unbound image with the descriptor's format and size, whose storage holds format size times width times height bytes |
| Images.Image.Mapped | SimpleRasterizer/Core/Image.h:136-140 | an unbound image that does not own its storage and uses the caller's texels |
| Images.Image.ResizeImage | SimpleRasterizer/Core/Image.h:155-170 | the size becomes the new one; an owned image gets fresh storage of the new size, a mapped one keeps its storage; format, flag and ownership stay |
| Images.Image.Clear | SimpleRasterizer/Core/Image.h:192-209 | a texel of the wrong element type fails with `ImageTypeError` and changes nothing; otherwise every texel becomes the given one |
| Images.Image.Unbind | SimpleRasterizer/Core/Image.h:212-215 | the flag becomes unbound |
| Images.Image.BindShaderResource | SimpleRasterizer/Core/Image.h:217-225 | the flag and outcome are those of `Bind` in the shader-resource role; a failure leaves the flag unchanged |
| Images.Image.BindRenderTarget | SimpleRasterizer/Core/Image.h:227-235 | the flag and outcome are those of `Bind` in the render-target role; a failure leaves the flag unchanged |
| Images.Image.GetPixel | SimpleRasterizer/Core/Image.h:292-302 | the texel at the row-major index `x + y * width`; `SetPixel`'s contract and `PixelIndexInjective` say it reads back what was written there and nothing else |
| Images.Image.SetPixel | SimpleRasterizer/Core/Image.h:268-290 | exactly the texel at `x + y * width` changes, to the given value; `GetPixel` then reads it back and every other pixel reads as before |
| Images.NewExtensionImage | SimpleRasterizer/Core/Image.h:247-253 | fails with `ImageTypeError` exactly when the element type does not match the format; otherwise a fresh, owned, unbound, typed image of the descriptor's size |
| Images.NewMappedExtensionImage | SimpleRasterizer/Core/Image.h:255-261 | fails with `ImageTypeError` exactly when the element type does not match the format; otherwise an unbound image over the caller's texels |
| Clipping.ComputeClipCode | SimpleRasterizer/Core/Clipper.h:334-368 | the six-bit outcode: left, right, bottom, top, near, far in bit order 0 to 5, each bit set by the source's strict comparison; `ClipCodeBits` states what each bit means |
| Clipping.DistSign | SimpleRasterizer/Core/Clipper.h:334-368 | a point is outside a plane exactly when its signed distance to that plane is negative |
| Clipping.ClipCodeBits | SimpleRasterizer/Core/Clipper.h:334-368 | the code's bit for a plane is set exactly when the point is outside that plane; the code is zero exactly when the point is inside all six |
| Clipping.XorCombine | SimpleRasterizer/Core/Clipper.h:160 | the combined pairwise xor never has a bit that all three codes share or that none has; when the codes share no bit it equals their union |
| Clipping.Classify | SimpleRasterizer/Core/Clipper.h:146-158 | reject on a nonzero AND of the three codes, accept on a zero OR, otherwise straddling; `AcceptedIffFullyInside` and `RejectedLiesOutsideOnePlane` state what the outcomes mean |
| Clipping.AcceptedIffFullyInside | SimpleRasterizer/Core/Clipper.h:146-158 | a triangle is accepted unchanged exactly when all three vertices are inside all six planes |
| Clipping.RejectedLiesOutsideOnePlane | SimpleRasterizer/Core/Clipper.h:149-152 | a rejected triangle has all three vertices outside one common plane |
| Clipping.SolveT | SimpleRasterizer/Core/Clipper.h:167-320 | for an edge that crosses the plane, `t` is the distance ratio and lies in [0, 1] |
| Clipping.UnitFraction | SimpleRasterizer/Core/Clipper.h:176 | `d0 / (d0 - d1)` lies in [0, 1] when `d0` and `d1` have opposite signs |
| Clipping.DistLerp | SimpleRasterizer/Core/Clipper.h:404 | the signed distance of an interpolated point is the interpolation of the distances |
| Clipping.DistAdd | SimpleRasterizer/Core/Clipper.h:404 | the signed distance is additive |
| Clipping.DistScale | SimpleRasterizer/Core/Clipper.h:404 | the signed distance scales with the point |
| Clipping.SolvedPointOnPlane | SimpleRasterizer/Core/Clipper.h:403-405 | the point at the solved `t` lies on the plane, so snapping it to the plane does not move it |
| Clipping.CrossingOnPlane | SimpleRasterizer/Core/Clipper.h:403-404 | the point at `t = d0 / (d0 - d1)` has distance zero |
| Clipping.ProjectKeepsOnPlane | SimpleRasterizer/Core/Clipper.h:178-180 | snapping a point that is already on the plane leaves it unchanged |
| Clipping.AffineZero | SimpleRasterizer/Core/Clipper.h:176 | the distances blended at the solved `t` sum to zero |
| Clipping.LayoutInterp | SimpleRasterizer/Core/Clipper.h:105-121 | EXTENSION2 (the default branch) keeps the current interpolation function |
| Clipping.ClipLerp | SimpleRasterizer/Core/Clipper.h:75-94 | the new vertex takes the given position; the base function leaves both packs zero, EXTENSION0 leaves `pack1` zero; at `t = 0` and `t = 1` normal and uv are those of the two ends |
| Clipping.NewPoint | SimpleRasterizer/Core/Clipper.h:403-408 | the vertex made where an edge crosses the plane lies on the plane, hence not outside it |
| Clipping.EdgeEmit | SimpleRasterizer/Core/Clipper.h:397-424 | the points one edge contributes: the end point when both ends are inside, the crossing point and the end point when entering, the crossing point when leaving, nothing when both are outside; `EdgeEmitSize` and `EdgeEmitInside` state its size and that every point is inside |
| Clipping.Polygon | SimpleRasterizer/Core/Clipper.h:384-425 | the clipped polygon, the three edges' emissions in edge order; `PolygonSize` and `PolygonInside` state its size and that it lies inside the plane |
| Clipping.PolygonEdges | SimpleRasterizer/Core/Clipper.h:388-425 | the clipped polygon is the concatenation of what each of the three edges emits, in edge order |
| Clipping.EdgeEmitSize | SimpleRasterizer/Core/Clipper.h:397-424 | an edge emits two points when it goes from outside to inside, one when its end is inside or when it leaves the inside, none when both ends are outside |
| Clipping.EdgeEmitInside | SimpleRasterizer/Core/Clipper.h:397-424 | every point an edge emits is inside the plane |
| Clipping.PolygonSize | SimpleRasterizer/Core/Clipper.h:384-425 | a straddling triangle has one or two vertices outside and gives a polygon of four or three points |
| Clipping.PolygonInside | SimpleRasterizer/Core/Clipper.h:384-425 | every point of the clipped polygon is inside the plane |
| Clipping.Fan | SimpleRasterizer/Core/Clipper.h:427-438 | a polygon of `n >= 2` points gives `n - 2` triangles, each with the first point as its first vertex and its other vertices from the polygon |
| Clipping.ClipPlaneSpec | SimpleRasterizer/Core/Clipper.h:370-444 | what clipping one triangle against one plane appends: the fan of the polygon when the triangle straddles the plane, the triangle itself otherwise; `ClipPlaneCount` states the counts |
| Clipping.ClipPlaneCount | SimpleRasterizer/Core/Clipper.h:370-444 | a triangle not straddling the plane passes through unchanged; one vertex outside gives two triangles, two give one; every output vertex of a straddling triangle is inside the plane |
| Clipping.Partition | SimpleRasterizer/Core/Clipper.h:446-488 | the split `FilterTriangles` makes: rejected triangles dropped, accepted ones output, straddling ones kept, each in input order; `PartitionExact` states it |
| Clipping.PartitionExact | SimpleRasterizer/Core/Clipper.h:446-488 | the filter keeps exactly the accepted triangles and retains exactly the straddling ones; accepted, retained and rejected together count all inputs |
| Clipping.ClipFrom | SimpleRasterizer/Core/Clipper.h:167-320 | the plane-by-plane clipping of the working list from plane `k` on: a plane whose xor bit is clear is skipped, a flagged one clips every working triangle and then filters, and the leftovers after the far plane are discarded; `ClipFromAdvance`, `ClipFromPass` and `ClipFromAccepted` state its steps and that its output is accepted |
| Clipping.ClipTriangle | SimpleRasterizer/Core/Clipper.h:130-320 | one input triangle's output: nothing when rejected, itself when accepted, otherwise `ClipFrom` with the pairwise xor of its codes as the mask |
| Clipping.ClipAll | SimpleRasterizer/Core/Clipper.h:123-332 | the output of `Clip`: every input triangle's `ClipTriangle` in input order; `ClipAllInside`, `ClipAllKeepsAccepted` and `ClipIdempotent` state its properties |
| Clipping.ClipAllSnoc | SimpleRasterizer/Core/Clipper.h:128-321 | the output of `Clip` for a list extended by one triangle is the old output followed by that triangle's output |
| Clipping.ClipFromAdvance | SimpleRasterizer/Core/Clipper.h:167-320 | one plane step of the per-triangle loop either skips an unflagged plane or moves its accepted triangles to the output and continues with the retained ones, stopping when none are retained |
| Clipping.ClipFromPass | SimpleRasterizer/Core/Clipper.h:167-190 | the plane-by-plane clipping of a flagged plane unfolds to the accepted triangles followed by the clipping of the retained ones at the next plane |
| Clipping.ClipFromAccepted | SimpleRasterizer/Core/Clipper.h:167-320 | every triangle the plane-by-plane clipping outputs is accepted |
| Clipping.ClipAllInside | SimpleRasterizer/Core/Clipper.h:123-332 | every triangle `Clip` outputs lies entirely inside the clip volume |
| Clipping.ClipAllKeepsAccepted | SimpleRasterizer/Core/Clipper.h:154-158 | a list of triangles that are all inside the volume is returned unchanged |
| Clipping.ClipIdempotent | SimpleRasterizer/Core/Clipper.h:123-332 | clipping the output of `Clip` again changes nothing |
| Clipping.Clipper.constructor | SimpleRasterizer/Core/Clipper.h:99-102 | a new clipper uses the base interpolation function |
| Clipping.Clipper.SetFragmentLayout | SimpleRasterizer/Core/Clipper.h:105-121 | the interpolation function becomes the one the layout selects |
| Clipping.Clipper.ClipPlane | SimpleRasterizer/Core/Clipper.h:370-444 | appends the plane's output for one triangle: the triangle itself when it does not straddle, else the fan of the clipped polygon |
| Clipping.Clipper.ClipPoints | SimpleRasterizer/Core/Clipper.h:386-425 | the edge loop builds exactly the clipped polygon |
| Clipping.Clipper.FanOut | SimpleRasterizer/Core/Clipper.h:427-438 | the fan loop appends exactly the fan of the polygon |
| Clipping.Clipper.FilterTriangles | SimpleRasterizer/Core/Clipper.h:446-488 | appends the accepted triangles to the output, keeps the straddling ones as the new working list, and reports whether that list is empty |
| Clipping.Clipper.ClassifyTriangle | SimpleRasterizer/Core/Clipper.h:142-158 | the codes' and/or tests classify the triangle as rejected, accepted or straddling |
| Clipping.Clipper.ClipWorkingList | SimpleRasterizer/Core/Clipper.h:169-181 | one plane clips every triangle of the working list, outputs in order |
| Clipping.Clipper.ClipNextPlane | SimpleRasterizer/Core/Clipper.h:167-190 | a plane whose bit is not in the xor code changes nothing; a flagged plane clips the working list, filters, and reports completion when no straddling triangle is left |
| Clipping.Clipper.ClipStraddling | SimpleRasterizer/Core/Clipper.h:160-320 | the six plane steps append exactly the plane-by-plane clipping of the straddling triangle |
| Clipping.Clipper.ClipOne | SimpleRasterizer/Core/Clipper.h:130-320 | the loop body appends exactly `ClipTriangle` of the input triangle |
| Clipping.Clipper.ClipList | SimpleRasterizer/Core/Clipper.h:125-321 | the outer loop collects exactly `ClipAll` of the first `size` triangles |
| Clipping.Clipper.Clip | SimpleRasterizer/Core/Clipper.h:123-332 | the first `outSize` entries of the output array are `ClipAll` of the input; the input array is reused when large enough, else a fresh one is made |
| EdgeEquations.MakeEdge | SimpleRasterizer/Core/Rasterizer.h:46-52 | the edge equation of `p0p1` with coefficients `i`, `j`, `k` and its value at `p`; `EdgeIsCross` and `EdgeZeroAtEndpoints` state what the value means |
| EdgeEquations.EdgeIsCross | SimpleRasterizer/Core/Rasterizer.h:46-52 | the edge value is the cross product of the edge vector and the vector to the point |
| EdgeEquations.EdgeZeroAtEndpoints | SimpleRasterizer/Core/Rasterizer.h:46-52 | the edge value is zero at both ends of the edge |
| EdgeEquations.IncrementX | SimpleRasterizer/Core/Rasterizer.h:54-57 | the value after `incrementX(step)`; `IncrementXMatches` states that it is the value at the point moved by `step` in x |
| EdgeEquations.IncrementXMatches | SimpleRasterizer/Core/Rasterizer.h:54-57 | stepping by `s` along x gives the edge value at the point moved `s` to the right |
| EdgeEquations.IncrementY | SimpleRasterizer/Core/Rasterizer.h:59-62 | the value after `incrementY(step)`; `IncrementYMatches` states that it is the value at the point moved by `step` in y |
| EdgeEquations.IncrementYMatches | SimpleRasterizer/Core/Rasterizer.h:59-62 | stepping by `s` along y gives the edge value at the point moved `s` down |
| EdgeEquations.MakeSet | SimpleRasterizer/Core/Rasterizer.h:71-76 | the three edges of a triangle at `p`, each opposite one vertex; `AreaSum` states that their values sum to the triangle's area value |
| EdgeEquations.SetIncrementX | SimpleRasterizer/Core/Rasterizer.h:78-83 | the set after `incrementX(step)`; `SetStepX` states that it is the set built at the moved point |
| EdgeEquations.SetIncrementY | SimpleRasterizer/Core/Rasterizer.h:85-90 | the set after `incrementY(step)`; `SetStepY` states that it is the set built at the moved point |
| EdgeEquations.SetStepX | SimpleRasterizer/Core/Rasterizer.h:78-83 | stepping a set of three edges along x gives the set at the moved point |
| EdgeEquations.SetStepY | SimpleRasterizer/Core/Rasterizer.h:85-90 | stepping a set of three edges along y gives the set at the moved point |
| EdgeEquations.StepsCommute | SimpleRasterizer/Core/Rasterizer.h:78-90 | steps along x and y commute |
| EdgeEquations.StepXInverse | SimpleRasterizer/Core/Rasterizer.h:78-83 | a step along x followed by the opposite step restores the set |
| EdgeEquations.StepYInverse | SimpleRasterizer/Core/Rasterizer.h:85-90 | a step along y followed by the opposite step restores the set |
| EdgeEquations.AreaSum | SimpleRasterizer/Core/Rasterizer.h:71-76 | the three edge values at any point sum to the triangle's area value |
| EdgeEquations.AffineBetween | SimpleRasterizer/Core/Rasterizer.h:54-62 | a value affine in x that is non-negative at both ends of a range is non-negative inside it |
| EdgeEquations.EdgeRectangle | SimpleRasterizer/Core/Rasterizer.h:46-62 | an edge value non-negative at the four corners of a rectangle is non-negative at every point of it |
| EdgeEquations.Evaluate | SimpleRasterizer/Core/Rasterizer.h:92-95 | the inclusive coverage test: all three edge values non-negative; `CornersCoverRectangle` states that it carries from four corners to the whole rectangle |
| EdgeEquations.CornersCoverRectangle | SimpleRasterizer/Core/Rasterizer.h:92-95 | a rectangle whose four corners are covered by the triangle is covered everywhere |
| EdgeEquations.FasterLineSegmentIntersection | SimpleRasterizer/Core/Rasterizer.h:186-225 | the segment test branch for branch, including the dangling `else`; `FasterIntersectionIsCrossing` states that it is true exactly when the segments cross in the closed sense |
| EdgeEquations.FasterIntersectionIsCrossing | SimpleRasterizer/Core/Rasterizer.h:186-225 | the segment test returns true exactly when the denominator is non-zero and both numerators lie between zero and it |
| EdgeEquations.CrossingPointShared | SimpleRasterizer/Core/Rasterizer.h:186-225 | the two parameters the test computes name the same point on both segments (scaled by the denominator) |
| EdgeEquations.CrossIdentity | SimpleRasterizer/Core/Rasterizer.h:192-212 | the cross-product identity behind the shared crossing point |
| EdgeEquations.SegmentTriangleIntersection | SimpleRasterizer/Core/Rasterizer.h:228-238 | the segment test against the three edges `v0v1`, `v1v2`, `v2v0`; `SegmentTriangleCrossing` states its meaning |
| EdgeEquations.SegmentTriangleCrossing | SimpleRasterizer/Core/Rasterizer.h:228-238 | a segment meets the triangle's outline exactly when it crosses one of the three edges |
| EdgeEquations.BlockTriangleSegmentIntersection | SimpleRasterizer/Core/Rasterizer.h:241-256 | the test of the block's bottom, left, top and right sides against the triangle; `BlockOutlineCrossing` states its meaning |
| EdgeEquations.BlockOutlineCrossing | SimpleRasterizer/Core/Rasterizer.h:241-256 | the block test is true exactly when one of the rectangle's four sides crosses one of the triangle's three edges in the closed sense |
| EdgeEquations.PointInsideAABB | SimpleRasterizer/Core/Rasterizer.h:375-380 | the closed box test on all four sides; `SkippedBlockHasNoCornerOrVertex` uses it to state that a skipped block holds no vertex |
| Rasterization.DivideVertex | SimpleRasterizer/Core/Rasterizer.h:294-301 | with `w != 0` the position becomes `(x/w, y/w, z/w, 1)`; the other attributes stay |
| Rasterization.PerspectiveDivide | SimpleRasterizer/Core/Rasterizer.h:293-300 | each vertex divided as `DivideVertex` states; `DivideIdempotent` states that dividing twice changes nothing |
| Rasterization.DivideIdempotent | SimpleRasterizer/Core/Rasterizer.h:294-301 | dividing an already divided triangle changes nothing |
| Rasterization.NDCToRaster | SimpleRasterizer/Core/Rasterizer.h:407-413 | `NDCSpaceToRasterSpace`: x scaled from [-1, 1] to [0, width], y flipped, both truncated toward zero; `NDCToRasterRange` and `NDCCorners` state its range and corners |
| Rasterization.NDCToRasterRange | SimpleRasterizer/Core/Rasterizer.h:407-413 | points of the NDC square land in the raster rectangle `[0, width] x [0, height]` |
| Rasterization.TruncHalfScaled | SimpleRasterizer/Core/Rasterizer.h:410-411 | the truncated half-scaled coordinate lies in `[0, s]` |
| Rasterization.NDCCorners | SimpleRasterizer/Core/Rasterizer.h:407-413 | NDC `(-1, 1)` maps to pixel `(0, 0)` and `(1, -1)` to the truncated `(width, height)`: y is flipped |
| Rasterization.MakeSetup | SimpleRasterizer/Core/Rasterizer.h:293-306 | the divided triangle, the inverse depths `1 / w` and the three raster positions that the rest of `Rasterize` uses |
| Rasterization.BoundingBox | SimpleRasterizer/Core/Rasterizer.h:308-313 | the box of the raster vertices, clamped to the viewport's top-left and to `size - 1`, truncated; `BoundingBoxInViewport` states that a box surviving the emptiness test lies in the viewport |
| Rasterization.BoundingBoxInViewport | SimpleRasterizer/Core/Rasterizer.h:308-318 | a box that survives the emptiness test starts at non-negative pixels and ends within `width - 1`, `height - 1` and within the vertices' extent |
| Rasterization.AlignDown | SimpleRasterizer/Core/Rasterizer.h:320-326 | `x & ~15` on two's complement integers; `AlignDownBounds` states that it is the multiple of 16 at or just below `x` |
| Rasterization.AlignDownBounds | SimpleRasterizer/Core/Rasterizer.h:320-326 | masking with `~15` gives the multiple of 16 at or just below the value, non-negative for a non-negative value |
| Rasterization.WeightsSumToOne | SimpleRasterizer/Core/Rasterizer.h:112-129 | the perspective-correct weights sum to one |
| Rasterization.DepthIsBlend | SimpleRasterizer/Core/Rasterizer.h:116-119 | the interpolated depth is the weighted blend of the vertices' depths |
| Rasterization.ParamSumPositive | SimpleRasterizer/Core/Rasterizer.h:156-160 | positive inverse depths times non-negative, not all zero, edge values have a positive sum |
| Rasterization.CoveredPixelHasDepth | SimpleRasterizer/Core/Rasterizer.h:154-163 | a covered pixel of a front-facing triangle in front of the camera has a positive weight sum, so its depth is defined |
| Rasterization.RasterInterp | SimpleRasterizer/Core/Rasterizer.h:13-38 | the base function leaves both packs zero and EXTENSION0 leaves `pack1` zero |
| Rasterization.InterpAtVertex | SimpleRasterizer/Core/Rasterizer.h:13-38 | with weights (1, 0, 0) the blend reproduces every attribute the layout carries of the first vertex |
| Rasterization.ShadePixel | SimpleRasterizer/Core/Rasterizer.h:112-132 | one pixel: the coverage test on intersect blocks, then the strict depth test, then the depth write and the two appends; `ShadeGrows` states what it changes |
| Rasterization.SpanFrom | SimpleRasterizer/Core/Rasterizer.h:110-135 | the pixels of one row of a block in left-to-right order; the depth image keeps its size |
| Rasterization.BlockFrom | SimpleRasterizer/Core/Rasterizer.h:107-137 | the rows of a block in top-to-bottom order; the depth image keeps its size |
| Rasterization.BlockEnd | SimpleRasterizer/Core/Rasterizer.h:104-105 | corrected: the loop end is `b + 16`, clamped to the image size |
| Rasterization.ClassifyBlock | SimpleRasterizer/Core/Rasterizer.h:347-400 | a block is rendered without the coverage test exactly when its four corners are covered |
| Rasterization.PartlyCoveredBlock | SimpleRasterizer/Core/Rasterizer.h:356-371 | a block with a covered left-top corner and an uncovered right-top corner is rendered with the coverage test |
| Rasterization.SkippedBlockHasNoCornerOrVertex | SimpleRasterizer/Core/Rasterizer.h:371-397 | a skipped block has no covered corner and contains no vertex of the triangle |
| Rasterization.BlockStep | SimpleRasterizer/Core/Rasterizer.h:347-400 | one block rendered by the path its classification picks; the depth image keeps its size |
| Rasterization.RowOfBlocksFrom | SimpleRasterizer/Core/Rasterizer.h:345-401 | the blocks of one block row, left to right; the depth image keeps its size |
| Rasterization.BlocksFrom | SimpleRasterizer/Core/Rasterizer.h:342-403 | the block rows, top to bottom; the depth image keeps its size |
| Rasterization.Culled | SimpleRasterizer/Core/Rasterizer.h:315-335 | the triangle is dropped when its box is empty in x or y or its area value is not positive; `CulledTriangleDrawsNothing` states that such a triangle changes nothing |
| Rasterization.RasterizeSpec | SimpleRasterizer/Core/Rasterizer.h:291-404 | everything one `Rasterize` call does to the depth image and the two output lists; the depth image keeps its size |
| Rasterization.CulledTriangleDrawsNothing | SimpleRasterizer/Core/Rasterizer.h:315-335 | a triangle with an empty box or a non-positive area value changes nothing |
| Rasterization.ShadeGrows | SimpleRasterizer/Core/Rasterizer.h:112-132 | one pixel keeps `Grows`; it either changes nothing, or writes a strictly nearer depth at its own storage index and nowhere else and appends exactly one fragment and the pixel `p` itself |
| Rasterization.InsideBlockPixelCovered | SimpleRasterizer/Core/Rasterizer.h:363-368 | every pixel of a block whose four corners are covered is covered |
| Rasterization.GrowsTrans | SimpleRasterizer/Core/Rasterizer.h:98-183 | the traversal invariant composes: two stretches that each keep it keep it together, including the tie of every changed depth to an appended pixel |
| Rasterization.SpanGrows | SimpleRasterizer/Core/Rasterizer.h:110-135 | a row span keeps the traversal invariant |
| Rasterization.BlockGrows | SimpleRasterizer/Core/Rasterizer.h:107-137 | a block keeps the traversal invariant, also on the path without the coverage test |
| Rasterization.BlockStepGrows | SimpleRasterizer/Core/Rasterizer.h:347-400 | a classified block keeps the traversal invariant |
| Rasterization.RowOfBlocksGrows | SimpleRasterizer/Core/Rasterizer.h:345-401 | a block row keeps the traversal invariant |
| Rasterization.BlocksGrows | SimpleRasterizer/Core/Rasterizer.h:342-403 | all block rows keep the traversal invariant |
| Rasterization.RasterizeGrows | SimpleRasterizer/Core/Rasterizer.h:291-404 | one `Rasterize` call never raises a stored depth, only extends the fragment and index vectors and keeps them in step, emits only covered pixels of the image, and changes only the depths of pixels it emits |
| Rasterization.InsideSpanNeedsNoTest | SimpleRasterizer/Core/Rasterizer.h:98-183 | on a row of a block with four covered corners, rendering without the coverage test equals rendering with it |
| Rasterization.InsideBlockNeedsNoTest | SimpleRasterizer/Core/Rasterizer.h:98-183 | on a block with four covered corners, the inside path equals the intersect path |
| Rasterization.CornerSets | SimpleRasterizer/Core/Rasterizer.h:347-354 | the corner sets obtained by stepping `temp` are the edge sets at the four corners of the block |
| Rasterization.ShadeAt | SimpleRasterizer/Core/Rasterizer.h:112-132 | the per-pixel body updates the depth image and the two lists exactly as `ShadePixel` prescribes |
| Rasterization.RenderSpan | SimpleRasterizer/Core/Rasterizer.h:109-135 | the inner x loop produces exactly `SpanFrom` |
| Rasterization.RenderBlock | SimpleRasterizer/Core/Rasterizer.h:98-183 | `RenderInsideBlock` and `RenderIntersectBlock` produce exactly `BlockFrom` over the block, clamped to the image |
| Rasterization.ClassifyCorners | SimpleRasterizer/Core/Rasterizer.h:347-397 | the classification the block loop computes is `ClassifyBlock` |
| Rasterization.RasterizeBlock | SimpleRasterizer/Core/Rasterizer.h:347-400 | the block loop body produces exactly `BlockStep` |
| Rasterization.RasterizeBlockRow | SimpleRasterizer/Core/Rasterizer.h:344-401 | the inner block loop produces exactly `RowOfBlocksFrom` |
| Rasterization.RasterizeBlockRows | SimpleRasterizer/Core/Rasterizer.h:339-403 | the outer block loop produces exactly `BlocksFrom` |
| Rasterization.Rasterizer.constructor | SimpleRasterizer/Core/Rasterizer.h:262-265 | a new rasterizer uses the base interpolation function |
| Rasterization.Rasterizer.SetViewport | SimpleRasterizer/Core/Rasterizer.h:268-271 | the viewport becomes the given one; the interpolation function stays |
| Rasterization.Rasterizer.SetFragmentLayout | SimpleRasterizer/Core/Rasterizer.h:273-289 | the interpolation function becomes the one the layout selects (EXTENSION2 keeps it); the viewport stays |
| Rasterization.Rasterizer.Rasterize | SimpleRasterizer/Core/Rasterizer.h:291-404 | the caller's triangle is left divided by `w`, and the depth image and the two lists become exactly `RasterizeSpec` of the old ones |
| RenderInterface.CreateImage | SimpleRasterizer/Core/RenderInterface.cpp:89-113 | null exactly for a format outside the five; otherwise a fresh, owned, unbound image of the descriptor's format and size, holding texels of that format |
| RenderInterface.CreateBuffer | SimpleRasterizer/Core/RenderInterface.cpp:115-119 | a fresh, valid buffer with the copied descriptor and a copy of the caller's count times stride bytes (built by the corrected constructor) |
| RenderInterface.ToByte | SimpleRasterizer/Core/RenderInterface.h:101 | a value in [0, 256) becomes its truncation |
| RenderInterface.ColourChannel | SimpleRasterizer/Core/RenderInterface.h:101 | a channel in [0, 1] scaled by 255 becomes the byte just below it, and 1 becomes 255 |
| RenderInterface.OutputTexel | SimpleRasterizer/Core/RenderInterface.h:84-105 | a known format receives a texel of its own element type; any other format receives nothing |
| RenderInterface.TargetPixel | SimpleRasterizer/Core/RenderInterface.h:86-102 | a pixel of the image stays in the image and keeps its column (the byte format flips the row) |
| RenderInterface.TargetPixelInjective | SimpleRasterizer/Core/RenderInterface.h:86-102 | distinct fragment positions land on distinct pixels of a target |
| RenderInterface.WriteTarget | SimpleRasterizer/Core/RenderInterface.h:81-105 | writing one output keeps the target's size |
| RenderInterface.WriteTargetOnePixel | SimpleRasterizer/Core/RenderInterface.h:81-105 | a target of a known format receives the converted output at its target pixel; every other pixel keeps its texel |
| RenderInterface.WriteTargetKeepsTyped | SimpleRasterizer/Core/RenderInterface.h:81-105 | a target whose texels all match its format still does after the write |
| RenderInterface.WriteOutputs | SimpleRasterizer/Core/RenderInterface.h:77-108 | writing one fragment's outputs to all targets keeps every target's size |
| RenderInterface.ShadeFrom | SimpleRasterizer/Core/RenderInterface.cpp:298-303 | shading the fragments from `j` on keeps every target's size |
| RenderInterface.ShadeKeepsTyped | SimpleRasterizer/Core/RenderInterface.cpp:298-303 | shading keeps every target's texels of its own format |
| RenderInterface.DrawTriangle | SimpleRasterizer/Core/RenderInterface.cpp:285-309 | drawing one triangle keeps the sizes of the depth image and the targets |
| RenderInterface.DrawFrom | SimpleRasterizer/Core/RenderInterface.cpp:283-310 | drawing the triangles from `i` on keeps the sizes of the depth image and the targets |
| RenderInterface.DrawFromStep | SimpleRasterizer/Core/RenderInterface.cpp:283-310 | drawing from `i` is drawing triangle `i` and then drawing from `i + 1` |
| RenderInterface.CulledTriangleWritesNothing | SimpleRasterizer/Core/RenderInterface.cpp:285-303 | a culled triangle leaves the depth image and every target unchanged |
| RenderInterface.DrawFromMonotone | SimpleRasterizer/Core/RenderInterface.cpp:283-310 | drawing never raises a stored depth and keeps the targets' texels of their own format |
| RenderInterface.NotDeeperTrans | SimpleRasterizer/Core/Rasterizer.h:121-123 | "not deeper" is transitive |
| RenderInterface.Assemble | SimpleRasterizer/Core/RenderInterface.cpp:265-274 | the triangle list has one triangle per whole triple of indices |
| RenderInterface.AssembleAt | SimpleRasterizer/Core/RenderInterface.cpp:268-274 | triangle `i` is made of the shaded vertices at indices `3i`, `3i + 1`, `3i + 2` |
| RenderInterface.TrailingIndicesIgnored | SimpleRasterizer/Core/RenderInterface.cpp:265 | up to two indices after the last whole triple add no triangle |
| RenderInterface.DrawSpec | SimpleRasterizer/Core/RenderInterface.cpp:243-313 | the whole pipeline keeps the sizes of the depth image and the targets |
| RenderInterface.DrawSpecUnfold | SimpleRasterizer/Core/RenderInterface.cpp:250-310 | the pipeline is drawing, in order, the clipped triangles assembled from the shaded vertices |
| RenderInterface.NoTriangleDrawsNothing | SimpleRasterizer/Core/RenderInterface.cpp:265-310 | fewer than three indices change nothing |
| RenderInterface.DrawMonotone | SimpleRasterizer/Core/RenderInterface.cpp:243-313 | a draw never raises a stored depth and keeps every target's texels of its own format |
| RenderInterface.Flags | SimpleRasterizer/Core/RenderInterface.cpp:162-180 | one bind flag per image |
| RenderInterface.FirstConflict | SimpleRasterizer/Core/RenderInterface.cpp:165-179 | every image before the first conflict can be bound in the role, and the one at the conflict cannot |
| RenderInterface.FirstConflictAt | SimpleRasterizer/Core/RenderInterface.cpp:165-179 | the first conflict is the only index with that property |
| RenderInterface.Slotted | SimpleRasterizer/Core/RenderInterface.cpp:167 | slot `i` holds image `i` |
| RenderInterface.FillAndBind | SimpleRasterizer/Core/RenderInterface.cpp:165-179 | slots up to and including the first conflict are filled; the images before it are bound; the conflict's error is returned, else success |
| RenderInterface.UnbindAll | SimpleRasterizer/Core/RenderInterface.cpp:209-227 | the first `n` images are unbound and their slots emptied; the rest stay |
| RenderInterface.ShadeVertices | SimpleRasterizer/Core/RenderInterface.cpp:250-263 | the vertex shader applied to every decoded vertex, in order; `ShadeVertexBuffer` states that the loop computes it |
| RenderInterface.ShadeVertexBuffer | SimpleRasterizer/Core/RenderInterface.cpp:250-263 | the processed vertices are the vertex shader applied to each decoded vertex |
| RenderInterface.ReadTriangle | SimpleRasterizer/Core/RenderInterface.cpp:270-273 | one loop step reads triangle `i` of the assembly |
| RenderInterface.AssembleTriangles | SimpleRasterizer/Core/RenderInterface.cpp:265-274 | the triangle array is exactly `Assemble` of the processed vertices and the decoded indices |
| RenderInterface.PrepareTriangles | SimpleRasterizer/Core/RenderInterface.cpp:250-278 | after shading, assembly and `Clip`, the first `n` triangles are `ClipAll` of the assembled list |
| RenderInterface.WritePixel | SimpleRasterizer/Core/RenderInterface.h:84-105 | the target's texels become `WriteTarget` of the old ones |
| RenderInterface.FillSlot | SimpleRasterizer/Core/RenderInterface.cpp:167 | filling slot `i` extends the filled prefix by one |
| RenderInterface.Descs | SimpleRasterizer/Core/RenderInterface.h:114 | one descriptor per bound target |
| RenderInterface.Contents | SimpleRasterizer/Core/RenderInterface.h:114 | one texel sequence per bound target |
| RenderInterface.Surface | SimpleRasterizer/Core/RenderInterface.h:114-115 | the depth buffer and the targets fit the sizes the pipeline writes |
| RenderInterface.ContentsFit | SimpleRasterizer/Core/RenderInterface.h:114 | distinct targets at least as large as the depth buffer hold every pixel the pipeline writes |
| RenderInterface.Decoded | SimpleRasterizer/Core/RenderInterface.cpp:250-251 | decoding gives one record per element |
| RenderInterface.DecodedAt | SimpleRasterizer/Core/RenderInterface.cpp:250-251 | record `k` is the decoding of element `k`'s bytes |
| RenderInterface.Context3D.constructor | SimpleRasterizer/Core/RenderInterface.cpp:122-126 | a fresh clipper and rasterizer, no buffers, shaders or depth buffer, empty slots |
| RenderInterface.Context3D.BoundTargets | SimpleRasterizer/Core/RenderInterface.h:114 | the first `rtvNum` slots' images, in order |
| RenderInterface.Context3D.WriteOutputToRenderTarget | SimpleRasterizer/Core/RenderInterface.h:77-108 | the bound targets become `WriteOutputs` of their old contents |
| RenderInterface.Context3D.ShadeFragments | SimpleRasterizer/Core/RenderInterface.cpp:298-303 | the bound targets become `ShadeFrom` of their old contents |
| RenderInterface.Context3D.DrawOne | SimpleRasterizer/Core/RenderInterface.cpp:285-309 | triangle `i` is left divided by `w`, and the depth buffer and targets become `DrawTriangle` of the old ones |
| RenderInterface.Context3D.DrawTriangles | SimpleRasterizer/Core/RenderInterface.cpp:283-310 | the depth buffer and targets become `DrawFrom` of the old ones over the first `n` triangles |
| RenderInterface.Context3D.Draw | SimpleRasterizer/Core/RenderInterface.cpp:243-313 | a missing vertex or index buffer fails with `MissingBuffer`; otherwise the depth buffer and targets become exactly `DrawSpec` of the old ones |
| RenderInterface.Context3D.GetViewport | SimpleRasterizer/Core/RenderInterface.cpp:140-143 | the stored viewport; `SetViewport`'s contract states that it is the one last set |
| RenderInterface.Context3D.SetViewport | SimpleRasterizer/Core/RenderInterface.cpp:134-138 | the context's and the rasterizer's viewport become the given one |
| RenderInterface.Context3D.SetFragmentLayout | SimpleRasterizer/Core/RenderInterface.cpp:145-150 | the layout is stored and clipper and rasterizer switch to the same interpolation function |
| RenderInterface.Context3D.SetVertexBuffer | SimpleRasterizer/Core/RenderInterface.cpp:152-155 | the vertex buffer becomes the given one |
| RenderInterface.Context3D.SetIndexBuffer | SimpleRasterizer/Core/RenderInterface.cpp:157-160 | the index buffer becomes the given one |
| RenderInterface.Context3D.SetVertexShader | SimpleRasterizer/Core/RenderInterface.cpp:194-197 | the vertex shader becomes the given one |
| RenderInterface.Context3D.SetFragmentShader | SimpleRasterizer/Core/RenderInterface.cpp:199-202 | the fragment shader becomes the given one |
| RenderInterface.Context3D.SetRenderTargets | SimpleRasterizer/Core/RenderInterface.cpp:162-170 | the count is set first; targets are slotted and bound in order until one is already a shader resource, which is slotted and fails with `AlreadyBoundAsShaderResource` |
| RenderInterface.Context3D.SetShaderResources | SimpleRasterizer/Core/RenderInterface.cpp:172-180 | the count is set first; resources are slotted and bound in order until one is already a render target, which is slotted and fails with `AlreadyBoundAsRenderTarget` |
| RenderInterface.Context3D.GetShaderResource | SimpleRasterizer/Core/RenderInterface.cpp:204-207 | the image in shader-resource slot `i`, or none when the slot is empty |
| RenderInterface.Context3D.SetDepthBuffer | SimpleRasterizer/Core/RenderInterface.cpp:182-192 | an image that is not R32_FLOAT fails with `DepthBufferTypeError` and changes nothing; otherwise it becomes the depth buffer, is cleared to 255 and bound as a render target |
| RenderInterface.Context3D.UnbindShaderResources | SimpleRasterizer/Core/RenderInterface.cpp:209-217 | the first `srvNum` resources are unbound, their slots emptied, and the count reset |
| RenderInterface.Context3D.UnbindRenderTargets | SimpleRasterizer/Core/RenderInterface.cpp:219-227 | the first `rtvNum` targets are unbound, their slots emptied, and the count reset |
| RenderInterface.Context3D.UnbindDepthBuffer | SimpleRasterizer/Core/RenderInterface.cpp:229-233 | the depth image is unbound and the context holds none |
| RenderInterface.Context3D.ClearDepthBuffer | SimpleRasterizer/Core/RenderInterface.cpp:235-241 | a present depth buffer is cleared to 255; without one nothing happens |
| TraversalFinding.OverrunSetupComputed | SimpleRasterizer/Core/Rasterizer.h:294-306 | the triangle with NDC corners (-1, 1), (1, 1), (-1, -1) in a 600 by 600 viewport has raster vertices (0, 0), (600, 0), (0, 600) |
| TraversalFinding.CornerToRaster | SimpleRasterizer/Core/Rasterizer.h:407-413 | the NDC corners map to the raster corners of a 600 by 600 viewport |
| TraversalFinding.OverrunNotCulled | SimpleRasterizer/Core/Rasterizer.h:308-335 | that triangle's box is (0, 0)-(599, 599), it is not culled, and its last block column starts at 592 |
| TraversalFinding.OverrunBlock | SimpleRasterizer/Core/Rasterizer.h:347-400 | the block at (592, 0) is rendered with the coverage test |
| TraversalFinding.OverrunLoopBound | SimpleRasterizer/Core/Rasterizer.h:146-152 | as written, that block's column loop runs to 608, past the image width 600, where the corrected bound stops at 600 |
| TraversalFinding.OverrunPixelCovered | SimpleRasterizer/Core/Rasterizer.h:154 | pixel (600, 0), outside the image, passes the coverage test |
| TraversalFinding.OverrunIndex | SimpleRasterizer/Core/Image.h:292-302 | pixel (600, 0) has the storage index of pixel (0, 1) |
| TraversalFinding.OverrunLastRowBlock | SimpleRasterizer/Core/Rasterizer.h:347-400 | block (0, 592), the first of the last block row, takes the intersect path |
| TraversalFinding.OverrunPastStorage | SimpleRasterizer/Core/Rasterizer.h:146-154 | the as-written row loop of that block reaches row 600, outside the image, where pixel (0, 600) passes the coverage test |

## Left out

- Floating point: every `float` is a real. Rounding, infinities and NaN are not modelled. `1 / w` with `w = 0` is taken as 0 (`Rasterization.Recip`).
- A pixel whose weights sum to zero fails the depth test in the model. The source divides by zero there.
- The shaders are pure functions stored in the context. A fragment shader that writes fewer outputs than there are render targets leaves the rest indeterminate in the source; the model reads them as zero.
- Buffers hold bytes. Reading them as `Vertex` records and `size_t` indices is a `static_cast` of raw memory, which the model replaces by the decoding functions given to `Draw`. The record layout, and whether the stride matches it, are not modelled.
- The `PARALL` variants (`concurrency::parallel_for`) of `Clear`, the vertex loop and the fragment loop are not modelled; only the sequential loops are.
- `SwapChain` and the Win32 calls are not part of this model. `ImageHelper.h` and the `MathHelper` directory are not part of this model either; the vector operations the core uses are redefined in `Vectors`.
- Memory management is not modelled: `new`/`delete`, `delete` versus `delete[]`, reference counting, and destructors. Images and buffers are Dafny objects.
- `Context3D` leaves `m_srv_num`, `m_rtv_num`, `m_layout` and `m_viewport` uninitialised; the model starts them at zero, `BASE` and the zero viewport.
- Fixed-width integers are unbounded: `size_t` and `int` overflow are not modelled. `static_cast<uint8_t>` of a value outside [0, 256) is modelled as truncation kept modulo 256 (`RenderInterface.ToByte`); C++ leaves it undefined.
- The assignment operators of `ImageDesc` and `BufferDesc` have no `return` statement. This is undefined behaviour in C++, and it is not modelled.
- `Images.Image.SetPixel`, `Images.Image.GetPixel`: the `DEBUG` range checks are compiled out in the source. The model requires the pixel to be in range instead.
- `Buffers.Buffer.SetRawData`: requires the caller's data to hold at least the recorded byte size. `memcpy` relies on this.
- `Buffers.Buffer.constructor`, `Buffers.Buffer.Sized`, `RenderInterface.CreateBuffer`: require the caller's data to be present and to hold the bytes copied, which `memcpy` relies on. Null data is not modelled.
- `RenderInterface.Context3D.SetRenderTargets`, `RenderInterface.Context3D.SetShaderResources`: require `n <= 5`. The source writes past its five slots otherwise.
- `RenderInterface.Context3D.UnbindShaderResources`, `RenderInterface.Context3D.UnbindRenderTargets`, `RenderInterface.Context3D.UnbindDepthBuffer`: require the slots they unbind to be filled. The source dereferences null otherwise.
- `RenderInterface.Context3D.Draw`: beyond the buffer check the source performs, this requires what the source relies on without checking:
  - both shaders and the depth buffer are set;
  - every index is below the vertex count;
  - the bound render targets are distinct objects (no aliasing), distinct from the depth buffer, and at least as large as it;
  - the viewport's top-left corner is non-negative.
- `RenderInterface.Context3D.Draw`: the source rasterizes in the viewport's size but writes the depth buffer and the targets at those pixels. The model clips every write to the depth image's size (`Rasterization.BlockEnd` and `Rasterization.InImage`), so a viewport larger than the depth buffer writes nothing outside it.
- `Rasterization.BoundingBox` follows the source in clamping the box above by `width - 1` and `height - 1`, not by `top_left + width - 1`. A viewport whose top-left corner is not at the origin is therefore not handled the way its name suggests, and the model does not correct this.
- The parameter `pArea` of `RenderInsideBlock` and `RenderIntersectBlock` is unused in the source and is dropped.
- `Clipping.Clipper.Clip` returns the array it writes (the reused input or a fresh one) in place of updating the caller's array variable. Freeing the old array is not modelled.

## Findings

| source | as written | input that shows it | evidently intended | confidence | as-written member | corrected member |
|---|---|---|---|---|---|---|
| SimpleRasterizer/Core/Rasterizer.h:104-110 | the pixel loops of a block run to `pX + 16` and `pY + 16`, unclamped; the bounding box's last block column starts at `box_max & ~15`, so when the width is not a multiple of 16 the last block reaches past the image | a 600 by 600 viewport and depth buffer (the demo window's size) and the triangle with NDC vertices (-1, 1), (1, 1), (-1, -1): block (592, 0) is rendered with the coverage test, pixel (600, 0) is covered, and its depth read lands on pixel (0, 1); in the last block row, block (0, 592) takes the same path and the read of the covered pixel (0, 600) lands past the storage | the loops stop at the image's edge | not executed | TraversalFinding.OverrunLoopBound | Rasterization.BlockEnd |
| SimpleRasterizer/Core/Buffer.h:9-47 | the constructor allocates and copies `pDesc.m_buffer_size` bytes, while the stored descriptor recomputes the size as count times stride; `SetRawData` and `GetRawData` then copy that recomputed size | a descriptor with 2 elements of stride 4 and `m_buffer_size` 4: the buffer stores 4 bytes and records 8, so `SetRawData(p, 8)` passes the size check and writes 8 bytes into 4 | storage sized by the recorded byte size | not executed | Buffers.OversizedBuffer | Buffers.Buffer.Sized |
