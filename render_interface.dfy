/**
 * The draw context (Core/RenderInterface.h, Core/RenderInterface.cpp without
 * the swap chain): the device's image and buffer factories, the context's
 * five render-target and five shader-resource slots with their bind and
 * unbind loops, the depth buffer, the per-fragment write into the render
 * targets, and `Draw`, which shades the vertices, assembles triangles from
 * the index buffer, clips them and rasterizes them one by one.
 *
 * The shaders are functions stored in the context; the reinterpretation of a
 * buffer's bytes as vertex records and as indices is given to `Draw` as two
 * decoding functions.
 */
module RenderInterface {
  import opened Wrappers
  import opened Vectors
  import opened Images
  import opened Buffers
  import opened Clipping
  import opened Rasterization

  /** `m_shader_resources[5]`, `m_render_targets[5]`. */
  const Slots: nat := 5

  // --------------------------------------------------------------- device

  /**
   * `Device3D::CreateImage`: an image whose element type is the one its
   * format names, or null (`None`) for a format outside the five.
   */
  method CreateImage(desc: ImageDesc) returns (r: Option<Image>)
    ensures r.None? <==> !desc.format.Known()
    ensures r.Some? ==> fresh(r.value) && fresh(r.value.data) && r.value.flag == Unbound && r.value.owned
    ensures r.Some? ==> r.value.format == desc.format && r.value.width == desc.width && r.value.height == desc.height
    ensures r.Some? ==> r.value.Valid() && r.value.Typed()
  {
    var made: Result<Image, Error>;
    match desc.format {
      case R8G8B8A8Uint => made := NewExtensionImage(Vec4u8Type, desc);
      case R32Float => made := NewExtensionImage(FloatType, desc);
      case R32G32Float => made := NewExtensionImage(Vec2fType, desc);
      case R32G32B32Float => made := NewExtensionImage(Vec3fType, desc);
      case R32G32B32A32Float => made := NewExtensionImage(Vec4fType, desc);
      case UnknownFormat(_) => return None;
    }
    r := Some(made.value);
  }

  /**
   * `Device3D::CreateBuffer`: a buffer holding a copy of the descriptor's
   * bytes, built by the corrected constructor so that its storage matches
   * the byte size it records (see `Buffers.BufferSizeMismatch`).
   */
  method CreateBuffer(desc: BufferDesc) returns (b: Buffer)
    requires desc.data.Some? && desc.numOfElement * desc.stride <= |desc.data.value|
    ensures fresh(b) && fresh(b.data) && b.desc == CopyBufferDesc(desc) && b.Valid()
    ensures b.data[..] == desc.data.value[..desc.numOfElement * desc.stride]
  {
    b := new Buffer.Sized(desc);
  }

  // ------------------------------------------------ writing one fragment

  /** `static_cast<uint8_t>` of a float: truncation toward zero, kept modulo 256. */
  function ToByte(v: real): (b: byte)
    ensures 0.0 <= v < 256.0 ==> b as int == Trunc(v)
  {
    (Trunc(v) % 256) as byte
  }

  /** A colour channel in [0, 1] scaled by 255 lands on the byte just below it (255 exactly for 1). */
  lemma ColourChannel(c: real)
    requires 0.0 <= c <= 1.0
    ensures ToByte(c * 255.0) as real <= c * 255.0 < ToByte(c * 255.0) as real + 1.0
    ensures c == 1.0 ==> ToByte(c * 255.0) == 255
  {
    assert 0.0 <= c * 255.0 <= 255.0;
  }

  /**
   * The texel a render target of format `f` receives from the shader output
   * `out`: the float formats take a prefix of its components; the byte format
   * takes blue, green and red scaled to bytes and an alpha of 1.
   */
  function OutputTexel(f: ImageFormat, out: Vec4): (t: Option<Texel>)
    ensures t.Some? <==> f.Known()
    ensures t.Some? ==> TypeCheck(ElementOf(t.value), f)
  {
    match f
    case R32Float => Some(F1(out.x))
    case R32G32Float => Some(F2(Vec2(out.x, out.y)))
    case R32G32B32Float => Some(F3(Vec3(out.x, out.y, out.z)))
    case R32G32B32A32Float => Some(F4(out))
    case R8G8B8A8Uint => Some(B4(Vec4B(ToByte(out.z * 255.0), ToByte(out.y * 255.0), ToByte(out.x * 255.0), 1)))
    case UnknownFormat(_) => None
  }

  /** The pixel of a target that fragment position `p` is written to: the byte format stores rows bottom-up. */
  function TargetPixel(d: ImageDesc, p: Vec2I): (q: Vec2I)
    ensures InImage(p, d.width, d.height) ==> InImage(q, d.width, d.height)
    ensures q.x == p.x
  {
    if d.format == R8G8B8A8Uint then Vec2I(p.x, d.height - 1 - p.y) else p
  }

  /** Distinct fragment positions land on distinct pixels of a target. */
  lemma TargetPixelInjective(d: ImageDesc, p: Vec2I, p': Vec2I)
    ensures TargetPixel(d, p) == TargetPixel(d, p') <==> p == p'
  {
  }

  /** `SetPixel` of the converted output on one target; a target of another format is left as it is. */
  function WriteTarget(data: seq<Texel>, d: ImageDesc, out: Vec4, p: Vec2I): (r: seq<Texel>)
    requires |data| == d.width * d.height && InImage(p, d.width, d.height)
    ensures |r| == |data|
  {
    match OutputTexel(d.format, out)
    case None => data
    case Some(t) =>
      var q := TargetPixel(d, p);
      data[PixelIndex(q.x, q.y, d.width, d.height) := t]
  }

  /** A write changes only the target pixel of `p`, which receives the converted output. */
  lemma WriteTargetOnePixel(data: seq<Texel>, d: ImageDesc, out: Vec4, p: Vec2I)
    requires |data| == d.width * d.height && InImage(p, d.width, d.height)
    ensures d.format.Known() ==>
      var q := TargetPixel(d, p);
      WriteTarget(data, d, out, p)[PixelIndex(q.x, q.y, d.width, d.height)] == OutputTexel(d.format, out).value
    ensures forall x: nat, y: nat | x < d.width && y < d.height && Vec2I(x, y) != TargetPixel(d, p) ::
      WriteTarget(data, d, out, p)[PixelIndex(x, y, d.width, d.height)] == data[PixelIndex(x, y, d.width, d.height)]
  {
    var q := TargetPixel(d, p);
    forall x: nat, y: nat | x < d.width && y < d.height && Vec2I(x, y) != q
      ensures WriteTarget(data, d, out, p)[PixelIndex(x, y, d.width, d.height)] == data[PixelIndex(x, y, d.width, d.height)]
    {
      PixelIndexInjective(x, y, q.x, q.y, d.width, d.height);
    }
  }

  /** Texels of the target's element type stay so after a write. */
  lemma WriteTargetKeepsTyped(data: seq<Texel>, d: ImageDesc, out: Vec4, p: Vec2I)
    requires |data| == d.width * d.height && InImage(p, d.width, d.height)
    requires forall i | 0 <= i < |data| :: TypeCheck(ElementOf(data[i]), d.format)
    ensures var r := WriteTarget(data, d, out, p);
            forall i | 0 <= i < |r| :: TypeCheck(ElementOf(r[i]), d.format)
  {
  }

  /** `pOut[i]`; a slot the fragment shader leaves unwritten reads as zero. */
  function OutputAt(outs: seq<Vec4>, i: nat): Vec4
  {
    if i < |outs| then outs[i] else Zero4
  }

  /** The contents of the targets match their descriptions, each at least `w` by `h`. */
  predicate Fits(targets: seq<seq<Texel>>, descs: seq<ImageDesc>, w: nat, h: nat)
  {
    |targets| == |descs| &&
    forall i | 0 <= i < |targets| ::
      |targets[i]| == descs[i].width * descs[i].height && w <= descs[i].width && h <= descs[i].height
  }

  /** `WriteOutputToRenderTarget(pOut, pIndex)`: target `i` receives `pOut[i]` at `pIndex`. */
  function WriteOutputs(targets: seq<seq<Texel>>, descs: seq<ImageDesc>, w: nat, h: nat, outs: seq<Vec4>, p: Vec2I)
    : (r: seq<seq<Texel>>)
    requires Fits(targets, descs, w, h) && InImage(p, w, h)
    ensures Fits(r, descs, w, h)
  {
    seq(|targets|, i requires 0 <= i < |targets| => WriteTarget(targets[i], descs[i], OutputAt(outs, i), p))
  }

  /** The fragment loop of one triangle: fragment `j`'s outputs are written at `idx[j]`, in order. */
  function ShadeFrom(fs: Fragment -> seq<Vec4>, descs: seq<ImageDesc>, w: nat, h: nat,
                     frags: seq<Fragment>, idx: seq<Vec2I>, j: nat, targets: seq<seq<Texel>>): (r: seq<seq<Texel>>)
    requires |frags| == |idx| && j <= |idx| && Fits(targets, descs, w, h)
    requires forall k | j <= k < |idx| :: InImage(idx[k], w, h)
    ensures Fits(r, descs, w, h)
    decreases |idx| - j
  {
    if j == |idx| then targets
    else ShadeFrom(fs, descs, w, h, frags, idx, j + 1, WriteOutputs(targets, descs, w, h, fs(frags[j]), idx[j]))
  }

  // ------------------------------------------------------------ drawing

  /** The depth image and the render targets' contents. */
  datatype Surfaces = Surfaces(depth: seq<Texel>, targets: seq<seq<Texel>>)

  predicate SurfacesFit(s: Surfaces, descs: seq<ImageDesc>, w: nat, h: nat)
  {
    |s.depth| == w * h && Fits(s.targets, descs, w, h)
  }

  /** One iteration of the triangle loop: rasterize into empty vectors, then shade and write every fragment. */
  function DrawTriangle(vp: Viewport, interp: Interp, fs: Fragment -> seq<Vec4>, descs: seq<ImageDesc>,
                        w: nat, h: nat, tri: Triangle, s: Surfaces): (r: Surfaces)
    requires 0.0 <= vp.topLeftX && 0.0 <= vp.topLeftY && SurfacesFit(s, descs, w, h)
    ensures SurfacesFit(r, descs, w, h)
  {
    var o := RasterizeSpec(vp, interp, tri, w, h, Output(s.depth, [], []));
    RasterizeGrows(vp, interp, tri, w, h, Output(s.depth, [], []));
    Surfaces(o.depth, ShadeFrom(fs, descs, w, h, o.fragments, o.indexes, 0, s.targets))
  }

  /** The triangle loop from triangle `i` on. */
  function DrawFrom(vp: Viewport, interp: Interp, fs: Fragment -> seq<Vec4>, descs: seq<ImageDesc>,
                    w: nat, h: nat, tris: seq<Triangle>, i: nat, s: Surfaces): (r: Surfaces)
    requires 0.0 <= vp.topLeftX && 0.0 <= vp.topLeftY && SurfacesFit(s, descs, w, h) && i <= |tris|
    ensures SurfacesFit(r, descs, w, h)
    decreases |tris| - i
  {
    if i == |tris| then s
    else DrawFrom(vp, interp, fs, descs, w, h, tris, i + 1, DrawTriangle(vp, interp, fs, descs, w, h, tris[i], s))
  }

  lemma DrawFromStep(vp: Viewport, interp: Interp, fs: Fragment -> seq<Vec4>, descs: seq<ImageDesc>,
                     w: nat, h: nat, tris: seq<Triangle>, i: nat, s: Surfaces)
    requires 0.0 <= vp.topLeftX && 0.0 <= vp.topLeftY && SurfacesFit(s, descs, w, h) && i < |tris|
    ensures DrawFrom(vp, interp, fs, descs, w, h, tris, i, s) ==
            DrawFrom(vp, interp, fs, descs, w, h, tris, i + 1, DrawTriangle(vp, interp, fs, descs, w, h, tris[i], s))
  {
  }

  /** The vertex shader applied to every vertex record. */
  function ShadeVertices(vs: Vertex -> Fragment, vertices: seq<Vertex>): seq<Fragment>
  {
    seq(|vertices|, i requires 0 <= i < |vertices| => vs(vertices[i]))
  }

  /** Every index a full triangle reads names a shaded vertex. */
  predicate IndicesInRange(indices: seq<nat>, n: nat)
  {
    forall k | 0 <= k < |indices| / 3 * 3 :: indices[k] < n
  }

  /** Triangle `i` joins the vertices `indices[3i]`, `indices[3i+1]`, `indices[3i+2]`; trailing indices are ignored. */
  function Assemble(processed: seq<Fragment>, indices: seq<nat>): (tris: seq<Triangle>)
    requires IndicesInRange(indices, |processed|)
    ensures |tris| == |indices| / 3
  {
    seq(|indices| / 3, i requires 0 <= i < |indices| / 3 =>
      Triangle(processed[indices[3 * i]], processed[indices[3 * i + 1]], processed[indices[3 * i + 2]]))
  }

  lemma AssembleAt(processed: seq<Fragment>, indices: seq<nat>, i: nat)
    requires IndicesInRange(indices, |processed|) && i < |indices| / 3
    ensures 3 * i + 2 < |indices|
    ensures Assemble(processed, indices)[i] ==
      Triangle(processed[indices[3 * i]], processed[indices[3 * i + 1]], processed[indices[3 * i + 2]])
  {
  }

  /** Up to two indices past the last full triangle change nothing. */
  lemma TrailingIndicesIgnored(processed: seq<Fragment>, indices: seq<nat>, extra: seq<nat>)
    requires |indices| % 3 == 0 && |extra| < 3 && IndicesInRange(indices, |processed|)
    ensures IndicesInRange(indices + extra, |processed|)
    ensures Assemble(processed, indices + extra) == Assemble(processed, indices)
  {
    var all := indices + extra;
    assert |all| / 3 == |indices| / 3;
    forall k | 0 <= k < |all| / 3 * 3
      ensures all[k] < |processed|
    {
      assert all[k] == indices[k];
    }
    var a, b := Assemble(processed, all), Assemble(processed, indices);
    forall i | 0 <= i < |b|
      ensures a[i] == b[i]
    {
      assert all[3 * i] == indices[3 * i] && all[3 * i + 1] == indices[3 * i + 1] && all[3 * i + 2] == indices[3 * i + 2];
    }
  }

  /** What one `Draw` does to the depth image and the render targets. */
  function DrawSpec(vp: Viewport, interp: Interp, vs: Vertex -> Fragment, fs: Fragment -> seq<Vec4>,
                    vertices: seq<Vertex>, indices: seq<nat>, descs: seq<ImageDesc>, w: nat, h: nat, s: Surfaces)
    : (r: Surfaces)
    requires 0.0 <= vp.topLeftX && 0.0 <= vp.topLeftY && SurfacesFit(s, descs, w, h)
    requires IndicesInRange(indices, |vertices|)
    ensures SurfacesFit(r, descs, w, h)
  {
    var tris := ClipAll(interp, Assemble(ShadeVertices(vs, vertices), indices));
    DrawFrom(vp, interp, fs, descs, w, h, tris, 0, s)
  }

  lemma DrawSpecUnfold(vp: Viewport, interp: Interp, vs: Vertex -> Fragment, fs: Fragment -> seq<Vec4>,
                       vertices: seq<Vertex>, indices: seq<nat>, descs: seq<ImageDesc>, w: nat, h: nat, s: Surfaces)
    requires 0.0 <= vp.topLeftX && 0.0 <= vp.topLeftY && SurfacesFit(s, descs, w, h)
    requires IndicesInRange(indices, |vertices|)
    ensures DrawSpec(vp, interp, vs, fs, vertices, indices, descs, w, h, s) ==
            DrawFrom(vp, interp, fs, descs, w, h, ClipAll(interp, Assemble(ShadeVertices(vs, vertices), indices)), 0, s)
  {
  }

  /** Fewer than three indices make no triangle, and drawing then changes nothing. */
  lemma NoTriangleDrawsNothing(vp: Viewport, interp: Interp, vs: Vertex -> Fragment, fs: Fragment -> seq<Vec4>,
                               vertices: seq<Vertex>, indices: seq<nat>, descs: seq<ImageDesc>, w: nat, h: nat, s: Surfaces)
    requires 0.0 <= vp.topLeftX && 0.0 <= vp.topLeftY && SurfacesFit(s, descs, w, h)
    requires |indices| < 3
    ensures DrawSpec(vp, interp, vs, fs, vertices, indices, descs, w, h, s) == s
  {
    assert Assemble(ShadeVertices(vs, vertices), indices) == [];
  }

  /** A culled triangle leaves the depth image and every target as they were. */
  lemma CulledTriangleWritesNothing(vp: Viewport, interp: Interp, fs: Fragment -> seq<Vec4>, descs: seq<ImageDesc>,
                                    w: nat, h: nat, tri: Triangle, s: Surfaces)
    requires 0.0 <= vp.topLeftX && 0.0 <= vp.topLeftY && SurfacesFit(s, descs, w, h)
    requires Culled(vp, MakeSetup(vp, interp, tri))
    ensures DrawTriangle(vp, interp, fs, descs, w, h, tri, s) == s
  {
    CulledTriangleDrawsNothing(vp, interp, tri, w, h, Output(s.depth, [], []));
  }

  /** Every target's texels are of the element type its format names. */
  predicate TargetsTyped(targets: seq<seq<Texel>>, descs: seq<ImageDesc>)
    requires |targets| == |descs|
  {
    forall i, k | 0 <= i < |targets| && 0 <= k < |targets[i]| :: TypeCheck(ElementOf(targets[i][k]), descs[i].format)
  }

  /** The fragment loop keeps every target's texels of its element type. */
  lemma {:induction false} ShadeKeepsTyped(fs: Fragment -> seq<Vec4>, descs: seq<ImageDesc>, w: nat, h: nat,
                                           frags: seq<Fragment>, idx: seq<Vec2I>, j: nat, targets: seq<seq<Texel>>)
    requires |frags| == |idx| && j <= |idx| && Fits(targets, descs, w, h)
    requires forall k | j <= k < |idx| :: InImage(idx[k], w, h)
    requires TargetsTyped(targets, descs)
    ensures TargetsTyped(ShadeFrom(fs, descs, w, h, frags, idx, j, targets), descs)
    decreases |idx| - j
  {
    if j < |idx| {
      var next := WriteOutputs(targets, descs, w, h, fs(frags[j]), idx[j]);
      forall i | 0 <= i < |targets|
        ensures forall k | 0 <= k < |next[i]| :: TypeCheck(ElementOf(next[i][k]), descs[i].format)
      {
        WriteTargetKeepsTyped(targets[i], descs[i], OutputAt(fs(frags[j]), i), idx[j]);
      }
      ShadeKeepsTyped(fs, descs, w, h, frags, idx, j + 1, next);
    }
  }

  /** Every depth is the stored one or a nearer one. */
  predicate DepthNotDeeper(depth': seq<Texel>, depth: seq<Texel>)
  {
    |depth'| == |depth| && forall i | 0 <= i < |depth| :: NotDeeper(depth'[i], depth[i])
  }

  /** Drawing never moves a stored depth farther away, and keeps every target's texels typed. */
  lemma {:induction false} DrawFromMonotone(vp: Viewport, interp: Interp, fs: Fragment -> seq<Vec4>, descs: seq<ImageDesc>,
                                            w: nat, h: nat, tris: seq<Triangle>, i: nat, s: Surfaces)
    requires 0.0 <= vp.topLeftX && 0.0 <= vp.topLeftY && SurfacesFit(s, descs, w, h) && i <= |tris|
    requires TargetsTyped(s.targets, descs)
    ensures var r := DrawFrom(vp, interp, fs, descs, w, h, tris, i, s);
            DepthNotDeeper(r.depth, s.depth) && TargetsTyped(r.targets, descs)
    decreases |tris| - i
  {
    if i < |tris| {
      var o := RasterizeSpec(vp, interp, tris[i], w, h, Output(s.depth, [], []));
      RasterizeGrows(vp, interp, tris[i], w, h, Output(s.depth, [], []));
      ShadeKeepsTyped(fs, descs, w, h, o.fragments, o.indexes, 0, s.targets);
      var next := DrawTriangle(vp, interp, fs, descs, w, h, tris[i], s);
      DrawFromMonotone(vp, interp, fs, descs, w, h, tris, i + 1, next);
      var r := DrawFrom(vp, interp, fs, descs, w, h, tris, i + 1, next);
      forall k | 0 <= k < |s.depth|
        ensures NotDeeper(r.depth[k], s.depth[k])
      {
        NotDeeperTrans(r.depth[k], next.depth[k], s.depth[k]);
      }
    }
  }

  lemma NotDeeperTrans(a: Texel, b: Texel, c: Texel)
    requires NotDeeper(a, b) && NotDeeper(b, c)
    ensures NotDeeper(a, c)
  {
  }

  /** `Draw` never moves a stored depth farther away, and keeps every target's texels typed. */
  lemma DrawMonotone(vp: Viewport, interp: Interp, vs: Vertex -> Fragment, fs: Fragment -> seq<Vec4>,
                     vertices: seq<Vertex>, indices: seq<nat>, descs: seq<ImageDesc>, w: nat, h: nat, s: Surfaces)
    requires 0.0 <= vp.topLeftX && 0.0 <= vp.topLeftY && SurfacesFit(s, descs, w, h)
    requires IndicesInRange(indices, |vertices|) && TargetsTyped(s.targets, descs)
    ensures var r := DrawSpec(vp, interp, vs, fs, vertices, indices, descs, w, h, s);
            DepthNotDeeper(r.depth, s.depth) && TargetsTyped(r.targets, descs)
  {
    var tris := ClipAll(interp, Assemble(ShadeVertices(vs, vertices), indices));
    DrawFromMonotone(vp, interp, fs, descs, w, h, tris, 0, s);
  }

  // ------------------------------------------------- bound images, as values

  /** The bind flags of `images`, in slot order. */
  function Flags(images: seq<Image>): (flags: seq<BindFlag>)
    reads images
    ensures |flags| == |images|
  {
    seq(|images|, i requires 0 <= i < |images| reads images => images[i].flag)
  }

  /**
   * The position of the first image that refuses `role` because it is bound
   * in the other one, or `|flags|` when every image accepts it.
   */
  function FirstConflict(flags: seq<BindFlag>, role: BindFlag): (k: nat)
    requires role == BoundAsRenderTarget || role == BoundAsShaderResource
    ensures k <= |flags|
    ensures forall i | 0 <= i < k :: Bind(flags[i], role).Ok?
    ensures k < |flags| ==> Bind(flags[k], role).Err?
  {
    if flags == [] then 0
    else if Bind(flags[0], role).Err? then 0
    else 1 + FirstConflict(flags[1..], role)
  }

  /** The first refusal is the only position meeting `FirstConflict`'s two conditions. */
  lemma FirstConflictAt(flags: seq<BindFlag>, role: BindFlag, k: nat)
    requires role == BoundAsRenderTarget || role == BoundAsShaderResource
    requires k <= |flags| && forall i | 0 <= i < k :: Bind(flags[i], role).Ok?
    requires k < |flags| ==> Bind(flags[k], role).Err?
    ensures FirstConflict(flags, role) == k
  {
  }

  /** Images placed in slots. */
  function Slotted(images: seq<Image>): (slots: seq<Option<Image>>)
    ensures |slots| == |images| && forall i | 0 <= i < |images| :: slots[i] == Some(images[i])
  {
    seq(|images|, i requires 0 <= i < |images| => Some(images[i]))
  }

  /**
   * The loop of `SetRenderTargets` and `SetShaderResources`: image `i` is put
   * in slot `i` and bound in `role`, in turn; the first image bound in the
   * other role throws, after taking its slot.
   */
  method FillAndBind(slots: seq<Option<Image>>, images: seq<Image>, n: nat, role: BindFlag)
    returns (slots': seq<Option<Image>>, o: Outcome<Error>)
    requires n <= |slots| && n <= |images| && (role == BoundAsRenderTarget || role == BoundAsShaderResource)
    modifies images[..n]`flag
    ensures var k := FirstConflict(old(Flags(images[..n])), role);
            var m := if k < n then k + 1 else n;
            && o == (if k < n then Fail(Bind(old(images[k].flag), role).error) else Pass)
            && slots' == Slotted(images[..m]) + slots[m..]
            && (forall i | 0 <= i < k :: images[i].flag == role)
            && (forall i | k <= i < n && images[i] !in images[..k] :: images[i].flag == old(images[i].flag))
  {
    ghost var flags := Flags(images[..n]);
    slots' := slots;
    var i := 0;
    while i < n
      invariant 0 <= i <= n && |slots'| == |slots|
      invariant slots' == Slotted(images[..i]) + slots[i..]
      invariant forall j | 0 <= j < i :: images[j].flag == role && Bind(flags[j], role).Ok?
      invariant forall j | i <= j < n && images[j] !in images[..i] :: images[j].flag == flags[j]
    {
      FillSlot(images, slots, i);
      assert images[..i + 1] == images[..i] + [images[i]];
      slots' := slots'[i := Some(images[i])];
      if role == BoundAsRenderTarget {
        o := images[i].BindRenderTarget();
      } else {
        o := images[i].BindShaderResource();
      }
      if o.Fail? {
        FirstConflictAt(flags, role, i);
        return;
      }
      i := i + 1;
    }
    FirstConflictAt(flags, role, n);
    o := Pass;
  }

  /** The loop of `UnbindShaderResources` and `UnbindRenderTargets`: the first `n` slots' images are unbound and the slots emptied. */
  method UnbindAll(slots: seq<Option<Image>>, n: nat) returns (slots': seq<Option<Image>>)
    requires n <= |slots| && forall i | 0 <= i < n :: slots[i].Some?
    modifies (set i | 0 <= i < n :: slots[i].value)`flag
    ensures slots' == seq(n, _ => None) + slots[n..]
    ensures forall i | 0 <= i < n :: slots[i].value.flag == Unbound
  {
    slots' := slots;
    var i := 0;
    while i < n
      invariant 0 <= i <= n
      invariant slots' == seq(i, _ => None) + slots[i..]
      invariant forall j | 0 <= j < i :: slots[j].value.flag == Unbound
    {
      slots'[i].value.Unbind();
      slots' := slots'[i := None];
      i := i + 1;
    }
  }

  /** The vertex loop of `Draw`: `processed_vertexs[i]` is the vertex shader applied to vertex record `i`. */
  method ShadeVertexBuffer(vb: Buffer, vs: Vertex -> Fragment, decode: seq<byte> -> Vertex)
    returns (processed: array<Fragment>)
    requires BufferReady(vb)
    ensures fresh(processed)
    ensures processed[..] == ShadeVertices(vs, Decoded(vb.data[..], vb.desc.stride, vb.desc.numOfElement, decode))
  {
    ghost var vertices := Decoded(vb.data[..], vb.desc.stride, vb.desc.numOfElement, decode);
    var n := vb.GetElementNum();
    processed := new Fragment[n];
    var i := 0;
    while i < n
      invariant 0 <= i <= n
      invariant forall k | 0 <= k < i :: processed[k] == vs(vertices[k])
    {
      DecodedAt(vb.data[..], vb.desc.stride, n, decode, i);
      processed[i] := vs(decode(vb.GetElementData(i)));
      i := i + 1;
    }
  }

  /** The assembly loop of `Draw`: triangle `i` takes the shaded vertices named by indices `3i`, `3i+1`, `3i+2`. */
  method AssembleTriangles(ib: Buffer, processed: array<Fragment>, decode: seq<byte> -> nat)
    returns (tris: array<Triangle>, n: nat)
    requires BufferReady(ib)
    requires IndicesInRange(Decoded(ib.data[..], ib.desc.stride, ib.desc.numOfElement, decode), processed.Length)
    ensures fresh(tris) && n == tris.Length
    ensures tris[..] == Assemble(processed[..], Decoded(ib.data[..], ib.desc.stride, ib.desc.numOfElement, decode))
  {
    ghost var expected := Assemble(processed[..], Decoded(ib.data[..], ib.desc.stride, ib.desc.numOfElement, decode));
    var count := ib.GetElementNum();
    n := count / 3;
    tris := new Triangle[n];
    var i := 0;
    while i < n
      invariant 0 <= i <= n
      invariant forall k | 0 <= k < i :: tris[k] == expected[k]
    {
      var t := ReadTriangle(ib, processed, decode, i);
      tris[i] := t;
      i := i + 1;
    }
  }

  /**
   * The steps of `Draw` before the triangle loop: every vertex record is
   * shaded, triangles are assembled from the index buffer, then clipped.
   */
  method PrepareTriangles(vb: Buffer, ib: Buffer, vs: Vertex -> Fragment, clipper: Clipper,
                          decodeVertex: seq<byte> -> Vertex, decodeIndex: seq<byte> -> nat)
    returns (tris: array<Triangle>, n: nat)
    requires BufferReady(vb) && BufferReady(ib)
    requires IndicesInRange(Decoded(ib.data[..], ib.desc.stride, ib.desc.numOfElement, decodeIndex), vb.desc.numOfElement)
    ensures fresh(tris) && n <= tris.Length
    ensures tris[..n] == ClipAll(clipper.interp, Assemble(ShadeVertices(vs, Decoded(vb.data[..], vb.desc.stride, vb.desc.numOfElement, decodeVertex)),
                                                          Decoded(ib.data[..], ib.desc.stride, ib.desc.numOfElement, decodeIndex)))
  {
    var processed := ShadeVertexBuffer(vb, vs, decodeVertex);
    var assembled;
    assembled, n := AssembleTriangles(ib, processed, decodeIndex);
    assert assembled[..n] == assembled[..];
    tris, n := clipper.Clip(assembled, n);
  }

  /** The `i`-th triangle: the three processed vertices named by indices `3i`, `3i+1` and `3i+2` of the index buffer. */
  method ReadTriangle(ib: Buffer, processed: array<Fragment>, decode: seq<byte> -> nat, i: nat) returns (t: Triangle)
    requires BufferReady(ib) && i < ib.desc.numOfElement / 3
    requires IndicesInRange(Decoded(ib.data[..], ib.desc.stride, ib.desc.numOfElement, decode), processed.Length)
    ensures t == Assemble(processed[..], Decoded(ib.data[..], ib.desc.stride, ib.desc.numOfElement, decode))[i]
  {
    ghost var indices := Decoded(ib.data[..], ib.desc.stride, ib.desc.numOfElement, decode);
    var count := ib.GetElementNum();
    var begin := i * 3;
    AssembleAt(processed[..], indices, i);
    DecodedAt(ib.data[..], ib.desc.stride, count, decode, begin);
    DecodedAt(ib.data[..], ib.desc.stride, count, decode, begin + 1);
    DecodedAt(ib.data[..], ib.desc.stride, count, decode, begin + 2);
    var a := decode(ib.GetElementData(begin));
    var b := decode(ib.GetElementData(begin + 1));
    var c := decode(ib.GetElementData(begin + 2));
    t := Triangle(processed[a], processed[b], processed[c]);
  }

  /** One case of the switch in `WriteOutputToRenderTarget`: the output converted to `target`'s element type, written at `p`. */
  method WritePixel(target: Image, out: Vec4, p: Vec2I)
    requires target.Valid() && InImage(p, target.width, target.height)
    modifies target.data
    ensures target.data[..] == WriteTarget(old(target.data[..]), DescOf(target), out, p)
  {
    match target.format {
      case R32Float => target.SetPixel(F1(out.x), p.x, p.y);
      case R32G32Float => target.SetPixel(F2(Vec2(out.x, out.y)), p.x, p.y);
      case R32G32B32Float => target.SetPixel(F3(Vec3(out.x, out.y, out.z)), p.x, p.y);
      case R32G32B32A32Float => target.SetPixel(F4(out), p.x, p.y);
      case R8G8B8A8Uint =>
        var pixel := Vec4B(ToByte(out.z * 255.0), ToByte(out.y * 255.0), ToByte(out.x * 255.0), 1);
        target.SetPixel(B4(pixel), p.x, target.height - 1 - p.y);
      case UnknownFormat(_) =>
    }
  }

  /** Filling slot `i` extends the filled prefix by one. */
  lemma FillSlot(images: seq<Image>, slots: seq<Option<Image>>, i: nat)
    requires i < |images| && i < |slots|
    ensures (Slotted(images[..i]) + slots[i..])[i := Some(images[i])] == Slotted(images[..i + 1]) + slots[i + 1..]
  {
    assert images[..i + 1] == images[..i] + [images[i]];
  }

  function DescOf(t: Image): ImageDesc
    reads t
  {
    ImageDesc(t.format, t.width, t.height)
  }

  /** The descriptions of `images`. */
  function Descs(images: seq<Image>): (descs: seq<ImageDesc>)
    reads images
    ensures |descs| == |images|
  {
    seq(|images|, i requires 0 <= i < |images| reads images => DescOf(images[i]))
  }

  /** The texels of `images`. */
  ghost function Contents(images: seq<Image>): (c: seq<seq<Texel>>)
    reads set t | t in images, set t | t in images :: t.data
    ensures |c| == |images|
  {
    seq(|images|, i requires 0 <= i < |images| reads images, set t | t in images :: t.data => images[i].data[..])
  }

  /** Each image stores one texel per pixel, and no two share storage. */
  ghost predicate Separate(images: seq<Image>)
    reads images
  {
    (forall t | t in images :: t.Valid()) &&
    (forall i, j | 0 <= i < j < |images| :: images[i].data != images[j].data)
  }

  /**
   * Render targets that a `w` by `h` depth image's fragments can be written
   * to: separate, each at least as large as the depth image, and none sharing
   * the depth image's storage.
   */
  ghost predicate Writable(images: seq<Image>, w: nat, h: nat, depth: array<Texel>)
    reads images
  {
    Separate(images) && forall t | t in images :: w <= t.width && h <= t.height && t.data != depth
  }

  /** The depth image's and the render targets' contents. */
  ghost function Surface(depth: Image, ts: seq<Image>): (s: Surfaces)
    reads depth, depth.data, ts, set t | t in ts :: t.data
    requires depth.Valid() && Writable(ts, depth.width, depth.height, depth.data)
    ensures SurfacesFit(s, Descs(ts), depth.width, depth.height)
  {
    ContentsFit(ts, depth.width, depth.height);
    Surfaces(depth.data[..], Contents(ts))
  }

  lemma ContentsFit(ts: seq<Image>, w: nat, h: nat)
    requires Separate(ts) && forall t | t in ts :: w <= t.width && h <= t.height
    ensures Fits(Contents(ts), Descs(ts), w, h)
  {
    var c, d := Contents(ts), Descs(ts);
    forall i | 0 <= i < |ts|
      ensures |c[i]| == d[i].width * d[i].height && w <= d[i].width && h <= d[i].height
    {
      assert ts[i] in ts;
    }
  }

  /** The vertex records or indices a buffer's bytes decode to, element by element. */
  function Decoded<T>(raw: seq<byte>, stride: nat, n: nat, decode: seq<byte> -> T): (r: seq<T>)
    requires n * stride <= |raw|
    ensures |r| == n
  {
    var es := Elements(raw, stride, n);
    seq(n, i requires 0 <= i < n => decode(es[i]))
  }

  /** Element `k` of a decoded buffer is `decode` of its byte slice, which lies inside the buffer. */
  lemma DecodedAt<T>(raw: seq<byte>, stride: nat, n: nat, decode: seq<byte> -> T, k: nat)
    requires n * stride <= |raw| && k < n
    ensures (k + 1) * stride <= |raw|
    ensures Decoded(raw, stride, n, decode)[k] == decode(ElementSlice(raw, stride, k))
  {
    MulLe(k + 1, n, stride);
  }

  /** The storage of a buffer holds all its elements. */
  ghost predicate BufferReady(b: Buffer)
    reads b
  {
    b.desc.numOfElement * b.desc.stride <= b.data.Length
  }

  lemma MulLe(a: nat, b: nat, s: nat)
    requires a <= b
    ensures a * s <= b * s
  {
  }

  // ---------------------------------------------------------- the context

  class Context3D {
    var viewport: Viewport
    var layout: FragmentLayout
    var clipper: Clipper
    var rasterizer: Rasterizer
    var shaderResources: seq<Option<Image>>
    var renderTargets: seq<Option<Image>>
    var depthBuffer: Option<Image>
    var vertexBuffer: Option<Buffer>
    var indexBuffer: Option<Buffer>
    var vertexShader: Option<Vertex -> Fragment>
    var fragmentShader: Option<Fragment -> seq<Vec4>>
    var srvNum: nat
    var rtvNum: nat

    /** Five slots of each kind, counts within them, and the viewport and layout forwarded to the stages. */
    ghost predicate Valid()
      reads this, clipper, rasterizer
    {
      |shaderResources| == Slots && |renderTargets| == Slots && srvNum <= Slots && rtvNum <= Slots &&
      rasterizer.viewport == viewport && rasterizer.interp == clipper.interp
    }

    /** `Context3D()`: a clipper and a rasterizer of their own, every slot empty. */
    constructor ()
      ensures Valid() && fresh(clipper) && fresh(rasterizer)
      ensures clipper.interp == BaseInterp && viewport == Viewport(0.0, 0.0, 0.0, 0.0)
      ensures rtvNum == 0 && srvNum == 0 && depthBuffer.None? && vertexBuffer.None? && indexBuffer.None?
      ensures renderTargets == seq(Slots, _ => None) && shaderResources == seq(Slots, _ => None)
      ensures vertexShader.None? && fragmentShader.None?
    {
      clipper := new Clipper();
      rasterizer := new Rasterizer();
      viewport := Viewport(0.0, 0.0, 0.0, 0.0);
      layout := Base;
      shaderResources := seq(Slots, _ => None);
      renderTargets := seq(Slots, _ => None);
      depthBuffer, vertexBuffer, indexBuffer := None, None, None;
      vertexShader, fragmentShader := None, None;
      srvNum, rtvNum := 0, 0;
    }

    /** Every counted render-target slot holds an image. */
    predicate TargetsBound()
      reads this
    {
      rtvNum <= |renderTargets| && forall i | 0 <= i < rtvNum :: renderTargets[i].Some?
    }

    /** The images in the counted render-target slots. */
    function BoundTargets(): (ts: seq<Image>)
      reads this
      requires TargetsBound()
      ensures |ts| == rtvNum && forall i | 0 <= i < rtvNum :: renderTargets[i] == Some(ts[i])
    {
      var slots, n := renderTargets, rtvNum;
      seq(n, i requires 0 <= i < n => slots[i].value)
    }

    /**
     * `WriteOutputToRenderTarget(pOut, pIndex)`: for each counted slot in
     * turn, the output converted to the target's element type is written at
     * `p` (bottom-up rows for the byte format); a target of another format is
     * skipped. `w` by `h` is a size every target covers and `p` lies in.
     */
    method WriteOutputToRenderTarget(outs: seq<Vec4>, p: Vec2I, ghost w: nat, ghost h: nat)
      requires TargetsBound() && Separate(BoundTargets()) && InImage(p, w, h)
      requires forall t | t in BoundTargets() :: w <= t.width && h <= t.height
      requires Fits(Contents(BoundTargets()), Descs(BoundTargets()), w, h)
      modifies set t | t in BoundTargets() :: t.data
      ensures Contents(BoundTargets()) == WriteOutputs(old(Contents(BoundTargets())), Descs(BoundTargets()), w, h, outs, p)
    {
      ghost var ts := BoundTargets();
      ghost var before := Contents(ts);
      var i := 0;
      while i < rtvNum
        invariant 0 <= i <= rtvNum
        invariant forall k | 0 <= k < |ts| ::
          ts[k].data[..] == if k < i then WriteTarget(before[k], DescOf(ts[k]), OutputAt(outs, k), p) else before[k]
      {
        var target := renderTargets[i].value;
        assert target == ts[i] && target in ts;
        WritePixel(target, OutputAt(outs, i), p);
        i := i + 1;
      }
      var after := WriteOutputs(before, Descs(ts), w, h, outs, p);
      forall k | 0 <= k < |ts|
        ensures Contents(ts)[k] == after[k]
      {
        assert Descs(ts)[k] == DescOf(ts[k]);
      }
    }

    /**
     * The fragment loop of one triangle in `Draw`: fragment `j` is shaded and
     * its outputs written at `idx[j]`, in order.
     */
    method ShadeFragments(fs: Fragment -> seq<Vec4>, frags: seq<Fragment>, idx: seq<Vec2I>, ghost w: nat, ghost h: nat)
      requires TargetsBound() && Separate(BoundTargets())
      requires forall t | t in BoundTargets() :: w <= t.width && h <= t.height
      requires |frags| == |idx| && forall k | 0 <= k < |idx| :: InImage(idx[k], w, h)
      requires Fits(Contents(BoundTargets()), Descs(BoundTargets()), w, h)
      modifies set t | t in BoundTargets() :: t.data
      ensures Contents(BoundTargets()) == ShadeFrom(fs, Descs(BoundTargets()), w, h, frags, idx, 0, old(Contents(BoundTargets())))
    {
      ghost var ts := BoundTargets();
      ghost var descs := Descs(ts);
      ghost var goal := ShadeFrom(fs, descs, w, h, frags, idx, 0, Contents(ts));
      var j := 0;
      while j < |frags|
        invariant 0 <= j <= |frags| && Fits(Contents(ts), descs, w, h)
        invariant ShadeFrom(fs, descs, w, h, frags, idx, j, Contents(ts)) == goal
      {
        WriteOutputToRenderTarget(fs(frags[j]), idx[j], w, h);
        j := j + 1;
      }
    }

    /**
     * One iteration of the triangle loop of `Draw`: the triangle is
     * rasterized into the emptied fragment vectors and written back divided
     * by `w`; then every fragment is shaded and written to the targets.
     */
    method DrawOne(tris: array<Triangle>, i: nat, depth: Image, fs: Fragment -> seq<Vec4>)
      requires Valid() && i < tris.Length
      requires depth.Valid() && depth.format == R32Float && 0.0 <= viewport.topLeftX && 0.0 <= viewport.topLeftY
      requires TargetsBound() && Writable(BoundTargets(), depth.width, depth.height, depth.data)
      modifies tris, depth.data, set t | t in BoundTargets() :: t.data
      ensures tris[..] == old(tris[..])[i := PerspectiveDivide(old(tris[i]))]
      ensures Surface(depth, BoundTargets()) ==
        DrawTriangle(viewport, clipper.interp, fs, Descs(BoundTargets()), depth.width, depth.height, old(tris[i]),
                     old(Surface(depth, BoundTargets())))
    {
      hide RasterizeSpec;
      ghost var ts := BoundTargets();
      ghost var s := Surface(depth, ts);
      ghost var w, h := depth.width, depth.height;
      ghost var o := RasterizeSpec(viewport, clipper.interp, tris[i], w, h, Output(s.depth, [], []));
      RasterizeGrows(viewport, clipper.interp, tris[i], w, h, Output(s.depth, [], []));
      var divided, fragments, fragmentIndexes := rasterizer.Rasterize(tris[i], depth, [], []);
      assert Output(depth.data[..], fragments, fragmentIndexes) == o;
      assert Contents(ts) == s.targets;
      tris[i] := divided;
      ContentsFit(ts, w, h);
      ShadeFragments(fs, fragments, fragmentIndexes, w, h);
      assert depth.data[..] == o.depth;
    }

    /** The triangle loop of `Draw` over the first `n` clipped triangles. */
    method DrawTriangles(tris: array<Triangle>, n: nat, depth: Image, fs: Fragment -> seq<Vec4>)
      requires Valid() && n <= tris.Length
      requires depth.Valid() && depth.format == R32Float && 0.0 <= viewport.topLeftX && 0.0 <= viewport.topLeftY
      requires TargetsBound() && Writable(BoundTargets(), depth.width, depth.height, depth.data)
      modifies tris, depth.data, set t | t in BoundTargets() :: t.data
      ensures Surface(depth, BoundTargets()) ==
        DrawFrom(viewport, clipper.interp, fs, Descs(BoundTargets()), depth.width, depth.height, old(tris[..n]), 0,
                 old(Surface(depth, BoundTargets())))
    {
      hide RasterizeSpec;
      ghost var ts := BoundTargets();
      ghost var descs := Descs(ts);
      ghost var all := tris[..n];
      ghost var goal := DrawFrom(viewport, clipper.interp, fs, descs, depth.width, depth.height, all, 0, Surface(depth, ts));
      var i := 0;
      while i < n
        invariant 0 <= i <= n
        invariant forall k | i <= k < n :: tris[k] == all[k]
        invariant DrawFrom(viewport, clipper.interp, fs, descs, depth.width, depth.height, all, i, Surface(depth, ts)) == goal
      {
        DrawFromStep(viewport, clipper.interp, fs, descs, depth.width, depth.height, all, i, Surface(depth, ts));
        DrawOne(tris, i, depth, fs);
        i := i + 1;
      }
    }

    /** Both buffers are set, which is all `Draw` checks before it starts. */
    predicate HasBuffers()
      reads this
    {
      vertexBuffer.Some? && indexBuffer.Some?
    }

    /**
     * What `Draw` relies on without checking: shaders and a depth buffer set,
     * buffers holding their elements, every index naming a vertex, the
     * counted render-target slots filled with images that cover the depth
     * image and share no storage with it or each other.
     */
    ghost predicate DrawReady(decodeIndex: seq<byte> -> nat)
      reads *
    {
      HasBuffers() && vertexShader.Some? && fragmentShader.Some? && depthBuffer.Some? &&
      BufferReady(vertexBuffer.value) && BufferReady(indexBuffer.value) &&
      IndicesInRange(Decoded(indexBuffer.value.data[..], indexBuffer.value.desc.stride,
                             indexBuffer.value.desc.numOfElement, decodeIndex), vertexBuffer.value.desc.numOfElement) &&
      depthBuffer.value.Valid() && depthBuffer.value.format == R32Float &&
      0.0 <= viewport.topLeftX && 0.0 <= viewport.topLeftY &&
      TargetsBound() && Writable(BoundTargets(), depthBuffer.value.width, depthBuffer.value.height, depthBuffer.value.data)
    }

    /**
     * `Draw`: without both buffers it throws and changes nothing. Otherwise
     * every vertex record is shaded, triangles are assembled from the index
     * buffer, clipped, and drawn one by one into the depth buffer and the
     * render targets, as `DrawSpec` describes.
     */
    method Draw(decodeVertex: seq<byte> -> Vertex, decodeIndex: seq<byte> -> nat) returns (o: Outcome<Error>)
      requires Valid() && (HasBuffers() ==> DrawReady(decodeIndex))
      modifies if HasBuffers() && depthBuffer.Some? then {depthBuffer.value.data} else {}
      modifies if HasBuffers() && TargetsBound() then set t | t in BoundTargets() :: t.data else {}
      ensures !HasBuffers() ==> o == Fail(MissingBuffer)
      ensures HasBuffers() ==> o == Pass
      ensures HasBuffers() ==>
        (var d, ts, vb, ib := depthBuffer.value, BoundTargets(), vertexBuffer.value, indexBuffer.value;
         Surface(d, ts) ==
           DrawSpec(viewport, clipper.interp, vertexShader.value, fragmentShader.value,
                    Decoded(vb.data[..], vb.desc.stride, vb.desc.numOfElement, decodeVertex),
                    Decoded(ib.data[..], ib.desc.stride, ib.desc.numOfElement, decodeIndex),
                    Descs(ts), d.width, d.height, old(Surface(depthBuffer.value, BoundTargets()))))
    {
      if vertexBuffer.None? || indexBuffer.None? {
        return Fail(MissingBuffer);
      }
      hide RasterizeSpec;
      var vb, ib, depth := vertexBuffer.value, indexBuffer.value, depthBuffer.value;
      ghost var ts := BoundTargets();
      ghost var s := Surface(depth, ts);
      ghost var vertices := Decoded(vb.data[..], vb.desc.stride, vb.desc.numOfElement, decodeVertex);
      ghost var indices := Decoded(ib.data[..], ib.desc.stride, ib.desc.numOfElement, decodeIndex);
      DrawSpecUnfold(viewport, clipper.interp, vertexShader.value, fragmentShader.value, vertices, indices,
                     Descs(ts), depth.width, depth.height, s);
      var triangles, triangleNum := PrepareTriangles(vb, ib, vertexShader.value, clipper, decodeVertex, decodeIndex);
      assert Surface(depth, ts) == s;
      DrawTriangles(triangles, triangleNum, depth, fragmentShader.value);
      o := Pass;
    }

    function GetViewport(): Viewport
      reads this
    {
      viewport
    }

    /** `SetViewport`: kept here and forwarded to the rasterizer. */
    method SetViewport(vp: Viewport)
      requires Valid()
      modifies this`viewport, rasterizer
      ensures Valid() && GetViewport() == vp && rasterizer.viewport == vp
      ensures rasterizer.interp == old(rasterizer.interp)
    {
      viewport := vp;
      rasterizer.SetViewport(viewport);
    }

    /** `SetFragmentLayout`: kept here and forwarded to the clipper and the rasterizer. */
    method SetFragmentLayout(l: FragmentLayout)
      requires Valid()
      modifies this`layout, clipper, rasterizer
      ensures Valid() && layout == l
      ensures clipper.interp == rasterizer.interp == LayoutInterp(l, old(clipper.interp))
      ensures rasterizer.viewport == old(rasterizer.viewport)
    {
      layout := l;
      clipper.SetFragmentLayout(l);
      rasterizer.SetFragmentLayout(l);
    }

    method SetVertexBuffer(b: Option<Buffer>)
      modifies this`vertexBuffer
      ensures vertexBuffer == b
    {
      vertexBuffer := b;
    }

    method SetIndexBuffer(b: Option<Buffer>)
      modifies this`indexBuffer
      ensures indexBuffer == b
    {
      indexBuffer := b;
    }

    method SetVertexShader(vs: Option<Vertex -> Fragment>)
      modifies this`vertexShader
      ensures vertexShader == vs
    {
      vertexShader := vs;
    }

    method SetFragmentShader(fs: Option<Fragment -> seq<Vec4>>)
      modifies this`fragmentShader
      ensures fragmentShader == fs
    {
      fragmentShader := fs;
    }

    /**
     * `SetRenderTargets(pTargets, pNum)`: the count becomes `n`; each image in
     * turn is put in its slot and bound as a render target. The first image
     * bound as a shader resource throws, after taking its slot; the images
     * before it are render targets by then.
     */
    method SetRenderTargets(targets: seq<Image>, n: nat) returns (o: Outcome<Error>)
      requires Valid() && n <= Slots && n <= |targets|
      modifies this`renderTargets, this`rtvNum, targets[..n]`flag
      ensures Valid() && rtvNum == n
      ensures var k := FirstConflict(old(Flags(targets[..n])), BoundAsRenderTarget);
              var m := if k < n then k + 1 else n;
              && o == (if k < n then Fail(AlreadyBoundAsShaderResource) else Pass)
              && renderTargets == Slotted(targets[..m]) + old(renderTargets)[m..]
              && (forall i | 0 <= i < k :: targets[i].flag == BoundAsRenderTarget)
              && (forall i | k <= i < n && targets[i] !in targets[..k] :: targets[i].flag == old(targets[i].flag))
    {
      rtvNum := n;
      renderTargets, o := FillAndBind(renderTargets, targets, n, BoundAsRenderTarget);
    }

    /** `SetShaderResources(pResources, pNum)`: as `SetRenderTargets`, binding each image as a shader resource. */
    method SetShaderResources(resources: seq<Image>, n: nat) returns (o: Outcome<Error>)
      requires Valid() && n <= Slots && n <= |resources|
      modifies this`shaderResources, this`srvNum, resources[..n]`flag
      ensures Valid() && srvNum == n
      ensures var k := FirstConflict(old(Flags(resources[..n])), BoundAsShaderResource);
              var m := if k < n then k + 1 else n;
              && o == (if k < n then Fail(AlreadyBoundAsRenderTarget) else Pass)
              && shaderResources == Slotted(resources[..m]) + old(shaderResources)[m..]
              && (forall i | 0 <= i < k :: resources[i].flag == BoundAsShaderResource && GetShaderResource(i) == Some(resources[i]))
              && (forall i | k <= i < n && resources[i] !in resources[..k] :: resources[i].flag == old(resources[i].flag))
    {
      srvNum := n;
      shaderResources, o := FillAndBind(shaderResources, resources, n, BoundAsShaderResource);
    }

    /** `GetShaderResource(pIndex)`: the slot's image, null when empty. */
    function GetShaderResource(i: nat): Option<Image>
      reads this
      requires i < |shaderResources|
    {
      shaderResources[i]
    }

    /** `SeteDepthBuffer(pDepth)`: only an R32 float image is accepted; it is cleared to 255 and bound as a render target. */
    method SetDepthBuffer(d: Image) returns (o: Outcome<Error>)
      requires d.Valid()
      modifies this`depthBuffer, d.data, d`flag
      ensures d.format != R32Float ==> o == Fail(DepthBufferTypeError) && depthBuffer == old(depthBuffer)
      ensures d.format != R32Float ==> d.data[..] == old(d.data[..]) && d.flag == old(d.flag)
      ensures d.format == R32Float ==> depthBuffer == Some(d) && d.Typed() && forall i | 0 <= i < d.data.Length :: d.data[i] == F1(255.0)
      ensures d.format == R32Float ==> var r := Bind(old(d.flag), BoundAsRenderTarget);
              if r.Ok? then o == Pass && d.flag == BoundAsRenderTarget else o == Fail(r.error) && d.flag == old(d.flag)
    {
      if d.format != R32Float {
        return Fail(DepthBufferTypeError);
      }
      depthBuffer := Some(d);
      o := d.Clear(F1(255.0));
      o := d.BindRenderTarget();
    }

    /** `UnbindShaderResources`: every counted slot's image is unbound and the slot emptied; the count becomes 0. */
    method UnbindShaderResources()
      requires Valid() && forall i | 0 <= i < srvNum :: shaderResources[i].Some?
      modifies this`shaderResources, this`srvNum, (set i | 0 <= i < srvNum :: shaderResources[i].value)`flag
      ensures Valid() && srvNum == 0
      ensures shaderResources == seq(old(srvNum), _ => None) + old(shaderResources)[old(srvNum)..]
      ensures forall i | 0 <= i < old(srvNum) :: old(shaderResources[i]).value.flag == Unbound
    {
      shaderResources := UnbindAll(shaderResources, srvNum);
      srvNum := 0;
    }

    /** `UnbindRenderTargets`: every counted slot's image is unbound and the slot emptied; the count becomes 0. */
    method UnbindRenderTargets()
      requires Valid() && forall i | 0 <= i < rtvNum :: renderTargets[i].Some?
      modifies this`renderTargets, this`rtvNum, (set i | 0 <= i < rtvNum :: renderTargets[i].value)`flag
      ensures Valid() && rtvNum == 0
      ensures renderTargets == seq(old(rtvNum), _ => None) + old(renderTargets)[old(rtvNum)..]
      ensures forall i | 0 <= i < old(rtvNum) :: old(renderTargets[i]).value.flag == Unbound
    {
      renderTargets := UnbindAll(renderTargets, rtvNum);
      rtvNum := 0;
    }

    /** `UnbindDepthBuffer`: the image is unbound and the slot emptied. */
    method UnbindDepthBuffer()
      requires depthBuffer.Some?
      modifies this`depthBuffer, depthBuffer.value`flag
      ensures depthBuffer.None? && old(depthBuffer).value.flag == Unbound
    {
      depthBuffer.value.Unbind();
      depthBuffer := None;
    }

    /** `ClearDepthBuffer`: nothing without a depth buffer; otherwise every depth becomes 255. */
    method ClearDepthBuffer() returns (o: Outcome<Error>)
      requires depthBuffer.Some? ==> depthBuffer.value.Valid() && depthBuffer.value.format == R32Float
      modifies if depthBuffer.Some? then {depthBuffer.value.data} else {}
      ensures o == Pass
      ensures depthBuffer.Some? ==> forall i | 0 <= i < depthBuffer.value.data.Length :: depthBuffer.value.data[i] == F1(255.0)
    {
      o := Pass;
      if depthBuffer.Some? {
        o := depthBuffer.value.Clear(F1(255.0));
      }
    }
  }
}
