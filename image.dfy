/**
 * Typed image storage (Core/Image.h): formats, the element-type check, the
 * bind-flag state machine and row-major pixel access. An `ExtensionImage<T>`
 * is an `Image` whose texels are of the element type its format names; the
 * texels are a tagged union, one constructor per element type.
 */
module Images {
  import opened Wrappers
  import opened Vectors

  /** IMAGE_BIND_FLAG. */
  datatype BindFlag = Unbound | BoundAsRenderTarget | BoundAsShaderResource

  /** IMAGE_FORMAT; `UnknownFormat` stands for any other value of the enum's `size_t`. */
  datatype ImageFormat =
    | R32Float | R32G32Float | R32G32B32Float | R32G32B32A32Float | R8G8B8A8Uint
    | UnknownFormat(code: nat)
  {
    predicate Known() { !UnknownFormat? }
  }

  /** The C++ types a `TypeCheck<T>`, `Clear<T>` or `ExtensionImage<T>` may be instantiated with. */
  datatype ElementType = FloatType | Vec2fType | Vec3fType | Vec4fType | Vec4u8Type | OtherType

  /** One pixel of an image, tagged with its element type. */
  datatype Texel = F1(f: real) | F2(f2: Vec2) | F3(f3: Vec3) | F4(f4: Vec4) | B4(b4: Vec4B)

  function ElementOf(t: Texel): ElementType
  {
    match t
    case F1(_) => FloatType
    case F2(_) => Vec2fType
    case F3(_) => Vec3fType
    case F4(_) => Vec4fType
    case B4(_) => Vec4u8Type
  }

  /** The element type an image of a known format stores. */
  function FormatElement(f: ImageFormat): ElementType
    requires f.Known()
  {
    match f
    case R32Float => FloatType
    case R32G32Float => Vec2fType
    case R32G32B32Float => Vec3fType
    case R32G32B32A32Float => Vec4fType
    case R8G8B8A8Uint => Vec4u8Type
  }

  /** `TypeCheck<T>(format)`: true only for the five matching pairs. */
  function TypeCheck(elem: ElementType, format: ImageFormat): (ok: bool)
    ensures ok <==> format.Known() && elem == FormatElement(format)
  {
    match elem
    case FloatType => format == R32Float
    case Vec2fType => format == R32G32Float
    case Vec3fType => format == R32G32B32Float
    case Vec4fType => format == R32G32B32A32Float
    case Vec4u8Type => format == R8G8B8A8Uint
    case OtherType => false
  }

  /** `sizeof(T)`: components times the width of one component. */
  function SizeOf(elem: ElementType): nat
  {
    var components := match elem
      case FloatType => 1 case Vec2fType => 2 case Vec3fType => 3
      case Vec4fType => 4 case Vec4u8Type => 4 case OtherType => 0;
    var componentBytes := if elem == Vec4u8Type then 1 else 4;
    components * componentBytes
  }

  /** `GetTextureFormatSize`: the static table indexed by the format. */
  function GetTextureFormatSize(f: ImageFormat): (bytes: nat)
    requires f.Known()
    ensures bytes == SizeOf(FormatElement(f)) && bytes > 0
  {
    match f
    case R32Float => 4
    case R32G32Float => 8
    case R32G32B32Float => 12
    case R32G32B32A32Float => 16
    case R8G8B8A8Uint => 4
  }

  /** The zero texel of a format (fresh storage; the source leaves it uninitialised). */
  function ZeroTexel(f: ImageFormat): (t: Texel)
    requires f.Known()
    ensures ElementOf(t) == FormatElement(f)
  {
    match f
    case R32Float => F1(0.0)
    case R32G32Float => F2(Zero2)
    case R32G32B32Float => F3(Zero3)
    case R32G32B32A32Float => F4(Zero4)
    case R8G8B8A8Uint => B4(Vec4B(0, 0, 0, 0))
  }

  /** Binding in `role` (`BindRenderTarget` or `BindShaderResource`): refused when bound in the other role. */
  function Bind(current: BindFlag, role: BindFlag): (r: Result<BindFlag, Error>)
    requires role == BoundAsRenderTarget || role == BoundAsShaderResource
    ensures r.Ok? <==> current == Unbound || current == role
    ensures r.Ok? ==> r.value == role
    ensures r.Err? ==> r.error == (if role == BoundAsRenderTarget then AlreadyBoundAsShaderResource
                                   else AlreadyBoundAsRenderTarget)
  {
    if current == Unbound || current == role then Ok(role)
    else if current == BoundAsRenderTarget then Err(AlreadyBoundAsRenderTarget)
    else Err(AlreadyBoundAsShaderResource)
  }

  /** Re-binding in the role an image already has changes nothing. */
  lemma BindIdempotent(current: BindFlag, role: BindFlag)
    requires (role == BoundAsRenderTarget || role == BoundAsShaderResource) && Bind(current, role).Ok?
    ensures Bind(Bind(current, role).value, role) == Bind(current, role)
  {
  }

  /** After `Unbind` either role can be taken. */
  lemma UnboundAcceptsEitherRole()
    ensures Bind(Unbound, BoundAsRenderTarget) == Ok(BoundAsRenderTarget)
    ensures Bind(Unbound, BoundAsShaderResource) == Ok(BoundAsShaderResource)
  {
  }

  /** Row-major storage: distinct in-range coordinates never share an index. */
  lemma PixelIndexInjective(x0: nat, y0: nat, x1: nat, y1: nat, w: nat, h: nat)
    requires x0 < w && x1 < w && y0 < h && y1 < h
    ensures PixelIndex(x0, y0, w, h) == PixelIndex(x1, y1, w, h) <==> x0 == x1 && y0 == y1
  {
    if PixelIndex(x0, y0, w, h) == PixelIndex(x1, y1, w, h) {
      if y0 < y1 {
        assert x0 - x1 == (y1 - y0) * w;
        MulAtLeast(y1 - y0, w);
      } else if y1 < y0 {
        assert x1 - x0 == (y0 - y1) * w;
        MulAtLeast(y0 - y1, w);
      }
    }
  }

  /** Row-major index of pixel `(x, y)` in a `w` by `h` image: always inside the storage. */
  function PixelIndex(x: nat, y: nat, w: nat, h: nat): (i: nat)
    requires x < w && y < h
    ensures i < w * h
  {
    MulAtLeast(h - y, w);
    assert w * h == y * w + (h - y) * w;
    x + y * w
  }

  lemma MulAtLeast(k: int, w: nat)
    requires k >= 1
    ensures k * w >= w
  {
    assert k * w == w + (k - 1) * w;
  }

  datatype ImageDesc = ImageDesc(format: ImageFormat, width: nat, height: nat)

  /** `ImageDesc()`. */
  const DefaultImageDesc: ImageDesc := ImageDesc(R8G8B8A8Uint, 0, 0)

  class Image {
    var format: ImageFormat
    var width: nat
    var height: nat
    var flag: BindFlag
    /** `m_map_flag`: the image owns (allocated) its storage. */
    var owned: bool
    var data: array<Texel>

    /** Storage holds exactly one texel per pixel. */
    ghost predicate Valid()
      reads this
    {
      data.Length == width * height
    }

    /** Every texel is of the element type the format names. */
    ghost predicate Typed()
      reads this, data
    {
      forall i | 0 <= i < data.Length :: TypeCheck(ElementOf(data[i]), format)
    }

    /** Bytes of storage, at `GetTextureFormatSize` bytes per texel. */
    function StorageBytes(): nat
      reads this
      requires format.Known()
    {
      data.Length * GetTextureFormatSize(format)
    }

    /** `Image(desc)`: allocates owned storage for `width * height` pixels. */
    constructor (desc: ImageDesc)
      requires desc.format.Known()
      ensures format == desc.format && width == desc.width && height == desc.height
      ensures flag == Unbound && owned && fresh(data) && Valid() && Typed()
      ensures StorageBytes() == GetTextureFormatSize(desc.format) * desc.width * desc.height
    {
      format, width, height := desc.format, desc.width, desc.height;
      flag, owned := Unbound, true;
      data := new Texel[desc.width * desc.height](_ => ZeroTexel(desc.format));
    }

    /** `Image(desc, pData)`: wraps caller-owned storage. */
    constructor Mapped(desc: ImageDesc, pixels: array<Texel>)
      ensures format == desc.format && width == desc.width && height == desc.height
      ensures flag == Unbound && !owned && data == pixels
    {
      format, width, height := desc.format, desc.width, desc.height;
      flag, owned := Unbound, false;
      data := pixels;
    }

    /** New dimensions; only owned storage is reallocated, mapped storage is kept as it is. */
    method ResizeImage(w: nat, h: nat)
      requires owned ==> format.Known()
      modifies this
      ensures width == w && height == h
      ensures format == old(format) && flag == old(flag) && owned == old(owned)
      ensures owned ==> fresh(data) && Valid() && Typed()
      ensures !owned ==> data == old(data)
    {
      width, height := w, h;
      if owned {
        var f := format;
        data := new Texel[w * h](_ => ZeroTexel(f));
      }
    }

    /** `Clear<T>(pixel)`: throws on a type mismatch, otherwise sets every pixel. */
    method Clear(v: Texel) returns (o: Outcome<Error>)
      requires Valid()
      modifies data
      ensures !TypeCheck(ElementOf(v), format) ==> o == Fail(ImageTypeError) && data[..] == old(data[..])
      ensures TypeCheck(ElementOf(v), format) ==> o == Pass && forall i | 0 <= i < data.Length :: data[i] == v
      ensures TypeCheck(ElementOf(v), format) ==> Typed()
    {
      if !TypeCheck(ElementOf(v), format) {
        return Fail(ImageTypeError);
      }
      var i := 0;
      while i < width * height
        invariant 0 <= i <= data.Length
        invariant forall j | 0 <= j < i :: data[j] == v
      {
        data[i] := v;
        i := i + 1;
      }
      o := Pass;
    }

    method Unbind()
      modifies this`flag
      ensures flag == Unbound
    {
      flag := Unbound;
    }

    method BindShaderResource() returns (o: Outcome<Error>)
      modifies this`flag
      ensures var r := Bind(old(flag), BoundAsShaderResource);
              if r.Ok? then o == Pass && flag == r.value else o == Fail(r.error) && flag == old(flag)
    {
      if flag == BoundAsRenderTarget {
        return Fail(AlreadyBoundAsRenderTarget);
      }
      flag := BoundAsShaderResource;
      o := Pass;
    }

    method BindRenderTarget() returns (o: Outcome<Error>)
      modifies this`flag
      ensures var r := Bind(old(flag), BoundAsRenderTarget);
              if r.Ok? then o == Pass && flag == r.value else o == Fail(r.error) && flag == old(flag)
    {
      if flag == BoundAsShaderResource {
        return Fail(AlreadyBoundAsShaderResource);
      }
      flag := BoundAsRenderTarget;
      o := Pass;
    }

    /** `GetPixel(x, y)` (no range check outside DEBUG builds; required here). */
    function GetPixel(x: nat, y: nat): Texel
      reads this, data
      requires Valid() && x < width && y < height
    {
      data[PixelIndex(x, y, width, height)]
    }

    /** `SetPixel(v, x, y)` writes the pixel's own index (by `PixelIndexInjective`, no other pixel's). */
    method SetPixel(v: Texel, x: nat, y: nat)
      requires Valid() && x < width && y < height
      requires TypeCheck(ElementOf(v), format)
      modifies data
      ensures data[..] == old(data[..])[PixelIndex(x, y, width, height) := v]
      ensures GetPixel(x, y) == v
      ensures forall x': nat, y': nat | x' < width && y' < height && (x' != x || y' != y) ::
        GetPixel(x', y') == old(GetPixel(x', y'))
      ensures old(Typed()) ==> Typed()
    {
      data[PixelIndex(x, y, width, height)] := v;
      forall x': nat, y': nat | x' < width && y' < height && (x' != x || y' != y)
        ensures GetPixel(x', y') == old(GetPixel(x', y'))
      {
        PixelIndexInjective(x, y, x', y', width, height);
      }
    }
  }

  /** `ExtensionImage<T>(desc)`: an owned image, refused when `T` does not match the format. */
  method NewExtensionImage(elem: ElementType, desc: ImageDesc) returns (r: Result<Image, Error>)
    ensures r.Err? <==> !TypeCheck(elem, desc.format)
    ensures r.Err? ==> r.error == ImageTypeError
    ensures r.Ok? ==> fresh(r.value) && fresh(r.value.data) && r.value.owned && r.value.flag == Unbound
    ensures r.Ok? ==> r.value.format == desc.format && r.value.width == desc.width && r.value.height == desc.height
    ensures r.Ok? ==> r.value.Valid() && r.value.Typed()
  {
    if !TypeCheck(elem, desc.format) {
      return Err(ImageTypeError);
    }
    var image := new Image(desc);
    r := Ok(image);
  }

  /** `ExtensionImage<T>(desc, pData)`: wraps caller storage, refused when `T` does not match the format. */
  method NewMappedExtensionImage(elem: ElementType, desc: ImageDesc, pixels: array<Texel>)
    returns (r: Result<Image, Error>)
    ensures r.Err? <==> !TypeCheck(elem, desc.format)
    ensures r.Err? ==> r.error == ImageTypeError
    ensures r.Ok? ==> fresh(r.value) && !r.value.owned && r.value.flag == Unbound && r.value.data == pixels
    ensures r.Ok? ==> r.value.format == desc.format && r.value.width == desc.width && r.value.height == desc.height
  {
    if !TypeCheck(elem, desc.format) {
      return Err(ImageTypeError);
    }
    var image := new Image.Mapped(desc, pixels);
    r := Ok(image);
  }
}
