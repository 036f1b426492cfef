/**
 * The small vector types the core uses, over exact numbers: `Vec2I` is a pair
 * of integers, the float vectors are tuples of reals. Only the operations the
 * clipper, the rasterizer and the pipeline apply are defined here.
 */
module Vectors {

  newtype byte = b: int | 0 <= b < 256

  datatype Vec2I = Vec2I(x: int, y: int)
  datatype Vec2 = Vec2(x: real, y: real)
  datatype Vec3 = Vec3(x: real, y: real, z: real)
  datatype Vec4 = Vec4(x: real, y: real, z: real, w: real)
  /** `Vec4<uint8_t>`. */
  datatype Vec4B = Vec4B(x: byte, y: byte, z: byte, w: byte)

  const Zero2: Vec2 := Vec2(0.0, 0.0)
  const Zero3: Vec3 := Vec3(0.0, 0.0, 0.0)
  const Zero4: Vec4 := Vec4(0.0, 0.0, 0.0, 0.0)

  function Sub2I(a: Vec2I, b: Vec2I): Vec2I { Vec2I(a.x - b.x, a.y - b.y) }

  function Scale2(a: Vec2, s: real): Vec2 { Vec2(a.x * s, a.y * s) }
  function Scale3(a: Vec3, s: real): Vec3 { Vec3(a.x * s, a.y * s, a.z * s) }
  function Scale4(a: Vec4, s: real): Vec4 { Vec4(a.x * s, a.y * s, a.z * s, a.w * s) }

  function Add2(a: Vec2, b: Vec2): Vec2 { Vec2(a.x + b.x, a.y + b.y) }
  function Add3(a: Vec3, b: Vec3): Vec3 { Vec3(a.x + b.x, a.y + b.y, a.z + b.z) }
  function Add4(a: Vec4, b: Vec4): Vec4 { Vec4(a.x + b.x, a.y + b.y, a.z + b.z, a.w + b.w) }

  /** `a * (1 - t) + b * t`, the clipper's blend. */
  function Lerp2(a: Vec2, b: Vec2, t: real): Vec2 { Add2(Scale2(a, 1.0 - t), Scale2(b, t)) }
  function Lerp3(a: Vec3, b: Vec3, t: real): Vec3 { Add3(Scale3(a, 1.0 - t), Scale3(b, t)) }
  function Lerp4(a: Vec4, b: Vec4, t: real): Vec4 { Add4(Scale4(a, 1.0 - t), Scale4(b, t)) }

  /** `a * t0 + b * t1 + c * t2`, the rasterizer's blend. */
  function Blend2(a: Vec2, b: Vec2, c: Vec2, t0: real, t1: real, t2: real): Vec2
  { Add2(Add2(Scale2(a, t0), Scale2(b, t1)), Scale2(c, t2)) }
  function Blend3(a: Vec3, b: Vec3, c: Vec3, t0: real, t1: real, t2: real): Vec3
  { Add3(Add3(Scale3(a, t0), Scale3(b, t1)), Scale3(c, t2)) }
  function Blend4(a: Vec4, b: Vec4, c: Vec4, t0: real, t1: real, t2: real): Vec4
  { Add4(Add4(Scale4(a, t0), Scale4(b, t1)), Scale4(c, t2)) }

  function Min(a: int, b: int): int { if a < b then a else b }
  function Max(a: int, b: int): int { if a > b then a else b }

  /** `static_cast<int>` of a value: truncation toward zero. */
  function Trunc(r: real): (n: int)
    ensures r >= 0.0 ==> n as real <= r < n as real + 1.0
    ensures r < 0.0 ==> n as real - 1.0 < r <= n as real
  {
    if r >= 0.0 then r.Floor else -((-r).Floor)
  }
}
