/**
 * Value types shared by the trail component and its render adapter:
 * points, colours, the engine's 4x4 matrix and the square-root routines
 * used to normalise tangents.
 */
module Geometry {

  datatype Option<T> = None | Some(value: T)

  /** A world-space position (the engine's Vec3, by value). */
  datatype Vec3 = Vec3(x: real, y: real, z: real)

  /** A planar vector or point. */
  datatype Vec2 = Vec2(x: real, y: real)

  /** What a freshly pushed pool slot holds (`v3()`). */
  const Origin: Vec3 := Vec3(0.0, 0.0, 0.0)

  /** An RGBA colour with 8-bit channels, as the editor stores it. */
  datatype Color = Color(r: int, g: int, b: int, a: int)

  const White: Color := Color(255, 255, 255, 255)

  /** World: geometry stays in world space. Local: it is re-expressed in the node's space. */
  datatype CoordinateMode = World | Local

  /** The engine's 4x4 matrix; entry mRC-style names as the engine spells them. */
  datatype Mat4 = Mat4(
    m00: real, m01: real, m02: real, m03: real,
    m04: real, m05: real, m06: real, m07: real,
    m08: real, m09: real, m10: real, m11: real,
    m12: real, m13: real, m14: real, m15: real)

  const Identity: Mat4 := Mat4(
    1.0, 0.0, 0.0, 0.0,
    0.0, 1.0, 0.0, 0.0,
    0.0, 0.0, 1.0, 0.0,
    0.0, 0.0, 0.0, 1.0)

  type Positive = r: real | r > 0.0 witness 1.0

  /**
   * The two reciprocal/square-root routines the tangent normalisation may use:
   * the platform square root (positive on positive input) and the bit-trick
   * reciprocal square root. Both are left uninterpreted.
   */
  datatype Numerics = Numerics(sqrt: Positive -> Positive, fastInvSqrt: real -> real)

  function Sqrt(num: Numerics, x: Positive): Positive
  {
    num.sqrt(x)
  }

  function FastInvSqrt(num: Numerics, x: real): real
  {
    num.fastInvSqrt(x)
  }

  /** Reciprocal homogeneous weight of (x, y, 0, 1) under m; a zero weight counts as 1. */
  function Rhw(m: Mat4, x: real, y: real): real
  {
    var w := m.m03 * x + m.m07 * y + m.m15;
    if w != 0.0 then 1.0 / w else 1.0
  }

  /**
   * The point (x, y, 0, 1) transformed by m and divided by its weight:
   * the x and y coordinates the component emits in Local mode.
   */
  function Transform2(m: Mat4, x: real, y: real): Vec2
  {
    var rhw := Rhw(m, x, y);
    Vec2((m.m00 * x + m.m04 * y + m.m12) * rhw, (m.m01 * x + m.m05 * y + m.m13) * rhw)
  }

  /** The z coordinate of the same transform, which the render adapter also writes. */
  function TransformZ(m: Mat4, x: real, y: real): real
  {
    (m.m02 * x + m.m06 * y + m.m14) * Rhw(m, x, y)
  }

  /** Under the identity matrix Local mode emits exactly what World mode does. */
  lemma IdentityKeepsPoint(x: real, y: real)
    ensures Transform2(Identity, x, y) == Vec2(x, y)
    ensures TransformZ(Identity, x, y) == 0.0
  {
    assert Rhw(Identity, x, y) == 1.0;
  }
}
