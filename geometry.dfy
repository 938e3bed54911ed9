/**
 * Vector and matrix values used by the debug-geometry batch.
 *
 * The source works in single-precision floats through glm; this model uses
 * exact reals. Nothing proved here is about geometry: positions and colours
 * are carried from the inputs to the stored primitives, and the proofs are
 * about indices and counts.
 */
module Geometry {
  /** A glm::vec3: a point or direction. */
  datatype Vec3 = Vec3(x: real, y: real, z: real)

  /** A glm::vec4: a homogeneous position or an RGBA colour. */
  datatype Vec4 = Vec4(x: real, y: real, z: real, w: real)

  /** A glm::mat4, stored column by column as glm stores it: column 3 is the translation. */
  datatype Mat4 = Mat4(c0: Vec4, c1: Vec4, c2: Vec4, c3: Vec4)

  /**
   * The platform's single-precision sine and cosine (sinf, cosf). The model
   * does not interpret them; every shape builder that samples angles takes
   * them as a parameter.
   */
  datatype Trig = Trig(sin: real -> real, cos: real -> real)

  /** glm::pi<float>(), the single-precision value of pi. */
  const Pi: real := 3.1415927410125732421875

  /** The sphere builder's DEG2RAD factor. */
  const DegToRad: real := Pi / 180.0

  const White := Vec4(1.0, 1.0, 1.0, 1.0)
  const Red := Vec4(1.0, 0.0, 0.0, 1.0)
  const Green := Vec4(0.0, 1.0, 0.0, 1.0)
  const Blue := Vec4(0.0, 0.0, 1.0, 1.0)

  const Origin := Vec3(0.0, 0.0, 0.0)

  const Identity := Mat4(Vec4(1.0, 0.0, 0.0, 0.0), Vec4(0.0, 1.0, 0.0, 0.0),
                         Vec4(0.0, 0.0, 1.0, 0.0), Vec4(0.0, 0.0, 0.0, 1.0))

  function Add(a: Vec3, b: Vec3): Vec3 {
    Vec3(a.x + b.x, a.y + b.y, a.z + b.z)
  }

  function Sub(a: Vec3, b: Vec3): Vec3 {
    Vec3(a.x - b.x, a.y - b.y, a.z - b.z)
  }

  function Add4(a: Vec4, b: Vec4): Vec4 {
    Vec4(a.x + b.x, a.y + b.y, a.z + b.z, a.w + b.w)
  }

  function Scale4(a: Vec4, s: real): Vec4 {
    Vec4(a.x * s, a.y * s, a.z * s, a.w * s)
  }

  /** The `.xyz` swizzle. */
  function Xyz(v: Vec4): Vec3 {
    Vec3(v.x, v.y, v.z)
  }

  /** glm::vec4(v, 0): a direction, which a matrix rotates and scales but does not translate. */
  function Direction(v: Vec3): Vec4 {
    Vec4(v.x, v.y, v.z, 0.0)
  }

  /** glm::vec4(v, 1): a position, as every stored vertex holds it. */
  function Position(v: Vec3): Vec4 {
    Vec4(v.x, v.y, v.z, 1.0)
  }

  /** The product `m * v` of a column-major matrix and a column vector. */
  function MulVec(m: Mat4, v: Vec4): Vec4 {
    Add4(Add4(Scale4(m.c0, v.x), Scale4(m.c1, v.y)), Add4(Scale4(m.c2, v.z), Scale4(m.c3, v.w)))
  }

  /** `(m * glm::vec4(v, 0)).xyz`, the way every shape builder applies its transform. */
  function TransformDirection(m: Mat4, v: Vec3): Vec3 {
    Xyz(MulVec(m, Direction(v)))
  }

  lemma MulVecIdentity(v: Vec4)
    ensures MulVec(Identity, v) == v
  {
  }
}
