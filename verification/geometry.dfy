/** Small value types shared by every stage of the overlay pipeline.

    Vectors are exact reals. The floating-point numerics the overlay borrows from
    its host (normalisation, Euclidean length, the angle between two vectors, the
    area of a triangle and the z component of a triangle's normal) are not defined
    here: they are carried in a `Numerics` record of function values and passed to
    the operations that use them, so every property proved below holds whatever
    those functions compute, save one that assumes the zero vector has length 0. */
module Geometry {

  datatype Vec2 = Vec2(x: real, y: real)
  datatype Vec3 = Vec3(x: real, y: real, z: real)
  datatype Vec4 = Vec4(x: real, y: real, z: real, w: real)

  const Zero2: Vec2 := Vec2(0.0, 0.0)
  const Zero3: Vec3 := Vec3(0.0, 0.0, 0.0)
  const Zero4: Vec4 := Vec4(0.0, 0.0, 0.0, 0.0)

  /** World +Z, the explosion direction of an island centred on the object origin. */
  const Up: Vec3 := Vec3(0.0, 0.0, 1.0)

  function Add(a: Vec3, b: Vec3): Vec3 {
    Vec3(a.x + b.x, a.y + b.y, a.z + b.z)
  }

  function Sub(a: Vec3, b: Vec3): Vec3 {
    Vec3(a.x - b.x, a.y - b.y, a.z - b.z)
  }

  function Scale(k: real, a: Vec3): Vec3 {
    Vec3(k * a.x, k * a.y, k * a.z)
  }

  function Plus(a: Vec2, b: Vec2): Vec2 {
    Vec2(a.x + b.x, a.y + b.y)
  }

  /** An RGB theme colour made opaque, as `(*rgb, 1.0)` does. */
  function Opaque(rgb: Vec3): Vec4 {
    Vec4(rgb.x, rgb.y, rgb.z, 1.0)
  }

  /** A UV coordinate copied into a 3D vector with z = 0. */
  function Lift(uv: Vec2): Vec3 {
    Vec3(uv.x, uv.y, 0.0)
  }

  /** The host's floating-point vector operations, left uninterpreted. */
  datatype Numerics = Numerics(
    normalize: Vec3 -> Vec3,
    length: Vec3 -> real,
    angle: (Vec3, Vec3) -> real,
    areaTri: (Vec3, Vec3, Vec3) -> real,
    normalZ: (Vec3, Vec3, Vec3) -> real
  )
}

/** Optional values. */
module Wrappers {

  datatype Option<+T> = None | Some(value: T) {
    function GetOr(default: T): T {
      match this
      case Some(v) => v
      case None => default
    }
  }
}
