/** Small real-valued vector algebra standing in for glm::vec3 and glm::vec2.
    Floats are idealised as reals; no rounding is modelled. */
module Vectors {

  /** A point or direction in world space. */
  datatype Vec3 = Vec3(x: real, y: real, z: real)

  /** A vector in the horizontal x/z plane of the table (glm::vec2 holding x and z). */
  datatype Vec2 = Vec2(x: real, z: real)

  const Zero3: Vec3 := Vec3(0.0, 0.0, 0.0)

  function Add(a: Vec3, b: Vec3): Vec3 { Vec3(a.x + b.x, a.y + b.y, a.z + b.z) }

  function Sub(a: Vec3, b: Vec3): Vec3 { Vec3(a.x - b.x, a.y - b.y, a.z - b.z) }

  function Scale(k: real, a: Vec3): Vec3 { Vec3(k * a.x, k * a.y, k * a.z) }

  function Dot(a: Vec3, b: Vec3): real { a.x * b.x + a.y * b.y + a.z * b.z }

  function Cross(a: Vec3, b: Vec3): Vec3 {
    Vec3(a.y * b.z - a.z * b.y, a.z * b.x - a.x * b.z, a.x * b.y - a.y * b.x)
  }

  function Add2(a: Vec2, b: Vec2): Vec2 { Vec2(a.x + b.x, a.z + b.z) }

  function Sub2(a: Vec2, b: Vec2): Vec2 { Vec2(a.x - b.x, a.z - b.z) }

  function Scale2(k: real, a: Vec2): Vec2 { Vec2(k * a.x, k * a.z) }

  function Dot2(a: Vec2, b: Vec2): real { a.x * b.x + a.z * b.z }

  /** The horizontal part of a 3-D vector. */
  function Flat(a: Vec3): Vec2 { Vec2(a.x, a.z) }

  lemma SubZero(a: Vec3, b: Vec3)
    ensures Sub(a, b) == Zero3 <==> a == b
  {
  }

  lemma DotSelfNonNegative(a: Vec3)
    ensures Dot(a, a) >= 0.0
  {
    assert a.x * a.x >= 0.0 && a.y * a.y >= 0.0 && a.z * a.z >= 0.0;
  }

  lemma Dot2SelfNonNegative(a: Vec2)
    ensures Dot2(a, a) >= 0.0
  {
    assert a.x * a.x >= 0.0 && a.z * a.z >= 0.0;
  }

  lemma SquarePositive(x: real)
    requires x != 0.0
    ensures x * x > 0.0
  {
    if x < 0.0 {
      assert x * x == (-x) * (-x);
    }
  }

  /** Only the zero vector has zero length. */
  lemma ZeroLength(a: Vec3)
    ensures Dot(a, a) == 0.0 <==> a == Zero3
  {
    if a != Zero3 {
      assert a.x * a.x >= 0.0 && a.y * a.y >= 0.0 && a.z * a.z >= 0.0;
      assert Dot(a, a) == a.x * a.x + a.y * a.y + a.z * a.z;
      if a.x != 0.0 {
        SquarePositive(a.x);
        calc { Dot(a, a); >= a.x * a.x; > 0.0; }
      } else if a.y != 0.0 {
        SquarePositive(a.y);
        calc { Dot(a, a); >= a.y * a.y; > 0.0; }
      } else {
        SquarePositive(a.z);
        calc { Dot(a, a); >= a.z * a.z; > 0.0; }
      }
    }
  }

  lemma ZeroLength2(a: Vec2)
    ensures Dot2(a, a) == 0.0 <==> a == Vec2(0.0, 0.0)
  {
    if a != Vec2(0.0, 0.0) {
      assert a.x * a.x >= 0.0 && a.z * a.z >= 0.0;
      assert Dot2(a, a) == a.x * a.x + a.z * a.z;
      if a.x != 0.0 {
        SquarePositive(a.x);
        calc { Dot2(a, a); >= a.x * a.x; > 0.0; }
      } else {
        SquarePositive(a.z);
        calc { Dot2(a, a); >= a.z * a.z; > 0.0; }
      }
    }
  }

  /** glm::normalize of a vector whose length `len` is known and non-zero. */
  function Normalize(d: Vec3, len: real): (n: Vec3)
    requires len > 0.0 && len * len == Dot(d, d)
    ensures Dot(n, n) == 1.0 && Scale(len, n) == d
  {
    UnitDirection(d, len);
    Scale(1.0 / len, d)
  }

  /** The plane version of Normalize. */
  function Normalize2(d: Vec2, len: real): (n: Vec2)
    requires len > 0.0 && len * len == Dot2(d, d)
    ensures Dot2(n, n) == 1.0 && Scale2(len, n) == d
  {
    UnitDirection2(d, len);
    Scale2(1.0 / len, d)
  }

  /** Dividing a non-zero vector by its length gives a unit vector that,
      scaled back by the length, is the vector again (glm::normalize). */
  lemma UnitDirection(d: Vec3, len: real)
    requires len > 0.0 && len * len == Dot(d, d)
    ensures Dot(Scale(1.0 / len, d), Scale(1.0 / len, d)) == 1.0
    ensures Scale(len, Scale(1.0 / len, d)) == d
  {
    var k := 1.0 / len;
    calc {
      Dot(Scale(k, d), Scale(k, d));
      k * k * Dot(d, d);
      k * k * (len * len);
      (k * len) * (k * len);
    }
  }

  /** The plane version of UnitDirection. */
  lemma UnitDirection2(d: Vec2, len: real)
    requires len > 0.0 && len * len == Dot2(d, d)
    ensures Dot2(Scale2(1.0 / len, d), Scale2(1.0 / len, d)) == 1.0
    ensures Scale2(len, Scale2(1.0 / len, d)) == d
  {
    var k := 1.0 / len;
    calc {
      Dot2(Scale2(k, d), Scale2(k, d));
      k * k * Dot2(d, d);
      k * k * (len * len);
      (k * len) * (k * len);
    }
  }
}
