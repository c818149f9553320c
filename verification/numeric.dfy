/** The scalar operations the physics borrows from C++ and glm:
    the truncating float-to-int cast, glm::clamp, and the square root that
    underlies glm::length. */
module Numeric {
  import opened Vectors

  /** `static_cast<int>(r)`: truncation toward zero (the integer range limit of
      the cast is not modelled). */
  function Trunc(r: real): (n: int)
    ensures 0.0 <= r ==> 0 <= n && n as real <= r < n as real + 1.0
    ensures r < 0.0 ==> n <= 0 && (n - 1) as real < r <= n as real
  {
    if r >= 0.0 then r.Floor else -((-r).Floor)
  }

  /** glm::clamp on integers. */
  function ClampInt(v: int, lo: int, hi: int): (r: int)
    requires lo <= hi
    ensures lo <= r <= hi
    ensures lo <= v <= hi ==> r == v
    ensures v < lo ==> r == lo
    ensures hi < v ==> r == hi
  {
    if v < lo then lo else if hi < v then hi else v
  }

  /** glm::clamp on floats. */
  function ClampReal(v: real, lo: real, hi: real): (r: real)
    requires lo <= hi
    ensures lo <= r <= hi
    ensures lo <= v <= hi ==> r == v
    ensures v < lo ==> r == lo
    ensures hi < v ==> r == hi
  {
    if v < lo then lo else if hi < v then hi else v
  }

  /** `sqrt` is an exact non-negative square root on the non-negative reals.
      glm::length is this root applied to a dot product. */
  ghost predicate IsSqrt(sqrt: real -> real) {
    forall x: real :: 0.0 <= x ==> 0.0 <= sqrt(x) && sqrt(x) * sqrt(x) == x
  }

  /** A square root is zero exactly when its square is. */
  lemma RootZero(q: real, root: real)
    requires 0.0 <= root && root * root == q
    ensures root == 0.0 <==> q == 0.0
  {
    if root != 0.0 {
      SquarePositive(root);
      calc { q; == root * root; > 0.0; }
    }
  }

  /** glm::length of a 3-D vector. */
  function Length(d: Vec3, sqrt: real -> real): (len: real)
    requires IsSqrt(sqrt)
    ensures 0.0 <= len && len * len == Dot(d, d)
    ensures len == 0.0 <==> d == Zero3
  {
    var q := Dot(d, d);
    DotSelfNonNegative(d);
    ZeroLength(d);
    var len := sqrt(q);
    assert 0.0 <= len && len * len == q;
    RootZero(q, len);
    len
  }

  /** glm::length of a plane vector. */
  function Length2(d: Vec2, sqrt: real -> real): (len: real)
    requires IsSqrt(sqrt)
    ensures 0.0 <= len && len * len == Dot2(d, d)
    ensures len == 0.0 <==> d == Vec2(0.0, 0.0)
  {
    var q := Dot2(d, d);
    Dot2SelfNonNegative(d);
    ZeroLength2(d);
    var len := sqrt(q);
    assert 0.0 <= len && len * len == q;
    RootZero(q, len);
    len
  }

  /** Comparing a root with a non-negative bound is comparing squares. */
  lemma RootBelow(q: real, root: real, bound: real)
    requires 0.0 <= root && root * root == q && 0.0 <= bound
    ensures root < bound <==> q < bound * bound
    ensures root <= bound <==> q <= bound * bound
  {
    var rr, rb, bb := root * root, root * bound, bound * bound;
    if root < bound {
      assert rr <= rb && rb < bb;
    } else if bound < root {
      assert bb <= rb && rb < rr;
    }
  }
}
