/** The camera-mode machine driven by the C key (src/main.cpp:2079-2142) and
    the scroll-wheel zoom (src/main.cpp:1862-1876). */
module Camera {
  import opened Numeric

  datatype CameraMode = LookAtWhiteBall | FreeCamera | Bezier

  /** Spherical camera parameters: distance from the origin and the two angles. */
  datatype View = View(distance: real, phi: real, theta: real)

  /** The camera state: its mode, the current view, the view saved when the
      free camera was entered, and the aiming angle the C key re-seeds. */
  datatype Cam = Cam(mode: CameraMode, view: View, saved: View, aimingAngle: real)

  /** M_PI. */
  const Pi: real := 3.14159265358979323846
  /** The free camera's phi limit, written 3.141592 / 2 in the source. */
  const PhiMax: real := 3.141592 / 2.0
  const MinCameraDistance: real := 1.0
  const MaxCameraDistance: real := 5.0

  /** The mode after a C press. The menu (Bezier) mode first becomes LOOKAT,
      and the very next test sees LOOKAT and switches again, so the menu
      goes straight to the free camera. */
  function NextMode(m: CameraMode): (n: CameraMode)
    ensures n != Bezier
    ensures n == LookAtWhiteBall <==> m == FreeCamera
  {
    var m1 := if m == Bezier then LookAtWhiteBall else m;
    if m1 == LookAtWhiteBall then FreeCamera
    else if m1 == FreeCamera then LookAtWhiteBall
    else m1
  }

  /** After the first press the two remaining modes alternate. */
  lemma ModesAlternate(m: CameraMode)
    ensures NextMode(NextMode(m)) != NextMode(m)
    ensures m != Bezier ==> NextMode(NextMode(m)) == m
  {
  }

  /** A C press. Entering the free camera saves the view, re-seeds the aiming
      angle from theta, and points the camera at the origin: `lookPhi` and
      `lookTheta` are the two atan2 results, and phi is clamped to
      [-PhiMax, PhiMax]. Entering LOOKAT restores the saved view. */
  function PressC(c: Cam, lookPhi: real, lookTheta: real): (r: Cam)
    ensures r.mode == NextMode(c.mode)
    ensures r.mode == FreeCamera ==>
              r.saved == c.view && r.aimingAngle == c.view.theta + Pi &&
              r.view.distance == c.view.distance && r.view.theta == lookTheta &&
              -PhiMax <= r.view.phi <= PhiMax &&
              (-PhiMax <= lookPhi <= PhiMax ==> r.view.phi == lookPhi)
    ensures r.mode == LookAtWhiteBall ==>
              r.view == c.saved && r.saved == c.saved && r.aimingAngle == c.aimingAngle
  {
    var mode := NextMode(c.mode);
    if mode == FreeCamera then
      Cam(mode, View(c.view.distance, ClampReal(lookPhi, -PhiMax, PhiMax), lookTheta), c.view, c.view.theta + Pi)
    else
      c.(mode := mode, view := c.saved)
  }

  /** Leaving the free camera puts back exactly the view that was in place
      when it was entered, however the free camera moved in between. */
  lemma RestoreRoundTrip(c: Cam, free: Cam, phi1: real, theta1: real, phi2: real, theta2: real)
    requires c.mode == LookAtWhiteBall
    requires free.mode == FreeCamera && free.saved == PressC(c, phi1, theta1).saved
    ensures PressC(c, phi1, theta1).mode == FreeCamera
    ensures PressC(free, phi2, theta2).mode == LookAtWhiteBall
    ensures PressC(free, phi2, theta2).view == c.view
  {
  }

  /** The scroll wheel: in LOOKAT mode it zooms by the wheel offset and the
      distance is clamped to [1, 5]; in the other modes it does nothing. */
  function Scroll(c: Cam, yoffset: real): (r: Cam)
    ensures c.mode == LookAtWhiteBall ==>
              r == c.(view := r.view) && r.view == c.view.(distance := r.view.distance) &&
              MinCameraDistance <= r.view.distance <= MaxCameraDistance
    ensures c.mode == LookAtWhiteBall && MinCameraDistance <= c.view.distance - yoffset <= MaxCameraDistance ==>
              r.view.distance == c.view.distance - yoffset
    ensures c.mode == LookAtWhiteBall && c.view.distance - yoffset < MinCameraDistance ==>
              r.view.distance == MinCameraDistance
    ensures c.mode == LookAtWhiteBall && MaxCameraDistance < c.view.distance - yoffset ==>
              r.view.distance == MaxCameraDistance
    ensures c.mode != LookAtWhiteBall ==> r == c
  {
    if c.mode == LookAtWhiteBall then
      var d := c.view.distance - yoffset;
      var d1 := if d < MinCameraDistance then MinCameraDistance else d;
      var d2 := if d1 > MaxCameraDistance then MaxCameraDistance else d1;
      c.(view := c.view.(distance := d2))
    else c
  }

  /** Within the limits a scroll is undone by the opposite scroll. */
  lemma ScrollUndo(c: Cam, y: real)
    requires c.mode == LookAtWhiteBall
    requires MinCameraDistance <= c.view.distance <= MaxCameraDistance
    requires MinCameraDistance <= c.view.distance - y <= MaxCameraDistance
    ensures Scroll(Scroll(c, y), -y) == c
  {
  }
}
