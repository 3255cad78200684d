// The orbit camera of the atlas over the reals (dashboard/src/atlas/camera.ts):
// angles are given by their cosine and sine.
module AtlasCamera {

  const NEAR: real := 1.0
  const MIN_DISTANCE: real := 8.0
  const MAX_DISTANCE: real := 4000.0

  datatype Vec = Vec(x: real, y: real, z: real)

  datatype Angle = Angle(c: real, s: real) {
    predicate Valid() {
      c * c + s * s == 1.0
    }
  }

  datatype Camera = Camera(yaw: Angle, pitch: Angle, distance: real, target: Vec) {
    predicate Valid() {
      yaw.Valid() && pitch.Valid() && distance > 0.0
    }
  }

  // The viewport: its size and the focal length its height gives.
  datatype View = View(width: real, height: real, focal: real) {
    predicate Valid() {
      focal > 0.0
    }
  }

  function Plus(u: Vec, v: Vec): Vec {
    Vec(u.x + v.x, u.y + v.y, u.z + v.z)
  }

  function Minus(u: Vec, v: Vec): Vec {
    Vec(u.x - v.x, u.y - v.y, u.z - v.z)
  }

  function Times(v: Vec, k: real): Vec {
    Vec(v.x * k, v.y * k, v.z * k)
  }

  // --- rotations -------------------------------------------------------------------

  datatype Pair = Pair(u: real, v: real)

  // A point of the plane turned by an angle, and turned back.
  function Turn(t: Angle, a: real, b: real): Pair {
    Pair(a * t.c - b * t.s, a * t.s + b * t.c)
  }

  function TurnBack(t: Angle, a: real, b: real): Pair {
    Pair(a * t.c + b * t.s, -a * t.s + b * t.c)
  }

  lemma Scaled(u: real, x: real, y: real, k: real)
    requires u == x + y
    ensures u * k == x * k + y * k
  {
  }

  lemma Pythagoras(a: real, c: real, s: real)
    requires c * c + s * s == 1.0
    ensures a * c * c + a * s * s == a
  {
    Associate(a, c, c);
    Associate(a, s, s);
    Scaled(c * c + s * s, c * c, s * s, a);
  }

  lemma Swap(b: real, s: real, c: real)
    ensures b * s * c == b * c * s
  {
  }

  // Turned by an angle whose sine is `s` and back.
  lemma Cancel(a: real, b: real, c: real, s: real, u: real, v: real)
    requires c * c + s * s == 1.0 && u == a * c - b * s && v == a * s + b * c
    ensures u * c + v * s == a && -u * s + v * c == b
  {
    Scaled(u, a * c, -(b * s), c);
    Scaled(v, a * s, b * c, s);
    Scaled(-u, b * s, -(a * c), s);
    Scaled(v, a * s, b * c, c);
    Negate(b * s, c);
    Negate(a * c, s);
    Swap(b, s, c);
    Swap(a, s, c);
    Pythagoras(a, c, s);
    Pythagoras(b, c, s);
  }

  lemma TurnsCancel(t: Angle, a: real, b: real)
    requires t.Valid()
    ensures TurnBack(t, Turn(t, a, b).u, Turn(t, a, b).v) == Pair(a, b)
    ensures Turn(t, TurnBack(t, a, b).u, TurnBack(t, a, b).v) == Pair(a, b)
  {
    Cancel(a, b, t.c, t.s, Turn(t, a, b).u, Turn(t, a, b).v);
    var x, y := TurnBack(t, a, b).u, TurnBack(t, a, b).v;
    Negate(b, t.s);
    Negate(a, t.s);
    Negate(y, t.s);
    Negate(x, -t.s);
    NegateRight(b, t.s);
    NegateRight(a, t.s);
    NegateRight(y, t.s);
    NegateRight(x, t.s);
    Opposite(t.s);
    Cancel(a, b, t.c, -t.s, x, y);
  }

  lemma NegateRight(a: real, b: real)
    ensures a * -b == -(a * b)
  {
  }

  lemma Opposite(s: real)
    ensures -s * -s == s * s
  {
  }

  // The rotation of toCamera.
  function Rotate(cam: Camera, v: Vec): Vec {
    var flat := Turn(cam.yaw, v.x, v.z);
    var tilted := Turn(cam.pitch, v.y, flat.v);
    Vec(flat.u, tilted.u, tilted.v)
  }

  function ToCamera(cam: Camera, p: Vec): Vec {
    Rotate(cam, Minus(p, cam.target))
  }

  function ToWorldDirection(cam: Camera, v: Vec): Vec {
    var level := TurnBack(cam.pitch, v.y, v.z);
    var world := TurnBack(cam.yaw, v.x, level.v);
    Vec(world.u, level.u, world.v)
  }

  // toWorldDirection undoes the rotation of toCamera, on both sides.
  lemma RotationsCancel(cam: Camera, v: Vec)
    requires cam.Valid()
    ensures ToWorldDirection(cam, Rotate(cam, v)) == v
    ensures Rotate(cam, ToWorldDirection(cam, v)) == v
  {
    TurnsCancel(cam.yaw, v.x, v.z);
    TurnsCancel(cam.pitch, v.y, Turn(cam.yaw, v.x, v.z).v);
    TurnsCancel(cam.pitch, v.y, v.z);
    TurnsCancel(cam.yaw, v.x, TurnBack(cam.pitch, v.y, v.z).v);
    hide Turn, TurnBack;
  }

  lemma TurnIsLinear(t: Angle, a: real, b: real, p: real, q: real, k: real, x: real, y: real)
    requires x == a + p * k && y == b + q * k
    ensures Turn(t, x, y).u == Turn(t, a, b).u + Turn(t, p, q).u * k
    ensures Turn(t, x, y).v == Turn(t, a, b).v + Turn(t, p, q).v * k
  {
    Distribute(a, b, p, q, k, t.c, t.s);
  }

  lemma Distribute(a: real, b: real, p: real, q: real, k: real, c: real, s: real)
    ensures (a + p * k) * c - (b + q * k) * s == (a * c - b * s) + (p * c - q * s) * k
    ensures (a + p * k) * s + (b + q * k) * c == (a * s + b * c) + (p * s + q * c) * k
  {
  }

  lemma RotateIsLinear(cam: Camera, u: Vec, v: Vec, k: real)
    ensures Rotate(cam, Plus(u, Times(v, k))) == Plus(Rotate(cam, u), Times(Rotate(cam, v), k))
  {
    hide Turn;
    var w := Plus(u, Times(v, k));
    var fu, fv, fw := Turn(cam.yaw, u.x, u.z), Turn(cam.yaw, v.x, v.z), Turn(cam.yaw, w.x, w.z);
    TurnIsLinear(cam.yaw, u.x, u.z, v.x, v.z, k, w.x, w.z);
    TurnIsLinear(cam.pitch, u.y, fu.v, v.y, fv.v, k, w.y, fw.v);
  }

  // --- projection -------------------------------------------------------------------

  datatype Projected = Projected(x: real, y: real, scale: real, depth: real, inFront: bool)

  // project, without the test of the screen's margins.
  function Project(cam: Camera, p: Vec, view: View): Projected {
    var c := ToCamera(cam, p);
    var depth := c.z + cam.distance;
    if depth <= NEAR then Projected(0.0, 0.0, 0.0, depth, false)
    else
      var scale := view.focal / depth;
      Projected(view.width / 2.0 + c.x * scale, view.height / 2.0 - c.y * scale, scale, depth, true)
  }

  // A point of the plane through the target, parallel to the screen.
  predicate OnTargetPlane(cam: Camera, p: Vec) {
    ToCamera(cam, p).z == 0.0
  }

  // A length on the screen as a vector of the target plane.
  function OnScreen(cam: Camera, x: real, y: real, view: View): Vec
    requires view.Valid()
  {
    var unit := cam.distance / view.focal;
    Vec(x * unit, y * unit, 0.0)
  }

  function Pan(cam: Camera, dx: real, dy: real, view: View): Camera
    requires view.Valid()
  {
    cam.(target := Plus(cam.target, ToWorldDirection(cam, OnScreen(cam, -dx, dy, view))))
  }

  function Max(a: real, b: real): real {
    if a < b then b else a
  }

  function Min(a: real, b: real): real {
    if b < a then b else a
  }

  // The point of the target plane under the cursor, relative to the target.
  function UnderCursor(cam: Camera, sx: real, sy: real, view: View): Vec
    requires view.Valid()
  {
    ToWorldDirection(cam, OnScreen(cam, sx - view.width / 2.0, view.height / 2.0 - sy, view))
  }

  function ZoomAt(cam: Camera, factor: real, sx: real, sy: real, view: View): Camera
    requires cam.Valid() && view.Valid()
  {
    var distance := Max(MIN_DISTANCE, Min(MAX_DISTANCE, cam.distance * factor));
    var applied := distance / cam.distance;
    cam.(distance := distance, target := Plus(cam.target, Times(UnderCursor(cam, sx, sy, view), 1.0 - applied)))
  }

  // Moving the target by `move` moves every point the other way in the camera's frame.
  lemma MovedTarget(cam: Camera, moved: Camera, p: Vec, move: Vec, k: real)
    requires cam.Valid() && moved.yaw == cam.yaw && moved.pitch == cam.pitch
    requires moved.target == Plus(cam.target, Times(ToWorldDirection(cam, move), k))
    ensures ToCamera(moved, p) == Minus(ToCamera(cam, p), Times(move, k))
  {
    var d := ToWorldDirection(cam, move);
    RotationsCancel(cam, move);
    RotateIsLinear(cam, Minus(p, cam.target), d, -k);
    assert Minus(p, moved.target) == Plus(Minus(p, cam.target), Times(d, -k));
    hide Turn, TurnBack, ToWorldDirection;
    assert Rotate(moved, Minus(p, moved.target)) == Rotate(cam, Minus(p, moved.target));
  }

  // x / d + e / d
  lemma Shift(base: real, x: real, e: real, f: real, depth: real)
    requires depth != 0.0
    ensures base + (x + e) * (f / depth) == base + x * (f / depth) + e * (f / depth)
  {
  }

  lemma Ratio(dx: real, distance: real, f: real, depth: real)
    requires f > 0.0 && depth != 0.0
    ensures dx * (distance / f) * (f / depth) == dx * (distance / depth)
  {
    assert (distance / f) * (f / depth) == distance / depth;
    Associate(dx, distance / f, f / depth);
  }

  lemma Associate(a: real, b: real, c: real)
    ensures a * b * c == a * (b * c)
  {
  }

  // A visible point moves by (dx, dy) times the ratio of the target's depth to
  // its own.
  lemma PanMoves(cam: Camera, dx: real, dy: real, view: View, p: Vec)
    requires cam.Valid() && view.Valid() && Project(cam, p, view).inFront
    ensures var was, now := Project(cam, p, view), Project(Pan(cam, dx, dy, view), p, view);
            && now.inFront && now.depth == was.depth
            && now.x == was.x + dx * (cam.distance / was.depth)
            && now.y == was.y + dy * (cam.distance / was.depth)
  {
    hide ToCamera, ToWorldDirection;
    var c := ToCamera(cam, p);
    var panned, move := Pan(cam, dx, dy, view), OnScreen(cam, -dx, dy, view);
    assert Times(ToWorldDirection(cam, move), 1.0) == ToWorldDirection(cam, move);
    MovedTarget(cam, panned, p, move, 1.0);
    var moved := ToCamera(panned, p);
    var depth := c.z + cam.distance;
    Negate(dx, cam.distance / view.focal);
    Negate(dy, cam.distance / view.focal);
    ShiftedX(view.width / 2.0, c.x, dx, cam.distance, view.focal, depth, moved.x);
    ShiftedX(-view.height / 2.0, c.y, -dy, cam.distance, view.focal, depth, moved.y);
    Negate(dy, cam.distance / depth);
  }

  lemma Negate(a: real, b: real)
    ensures -a * b == -(a * b)
  {
  }

  lemma ShiftedX(base: real, x: real, dx: real, distance: real, f: real, depth: real, moved: real)
    requires f > 0.0 && depth != 0.0 && moved == x + dx * (distance / f)
    ensures base + moved * (f / depth) == base + x * (f / depth) + dx * (distance / depth)
  {
    Shift(base, x, dx * (distance / f), f, depth);
    Ratio(dx, distance, f, depth);
  }

  // It moves by exactly (dx, dy) if and only if it lies in the target plane or
  // there is nothing to move.
  lemma PanIsExactOnTargetPlane(cam: Camera, dx: real, dy: real, view: View, p: Vec)
    requires cam.Valid() && view.Valid() && Project(cam, p, view).inFront
    ensures var was, now := Project(cam, p, view), Project(Pan(cam, dx, dy, view), p, view);
            (now.x == was.x + dx && now.y == was.y + dy) <==> OnTargetPlane(cam, p) || (dx == 0.0 && dy == 0.0)
  {
    PanMoves(cam, dx, dy, view, p);
    var depth := Project(cam, p, view).depth;
    FixesOnlyOne(dx, cam.distance, depth);
    FixesOnlyOne(dy, cam.distance, depth);
    hide ToCamera, Pan;
  }

  lemma FixesOnlyOne(a: real, b: real, c: real)
    requires c > 0.0
    ensures a * (b / c) == a <==> a == 0.0 || b == c
  {
    var q := b / c;
    assert q * c == b;
    if a != 0.0 && a * q == a {
      assert a * (q - 1.0) == 0.0;
    }
  }

  // The point under the cursor lies in the target plane and shows there.
  lemma CursorPoint(cam: Camera, sx: real, sy: real, view: View)
    requires cam.Valid() && view.Valid()
    ensures ToCamera(cam, Plus(cam.target, UnderCursor(cam, sx, sy, view)))
            == OnScreen(cam, sx - view.width / 2.0, view.height / 2.0 - sy, view)
  {
    hide Rotate, ToWorldDirection;
    var v := OnScreen(cam, sx - view.width / 2.0, view.height / 2.0 - sy, view);
    RotationsCancel(cam, v);
    var offset := UnderCursor(cam, sx, sy, view);
    assert Minus(Plus(cam.target, offset), cam.target) == offset;
  }

  // A point of the target plane is seen where its frame coordinates say.
  lemma PlanePoint(cam: Camera, p: Vec, x: real, y: real, view: View)
    requires cam.distance > NEAR && view.Valid()
    requires ToCamera(cam, p) == OnScreen(cam, x, y, view)
    ensures var seen := Project(cam, p, view);
            seen.inFront && seen.x == view.width / 2.0 + x && seen.y == view.height / 2.0 - y
  {
    Undo(x, cam.distance, view.focal);
    Undo(y, cam.distance, view.focal);
    hide ToCamera;
  }

  lemma Undo(x: real, distance: real, f: real)
    requires f > 0.0 && distance > 0.0
    ensures x * (distance / f) * (f / distance) == x
  {
    assert (distance / f) * (f / distance) == 1.0;
    Associate(x, distance / f, f / distance);
  }

  // Zooming keeps the point under the cursor where it is, also when the new
  // distance is clamped; from a distance beyond the near plane it was there before.
  lemma ZoomKeepsCursor(cam: Camera, factor: real, sx: real, sy: real, view: View)
    requires cam.Valid() && view.Valid()
    ensures var p := Plus(cam.target, UnderCursor(cam, sx, sy, view));
            var was, now := Project(cam, p, view), Project(ZoomAt(cam, factor, sx, sy, view), p, view);
            && now.inFront && now.x == sx && now.y == sy
            && (cam.distance > NEAR ==> was.inFront && was.x == sx && was.y == sy)
  {
    hide ToCamera, Rotate, ToWorldDirection;
    var x, y := sx - view.width / 2.0, view.height / 2.0 - sy;
    var p, v := Plus(cam.target, UnderCursor(cam, sx, sy, view)), OnScreen(cam, x, y, view);
    var zoomed := ZoomAt(cam, factor, sx, sy, view);
    var k := zoomed.distance / cam.distance;
    CursorPoint(cam, sx, sy, view);
    MovedTarget(cam, zoomed, p, v, 1.0 - k);
    Shrinks(x, cam.distance, zoomed.distance, view.focal, k);
    Shrinks(y, cam.distance, zoomed.distance, view.focal, k);
    PlanePoint(zoomed, p, x, y, view);
    if cam.distance > NEAR {
      PlanePoint(cam, p, x, y, view);
    }
  }

  lemma Shrinks(x: real, distance: real, zoomed: real, f: real, k: real)
    requires distance > 0.0 && f > 0.0 && k == zoomed / distance
    ensures x * (distance / f) - x * (distance / f) * (1.0 - k) == x * (zoomed / f)
  {
    var u := distance / f;
    assert u * k == zoomed / f;
    assert x * u - x * u * (1.0 - k) == x * u * k;
    Associate(x, u, k);
  }

  // A point is seen when it lies more than one unit in front of the eye; the target
  // is seen in the middle.
  lemma SeenExactly(cam: Camera, p: Vec, view: View)
    requires cam.Valid() && view.Valid()
    ensures Project(cam, p, view).inFront <==> Project(cam, p, view).depth > 1.0
    ensures Project(cam, cam.target, view).depth == cam.distance
    ensures cam.distance > 1.0 ==>
              Project(cam, cam.target, view).x == view.width / 2.0 && Project(cam, cam.target, view).y == view.height / 2.0
  {
    var zero := ToCamera(cam, cam.target);
    assert Minus(cam.target, cam.target) == Vec(0.0, 0.0, 0.0);
    TurnZero(cam.yaw);
    TurnZero(cam.pitch);
    hide Turn;
    assert zero == Vec(0.0, 0.0, 0.0);
  }

  lemma TurnZero(t: Angle)
    ensures Turn(t, 0.0, 0.0) == Pair(0.0, 0.0)
  {
  }

  // --- the distance after a zoom -------------------------------------------------------

  // The distance is multiplied by the factor, within 8 and 4000, and the view keeps
  // its direction.
  lemma ZoomScalesTheDistance(cam: Camera, factor: real, sx: real, sy: real, view: View)
    requires cam.Valid() && view.Valid()
    ensures var zoomed, wanted := ZoomAt(cam, factor, sx, sy, view), cam.distance * factor;
            && 8.0 <= zoomed.distance <= 4000.0
            && (8.0 <= wanted <= 4000.0 ==> zoomed.distance == wanted)
            && (wanted < 8.0 ==> zoomed.distance == 8.0)
            && (wanted > 4000.0 ==> zoomed.distance == 4000.0)
            && zoomed.yaw == cam.yaw && zoomed.pitch == cam.pitch
  {
    hide UnderCursor;
  }

  lemma DirectionsScale(cam: Camera, v: Vec, k: real)
    ensures ToWorldDirection(cam, Times(v, k)) == Times(ToWorldDirection(cam, v), k)
  {
    hide TurnBack;
    var w, level := Times(v, k), TurnBack(cam.pitch, v.y, v.z);
    TurnBackScales(cam.pitch, v.y, v.z, k, w.y, w.z);
    TurnBackScales(cam.yaw, v.x, level.v, k, w.x, TurnBack(cam.pitch, w.y, w.z).v);
  }

  lemma TurnBackScales(t: Angle, a: real, b: real, k: real, x: real, y: real)
    requires x == a * k && y == b * k
    ensures TurnBack(t, x, y).u == TurnBack(t, a, b).u * k
    ensures TurnBack(t, x, y).v == TurnBack(t, a, b).v * k
  {
    ScaleSum(a, t.c, b, t.s, k);
    ScaleSum(-a, t.s, b, t.c, k);
    Negate(a, k);
  }

  lemma ScaleSum(a: real, c: real, b: real, s: real, k: real)
    ensures (a * k) * c + (b * k) * s == (a * c + b * s) * k
  {
  }

  lemma LengthsScale(cam: Camera, zoomed: Camera, k: real, x: real, y: real, view: View)
    requires view.Valid() && zoomed.distance == cam.distance * k
    ensures OnScreen(zoomed, x, y, view) == Times(OnScreen(cam, x, y, view), k)
  {
    var u := cam.distance / view.focal;
    assert zoomed.distance / view.focal == u * k;
    AssociateBack(x, u, k);
    AssociateBack(y, u, k);
    assert 0.0 * k == 0.0;
  }

  lemma SameDirections(cam: Camera, zoomed: Camera, v: Vec)
    requires zoomed.yaw == cam.yaw && zoomed.pitch == cam.pitch
    ensures ToWorldDirection(zoomed, v) == ToWorldDirection(cam, v)
  {
    hide TurnBack;
  }

  // The vector under the cursor shrinks with the distance.
  lemma CursorScales(cam: Camera, zoomed: Camera, k: real, sx: real, sy: real, view: View)
    requires view.Valid() && zoomed.distance == cam.distance * k
    requires zoomed.yaw == cam.yaw && zoomed.pitch == cam.pitch
    ensures UnderCursor(zoomed, sx, sy, view) == Times(UnderCursor(cam, sx, sy, view), k)
  {
    hide OnScreen, ToWorldDirection, Times;
    var x, y := sx - view.width / 2.0, view.height / 2.0 - sy;
    LengthsScale(cam, zoomed, k, x, y, view);
    DirectionsScale(cam, OnScreen(cam, x, y, view), k);
    SameDirections(cam, zoomed, OnScreen(zoomed, x, y, view));
  }

  lemma AssociateBack(a: real, b: real, c: real)
    ensures a * (b * c) == a * b * c
  {
  }

  // Zooming in and out again at one place gives back the camera, as long as no
  // distance is clamped.
  lemma ZoomBack(cam: Camera, factor: real, sx: real, sy: real, view: View)
    requires cam.Valid() && view.Valid() && factor > 0.0
    requires 8.0 <= cam.distance <= 4000.0 && 8.0 <= cam.distance * factor <= 4000.0
    ensures var zoomed := ZoomAt(cam, factor, sx, sy, view);
            zoomed.Valid() && ZoomAt(zoomed, 1.0 / factor, sx, sy, view) == cam
  {
    hide UnderCursor, ZoomAt, Plus, Times;
    var zoomed, back := ZoomAt(cam, factor, sx, sy, view), 1.0 / factor;
    ZoomIs(cam, factor, sx, sy, view);
    Inverse(cam.distance, factor);
    CursorScales(cam, zoomed, factor, sx, sy, view);
    ZoomIs(zoomed, back, sx, sy, view);
    MoveThereAndBack(cam.target, UnderCursor(cam, sx, sy, view), factor, back);
  }

  lemma ZoomIs(cam: Camera, factor: real, sx: real, sy: real, view: View)
    requires cam.Valid() && view.Valid() && 8.0 <= cam.distance * factor <= 4000.0
    ensures ZoomAt(cam, factor, sx, sy, view)
            == cam.(distance := cam.distance * factor, target := Plus(cam.target, Times(UnderCursor(cam, sx, sy, view), 1.0 - factor)))
  {
    hide UnderCursor, Plus, Times;
    var distance := Max(MIN_DISTANCE, Min(MAX_DISTANCE, cam.distance * factor));
    Quotient(cam.distance, factor, distance);
  }

  lemma Quotient(d: real, f: real, product: real)
    requires d > 0.0 && product == d * f
    ensures product / d == f
  {
  }

  lemma MoveThereAndBack(t: Vec, u: Vec, f: real, g: real)
    requires f > 0.0 && g == 1.0 / f
    ensures Plus(Plus(t, Times(u, 1.0 - f)), Times(Times(u, f), 1.0 - g)) == t
  {
    ThereAndBack(t.x, u.x, f);
    ThereAndBack(t.y, u.y, f);
    ThereAndBack(t.z, u.z, f);
  }

  lemma Inverse(d: real, f: real)
    requires f > 0.0
    ensures d * f * (1.0 / f) == d
  {
  }

  lemma ThereAndBack(t: real, u: real, f: real)
    requires f > 0.0
    ensures t + u * (1.0 - f) + u * f * (1.0 - 1.0 / f) == t
  {
    assert f * (1.0 - 1.0 / f) == f - 1.0;
    Associate(u, f, 1.0 - 1.0 / f);
    Negate(u, 1.0 - f);
    assert u * (f - 1.0) == -(u * (1.0 - f));
  }
}
