/**
 * The fit-to-canonical-cube normaliser applied to every loaded object: take
 * the axis-aligned bounding box of its vertex positions, its centre, its size
 * and the largest side `maxDim`, then scale uniformly by `2 / maxDim` and move
 * by `-center * scale`, so that the object's box is centred at the origin and
 * its largest side is 2.
 *
 * Coordinates are `real`. Where JavaScript would divide by zero (an object
 * without points, or whose points all coincide, so that `maxDim` is 0) the
 * result is `NonFinite`, standing for the infinite scale and non-finite
 * position that `2.0 / 0` produces.
 */
module Geometry {

  datatype Axis = X | Y | Z

  datatype Vec3 = Vec3(x: real, y: real, z: real) {
    function Get(a: Axis): real {
      match a
      case X => x
      case Y => y
      case Z => z
    }
  }

  const Origin := Vec3(0.0, 0.0, 0.0)

  function Add(u: Vec3, v: Vec3): Vec3 {
    Vec3(u.x + v.x, u.y + v.y, u.z + v.z)
  }

  function Sub(u: Vec3, v: Vec3): Vec3 {
    Vec3(u.x - v.x, u.y - v.y, u.z - v.z)
  }

  /**
   * Multiplication by a scale factor. Naming it lets equal factors be
   * recognised as equal products without arithmetic.
   */
  function Times(v: real, s: real): real { v * s }

  function Scale(v: Vec3, s: real): Vec3 {
    Vec3(Times(v.x, s), Times(v.y, s), Times(v.z, s))
  }

  function Min(a: real, b: real): real { if a <= b then a else b }

  function Max(a: real, b: real): real { if a >= b then a else b }

  /** `Math.max(a, b, c)` on finite numbers. */
  function Max3(a: real, b: real, c: real): (m: real)
    ensures a <= m && b <= m && c <= m
  {
    Max(Max(a, b), c)
  }

  /** Like `Math.max`, the largest of three sides is one of them. */
  lemma Max3IsOneOf(a: real, b: real, c: real)
    ensures Max3(a, b, c) == a || Max3(a, b, c) == b || Max3(a, b, c) == c
  {
  }

  /** The coordinates of a point sequence along one axis. */
  function Coords(ps: seq<Vec3>, a: Axis): (cs: seq<real>)
    ensures |cs| == |ps|
    ensures forall i :: 0 <= i < |ps| ==> cs[i] == ps[i].Get(a)
  {
    if |ps| == 0 then [] else [ps[0].Get(a)] + Coords(ps[1..], a)
  }

  /** The least of a non-empty sequence of numbers. */
  function Lo(cs: seq<real>): (m: real)
    requires |cs| > 0
    ensures forall i :: 0 <= i < |cs| ==> m <= cs[i]
  {
    if |cs| == 1 then cs[0] else Min(cs[0], Lo(cs[1..]))
  }

  /** The greatest of a non-empty sequence of numbers. */
  function Hi(cs: seq<real>): (m: real)
    requires |cs| > 0
    ensures forall i :: 0 <= i < |cs| ==> cs[i] <= m
  {
    if |cs| == 1 then cs[0] else Max(cs[0], Hi(cs[1..]))
  }

  /** A non-empty axis-aligned box. */
  datatype Box = Box(min: Vec3, max: Vec3)

  /**
   * `Box3.setFromObject` on an object with an identity transform and at least
   * one point: the least and the greatest coordinate along each axis.
   */
  function Bounds(ps: seq<Vec3>): Box
    requires |ps| > 0
  {
    var xs, ys, zs := Coords(ps, X), Coords(ps, Y), Coords(ps, Z);
    Box(Vec3(Lo(xs), Lo(ys), Lo(zs)), Vec3(Hi(xs), Hi(ys), Hi(zs)))
  }

  /** `Box3.getSize`. */
  function Size(b: Box): Vec3 {
    Sub(b.max, b.min)
  }

  /** `Box3.getCenter`. */
  function Center(b: Box): Vec3 {
    Scale(Add(b.min, b.max), 0.5)
  }

  /** `Math.max(size.x, size.y, size.z)`. */
  function MaxDim(b: Box): real {
    var size := Size(b);
    Max3(size.x, size.y, size.z)
  }

  /**
   * The `maxDim` the loader computes for an object with points `ps`. The box
   * of an object without points is empty, and three.js reports its size and
   * its centre as zero.
   */
  function Extent(ps: seq<Vec3>): real {
    if |ps| == 0 then 0.0 else MaxDim(Bounds(ps))
  }

  /** The uniform scale and translation of an object, as three.js applies them to its points. */
  datatype Transform = Placement(scale: real, position: Vec3) | NonFinite

  /** A freshly parsed object: scale 1, at the origin. */
  const Identity := Placement(1.0, Origin)

  /** `v * s + c`: one coordinate under a uniform scale `s` and a translation `c`. */
  function Affine(v: real, s: real, c: real): real { Times(v, s) + c }

  function AffineAll(cs: seq<real>, s: real, c: real): (ds: seq<real>)
    ensures |ds| == |cs|
  {
    if |cs| == 0 then [] else [Affine(cs[0], s, c)] + AffineAll(cs[1..], s, c)
  }

  /** Where a point of an object with a finite transform ends up: `position + scale * p`. */
  function Apply(t: Transform, p: Vec3): Vec3
    requires t.Placement?
  {
    var s, c := t.scale, t.position;
    Vec3(Affine(p.x, s, c.x), Affine(p.y, s, c.y), Affine(p.z, s, c.z))
  }

  function ApplyAll(t: Transform, ps: seq<Vec3>): (qs: seq<Vec3>)
    requires t.Placement?
    ensures |qs| == |ps|
  {
    if |ps| == 0 then [] else [Apply(t, ps[0])] + ApplyAll(t, ps[1..])
  }

  /** The placement the loader builds from a box and a scale: `scale = s`, `position = -center * s`. */
  function CentringPlacement(b: Box, s: real): Transform {
    Placement(s, Sub(Origin, Scale(Center(b), s)))
  }

  /**
   * The transform the loader gives an object with points `ps`, starting from
   * the identity: `scale = 2 / maxDim`, `position = -center * scale`.
   */
  function Fit(ps: seq<Vec3>): Transform {
    var maxDim := Extent(ps);
    if maxDim == 0.0 then NonFinite else CentringPlacement(Bounds(ps), 2.0 / maxDim)
  }

  /** All points of a sequence coincide. */
  predicate AllCoincide(ps: seq<Vec3>) {
    forall i, j :: 0 <= i < |ps| && 0 <= j < |ps| ==> ps[i] == ps[j]
  }

  /** The least and the greatest element are elements of the sequence. */
  lemma {:induction false} ExtremesAttained(cs: seq<real>)
    requires |cs| > 0
    ensures Lo(cs) in cs && Hi(cs) in cs
  {
    if |cs| > 1 {
      ExtremesAttained(cs[1..]);
      assert cs == [cs[0]] + cs[1..];
    }
  }

  /** The extremes of a non-empty sequence are ordered, and agree exactly when all its elements do. */
  lemma FlatIff(cs: seq<real>)
    requires |cs| > 0
    ensures Lo(cs) <= Hi(cs)
    ensures Lo(cs) == Hi(cs) <==> forall i :: 0 <= i < |cs| ==> cs[i] == cs[0]
  {
    assert Lo(cs) <= cs[0] <= Hi(cs);
    ExtremesAttained(cs);
  }

  /** The largest side is never negative, and it is 0 exactly when all the points coincide. */
  lemma {:induction false} ExtentZeroIff(ps: seq<Vec3>)
    ensures Extent(ps) >= 0.0
    ensures Extent(ps) == 0.0 <==> AllCoincide(ps)
  {
    if |ps| > 0 {
      var xs, ys, zs := Coords(ps, X), Coords(ps, Y), Coords(ps, Z);
      FlatIff(xs);
      FlatIff(ys);
      FlatIff(zs);
      if AllCoincide(ps) {
        assert Extent(ps) == 0.0;
      } else {
        var i, j :| 0 <= i < |ps| && 0 <= j < |ps| && ps[i] != ps[j];
        var k := if ps[i] != ps[0] then i else j;
        assert ps[k].x != ps[0].x || ps[k].y != ps[0].y || ps[k].z != ps[0].z;
        assert xs[k] == ps[k].x && xs[0] == ps[0].x;
        assert ys[k] == ps[k].y && ys[0] == ps[0].y;
        assert zs[k] == ps[k].z && zs[0] == ps[0].z;
        assert Extent(ps) > 0.0;
      }
    }
  }

  /**
   * A fit is finite exactly when the largest side is not 0; it is then the
   * centring placement by a factor that scales that side to exactly 2,
   * positive when the side is.
   */
  lemma FitScale(ps: seq<Vec3>)
    ensures Fit(ps).Placement? <==> Extent(ps) != 0.0
    ensures Fit(ps).Placement? ==>
      |ps| > 0 && Fit(ps) == CentringPlacement(Bounds(ps), Fit(ps).scale)
      && Times(Extent(ps), Fit(ps).scale) == 2.0
    ensures Extent(ps) > 0.0 ==> Fit(ps).scale > 0.0
  {
    var m := Extent(ps);
    if m != 0.0 {
      assert Times(m, 2.0 / m) == 2.0;
    }
  }

  /**
   * The fit has no finite result exactly when the points have no extent: there
   * are none, or they all coincide. Otherwise its scale is positive.
   */
  lemma FitDegenerateIff(ps: seq<Vec3>)
    ensures Fit(ps).NonFinite? <==> AllCoincide(ps)
    ensures Fit(ps).Placement? ==> Fit(ps).scale > 0.0
  {
    ExtentZeroIff(ps);
    FitScale(ps);
  }

  /** A positive scale and a translation preserve which of two numbers is smaller. */
  lemma MinMaxAffine(a: real, b: real, s: real, c: real)
    requires s > 0.0
    ensures Min(Affine(a, s, c), Affine(b, s, c)) == Affine(Min(a, b), s, c)
    ensures Max(Affine(a, s, c), Affine(b, s, c)) == Affine(Max(a, b), s, c)
  {
    if a <= b {
      assert (b - a) * s >= 0.0;
    } else {
      assert (a - b) * s > 0.0;
    }
  }

  /** The extremes of a sequence under a positive scale and a translation. */
  lemma {:induction false} ExtremesAffine(cs: seq<real>, s: real, c: real)
    requires s > 0.0 && |cs| > 0
    ensures Lo(AffineAll(cs, s, c)) == Affine(Lo(cs), s, c)
    ensures Hi(AffineAll(cs, s, c)) == Affine(Hi(cs), s, c)
  {
    if |cs| > 1 {
      ExtremesAffine(cs[1..], s, c);
      MinMaxAffine(cs[0], Lo(cs[1..]), s, c);
      MinMaxAffine(cs[0], Hi(cs[1..]), s, c);
    }
  }

  /** Transforming the points transforms each axis' coordinates separately. */
  lemma {:induction false} CoordsOfApplyAll(t: Transform, ps: seq<Vec3>, a: Axis)
    requires t.Placement?
    ensures Coords(ApplyAll(t, ps), a) == AffineAll(Coords(ps, a), t.scale, t.position.Get(a))
  {
    if |ps| > 0 {
      CoordsOfApplyAll(t, ps[1..], a);
      assert ApplyAll(t, ps)[1..] == ApplyAll(t, ps[1..]);
      assert Coords(ps, a)[1..] == Coords(ps[1..], a);
      match a
      case X =>
      case Y =>
      case Z =>
    }
  }

  /** `Math.max` of three sides scaled by a positive factor is the scaled `Math.max`. */
  lemma Max3Scaled(a: real, b: real, c: real, s: real, a': real, b': real, c': real)
    requires s > 0.0 && a' == Times(a, s) && b' == Times(b, s) && c' == Times(c, s)
    ensures Max3(a', b', c') == Times(Max3(a, b, c), s)
  {
    MinMaxAffine(a, b, s, 0.0);
    MinMaxAffine(Max(a, b), c, s, 0.0);
  }

  /** One axis of the fitted box: centred at 0, and its side scaled by `s`. */
  lemma FittedAxis(lo: real, hi: real, c: real, d: real, s: real, p: real)
    requires c == (lo + hi) * 0.5 && d == hi - lo && p == 0.0 - Times(c, s)
    ensures (Affine(lo, s, p) + Affine(hi, s, p)) * 0.5 == 0.0
    ensures Affine(hi, s, p) - Affine(lo, s, p) == Times(d, s)
  {
    assert lo * s + hi * s == (lo + hi) * s;
    assert (lo + hi) * s == 2.0 * (c * s);
    assert hi * s - lo * s == (hi - lo) * s;
  }

  /** Vector operations act axis by axis. */
  lemma ComponentRules(u: Vec3, v: Vec3, s: real, a: Axis)
    ensures Add(u, v).Get(a) == u.Get(a) + v.Get(a)
    ensures Sub(u, v).Get(a) == u.Get(a) - v.Get(a)
    ensures Scale(u, s).Get(a) == Times(u.Get(a), s)
    ensures Origin.Get(a) == 0.0
  {
    match a
    case X =>
    case Y =>
    case Z =>
  }

  /** A point lies in a box. */
  predicate InBox(p: Vec3, b: Box) {
    b.min.x <= p.x <= b.max.x && b.min.y <= p.y <= b.max.y && b.min.z <= p.z <= b.max.z
  }

  /**
   * The box of a non-empty point set is the smallest box holding them: it
   * contains every point, and along each axis some point lies on its lower
   * face and some point on its upper face.
   */
  lemma BoundsTight(ps: seq<Vec3>, a: Axis)
    requires |ps| > 0
    ensures forall i :: 0 <= i < |ps| ==> InBox(ps[i], Bounds(ps))
    ensures exists i :: 0 <= i < |ps| && ps[i].Get(a) == Bounds(ps).min.Get(a)
    ensures exists j :: 0 <= j < |ps| && ps[j].Get(a) == Bounds(ps).max.Get(a)
  {
    var cs := Coords(ps, a);
    BoundsAxis(ps, a);
    ExtremesAttained(cs);
    var i :| 0 <= i < |cs| && cs[i] == Lo(cs);
    var j :| 0 <= j < |cs| && cs[j] == Hi(cs);
    assert ps[i].Get(a) == Bounds(ps).min.Get(a);
    assert ps[j].Get(a) == Bounds(ps).max.Get(a);
  }

  /** A box is its centre plus and minus half its size. */
  lemma CornersFromCentre(b: Box)
    ensures b.min == Sub(Center(b), Scale(Size(b), 0.5))
    ensures b.max == Add(Center(b), Scale(Size(b), 0.5))
  {
  }

  /** The box of a non-empty point set, axis by axis. */
  lemma BoundsAxis(ps: seq<Vec3>, a: Axis)
    requires |ps| > 0
    ensures Bounds(ps).min.Get(a) == Lo(Coords(ps, a)) && Bounds(ps).max.Get(a) == Hi(Coords(ps, a))
  {
    match a
    case X =>
    case Y =>
    case Z =>
  }

  /** Along one axis, the centring placement centres the box at 0 and scales its side by `s`. */
  lemma CentredAxis(ps: seq<Vec3>, s: real, a: Axis)
    requires |ps| > 0 && s > 0.0
    ensures var q := Bounds(ApplyAll(CentringPlacement(Bounds(ps), s), ps));
      Center(q).Get(a) == 0.0 && Size(q).Get(a) == Times(Size(Bounds(ps)).Get(a), s)
  {
    var b := Bounds(ps);
    var t := CentringPlacement(b, s);
    var qs := ApplyAll(t, ps);
    var lo, hi := Lo(Coords(ps, a)), Hi(Coords(ps, a));
    BoundsAxis(ps, a);
    BoundsAxis(qs, a);
    var cv := Center(b);
    var sum := Add(b.min, b.max);
    ComponentRules(b.min, b.max, 0.5, a);
    ComponentRules(sum, sum, 0.5, a);
    var c := cv.Get(a);
    assert c == (lo + hi) * 0.5;
    ComponentRules(Origin, Scale(cv, s), s, a);
    ComponentRules(cv, cv, s, a);
    var p := t.position.Get(a);
    assert p == 0.0 - Times(c, s);
    CoordsOfApplyAll(t, ps, a);
    ExtremesAffine(Coords(ps, a), s, p);
    ComponentRules(b.max, b.min, s, a);
    FittedAxis(lo, hi, c, Size(b).Get(a), s, p);
    var q := Bounds(qs);
    var qsum := Add(q.min, q.max);
    ComponentRules(q.min, q.max, 0.5, a);
    ComponentRules(qsum, qsum, 0.5, a);
    ComponentRules(q.max, q.min, s, a);
  }

  /**
   * Scaling a point set by any positive `s` and moving it by `-center * s`
   * centres its box at the origin and scales every side by `s`.
   */
  lemma CentredPlacement(ps: seq<Vec3>, s: real)
    requires |ps| > 0 && s > 0.0
    ensures var q := Bounds(ApplyAll(CentringPlacement(Bounds(ps), s), ps));
      Center(q) == Origin && Size(q) == Scale(Size(Bounds(ps)), s)
  {
    CentredAxis(ps, s, X);
    CentredAxis(ps, s, Y);
    CentredAxis(ps, s, Z);
  }

  /** Scaling every side of a box by a positive factor scales its largest side by it. */
  lemma MaxDimScaled(q: Box, b: Box, s: real)
    requires s > 0.0 && Size(q) == Scale(Size(b), s)
    ensures MaxDim(q) == Times(MaxDim(b), s)
  {
    var u, v := Size(q), Size(b);
    Max3Scaled(v.x, v.y, v.z, s, u.x, u.y, u.z);
  }

  /** Centring by a positive factor gives a box centred at the origin whose largest side is scaled by that factor. */
  lemma NormalisedBy(ps: seq<Vec3>, s: real)
    requires |ps| > 0 && s > 0.0
    ensures var q := Bounds(ApplyAll(CentringPlacement(Bounds(ps), s), ps));
      Center(q) == Origin && MaxDim(q) == Times(MaxDim(Bounds(ps)), s)
  {
    var b := Bounds(ps);
    var q := Bounds(ApplyAll(CentringPlacement(b, s), ps));
    CentredPlacement(ps, s);
    MaxDimScaled(q, b, s);
  }

  /**
   * Normalisation: for points that do not all coincide, the fitted transform
   * is finite with a positive scale, and the box of the transformed points is
   * centred at the origin with its largest side exactly 2.
   */
  lemma FitNormalises(ps: seq<Vec3>)
    requires !AllCoincide(ps)
    ensures |ps| > 0 && Fit(ps).Placement? && Fit(ps).scale > 0.0
    ensures var q := Bounds(ApplyAll(Fit(ps), ps));
      Center(q) == Origin && MaxDim(q) == 2.0
  {
    ExtentZeroIff(ps);
    FitScale(ps);
    NormalisedBy(ps, Fit(ps).scale);
  }

  /** The canonical cube `[-1, 1]^3`. */
  predicate InCube(p: Vec3) {
    -1.0 <= p.x <= 1.0 && -1.0 <= p.y <= 1.0 && -1.0 <= p.z <= 1.0
  }

  /** One coordinate of a point set whose box is centred at the origin with largest side 2 lies in `[-1, 1]`. */
  lemma InCanonicalCubeAxis(qs: seq<Vec3>, i: int, a: Axis)
    requires 0 <= i < |qs|
    requires Center(Bounds(qs)) == Origin && MaxDim(Bounds(qs)) == 2.0
    ensures -1.0 <= qs[i].Get(a) <= 1.0
  {
    var q := Bounds(qs);
    var cs := Coords(qs, a);
    assert Lo(cs) <= cs[i] <= Hi(cs);
    BoundsAxis(qs, a);
    assert Lo(cs) + Hi(cs) == 0.0 && Hi(cs) - Lo(cs) <= 2.0 by {
      match a
      case X => assert Size(q).x <= MaxDim(q);
      case Y => assert Size(q).y <= MaxDim(q);
      case Z => assert Size(q).z <= MaxDim(q);
    }
  }

  /** A point set whose box is centred at the origin with largest side 2 lies in the canonical cube. */
  lemma InCanonicalCube(qs: seq<Vec3>)
    requires |qs| > 0
    requires Center(Bounds(qs)) == Origin && MaxDim(Bounds(qs)) == 2.0
    ensures forall i :: 0 <= i < |qs| ==> InCube(qs[i])
  {
    forall i | 0 <= i < |qs|
      ensures InCube(qs[i])
    {
      InCanonicalCubeAxis(qs, i, X);
      InCanonicalCubeAxis(qs, i, Y);
      InCanonicalCubeAxis(qs, i, Z);
    }
  }

  /** Transforming a point sequence transforms each point on its own, in order. */
  lemma {:induction false} ApplyAllPointwise(t: Transform, ps: seq<Vec3>)
    requires t.Placement?
    ensures forall i :: 0 <= i < |ps| ==> ApplyAll(t, ps)[i] == Apply(t, ps[i])
  {
    if |ps| > 0 {
      ApplyAllPointwise(t, ps[1..]);
      assert ApplyAll(t, ps)[1..] == ApplyAll(t, ps[1..]);
    }
  }

  /** After normalisation every point of an object whose points do not all coincide lies in the canonical cube `[-1, 1]^3`. */
  lemma FittedPointsInCube(ps: seq<Vec3>)
    requires !AllCoincide(ps)
    ensures Fit(ps).Placement?
    ensures forall i :: 0 <= i < |ps| ==> InCube(Apply(Fit(ps), ps[i]))
  {
    FitNormalises(ps);
    InCanonicalCube(ApplyAll(Fit(ps), ps));
    ApplyAllPointwise(Fit(ps), ps);
  }
}
