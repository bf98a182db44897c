/** Utility/Math/Polygon.cs: a closed polygon given by its vertices, with the
    even-odd ray-crossing point test (W. R. Franklin's PNPOLY), the axis-aligned
    bounding box of the vertices, and the nearest vertex to a point.  The vertex
    array is never modified, so it is a sequence here. */
module Polygons {
  import opened UnityEngine

  datatype Polygon = Polygon(points: seq<Vector3>)

  /** The rectangle spanned in the X/Z plane: `min` and `max` hold (x, z). */
  datatype Box2 = Box2(min: Vector2, max: Vector2)

  /** The X/Z box of the first n vertices, folded the way the first loop of Contains does. */
  function XZBox(ps: seq<Vector3>, n: nat): Box2
    requires 1 <= n <= |ps|
  {
    if n == 1 then Box2(Vector2(ps[0].x, ps[0].z), Vector2(ps[0].x, ps[0].z))
    else
      var b := XZBox(ps, n - 1);
      var q := ps[n - 1];
      Box2(Vector2(Min(q.x, b.min.x), Min(q.z, b.min.y)), Vector2(Max(q.x, b.max.x), Max(q.z, b.max.y)))
  }

  /** The box encloses the first n vertices and each of its sides is attained by one of them. */
  lemma {:induction false} XZBoxTight(ps: seq<Vector3>, n: nat)
    requires 1 <= n <= |ps|
    ensures var b := XZBox(ps, n);
            forall k :: 0 <= k < n ==> b.min.x <= ps[k].x <= b.max.x && b.min.y <= ps[k].z <= b.max.y
    ensures var b := XZBox(ps, n);
            (exists k :: 0 <= k < n && ps[k].x == b.min.x) && (exists k :: 0 <= k < n && ps[k].x == b.max.x) &&
            (exists k :: 0 <= k < n && ps[k].z == b.min.y) && (exists k :: 0 <= k < n && ps[k].z == b.max.y)
  {
    if n == 1 {
      assert ps[0].x == XZBox(ps, n).min.x && ps[0].z == XZBox(ps, n).min.y;
    } else {
      XZBoxTight(ps, n - 1);
      var b0 := XZBox(ps, n - 1);
      var b := XZBox(ps, n);
      var q := ps[n - 1];
      if q.x < b0.min.x { assert ps[n - 1].x == b.min.x; } else { var k :| 0 <= k < n - 1 && ps[k].x == b0.min.x; assert ps[k].x == b.min.x; }
      if q.x > b0.max.x { assert ps[n - 1].x == b.max.x; } else { var k :| 0 <= k < n - 1 && ps[k].x == b0.max.x; assert ps[k].x == b.max.x; }
      if q.z < b0.min.y { assert ps[n - 1].z == b.min.y; } else { var k :| 0 <= k < n - 1 && ps[k].z == b0.min.y; assert ps[k].z == b.min.y; }
      if q.z > b0.max.y { assert ps[n - 1].z == b.max.y; } else { var k :| 0 <= k < n - 1 && ps[k].z == b0.max.y; assert ps[k].z == b.max.y; }
    }
  }

  predicate OutsideBox(b: Box2, p: Vector3)
  {
    p.x < b.min.x || p.x > b.max.x || p.z < b.min.y || p.z > b.max.y
  }

  /** The cyclic predecessor j of vertex i: the loop pairs i with j = i - 1, and 0 with n - 1. */
  function Prev(n: nat, i: nat): nat
    requires i < n
  {
    if i == 0 then n - 1 else i - 1
  }

  /** Whether the +x ray from p crosses the edge between vertices a (= Points[i]) and b (= Points[j]).
      The first conjunct makes the edge's z-extent straddle p.z, so b.z - a.z is never 0. */
  predicate Crosses(a: Vector3, b: Vector3, p: Vector3)
  {
    (a.z > p.z) != (b.z > p.z) && p.x < EdgeXAt(a.x, a.z, b.x, b.z, p.z)
  }

  /** The x at which the edge from (ax, az) to (bx, bz) meets the line z = pz. */
  function EdgeXAt(ax: real, az: real, bx: real, bz: real, pz: real): real
    requires bz != az
  {
    (bx - ax) * (pz - az) / (bz - az) + ax
  }

  /** The `inside` flag after the first k edges: toggled once per crossed edge. */
  function Parity(ps: seq<Vector3>, p: Vector3, k: nat): bool
    requires k <= |ps|
  {
    if k == 0 then false
    else Parity(ps, p, k - 1) != Crosses(ps[k - 1], ps[Prev(|ps|, k - 1)], p)
  }

  /** The number of edges among the first k that the ray crosses. */
  function CrossingCount(ps: seq<Vector3>, p: Vector3, k: nat): nat
    requires k <= |ps|
  {
    if k == 0 then 0
    else CrossingCount(ps, p, k - 1) + (if Crosses(ps[k - 1], ps[Prev(|ps|, k - 1)], p) then 1 else 0)
  }

  /** The toggled flag is the parity of the number of crossed edges. */
  lemma {:induction false} ParityIsOddCrossingCount(ps: seq<Vector3>, p: Vector3, k: nat)
    requires k <= |ps|
    ensures Parity(ps, p, k) <==> CrossingCount(ps, p, k) % 2 == 1
  {
    if k > 0 {
      ParityIsOddCrossingCount(ps, p, k - 1);
    }
  }

  /** What Contains answers: false outside the vertices' X/Z box, else the crossing parity of all n edges. */
  predicate InsidePolygon(ps: seq<Vector3>, p: Vector3)
    requires |ps| > 0
  {
    !OutsideBox(XZBox(ps, |ps|), p) && Parity(ps, p, |ps|)
  }

  /** Polygon.Contains.  Indexing Points[0] demands at least one vertex. */
  method Contains(poly: Polygon, point: Vector3) returns (inside: bool)
    requires |poly.points| > 0
    ensures inside == InsidePolygon(poly.points, point)
    ensures OutsideBox(XZBox(poly.points, |poly.points|), point) ==> !inside
  {
    var pts := poly.points;
    var min := Vector2(pts[0].x, pts[0].z);
    var max := Vector2(pts[0].x, pts[0].z);
    for i := 1 to |pts|
      invariant Box2(min, max) == XZBox(pts, i)
    {
      var q := pts[i];
      min := min.(x := Min(q.x, min.x));
      max := max.(x := Max(q.x, max.x));
      min := min.(y := Min(q.z, min.y));
      max := max.(y := Max(q.z, max.y));
    }

    if point.x < min.x || point.x > max.x || point.z < min.y || point.z > max.y {
      return false;
    }

    inside := false;
    var i, j := 0, |pts| - 1;
    while i < |pts|
      invariant 0 <= i <= |pts|
      invariant i < |pts| ==> j == Prev(|pts|, i)
      invariant inside == Parity(pts, point, i)
    {
      if (pts[i].z > point.z) != (pts[j].z > point.z) &&
         point.x < EdgeXAt(pts[i].x, pts[i].z, pts[j].x, pts[j].z, point.z)
      {
        inside := !inside;
      }
      j := i;
      i := i + 1;
    }
  }

  /** A point to one side of every vertex (in x or in z) is never inside. */
  lemma BeyondAllVerticesIsOutside(ps: seq<Vector3>, p: Vector3)
    requires |ps| > 0
    requires (forall k :: 0 <= k < |ps| ==> p.x < ps[k].x) || (forall k :: 0 <= k < |ps| ==> p.x > ps[k].x) ||
             (forall k :: 0 <= k < |ps| ==> p.z < ps[k].z) || (forall k :: 0 <= k < |ps| ==> p.z > ps[k].z)
    ensures !InsidePolygon(ps, p)
  {
    XZBoxTight(ps, |ps|);
  }

  /** Two vertex lists that agree in x and z at every index. */
  predicate SameXZ(ps: seq<Vector3>, qs: seq<Vector3>)
  {
    |ps| == |qs| && forall k :: 0 <= k < |ps| ==> ps[k].x == qs[k].x && ps[k].z == qs[k].z
  }

  lemma {:induction false} XZBoxIgnoresY(ps: seq<Vector3>, qs: seq<Vector3>, n: nat)
    requires SameXZ(ps, qs) && 1 <= n <= |ps|
    ensures XZBox(ps, n) == XZBox(qs, n)
  {
    if n > 1 {
      XZBoxIgnoresY(ps, qs, n - 1);
    }
  }

  lemma {:induction false} ParityIgnoresY(ps: seq<Vector3>, qs: seq<Vector3>, p: Vector3, q: Vector3, k: nat)
    requires SameXZ(ps, qs) && k <= |ps| && p.x == q.x && p.z == q.z
    ensures Parity(ps, p, k) == Parity(qs, q, k)
  {
    if k > 0 {
      ParityIgnoresY(ps, qs, p, q, k - 1);
      var j := Prev(|ps|, k - 1);
      assert Crosses(ps[k - 1], ps[j], p) == Crosses(qs[k - 1], qs[j], q);
    }
  }

  /** Containment reads only the x and z coordinates of the point and of the vertices. */
  lemma InsidePolygonIgnoresY(ps: seq<Vector3>, qs: seq<Vector3>, p: Vector3, q: Vector3)
    requires |ps| > 0 && SameXZ(ps, qs) && p.x == q.x && p.z == q.z
    ensures InsidePolygon(ps, p) == InsidePolygon(qs, q)
  {
    XZBoxIgnoresY(ps, qs, |ps|);
    ParityIgnoresY(ps, qs, p, q, |ps|);
  }

  // ------------------------------------------------------------------ bounds

  /** The bounds after encapsulating the first n points in turn into `b`. */
  function EncapsulateFirst(b: Bounds, ps: seq<Vector3>, n: nat): Bounds
    requires n <= |ps|
  {
    if n == 0 then b else EncapsulateFirst(b, ps, n - 1).Encapsulate(ps[n - 1])
  }

  /** The bounds GetBounds computes: the default bounds without points, otherwise the
      zero-size bounds at the first point grown to hold every point. */
  function BoundsOf(ps: seq<Vector3>): Bounds
  {
    if |ps| == 0 then DefaultBounds else EncapsulateFirst(BoundsFromCenterSize(ps[0], Zero3), ps, |ps|)
  }

  function Axis(v: Vector3, a: nat): real
    requires a < 3
  {
    if a == 0 then v.x else if a == 1 then v.y else v.z
  }

  /** Every point lies between min and max, on every axis. */
  predicate Encloses(b: Bounds, ps: seq<Vector3>)
  {
    forall a, k :: 0 <= a < 3 && 0 <= k < |ps| ==> Axis(b.Min(), a) <= Axis(ps[k], a) <= Axis(b.Max(), a)
  }

  /** On every axis, min and max are each the coordinate of some point. */
  predicate Attained(b: Bounds, ps: seq<Vector3>)
  {
    forall a :: 0 <= a < 3 ==>
      (exists k :: 0 <= k < |ps| && Axis(ps[k], a) == Axis(b.Min(), a)) &&
      (exists k :: 0 <= k < |ps| && Axis(ps[k], a) == Axis(b.Max(), a))
  }

  lemma EncapsulateAxes(b: Bounds, p: Vector3, a: nat)
    requires a < 3
    ensures Axis(b.Encapsulate(p).Min(), a) == Min(Axis(b.Min(), a), Axis(p, a))
    ensures Axis(b.Encapsulate(p).Max(), a) == Max(Axis(b.Max(), a), Axis(p, a))
  {
  }

  /** On one axis, the bounds after n points span [lo, hi] for numbers lo, hi attained by those points. */
  lemma {:induction false} EncapsulateFirstAxis(ps: seq<Vector3>, n: nat, a: nat)
    requires 1 <= n <= |ps| && a < 3
    ensures var b := EncapsulateFirst(BoundsFromCenterSize(ps[0], Zero3), ps, n);
            var lo, hi := Axis(b.Min(), a), Axis(b.Max(), a);
            (forall k :: 0 <= k < n ==> lo <= Axis(ps[k], a) <= hi) &&
            (exists k :: 0 <= k < n && Axis(ps[k], a) == lo) &&
            (exists k :: 0 <= k < n && Axis(ps[k], a) == hi)
  {
    var b0 := BoundsFromCenterSize(ps[0], Zero3);
    var c := EncapsulateFirst(b0, ps, n - 1);
    var b := c.Encapsulate(ps[n - 1]);
    EncapsulateAxes(c, ps[n - 1], a);
    var lo, hi := Axis(b.Min(), a), Axis(b.Max(), a);
    if n == 1 {
      assert b0.Min() == ps[0] && b0.Max() == ps[0];
      assert Axis(ps[0], a) == lo && Axis(ps[0], a) == hi;
    } else {
      EncapsulateFirstAxis(ps, n - 1, a);
      var p := Axis(ps[n - 1], a);
      var clo, chi := Axis(c.Min(), a), Axis(c.Max(), a);
      assert lo == Min(clo, p) && hi == Max(chi, p);
      if p <= clo {
        assert Axis(ps[n - 1], a) == lo;
      } else {
        var k :| 0 <= k < n - 1 && Axis(ps[k], a) == clo;
        assert Axis(ps[k], a) == lo;
      }
      if p >= chi {
        assert Axis(ps[n - 1], a) == hi;
      } else {
        var k :| 0 <= k < n - 1 && Axis(ps[k], a) == chi;
        assert Axis(ps[k], a) == hi;
      }
    }
  }

  /** The bounds of a non-empty polygon are the tight box of its vertices. */
  lemma BoundsOfTight(ps: seq<Vector3>)
    requires |ps| > 0
    ensures Encloses(BoundsOf(ps), ps) && Attained(BoundsOf(ps), ps)
  {
    forall a | 0 <= a < 3
      ensures forall k :: 0 <= k < |ps| ==> Axis(BoundsOf(ps).Min(), a) <= Axis(ps[k], a) <= Axis(BoundsOf(ps).Max(), a)
      ensures exists k :: 0 <= k < |ps| && Axis(ps[k], a) == Axis(BoundsOf(ps).Min(), a)
      ensures exists k :: 0 <= k < |ps| && Axis(ps[k], a) == Axis(BoundsOf(ps).Max(), a)
    {
      EncapsulateFirstAxis(ps, |ps|, a);
    }
  }

  /** Polygon.GetBounds. */
  method GetBounds(poly: Polygon) returns (b: Bounds)
    ensures b == BoundsOf(poly.points)
    ensures |poly.points| == 0 ==> b == DefaultBounds
    ensures |poly.points| > 0 ==> Encloses(b, poly.points) && Attained(b, poly.points)
  {
    var pts := poly.points;
    if |pts| == 0 {
      return DefaultBounds;
    }
    var b0 := BoundsFromCenterSize(pts[0], Zero3);
    b := b0;
    for i := 0 to |pts|
      invariant b == EncapsulateFirst(b0, pts, i)
    {
      b := b.Encapsulate(pts[i]);
    }
    BoundsOfTight(pts);
  }

  // ---------------------------------------------------------- closest vertex

  /** Squared Euclidean distance; it orders points the same way math.distance does. */
  function SqDist(a: Vector3, b: Vector3): real
  {
    var d := a.Minus(b);
    d.x * d.x + d.y * d.y + d.z * d.z
  }

  /** The index the running minimum settles on after the first n vertices: the first of
      the nearest ones, because a later vertex replaces it only when strictly nearer. */
  function ClosestIndex(ps: seq<Vector3>, pos: Vector3, n: nat): (k: nat)
    requires 1 <= n <= |ps|
    ensures k < n
    ensures forall i :: 0 <= i < n ==> SqDist(pos, ps[k]) <= SqDist(pos, ps[i])
    ensures forall i :: 0 <= i < k ==> SqDist(pos, ps[i]) > SqDist(pos, ps[k])
  {
    if n == 1 then 0
    else
      var k := ClosestIndex(ps, pos, n - 1);
      if SqDist(pos, ps[n - 1]) < SqDist(pos, ps[k]) then n - 1 else k
  }

  /** The answer of GetClosestPoint: pos itself for no vertices. */
  function ClosestPoint(ps: seq<Vector3>, pos: Vector3): (p: Vector3)
    ensures |ps| == 0 ==> p == pos
    ensures |ps| > 0 ==> exists k :: 0 <= k < |ps| && p == ps[k]
  {
    if |ps| == 0 then pos else ps[ClosestIndex(ps, pos, |ps|)]
  }

  /** Polygon.GetClosestPoint.  The running minimum starts at float.MaxValue, so the first
      vertex is always taken; `found` stands for that first comparison. */
  method GetClosestPoint(poly: Polygon, pos: Vector3) returns (p: Vector3)
    ensures p == ClosestPoint(poly.points, pos)
    ensures |poly.points| > 0 ==> forall i :: 0 <= i < |poly.points| ==> SqDist(pos, p) <= SqDist(pos, poly.points[i])
  {
    var pts := poly.points;
    var found := false;
    var min := 0.0;
    var k := 0;
    p := pos;
    for i := 0 to |pts|
      invariant found <==> i > 0
      invariant !found ==> p == pos
      invariant found ==> k == ClosestIndex(pts, pos, i) && p == pts[k] && min == SqDist(pos, p)
    {
      var dist := SqDist(pos, pts[i]);
      if !found || dist < min {
        p := pts[i];
        min := dist;
        k := i;
      }
      found := true;
    }
  }
}
