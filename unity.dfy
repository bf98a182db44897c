/** The value types and numeric helpers of the game engine that the foliage code
    is written against: Vector2/Vector3/Vector2Int, Bounds, Rect, RectInt, the
    Mathf helpers and the Unity.Mathematics `math` helpers.  Floats are `real`:
    IEEE rounding, NaN and infinities are not modelled. */
module UnityEngine {

  datatype Vector2 = Vector2(x: real, y: real)
  {
    function Plus(o: Vector2): Vector2 { Vector2(x + o.x, y + o.y) }
    /** Componentwise product (Vector2 * Vector2). */
    function Times(o: Vector2): Vector2 { Vector2(x * o.x, y * o.y) }
    function Scaled(k: real): Vector2 { Vector2(x * k, y * k) }
  }

  datatype Vector3 = Vector3(x: real, y: real, z: real)
  {
    function Plus(o: Vector3): Vector3 { Vector3(x + o.x, y + o.y, z + o.z) }
    function Minus(o: Vector3): Vector3 { Vector3(x - o.x, y - o.y, z - o.z) }
    function Scaled(k: real): Vector3 { Vector3(x * k, y * k, z * k) }
  }

  datatype Vector2Int = Vector2Int(x: int, y: int)

  datatype Vector3Int = Vector3Int(x: int, y: int, z: int)

  const Zero3 := Vector3(0.0, 0.0, 0.0)

  function Min(a: real, b: real): real { if a <= b then a else b }
  function Max(a: real, b: real): real { if a >= b then a else b }

  /** Vector3.Min and Vector3.Max: componentwise. */
  function Min3(a: Vector3, b: Vector3): Vector3 { Vector3(Min(a.x, b.x), Min(a.y, b.y), Min(a.z, b.z)) }
  function Max3(a: Vector3, b: Vector3): Vector3 { Vector3(Max(a.x, b.x), Max(a.y, b.y), Max(a.z, b.z)) }

  // ---------------------------------------------------------------- Mathf

  /** Mathf.Clamp: compares with `min` first, then with `max`. */
  function Clamp(value: real, min: real, max: real): (r: real)
    ensures min <= max ==> min <= r <= max
    ensures min <= value <= max ==> r == value
    ensures value < min ==> r == min
    ensures min <= value && max < value ==> r == max
  {
    if value < min then min else if value > max then max else value
  }

  /** Mathf.Clamp on ints. */
  function ClampInt(value: int, min: int, max: int): (r: int)
    ensures min <= max ==> min <= r <= max
    ensures min <= value <= max ==> r == value
    ensures value < min ==> r == min
    ensures min <= value && max < value ==> r == max
  {
    if value < min then min else if value > max then max else value
  }

  /** Mathf.Clamp01. */
  function Clamp01(value: real): (r: real)
    ensures 0.0 <= r <= 1.0
    ensures 0.0 <= value <= 1.0 ==> r == value
    ensures value < 0.0 ==> r == 0.0
    ensures 1.0 < value ==> r == 1.0
  {
    Clamp(value, 0.0, 1.0)
  }

  /** Mathf.Lerp clamps its parameter to [0,1], so the result lies between a and b. */
  function Lerp(a: real, b: real, t: real): (r: real)
    ensures Min(a, b) <= r <= Max(a, b)
    ensures t <= 0.0 ==> r == a
    ensures t >= 1.0 ==> r == b
  {
    var s := Clamp01(t);
    ScaleByUnit(b - a, s);
    a + (b - a) * s
  }

  /** Multiplying by a factor in [0,1] moves a value toward 0. */
  lemma ScaleByUnit(k: real, s: real)
    requires 0.0 <= s <= 1.0
    ensures Min(0.0, k) <= k * s <= Max(0.0, k)
  {
    if k >= 0.0 {
      assert k * s <= k * 1.0;
    } else {
      assert k * s >= k * 1.0;
    }
  }

  /** Mathf.FloorToInt. */
  function FloorToInt(f: real): (r: int)
    ensures r as real <= f < r as real + 1.0
  {
    f.Floor
  }

  /** Mathf.CeilToInt. */
  function CeilToInt(f: real): (r: int)
    ensures r as real - 1.0 < f <= r as real
  {
    -((-f).Floor)
  }

  /** Mathf.RoundToInt rounds to the nearest integer, halves to the even one. */
  function RoundToInt(f: real): (r: int)
    ensures f - 0.5 <= r as real <= f + 0.5
    ensures r as real == f - 0.5 || r as real == f + 0.5 ==> r % 2 == 0
  {
    var fl := f.Floor;
    var frac := f - fl as real;
    if frac < 0.5 then fl
    else if frac > 0.5 then fl + 1
    else if fl % 2 == 0 then fl else fl + 1
  }

  lemma RoundToIntOfInt(n: int)
    ensures RoundToInt(n as real) == n
  {
  }

  // ------------------------------------------------------ Unity.Mathematics

  /** math.clamp(x, a, b) == max(a, min(b, x)). */
  function MathClamp(x: real, a: real, b: real): (r: real)
    ensures a <= b ==> a <= r <= b
    ensures a <= x <= b ==> r == x
    ensures x < a ==> r == a
    ensures a <= b && b < x ==> r == b
    ensures b < a ==> r == a
  {
    Max(a, Min(b, x))
  }

  /** math.clamp on ints. */
  function MathClampInt(x: int, a: int, b: int): (r: int)
    ensures a <= b ==> a <= r <= b
    ensures a <= x <= b ==> r == x
    ensures x < a ==> r == a
    ensures a <= b && b < x ==> r == b
    ensures b < a ==> r == a
  {
    if b <= x then (if a >= b then a else b) else (if a >= x then a else x)
  }

  /** math.saturate; on reals it agrees with Mathf.Clamp01. */
  function Saturate(x: real): (r: real)
    ensures 0.0 <= r <= 1.0
    ensures 0.0 <= x <= 1.0 ==> r == x
    ensures r == Clamp01(x)
  {
    MathClamp(x, 0.0, 1.0)
  }

  /** math.lerp does NOT clamp its parameter. */
  function MathLerp(a: real, b: real, t: real): real
  {
    a + t * (b - a)
  }

  /** math.smoothstep: Hermite interpolation of the saturated parameter. */
  function SmoothStep(lo: real, hi: real, x: real): real
    requires hi != lo
  {
    var t := Saturate((x - lo) / (hi - lo));
    t * t * (3.0 - 2.0 * t)
  }

  // ---------------------------------------------------------------- Bounds

  /** Bounds is stored as a centre and extents (half the size), as the engine does. */
  datatype Bounds = Bounds(center: Vector3, extents: Vector3)
  {
    function Min(): Vector3 { center.Minus(extents) }
    function Max(): Vector3 { center.Plus(extents) }
    function Size(): Vector3 { extents.Scaled(2.0) }

    /** The `min` setter keeps the current max. */
    function WithMin(m: Vector3): Bounds { FromMinMax(m, Max()) }
    /** The `max` setter keeps the current min. */
    function WithMax(m: Vector3): Bounds { FromMinMax(Min(), m) }
    /** The `size` setter keeps the centre. */
    function WithSize(s: Vector3): Bounds { Bounds(center, s.Scaled(0.5)) }

    /** Bounds.Expand(float): the size grows by `amount` on every axis. */
    function Expand(amount: real): Bounds
    {
      Bounds(center, extents.Plus(Vector3(amount * 0.5, amount * 0.5, amount * 0.5)))
    }

    /** Bounds.Encapsulate(point). */
    function Encapsulate(p: Vector3): Bounds { FromMinMax(Min3(Min(), p), Max3(Max(), p)) }

    /** Bounds.Encapsulate(bounds): both corners of the other bounds. */
    function EncapsulateBounds(o: Bounds): Bounds { Encapsulate(o.center.Minus(o.extents)).Encapsulate(o.center.Plus(o.extents)) }

    /** Bounds.Intersects: closed overlap on all three axes. */
    predicate Intersects(o: Bounds)
    {
      Min().x <= o.Max().x && Max().x >= o.Min().x &&
      Min().y <= o.Max().y && Max().y >= o.Min().y &&
      Min().z <= o.Max().z && Max().z >= o.Min().z
    }

    /** Bounds.Contains(point): closed on all three axes. */
    predicate Contains(p: Vector3)
    {
      Min().x <= p.x <= Max().x && Min().y <= p.y <= Max().y && Min().z <= p.z <= Max().z
    }
  }

  /** Encapsulating bounds keeps every point of both. */
  lemma EncapsulateBoundsContains(b: Bounds, o: Bounds, p: Vector3)
    requires b.Contains(p) || o.Contains(p)
    ensures b.EncapsulateBounds(o).Contains(p)
  {
    var c := b.Encapsulate(o.center.Minus(o.extents));
    assert c.Min() == Min3(b.Min(), o.Min()) && c.Max() == Max3(b.Max(), o.Min());
    var e := c.Encapsulate(o.center.Plus(o.extents));
    assert e.Min() == Min3(c.Min(), o.Max()) && e.Max() == Max3(c.Max(), o.Max());
  }

  /** `new Bounds(center, size)`. */
  function BoundsFromCenterSize(center: Vector3, size: Vector3): Bounds
  {
    Bounds(center, size.Scaled(0.5))
  }

  /** Bounds.SetMinMax. */
  function FromMinMax(min: Vector3, max: Vector3): (b: Bounds)
    ensures b.Min() == min && b.Max() == max
  {
    var ext := max.Minus(min).Scaled(0.5);
    Bounds(min.Plus(ext), ext)
  }

  /** `new Bounds()`: zero centre and size. */
  const DefaultBounds := Bounds(Zero3, Zero3)

  // ------------------------------------------------------------ Rectangles

  /** Rect: xMin is x itself and xMax is x + width. */
  datatype Rect = Rect(x: real, y: real, width: real, height: real)
  {
    function Position(): Vector2 { Vector2(x, y) }
    function Size(): Vector2 { Vector2(width, height) }
    function XMax(): real { x + width }
    function YMax(): real { y + height }

    /** Rect.Contains(Vector2): half open, [xMin, xMax) x [yMin, yMax). */
    predicate Contains(p: Vector2)
    {
      p.x >= x && p.x < XMax() && p.y >= y && p.y < YMax()
    }

    /** Rect.Overlaps(Rect): strict overlap on both axes. */
    predicate Overlaps(o: Rect)
    {
      o.XMax() > x && o.x < XMax() && o.YMax() > y && o.y < YMax()
    }
  }

  function RectFromVectors(position: Vector2, size: Vector2): Rect
  {
    Rect(position.x, position.y, size.x, size.y)
  }

  /** RectInt: the engine reports xMin as the smaller of x and x + width. */
  datatype RectInt = RectInt(x: int, y: int, width: int, height: int)
  {
    function Position(): Vector2Int { Vector2Int(x, y) }
    function Size(): Vector2Int { Vector2Int(width, height) }
    function XMin(): int { if width >= 0 then x else x + width }
    function YMin(): int { if height >= 0 then y else y + height }
  }

  function RectIntFromVectors(position: Vector2Int, size: Vector2Int): RectInt
  {
    RectInt(position.x, position.y, size.x, size.y)
  }
}

/** The host terrain: its placement and the raster resolutions of its TerrainData,
    plus the queries the foliage code asks of it.  Storage itself is not modelled. */
module Terrains {
  import opened UnityEngine

  datatype ScatterMode = InstanceCountMode | CoverageMode

  datatype TerrainData = TerrainData(
    size: Vector3,                  // terrainData.size
    bounds: Bounds,                 // terrainData.bounds, in the terrain's local space
    alphamapResolution: int,
    detailResolution: int,
    heightmapResolution: int,
    detailResolutionPerPatch: int,
    detailScatterMode: ScatterMode)

  /** `terrain.GetPosition()` and `terrain.transform.position` are the same point. */
  datatype Terrain = Terrain(position: Vector3, data: TerrainData)

  /** Host queries, as uninterpreted functions of their arguments. */
  datatype TerrainQueries = TerrainQueries(
    steepness: (real, real) -> real,           // TerrainData.GetSteepness(y, x)
    interpolatedHeight: (real, real) -> real,  // TerrainData.GetInterpolatedHeight(y, x)
    detailCoverage: int -> real)               // TerrainData.ComputeDetailCoverage(index)

  /** The index into the per-axis resolutions used when dividing by them. */
  predicate ValidResolutions(d: TerrainData)
  {
    d.alphamapResolution > 0 && d.detailResolution > 0 && d.heightmapResolution > 0
  }
}
