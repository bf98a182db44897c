/** The spline brush (Core/Components/Brushes/SplineBrush.cs; the older
    Core/Components/SplineBrush.cs has the same GetBounds, ComputeInnerBounds,
    GetPolygon and CalculateFalloff): the polygon sampled from the spline, its
    bounds, the inner bounds shrunk by the falloff, the falloff scalar and the mask
    raster.  Spline evaluation and `math.distance` are function parameters. */
module SplineBrushes {
  import opened UnityEngine
  import opened Terrains
  import opened Collections
  import opened Polygons
  import opened Brushes
  import opened TerrainRegions
  import opened TerrainPositions
  import opened TerrainExtensions
  import FloatExtensions

  /** SplineContainer.EvaluatePosition at a normalised parameter. */
  type Spline = real -> Vector3

  /** `math.distance` of two points. */
  type Distance = (Vector3, Vector3) -> real

  /** The authored fields of a spline brush, including the inherited Brush fields and the
      component's `enabled` flag. */
  datatype SplineBrush = SplineBrush(
    drawOrder: int,
    blendMode: BlendMode,
    spline: Option<Spline>,
    resolution: int,
    falloff: real,
    alpha: real,
    enabled: bool)

  const FMaxHeight := 10000.0
  const FalloffDefault := 1.0

  /** A new brush's authored defaults: resolution 16, falloff 0, alpha 1. */
  function DefaultSplineBrush(spline: Option<Spline>): SplineBrush
  {
    SplineBrush(0, Blend, spline, 16, 0.0, 1.0, true)
  }

  // ------------------------------------------------------------ GetPolygon

  /** The polygon GetPolygon builds. */
  function PolygonOf(b: SplineBrush): (p: Polygon)
    requires b.resolution >= 0
    ensures |p.points| == b.resolution
    ensures b.spline.None? ==> forall i :: 0 <= i < |p.points| ==> p.points[i] == Zero3
    ensures b.spline.Some? ==>
      forall i :: 0 <= i < |p.points| ==> p.points[i] == b.spline.value(i as real / b.resolution as real)
  {
    Polygon(seq(b.resolution, i requires 0 <= i < b.resolution =>
      if b.spline.None? then Zero3 else b.spline.value(i as real / b.resolution as real)))
  }

  /** SplineBrush.GetPolygon: `resolution` points sampled at t = i / resolution, or the
      zero points of the fresh array when there is no spline.  A negative array length
      fails in the source. */
  method GetPolygon(b: SplineBrush) returns (p: Polygon)
    requires b.resolution >= 0
    ensures p == PolygonOf(b)
    ensures |p.points| == b.resolution
  {
    var pts := new Vector3[b.resolution](_ => Zero3);
    if b.spline.None? {
      return Polygon(pts[..]);
    }
    var spline := b.spline.value;
    for i := 0 to b.resolution
      invariant forall k :: 0 <= k < i ==> pts[k] == spline(k as real / b.resolution as real)
    {
      pts[i] := spline(i as real / b.resolution as real);
    }
    p := Polygon(pts[..]);
  }

  // -------------------------------------------------------------- Bounds

  /** SplineBrush.GetBounds: the polygon's bounds with y extended by FMaxHeight / 2 below and
      above; first the max setter, then the min setter. */
  function GetBounds(b: SplineBrush): (r: Bounds)
    requires b.resolution >= 0
    ensures var pb := BoundsOf(PolygonOf(b).points);
            r.Min() == Vector3(pb.Min().x, pb.Min().y - 5000.0, pb.Min().z) &&
            r.Max() == Vector3(pb.Max().x, pb.Max().y + 5000.0, pb.Max().z)
  {
    ExtendHeight(BoundsOf(PolygonOf(b).points), FMaxHeight / 2.0)
  }

  /** The two setter calls of GetBounds: the max raised by `height`, then the min lowered by it. */
  function ExtendHeight(pb: Bounds, height: real): (r: Bounds)
    ensures r.Min() == Vector3(pb.Min().x, pb.Min().y - height, pb.Min().z)
    ensures r.Max() == Vector3(pb.Max().x, pb.Max().y + height, pb.Max().z)
  {
    var b1 := pb.WithMax(Vector3(pb.Max().x, pb.Max().y + height, pb.Max().z));
    assert b1.Min() == pb.Min();
    b1.WithMin(Vector3(b1.Min().x, b1.Min().y - height, b1.Min().z))
  }

  /** SplineBrush.ComputeInnerBounds: the centre and the y size kept, the x and z sizes scaled
      by 1 - falloff. */
  function ComputeInnerBounds(b: SplineBrush, bounds: Bounds): (r: Bounds)
    ensures r.center == bounds.center
    ensures r.Size() == Vector3(bounds.Size().x * (1.0 - b.falloff), bounds.Size().y, bounds.Size().z * (1.0 - b.falloff))
  {
    var f := FloatExtensions.OneMinus(b.falloff);
    bounds.WithSize(Vector3(bounds.Size().x * f, bounds.Size().y, bounds.Size().z * f))
  }

  /** SplineBrush.GetInnerBounds. */
  function GetInnerBounds(b: SplineBrush): Bounds
    requires b.resolution >= 0
  {
    ComputeInnerBounds(b, GetBounds(b))
  }

  /** With a falloff in [0,1] the inner bounds lie inside the outer ones and share their
      y extent; the size lost on x and z is falloff times the outer size. */
  lemma InnerBoundsInsideOuter(b: SplineBrush, bounds: Bounds)
    requires 0.0 <= b.falloff <= 1.0
    requires bounds.extents.x >= 0.0 && bounds.extents.z >= 0.0
    ensures var inner := ComputeInnerBounds(b, bounds);
            bounds.Min().x <= inner.Min().x && inner.Max().x <= bounds.Max().x &&
            bounds.Min().z <= inner.Min().z && inner.Max().z <= bounds.Max().z &&
            inner.Min().y == bounds.Min().y && inner.Max().y == bounds.Max().y
    ensures var diff := bounds.Size().Minus(ComputeInnerBounds(b, bounds).Size());
            diff == Vector3(bounds.Size().x * b.falloff, 0.0, bounds.Size().z * b.falloff)
  {
    var inner := ComputeInnerBounds(b, bounds);
    var f := 1.0 - b.falloff;
    assert inner.extents == Vector3(bounds.extents.x * f, bounds.extents.y, bounds.extents.z * f);
    ScaleByUnit(bounds.extents.x, f);
    ScaleByUnit(bounds.extents.z, f);
  }

  // -------------------------------------------------------------- Falloff

  /** The divisions CalculateFalloff performs once the falloff is in effect. */
  predicate FalloffDefined(b: SplineBrush, outer: Bounds, inner: Bounds)
  {
    b.falloff >= 0.001 ==> outer.Size().x - inner.Size().x != 0.0 && outer.Size().z - inner.Size().z != 0.0
  }

  /** SplineBrush.CalculateFalloff: 1 below a falloff of 0.001, otherwise the saturated
      distance to the nearest vertex, measured in units of the outer-minus-inner size,
      scaled by 1 - falloff. */
  function CalculateFalloff(b: SplineBrush, outer: Bounds, inner: Bounds, pos: Vector3, polygon: Polygon,
                            distance: Distance): (r: real)
    requires FalloffDefined(b, outer, inner)
    ensures b.falloff < 0.001 ==> r == FalloffDefault
    ensures 0.001 <= b.falloff <= 1.0 ==> 0.0 <= r <= 1.0 - b.falloff
  {
    if b.falloff < 0.001 then FalloffDefault
    else
      var v := ClosestPoint(polygon.points, pos);
      var size := outer.Size().Minus(inner.Size());
      var a := Vector3(v.x / size.x, 0.0, v.z / size.z);
      var p := Vector3(pos.x / size.x, 0.0, pos.z / size.z);
      var d := Saturate(distance(a, p));
      assert 0.0 <= d <= 1.0;
      ScaleByUnit(1.0 - b.falloff, d);
      assert d * (1.0 - b.falloff) == (1.0 - b.falloff) * d;
      d * (1.0 - b.falloff)
  }

  /** At a point that shares x and z with its nearest vertex the falloff is 0 (for a
      distance that is 0 between equal points). */
  lemma FalloffZeroAtNearestVertex(b: SplineBrush, outer: Bounds, inner: Bounds, pos: Vector3, polygon: Polygon,
                                   distance: Distance)
    requires FalloffDefined(b, outer, inner) && b.falloff >= 0.001
    requires forall q :: distance(q, q) == 0.0
    requires ClosestPoint(polygon.points, pos).x == pos.x && ClosestPoint(polygon.points, pos).z == pos.z
    ensures CalculateFalloff(b, outer, inner, pos, polygon, distance) == 0.0
  {
    var size := outer.Size().Minus(inner.Size());
    var a := Vector3(pos.x / size.x, 0.0, pos.z / size.z);
    assert distance(a, a) == 0.0;
  }

  // ----------------------------------------------------------------- Mask

  /** The world position of detail cell (x, y): the terrain position read in (y, x) order,
      as a normalised point at height 0. */
  function CellWorldPosition(terrain: Terrain, region: TerrainRegion, x: int, y: int): Vector3
    requires terrain.data.detailResolution != 0
  {
    var pos := TerrainPosition2DOf(terrain, region, x, y);
    GetWorldPosition(terrain, Vector3(pos.y, 0.0, pos.x))
  }

  /** The position used is the TerrainPosition2D of the cell's TerrainPosition. */
  lemma CellWorldPositionIsTerrainPosition(terrain: Terrain, region: TerrainRegion, x: int, y: int)
    requires terrain.data.detailResolution != 0
    ensures var pos := PositionAt(terrain, region, x, y).terrainPosition2D;
            CellWorldPosition(terrain, region, x, y) == GetWorldPosition(terrain, Vector3(pos.y, 0.0, pos.x))
  {
  }

  /** The optimisation guard of GetMask: the brush intersects the terrain, its region overlaps
      the refreshed region, and it is enabled. */
  predicate MaskActive(b: SplineBrush, terrain: Terrain, region: TerrainRegion)
    requires b.resolution >= 0
  {
    var bounds := GetBounds(b);
    Intersects(bounds, terrain) && FromBounds(terrain, bounds).region.Overlaps(region.region) && b.enabled
  }

  /** What GetMask requires for the cells it evaluates. */
  predicate MaskDefined(b: SplineBrush, terrain: Terrain, region: TerrainRegion, evaluateFalloff: bool)
  {
    b.resolution > 0 && terrain.data.detailResolution != 0 &&
    region.detailRegion.width >= 0 && region.detailRegion.height >= 0 &&
    (evaluateFalloff ==> FalloffDefined(b, GetBounds(b), GetInnerBounds(b)))
  }

  /** What GetMask's loop body computes for cell (x, y) from the polygon and the two bounds. */
  function ShapeCell(b: SplineBrush, polygon: Polygon, outer: Bounds, inner: Bounds, terrain: Terrain,
                     region: TerrainRegion, evaluateFalloff: bool, distance: Distance, x: int, y: int): real
    requires |polygon.points| > 0 && terrain.data.detailResolution != 0
    requires evaluateFalloff ==> FalloffDefined(b, outer, inner)
  {
    var worldPos := CellWorldPosition(terrain, region, x, y);
    if InsidePolygon(polygon.points, worldPos) then
      var f := if evaluateFalloff then CalculateFalloff(b, outer, inner, worldPos, polygon, distance) else 1.0;
      Lerp(0.0, b.alpha, f)
    else 0.0
  }

  /** The value of mask cell (x, y). */
  function MaskCell(b: SplineBrush, terrain: Terrain, region: TerrainRegion, evaluateFalloff: bool,
                    distance: Distance, x: int, y: int): real
    requires MaskDefined(b, terrain, region, evaluateFalloff)
  {
    if !MaskActive(b, terrain, region) then 0.0
    else ShapeCell(b, PolygonOf(b), GetBounds(b), GetInnerBounds(b), terrain, region, evaluateFalloff, distance, x, y)
  }

  /** Every mask cell lies in [0, alpha]; outside the polygon, or when the guard fails, it is 0;
      inside without falloff it is alpha. */
  lemma MaskCellRange(b: SplineBrush, terrain: Terrain, region: TerrainRegion, evaluateFalloff: bool,
                      distance: Distance, x: int, y: int)
    requires MaskDefined(b, terrain, region, evaluateFalloff)
    ensures var m := MaskCell(b, terrain, region, evaluateFalloff, distance, x, y);
            (b.alpha >= 0.0 ==> 0.0 <= m <= b.alpha) &&
            (!MaskActive(b, terrain, region) ==> m == 0.0) &&
            (!InsidePolygon(PolygonOf(b).points, CellWorldPosition(terrain, region, x, y)) ==> m == 0.0) &&
            ((MaskActive(b, terrain, region) && !evaluateFalloff &&
              InsidePolygon(PolygonOf(b).points, CellWorldPosition(terrain, region, x, y))) ==> m == b.alpha)
  {
    if MaskActive(b, terrain, region) {
      ShapeCellRange(b, PolygonOf(b), GetBounds(b), GetInnerBounds(b), terrain, region, evaluateFalloff, distance, x, y);
    }
  }

  /** A shaped cell lies between 0 and alpha, is 0 outside the polygon and alpha inside it
      without falloff. */
  lemma ShapeCellRange(b: SplineBrush, polygon: Polygon, outer: Bounds, inner: Bounds, terrain: Terrain,
                       region: TerrainRegion, evaluateFalloff: bool, distance: Distance, x: int, y: int)
    requires |polygon.points| > 0 && terrain.data.detailResolution != 0
    requires evaluateFalloff ==> FalloffDefined(b, outer, inner)
    ensures var m := ShapeCell(b, polygon, outer, inner, terrain, region, evaluateFalloff, distance, x, y);
            var inside := InsidePolygon(polygon.points, CellWorldPosition(terrain, region, x, y));
            (b.alpha >= 0.0 ==> 0.0 <= m <= b.alpha) && (!inside ==> m == 0.0) &&
            (inside && !evaluateFalloff ==> m == b.alpha)
  {
  }

  /** SplineBrush.GetMask: a DetailRegion.width x DetailRegion.height grid of MaskCell. */
  method GetMask(b: SplineBrush, terrain: Terrain, region: TerrainRegion, evaluateFalloff: bool, distance: Distance)
    returns (mask: array2<real>)
    requires MaskDefined(b, terrain, region, evaluateFalloff)
    ensures fresh(mask)
    ensures mask.Length0 == region.detailRegion.width && mask.Length1 == region.detailRegion.height
    ensures forall x, y :: 0 <= x < mask.Length0 && 0 <= y < mask.Length1 ==>
              mask[x, y] == MaskCell(b, terrain, region, evaluateFalloff, distance, x, y)
  {
    var width := region.detailRegion.width;
    var height := region.detailRegion.height;
    mask := new real[width, height]((_, _) => 0.0);

    var active := IsActive(b, terrain, region);
    if !active {
      return;
    }
    var polygon := GetPolygon(b);
    var bounds := GetBounds(b);
    var innerBounds := GetInnerBounds(b);
    FillMask(mask, b, polygon, bounds, innerBounds, terrain, region, evaluateFalloff, distance);
  }

  /** GetMask's optimisation guard. */
  method IsActive(b: SplineBrush, terrain: Terrain, region: TerrainRegion) returns (active: bool)
    requires b.resolution >= 0
    ensures active == MaskActive(b, terrain, region)
  {
    var bounds := GetBounds(b);
    var brushRegion := FromBounds(terrain, bounds);
    var terrainOverlap := Intersects(bounds, terrain);
    var regionOverlap := brushRegion.region.Overlaps(region.region);
    var isOverlapping := terrainOverlap && regionOverlap;
    active := isOverlapping && b.enabled;
  }

  /** GetMask's two loops. */
  method FillMask(mask: array2<real>, b: SplineBrush, polygon: Polygon, outer: Bounds, inner: Bounds, terrain: Terrain,
                  region: TerrainRegion, evaluateFalloff: bool, distance: Distance)
    requires |polygon.points| > 0 && terrain.data.detailResolution != 0
    requires evaluateFalloff ==> FalloffDefined(b, outer, inner)
    modifies mask
    ensures forall i, j :: 0 <= i < mask.Length0 && 0 <= j < mask.Length1 ==>
              mask[i, j] == ShapeCell(b, polygon, outer, inner, terrain, region, evaluateFalloff, distance, i, j)
  {
    for y := 0 to mask.Length1
      invariant forall i, j :: 0 <= i < mask.Length0 && 0 <= j < y ==>
                  mask[i, j] == ShapeCell(b, polygon, outer, inner, terrain, region, evaluateFalloff, distance, i, j)
    {
      FillRow(mask, b, polygon, outer, inner, terrain, region, evaluateFalloff, distance, y);
    }
  }

  /** One pass of GetMask's outer loop: row y of the mask. */
  method FillRow(mask: array2<real>, b: SplineBrush, polygon: Polygon, outer: Bounds, inner: Bounds, terrain: Terrain,
                 region: TerrainRegion, evaluateFalloff: bool, distance: Distance, y: int)
    requires |polygon.points| > 0 && terrain.data.detailResolution != 0
    requires evaluateFalloff ==> FalloffDefined(b, outer, inner)
    requires 0 <= y < mask.Length1
    modifies mask
    ensures forall i :: 0 <= i < mask.Length0 ==>
              mask[i, y] == ShapeCell(b, polygon, outer, inner, terrain, region, evaluateFalloff, distance, i, y)
    ensures forall i, j :: 0 <= i < mask.Length0 && 0 <= j < mask.Length1 && j != y ==> mask[i, j] == old(mask[i, j])
  {
    for x := 0 to mask.Length0
      invariant forall i :: 0 <= i < x ==>
                  mask[i, y] == ShapeCell(b, polygon, outer, inner, terrain, region, evaluateFalloff, distance, i, y)
      invariant forall i, j :: 0 <= i < mask.Length0 && 0 <= j < mask.Length1 && j != y ==> mask[i, j] == old(mask[i, j])
    {
      mask[x, y] := CellMask(b, polygon, outer, inner, terrain, region, evaluateFalloff, distance, x, y);
    }
  }

  /** The body of GetMask's inner loop for one cell. */
  method CellMask(b: SplineBrush, polygon: Polygon, outer: Bounds, inner: Bounds, terrain: Terrain,
                  region: TerrainRegion, evaluateFalloff: bool, distance: Distance, x: int, y: int) returns (m: real)
    requires |polygon.points| > 0 && terrain.data.detailResolution != 0
    requires evaluateFalloff ==> FalloffDefined(b, outer, inner)
    ensures m == ShapeCell(b, polygon, outer, inner, terrain, region, evaluateFalloff, distance, x, y)
  {
    var worldPos := CellWorldPosition(terrain, region, x, y);
    var inside := Contains(polygon, worldPos);
    m := 0.0;
    if inside {
      var fallOff := 1.0;
      if evaluateFalloff {
        fallOff := CalculateFalloff(b, outer, inner, worldPos, polygon, distance);
      }
      m := Lerp(0.0, b.alpha, fallOff);
    }
  }
}
