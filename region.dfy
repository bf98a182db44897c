/** Core/Data/Structs/TerrainRegion.cs: a normalised rectangle of a terrain and the
    same rectangle in local, world, alpha-map, detail-map and height-map space.
    The struct has value semantics, so it is a datatype; FlipXY, which reassigns
    one field of a local copy, is a functional update. */
module TerrainRegions {
  import opened UnityEngine
  import opened Terrains
  import RectExtensions

  datatype TerrainRegion = TerrainRegion(
    terrain: Terrain,
    region: Rect,       // normalised to [0,1]
    localRegion: Rect,  // scaled to the terrain size, no offset
    worldRegion: Rect,  // scaled to the terrain size and offset by the terrain position
    alphaRegion: RectInt,
    detailRegion: RectInt,
    heightRegion: RectInt)

  /** The terrain's (x, z) position and (x, z) size. */
  function TerrainPosition2(terrain: Terrain): Vector2 { Vector2(terrain.position.x, terrain.position.z) }
  function TerrainSize2(terrain: Terrain): Vector2 { Vector2(terrain.data.size.x, terrain.data.size.z) }

  /** `new TerrainRegion(terrain, rect)`. */
  function NewTerrainRegion(terrain: Terrain, rect: Rect): (r: TerrainRegion)
    ensures r.terrain == terrain
    ensures 0.0 <= r.region.x <= 1.0 && 0.0 <= r.region.y <= 1.0
    ensures 0.0 <= r.region.width <= 1.0 && 0.0 <= r.region.height <= 1.0
    ensures 0.0 <= rect.x <= 1.0 && 0.0 <= rect.y <= 1.0 && 0.0 <= rect.width <= 1.0 && 0.0 <= rect.height <= 1.0
            ==> r.region == rect
    ensures r.region == RectExtensions.Saturate(rect)
    ensures r.localRegion == Rect(r.region.x * terrain.data.size.x, r.region.y * terrain.data.size.z,
                                  r.region.width * terrain.data.size.x, r.region.height * terrain.data.size.z)
    ensures r.worldRegion == Rect(r.localRegion.x + terrain.position.x, r.localRegion.y + terrain.position.z,
                                  r.localRegion.width, r.localRegion.height)
    ensures r.alphaRegion == RectExtensions.ScaleToInt(r.region, terrain.data.alphamapResolution)
    ensures r.detailRegion == RectExtensions.ScaleToInt(r.region, terrain.data.detailResolution)
    ensures r.heightRegion == RectExtensions.ScaleToInt(r.region, terrain.data.heightmapResolution)
  {
    var data := terrain.data;
    var region := RectExtensions.Saturate(rect);
    RectExtensions.ToWorldSpaceIsTranslatedScale(region, TerrainPosition2(terrain), TerrainSize2(terrain));
    TerrainRegion(
      terrain,
      region,
      RectExtensions.Scale(region, TerrainSize2(terrain)),
      RectExtensions.ToWorldSpace(region, TerrainPosition2(terrain), TerrainSize2(terrain)),
      RectExtensions.ScaleToInt(region, data.alphamapResolution),
      RectExtensions.ScaleToInt(region, data.detailResolution),
      RectExtensions.ScaleToInt(region, data.heightmapResolution))
  }

  /** TerrainRegion.FlipXY: only the detail rect is flipped. */
  function FlipXY(r: TerrainRegion): (f: TerrainRegion)
    ensures f.detailRegion.width == r.detailRegion.height && f.detailRegion.height == r.detailRegion.width
    ensures f.(detailRegion := r.detailRegion) == r
  {
    r.(detailRegion := RectExtensions.FlipXY(r.detailRegion))
  }

  /** Scaling a rect of non-negative size by a non-negative resolution and rounding keeps
      the size non-negative. */
  lemma ScaledSizeNonNegative(rect: Rect, res: int)
    requires rect.width >= 0.0 && rect.height >= 0.0 && res >= 0
    ensures var d := RectExtensions.ScaleToInt(rect, res);
            d.width >= 0 && d.height >= 0
  {
    assert rect.width * res as real >= 0.0;
    assert rect.height * res as real >= 0.0;
  }

  /** A region built from any rect has a detail rect of non-negative size, so flipping it
      twice gives the region back. */
  lemma FlipXYInvolution(terrain: Terrain, rect: Rect)
    requires terrain.data.detailResolution >= 0
    ensures var r := NewTerrainRegion(terrain, rect);
            r.detailRegion.width >= 0 && r.detailRegion.height >= 0 && FlipXY(FlipXY(r)) == r
  {
    var r := NewTerrainRegion(terrain, rect);
    var d := r.detailRegion;
    assert d == RectExtensions.ScaleToInt(r.region, terrain.data.detailResolution);
    ScaledSizeNonNegative(r.region, terrain.data.detailResolution);
    RectExtensions.FlipXYInvolution(d);
    var f := FlipXY(r);
    assert FlipXY(f) == f.(detailRegion := RectExtensions.FlipXY(f.detailRegion));
  }

  // ------------------------------------------------------------- FromBounds

  /** The terrain's bounds moved by its position: first the min setter, then the max setter. */
  function TranslatedTerrainBounds(terrain: Terrain): (b: Bounds)
    ensures b.Min() == terrain.data.bounds.Min().Plus(terrain.position)
    ensures b.Max() == terrain.data.bounds.Max().Plus(terrain.position)
  {
    var tb := terrain.data.bounds;
    var tb1 := tb.WithMin(tb.Min().Plus(terrain.position));
    tb1.WithMax(tb1.Max().Plus(terrain.position))
  }

  /** The padded bounds clipped to the translated terrain bounds. */
  function ClippedBounds(terrain: Terrain, bounds: Bounds, padding: real): (b: Bounds)
    ensures var padded := bounds.Expand(padding);
            var tb := TranslatedTerrainBounds(terrain);
            b.Min() == Max3(padded.Min(), tb.Min()) && b.Max() == Min3(padded.Max(), tb.Max())
  {
    var tb := TranslatedTerrainBounds(terrain);
    var padded := bounds.Expand(padding);
    var b1 := padded.WithMin(Max3(padded.Min(), tb.Min()));
    b1.WithMax(Min3(b1.Max(), tb.Max()))
  }

  /** Expand(padding) moves every face of the bounds out by padding / 2. */
  lemma ExpandGrowsEachAxis(bounds: Bounds, padding: real)
    ensures bounds.Expand(padding).Min() == bounds.Min().Minus(Vector3(padding / 2.0, padding / 2.0, padding / 2.0))
    ensures bounds.Expand(padding).Max() == bounds.Max().Plus(Vector3(padding / 2.0, padding / 2.0, padding / 2.0))
  {
  }

  predicate NonEmptyXZ(b: Bounds)
  {
    b.Min().x < b.Max().x && b.Min().z < b.Max().z
  }

  /** The normalised rect FromBounds passes on: Rect() for an empty intersection. */
  function NormalizedRect(terrain: Terrain, bounds: Bounds, padding: real): Rect
  {
    var tb := TranslatedTerrainBounds(terrain);
    var b := ClippedBounds(terrain, bounds, padding);
    if NonEmptyXZ(b) then
      assert tb.Size().x > 0.0 && tb.Size().z > 0.0;
      Rect((b.Min().x - tb.Min().x) / tb.Size().x, (b.Min().z - tb.Min().z) / tb.Size().z,
           b.Size().x / tb.Size().x, b.Size().z / tb.Size().z)
    else
      Rect(0.0, 0.0, 0.0, 0.0)
  }

  /** TerrainRegion.FromBounds (the padding defaults to 10). */
  function FromBounds(terrain: Terrain, bounds: Bounds, padding: real := 10.0): (r: TerrainRegion)
    ensures r == NewTerrainRegion(terrain, NormalizedRect(terrain, bounds, padding))
    ensures !NonEmptyXZ(ClippedBounds(terrain, bounds, padding)) ==>
      r.region == Rect(0.0, 0.0, 0.0, 0.0) && r.localRegion == Rect(0.0, 0.0, 0.0, 0.0) &&
      r.worldRegion == Rect(terrain.position.x, terrain.position.z, 0.0, 0.0) &&
      r.alphaRegion == RectInt(0, 0, 0, 0) && r.detailRegion == RectInt(0, 0, 0, 0) &&
      r.heightRegion == RectInt(0, 0, 0, 0)
  {
    if !NonEmptyXZ(ClippedBounds(terrain, bounds, padding)) then
      EmptyRegion(terrain);
      NewTerrainRegion(terrain, Rect(0.0, 0.0, 0.0, 0.0))
    else
      NewTerrainRegion(terrain, NormalizedRect(terrain, bounds, padding))
  }

  /** The region of the empty rect: every rect empty, the world rect at the terrain's corner. */
  lemma EmptyRegion(terrain: Terrain)
    ensures var r := NewTerrainRegion(terrain, Rect(0.0, 0.0, 0.0, 0.0));
      r.region == Rect(0.0, 0.0, 0.0, 0.0) && r.localRegion == Rect(0.0, 0.0, 0.0, 0.0) &&
      r.worldRegion == Rect(terrain.position.x, terrain.position.z, 0.0, 0.0) &&
      r.alphaRegion == RectInt(0, 0, 0, 0) && r.detailRegion == RectInt(0, 0, 0, 0) &&
      r.heightRegion == RectInt(0, 0, 0, 0)
  {
    var empty := Rect(0.0, 0.0, 0.0, 0.0);
    var r := NewTerrainRegion(terrain, empty);
    assert r.region == empty;
    EmptyScaleToInt(terrain.data.alphamapResolution);
    EmptyScaleToInt(terrain.data.detailResolution);
    EmptyScaleToInt(terrain.data.heightmapResolution);
  }

  lemma EmptyScaleToInt(res: int)
    ensures RectExtensions.ScaleToInt(Rect(0.0, 0.0, 0.0, 0.0), res) == RectInt(0, 0, 0, 0)
  {
  }

  /** One axis of the normalisation: [lo, hi] inside [tlo, thi] maps into [0,1]. */
  lemma AxisInUnit(lo: real, hi: real, tlo: real, thi: real)
    requires tlo <= lo < hi <= thi
    ensures var s := thi - tlo;
            s > 0.0 && 0.0 <= (lo - tlo) / s && (lo - tlo) / s + (hi - lo) / s <= 1.0 && (hi - lo) / s > 0.0
  {
    var s := thi - tlo;
    assert (lo - tlo) / s + (hi - lo) / s == (hi - tlo) / s;
    assert (hi - tlo) / s * s == hi - tlo;
  }

  /** A non-empty intersection normalises to a rect of positive size inside [0,1]^2. */
  lemma NormalizedRectInUnitSquare(terrain: Terrain, bounds: Bounds, padding: real)
    requires NonEmptyXZ(ClippedBounds(terrain, bounds, padding))
    ensures var n := NormalizedRect(terrain, bounds, padding);
            0.0 <= n.x && n.x + n.width <= 1.0 && 0.0 <= n.y && n.y + n.height <= 1.0 &&
            n.width > 0.0 && n.height > 0.0
  {
    var tb := TranslatedTerrainBounds(terrain);
    var b := ClippedBounds(terrain, bounds, padding);
    var tmin, tmax, bmin, bmax := tb.Min(), tb.Max(), b.Min(), b.Max();
    assert tb.Size().x == tmax.x - tmin.x && tb.Size().z == tmax.z - tmin.z;
    assert b.Size().x == bmax.x - bmin.x && b.Size().z == bmax.z - bmin.z;
    AxisInUnit(bmin.x, bmax.x, tmin.x, tmax.x);
    AxisInUnit(bmin.z, bmax.z, tmin.z, tmax.z);
  }
}

/** Core/Data/Structs/TerrainPosition.cs: one detail cell (x, y) of a region expressed
    in region, terrain, world, alpha-map and height-map coordinates. */
module TerrainPositions {
  import opened UnityEngine
  import opened Terrains
  import opened TerrainRegions

  datatype TerrainPosition = TerrainPosition(
    regionPosition2D: Vector2,
    terrainPosition2D: Vector2,
    worldPosition2D: Vector2,   // (z, x) order
    worldPosition3D: Vector3,
    detailPosition: Vector2Int,
    alphaPosition: Vector2Int,
    heightPosition: Vector2Int)

  function Floor2(v: Vector2): Vector2Int { Vector2Int(FloorToInt(v.x), FloorToInt(v.y)) }

  /** `new TerrainPosition(terrain, region, x, y)`; dividing by the detail resolution demands it be nonzero. */
  function PositionAt(terrain: Terrain, region: TerrainRegion, x: int, y: int): (p: TerrainPosition)
    requires terrain.data.detailResolution != 0
    ensures p.detailPosition == Vector2Int(x, y)
    ensures var res := terrain.data.detailResolution as real;
            p.regionPosition2D == Vector2(x as real / res, y as real / res)
    ensures p.worldPosition3D == Vector3(p.worldPosition2D.x, 0.0, p.worldPosition2D.y)
    ensures p.alphaPosition == Floor2(p.regionPosition2D.Scaled(terrain.data.alphamapResolution as real))
    ensures p.heightPosition == Floor2(p.regionPosition2D.Scaled(terrain.data.heightmapResolution as real))
    ensures terrain.data.detailResolution > 0 && terrain.data.alphamapResolution >= 0 &&
            terrain.data.heightmapResolution >= 0 && x >= 0 && y >= 0 ==>
      p.alphaPosition.x >= 0 && p.alphaPosition.y >= 0 && p.heightPosition.x >= 0 && p.heightPosition.y >= 0
    ensures x == 0 && y == 0 ==>
      p.regionPosition2D == Vector2(0.0, 0.0) && p.alphaPosition == Vector2Int(0, 0) &&
      p.heightPosition == Vector2Int(0, 0)
  {
    var data := terrain.data;
    var res := data.detailResolution as real;
    var regionPos := Vector2(x as real / res, y as real / res);
    var terrainPos := TerrainPosition2DOf(terrain, region, x, y);
    var alphaPos := regionPos.Scaled(data.alphamapResolution as real);
    var heightPos := regionPos.Scaled(data.heightmapResolution as real);
    var world2D := WorldPosition2DOf(terrain, region, x, y);
    assert x >= 0 && res > 0.0 ==> regionPos.x >= 0.0;
    assert y >= 0 && res > 0.0 ==> regionPos.y >= 0.0;
    TerrainPosition(regionPos, terrainPos, world2D, Vector3(world2D.x, 0.0, world2D.y),
                    Vector2Int(x, y), Floor2(alphaPos), Floor2(heightPos))
  }

  /** The cell's position in normalised terrain space: the detail rect's corner plus the cell, over
      the detail resolution. */
  function TerrainPosition2DOf(terrain: Terrain, region: TerrainRegion, x: int, y: int): Vector2
    requires terrain.data.detailResolution != 0
  {
    var res := terrain.data.detailResolution as real;
    Vector2((region.detailRegion.x + x) as real / res, (region.detailRegion.y + y) as real / res)
  }

  /** The cell's world position in (z, x) order: the world rect's (y, x) corner plus the region
      position scaled by the terrain's (x, z) size. */
  function WorldPosition2DOf(terrain: Terrain, region: TerrainRegion, x: int, y: int): Vector2
    requires terrain.data.detailResolution != 0
  {
    var res := terrain.data.detailResolution as real;
    var regionPos := Vector2(x as real / res, y as real / res);
    Vector2(region.worldRegion.y, region.worldRegion.x).Plus(regionPos.Times(Vector2(terrain.data.size.x, terrain.data.size.z)))
  }

  /** The terrain position is the region position shifted by the detail rect's corner, in detail units. */
  lemma TerrainPositionIsShiftedRegionPosition(terrain: Terrain, region: TerrainRegion, x: int, y: int)
    requires terrain.data.detailResolution != 0
    ensures var p := PositionAt(terrain, region, x, y);
            var res := terrain.data.detailResolution as real;
            p.terrainPosition2D == Vector2(region.detailRegion.x as real / res + p.regionPosition2D.x,
                                           region.detailRegion.y as real / res + p.regionPosition2D.y)
  {
  }

  /** The world position is in (z, x) order: the world rect's (y, x) corner plus the region
      position scaled by the terrain's (x, z) size. */
  lemma WorldPositionOrder(terrain: Terrain, region: TerrainRegion, x: int, y: int)
    requires terrain.data.detailResolution != 0
    ensures var p := PositionAt(terrain, region, x, y);
            p.worldPosition2D == Vector2(region.worldRegion.y + p.regionPosition2D.x * terrain.data.size.x,
                                         region.worldRegion.x + p.regionPosition2D.y * terrain.data.size.z)
  {
    var p := PositionAt(terrain, region, x, y);
    assert p.worldPosition2D == WorldPosition2DOf(terrain, region, x, y);
  }
}
