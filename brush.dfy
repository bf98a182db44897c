/** The brush base class (Core/Components/Brush.cs, with the same code in
    Core/Components/Brushes/Brush.cs and Core/Components/FloraBrush.cs): the blend
    modes, the terrain intersection test and the scene query that lists the brushes
    touching a terrain.  The scene's object list is a parameter. */
module Brushes {
  import opened UnityEngine
  import opened Terrains
  import opened Collections
  import TerrainRegions

  datatype BlendMode = Blend | Add | Subtract

  /** What the scene query sees of a brush: its draw order, its blend mode, the bounds its
      subclass reports and whether it is a BiomeBrush. */
  datatype SceneBrush = SceneBrush(drawOrder: int, blendMode: BlendMode, bounds: Bounds, isBiomeBrush: bool)

  /** The terrain's bounds rebuilt around the centre moved by the transform position. */
  function TerrainWorldBounds(terrain: Terrain): Bounds
  {
    var b := terrain.data.bounds;
    BoundsFromCenterSize(b.center.Plus(terrain.position), b.Size())
  }

  /** Brush.Intersects: the brush bounds overlap the terrain's world-space bounds. */
  predicate Intersects(bounds: Bounds, terrain: Terrain)
  {
    bounds.Intersects(TerrainWorldBounds(terrain))
  }

  /** The world-space box of the intersection test is the terrain box moved by the terrain
      position, the same box the region builder clips against. */
  lemma TerrainWorldBoundsIsTranslated(terrain: Terrain)
    ensures TerrainWorldBounds(terrain).Min() == terrain.data.bounds.Min().Plus(terrain.position)
    ensures TerrainWorldBounds(terrain).Max() == terrain.data.bounds.Max().Plus(terrain.position)
    ensures TerrainWorldBounds(terrain).Min() == TerrainRegions.TranslatedTerrainBounds(terrain).Min()
    ensures TerrainWorldBounds(terrain).Max() == TerrainRegions.TranslatedTerrainBounds(terrain).Max()
  {
  }

  /** Intersects is a closed overlap on each axis with the moved terrain box. */
  lemma IntersectsIsAxisOverlap(bounds: Bounds, terrain: Terrain)
    ensures var lo := terrain.data.bounds.Min().Plus(terrain.position);
            var hi := terrain.data.bounds.Max().Plus(terrain.position);
            Intersects(bounds, terrain) <==>
              bounds.Min().x <= hi.x && bounds.Max().x >= lo.x &&
              bounds.Min().y <= hi.y && bounds.Max().y >= lo.y &&
              bounds.Min().z <= hi.z && bounds.Max().z >= lo.z
  {
    TerrainWorldBoundsIsTranslated(terrain);
  }

  function DrawOrder(b: SceneBrush): int { b.drawOrder }

  function Touches(terrain: Terrain): SceneBrush -> bool
  {
    (b: SceneBrush) => Intersects(b.bounds, terrain)
  }

  /** Brush.GetBrushes: the brushes that intersect the terrain, in scene order when
      `unordered`, otherwise stably ordered by draw order. */
  function GetBrushes(scene: seq<SceneBrush>, terrain: Terrain, unordered: bool): (r: seq<SceneBrush>)
    ensures forall i :: 0 <= i < |r| ==> Intersects(r[i].bounds, terrain)
    ensures multiset(r) == multiset(Filter(scene, Touches(terrain)))
    ensures unordered ==> r == Filter(scene, Touches(terrain))
    ensures !unordered ==> SortedBy(r, DrawOrder)
  {
    var touching := Filter(scene, Touches(terrain));
    if unordered then touching
    else
      var sorted := SortBy(touching, DrawOrder);
      assert forall i :: 0 <= i < |sorted| ==> Intersects(sorted[i].bounds, terrain) by {
        forall i | 0 <= i < |sorted| ensures Intersects(sorted[i].bounds, terrain) {
          assert sorted[i] in multiset(touching);
          var k :| 0 <= k < |touching| && touching[k] == sorted[i];
          assert Touches(terrain)(touching[k]);
        }
      }
      sorted
  }

  /** Every scene brush that intersects the terrain is listed. */
  lemma GetBrushesComplete(scene: seq<SceneBrush>, terrain: Terrain, unordered: bool, i: nat)
    requires i < |scene| && Intersects(scene[i].bounds, terrain)
    ensures scene[i] in GetBrushes(scene, terrain, unordered)
  {
    var touching := Filter(scene, Touches(terrain));
    assert scene[i] in touching;
    assert scene[i] in multiset(touching);
  }

  /** The ordering is stable: brushes with the same draw order keep their scene order. */
  lemma GetBrushesStable(scene: seq<SceneBrush>, terrain: Terrain, order: int)
    ensures Filter(GetBrushes(scene, terrain, false), KeyIs(DrawOrder, order))
            == Filter(Filter(scene, Touches(terrain)), KeyIs(DrawOrder, order))
  {
    SortStable(Filter(scene, Touches(terrain)), DrawOrder, order);
  }

  function IsBiomeBrush(b: SceneBrush): bool { b.isBiomeBrush }

  /** Brush.GetBrushes<T> for T = BiomeBrush: the query result narrowed by OfType. */
  function GetBiomeBrushes(scene: seq<SceneBrush>, terrain: Terrain, unordered: bool): (r: seq<SceneBrush>)
    ensures forall i :: 0 <= i < |r| ==> r[i].isBiomeBrush && Intersects(r[i].bounds, terrain)
    ensures !unordered ==> SortedBy(r, DrawOrder)
    ensures r == Filter(GetBrushes(scene, terrain, unordered), IsBiomeBrush)
    ensures forall i :: 0 <= i < |scene| && scene[i].isBiomeBrush && Intersects(scene[i].bounds, terrain)
                        ==> scene[i] in r
  {
    var all := GetBrushes(scene, terrain, unordered);
    var r := Filter(all, IsBiomeBrush);
    BiomeBrushesComplete(scene, terrain, unordered);
    assert !unordered ==> SortedBy(r, DrawOrder) by {
      if !unordered {
        FilterKeepsSorted(all, IsBiomeBrush);
      }
    }
    r
  }

  /** Every scene biome brush that intersects the terrain survives the type filter. */
  lemma BiomeBrushesComplete(scene: seq<SceneBrush>, terrain: Terrain, unordered: bool)
    ensures forall i :: 0 <= i < |scene| && scene[i].isBiomeBrush && Intersects(scene[i].bounds, terrain)
                        ==> scene[i] in Filter(GetBrushes(scene, terrain, unordered), IsBiomeBrush)
  {
    forall i | 0 <= i < |scene| && scene[i].isBiomeBrush && Intersects(scene[i].bounds, terrain)
      ensures scene[i] in Filter(GetBrushes(scene, terrain, unordered), IsBiomeBrush)
    {
      GetBrushesComplete(scene, terrain, unordered, i);
    }
  }

  /** OfType keeps the relative order: a filter of a sorted sequence is sorted. */
  lemma {:induction false} FilterKeepsSorted(s: seq<SceneBrush>, p: SceneBrush -> bool)
    requires SortedBy(s, DrawOrder)
    ensures SortedBy(Filter(s, p), DrawOrder)
  {
    if |s| > 0 {
      FilterKeepsSorted(s[1..], p);
      var rest := Filter(s[1..], p);
      forall i | 0 <= i < |rest| ensures s[0].drawOrder <= rest[i].drawOrder {
        assert rest[i] in s[1..];
      }
    }
  }

  /** Without ordering, OfType keeps exactly the biome brushes among the intersecting ones,
      in scene order, and narrowing before or after the intersection test is the same. */
  lemma GetBiomeBrushesUnordered(scene: seq<SceneBrush>, terrain: Terrain)
    ensures GetBiomeBrushes(scene, terrain, true) == Filter(Filter(scene, Touches(terrain)), IsBiomeBrush)
    ensures GetBiomeBrushes(scene, terrain, true) == Filter(Filter(scene, IsBiomeBrush), Touches(terrain))
  {
    FilterCommutes(scene, Touches(terrain), IsBiomeBrush);
  }

  lemma {:induction false} FilterCommutes(s: seq<SceneBrush>, p: SceneBrush -> bool, q: SceneBrush -> bool)
    ensures Filter(Filter(s, p), q) == Filter(Filter(s, q), p)
  {
    if |s| > 0 {
      var h := [s[0]];
      FilterCommutes(s[1..], p, q);
      assert s == h + s[1..];
      FilterAppend(h, s[1..], p);
      FilterAppend(h, s[1..], q);
      FilterAppend(Filter(h, p), Filter(s[1..], p), q);
      FilterAppend(Filter(h, q), Filter(s[1..], q), p);
    }
  }
}
