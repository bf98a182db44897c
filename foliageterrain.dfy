/** The terrain component (Core/Components/FoliageTerrain.cs): its settings, the biome
    list of the terrain, the synchronisation of the terrain's detail prototypes with the
    biomes, the brush masks, the tree map and the refresh of one region, which returns the
    detail maps the component hands to the terrain.  The spline brushes on the terrain,
    its trees, its alpha maps and the host queries are parameters. */
module FoliageTerrains {
  import opened UnityEngine
  import opened Terrains
  import opened Collections
  import opened FoliageData
  import opened TerrainRegions
  import opened SplineBrushes
  import opened BiomeBrushes
  import opened Density
  import opened RefreshPasses
  import opened TreeMaps
  import RectExtensions

  // ------------------------------------------------------- Biome lookups

  /** What a density evaluation of `prototype` uses from biome b: nothing when there is no
      biome, no entry for the prototype or the entry is disabled, otherwise the entry's
      settings. */
  function EntryFor(b: BiomeAsset?, prototype: DetailPrototype): (r: Option<FoliageSettings>)
    reads b
    reads set f: Foliage | b != null && f in b.foliage
    reads set f: Foliage | b != null && f in b.foliage :: f.spawnRules
    reads set f: Foliage | b != null && f in b.foliage :: f.spawnRules.textureRules
  {
    if b == null then None
    else
      var f := b.FoliageFor(prototype);
      if f == null || f.bypass then None else Some(f.Settings())
  }

  /** The entry of each prototype, in order. */
  function EntriesFor(b: BiomeAsset?, prototypes: seq<DetailPrototype>): (r: seq<Option<FoliageSettings>>)
    reads b
    reads set f: Foliage | b != null && f in b.foliage
    reads set f: Foliage | b != null && f in b.foliage :: f.spawnRules
    reads set f: Foliage | b != null && f in b.foliage :: f.spawnRules.textureRules
    ensures |r| == |prototypes|
    ensures forall k :: 0 <= k < |r| ==> r[k] == EntryFor(b, prototypes[k])
  {
    if |prototypes| == 0 then []
    else EntriesFor(b, prototypes[..|prototypes| - 1]) + [EntryFor(b, prototypes[|prototypes| - 1])]
  }

  /** Every enabled entry of the biome can be evaluated against the host and the alpha maps. */
  predicate BiomeReady(b: BiomeAsset, host: Host, alphas: AlphaMaps)
    reads b
    reads set f: Foliage | f in b.foliage
    reads set f: Foliage | f in b.foliage :: f.spawnRules
    reads set f: Foliage | f in b.foliage :: f.spawnRules.textureRules
  {
    forall f: Foliage :: f in b.foliage && !f.bypass ==> SettingsReady(f.Settings(), host, alphas)
  }

  /** A ready biome supplies entries that can all be evaluated, one per prototype, and a
      missing biome supplies none. */
  lemma EntriesForReady(b: BiomeAsset?, prototypes: seq<DetailPrototype>, ctx: Context)
    requires b != null ==> BiomeReady(b, ctx.host, ctx.alphas)
    ensures EntriesReady(EntriesFor(b, prototypes), ctx)
    ensures b == null ==> forall k :: 0 <= k < |prototypes| ==> EntriesFor(b, prototypes)[k].None?
  {
    var entries := EntriesFor(b, prototypes);
    forall k | 0 <= k < |entries| && entries[k].Some?
      ensures SettingsReady(entries[k].value, ctx.host, ctx.alphas)
    {
      var i := b.MatchFrom(prototypes[k], 0);
      assert b.foliage[i] in b.foliage;
    }
  }

  /** An entry is used exactly when the biome lists an enabled entry for the prototype, and it
      is the first one listed. */
  lemma EntryForFirstMatch(b: BiomeAsset, prototype: DetailPrototype)
    ensures EntryFor(b, prototype).Some? <==>
              exists i :: 0 <= i < |b.foliage| && Matches(b.foliage[i], prototype) &&
                          !b.foliage[i].bypass && (forall j :: 0 <= j < i ==> !Matches(b.foliage[j], prototype))
    ensures EntryFor(b, prototype).Some? ==>
              EntryFor(b, prototype).value == b.foliage[b.MatchFrom(prototype, 0)].Settings()
  {
    var i := b.MatchFrom(prototype, 0);
    if EntryFor(b, prototype).Some? {
      assert 0 <= i < |b.foliage|;
    }
    if exists i' :: 0 <= i' < |b.foliage| && Matches(b.foliage[i'], prototype) &&
                    !b.foliage[i'].bypass && (forall j :: 0 <= j < i' ==> !Matches(b.foliage[j], prototype)) {
      var i' :| 0 <= i' < |b.foliage| && Matches(b.foliage[i'], prototype) &&
                 !b.foliage[i'].bypass && (forall j :: 0 <= j < i' ==> !Matches(b.foliage[j], prototype));
      assert i != -1;
      assert i == i';
    }
  }

  /** The foliage lookups of the base pass and of EvaluateBiomes, made once per prototype:
      `GetFoliage` followed by the null and `disable` checks, or nothing without a biome. */
  method LookupEntries(b: BiomeAsset?, prototypes: seq<DetailPrototype>) returns (entries: seq<Option<FoliageSettings>>)
    requires b != null ==> b.AssetsAssigned()
    ensures entries == EntriesFor(b, prototypes)
  {
    entries := [];
    for k := 0 to |prototypes|
      invariant |entries| == k
      invariant forall i :: 0 <= i < k ==> entries[i] == EntryFor(b, prototypes[i])
    {
      var entry: Option<FoliageSettings> := None;
      if b != null {
        var foliage := b.GetFoliage(prototypes[k]);
        if foliage != null && !foliage.bypass {
          entry := Some(foliage.Settings());
        }
      }
      assert entry == EntryFor(b, prototypes[k]);
      entries := entries + [entry];
    }
  }

  // ------------------------------------------------------- Biome lists

  /** The prototypes a biome lists, none for a missing biome. */
  function BiomePrototypes(b: BiomeAsset?): seq<DetailPrototype>
    reads b, if b != null then b.foliage else []
    requires b != null ==> b.AllAssigned()
  {
    if b == null then [] else b.GetPrototypes()
  }

  /** The lists one after the other. */
  function Flatten(lists: seq<seq<DetailPrototype>>): seq<DetailPrototype>
  {
    if |lists| == 0 then [] else Flatten(lists[..|lists| - 1]) + lists[|lists| - 1]
  }

  /** The prototypes SyncFoliage installs, given the prototype list of each biome of
      GetBiomes: every prototype once, in the order of first occurrence. */
  function SyncedPrototypes(lists: seq<seq<DetailPrototype>>): seq<DetailPrototype>
  {
    Dedup(Flatten(lists))
  }

  /** A prototype is in the flattened lists exactly when one of the lists holds it. */
  lemma {:induction false} FlattenMembers(lists: seq<seq<DetailPrototype>>, p: DetailPrototype)
    ensures p in Flatten(lists) <==> exists k :: 0 <= k < |lists| && p in lists[k]
    decreases |lists|
  {
    if |lists| > 0 {
      var n := |lists| - 1;
      var front := lists[..n];
      FlattenMembers(front, p);
      assert Flatten(lists) == Flatten(front) + lists[n];
      if p in Flatten(front) {
        var k :| 0 <= k < n && p in front[k];
        assert lists[k] == front[k];
      }
      if exists k :: 0 <= k < |lists| && p in lists[k] {
        var k :| 0 <= k < |lists| && p in lists[k];
        if k < n {
          assert p in front[k];
        } else {
          assert p in lists[n];
        }
      }
    }
  }

  /** SyncedPrototypes holds no prototype twice, holds exactly the prototypes some biome
      lists, and keeps them in the order each first occurs. */
  lemma SyncedPrototypesSpec(lists: seq<seq<DetailPrototype>>, p: DetailPrototype)
    ensures NoDuplicates(SyncedPrototypes(lists))
    ensures p in SyncedPrototypes(lists) <==> exists k :: 0 <= k < |lists| && p in lists[k]
    ensures FirstOccurrenceOrder(Flatten(lists), SyncedPrototypes(lists))
  {
    var all := Flatten(lists);
    var synced := SyncedPrototypes(lists);
    FlattenMembers(lists, p);
    if p in all {
      var i :| 0 <= i < |all| && all[i] == p;
      assert all[i] in synced;
    }
    if p in synced {
      var i :| 0 <= i < |synced| && synced[i] == p;
      assert synced[i] in all;
    }
    DedupFirstOccurrenceOrder(all);
  }

  /** The list GetBiomes returns: the component's biome first, then the brushes' biomes. */
  function BiomeList(biome: BiomeAsset?, splines: seq<BiomeBrush>): seq<BiomeAsset?>
    reads splines
  {
    [biome] + Dedup(BiomesOf(splines))
  }

  /** The biome list starts with the component's biome, holds every brush's biome and
      nothing else, and lists the brushes' biomes once each. */
  lemma BiomeListMembers(biome: BiomeAsset?, splines: seq<BiomeBrush>)
    ensures var list := BiomeList(biome, splines);
            |list| >= 1 && list[0] == biome &&
            (forall i :: 0 <= i < |splines| ==> splines[i].biome in list) &&
            (forall i :: 1 <= i < |list| ==> exists j :: 0 <= j < |splines| && splines[j].biome == list[i]) &&
            NoDuplicates(list[1..])
  {
    var all := BiomesOf(splines);
    var list := BiomeList(biome, splines);
    assert list[1..] == Dedup(all);
    forall i | 0 <= i < |splines| ensures splines[i].biome in list {
      assert all[i] == splines[i].biome;
      assert all[i] in Dedup(all);
    }
    forall i | 1 <= i < |list| ensures exists j :: 0 <= j < |splines| && splines[j].biome == list[i] {
      assert list[i] == Dedup(all)[i - 1];
      assert list[i] in all;
      var j :| 0 <= j < |all| && all[j] == list[i];
      assert splines[j].biome == list[i];
    }
  }

  /** Every present biome of the list has its assets when the component's biome and every
      brush's biome have theirs. */
  lemma BiomeListAssigned(biome: BiomeAsset?, splines: seq<BiomeBrush>)
    requires biome != null ==> biome.AllAssigned()
    requires forall j :: 0 <= j < |splines| && splines[j].biome != null ==> splines[j].biome.AllAssigned()
    ensures forall k :: 0 <= k < |BiomeList(biome, splines)| && BiomeList(biome, splines)[k] != null ==>
              BiomeList(biome, splines)[k].AllAssigned()
  {
    var biomes := BiomeList(biome, splines);
    BiomeListMembers(biome, splines);
    forall k | 1 <= k < |biomes| && biomes[k] != null ensures biomes[k].AllAssigned() {
      var j :| 0 <= j < |splines| && splines[j].biome == biomes[k];
    }
  }

  /** The inner loop of SyncFoliage's collection: each prototype of `ps` is appended to
      `prototypes` unless it is already there. */
  method AppendAbsent(prototypes: seq<DetailPrototype>, ps: seq<DetailPrototype>) returns (r: seq<DetailPrototype>)
    ensures r == AddAbsent(prototypes, ps)
  {
    r := prototypes;
    for m := 0 to |ps|
      invariant AddAbsent(r, ps[m..]) == AddAbsent(prototypes, ps)
    {
      assert ps[m..][0] == ps[m] && ps[m..][1..] == ps[m + 1..];
      if ps[m] !in r {
        r := r + [ps[m]];
      }
    }
  }

  /** The prototype list of each biome of SyncFoliage's loop, none for a missing biome. */
  method PrototypeLists(biomes: seq<BiomeAsset?>) returns (lists: seq<seq<DetailPrototype>>)
    requires forall k :: 0 <= k < |biomes| && biomes[k] != null ==> biomes[k].AllAssigned()
    ensures |lists| == |biomes|
    ensures forall k :: 0 <= k < |biomes| ==> lists[k] == old(BiomePrototypes(biomes[k]))
  {
    lists := [];
    for k := 0 to |biomes|
      invariant |lists| == k
      invariant forall i :: 0 <= i < k ==> lists[i] == old(BiomePrototypes(biomes[i]))
    {
      var ps: seq<DetailPrototype> := [];
      if biomes[k] != null {
        ps := biomes[k].GetPrototypes();
      }
      lists := lists + [ps];
    }
  }

  /** The collection loop of SyncFoliage over the biomes' lists: every prototype in turn,
      appended unless it is already there. */
  method CollectPrototypes(lists: seq<seq<DetailPrototype>>) returns (prototypes: seq<DetailPrototype>)
    ensures prototypes == SyncedPrototypes(lists)
  {
    prototypes := [];
    for k := 0 to |lists|
      invariant prototypes == AddAbsent([], Flatten(lists[..k]))
    {
      prototypes := AppendAbsent(prototypes, lists[k]);
      AddAbsentConcat([], Flatten(lists[..k]), lists[k]);
      assert lists[..k + 1][..k] == lists[..k];
    }
    assert lists[..|lists|] == lists;
    AddAbsentDedup(Flatten(lists));
  }

  // ------------------------------------------------------- Brush views

  /** The mask of a brush on the region as a function of the cell. */
  function BrushMask(b: SplineBrush, terrain: Terrain, region: TerrainRegion, evaluateFalloff: bool,
                     distance: Distance): (int, int) -> real
  {
    (x: int, y: int) => if MaskDefined(b, terrain, region, evaluateFalloff)
                        then MaskCell(b, terrain, region, evaluateFalloff, distance, x, y) else 0.0
  }

  /** How the brush pass sees one brush with its biome. */
  function ViewOf(b: SplineBrush, biome: BiomeAsset?, prototypes: seq<DetailPrototype>, terrain: Terrain,
                  region: TerrainRegion, evaluateFalloff: bool, distance: Distance): BrushView
    reads biome
    reads set f: Foliage | biome != null && f in biome.foliage
    reads set f: Foliage | biome != null && f in biome.foliage :: f.spawnRules
    reads set f: Foliage | biome != null && f in biome.foliage :: f.spawnRules.textureRules
  {
    BrushView(b.blendMode, EntriesFor(biome, prototypes), BrushMask(b, terrain, region, evaluateFalloff, distance))
  }

  /** The per-brush lookups of EvaluateBiomes, made once per brush. */
  method BrushViews(splines: seq<BiomeBrush>, prototypes: seq<DetailPrototype>, terrain: Terrain,
                    region: TerrainRegion, evaluateFalloff: bool, distance: Distance)
    returns (views: seq<BrushView>)
    requires forall j :: 0 <= j < |splines| && splines[j].biome != null ==> splines[j].biome.AssetsAssigned()
    ensures |views| == |splines|
    ensures forall j :: 0 <= j < |splines| ==>
              views[j] == ViewOf(splines[j].brush, splines[j].biome, prototypes, terrain, region, evaluateFalloff, distance)
  {
    views := [];
    for j := 0 to |splines|
      invariant |views| == j
      invariant forall i :: 0 <= i < j ==>
                  views[i] == old(ViewOf(splines[i].brush, splines[i].biome, prototypes, terrain, region, evaluateFalloff, distance))
    {
      var view := BrushViewFor(splines[j], prototypes, terrain, region, evaluateFalloff, distance);
      views := views + [view];
    }
  }

  /** One brush's view: its blend mode, its biome's entries and its mask. */
  method BrushViewFor(spline: BiomeBrush, prototypes: seq<DetailPrototype>, terrain: Terrain,
                      region: TerrainRegion, evaluateFalloff: bool, distance: Distance)
    returns (view: BrushView)
    requires spline.biome != null ==> spline.biome.AssetsAssigned()
    ensures view == old(ViewOf(spline.brush, spline.biome, prototypes, terrain, region, evaluateFalloff, distance))
  {
    var entries := LookupEntries(spline.biome, prototypes);
    view := BrushView(spline.brush.blendMode, entries, BrushMask(spline.brush, terrain, region, evaluateFalloff, distance));
  }

  // ------------------------------------------------------- Prototype removal

  /** The list after the removal loop has visited the indices from `i` onwards: the
      unvisited prefix, then the kept part of the rest. */
  function Removed<T>(s: seq<T>, i: nat, keep: T -> bool): seq<T>
    requires i <= |s|
  {
    s[..i] + Filter(s[i..], keep)
  }

  lemma RemovalStart<T>(s: seq<T>, keep: T -> bool)
    ensures Removed(s, |s|, keep) == s
  {
    assert s[|s|..] == [];
    assert s[..|s|] == s;
  }

  lemma RemovalEnd<T>(s: seq<T>, keep: T -> bool)
    ensures Removed(s, 0, keep) == Filter(s, keep)
  {
    assert s[..0] == [] && s[0..] == s;
  }

  /** Visiting index i keeps its element when `keep` holds and removes it otherwise. */
  lemma RemovalStep<T>(s: seq<T>, i: nat, keep: T -> bool)
    requires i < |s|
    ensures |Removed(s, i + 1, keep)| > i && Removed(s, i + 1, keep)[i] == s[i]
    ensures keep(s[i]) ==> Removed(s, i, keep) == Removed(s, i + 1, keep)
    ensures !keep(s[i]) ==>
              Removed(s, i, keep) == Removed(s, i + 1, keep)[..i] + Removed(s, i + 1, keep)[i + 1..]
  {
    var rest := Filter(s[i + 1..], keep);
    assert s[i..][0] == s[i] && s[i..][1..] == s[i + 1..];
    assert Filter(s[i..], keep) == (if keep(s[i]) then [s[i]] else []) + rest;
    assert s[..i + 1] == s[..i] + [s[i]];
    var r := Removed(s, i + 1, keep);
    assert r == s[..i] + [s[i]] + rest;
    assert r[..i] == s[..i];
    assert r[i + 1..] == rest;
  }

  // ------------------------------------------------------- Refreshed layers

  /** The mask array has the detail rect's shape and holds MaskCell at every cell. */
  predicate MaskMatches(mask: array2<real>, b: SplineBrush, terrain: Terrain, region: TerrainRegion,
                        evaluateFalloff: bool, distance: Distance)
    requires MaskDefined(b, terrain, region, evaluateFalloff)
    reads mask
  {
    mask.Length0 == region.detailRegion.width && mask.Length1 == region.detailRegion.height &&
    forall x, y :: 0 <= x < mask.Length0 && 0 <= y < mask.Length1 ==>
      mask[x, y] == MaskCell(b, terrain, region, evaluateFalloff, distance, x, y)
  }

  /** Every cell of every layer is what the passes make of it: RefreshCell with the tree map
      cell of the region, for usable entries and views. */
  ghost predicate LayersRefreshed(maps: array3<int>, evaluateBrushes: bool, evaluateTrees: bool,
                                  entries: seq<Option<FoliageSettings>>, views: seq<BrushView>,
                                  trees: seq<TreeInstance>, params: TreeSettings, ctx: Context)
    reads maps
  {
    ContextReady(ctx) && maps.Length0 == |entries| &&
    EntriesReady(entries, ctx) && ViewsReady(views, |entries|, ctx) &&
    (evaluateTrees ==> TreesReady(Filter(trees, InRegion(ctx.region.region)), params)) &&
    forall i, a, b :: 0 <= i < maps.Length0 && 0 <= a < maps.Length1 && 0 <= b < maps.Length2 ==>
      maps[i, a, b] ==
        RefreshCell(evaluateBrushes, evaluateTrees, entries, views,
                    TreeMapCell(evaluateTrees, trees, ctx.host.terrain, ctx.host.queries, ctx.region, params, a, b),
                    ctx, i, a, b)
  }

  // ------------------------------------------------------- The component

  class FoliageTerrain {
    var terrain: Terrain
    var biome: BiomeAsset?
    var evaluateBrushes: bool
    var evaluateBrushFalloff: bool
    var evaluateTrees: bool
    var treeBlendRange: Vector2
    var treePadding: int
    var chunkedRefreshResolution: int
    /** The terrain's detail prototypes (TerrainData.detailPrototypes). */
    var detailPrototypes: seq<DetailPrototype>

    /** A component with the field initialisers on a terrain with the given prototypes. */
    constructor(terrain: Terrain, biome: BiomeAsset?, detailPrototypes: seq<DetailPrototype>)
      ensures this.terrain == terrain && this.biome == biome && this.detailPrototypes == detailPrototypes
      ensures evaluateBrushes && evaluateBrushFalloff && evaluateTrees
      ensures treeBlendRange == Vector2(0.25, 0.5) && treePadding == 4 && chunkedRefreshResolution == 256
    {
      this.terrain := terrain;
      this.biome := biome;
      this.detailPrototypes := detailPrototypes;
      evaluateBrushes := true;
      evaluateBrushFalloff := true;
      evaluateTrees := true;
      treeBlendRange := Vector2(0.25, 0.5);
      treePadding := 4;
      chunkedRefreshResolution := 256;
    }

    /** The tree settings of the component, with `math.distance` given. */
    function TreeParams(distance: (Vector2, Vector2) -> real): TreeSettings
      reads this`treePadding, this`treeBlendRange
    {
      TreeSettings(treePadding, treeBlendRange, distance)
    }

    /** GetBiomes: the component's biome, then each brush's biome once, null included. */
    method GetBiomes(splines: seq<BiomeBrush>) returns (biomes: seq<BiomeAsset?>)
      ensures biomes == BiomeList(biome, splines)
    {
      var brushBiomes := BiomeBrushes.GetBiomes(splines);
      biomes := [biome] + brushBiomes;
    }

    /** The removal loop of SyncFoliage: from the last prototype to the first, every
        prototype the biomes do not list is removed from the terrain. */
    method RemoveUnusedPrototypes(prototypes: seq<DetailPrototype>)
      modifies this`detailPrototypes
      ensures detailPrototypes == Filter(old(detailPrototypes), (p: DetailPrototype) => p in prototypes)
      ensures terrain == old(terrain) && biome == old(biome)
      ensures evaluateBrushes == old(evaluateBrushes) && evaluateBrushFalloff == old(evaluateBrushFalloff)
      ensures evaluateTrees == old(evaluateTrees) && treeBlendRange == old(treeBlendRange)
      ensures treePadding == old(treePadding) && chunkedRefreshResolution == old(chunkedRefreshResolution)
    {
      var keep := (p: DetailPrototype) => p in prototypes;
      ghost var original := detailPrototypes;
      var i := |detailPrototypes| - 1;
      RemovalStart(original, keep);
      while i >= 0
        invariant -1 <= i < |original|
        invariant detailPrototypes == Removed(original, i + 1, keep)
        invariant terrain == old(terrain) && biome == old(biome)
        invariant evaluateBrushes == old(evaluateBrushes) && evaluateBrushFalloff == old(evaluateBrushFalloff)
        invariant evaluateTrees == old(evaluateTrees) && treeBlendRange == old(treeBlendRange)
        invariant treePadding == old(treePadding) && chunkedRefreshResolution == old(chunkedRefreshResolution)
      {
        RemovalStep(original, i, keep);
        if detailPrototypes[i] !in prototypes {
          detailPrototypes := detailPrototypes[..i] + detailPrototypes[i + 1..];
        }
        i := i - 1;
      }
      RemovalEnd(original, keep);
    }

    /** SyncFoliage: the prototypes of every present biome of GetBiomes, once each, in the
        order of first occurrence; the terrain drops the prototypes not among them and then
        takes exactly them.  `lists` holds the prototype list of each biome of GetBiomes. */
    method SyncFoliage(splines: seq<BiomeBrush>) returns (prototypes: seq<DetailPrototype>, ghost lists: seq<seq<DetailPrototype>>)
      requires biome != null ==> biome.AllAssigned()
      requires forall j :: 0 <= j < |splines| && splines[j].biome != null ==> splines[j].biome.AllAssigned()
      modifies this`detailPrototypes
      ensures terrain == old(terrain) && biome == old(biome)
      ensures evaluateBrushes == old(evaluateBrushes) && evaluateBrushFalloff == old(evaluateBrushFalloff)
      ensures evaluateTrees == old(evaluateTrees) && treeBlendRange == old(treeBlendRange)
      ensures treePadding == old(treePadding) && chunkedRefreshResolution == old(chunkedRefreshResolution)
      ensures |lists| == |old(BiomeList(biome, splines))|
      ensures forall k :: 0 <= k < |lists| ==>
                old(var b := BiomeList(biome, splines)[k];
                    (b != null ==> b.AllAssigned()) && lists[k] == BiomePrototypes(b))
      ensures prototypes == SyncedPrototypes(lists)
      ensures detailPrototypes == prototypes
    {
      BiomeListAssigned(biome, splines);
      var biomes := BiomeList(biome, splines);
      var biomeLists := PrototypeLists(biomes);
      prototypes := CollectPrototypes(biomeLists);
      lists := biomeLists;
      RemoveUnusedPrototypes(prototypes);
      detailPrototypes := prototypes;
    }

    /** GetBiomeMask: the brush's mask on the region, with the component's falloff setting. */
    method GetBiomeMask(brush: BiomeBrush, region: TerrainRegion, distance: Distance) returns (mask: array2<real>)
      requires MaskDefined(brush.brush, terrain, region, evaluateBrushFalloff)
      ensures fresh(mask)
      ensures MaskMatches(mask, brush.brush, terrain, region, evaluateBrushFalloff, distance)
    {
      mask := GetMask(brush.brush, terrain, region, evaluateBrushFalloff, distance);
    }

    /** GetBiomeMasks: no masks when brushes are not evaluated, otherwise one fresh mask per
        brush, in order. */
    method GetBiomeMasks(brushes: seq<BiomeBrush>, region: TerrainRegion, distance: Distance)
      returns (masks: Option<seq<array2<real>>>)
      requires evaluateBrushes ==>
                 forall j :: 0 <= j < |brushes| ==> MaskDefined(brushes[j].brush, terrain, region, evaluateBrushFalloff)
      ensures masks.None? <==> !evaluateBrushes
      ensures masks.Some? ==> |masks.value| == |brushes|
      ensures masks.Some? ==> forall j :: 0 <= j < |brushes| ==>
                fresh(masks.value[j]) &&
                masks.value[j].Length0 == region.detailRegion.width && masks.value[j].Length1 == region.detailRegion.height
      ensures masks.Some? ==>
                forall j, x, y :: 0 <= j < |brushes| && 0 <= x < region.detailRegion.width && 0 <= y < region.detailRegion.height ==>
                masks.value[j][x, y] == MaskCell(brushes[j].brush, terrain, region, evaluateBrushFalloff, distance, x, y)
    {
      if !evaluateBrushes {
        return None;
      }
      var result: seq<array2<real>> := [];
      for j := 0 to |brushes|
        invariant |result| == j
        invariant forall i :: 0 <= i < j ==> fresh(result[i])
        invariant forall i :: 0 <= i < j ==> old(MaskDefined(brushes[i].brush, terrain, region, evaluateBrushFalloff))
        invariant forall i :: 0 <= i < j && old(MaskDefined(brushes[i].brush, terrain, region, evaluateBrushFalloff)) ==>
                    MaskMatches(result[i], old(brushes[i].brush), old(terrain), region, old(evaluateBrushFalloff), distance)
      {
        var mask := GetBiomeMask(brushes[j], region, distance);
        result := result + [mask];
      }
      return Some(result);
    }

    /** BuildTreeMap: a fresh map over the region's detail rect whose cells are the tree-map
        cells of the component's tree settings. */
    method BuildTreeMap(region: TerrainRegion, trees: seq<TreeInstance>, queries: TerrainQueries,
                        treeDistance: (Vector2, Vector2) -> real)
      returns (treeMap: array2<real>)
      requires terrain.data.detailResolution != 0
      requires region.detailRegion.width >= 0 && region.detailRegion.height >= 0
      requires evaluateTrees ==> TreesReady(Filter(trees, InRegion(region.region)), TreeParams(treeDistance))
      ensures fresh(treeMap)
      ensures treeMap.Length0 == region.detailRegion.width && treeMap.Length1 == region.detailRegion.height
      ensures forall a, b :: 0 <= a < treeMap.Length0 && 0 <= b < treeMap.Length1 ==>
                treeMap[a, b] == TreeMapCell(evaluateTrees, trees, terrain, queries, region, TreeParams(treeDistance), a, b)
    {
      treeMap := new real[region.detailRegion.width, region.detailRegion.height]((_, _) => 0.0);
      if !evaluateTrees {
        return;
      }
      var kept := KeepInRegion(trees, region.region);
      if |kept| == 0 {
        return;
      }
      var bounds := BoundsOfTrees(terrain, kept, treePadding);
      FillTreeMap(treeMap, kept, bounds, terrain, queries, region, TreeParams(treeDistance));
    }

    /** The foliage lookups of Refresh(TerrainRegion): the component biome's entry for every
        prototype and, when brushes are evaluated, every brush's view on the flipped region. */
    method LookupFoliage(flipped: TerrainRegion, prototypes: seq<DetailPrototype>, splines: seq<BiomeBrush>,
                         alphas: AlphaMaps, host: Host, distance: Distance)
      returns (entries: seq<Option<FoliageSettings>>, views: seq<BrushView>)
      requires biome != null && biome.AllAssigned() && BiomeReady(biome, host, alphas)
      requires forall j :: 0 <= j < |splines| && splines[j].biome != null ==> splines[j].biome.AllAssigned()
      requires evaluateBrushes ==>
                 forall j :: 0 <= j < |splines| && splines[j].biome != null ==> BiomeReady(splines[j].biome, host, alphas)
      ensures entries == EntriesFor(biome, prototypes)
      ensures !evaluateBrushes ==> views == []
      ensures evaluateBrushes ==> |views| == |splines|
      ensures evaluateBrushes ==>
                forall j :: 0 <= j < |splines| ==>
                  views[j] == ViewOf(splines[j].brush, splines[j].biome, prototypes, terrain, flipped,
                                     evaluateBrushFalloff, distance)
      ensures EntriesReady(entries, Context(flipped, alphas, host))
      ensures ViewsReady(views, |entries|, Context(flipped, alphas, host))
    {
      var ctx := Context(flipped, alphas, host);
      entries := LookupEntries(biome, prototypes);
      EntriesForReady(biome, prototypes, ctx);
      views := [];
      if evaluateBrushes {
        views := BrushViews(splines, prototypes, terrain, flipped, evaluateBrushFalloff, distance);
        forall j | 0 <= j < |views|
          ensures |views[j].entries| == |prototypes| && EntriesReady(views[j].entries, ctx)
        {
          EntriesForReady(splines[j].biome, prototypes, ctx);
        }
      }
    }

    /** The passes of Refresh(TerrainRegion) on fresh zero maps over the flipped region, given
        the foliage lookups: the masks and the tree map are built, then every cell is
        refreshed. */
    method RefreshLayers(flipped: TerrainRegion, prototypes: seq<DetailPrototype>, splines: seq<BiomeBrush>,
                         entries: seq<Option<FoliageSettings>>, views: seq<BrushView>,
                         alphas: AlphaMaps, host: Host, trees: seq<TreeInstance>, distance: Distance,
                         treeDistance: (Vector2, Vector2) -> real)
      returns (maps: array3<int>)
      requires host.terrain == terrain && terrain.data.detailResolution != 0
      requires flipped.detailRegion.width >= 0 && flipped.detailRegion.height >= 0
      requires |entries| == |prototypes|
      requires EntriesReady(entries, Context(flipped, alphas, host))
      requires ViewsReady(views, |entries|, Context(flipped, alphas, host))
      requires evaluateBrushes ==> |views| == |splines|
      requires evaluateBrushes ==>
                 forall j :: 0 <= j < |splines| ==>
                   views[j].mask == BrushMask(splines[j].brush, terrain, flipped, evaluateBrushFalloff, distance)
      requires evaluateBrushes ==>
                 forall j :: 0 <= j < |splines| ==> MaskDefined(splines[j].brush, terrain, flipped, evaluateBrushFalloff)
      requires evaluateTrees ==> TreesReady(Filter(trees, InRegion(flipped.region)), TreeParams(treeDistance))
      ensures fresh(maps)
      ensures maps.Length0 == |prototypes|
      ensures maps.Length1 == flipped.detailRegion.width && maps.Length2 == flipped.detailRegion.height
      ensures LayersRefreshed(maps, evaluateBrushes, evaluateTrees, entries, views, trees, TreeParams(treeDistance),
                              Context(flipped, alphas, host))
    {
      var ctx := Context(flipped, alphas, host);
      var masks: seq<array2<real>> := [];
      if evaluateBrushes {
        var found := GetBiomeMasks(splines, flipped, distance);
        masks := found.value;
      }
      var treeMap := BuildTreeMap(flipped, trees, host.queries, treeDistance);
      maps := new int[|prototypes|, flipped.detailRegion.width, flipped.detailRegion.height]((_, _, _) => 0);
      RefreshMaps(maps, evaluateBrushes, evaluateTrees, entries, views, masks, treeMap, ctx);
    }

    /** The layer computation of Refresh(TerrainRegion) on the flipped region, for the
        synchronised prototypes: the base, brush and tree passes applied to fresh zero maps.
        `entries` and `views` are the foliage lookups of the base and brush passes. */
    method RefreshRegion(flipped: TerrainRegion, prototypes: seq<DetailPrototype>, splines: seq<BiomeBrush>,
                         alphas: AlphaMaps, host: Host, trees: seq<TreeInstance>, distance: Distance,
                         treeDistance: (Vector2, Vector2) -> real)
      returns (maps: array3<int>, ghost entries: seq<Option<FoliageSettings>>, ghost views: seq<BrushView>)
      requires host.terrain == terrain && terrain.data.detailResolution != 0
      requires flipped.detailRegion.width >= 0 && flipped.detailRegion.height >= 0
      requires biome != null && biome.AllAssigned() && BiomeReady(biome, host, alphas)
      requires forall j :: 0 <= j < |splines| && splines[j].biome != null ==> splines[j].biome.AllAssigned()
      requires evaluateBrushes ==>
                 forall j :: 0 <= j < |splines| && splines[j].biome != null ==> BiomeReady(splines[j].biome, host, alphas)
      requires evaluateBrushes ==>
                 forall j :: 0 <= j < |splines| ==> MaskDefined(splines[j].brush, terrain, flipped, evaluateBrushFalloff)
      requires evaluateTrees ==> TreesReady(Filter(trees, InRegion(flipped.region)), TreeParams(treeDistance))
      ensures fresh(maps)
      ensures maps.Length0 == |prototypes|
      ensures maps.Length1 == flipped.detailRegion.width && maps.Length2 == flipped.detailRegion.height
      ensures entries == EntriesFor(biome, prototypes)
      ensures !evaluateBrushes ==> views == []
      ensures evaluateBrushes ==> |views| == |splines|
      ensures evaluateBrushes ==>
                forall j :: 0 <= j < |splines| ==>
                  views[j] == ViewOf(splines[j].brush, splines[j].biome, prototypes, terrain, flipped,
                                     evaluateBrushFalloff, distance)
      ensures LayersRefreshed(maps, evaluateBrushes, evaluateTrees, entries, views, trees, TreeParams(treeDistance),
                              Context(flipped, alphas, host))
    {
      var foliage, brushViews := LookupFoliage(flipped, prototypes, splines, alphas, host, distance);
      maps := RefreshLayers(flipped, prototypes, splines, foliage, brushViews, alphas, host, trees, distance, treeDistance);
      entries, views := foliage, brushViews;
    }

    /** Refresh(TerrainRegion): SyncFoliage, then the detail maps of the region flipped to
        (y, x) order, with the base, brush and tree passes applied to every cell, and the
        detail position at which SetDetailLayer writes them.  `lists` are the biomes'
        prototype lists of SyncFoliage, `entries` and `views` the foliage lookups of the base
        and brush passes. */
    method Refresh(region: TerrainRegion, splines: seq<BiomeBrush>, alphas: AlphaMaps, host: Host,
                   trees: seq<TreeInstance>, distance: Distance, treeDistance: (Vector2, Vector2) -> real)
      returns (position: Vector2Int, maps: array3<int>, ghost lists: seq<seq<DetailPrototype>>,
               ghost entries: seq<Option<FoliageSettings>>, ghost views: seq<BrushView>)
      requires host.terrain == terrain && terrain.data.detailResolution != 0
      requires region.detailRegion.width >= 0 && region.detailRegion.height >= 0
      requires biome != null && biome.AllAssigned() && BiomeReady(biome, host, alphas)
      requires forall j :: 0 <= j < |splines| && splines[j].biome != null ==> splines[j].biome.AllAssigned()
      requires evaluateBrushes ==>
                 forall j :: 0 <= j < |splines| && splines[j].biome != null ==> BiomeReady(splines[j].biome, host, alphas)
      requires evaluateBrushes ==>
                 forall j :: 0 <= j < |splines| ==> MaskDefined(splines[j].brush, terrain, FlipXY(region), evaluateBrushFalloff)
      requires evaluateTrees ==> TreesReady(Filter(trees, InRegion(region.region)), TreeParams(treeDistance))
      modifies this`detailPrototypes
      ensures terrain == old(terrain) && biome == old(biome)
      ensures evaluateBrushes == old(evaluateBrushes) && evaluateBrushFalloff == old(evaluateBrushFalloff)
      ensures evaluateTrees == old(evaluateTrees) && treeBlendRange == old(treeBlendRange)
      ensures treePadding == old(treePadding) && chunkedRefreshResolution == old(chunkedRefreshResolution)
      ensures |lists| == |old(BiomeList(biome, splines))|
      ensures forall k :: 0 <= k < |lists| ==>
                old(var b := BiomeList(biome, splines)[k];
                    (b != null ==> b.AllAssigned()) && lists[k] == BiomePrototypes(b))
      ensures detailPrototypes == SyncedPrototypes(lists)
      ensures position == region.detailRegion.Position()
      ensures fresh(maps)
      ensures maps.Length0 == |detailPrototypes|
      ensures maps.Length1 == region.detailRegion.height && maps.Length2 == region.detailRegion.width
      ensures entries == EntriesFor(biome, detailPrototypes)
      ensures !evaluateBrushes ==> views == []
      ensures evaluateBrushes ==> |views| == |splines|
      ensures evaluateBrushes ==>
                forall j :: 0 <= j < |splines| ==>
                  views[j] == ViewOf(splines[j].brush, splines[j].biome, detailPrototypes, terrain, FlipXY(region),
                                     evaluateBrushFalloff, distance)
      ensures LayersRefreshed(maps, evaluateBrushes, evaluateTrees, entries, views, trees, TreeParams(treeDistance),
                              Context(FlipXY(region), alphas, host))
    {
      var flipped := FlipXY(region);
      var prototypes;
      prototypes, lists := SyncFoliage(splines);
      maps, entries, views := RefreshRegion(flipped, prototypes, splines, alphas, host, trees, distance, treeDistance);
      RectExtensions.FlipXYInvolution(region.detailRegion);
      position := FlipXY(flipped).detailRegion.Position();
    }

    /** Clear: after SyncFoliage, every prototype's layer over the region is written as a
        zero map of the region's detail size, unflipped. */
    method Clear(region: TerrainRegion, splines: seq<BiomeBrush>)
      returns (position: Vector2Int, maps: array3<int>, ghost lists: seq<seq<DetailPrototype>>)
      requires biome != null ==> biome.AllAssigned()
      requires forall j :: 0 <= j < |splines| && splines[j].biome != null ==> splines[j].biome.AllAssigned()
      requires region.detailRegion.width >= 0 && region.detailRegion.height >= 0
      modifies this`detailPrototypes
      ensures terrain == old(terrain) && biome == old(biome)
      ensures |lists| == |old(BiomeList(biome, splines))|
      ensures forall k :: 0 <= k < |lists| ==>
                old(var b := BiomeList(biome, splines)[k];
                    (b != null ==> b.AllAssigned()) && lists[k] == BiomePrototypes(b))
      ensures detailPrototypes == SyncedPrototypes(lists)
      ensures position == region.detailRegion.Position()
      ensures fresh(maps)
      ensures maps.Length0 == |detailPrototypes|
      ensures maps.Length1 == region.detailRegion.width && maps.Length2 == region.detailRegion.height
      ensures forall i, a, b :: 0 <= i < maps.Length0 && 0 <= a < maps.Length1 && 0 <= b < maps.Length2 ==> maps[i, a, b] == 0
    {
      var prototypes;
      prototypes, lists := SyncFoliage(splines);
      maps := new int[|prototypes|, region.detailRegion.width, region.detailRegion.height]((_, _, _) => 0);
      position := region.detailRegion.Position();
    }
  }
}
