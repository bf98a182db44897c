/** The three passes of FoliageTerrain.Refresh(TerrainRegion) over the detail maps of a
    region (Core/Components/FoliageTerrain.cs): the base pass that evaluates the
    component's own biome, the brush pass (EvaluateBiomes) and the tree pass, and what the
    three leave in one cell.  The `int[][,]` detail maps are one array indexed by
    (prototype, x, y); the foliage lookups of the biomes are made before the passes and
    arrive as `Option<FoliageSettings>` values, `None` standing for a missing or disabled
    entry. */
module RefreshPasses {
  import opened UnityEngine
  import opened Terrains
  import opened Collections
  import opened FoliageData
  import opened TerrainRegions
  import opened TerrainPositions
  import opened Brushes
  import opened Density

  /** What the density evaluations of one refresh read: the flipped region, the alpha maps
      and the host queries. */
  datatype Context = Context(region: TerrainRegion, alphas: AlphaMaps, host: Host)

  predicate ContextReady(ctx: Context)
  {
    ctx.host.terrain.data.detailResolution != 0 &&
    ctx.region.detailRegion.width >= 0 && ctx.region.detailRegion.height >= 0
  }

  /** Every usable entry can be evaluated. */
  predicate EntriesReady(entries: seq<Option<FoliageSettings>>, ctx: Context)
  {
    forall i :: 0 <= i < |entries| && entries[i].Some? ==> SettingsReady(entries[i].value, ctx.host, ctx.alphas)
  }

  /** `new TerrainPosition(terrain, region, x, y)` for the refreshed region. */
  function CellPosition(ctx: Context, x: int, y: int): TerrainPosition
    requires ContextReady(ctx)
  {
    PositionAt(ctx.host.terrain, ctx.region, x, y)
  }

  // ----------------------------------------------------------- Base pass

  /** The base pass on one cell of one prototype: the entry's evaluation, or the cell
      unchanged when the biome has no usable entry for the prototype. */
  function BaseCell(current: int, entry: Option<FoliageSettings>, i: int, ctx: Context, x: int, y: int): int
    requires ContextReady(ctx)
    requires entry.Some? ==> SettingsReady(entry.value, ctx.host, ctx.alphas)
  {
    if entry.None? then current else FoliageDensity(entry.value, i, CellPosition(ctx, x, y), ctx.alphas, ctx.host)
  }

  /** The innermost loop of the base pass: every prototype of cell (x, y). */
  method BaseCellPass(maps: array3<int>, x: int, y: int, entries: seq<Option<FoliageSettings>>, ctx: Context)
    requires ContextReady(ctx) && EntriesReady(entries, ctx) && maps.Length0 == |entries|
    requires 0 <= x < maps.Length1 && 0 <= y < maps.Length2
    modifies maps
    ensures forall i, a, b :: 0 <= i < maps.Length0 && 0 <= a < maps.Length1 && 0 <= b < maps.Length2 ==>
              maps[i, a, b] == if a == x && b == y then BaseCell(old(maps[i, a, b]), entries[i], i, ctx, x, y)
                               else old(maps[i, a, b])
  {
    var position := CellPosition(ctx, x, y);
    for i := 0 to maps.Length0
      invariant forall k, a, b :: 0 <= k < maps.Length0 && 0 <= a < maps.Length1 && 0 <= b < maps.Length2 ==>
                  maps[k, a, b] == if a == x && b == y && k < i then BaseCell(old(maps[k, a, b]), entries[k], k, ctx, x, y)
                                   else old(maps[k, a, b])
    {
      var entry := entries[i];
      if entry.None? {
        continue;
      }
      var density := EvaluateFoliage(entry.value, i, position, ctx.alphas, ctx.host);
      maps[i, x, y] := density;
    }
  }

  /** The x loop of the base pass over row y. */
  method BaseRow(maps: array3<int>, y: int, entries: seq<Option<FoliageSettings>>, ctx: Context)
    requires ContextReady(ctx) && EntriesReady(entries, ctx) && maps.Length0 == |entries|
    requires 0 <= y < maps.Length2
    modifies maps
    ensures forall i, a, b :: 0 <= i < maps.Length0 && 0 <= a < maps.Length1 && 0 <= b < maps.Length2 ==>
              maps[i, a, b] == if b == y then BaseCell(old(maps[i, a, b]), entries[i], i, ctx, a, b)
                               else old(maps[i, a, b])
  {
    for x := 0 to maps.Length1
      invariant forall i, a, b :: 0 <= i < maps.Length0 && 0 <= a < maps.Length1 && 0 <= b < maps.Length2 ==>
                  maps[i, a, b] == if b == y && a < x then BaseCell(old(maps[i, a, b]), entries[i], i, ctx, a, b)
                                   else old(maps[i, a, b])
    {
      BaseCellPass(maps, x, y, entries, ctx);
    }
  }

  /** The base pass: every cell of every prototype holds the entry's evaluation, or keeps its
      value where the biome has no usable entry. */
  method BasePass(maps: array3<int>, entries: seq<Option<FoliageSettings>>, ctx: Context)
    requires ContextReady(ctx) && EntriesReady(entries, ctx) && maps.Length0 == |entries|
    modifies maps
    ensures forall i, a, b :: 0 <= i < maps.Length0 && 0 <= a < maps.Length1 && 0 <= b < maps.Length2 ==>
              maps[i, a, b] == BaseCell(old(maps[i, a, b]), entries[i], i, ctx, a, b)
  {
    for y := 0 to maps.Length2
      invariant forall i, a, b :: 0 <= i < maps.Length0 && 0 <= a < maps.Length1 && 0 <= b < maps.Length2 ==>
                  maps[i, a, b] == if b < y then BaseCell(old(maps[i, a, b]), entries[i], i, ctx, a, b)
                                   else old(maps[i, a, b])
    {
      BaseRow(maps, y, entries, ctx);
    }
  }

  // ---------------------------------------------------------- Brush pass

  /** One biome brush as the brush pass sees it: its blend mode, per prototype the foliage
      settings its biome supplies, and its mask value at each cell. */
  datatype BrushView = BrushView(mode: BlendMode, entries: seq<Option<FoliageSettings>>, mask: (int, int) -> real)

  predicate ViewsReady(views: seq<BrushView>, n: int, ctx: Context)
  {
    forall j :: 0 <= j < |views| ==> |views[j].entries| == n && EntriesReady(views[j].entries, ctx)
  }

  /** What brush j contributes to cell (x, y) of prototype i: its blend mode, the density its
      biome proposes and its mask value. */
  function Sample(v: BrushView, ctx: Context, i: int, x: int, y: int): BrushSample
    requires ContextReady(ctx) && 0 <= i < |v.entries|
    requires v.entries[i].Some? ==> SettingsReady(v.entries[i].value, ctx.host, ctx.alphas)
  {
    BrushSample(v.mode, CandidateDensity(v.entries[i], i, CellPosition(ctx, x, y), ctx.alphas, ctx.host), v.mask(x, y))
  }

  /** The samples of the first k brushes, in brush order. */
  function Samples(views: seq<BrushView>, k: nat, n: int, ctx: Context, i: int, x: int, y: int)
    : (r: seq<BrushSample>)
    requires ContextReady(ctx) && k <= |views| && 0 <= i < n && ViewsReady(views, n, ctx)
    ensures |r| == k
  {
    if k == 0 then []
    else Samples(views, k - 1, n, ctx, i, x, y) + [Sample(views[k - 1], ctx, i, x, y)]
  }

  /** Applying one more brush is one more BrushCell step. */
  lemma SamplesStep(views: seq<BrushView>, k: nat, n: int, ctx: Context, i: int, x: int, y: int,
                    current: int)
    requires ContextReady(ctx) && k < |views| && 0 <= i < n && ViewsReady(views, n, ctx)
    ensures var s := Sample(views[k], ctx, i, x, y);
            ApplyBrushes(current, Samples(views, k + 1, n, ctx, i, x, y)) ==
            BrushCell(ApplyBrushes(current, Samples(views, k, n, ctx, i, x, y)), s.mode, s.density, s.mask)
  {
    var prefix := Samples(views, k, n, ctx, i, x, y);
    assert (prefix + [Sample(views[k], ctx, i, x, y)])[..k] == prefix;
  }

  /** The inner loop of EvaluateBiomes for one brush whose mask at the cell is positive:
      every prototype of the cell takes one BrushCell step with the brush's sample. */
  method ApplyBrush(maps: array3<int>, x: int, y: int, v: BrushView, mask: real, ctx: Context)
    requires ContextReady(ctx) && |v.entries| == maps.Length0 && EntriesReady(v.entries, ctx)
    requires mask == v.mask(x, y) && mask > 0.0
    requires 0 <= x < maps.Length1 && 0 <= y < maps.Length2
    modifies maps
    ensures forall i, a, b :: 0 <= i < maps.Length0 && 0 <= a < maps.Length1 && 0 <= b < maps.Length2 ==>
              maps[i, a, b] == if a == x && b == y
                                 then var s := Sample(v, ctx, i, x, y);
                                      BrushCell(old(maps[i, a, b]), s.mode, s.density, s.mask)
                                 else old(maps[i, a, b])
  {
    var position := CellPosition(ctx, x, y);
    for i := 0 to maps.Length0
      invariant forall k, a, b :: 0 <= k < maps.Length0 && 0 <= a < maps.Length1 && 0 <= b < maps.Length2 ==>
                  maps[k, a, b] == if a == x && b == y && k < i
                                     then var s := Sample(v, ctx, k, x, y);
                                          BrushCell(old(maps[k, a, b]), s.mode, s.density, s.mask)
                                     else old(maps[k, a, b])
    {
      var density := 0.0;
      var entry := v.entries[i];
      if entry.Some? {
        var d := EvaluateFoliage(entry.value, i, position, ctx.alphas, ctx.host);
        density := d as real;
      }
      maps[i, x, y] := BlendDensity(v.mode, maps[i, x, y], density, mask);
    }
  }

  /** FoliageTerrain.EvaluateBiomes: the brushes applied to cell (x, y) in order; a brush
      whose mask is at most 0 there is skipped. */
  method EvaluateBiomes(maps: array3<int>, x: int, y: int, views: seq<BrushView>, masks: seq<array2<real>>,
                        ctx: Context)
    requires ContextReady(ctx) && ViewsReady(views, maps.Length0, ctx) && |masks| == |views|
    requires 0 <= x < maps.Length1 && 0 <= y < maps.Length2
    requires forall j :: 0 <= j < |masks| ==> x < masks[j].Length0 && y < masks[j].Length1
    requires forall j :: 0 <= j < |masks| ==>
               masks[j][x, y] == views[j].mask(x, y)
    modifies maps
    ensures forall i, a, b :: 0 <= i < maps.Length0 && 0 <= a < maps.Length1 && 0 <= b < maps.Length2 ==>
              maps[i, a, b] == if a == x && b == y
                                 then ApplyBrushes(old(maps[i, a, b]), Samples(views, |views|, maps.Length0, ctx, i, x, y))
                                 else old(maps[i, a, b])
  {
    var n := maps.Length0;
    for j := 0 to |masks|
      invariant forall i, a, b :: 0 <= i < n && 0 <= a < maps.Length1 && 0 <= b < maps.Length2 ==>
                  maps[i, a, b] == if a == x && b == y
                                     then ApplyBrushes(old(maps[i, a, b]), Samples(views, j, n, ctx, i, x, y))
                                     else old(maps[i, a, b])
    {
      var brushMask := masks[j];
      forall i | 0 <= i < n {
        SamplesStep(views, j, n, ctx, i, x, y, old(maps[i, x, y]));
      }
      if brushMask[x, y] <= 0.0 {
        continue;
      }
      ApplyBrush(maps, x, y, views[j], brushMask[x, y], ctx);
    }
  }

  /** The x loop of the brush pass over row y. */
  method BrushRow(maps: array3<int>, y: int, views: seq<BrushView>, masks: seq<array2<real>>, ctx: Context)
    requires ContextReady(ctx) && ViewsReady(views, maps.Length0, ctx) && |masks| == |views|
    requires 0 <= y < maps.Length2
    requires forall j :: 0 <= j < |masks| ==> masks[j].Length0 == maps.Length1 && masks[j].Length1 == maps.Length2
    requires forall j, a, b :: 0 <= j < |masks| && 0 <= a < maps.Length1 && 0 <= b < maps.Length2 ==>
               masks[j][a, b] == views[j].mask(a, b)
    modifies maps
    ensures forall i, a, b :: 0 <= i < maps.Length0 && 0 <= a < maps.Length1 && 0 <= b < maps.Length2 ==>
              maps[i, a, b] == if b == y
                                 then ApplyBrushes(old(maps[i, a, b]), Samples(views, |views|, maps.Length0, ctx, i, a, b))
                                 else old(maps[i, a, b])
  {
    for x := 0 to maps.Length1
      invariant forall i, a, b :: 0 <= i < maps.Length0 && 0 <= a < maps.Length1 && 0 <= b < maps.Length2 ==>
                  maps[i, a, b] == if b == y && a < x
                                     then ApplyBrushes(old(maps[i, a, b]), Samples(views, |views|, maps.Length0, ctx, i, a, b))
                                     else old(maps[i, a, b])
    {
      EvaluateBiomes(maps, x, y, views, masks, ctx);
    }
  }

  /** The brush pass: every cell of every prototype has the brushes applied in order. */
  method BrushPass(maps: array3<int>, views: seq<BrushView>, masks: seq<array2<real>>, ctx: Context)
    requires ContextReady(ctx) && ViewsReady(views, maps.Length0, ctx) && |masks| == |views|
    requires forall j :: 0 <= j < |masks| ==> masks[j].Length0 == maps.Length1 && masks[j].Length1 == maps.Length2
    requires forall j, a, b :: 0 <= j < |masks| && 0 <= a < maps.Length1 && 0 <= b < maps.Length2 ==>
               masks[j][a, b] == views[j].mask(a, b)
    modifies maps
    ensures forall i, a, b :: 0 <= i < maps.Length0 && 0 <= a < maps.Length1 && 0 <= b < maps.Length2 ==>
              maps[i, a, b] == ApplyBrushes(old(maps[i, a, b]), Samples(views, |views|, maps.Length0, ctx, i, a, b))
  {
    for y := 0 to maps.Length2
      invariant forall i, a, b :: 0 <= i < maps.Length0 && 0 <= a < maps.Length1 && 0 <= b < maps.Length2 ==>
                  maps[i, a, b] == if b < y
                                     then ApplyBrushes(old(maps[i, a, b]), Samples(views, |views|, maps.Length0, ctx, i, a, b))
                                     else old(maps[i, a, b])
    {
      BrushRow(maps, y, views, masks, ctx);
    }
  }

  // ----------------------------------------------------------- Tree pass

  /** The innermost loop of the tree pass: every prototype of cell (x, y). */
  method TreeCellPass(maps: array3<int>, x: int, y: int, tree: real)
    requires 0 <= x < maps.Length1 && 0 <= y < maps.Length2
    modifies maps
    ensures forall i, a, b :: 0 <= i < maps.Length0 && 0 <= a < maps.Length1 && 0 <= b < maps.Length2 ==>
              maps[i, a, b] == if a == x && b == y then TreePassCell(old(maps[i, a, b]), tree) else old(maps[i, a, b])
  {
    for i := 0 to maps.Length0
      invariant forall k, a, b :: 0 <= k < maps.Length0 && 0 <= a < maps.Length1 && 0 <= b < maps.Length2 ==>
                  maps[k, a, b] == if a == x && b == y && k < i then TreePassCell(old(maps[k, a, b]), tree)
                                   else old(maps[k, a, b])
    {
      var density := MathLerp(maps[i, x, y] as real, 0.0, tree);
      maps[i, x, y] := FloorToInt(density);
    }
  }

  /** The x loop of the tree pass over row y. */
  method TreeRow(maps: array3<int>, treeMap: array2<real>, y: int)
    requires treeMap.Length0 == maps.Length1 && treeMap.Length1 == maps.Length2 && 0 <= y < maps.Length2
    modifies maps
    ensures forall i, a, b :: 0 <= i < maps.Length0 && 0 <= a < maps.Length1 && 0 <= b < maps.Length2 ==>
              maps[i, a, b] == if b == y then TreePassCell(old(maps[i, a, b]), treeMap[a, b]) else old(maps[i, a, b])
  {
    for x := 0 to maps.Length1
      invariant forall i, a, b :: 0 <= i < maps.Length0 && 0 <= a < maps.Length1 && 0 <= b < maps.Length2 ==>
                  maps[i, a, b] == if b == y && a < x then TreePassCell(old(maps[i, a, b]), treeMap[a, b])
                                   else old(maps[i, a, b])
    {
      TreeCellPass(maps, x, y, treeMap[x, y]);
    }
  }

  /** The tree pass: every cell of every prototype is faded towards 0 by the tree map. */
  method TreePass(maps: array3<int>, treeMap: array2<real>)
    requires treeMap.Length0 == maps.Length1 && treeMap.Length1 == maps.Length2
    modifies maps
    ensures forall i, a, b :: 0 <= i < maps.Length0 && 0 <= a < maps.Length1 && 0 <= b < maps.Length2 ==>
              maps[i, a, b] == TreePassCell(old(maps[i, a, b]), treeMap[a, b])
  {
    for y := 0 to maps.Length2
      invariant forall i, a, b :: 0 <= i < maps.Length0 && 0 <= a < maps.Length1 && 0 <= b < maps.Length2 ==>
                  maps[i, a, b] == if b < y then TreePassCell(old(maps[i, a, b]), treeMap[a, b]) else old(maps[i, a, b])
    {
      TreeRow(maps, treeMap, y);
    }
  }

  // ------------------------------------------------------------ A cell

  /** What Refresh leaves in cell (x, y) of prototype i of the new, zeroed maps: the base
      pass, then the brushes when they are evaluated, then the fade by the tree-map cell
      `tree` when trees are evaluated. */
  function RefreshCell(evaluateBrushes: bool, evaluateTrees: bool, entries: seq<Option<FoliageSettings>>,
                       views: seq<BrushView>, tree: real, ctx: Context, i: int, x: int, y: int): int
    requires ContextReady(ctx) && 0 <= i < |entries| && EntriesReady(entries, ctx) && ViewsReady(views, |entries|, ctx)
  {
    var base := BaseCell(0, entries[i], i, ctx, x, y);
    var brushed := if evaluateBrushes then ApplyBrushes(base, Samples(views, |views|, |entries|, ctx, i, x, y)) else base;
    if evaluateTrees then TreePassCell(brushed, tree) else brushed
  }

  /** The three passes of Refresh on new, zeroed maps: the base pass, the brush pass when
      brushes are evaluated and the tree pass when trees are evaluated. */
  method RefreshMaps(maps: array3<int>, evaluateBrushes: bool, evaluateTrees: bool,
                     entries: seq<Option<FoliageSettings>>, views: seq<BrushView>, masks: seq<array2<real>>,
                     treeMap: array2<real>, ctx: Context)
    requires ContextReady(ctx) && EntriesReady(entries, ctx) && maps.Length0 == |entries|
    requires ViewsReady(views, |entries|, ctx)
    requires forall i, a, b :: 0 <= i < maps.Length0 && 0 <= a < maps.Length1 && 0 <= b < maps.Length2 ==> maps[i, a, b] == 0
    requires evaluateBrushes ==> |masks| == |views|
    requires evaluateBrushes ==>
               forall j :: 0 <= j < |masks| ==> masks[j].Length0 == maps.Length1 && masks[j].Length1 == maps.Length2
    requires evaluateBrushes ==>
               forall j, a, b :: 0 <= j < |masks| && 0 <= a < maps.Length1 && 0 <= b < maps.Length2 ==>
                 masks[j][a, b] == views[j].mask(a, b)
    requires treeMap.Length0 == maps.Length1 && treeMap.Length1 == maps.Length2
    modifies maps
    ensures forall i, a, b :: 0 <= i < maps.Length0 && 0 <= a < maps.Length1 && 0 <= b < maps.Length2 ==>
              maps[i, a, b] == RefreshCell(evaluateBrushes, evaluateTrees, entries, views, treeMap[a, b], ctx, i, a, b)
  {
    BasePass(maps, entries, ctx);
    if evaluateBrushes {
      BrushPass(maps, views, masks, ctx);
    }
    if evaluateTrees {
      TreePass(maps, treeMap);
    }
  }

  /** The entry of prototype i, if any, starts from a non-negative density. */
  predicate NonNegativeStart(entry: Option<FoliageSettings>, i: int, ctx: Context)
  {
    entry.Some? ==> InitialDensity(entry.value, ctx.host.terrain.data, ctx.host.queries, i) >= 0.0
  }

  lemma CandidateNonNegative(entry: Option<FoliageSettings>, i: int, ctx: Context, x: int, y: int)
    requires ContextReady(ctx) && (entry.Some? ==> SettingsReady(entry.value, ctx.host, ctx.alphas))
    requires NonNegativeStart(entry, i, ctx)
    ensures CandidateDensity(entry, i, CellPosition(ctx, x, y), ctx.alphas, ctx.host) >= 0.0
    ensures BaseCell(0, entry, i, ctx, x, y) >= 0
  {
    if entry.Some? {
      FoliageDensityRange(entry.value, i, CellPosition(ctx, x, y), ctx.alphas, ctx.host);
    }
  }

  lemma SamplesNonNegative(views: seq<BrushView>, k: nat, n: int, ctx: Context, i: int, x: int, y: int)
    requires ContextReady(ctx) && k <= |views| && 0 <= i < n && ViewsReady(views, n, ctx)
    requires forall j :: 0 <= j < |views| ==> NonNegativeStart(views[j].entries[i], i, ctx) && views[j].mask(x, y) >= 0.0
    ensures NonNegativeSamples(Samples(views, k, n, ctx, i, x, y))
  {
    var s := Samples(views, k, n, ctx, i, x, y);
    SamplesAre(views, k, n, ctx, i, x, y);
    forall j | 0 <= j < |s| ensures s[j].density >= 0.0 && s[j].mask >= 0.0 {
      CandidateNonNegative(views[j].entries[i], i, ctx, x, y);
    }
  }

  /** Detail densities are never negative: when every usable entry starts from a
      non-negative density, every brush mask is non-negative at the cell and the tree-map
      cell lies in [0, 1], the refreshed cell is at least 0. */
  lemma RefreshCellNonNegative(evaluateBrushes: bool, evaluateTrees: bool, entries: seq<Option<FoliageSettings>>,
                               views: seq<BrushView>, tree: real, ctx: Context, i: int, x: int, y: int)
    requires ContextReady(ctx) && 0 <= i < |entries| && EntriesReady(entries, ctx) && ViewsReady(views, |entries|, ctx)
    requires NonNegativeStart(entries[i], i, ctx)
    requires forall j :: 0 <= j < |views| ==> NonNegativeStart(views[j].entries[i], i, ctx) && views[j].mask(x, y) >= 0.0
    requires 0.0 <= tree <= 1.0
    ensures RefreshCell(evaluateBrushes, evaluateTrees, entries, views, tree, ctx, i, x, y) >= 0
  {
    CandidateNonNegative(entries[i], i, ctx, x, y);
    var base := BaseCell(0, entries[i], i, ctx, x, y);
    var s := Samples(views, |views|, |entries|, ctx, i, x, y);
    SamplesNonNegative(views, |views|, |entries|, ctx, i, x, y);
    ApplyBrushesNonNegative(base, s);
  }

  /** A cell under a tree, where the tree map is 1, ends with no foliage of any prototype. */
  lemma RefreshCellUnderTree(evaluateBrushes: bool, entries: seq<Option<FoliageSettings>>, views: seq<BrushView>,
                             ctx: Context, i: int, x: int, y: int)
    requires ContextReady(ctx) && 0 <= i < |entries| && EntriesReady(entries, ctx) && ViewsReady(views, |entries|, ctx)
    ensures RefreshCell(evaluateBrushes, true, entries, views, 1.0, ctx, i, x, y) == 0
  {
  }

  /** Where no brush reaches the cell and no tree covers it, the cell holds what the main
      biome's entry evaluates to, and 0 when the biome has no usable entry. */
  lemma RefreshCellIsBase(evaluateBrushes: bool, evaluateTrees: bool, entries: seq<Option<FoliageSettings>>,
                          views: seq<BrushView>, tree: real, ctx: Context, i: int, x: int, y: int)
    requires ContextReady(ctx) && 0 <= i < |entries| && EntriesReady(entries, ctx) && ViewsReady(views, |entries|, ctx)
    requires forall j :: 0 <= j < |views| ==> views[j].mask(x, y) <= 0.0
    requires evaluateTrees ==> tree == 0.0
    ensures var r := RefreshCell(evaluateBrushes, evaluateTrees, entries, views, tree, ctx, i, x, y);
            (entries[i].None? ==> r == 0) &&
            (entries[i].Some? ==> r == FoliageDensity(entries[i].value, i, CellPosition(ctx, x, y), ctx.alphas, ctx.host))
  {
    var s := Samples(views, |views|, |entries|, ctx, i, x, y);
    SamplesAre(views, |views|, |entries|, ctx, i, x, y);
    MaskedOutBrushesKeepCell(BaseCell(0, entries[i], i, ctx, x, y), s);
  }

  /** The j-th sample is brush j's. */
  lemma {:induction false} SamplesAre(views: seq<BrushView>, k: nat, n: int, ctx: Context, i: int, x: int, y: int)
    requires ContextReady(ctx) && k <= |views| && 0 <= i < n && ViewsReady(views, n, ctx)
    ensures var s := Samples(views, k, n, ctx, i, x, y);
            forall j :: 0 <= j < k ==> s[j] == Sample(views[j], ctx, i, x, y)
  {
    if k > 0 {
      SamplesAre(views, k - 1, n, ctx, i, x, y);
    }
  }
}
