/** The per-cell density arithmetic of FoliageTerrain (Core/Components/FoliageTerrain.cs):
    the texture-rule sum, the spawn-rule evaluation of one foliage entry, the three brush
    blend modes, the tree influence of one tree and the tree pass.  The alpha maps the
    host returns are read-only here and are modelled as their three lengths and an
    element function; the terrain queries and the engine noise are parameters. */
module Density {
  import opened UnityEngine
  import opened Terrains
  import opened Collections
  import opened Noise
  import opened FoliageData
  import opened TerrainLayerExtensions
  import opened TerrainExtensions
  import opened TerrainPositions
  import opened Brushes
  import VectorExtensions

  /** The `float[,,]` of TerrainData.GetAlphamaps: GetLength(0), GetLength(1), GetLength(2)
      and the element at [x, y, layer]. */
  datatype AlphaMaps = AlphaMaps(width: nat, height: nat, layers: nat, sample: (int, int, int) -> real)

  /** What one density evaluation asks of the host: the terrain queries, the engine noise
      and the terrain's layer list (FoliageTerrain.Layers). */
  datatype Host = Host(terrain: Terrain, queries: TerrainQueries, noise: NoiseSource, layers: seq<TerrainLayer>)

  // ------------------------------------------------------- Texture rules

  /** The alpha sample position, clamped into the maps when it lies outside them. */
  function ClampedPos(pos: Vector2Int, width: int, height: int): (p: Vector2Int)
    requires width > 0 && height > 0
    ensures 0 <= p.x < width && 0 <= p.y < height
    ensures 0 <= pos.x < width && 0 <= pos.y < height ==> p == pos
  {
    if pos.x < 0 || pos.x >= width || pos.y < 0 || pos.y >= height then
      VectorExtensions.Clamp(pos, 0, 0, width - 1, height - 1)
    else pos
  }

  /** The maps can be sampled for every rule: the layer list is no longer than the third
      dimension, and the maps are not empty unless there is no rule to sample them for. */
  predicate AlphasCover(rules: seq<TextureRule>, layers: seq<TerrainLayer>, alphas: AlphaMaps)
  {
    |layers| <= alphas.layers && (|rules| == 0 || (alphas.width > 0 && alphas.height > 0))
  }

  /** A rule that contributes nothing: no layer, a layer the terrain does not have, or an
      alpha below the threshold. */
  predicate Skipped(r: TextureRule, p: Vector2Int, layers: seq<TerrainLayer>, alphas: AlphaMaps)
  {
    r.layer.None? || IndexOfLayer(layers, r.layer.value) < 0 ||
    alphas.sample(p.x, p.y, IndexOfLayer(layers, r.layer.value)) < r.threshold
  }

  /** The signed contribution of one rule: +alpha * density for Include, -alpha * density for
      Exclude, 0 when skipped. */
  function RuleTerm(r: TextureRule, p: Vector2Int, density: real, layers: seq<TerrainLayer>, alphas: AlphaMaps): real
  {
    if Skipped(r, p, layers, alphas) then 0.0
    else
      var alpha := alphas.sample(p.x, p.y, IndexOfLayer(layers, r.layer.value));
      match r.rule
      case Include => alpha * density
      case Exclude => -(alpha * density)
  }

  /** The accumulator after the first k rules. */
  function RuleSum(rules: seq<TextureRule>, k: nat, p: Vector2Int, density: real, layers: seq<TerrainLayer>,
                   alphas: AlphaMaps): real
    requires k <= |rules|
  {
    if k == 0 then 0.0 else RuleSum(rules, k - 1, p, density, layers, alphas) + RuleTerm(rules[k - 1], p, density, layers, alphas)
  }

  /** What EvaluateTextureRules returns: the density itself with no rules, otherwise the
      rule sum clamped into [0, density]. */
  function TextureRulesValue(rules: seq<TextureRule>, pos: Vector2Int, density: real, layers: seq<TerrainLayer>,
                             alphas: AlphaMaps): (r: real)
    requires AlphasCover(rules, layers, alphas)
    ensures |rules| == 0 ==> r == density
    ensures |rules| > 0 && density >= 0.0 ==> 0.0 <= r <= density
  {
    if |rules| == 0 then density
    else
      var p := ClampedPos(pos, alphas.width, alphas.height);
      MathClamp(RuleSum(rules, |rules|, p, density, layers, alphas), 0.0, density)
  }

  /** FoliageTerrain.EvaluateTextureRules. */
  method EvaluateTextureRules(rules: seq<TextureRule>, pos: Vector2Int, density: real, layers: seq<TerrainLayer>,
                              alphas: AlphaMaps) returns (r: real)
    requires AlphasCover(rules, layers, alphas)
    ensures r == TextureRulesValue(rules, pos, density, layers, alphas)
  {
    if |rules| == 0 {
      return density;
    }
    var p := pos;
    var len := Vector2Int(alphas.width, alphas.height);
    if p.x < 0 || p.x >= len.x || p.y < 0 || p.y >= len.y {
      p := VectorExtensions.Clamp(p, 0, 0, len.x - 1, len.y - 1);
    }
    var d := 0.0;
    for k := 0 to |rules|
      invariant d == RuleSum(rules, k, p, density, layers, alphas)
    {
      var rule := rules[k];
      if rule.layer.None? {
        continue;
      }
      var splatIndex := IndexOf(layers, rule.layer.value);
      if splatIndex < 0 {
        continue;
      }
      var alpha := alphas.sample(p.x, p.y, splatIndex);
      if alpha < rule.threshold {
        continue;
      }
      match rule.rule {
        case Include => d := d + alpha * density;
        case Exclude => d := d - alpha * density;
      }
    }
    r := MathClamp(d, 0.0, density);
  }

  lemma {:induction false} RuleSumSkipped(rules: seq<TextureRule>, k: nat, p: Vector2Int, density: real,
                                          layers: seq<TerrainLayer>, alphas: AlphaMaps)
    requires k <= |rules|
    requires forall i :: 0 <= i < k ==> Skipped(rules[i], p, layers, alphas)
    ensures RuleSum(rules, k, p, density, layers, alphas) == 0.0
  {
    if k > 0 {
      RuleSumSkipped(rules, k - 1, p, density, layers, alphas);
    }
  }

  /** A non-empty rule list whose every rule is skipped at the sampled position gives 0. */
  lemma AllSkippedIsZero(rules: seq<TextureRule>, pos: Vector2Int, density: real, layers: seq<TerrainLayer>,
                         alphas: AlphaMaps)
    requires AlphasCover(rules, layers, alphas) && |rules| > 0
    requires forall i :: 0 <= i < |rules| ==>
               Skipped(rules[i], ClampedPos(pos, alphas.width, alphas.height), layers, alphas)
    ensures TextureRulesValue(rules, pos, density, layers, alphas) == 0.0
  {
    RuleSumSkipped(rules, |rules|, ClampedPos(pos, alphas.width, alphas.height), density, layers, alphas);
  }

  lemma {:induction false} RuleSumExcludeOnly(rules: seq<TextureRule>, k: nat, p: Vector2Int, density: real,
                                              layers: seq<TerrainLayer>, alphas: AlphaMaps)
    requires k <= |rules| && density >= 0.0
    requires forall i :: 0 <= i < |rules| ==> rules[i].rule == Exclude
    requires forall l :: 0 <= l < |layers| ==> alphas.sample(p.x, p.y, l) >= 0.0
    ensures RuleSum(rules, k, p, density, layers, alphas) <= 0.0
  {
    if k > 0 {
      RuleSumExcludeOnly(rules, k - 1, p, density, layers, alphas);
      var r := rules[k - 1];
      if !Skipped(r, p, layers, alphas) {
        var alpha := alphas.sample(p.x, p.y, IndexOfLayer(layers, r.layer.value));
        assert alpha >= 0.0;
        assert alpha * density >= 0.0;
      }
    }
  }

  /** Exclude rules alone, over non-negative alphas, remove everything. */
  lemma ExcludeOnlyIsZero(rules: seq<TextureRule>, pos: Vector2Int, density: real, layers: seq<TerrainLayer>,
                          alphas: AlphaMaps)
    requires AlphasCover(rules, layers, alphas) && |rules| > 0 && density >= 0.0
    requires forall i :: 0 <= i < |rules| ==> rules[i].rule == Exclude
    requires forall x, y, l :: alphas.sample(x, y, l) >= 0.0
    ensures TextureRulesValue(rules, pos, density, layers, alphas) == 0.0
  {
    RuleSumExcludeOnly(rules, |rules|, ClampedPos(pos, alphas.width, alphas.height), density, layers, alphas);
  }

  // ------------------------------------------------------------ Foliage

  /** foliage.density times the detail resolution per patch, times the coverage of the
      prototype in coverage scatter mode. */
  function InitialDensity(s: FoliageSettings, data: TerrainData, queries: TerrainQueries, detailIndex: int): real
  {
    var d := s.density * data.detailResolutionPerPatch as real;
    if data.detailScatterMode == CoverageMode then d * queries.detailCoverage(detailIndex) else d
  }

  /** The limit test of the spawn rules: a value below x or above y fails. */
  predicate WithinLimit(v: real, limit: Vector2)
  {
    !(v < limit.x || v > limit.y)
  }

  /** The steepness and height the host reports at the cell; both are sampled at (y, x). */
  function Steepness(host: Host, position: TerrainPosition): real
  {
    host.queries.steepness(position.terrainPosition2D.y, position.terrainPosition2D.x)
  }

  function Height(host: Host, position: TerrainPosition): real
  {
    host.queries.interpolatedHeight(position.terrainPosition2D.y, position.terrainPosition2D.x)
  }

  /** What an entry's settings demand of the evaluation. */
  predicate SettingsReady(s: FoliageSettings, host: Host, alphas: AlphaMaps)
  {
    AlphasCover(s.rules, host.layers, alphas) && Evaluable(s.noise)
  }

  /** What EvaluateFoliage returns. */
  function FoliageDensity(s: FoliageSettings, detailIndex: int, position: TerrainPosition, alphas: AlphaMaps,
                          host: Host): int
    requires SettingsReady(s, host, alphas)
  {
    var initial := InitialDensity(s, host.terrain.data, host.queries, detailIndex);
    var textured := TextureRulesValue(s.rules, position.alphaPosition, initial, host.layers, alphas);
    var perlin := NoiseValue(s.noise, host.noise, position.worldPosition2D.x, position.worldPosition2D.y);
    LimitedDensity(NoiseFade(textured, perlin, s.noise.alpha), s, Steepness(host, position), Height(host, position))
  }

  /** `Mathf.Lerp(density, density * perlinValue, perlin.alpha)`. */
  function NoiseFade(density: real, perlin: real, alpha: real): real
  {
    Lerp(density, density * perlin, alpha)
  }

  /** The steepness and height limits, then the floor. */
  function LimitedDensity(density: real, s: FoliageSettings, steepness: real, height: real): int
  {
    var steep := if WithinLimit(steepness, s.steepnessLimit) then density else 0.0;
    var limited := if WithinLimit(height, s.heightLimit) then steep else 0.0;
    FloorToInt(limited)
  }

  /** FoliageTerrain.EvaluateFoliage, on the settings snapshot of the entry. */
  method EvaluateFoliage(s: FoliageSettings, detailIndex: int, position: TerrainPosition, alphas: AlphaMaps,
                         host: Host) returns (r: int)
    requires SettingsReady(s, host, alphas)
    ensures r == FoliageDensity(s, detailIndex, position, alphas, host)
  {
    var initialDensity := InitialDensity(s, host.terrain.data, host.queries, detailIndex);
    var density := initialDensity;
    density := EvaluateTextureRules(s.rules, position.alphaPosition, density, host.layers, alphas);
    var perlinValue := EvaluateAt(s.noise, host.noise, position.worldPosition2D);
    density := NoiseFade(density, perlinValue, s.noise.alpha);
    var steepness := Steepness(host, position);
    if steepness < s.steepnessLimit.x || steepness > s.steepnessLimit.y {
      density := 0.0;
    }
    var height := Height(host, position);
    if height < s.heightLimit.x || height > s.heightLimit.y {
      density := 0.0;
    }
    r := FloorToInt(density);
  }

  /** A cell outside the steepness or the height limit gets no foliage. */
  lemma OutsideLimitsIsZero(s: FoliageSettings, detailIndex: int, position: TerrainPosition, alphas: AlphaMaps,
                            host: Host)
    requires SettingsReady(s, host, alphas)
    requires !WithinLimit(Steepness(host, position), s.steepnessLimit) || !WithinLimit(Height(host, position), s.heightLimit)
    ensures FoliageDensity(s, detailIndex, position, alphas, host) == 0
  {
  }

  /** Texturing and noise only take density away: the result lies in [0, floor(initial)]. */
  lemma FoliageDensityRange(s: FoliageSettings, detailIndex: int, position: TerrainPosition, alphas: AlphaMaps,
                            host: Host)
    requires SettingsReady(s, host, alphas)
    requires InitialDensity(s, host.terrain.data, host.queries, detailIndex) >= 0.0
    ensures 0 <= FoliageDensity(s, detailIndex, position, alphas, host)
              <= FloorToInt(InitialDensity(s, host.terrain.data, host.queries, detailIndex))
  {
    var initial := InitialDensity(s, host.terrain.data, host.queries, detailIndex);
    var textured := TextureRulesValue(s.rules, position.alphaPosition, initial, host.layers, alphas);
    var perlin := NoiseValue(s.noise, host.noise, position.worldPosition2D.x, position.worldPosition2D.y);
    NoiseFadeWithin(textured, perlin, s.noise.alpha, initial);
    LimitsWithin(NoiseFade(textured, perlin, s.noise.alpha), initial, Steepness(host, position), Height(host, position), s);
  }

  lemma LimitsWithin(noisy: real, initial: real, steepness: real, height: real, s: FoliageSettings)
    requires 0.0 <= noisy <= initial
    ensures 0 <= LimitedDensity(noisy, s, steepness, height) <= FloorToInt(initial)
  {
    FloorMonotone(noisy, initial);
    FloorMonotone(0.0, initial);
  }

  /** Fading a value of [0, m] towards its product with a value of [0,1] stays in [0, m]. */
  lemma NoiseFadeWithin(textured: real, perlin: real, alpha: real, m: real)
    requires 0.0 <= textured <= m && 0.0 <= perlin <= 1.0
    ensures 0.0 <= NoiseFade(textured, perlin, alpha) <= m
  {
    ScaleByUnit(textured, perlin);
  }

  lemma FloorMonotone(a: real, b: real)
    requires a <= b
    ensures FloorToInt(a) <= FloorToInt(b)
  {
  }

  /** An entry with no texture rules and a noise of alpha 0, inside both limits, gets exactly
      the floor of its initial density. */
  lemma UnruledDensity(s: FoliageSettings, detailIndex: int, position: TerrainPosition, alphas: AlphaMaps,
                       host: Host)
    requires SettingsReady(s, host, alphas) && |s.rules| == 0 && s.noise.alpha == 0.0
    requires WithinLimit(Steepness(host, position), s.steepnessLimit) && WithinLimit(Height(host, position), s.heightLimit)
    ensures FoliageDensity(s, detailIndex, position, alphas, host)
            == FloorToInt(InitialDensity(s, host.terrain.data, host.queries, detailIndex))
  {
    assert NoiseValue(s.noise, host.noise, position.worldPosition2D.x, position.worldPosition2D.y) == 1.0;
  }

  // --------------------------------------------------------- Blend modes

  /** The switch of EvaluateBiomes, floored: Blend lerps from the current value towards the
      brush's density by the mask, Add adds density times mask, Subtract removes it without
      going below 0 or above the current value. */
  function BlendDensity(mode: BlendMode, current: int, density: real, mask: real): (r: int)
    ensures mode == Blend && density >= current as real ==> current <= r <= FloorToInt(density)
    ensures mode == Blend && density < current as real ==> FloorToInt(density) <= r <= current
    ensures mode == Blend && mask >= 1.0 ==> r == FloorToInt(density)
    ensures mode == Add && density * mask >= 0.0 ==> r >= current
    ensures mode == Subtract && current >= 0 ==> 0 <= r <= current
    ensures mode == Subtract && density * mask <= 0.0 && current >= 0 ==> r == current
  {
    match mode
    case Blend => FloorToInt(Lerp(current as real, density, mask))
    case Add => FloorToInt(current as real + density * mask)
    case Subtract =>
      var d := current as real - density * mask;
      FloorToInt(Clamp(d, 0.0, current as real))
  }

  /** What one brush does to one cell of one prototype: nothing where its mask is at most 0. */
  function BrushCell(current: int, mode: BlendMode, density: real, mask: real): int
  {
    if mask <= 0.0 then current else BlendDensity(mode, current, density, mask)
  }

  /** One brush as a cell sees it. */
  datatype BrushSample = BrushSample(mode: BlendMode, density: real, mask: real)

  /** The brushes applied to a cell in array order. */
  function ApplyBrushes(current: int, samples: seq<BrushSample>): int
  {
    if |samples| == 0 then current
    else
      var last := samples[|samples| - 1];
      BrushCell(ApplyBrushes(current, samples[..|samples| - 1]), last.mode, last.density, last.mask)
  }

  /** Brushes compose in order: applying a list is applying its first part, then the rest. */
  lemma {:induction false} ApplyBrushesAppend(current: int, a: seq<BrushSample>, b: seq<BrushSample>)
    ensures ApplyBrushes(current, a + b) == ApplyBrushes(ApplyBrushes(current, a), b)
  {
    if |b| == 0 {
      assert a + b == a;
    } else {
      var n := |b| - 1;
      assert (a + b)[..|a + b| - 1] == a + b[..n];
      ApplyBrushesAppend(current, a, b[..n]);
    }
  }

  /** Brushes whose masks are all at most 0 leave the cell unchanged. */
  lemma {:induction false} MaskedOutBrushesKeepCell(current: int, samples: seq<BrushSample>)
    requires forall j :: 0 <= j < |samples| ==> samples[j].mask <= 0.0
    ensures ApplyBrushes(current, samples) == current
  {
    if |samples| > 0 {
      MaskedOutBrushesKeepCell(current, samples[..|samples| - 1]);
    }
  }

  /** Subtract brushes alone never raise a non-negative cell and never make it negative. */
  lemma {:induction false} SubtractOnlyWithin(current: int, samples: seq<BrushSample>)
    requires current >= 0
    requires forall j :: 0 <= j < |samples| ==> samples[j].mode == Subtract
    ensures 0 <= ApplyBrushes(current, samples) <= current
  {
    if |samples| > 0 {
      SubtractOnlyWithin(current, samples[..|samples| - 1]);
    }
  }

  /** With non-negative densities and masks, Add brushes alone never lower a cell. */
  lemma {:induction false} AddOnlyGrows(current: int, samples: seq<BrushSample>)
    requires forall j :: 0 <= j < |samples| ==>
               samples[j].mode == Add && samples[j].density >= 0.0 && samples[j].mask >= 0.0
    ensures ApplyBrushes(current, samples) >= current
  {
    if |samples| > 0 {
      AddOnlyGrows(current, samples[..|samples| - 1]);
      var last := samples[|samples| - 1];
      assert last.density * last.mask >= 0.0;
    }
  }

  predicate NonNegativeSamples(samples: seq<BrushSample>)
  {
    forall j :: 0 <= j < |samples| ==> samples[j].density >= 0.0 && samples[j].mask >= 0.0
  }

  /** Brushes with non-negative densities and masks never make a non-negative cell negative. */
  lemma {:induction false} ApplyBrushesNonNegative(current: int, samples: seq<BrushSample>)
    requires current >= 0
    requires NonNegativeSamples(samples)
    ensures ApplyBrushes(current, samples) >= 0
  {
    if |samples| > 0 {
      ApplyBrushesNonNegative(current, samples[..|samples| - 1]);
      var last := samples[|samples| - 1];
      assert last.density * last.mask >= 0.0;
    }
  }

  /** The density a brush proposes for a prototype: 0 without a usable foliage entry,
      otherwise that entry's evaluation. */
  function CandidateDensity(entry: Option<FoliageSettings>, detailIndex: int, position: TerrainPosition,
                            alphas: AlphaMaps, host: Host): real
    requires entry.Some? ==> SettingsReady(entry.value, host, alphas)
  {
    if entry.None? then 0.0 else FoliageDensity(entry.value, detailIndex, position, alphas, host) as real
  }

  // --------------------------------------------------------------- Trees

  /** A tree instance: its normalised position and its width scale. */
  datatype TreeInstance = TreeInstance(position: Vector3, widthScale: real)

  /** `Mathf.CeilToInt(tree.widthScale * treePadding)`. */
  function TreeSize(tree: TreeInstance, treePadding: int): int
  {
    CeilToInt(tree.widthScale * treePadding as real)
  }

  /** Vector3Int.FloorToInt. */
  function FloorToInt3(v: Vector3): Vector3Int
  {
    Vector3Int(FloorToInt(v.x), FloorToInt(v.y), FloorToInt(v.z))
  }

  /** The tree settings of the component and the host's `math.distance` on float2. */
  datatype TreeSettings = TreeSettings(treePadding: int, blendRange: Vector2, distance: (Vector2, Vector2) -> real)

  /** What the division by the tree size and the smoothstep demand. */
  predicate TreeReady(tree: TreeInstance, t: TreeSettings)
  {
    TreeSize(tree, t.treePadding) > 0 && t.blendRange.y != t.blendRange.x
  }

  /** The influence that one tree adds to a tree-map cell at `world2D`: the saturated
      smoothstep of the distance inside the tree's circle, lerped towards 1. */
  function TreeStep(cell: real, tree: TreeInstance, terrain: Terrain, world2D: Vector2, t: TreeSettings): (r: real)
    requires TreeReady(tree, t)
    ensures 0.0 <= cell <= 1.0 ==> cell <= r <= 1.0
  {
    var treePos := FloorToInt3(GetWorldPosition(terrain, tree.position));
    var treeSize := TreeSize(tree, t.treePadding) as real;
    var dist := treeSize - t.distance(Vector2(treePos.z as real, treePos.x as real), world2D);
    var step := SmoothStep(t.blendRange.x, t.blendRange.y, Saturate(dist / treeSize));
    var s := Saturate(step);
    ScaleByUnit(1.0 - cell, s);
    MathLerp(cell, 1.0, s)
  }

  predicate TreesReady(trees: seq<TreeInstance>, t: TreeSettings)
  {
    forall k :: 0 <= k < |trees| ==> TreeReady(trees[k], t)
  }

  /** The cell after the first k trees are folded in, starting from `cell`. */
  function TreeFold(cell: real, trees: seq<TreeInstance>, k: nat, terrain: Terrain, world2D: Vector2, t: TreeSettings): real
    requires k <= |trees| && TreesReady(trees, t)
  {
    if k == 0 then cell else TreeStep(TreeFold(cell, trees, k - 1, terrain, world2D, t), trees[k - 1], terrain, world2D, t)
  }

  /** Folding trees in keeps a cell in [0,1] and never lowers it. */
  lemma {:induction false} TreeFoldMonotone(cell: real, trees: seq<TreeInstance>, j: nat, k: nat, terrain: Terrain,
                                            world2D: Vector2, t: TreeSettings)
    requires j <= k <= |trees| && TreesReady(trees, t) && 0.0 <= cell <= 1.0
    ensures cell <= TreeFold(cell, trees, j, terrain, world2D, t) <= TreeFold(cell, trees, k, terrain, world2D, t) <= 1.0
  {
    if k > j {
      TreeFoldMonotone(cell, trees, j, k - 1, terrain, world2D, t);
    } else if j > 0 {
      TreeFoldMonotone(cell, trees, j - 1, j - 1, terrain, world2D, t);
    }
  }

  lemma ScaleWhenUnit(k: real, s: real)
    ensures 0.0 <= s <= 1.0 ==> Min(0.0, k) <= k * s <= Max(0.0, k)
  {
    if 0.0 <= s <= 1.0 {
      ScaleByUnit(k, s);
    }
  }

  /** The tree pass on one cell: `FloorToInt(math.lerp(current, 0, tree))`. */
  function TreePassCell(current: int, tree: real): (r: int)
    ensures current >= 0 && 0.0 <= tree <= 1.0 ==> 0 <= r <= current
    ensures tree == 0.0 ==> r == current
    ensures tree == 1.0 ==> r == 0
  {
    var density := MathLerp(current as real, 0.0, tree);
    assert density == current as real * (1.0 - tree);
    ScaleWhenUnit(current as real, 1.0 - tree);
    FloorToInt(density)
  }
}
