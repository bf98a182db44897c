/** The authored data a density evaluation reads: texture rules, spawn rules,
    foliage entries and the biome asset that lists them
    (Core/Data/Rules, Core/Data/Foliage.cs, Core/Data/Asset).  The classes are
    reference types in the source and the clones share parts of them, so they are
    Dafny classes; a null reference is `null` for classes and `None` for the
    layer and asset fields. */
module FoliageData {
  import opened UnityEngine
  import opened Noise
  import FloatExtensions
  import opened Collections
  import opened TerrainLayerExtensions

  // ---------------------------------------------------------- TextureRule

  datatype RuleKind = Include | Exclude

  /** The TextureRule struct; a rule without a layer has `layer == None`. */
  datatype TextureRule = TextureRule(bypass: bool, layer: Option<TerrainLayer>, rule: RuleKind, threshold: real)

  /** The engine's detail prototype, compared by value. */
  datatype DetailPrototype = DetailPrototype(id: int)

  /** A foliage asset reduced to the prototype its `Prototype` property builds. */
  datatype FoliageAsset = FoliageAsset(prototype: DetailPrototype)

  // ----------------------------------------------------------- SpawnRules

  /** The noise a new SpawnRules starts with. */
  const DefaultNoise := PerlinNoise(Vector2(0.0, 0.0), 1.0, 1.0, 1, 0.25, 5.0, Vector2(0.0, 1.0), false, 1.0)

  /** The default noise can be evaluated and its shaping keeps the raw value
      (remap (0,1), alpha 1, no inversion). */
  lemma DefaultNoiseIsIdentityShaped(perlin: real)
    requires 0.0 <= perlin <= 1.0
    ensures Evaluable(DefaultNoise)
    ensures Shape(DefaultNoise, perlin) == perlin
  {
    assert FloatExtensions.RemapFromRange(perlin, DefaultNoise.remap, 0.0, 1.0) == perlin;
  }

  /** A `List<TextureRule>`: a reference that clones may share. */
  class RuleList {
    var items: seq<TextureRule>

    constructor()
      ensures items == []
    {
      items := [];
    }
  }

  function NotBypassed(t: TextureRule): bool { !t.bypass }

  class SpawnRules {
    var steepnessLimit: Vector2
    var heightLimit: Vector2
    var textureRules: RuleList
    var perlinNoise: PerlinNoise

    /** `new SpawnRules()` with its field initialisers. */
    constructor()
      ensures steepnessLimit == Vector2(0.0, 45.0) && heightLimit == Vector2(-10000.0, 10000.0)
      ensures fresh(textureRules) && textureRules.items == []
      ensures perlinNoise == DefaultNoise
    {
      steepnessLimit := Vector2(0.0, 45.0);
      heightLimit := Vector2(-10000.0, 10000.0);
      textureRules := new RuleList();
      perlinNoise := DefaultNoise;
    }

    /** The object MemberwiseClone produces: every field copied, references shared. */
    constructor Memberwise(steepness: Vector2, height: Vector2, rules: RuleList, noise: PerlinNoise)
      ensures steepnessLimit == steepness && heightLimit == height
      ensures textureRules == rules && perlinNoise == noise
    {
      steepnessLimit := steepness;
      heightLimit := height;
      textureRules := rules;
      perlinNoise := noise;
    }

    /** SpawnRules.GetTextureRules: the rules that are not bypassed, in order. */
    function GetTextureRules(): (r: seq<TextureRule>)
      reads this, textureRules
      ensures |r| <= |textureRules.items|
      ensures forall i :: 0 <= i < |r| ==> !r[i].bypass && r[i] in textureRules.items
      ensures forall i :: 0 <= i < |textureRules.items| && !textureRules.items[i].bypass ==>
                textureRules.items[i] in r
    {
      Filter(textureRules.items, NotBypassed)
    }

    /** SpawnRules.Clone: a shallow copy that shares the rule list. */
    method Clone() returns (c: SpawnRules)
      ensures fresh(c)
      ensures c.steepnessLimit == steepnessLimit && c.heightLimit == heightLimit
      ensures c.perlinNoise == perlinNoise && c.textureRules == textureRules
    {
      c := new SpawnRules.Memberwise(steepnessLimit, heightLimit, textureRules, perlinNoise);
    }
  }

  /** Appending rules keeps the earlier rules' filtered order and adds the new ones' after them. */
  lemma GetTextureRulesAppend(a: seq<TextureRule>, b: seq<TextureRule>)
    ensures Filter(a + b, NotBypassed) == Filter(a, NotBypassed) + Filter(b, NotBypassed)
  {
    FilterAppend(a, b, NotBypassed);
  }

  // -------------------------------------------------------------- Foliage

  /** The values one density evaluation reads from a foliage entry. */
  datatype FoliageSettings = FoliageSettings(
    density: real,
    rules: seq<TextureRule>,   // already filtered by GetTextureRules
    noise: PerlinNoise,
    steepnessLimit: Vector2,
    heightLimit: Vector2)

  class Foliage {
    var asset: Option<FoliageAsset>
    var bypass: bool     // read as `disable` by the terrain component
    var density: real
    var spawnRules: SpawnRules

    /** `new Foliage()`: no asset, density 1 and fresh spawn rules with an empty rule list. */
    constructor()
      ensures asset == None && !bypass && density == 1.0
      ensures fresh(spawnRules) && fresh(spawnRules.textureRules) && spawnRules.textureRules.items == []
      ensures spawnRules.steepnessLimit == Vector2(0.0, 45.0) && spawnRules.heightLimit == Vector2(-10000.0, 10000.0)
      ensures spawnRules.perlinNoise == DefaultNoise
    {
      asset := None;
      bypass := false;
      density := 1.0;
      var rules := new SpawnRules();
      rules.textureRules := new RuleList();
      spawnRules := rules;
    }

    constructor Memberwise(asset: Option<FoliageAsset>, bypass: bool, density: real, spawnRules: SpawnRules)
      ensures this.asset == asset && this.bypass == bypass && this.density == density
      ensures this.spawnRules == spawnRules
    {
      this.asset := asset;
      this.bypass := bypass;
      this.density := density;
      this.spawnRules := spawnRules;
    }

    /** The snapshot of this entry a density evaluation uses. */
    function Settings(): FoliageSettings
      reads this, spawnRules, spawnRules.textureRules
    {
      FoliageSettings(density, spawnRules.GetTextureRules(), spawnRules.perlinNoise,
                      spawnRules.steepnessLimit, spawnRules.heightLimit)
    }

    /** Foliage.Clone: a new entry with its own SpawnRules object, which still shares
        the rule list with the original. */
    method Clone() returns (f: Foliage)
      ensures fresh(f) && fresh(f.spawnRules)
      ensures f.asset == asset && f.bypass == bypass && f.density == density
      ensures f.spawnRules.textureRules == spawnRules.textureRules
      ensures f.spawnRules.steepnessLimit == spawnRules.steepnessLimit
      ensures f.spawnRules.heightLimit == spawnRules.heightLimit
      ensures f.spawnRules.perlinNoise == spawnRules.perlinNoise
      ensures f.Settings() == Settings()
    {
      f := new Foliage.Memberwise(asset, bypass, density, spawnRules);
      var rules := spawnRules.Clone();
      f.spawnRules := rules;
    }
  }

  // ----------------------------------------------------------- BiomeAsset

  /** An entry that GetFoliage returns for `prototype`. */
  predicate Matches(f: Foliage?, prototype: DetailPrototype)
    reads f
  {
    f != null && f.asset.Some? && f.asset.value.prototype == prototype
  }

  class BiomeAsset {
    var foliage: seq<Foliage?>

    /** Every entry that is present has an asset: reading `asset.Prototype` of an entry without
        one fails in the source. */
    predicate AssetsAssigned()
      reads this, foliage
    {
      forall i :: 0 <= i < |foliage| && foliage[i] != null ==> foliage[i].asset.Some?
    }

    /** The first index at or after k whose entry matches, or -1. */
    function MatchFrom(prototype: DetailPrototype, k: nat): (i: int)
      reads this, foliage
      requires k <= |foliage|
      ensures i == -1 || k <= i < |foliage|
      ensures i == -1 <==> forall j :: k <= j < |foliage| ==> !Matches(foliage[j], prototype)
      ensures i >= 0 ==> Matches(foliage[i], prototype) && forall j :: k <= j < i ==> !Matches(foliage[j], prototype)
      decreases |foliage| - k
    {
      if k == |foliage| then -1
      else if Matches(foliage[k], prototype) then k
      else MatchFrom(prototype, k + 1)
    }

    /** What GetFoliage returns. */
    function FoliageFor(prototype: DetailPrototype): Foliage?
      reads this, foliage
    {
      var i := MatchFrom(prototype, 0);
      if i < 0 then null else foliage[i]
    }

    /** The entries GetFoliage reads have an asset: every present entry before the first match,
        or every present entry when nothing matches.  The source fails on the first present
        entry without one that it reaches. */
    predicate AssetsAssignedUpTo(prototype: DetailPrototype)
      reads this, foliage
    {
      forall i :: 0 <= i < |foliage| && foliage[i] != null && foliage[i].asset.None? ==>
        0 <= MatchFrom(prototype, 0) < i
    }

    /** BiomeAsset.GetFoliage: the first entry, skipping null ones, whose asset's prototype equals
        the argument, or null. */
    method GetFoliage(prototype: DetailPrototype) returns (r: Foliage?)
      requires AssetsAssignedUpTo(prototype)
      ensures r == FoliageFor(prototype)
      ensures r == null <==> forall i :: 0 <= i < |foliage| ==> !Matches(foliage[i], prototype)
      ensures r != null ==> r in foliage && Matches(r, prototype)
    {
      for i := 0 to |foliage|
        invariant MatchFrom(prototype, 0) == MatchFrom(prototype, i)
      {
        var detail := foliage[i];
        if detail == null {
          continue;
        }
        if detail.asset.value.prototype == prototype {
          return detail;
        }
      }
      return null;
    }

    /** Every entry is present and has an asset: `Select(f => f.asset.Prototype)` fails otherwise. */
    predicate AllAssigned()
      reads this, foliage
    {
      forall i :: 0 <= i < |foliage| ==> foliage[i] != null && foliage[i].asset.Some?
    }

    /** BiomeAsset.GetPrototypes: one prototype per entry, in order; the null filter after the
        `Select` keeps everything because `Prototype` always builds a new value. */
    function GetPrototypes(): (r: seq<DetailPrototype>)
      reads this, foliage
      requires AllAssigned()
      ensures |r| == |foliage|
      ensures forall i :: 0 <= i < |r| ==> r[i] == foliage[i].asset.value.prototype
    {
      PrototypesOf(foliage)
    }
  }

  function PrototypesOf(entries: seq<Foliage?>): (r: seq<DetailPrototype>)
    reads entries
    requires forall i :: 0 <= i < |entries| ==> entries[i] != null && entries[i].asset.Some?
    ensures |r| == |entries|
    ensures forall i :: 0 <= i < |r| ==> r[i] == entries[i].asset.value.prototype
  {
    if |entries| == 0 then []
    else PrototypesOf(entries[..|entries| - 1]) + [entries[|entries| - 1].asset.value.prototype]
  }

  /** With every entry assigned, GetFoliage finds each entry's own prototype at or before it. */
  lemma GetFoliageFindsListedPrototype(biome: BiomeAsset, i: nat)
    requires biome.AllAssigned() && i < |biome.foliage|
    ensures var f := biome.FoliageFor(biome.GetPrototypes()[i]);
            f != null && Matches(f, biome.foliage[i].asset.value.prototype)
  {
    var p := biome.GetPrototypes()[i];
    assert Matches(biome.foliage[i], p);
  }
}
