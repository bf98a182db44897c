# FoliageTool density pipeline in Dafny

FoliageTool is a Unity editor tool that plants grass and other detail foliage on a
terrain. A `FoliageTerrain` component holds a main biome. Spline-shaped biome brushes
add more biomes on top of it. Every biome lists foliage entries, and each entry has
spawn rules: texture rules, steepness and height limits, and a Perlin noise. To refresh
a region of the terrain, the component does the following:

- it synchronises the terrain's detail prototypes with the biomes;
- it computes one integer density map per prototype over the region's detail cells;
- it blends the brushes' biomes into those maps in draw order;
- it fades the maps out under trees;
- it hands the maps back to the terrain.

A full refresh cuts the terrain into up to 16 x 16 chunks and refreshes each one.

This project models that pipeline and the helpers it rests on, and proves properties
about the model:

- the coordinate model of a terrain region and of a cell position;
- the polygon tests;
- the fractal noise;
- the spline brush mask and falloff;
- the authored data (spawn rules, foliage entries, biomes) and their clones;
- the list operations (filter, de-duplication, stable sort) and the brush queries;
- the per-cell density arithmetic;
- the tree map;
- the three refresh passes and the chunked full refresh.

Floats are modelled as mathematical reals. Code that fills arrays or changes fields in
place is modelled imperatively: as methods over `array2`/`array3` or as classes with
`modifies` clauses. Each such method is proved against a specification function, so its
`ensures` states the whole resulting map or state. Expression code is modelled as
functions, with lemmas beside them.

Several classes exist in more than one file: `Brush` (Core/Components/Brush.cs,
Core/Components/Brushes/Brush.cs and the `FloraBrush` of Core/Components/FloraBrush.cs),
`SplineBrush` (Core/Components/SplineBrush.cs and Core/Components/Brushes/SplineBrush.cs)
and `BiomeBrush` (Core/Components/Brushes/BiomeBrush.cs and
Core/Components/Brushes/Spline/BiomeBrush.cs). The copies agree on the members they
share: GetBrushes and Intersects; GetBounds, GetInnerBounds, GetPolygon and
CalculateFalloff; and GetBiomes, WillDrawDebugPolygon and WillDrawDebugBounds. They are not the same code, though. Some members exist
in only one copy:

- `GetBrushes<T>`, the `OfType` query, is only in Core/Components/Brush.cs.
- `GetMask` is only in Core/Components/Brushes/SplineBrush.cs.
- `ScheduleRefresh` and `Update` are only in Core/Components/Brushes/BiomeBrush.cs.

The model follows these files, and the table cites them. The members of the other copies
that differ are listed under "## Left out".

The engine is not modelled. Everything the code asks of the engine arrives as a parameter:

- `Mathf.PerlinNoise`;
- the spline's `EvaluatePosition` and `math.distance`;
- the terrain's steepness, height and coverage queries and its alpha maps;
- its tree instances;
- the scene's brushes.

## Model

| member | source | states |
|---|---|---|
| UnityEngine.Clamp | Utility/Extensions/Primitives/RectExtensions.cs:33-34 | Mathf.Clamp: the result lies in [min, max] when the range is ordered; a value already inside is unchanged; a value below min gives min; a value above max, with min <= value, gives max (so a reversed range returns min or max as the source's two tests do) |
| UnityEngine.ClampInt | Utility/Extensions/Primitives/RectExtensions.cs:64-65 | the int overload of Mathf.Clamp, with the same laws: in range when ordered, unchanged inside, min below min, max above max |
| UnityEngine.Clamp01 | Utility/Extensions/Primitives/FloatExtensions.cs:106-109 | Mathf.Clamp01: the result is in [0,1]; a value already in [0,1] is unchanged; a negative value gives 0 and a value above 1 gives 1 |
| UnityEngine.Lerp | Core/Components/FoliageTerrain.cs:492 | Mathf.Lerp clamps t, so the result lies between a and b, is a for t <= 0 and b for t >= 1 |
| UnityEngine.ScaleByUnit | Core/Components/FoliageTerrain.cs:492 | scaling by a factor in [0,1] keeps a value between 0 and itself, which bounds every lerp |
| UnityEngine.FloorToInt | Core/Components/FoliageTerrain.cs:426 | Mathf.FloorToInt: the largest integer not above the value |
| UnityEngine.CeilToInt | Core/Components/FoliageTerrain.cs:289 | Mathf.CeilToInt: the smallest integer not below the value |
| UnityEngine.RoundToInt | Utility/Extensions/Primitives/RectExtensions.cs:52-53 | rounding lands within one half of the value, and a tie goes to the even integer |
| UnityEngine.RoundToIntOfInt | Utility/Extensions/Primitives/RectExtensions.cs:52-53 | rounding an integer-valued real gives that integer |
| UnityEngine.MathClamp | Core/Components/FoliageTerrain.cs:592 | math.clamp (max(a, min(b, x))): the result lies in [a, b] when the range is ordered; a value already inside is unchanged; a value below a gives a; a value above b gives b when a <= b; a reversed range (b < a) always gives a |
| UnityEngine.MathClampInt | Utility/Extensions/Primitives/VectorExtensions.cs:29 | the int overload of math.clamp, with the same laws, including a for a reversed range |
| UnityEngine.Saturate | Utility/Math/Noise/PerlinNoise.cs:74 | math.saturate lands in [0,1], keeps a value already in [0,1], and agrees with Mathf.Clamp01 |
| UnityEngine.EncapsulateBoundsContains | Core/Components/FoliageTerrain.cs:268 | encapsulating one bounds into another keeps every point of both |
| UnityEngine.FromMinMax | Core/Data/Structs/TerrainRegion.cs:77-78 | bounds built from two corners have exactly those corners |
| FloatExtensions.OneMinusInvolution | Utility/Extensions/Primitives/FloatExtensions.cs:23-26 | one-minus about the same magnitude undoes itself; the default magnitude is 1 |
| FloatExtensions.Remap | Utility/Extensions/Primitives/FloatExtensions.cs:32-35 | the input range's ends map to the output range's ends (a zero-width input range is excluded) |
| FloatExtensions.RemapAffine | Utility/Extensions/Primitives/FloatExtensions.cs:32-35 | remap is affine: a difference of inputs scales by one factor, (outMax - outMin) / (inMax - inMin) |
| FloatExtensions.RemapToRange | Utility/Extensions/Primitives/FloatExtensions.cs:42-45 | the Vector2 output overload maps inMin to b.x and inMax to b.y |
| FloatExtensions.RemapRanges | Utility/Extensions/Primitives/FloatExtensions.cs:52-55 | the two-Vector2 overload maps a.x to b.x and a.y to b.y |
| FloatExtensions.RemapFromRange | Utility/Extensions/Primitives/FloatExtensions.cs:62-65 | the Vector2 input overload maps a.x to bMin and a.y to bMax |
| FloatExtensions.Normal | Utility/Extensions/Primitives/FloatExtensions.cs:70-73 | min normalises to 0 and max to 1; a value inside [min, max] normalises into [0,1] |
| FloatExtensions.NormalAbsClamp | Utility/Extensions/Primitives/FloatExtensions.cs:78-83 | the result is in [0,1]; for min < max it equals Normal inside [min, max], is 1 at or above max, equals the Normal of the value mirrored about min (2 min - f) for f in [min - (max - min), min], and is 1 at or below min - (max - min) |
| FloatExtensions.NormalReflect | Utility/Extensions/Primitives/FloatExtensions.cs:78-83 | the negative Normal of a value below min is the Normal of its mirror image about min, which is what `Mathf.Abs` in NormalAbsClamp measures |
| FloatExtensions.NormalizeClamp | Utility/Extensions/Primitives/FloatExtensions.cs:88-92 | the result is in [0,1] and equals Normal for a value inside [min, max]; for min < max a value at or below min gives 0 and a value at or above max gives 1 |
| FloatExtensions.ClampValue | Utility/Extensions/Primitives/FloatExtensions.cs:97-100 | the result lies in [min, max] when the range is ordered; a value already inside is unchanged; a value below min gives min and a value above max, with min <= value, gives max |
| FloatExtensions.SaturateValue | Utility/Extensions/Primitives/FloatExtensions.cs:106-109 | the result is in [0,1]; a value already in [0,1] is unchanged; a negative value gives 0 and a value above 1 gives 1 |
| FloatExtensions.SaturateIdempotent | Utility/Extensions/Primitives/FloatExtensions.cs:106-109 | saturating twice is saturating once |
| VectorExtensions.Clamp | Utility/Extensions/Primitives/VectorExtensions.cs:27-30 | each component lands in its own axis range; a vector already inside both ranges is unchanged; per component, a value below the axis minimum gives that minimum, a value above the (ordered) maximum gives that maximum, and a reversed axis range gives its minimum |
| VectorExtensions.ClampIdempotent | Utility/Extensions/Primitives/VectorExtensions.cs:27-30 | clamping twice into ordered ranges is clamping once |
| VectorExtensions.ClampAxesIndependent | Utility/Extensions/Primitives/VectorExtensions.cs:27-30 | the x result depends only on v.x, minX and maxX, and the y result only on v.y, minY and maxY |
| RectExtensions.Grow | Utility/Extensions/Primitives/RectExtensions.cs:31-38 | for a non-negative corner and growth the corner moves by units/2 toward 0 but not below 0; the size grows by units/2 on each axis |
| RectExtensions.ToWorldSpaceIsTranslatedScale | Utility/Extensions/Primitives/RectExtensions.cs:26-45 | ToWorldSpace is Scale with the position moved by the base position; Scale multiplies position and size componentwise |
| RectExtensions.ScaleToInt | Utility/Extensions/Primitives/RectExtensions.cs:50-60 | each rounded component is within one half of the exact scaled component |
| RectExtensions.ScaleToIntRounds | Utility/Extensions/Primitives/RectExtensions.cs:50-60 | the integer overload multiplies each of x, y, width and height by the scale and rounds it with Mathf.RoundToInt, as the Vector2 overload does with (scale, scale) |
| RectExtensions.ScaleToIntNormalizeRoundTrip | Utility/Extensions/Primitives/RectExtensions.cs:10-60 | normalising an integer rect by a positive max and scaling it back by the same max restores the rect |
| RectExtensions.GrowInt | Utility/Extensions/Primitives/RectExtensions.cs:62-69 | the integer overload moves a non-negative corner by units toward 0 but not below 0, and grows the size by units |
| RectExtensions.FlipXY | Utility/Extensions/Primitives/RectExtensions.cs:71-79 | width and height swap; for a rect of non-negative size the position swaps too |
| RectExtensions.FlipXYInvolution | Utility/Extensions/Primitives/RectExtensions.cs:71-79 | flipping a rect of non-negative size twice restores it |
| RectExtensions.FlipXYNegativeSize | Utility/Extensions/Primitives/RectExtensions.cs:71-79 | for every integer rect, flipping twice leaves width and height alone; a negative width moves x by 2 width, a negative height moves y by 2 height (both, when both are negative), because xMin and yMin are then x + width and y + height (FlipXYInvolution covers non-negative sizes) |
| RectExtensions.Saturate | Utility/Extensions/Primitives/RectExtensions.cs:81-91 | x, y, width and height each land in [0,1]; a component already in [0,1] is unchanged; a negative component becomes 0 and one above 1 becomes 1 |
| RectExtensions.SaturateIdempotent | Utility/Extensions/Primitives/RectExtensions.cs:81-91 | saturating a rect twice is saturating it once |
| LayerExtensions.ShiftCountOfLayer | Utility/Extensions/Primitives/LayerExtensions.cs:11-14 | a layer in [0,32) is its own shift count |
| LayerExtensions.SingleBitTest | Utility/Extensions/Primitives/LayerExtensions.cs:11-14 | the test mask == mask \| bit holds exactly when the mask has that bit set |
| LayerExtensions.ContainsIsBitTest | Utility/Extensions/Primitives/LayerExtensions.cs:11-14 | for a layer in [0,32), Contains holds exactly when the layer's bit is set |
| LayerExtensions.EmptyMaskContainsNothing | Utility/Extensions/Primitives/LayerExtensions.cs:11-14 | the empty mask contains no layer |
| LayerExtensions.FullMaskContainsEverything | Utility/Extensions/Primitives/LayerExtensions.cs:11-14 | the full mask contains every layer, any int included |
| LayerExtensions.BitsDisjoint | Utility/Extensions/Primitives/LayerExtensions.cs:11-14 | distinct layers in [0,32) have disjoint bits |
| LayerExtensions.SetBit | Utility/Extensions/Primitives/LayerExtensions.cs:11-14 | setting one layer's bit makes the mask contain that layer and leaves every other layer's answer unchanged |
| LayerExtensions.ContainsWraps | Utility/Extensions/Primitives/LayerExtensions.cs:11-14 | layers 32 apart get the same answer, because C# masks the shift count to five bits |
| TerrainLayerExtensions.IndexOfLayer | Utility/Extensions/Terrain/TerrainLayerExtensions.cs:7-15 | the result is -1 exactly when the layer is absent; otherwise it is the first index holding the layer |
| TerrainLayerExtensions.IndexOf | Utility/Extensions/Terrain/TerrainLayerExtensions.cs:7-15 | the early-return loop returns IndexOfLayer: -1 if no entry equals the layer, else an index holding it with no earlier match |
| TerrainExtensions.WorldPositionOfOrigin | Utility/Extensions/Terrain/TerrainExtensions.cs:12-17 | the normalised origin maps to the terrain's position |
| TerrainExtensions.WorldPositionDifference | Utility/Extensions/Terrain/TerrainExtensions.cs:12-17 | the difference of two world positions is the difference of the inputs scaled by the terrain size |
| TerrainExtensions.GetWorldPosition2D | Utility/Extensions/Terrain/TerrainExtensions.cs:24-29 | x and z agree with the 3D overload at (p.x, 0, p.y); y is the terrain's y plus the interpolated height sampled at (p.y, p.x) |
| TerrainRegions.NewTerrainRegion | Core/Data/Structs/TerrainRegion.cs:45-61 | the normalised rect is exactly RectExtensions.Saturate of the input (kept as given when already in [0,1]); the local rect scales it by the terrain's (x, z) size; the world rect also offsets it by the terrain's (x, z) position; the alpha, detail and height rects are it scaled to each resolution and rounded |
| TerrainRegions.FlipXY | Core/Data/Structs/TerrainRegion.cs:63-66 | only the detail rect changes, and its width and height swap |
| TerrainRegions.FlipXYInvolution | Core/Data/Structs/TerrainRegion.cs:45-66 | every constructed region has a detail rect of non-negative size, so flipping it twice gives the region back |
| TerrainRegions.TranslatedTerrainBounds | Core/Data/Structs/TerrainRegion.cs:75-78 | the min setter and then the max setter move both corners of the terrain bounds by the terrain position |
| TerrainRegions.ClippedBounds | Core/Data/Structs/TerrainRegion.cs:80-85 | after padding, the bounds' min is the componentwise max of the two mins and its max is the componentwise min of the two maxes |
| TerrainRegions.ExpandGrowsEachAxis | Core/Data/Structs/TerrainRegion.cs:80-81 | Expand(padding) moves every face of the bounds outward by padding / 2 |
| TerrainRegions.FromBounds | Core/Data/Structs/TerrainRegion.cs:71-102 | the result is the region of the normalised intersection; an intersection empty in x or z gives the region of Rect(), whose rects are all empty, with the world rect at the terrain's corner |
| TerrainRegions.EmptyRegion | Core/Data/Structs/TerrainRegion.cs:87-101 | the region of the default Rect has empty normalised, local, alpha, detail and height rects, and a world rect of size 0 at the terrain's (x, z) position |
| TerrainRegions.NormalizedRectInUnitSquare | Core/Data/Structs/TerrainRegion.cs:89-99 | a non-empty intersection normalises to a rect of positive size inside the unit square |
| TerrainPositions.PositionAt | Core/Data/Structs/TerrainPosition.cs:34-59 | the detail position is (x, y); the region position is (x, y) over the detail resolution; the alpha and height positions are the floor of the region position scaled by the alphamap and heightmap resolutions; the 3D world position is (w.x, 0, w.y); non-negative inputs give non-negative alpha and height positions; cell (0, 0) maps to the origin of each space |
| TerrainPositions.TerrainPositionIsShiftedRegionPosition | Core/Data/Structs/TerrainPosition.cs:44-47 | the terrain position is the region position shifted by the detail rect's corner over the detail resolution |
| TerrainPositions.WorldPositionOrder | Core/Data/Structs/TerrainPosition.cs:54-56 | the 2D world position is in (z, x) order: the world rect's (y, x) corner plus the region position scaled by the terrain's (x, z) size |
| Polygons.XZBoxTight | Utility/Math/Polygon.cs:39-48 | the X/Z box folded over the first n vertices encloses each of them, and each of its four sides is attained by one of them |
| Polygons.ParityIsOddCrossingCount | Utility/Math/Polygon.cs:53-63 | the toggled flag is true exactly when the ray crosses an odd number of edges |
| Polygons.Contains | Utility/Math/Polygon.cs:37-64 | the two loops answer InsidePolygon: false outside the vertices' X/Z box, else the crossing parity over all edges, with edge i paired with i - 1 and edge 0 with the last vertex |
| Polygons.BeyondAllVerticesIsOutside | Utility/Math/Polygon.cs:37-64 | a point that lies to one side of every vertex, in x or in z, is never inside |
| Polygons.XZBoxIgnoresY | Utility/Math/Polygon.cs:39-48 | the box depends only on the vertices' x and z |
| Polygons.ParityIgnoresY | Utility/Math/Polygon.cs:53-61 | the crossing parity depends only on the x and z of the point and of the vertices |
| Polygons.InsidePolygonIgnoresY | Utility/Math/Polygon.cs:37-64 | containment depends only on the x and z of the point and of the vertices, never on their height |
| Polygons.EncapsulateAxes | Utility/Math/Polygon.cs:72-73 | encapsulating a point takes the min and the max with that point on each axis |
| Polygons.EncapsulateFirstAxis | Utility/Math/Polygon.cs:71-73 | after n points, on each axis, the bounds span [lo, hi] with every point inside and both ends attained by a point |
| Polygons.BoundsOfTight | Utility/Math/Polygon.cs:66-76 | the bounds of a non-empty polygon enclose every vertex on every axis, and each face is attained by a vertex |
| Polygons.GetBounds | Utility/Math/Polygon.cs:66-76 | no vertices give new Bounds(); otherwise the loop yields the tight axis-aligned box of the vertices |
| Polygons.ClosestIndex | Utility/Math/Polygon.cs:80-90 | the running minimum settles on the first of the nearest vertices: none is nearer, and every earlier one is strictly farther |
| Polygons.ClosestPoint | Utility/Math/Polygon.cs:78-92 | with no vertices the answer is pos itself; otherwise it is one of the vertices |
| Polygons.GetClosestPoint | Utility/Math/Polygon.cs:78-92 | the loop returns ClosestPoint, a vertex at least as near to pos as every other vertex |
| Noise.EvaluateNoise | Utility/Math/Noise/PerlinNoise.cs:80-85 | a sample of the engine noise at the scaled and offset position is saturated into [0,1] |
| Noise.Shape | Utility/Math/Noise/PerlinNoise.cs:73-77 | the shaping that follows the octave loop always yields a value in [0,1], and alpha 0 fades any input to 1 |
| Noise.Evaluate | Utility/Math/Noise/PerlinNoise.cs:57-78 | the octave loop and the shaping return NoiseValue: the shaped running value after the non-negative part of octaves; the result is in [0,1], and exactly 1 when alpha is 0 |
| Noise.EvaluateAt | Utility/Math/Noise/PerlinNoise.cs:87-90 | the Vector2 overload evaluates at (v.x, v.y) and lands in [0,1] |
| Noise.MathLerpUnit | Utility/Math/Noise/PerlinNoise.cs:68 | the unclamped lerp of two values in [0,1] by an amplitude in [0,1] stays in [0,1] |
| Noise.OctaveStateInUnit | Utility/Math/Noise/PerlinNoise.cs:62-71 | for persistence in [0,1], the running value and the amplitude stay in [0,1] after any number of octaves |
| Noise.AmplitudeInUnit | Utility/Math/Noise/PerlinNoise.cs:69 | for persistence in [0,1], the amplitude stays in [0,1] |
| Noise.PerlinInUnit | Utility/Math/Noise/PerlinNoise.cs:67-68 | for persistence in [0,1], the running value stays in [0,1] |
| Noise.FirstOctave | Utility/Math/Noise/PerlinNoise.cs:59-68 | with no octaves the running value is 1; the first octave, at amplitude 1, replaces it by the sample at the base frequency |
| Noise.OctaveStateGeometric | Utility/Math/Noise/PerlinNoise.cs:59-71 | after k octaves the frequency is (1/scaleX, 1/scaleY) times lacunarity^k and the amplitude is persistence^k |
| Noise.AmplitudeGeometric | Utility/Math/Noise/PerlinNoise.cs:62-69 | the amplitude after k octaves is persistence^k |
| Noise.FrequencyGeometric | Utility/Math/Noise/PerlinNoise.cs:59-70 | the frequency after k octaves is the base frequency times lacunarity^k |
| Noise.InvertFlips | Utility/Math/Noise/PerlinNoise.cs:73-77 | invert alone replaces the saturated remapped value v by 1 - v before the alpha fade |
| Noise.ComparerIsEquality | Utility/Math/Noise/PerlinNoise.cs:14-17 | the equality comparer holds exactly when all nine fields are equal |
| FoliageData.DefaultNoiseIsIdentityShaped | Core/Data/Rules/SpawnRules.cs:34-40 | the noise a new rule set starts with can be evaluated, and its shaping (remap (0,1), alpha 1, no inversion) returns the raw value unchanged |
| FoliageData.RuleList.constructor | Core/Data/Rules/SpawnRules.cs:27 | a new texture-rule list is empty |
| FoliageData.SpawnRules.constructor | Core/Data/Rules/SpawnRules.cs:12-40 | a new rule set has steepness limit (0,45), height limit (-10000,10000), a fresh empty texture-rule list and the default noise |
| FoliageData.SpawnRules.Memberwise | Core/Data/Rules/SpawnRules.cs:44 | the member-wise copy carries every field over and shares the texture-rule list |
| FoliageData.SpawnRules.GetTextureRules | Core/Data/Rules/SpawnRules.cs:29-32 | the result holds only rules that are not bypassed and that come from the list, and every rule of the list that is not bypassed is in it |
| FoliageData.SpawnRules.Clone | Core/Data/Rules/SpawnRules.cs:42-49 | the clone is a new object with the same limits and noise that shares the original's texture-rule list |
| FoliageData.GetTextureRulesAppend | Core/Data/Rules/SpawnRules.cs:29-32 | filtering a concatenation of rule lists is the concatenation of the filtered lists, so order is kept |
| FoliageData.Foliage.constructor | Core/Data/Foliage.cs:10-24 | a new entry has no asset, is not bypassed, has density 1 and fresh spawn rules whose own fresh rule list is empty |
| FoliageData.Foliage.Memberwise | Core/Data/Foliage.cs:28 | the member-wise copy carries every field over and shares the spawn rules |
| FoliageData.Foliage.Clone | Core/Data/Foliage.cs:26-37 | the clone is a new entry with its own new spawn rules, which still share the rule list; every value a density evaluation reads is the same as the original's |
| FoliageData.BiomeAsset.MatchFrom | Core/Data/Asset/BiomeAsset.cs:24-34 | the first index at or after k whose entry is present and has the prototype, or -1 exactly when no such index exists |
| FoliageData.BiomeAsset.GetFoliage | Core/Data/Asset/BiomeAsset.cs:22-35 | returns null exactly when no present entry has the prototype; otherwise an entry of the list with that prototype, the first one; it requires only that the entries it reads before the first match have assets |
| FoliageData.BiomeAsset.GetPrototypes | Core/Data/Asset/BiomeAsset.cs:40-44 | one prototype per entry, the i-th being the i-th entry's asset prototype |
| FoliageData.PrototypesOf | Core/Data/Asset/BiomeAsset.cs:42-43 | the prototypes of a list of entries, same length and position by position |
| FoliageData.GetFoliageFindsListedPrototype | Core/Data/Asset/BiomeAsset.cs:22-44 | looking up any prototype the biome lists finds an entry that has that prototype |
| Collections.Filter | Core/Data/Rules/SpawnRules.cs:31 | `Where`: the result is no longer than the input, holds only input elements that satisfy the predicate, and holds every input element that does |
| Collections.FilterAppend | Core/Components/Brushes/Brush.cs:27 | `Where` distributes over concatenation, so the kept elements stay in their input order |
| Collections.FilterNone | Core/Data/Rules/SpawnRules.cs:31 | a predicate that rejects every element leaves nothing |
| Collections.FilterAll | Core/Data/Asset/BiomeAsset.cs:43 | a predicate that accepts every element returns the input unchanged |
| Collections.Dedup | Core/Components/FoliageTerrain.cs:144-156 | the "add unless Contains" loop from an empty list: no duplicates, nothing that was not in the input, and every input element present |
| Collections.DedupSnoc | Core/Components/FoliageTerrain.cs:151-155 | one more element at the end is added exactly when it is not yet in the list |
| Collections.AddAbsentSnoc | Core/Components/Brushes/BiomeBrush.cs:86-87 | the loop over a sequence extended by one element ends with that element's own Contains-then-Add step |
| Collections.AddAbsentConcat | Core/Components/FoliageTerrain.cs:145-156 | running the loop over one sequence and then another is running it over their concatenation, which is how the nested loop over biomes and their prototypes composes |
| Collections.AddAbsentDedup | Core/Components/FoliageTerrain.cs:144-156 | the loop started from an empty list computes the de-duplication |
| Collections.FirstIndex | Core/Components/FoliageTerrain.cs:151 | the position of the first occurrence: it holds the element and no earlier position does |
| Collections.FirstIndexPrefix | Core/Components/FoliageTerrain.cs:151 | an element of a prefix is first seen at the same position in the whole sequence |
| Collections.FirstIndexSnoc | Core/Components/FoliageTerrain.cs:151 | appending an element does not move the first occurrence of an element already present |
| Collections.FirstIndexOfNew | Core/Components/FoliageTerrain.cs:151-155 | an element new to the list is first seen at the position where it is appended |
| Collections.DedupOrderSnoc | Core/Components/FoliageTerrain.cs:144-156 | one step of the loop keeps the list in order of first occurrence |
| Collections.DedupFirstOccurrenceOrder | Core/Components/FoliageTerrain.cs:144-156 | the de-duplicated list is ordered by each element's first occurrence in the input |
| Collections.Insert | Core/Components/Brushes/Brush.cs:31 | one insertion step of the sort: one element longer, and the same multiset plus the inserted element |
| Collections.InsertLowerBound | Core/Components/Brushes/Brush.cs:31 | a lower bound of all keys and of the new key bounds every key after the insertion |
| Collections.InsertSorted | Core/Components/Brushes/Brush.cs:31 | inserting into a sequence sorted by key keeps it sorted |
| Collections.SortBy | Core/Components/Brushes/Brush.cs:31 | `OrderBy` by draw order: same length, sorted by key, and a permutation of the input |
| Collections.InsertStableFront | Core/Components/Brushes/Brush.cs:31 | inserting in front of larger keys keeps the order among elements of any one key |
| Collections.InsertStable | Core/Components/Brushes/Brush.cs:31 | an insertion puts the new element after every earlier element of its key |
| Collections.SortStable | Core/Components/Brushes/Brush.cs:31 | `OrderBy` is stable: the elements sharing a key keep their input order |
| Brushes.TerrainWorldBoundsIsTranslated | Core/Components/Brush.cs:35-37 | the box a brush is tested against is the terrain data box moved by the terrain position, the same box the region builder clips against |
| Brushes.IntersectsIsAxisOverlap | Core/Components/Brush.cs:33-40 | a brush intersects the terrain exactly when its bounds overlap the moved terrain box on every axis, borders included |
| Brushes.GetBrushes | Core/Components/Brush.cs:42-50 | every brush returned intersects the terrain; the result is a permutation of the intersecting brushes, exactly them in scene order when unordered, and sorted by draw order otherwise |
| Brushes.GetBrushesComplete | Core/Components/Brush.cs:44-45 | every scene brush that intersects the terrain is returned, ordered or not |
| Brushes.GetBrushesStable | Core/Components/Brush.cs:49 | brushes of equal draw order keep their scene order |
| Brushes.GetBiomeBrushes | Core/Components/Brush.cs:52-56 | the `OfType<BiomeBrush>` query is exactly the biome brushes among GetBrushes' result (sorted by draw order unless unordered); it holds only biome brushes that intersect the terrain, and every intersecting biome brush of the scene is in it |
| Brushes.BiomeBrushesComplete | Core/Components/Brush.cs:52-56 | every biome brush of the scene that intersects the terrain survives the intersect filter, the optional sort and the `OfType<BiomeBrush>` filter |
| Brushes.FilterKeepsSorted | Core/Components/Brush.cs:55 | narrowing a draw-ordered sequence by type keeps it ordered |
| Brushes.GetBiomeBrushesUnordered | Core/Components/Brush.cs:52-56 | unordered, the query is exactly the intersecting biome brushes in scene order, whichever of the two filters runs first |
| Brushes.FilterCommutes | Core/Components/Brush.cs:45 | two `Where` filters applied in either order give the same sequence |
| SplineBrushes.PolygonOf | Core/Components/Brushes/SplineBrush.cs:54-67 | the polygon has `resolution` points: the spline sampled at i / resolution, or all zero points when there is no spline |
| SplineBrushes.GetPolygon | Core/Components/Brushes/SplineBrush.cs:54-67 | the array the loop fills is the polygon PolygonOf describes |
| SplineBrushes.GetBounds | Core/Components/Brushes/SplineBrush.cs:25-37 | the polygon's bounds kept on x and z and extended by half of FMaxHeight (5000) below and above on y |
| SplineBrushes.ExtendHeight | Core/Components/Brushes/SplineBrush.cs:32-34 | setting the max and then the min moves only the y corners, by the given height outwards |
| SplineBrushes.ComputeInnerBounds | Core/Components/Brushes/SplineBrush.cs:44-49 | the inner bounds keep the centre and the y size and scale the x and z sizes by 1 - falloff |
| SplineBrushes.InnerBoundsInsideOuter | Core/Components/Brushes/SplineBrush.cs:39-49 | for a falloff in [0,1] the inner bounds lie inside the outer ones with the same y extent, and the size lost on x and z is falloff times the outer size |
| SplineBrushes.CalculateFalloff | Core/Components/Brushes/SplineBrush.cs:69-88 | below a falloff of 0.001 the result is FalloffDefault (1); otherwise, for falloff up to 1, it lies in [0, 1 - falloff] |
| SplineBrushes.FalloffZeroAtNearestVertex | Core/Components/Brushes/SplineBrush.cs:76-87 | at a point level with its nearest vertex on x and z the falloff is 0 |
| SplineBrushes.CellWorldPositionIsTerrainPosition | Core/Components/Brushes/SplineBrush.cs:120-122 | the point tested for a cell is the world position of its TerrainPosition2D with the two axes swapped |
| SplineBrushes.MaskCellRange | Core/Components/Brushes/SplineBrush.cs:90-136 | every mask cell lies in [0, alpha]; it is 0 when the brush is inactive or the cell is outside the polygon, and alpha inside the polygon without falloff |
| SplineBrushes.ShapeCellRange | Core/Components/Brushes/SplineBrush.cs:124-131 | the value of one evaluated cell lies in [0, alpha], is 0 outside the polygon and alpha inside it without falloff |
| SplineBrushes.GetMask | Core/Components/Brushes/SplineBrush.cs:90-136 | a fresh width x height grid of the detail region whose every cell is MaskCell |
| SplineBrushes.IsActive | Core/Components/Brushes/SplineBrush.cs:99-108 | the guard holds exactly when the brush bounds intersect the terrain, the brush region overlaps the refreshed region and the brush is enabled |
| SplineBrushes.FillMask | Core/Components/Brushes/SplineBrush.cs:116-133 | after the two loops every cell holds its evaluated value |
| SplineBrushes.FillRow | Core/Components/Brushes/SplineBrush.cs:118-132 | one row is filled with its evaluated values and every other row is unchanged |
| SplineBrushes.CellMask | Core/Components/Brushes/SplineBrush.cs:120-131 | the loop body's value for one cell is its evaluated value |
| BiomeBrushes.BiomeBrush.constructor | Core/Components/Brushes/BiomeBrush.cs:16-20 | a new brush carries its spline brush and biome, draws no debug bounds or polygon and has nothing scheduled |
| BiomeBrushes.BiomeBrush.ScheduleRefresh | Core/Components/Brushes/BiomeBrush.cs:48-67 | nothing changes when a refresh is already scheduled or the editor is updating or compiling; otherwise an enabled brush only sets the flag and a disabled one refreshes once at once |
| BiomeBrushes.BiomeBrush.Update | Core/Components/Brushes/BiomeBrush.cs:69-78 | a scheduled refresh happens exactly once and the flag ends cleared; with nothing scheduled nothing happens |
| BiomeBrushes.BiomeBrush.ScheduleManyThenUpdate | Core/Components/Brushes/BiomeBrush.cs:48-78 | any positive number of schedule requests on an enabled brush in an idle editor, followed by one Update, refresh exactly once |
| BiomeBrushes.BiomeBrush.WillDrawDebugPolygon | Core/Components/Brushes/Spline/BiomeBrush.cs:55-58 | returns the drawPolygon flag, which the constructor sets false and ScheduleRefresh and Update never change |
| BiomeBrushes.BiomeBrush.WillDrawDebugBounds | Core/Components/Brushes/Spline/BiomeBrush.cs:60-63 | returns the drawBounds flag, which the constructor sets false and ScheduleRefresh and Update never change |
| BiomeBrushes.BiomesOf | Core/Components/Brushes/BiomeBrush.cs:84-87 | the biome of each brush, position by position |
| BiomeBrushes.GetBiomes | Core/Components/Brushes/BiomeBrush.cs:80-91 | each brush's biome, null included, appears exactly once, nothing else appears, and the biomes come in the order of their first brush |
| BiomeBrushes.DedupOfBiomes | Core/Components/Brushes/BiomeBrush.cs:82-90 | the de-duplicated biome list has no duplicates, holds every brush's biome and only those, in order of first occurrence |
| ChunkedRefresh.CsDiv | Core/Components/FoliageTerrain.cs:55 | C#'s `/` on ints: equal to Dafny's division for a non-negative dividend and a positive divisor |
| ChunkedRefresh.CsDivTruncates | Core/Components/FoliageTerrain.cs:55 | the quotient rounds toward zero: its magnitude times the divisor's does not pass the dividend's and the next multiple does, and its sign is the sign of the exact quotient |
| ChunkedRefresh.Divisions | Core/Components/FoliageTerrain.cs:55-56 | the number of divisions per axis is the detail resolution over the chunk resolution clamped to [1,16]: the quotient itself when it is in range, 1 below it and 16 above it |
| ChunkedRefresh.ChunkRegions | Core/Components/FoliageTerrain.cs:52-82 | the refresh visits d x d regions, and the k-th one is the region of normalised rectangle (x/d, y/d, 1/d, 1/d) for x = k / d and y = k % d, the x-major order of the two loops |
| ChunkedRefresh.AppendRow | Core/Components/FoliageTerrain.cs:63-77 | the inner loop appends chunks (x,0) to (x,d-1) after the earlier rows, keeping the x-major indexing |
| ChunkedRefresh.RowMajor | Core/Components/FoliageTerrain.cs:60-77 | chunk (x, y) is visited at position x * d + y |
| ChunkedRefresh.ScaleInside | Core/Components/FoliageTerrain.cs:70 | a coordinate lies in the k-th interval of width 1/d exactly when it times d lies in [k, k+1) |
| ChunkedRefresh.ChunkContains | Core/Components/FoliageTerrain.cs:70 | chunk (x, y) holds exactly the points whose coordinates times d floor to x and y |
| ChunkedRefresh.ChunksTile | Core/Components/FoliageTerrain.cs:60-77 | every point of the unit square lies in one chunk of the grid and in no other |
| ChunkedRefresh.FloorInGrid | Core/Components/FoliageTerrain.cs:60-70 | a coordinate in [0,1) times d floors to a column index in [0, d) |
| ChunkedRefresh.ChunkRectInUnit | Core/Components/FoliageTerrain.cs:70-71 | every chunk rectangle of the grid lies in the unit square, so the region keeps it as given |
| ChunkedRefresh.EarlierRow | Core/Components/FoliageTerrain.cs:60-63 | every cell of an earlier row is visited before row x |
| ChunkedRefresh.IndexInGrid | Core/Components/FoliageTerrain.cs:60-63 | every visit position below d * d names a cell of the grid |
| ChunkedRefresh.ChunkRegionsTile | Core/Components/FoliageTerrain.cs:52-82 | the regions of a full refresh tile the terrain: every point of the unit square lies in the rectangle of exactly one of them |
| Density.ClampedPos | Core/Components/FoliageTerrain.cs:559-564 | the alpha sample position always lies inside the maps, and a position already inside them is kept as is |
| Density.TextureRulesValue | Core/Components/FoliageTerrain.cs:553-593 | with no rules the density is returned unchanged; otherwise, for a non-negative density, the result lies in [0, density] |
| Density.EvaluateTextureRules | Core/Components/FoliageTerrain.cs:553-593 | the rule loop accumulates the signed contributions (plus alpha times density for Include, minus for Exclude, nothing for a missing layer, an unknown layer or an alpha below the threshold) and the result is that sum clamped into [0, density] |
| Density.RuleSumSkipped | Core/Components/FoliageTerrain.cs:567-579 | rules that are all skipped add nothing to the accumulator |
| Density.AllSkippedIsZero | Core/Components/FoliageTerrain.cs:556-592 | a non-empty rule list whose every rule is skipped at the sampled position yields 0, not the input density |
| Density.RuleSumExcludeOnly | Core/Components/FoliageTerrain.cs:580-588 | over non-negative alphas, Exclude rules alone never make the accumulator positive |
| Density.ExcludeOnlyIsZero | Core/Components/FoliageTerrain.cs:553-593 | a non-empty list of Exclude rules over non-negative alphas yields 0 |
| Density.EvaluateFoliage | Core/Components/FoliageTerrain.cs:518-551 | the result is the floor of the initial density (entry density times detail resolution per patch, times coverage in coverage mode) after the texture rules, the noise fade, and the steepness and height limits |
| Density.OutsideLimitsIsZero | Core/Components/FoliageTerrain.cs:541-548 | a cell outside the steepness limit or the height limit gets density 0 |
| Density.FoliageDensityRange | Core/Components/FoliageTerrain.cs:518-551 | for a non-negative initial density the result lies between 0 and the floor of the initial density: rules, noise and limits only take density away |
| Density.LimitsWithin | Core/Components/FoliageTerrain.cs:541-550 | a density in [0, m] stays in [0, floor m] through the limits and the floor |
| Density.NoiseFadeWithin | Core/Components/FoliageTerrain.cs:538-539 | fading a density in [0, m] by a noise value in [0,1] keeps it in [0, m] |
| Density.FloorMonotone | Core/Components/FoliageTerrain.cs:550 | the floor keeps the order of its arguments |
| Density.UnruledDensity | Core/Components/FoliageTerrain.cs:518-551 | with no texture rules, a noise of alpha 0 and both limits met, the result is exactly the floor of the initial density |
| Density.BlendDensity | Core/Components/FoliageTerrain.cs:487-503 | Blend moves the cell towards the brush's density and reaches its floor at a full mask; Add never lowers the cell for a non-negative product; Subtract keeps a non-negative cell in [0, current] and unchanged for a non-positive product |
| Density.ApplyBrushesAppend | Core/Components/FoliageTerrain.cs:464-505 | the brushes are applied in array order: a list of brushes acts as its first part followed by the rest |
| Density.MaskedOutBrushesKeepCell | Core/Components/FoliageTerrain.cs:469-471 | brushes whose masks are at most 0 at a cell leave it unchanged |
| Density.SubtractOnlyWithin | Core/Components/FoliageTerrain.cs:497-500 | Subtract brushes alone keep a non-negative cell in [0, current] |
| Density.AddOnlyGrows | Core/Components/FoliageTerrain.cs:494-496 | Add brushes with non-negative densities and masks never lower a cell |
| Density.ApplyBrushesNonNegative | Core/Components/FoliageTerrain.cs:464-505 | brushes with non-negative densities and masks never make a non-negative cell negative |
| Density.TreeStep | Core/Components/FoliageTerrain.cs:284-297 | one tree moves a tree-map cell in [0,1] towards 1 without passing it or lowering the cell |
| Density.TreeFoldMonotone | Core/Components/FoliageTerrain.cs:284-297 | folding in more trees keeps the cell in [0,1] and never lowers it |
| Density.TreePassCell | Core/Components/FoliageTerrain.cs:422-427 | the tree pass keeps a non-negative cell in [0, current] for an influence in [0,1], leaves it unchanged for influence 0 and clears it for influence 1 |
| TreeMaps.KeepInRegion | Core/Components/FoliageTerrain.cs:241-252 | the trees kept are exactly those whose (x, z) position lies in the normalised region, in terrain order |
| TreeMaps.TreeBoxes | Core/Components/FoliageTerrain.cs:258-263 | one box per tree, in order |
| TreeMaps.BoundsOfTrees | Core/Components/FoliageTerrain.cs:257-269 | the bounds loop computes the fold that starts from an empty box, replaces a box of zero size by the next tree's box and encapsulates each tree's box |
| TreeMaps.BoxSize | Core/Components/FoliageTerrain.cs:262-263 | each tree's box is 2 * treePadding wide |
| TreeMaps.SizeAtLeastBox | Core/Components/FoliageTerrain.cs:268 | encapsulating a box gives bounds at least as wide as that box |
| TreeMaps.BoxesBoundsWide | Core/Components/FoliageTerrain.cs:265-268 | once a box of positive width is folded in the bounds stay at least that wide, so the zero-size test never discards them again |
| TreeMaps.BoxesBoundsHold | Core/Components/FoliageTerrain.cs:257-269 | with boxes of positive width the bounds hold every point of every box folded in so far |
| TreeMaps.BoxesBoundsHoldOn | Core/Components/FoliageTerrain.cs:257-269 | on each axis, with boxes of positive width, the folded bounds span the coordinate of every point of every box folded in so far |
| TreeMaps.TreesBoundsHold | Core/Components/FoliageTerrain.cs:257-269 | with a positive padding the trees' bounds hold every point of every tree's box |
| TreeMaps.TreeMapCellRange | Core/Components/FoliageTerrain.cs:232-302 | every tree-map cell lies in [0,1] |
| TreeMaps.TreeMapCellEmpty | Core/Components/FoliageTerrain.cs:237-255 | the tree map is 0 everywhere when trees are not evaluated or no tree stands in the region |
| TreeMaps.SkippedCellOutsideEveryBox | Core/Components/FoliageTerrain.cs:279-282 | a cell the bounds test skips lies outside the box of every tree in the region |
| TreeMaps.FoldTrees | Core/Components/FoliageTerrain.cs:284-297 | the loop over the trees leaves every tree's step folded into cell (x, y) in order and every other cell unchanged |
| TreeMaps.FillTreeRow | Core/Components/FoliageTerrain.cs:274-298 | in row y every cell inside the bounds has the trees folded in and every cell outside them is unchanged; other rows are unchanged |
| TreeMaps.FillTreeMap | Core/Components/FoliageTerrain.cs:272-299 | every cell inside the bounds has the trees folded in and every cell outside them keeps its value |
| RefreshPasses.BaseCellPass | Core/Components/FoliageTerrain.cs:352-367 | for cell (x, y) every prototype with a usable entry holds that entry's evaluation, the others keep their value, and every other cell is unchanged |
| RefreshPasses.BaseRow | Core/Components/FoliageTerrain.cs:348-368 | the base pass over row y; other rows are unchanged |
| RefreshPasses.BasePass | Core/Components/FoliageTerrain.cs:345-369 | every cell of every prototype holds its entry's evaluation, or keeps its value where the biome has no usable entry for the prototype |
| RefreshPasses.Samples | Core/Components/FoliageTerrain.cs:464-467 | one sample per brush considered, in brush order |
| RefreshPasses.SamplesStep | Core/Components/FoliageTerrain.cs:464-505 | taking one more brush into account is one more blend step on the cell |
| RefreshPasses.ApplyBrush | Core/Components/FoliageTerrain.cs:473-504 | a brush with a positive mask at the cell blends every prototype's value with the density its biome proposes there (0 without a usable entry); every other cell is unchanged |
| RefreshPasses.EvaluateBiomes | Core/Components/FoliageTerrain.cs:458-506 | cell (x, y) of every prototype ends as the brushes applied to it in array order, brushes with a mask at most 0 there being skipped; every other cell is unchanged |
| RefreshPasses.BrushRow | Core/Components/FoliageTerrain.cs:397-402 | the brush pass over row y; other rows are unchanged |
| RefreshPasses.BrushPass | Core/Components/FoliageTerrain.cs:394-403 | every cell of every prototype has the brushes applied in order |
| RefreshPasses.TreeCellPass | Core/Components/FoliageTerrain.cs:422-427 | every prototype of cell (x, y) is faded towards 0 by the tree-map value and floored; every other cell is unchanged |
| RefreshPasses.TreeRow | Core/Components/FoliageTerrain.cs:419-428 | the tree pass over row y; other rows are unchanged |
| RefreshPasses.TreePass | Core/Components/FoliageTerrain.cs:417-429 | every cell of every prototype is faded towards 0 by its tree-map value |
| RefreshPasses.RefreshMaps | Core/Components/FoliageTerrain.cs:318-435 | on new zeroed maps the three passes leave each cell as the base evaluation, then the brushes when brushes are evaluated, then the tree fade when trees are evaluated |
| RefreshPasses.CandidateNonNegative | Core/Components/FoliageTerrain.cs:476-485 | the density a biome proposes, and the base value of a cell, are non-negative when the entry's initial density is |
| RefreshPasses.SamplesNonNegative | Core/Components/FoliageTerrain.cs:464-485 | with non-negative initial densities and masks every brush sample is non-negative |
| RefreshPasses.RefreshCellNonNegative | Core/Components/FoliageTerrain.cs:345-435 | the refreshed detail density is never negative when the initial densities and the masks are non-negative and the tree map lies in [0,1] |
| RefreshPasses.RefreshCellUnderTree | Core/Components/FoliageTerrain.cs:412-435 | where the tree map is 1 the cell ends with no foliage of any prototype |
| RefreshPasses.RefreshCellIsBase | Core/Components/FoliageTerrain.cs:345-435 | where no brush mask reaches the cell and no tree covers it, the cell holds the main biome entry's evaluation, or 0 without a usable entry |
| RefreshPasses.SamplesAre | Core/Components/FoliageTerrain.cs:464-467 | the j-th sample is brush j's |
| FoliageTerrains.EntriesFor | Core/Components/FoliageTerrain.cs:357-363 | one lookup per prototype, in order: nothing without a biome, for a missing entry or a disabled one, otherwise the entry's settings |
| FoliageTerrains.EntriesForReady | Core/Components/FoliageTerrain.cs:480-485 | a ready biome supplies only entries that can be evaluated, and a missing biome supplies none |
| FoliageTerrains.EntryForFirstMatch | Core/Components/FoliageTerrain.cs:358-363 | an entry is used exactly when the first entry listing the prototype exists and is enabled, and then it is that entry's settings |
| FoliageTerrains.LookupEntries | Core/Components/FoliageTerrain.cs:357-363 | the GetFoliage call followed by the null and `disable` checks, made for every prototype, gives EntriesFor |
| FoliageTerrains.FlattenMembers | Core/Components/FoliageTerrain.cs:145-149 | a prototype is among the biomes' prototypes taken one biome after another exactly when some biome lists it |
| FoliageTerrains.SyncedPrototypesSpec | Core/Components/FoliageTerrain.cs:144-156 | the collected prototypes hold no duplicates, hold a prototype exactly when some biome lists it, and keep the order of first occurrence |
| FoliageTerrains.BiomeListMembers | Core/Components/FoliageTerrain.cs:132-140 | the biome list starts with the component's biome, holds every brush's biome and nothing else, and lists the brushes' biomes once each |
| FoliageTerrains.BiomeListAssigned | Core/Components/FoliageTerrain.cs:132-140 | every present biome of the list has its assets when the component's biome and every brush's biome have theirs |
| FoliageTerrains.AppendAbsent | Core/Components/FoliageTerrain.cs:148-155 | the inner loop appends each prototype of a biome unless the list already holds it |
| FoliageTerrains.PrototypeLists | Core/Components/FoliageTerrain.cs:145-148 | the prototype list of each biome of the loop, in order, none for a missing biome |
| FoliageTerrains.CollectPrototypes | Core/Components/FoliageTerrain.cs:144-156 | the nested collection loop computes SyncedPrototypes of the biomes' lists |
| FoliageTerrains.BrushViews | Core/Components/FoliageTerrain.cs:464-485 | one view per brush, in order: its blend mode, its biome's lookups for every prototype and its mask |
| FoliageTerrains.BrushViewFor | Core/Components/FoliageTerrain.cs:466-485 | the view of one brush is its blend mode, its biome's lookups and its mask on the region |
| FoliageTerrains.RemovalStart | Core/Components/FoliageTerrain.cs:158 | before the removal loop visits any index the list is unchanged |
| FoliageTerrains.RemovalEnd | Core/Components/FoliageTerrain.cs:158-164 | once the loop has visited every index the list is filtered |
| FoliageTerrains.RemovalStep | Core/Components/FoliageTerrain.cs:160-163 | visiting index i from the back keeps its element when the prototypes list it and removes exactly that element otherwise |
| FoliageTerrains.FoliageTerrain.constructor | Core/Components/FoliageTerrain.cs:23-50 | a new component evaluates brushes, their falloff and trees, with tree blend range (0.25,0.5), tree padding 4 and chunked-refresh resolution 256 |
| FoliageTerrains.FoliageTerrain.GetBiomes | Core/Components/FoliageTerrain.cs:132-140 | the list is the component's biome followed by the brushes' de-duplicated biomes |
| FoliageTerrains.FoliageTerrain.RemoveUnusedPrototypes | Core/Components/FoliageTerrain.cs:158-164 | the loop from the last index to the first leaves exactly the terrain prototypes that the collected list holds, in their order, and changes nothing else |
| FoliageTerrains.FoliageTerrain.SyncFoliage | Core/Components/FoliageTerrain.cs:142-170 | the returned prototypes, and the terrain's new prototypes, are the de-duplicated prototypes of every present biome of GetBiomes in order of first occurrence; nothing else changes |
| FoliageTerrains.FoliageTerrain.GetBiomeMask | Core/Components/FoliageTerrain.cs:186-230 | a fresh mask of the detail rect's shape holding the brush's mask value, with the component's falloff setting, at every cell |
| FoliageTerrains.FoliageTerrain.GetBiomeMasks | Core/Components/FoliageTerrain.cs:172-184 | no masks exactly when brushes are not evaluated; otherwise one fresh mask per brush, in order, each the brush's mask on the region |
| FoliageTerrains.FoliageTerrain.BuildTreeMap | Core/Components/FoliageTerrain.cs:232-302 | a fresh map over the detail rect whose every cell is the tree-map cell: 0 with trees off, with no tree in the region or outside the trees' bounds, and otherwise every tree in the region folded in |
| FoliageTerrains.FoliageTerrain.LookupFoliage | Core/Components/FoliageTerrain.cs:355-363 | the component biome's lookup for every prototype and, when brushes are evaluated, every brush's view, all of them ready for evaluation |
| FoliageTerrains.FoliageTerrain.RefreshLayers | Core/Components/FoliageTerrain.cs:318-435 | fresh maps, one per prototype over the flipped detail rect, whose every cell is the base evaluation, then the brushes, then the tree fade, each when enabled |
| FoliageTerrains.FoliageTerrain.RefreshRegion | Core/Components/FoliageTerrain.cs:313-435 | the lookups and the passes together give refreshed maps over the flipped region for the given prototypes |
| FoliageTerrains.FoliageTerrain.Refresh | Core/Components/FoliageTerrain.cs:304-456 | the terrain's prototypes are synchronised with the biomes; the returned maps hold, per synchronised prototype, every cell of the region flipped to (y, x) as the three passes leave it, and they are written at the unflipped detail position |
| FoliageTerrains.FoliageTerrain.Clear | Core/Components/FoliageTerrain.cs:508-516 | the prototypes are synchronised and every prototype's layer over the region is written as zeros at the region's detail position |

## Left out

- Floating point: IEEE rounding, NaN, infinities and 32-bit float precision are not modelled; every float is a real.
- Division by zero: where the source would divide by zero, the model requires a nonzero divisor. This covers the Remap and Normal range (`inMax != inMin`), the noise scales and remap range (`Evaluable`), the outer-minus-inner brush size (`FalloffDefined`, part of `MaskDefined`), the tree size and blend range (`TreeReady`, `TreesReady`), and the chunked-refresh resolution.
- Detail resolution: a detail resolution of 0 is also excluded.
- Mathf.PerlinNoise is an uninterpreted parameter; only the saturation the code applies to it is relied on.
- math.distance is an uninterpreted parameter. The nearest-vertex search compares squared distances instead, which picks the same vertex for exact reals.
- Polygons.ClosestIndex: the source starts its running minimum at float.MaxValue. The model takes the first vertex as the starting candidate, which is the same for every finite distance.
- The random helpers FloatExtensions.GetRandom, VectorExtensions.Randomized and Direction are left out, because they depend on a random number source.
- Vector magnitude: `size.magnitude <= 0` in the tree-bounds loop is modelled as "every component is 0" (`ZeroLength`), which is its meaning for reals.
- TreeMaps.FillTreeMap proves that the bounds test skips only cells outside every tree's box. No equivalence is claimed with a map that has no bounds test: a tree's circle of influence is not bounded by its box.
- Int arrays: the jagged `int[][,]` detail maps are one `array3<int>` indexed by (prototype, x, y). No aliasing between layers exists in the source, so none is lost.
- TerrainData access is passed in as parameters and not modelled as engine calls: GetAlphamaps is the `AlphaMaps` value, and the prototype list is a field. FoliageTerrains.FoliageTerrain.Refresh and FoliageTerrains.FoliageTerrain.Clear return the maps and the detail position that SetDetailLayer receives, instead of writing into terrain data.
- RemoveDetailPrototype: its effect on the terrain's stored layers, and RefreshPrototypes, are left out. Only the prototype list is modelled.
- BiomeBrush.GetSplines and the scene query FindObjectsOfType are not modelled. The brushes on the terrain are a parameter; Brushes.GetBrushes models the query over a given scene list.
- The Layers property caches the terrain layers; its cache is the `layers` field of the host parameter.
- Disabled flag: the terrain component reads `foliage.disable` where the entry class declares `bypass`. They are modelled as one flag.
- FoliageTerrains.FoliageTerrain.Refresh computes its foliage lookups (GetFoliage plus the null and disabled checks) once per prototype and once per brush before the cell loops, rather than inside them. It also states the synchronised lists in the pre-state. The values are the same because nothing in the loops changes the biomes.
- FoliageData.BiomeAsset.GetPrototypes: requires `AllAssigned()`, meaning every entry is non-null with an asset. The source's `f.asset.Prototype` throws on a null entry or a missing asset (Core/Data/Asset/BiomeAsset.cs:42), and the model does not represent that exception. FoliageData.GetFoliageFindsListedPrototype inherits this requirement.
- FoliageData.BiomeAsset.GetFoliage: requires only that the entries read before the first match (`AssetsAssignedUpTo`) have assets, because the source dereferences `detail.asset` only for those. A missing asset there throws in the source and the model does not represent that exception.
- FoliageTerrains.LookupEntries: requires `AssetsAssigned()` for the biome, so every present entry must have an asset. This is stronger than the single GetFoliage call, which reads only up to the first match. The model does not cover a biome whose missing asset comes after every looked-up prototype. FoliageTerrains.BrushViews and FoliageTerrains.BrushViewFor inherit this requirement.
- FoliageTerrains.BiomePrototypes, FoliageTerrains.PrototypeLists, FoliageTerrains.BiomeListAssigned, FoliageTerrains.FoliageTerrain.SyncFoliage, FoliageTerrains.FoliageTerrain.LookupFoliage, FoliageTerrains.FoliageTerrain.RefreshRegion, FoliageTerrains.FoliageTerrain.Refresh and FoliageTerrains.FoliageTerrain.Clear: require `AllAssigned()` of every non-null biome, because they call GetPrototypes. The source's exception for an incomplete biome is not modelled.
- SplineBrushes.PolygonOf, SplineBrushes.GetPolygon, SplineBrushes.GetBounds, SplineBrushes.GetInnerBounds, SplineBrushes.MaskActive and SplineBrushes.IsActive: require `resolution >= 0`. `new float3[resolution]` throws for a negative length (Core/Components/Brushes/SplineBrush.cs:56), and that exception is not modelled.
- SplineBrushes.MaskDefined, and so SplineBrushes.MaskCell, SplineBrushes.MaskCellRange, SplineBrushes.GetMask, FoliageTerrains.MaskMatches and FoliageTerrains.FoliageTerrain.GetBiomeMask: require `resolution > 0` and a detail region of non-negative width and height. `Points[0]` throws on the empty polygon of resolution 0 (Utility/Math/Polygon.cs:39), and `new float[width, height]` throws for a negative size (Core/Components/Brushes/SplineBrush.cs:97). Neither exception is modelled. The requirement, together with FalloffDefined when falloff is evaluated, applies to every GetMask call. That includes brushes the optimisation guard rejects, for which the source returns the zeroed grid before it reads `Points[0]` or divides (Core/Components/Brushes/SplineBrush.cs:106-108). So FoliageTerrains.FoliageTerrain.Refresh also excludes a brush that overlaps no refreshed cell when its resolution is 0, or when its spline is flat in x or z while its falloff is at least 0.001. The inspector's `[Range(3,128)]` on `resolution` (Core/Components/Brushes/SplineBrush.cs:16) keeps authored resolutions positive.
- Density.AlphasCover, and so Density.TextureRulesValue, Density.EvaluateTextureRules, Density.AllSkippedIsZero, Density.ExcludeOnlyIsZero and Density.SettingsReady: require non-empty alpha maps whenever there are rules, and no more terrain layers than the maps' third dimension. The source's `alphas[pos.x, pos.y, splatIndex]` throws otherwise (Core/Components/FoliageTerrain.cs:560-575). The source does reach an empty map without error when every rule is skipped before sampling, and the model does not cover that case.
- FoliageTerrains.FoliageTerrain.Refresh requires a non-null main biome: the source dereferences it without a check.
- FoliageTerrains.BiomeReady demands that every enabled entry of a biome be evaluable. This includes entries shadowed by an earlier entry for the same prototype, which the source never evaluates.
- The refresh pipeline is split into helpers: RefreshRegion, LookupFoliage, RefreshLayers and the passes of RefreshPasses are pieces of the source's one Refresh(TerrainRegion) method.
- ChunkedRefresh.ChunkRegions returns the regions the coroutine refreshes, in order. The frame yields and the progress bar are left out, as is the call to Refresh for each region.
- Event wiring is left out: OnEnable, OnDisable, OnValidate, the TerrainCallbacks handlers OnHeightChanged and OnTextureChanged, and OnBiomeEdit. So are Validate, CanRefresh, the gizmo drawing of the brushes, and the FOLIAGE_DEBUG timers and logging.
- BiomeBrushes.BiomeBrush.ScheduleRefresh: the editor's isUpdating and isCompiling flags are parameters, and each Refresh call is counted instead of performed.
- Data-only files and editor code are left out: FoliageAsset's field mapping and random Reset, FoliageRefreshOptions, MinMaxAttribute, the Editor directory and Utility/BrushEditing.cs. The editor also calls `FoliageTerrain.Refresh(t, region)` and `t.Refresh(region, detailPrototypes)`, overloads that the component does not declare; these calls are left out as well.
- ToString overrides and the noise struct's hash code are left out.
- Core/Components/SplineBrush.cs: its `Refresh()` and `Refresh(Bounds)` are left out. They loop over the scene's FoliageTerrain components and call `terrain.Sync` and `terrain.Refresh(region, detailPrototypes)`, which the component does not declare. The `OnEnable`/`OnDisable` of Core/Components/Brushes/Spline/BiomeBrush.cs, which schedule nothing, are left out with the rest of the event wiring.
- TerrainLayerExtensions.IndexOf: terrain-layer slots are never null in the model. The source's `layers[i].Equals(layer)` (Utility/Extensions/Terrain/TerrainLayerExtensions.cs:11) throws a NullReferenceException when a slot before the match is null, as after a layer asset is deleted. That exception is not represented, here or in TerrainLayerExtensions.IndexOfLayer, Density.TextureRulesValue and Density.EvaluateTextureRules, which look up every rule's layer.
- TreeMaps.BoxesBoundsHoldOn needs more than Dafny's default 30-second time limit per proof. Verify the project with `--resource-limit 2000000 --verification-time-limit 0`, under which it stays well below the resource limit.
