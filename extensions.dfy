/** Utility/Extensions/Primitives/FloatExtensions.cs */
module FloatExtensions {
  import opened UnityEngine

  /** One-minus relative to a magnitude (1 by default). */
  function OneMinus(f: real, magnitude: real := 1.0): real
  {
    magnitude - f
  }

  lemma {:induction false} OneMinusInvolution(f: real, magnitude: real)
    ensures OneMinus(OneMinus(f, magnitude), magnitude) == f
    ensures OneMinus(f) == 1.0 - f
  {
  }

  /** Affine remap of [inMin, inMax] onto [outMin, outMax]. */
  function Remap(f: real, inMin: real, inMax: real, outMin: real, outMax: real): (r: real)
    requires inMax != inMin
    ensures f == inMin ==> r == outMin
    ensures f == inMax ==> r == outMax
  {
    var k := (outMax - outMin) / (inMax - inMin);
    assert (f - inMin) * (outMax - outMin) / (inMax - inMin) == (f - inMin) * k;
    assert (inMax - inMin) * k == outMax - outMin;
    outMin + (f - inMin) * (outMax - outMin) / (inMax - inMin)
  }

  /** Remap is affine: differences of inputs scale by one constant factor. */
  lemma RemapAffine(f: real, g: real, inMin: real, inMax: real, outMin: real, outMax: real)
    requires inMax != inMin
    ensures Remap(f, inMin, inMax, outMin, outMax) - Remap(g, inMin, inMax, outMin, outMax)
            == (f - g) * ((outMax - outMin) / (inMax - inMin))
  {
    var k := (outMax - outMin) / (inMax - inMin);
    assert (f - inMin) * (outMax - outMin) / (inMax - inMin) == (f - inMin) * k;
    assert (g - inMin) * (outMax - outMin) / (inMax - inMin) == (g - inMin) * k;
  }

  /** The overload whose output range is a Vector2. */
  function RemapToRange(f: real, inMin: real, inMax: real, b: Vector2): (r: real)
    requires inMax != inMin
    ensures f == inMin ==> r == b.x
    ensures f == inMax ==> r == b.y
  {
    Remap(f, inMin, inMax, b.x, b.y)
  }

  /** The overload whose input and output ranges are Vector2s. */
  function RemapRanges(f: real, a: Vector2, b: Vector2): (r: real)
    requires a.y != a.x
    ensures f == a.x ==> r == b.x
    ensures f == a.y ==> r == b.y
  {
    Remap(f, a.x, a.y, b.x, b.y)
  }

  /** The overload whose input range is a Vector2. */
  function RemapFromRange(f: real, a: Vector2, bMin: real, bMax: real): (r: real)
    requires a.y != a.x
    ensures f == a.x ==> r == bMin
    ensures f == a.y ==> r == bMax
  {
    Remap(f, a.x, a.y, bMin, bMax)
  }

  /** Normalise f against [min, max]. */
  function Normal(f: real, min: real, max: real): (r: real)
    requires max != min
    ensures f == min ==> r == 0.0
    ensures f == max ==> r == 1.0
    ensures min < max && min <= f <= max ==> 0.0 <= r <= 1.0
    ensures min < max && f < min ==> r < 0.0
    ensures min < max && max < f ==> 1.0 < r
  {
    QuotientSign(f - min, max - min);
    QuotientSign(f - max, max - min);
    assert f - max == (f - min) - (max - min);
    (f - min) / (max - min)
  }

  /** Dividing by a positive number keeps the sign and maps a between 0 and d into [0,1]. */
  lemma QuotientSign(a: real, d: real)
    requires d != 0.0
    ensures a == 0.0 ==> a / d == 0.0
    ensures a == d ==> a / d == 1.0
    ensures d > 0.0 && a < 0.0 ==> a / d < 0.0
    ensures d > 0.0 && a > 0.0 ==> a / d > 0.0
    ensures d > 0.0 && 0.0 <= a <= d ==> 0.0 <= a / d <= 1.0
    ensures (a - d) / d == a / d - 1.0
    ensures (-a) / d == -(a / d)
  {
    var q := a / d;
    assert q * d == a;
    var r := (a - d) / d;
    assert r * d == a - d;
    assert (r - q + 1.0) * d == 0.0;
    ZeroFactor(r - q + 1.0, d);
    var n := (-a) / d;
    assert n * d == -a;
    assert (n + q) * d == 0.0;
    ZeroFactor(n + q, d);
  }

  lemma ZeroFactor(x: real, d: real)
    requires x * d == 0.0 && d != 0.0
    ensures x == 0.0
  {
  }

  /** Normalise, take the absolute value, then saturate.  Below `min` the absolute
      value mirrors f about `min`, so a value one range width below `min` gives 1. */
  function NormalAbsClamp(f: real, min: real, max: real): (r: real)
    requires max != min
    ensures 0.0 <= r <= 1.0
    ensures min < max && min <= f <= max ==> r == Normal(f, min, max)
    ensures min < max && max <= f ==> r == 1.0
    ensures min < max && min - (max - min) <= f <= min ==> r == Normal(2.0 * min - f, min, max)
    ensures min < max && f <= min - (max - min) ==> r == 1.0
  {
    var normal := Normal(f, min, max);
    var abs := if normal < 0.0 then -normal else normal;
    NormalReflect(f, min, max);
    Saturate(abs)
  }

  /** Negating the normalised value mirrors f about min. */
  lemma NormalReflect(f: real, min: real, max: real)
    requires max != min
    ensures -Normal(f, min, max) == Normal(2.0 * min - f, min, max)
  {
    QuotientSign(f - min, max - min);
    assert 2.0 * min - f - min == -(f - min);
  }

  /** Normalise, then clamp into [0,1]. */
  function NormalizeClamp(f: real, min: real, max: real): (r: real)
    requires max != min
    ensures 0.0 <= r <= 1.0
    ensures min < max && min <= f <= max ==> r == Normal(f, min, max)
    ensures min < max && f <= min ==> r == 0.0
    ensures min < max && max <= f ==> r == 1.0
  {
    Clamp01(Normal(f, min, max))
  }

  /** The extension Clamp is Mathf.Clamp. */
  function ClampValue(f: real, min: real, max: real): (r: real)
    ensures min <= max ==> min <= r <= max
    ensures min <= f <= max ==> r == f
    ensures f < min ==> r == min
    ensures min <= f && max < f ==> r == max
  {
    UnityEngine.Clamp(f, min, max)
  }

  /** The extension Saturate is Mathf.Clamp01. */
  function SaturateValue(f: real): (r: real)
    ensures 0.0 <= r <= 1.0
    ensures 0.0 <= f <= 1.0 ==> r == f
    ensures f < 0.0 ==> r == 0.0
    ensures 1.0 < f ==> r == 1.0
  {
    Clamp01(f)
  }

  lemma SaturateIdempotent(f: real)
    ensures SaturateValue(SaturateValue(f)) == SaturateValue(f)
  {
  }
}

/** Utility/Extensions/Primitives/VectorExtensions.cs (the random helpers are left out). */
module VectorExtensions {
  import opened UnityEngine

  /** Clamp each component with math.clamp into its own axis range. */
  function Clamp(v: Vector2Int, minX: int, minY: int, maxX: int, maxY: int): (r: Vector2Int)
    ensures minX <= maxX ==> minX <= r.x <= maxX
    ensures minY <= maxY ==> minY <= r.y <= maxY
    ensures minX <= v.x <= maxX && minY <= v.y <= maxY ==> r == v
    ensures v.x < minX ==> r.x == minX
    ensures minX <= maxX && maxX < v.x ==> r.x == maxX
    ensures v.y < minY ==> r.y == minY
    ensures minY <= maxY && maxY < v.y ==> r.y == maxY
    ensures maxX < minX ==> r.x == minX
    ensures maxY < minY ==> r.y == minY
  {
    Vector2Int(MathClampInt(v.x, minX, maxX), MathClampInt(v.y, minY, maxY))
  }

  lemma ClampIdempotent(v: Vector2Int, minX: int, minY: int, maxX: int, maxY: int)
    requires minX <= maxX && minY <= maxY
    ensures Clamp(Clamp(v, minX, minY, maxX, maxY), minX, minY, maxX, maxY) == Clamp(v, minX, minY, maxX, maxY)
  {
  }

  /** The x result ignores the y inputs and the y result ignores the x inputs. */
  lemma ClampAxesIndependent(v: Vector2Int, w: Vector2Int, minX: int, minY: int, maxX: int, maxY: int,
                             minY': int, maxY': int, minX': int, maxX': int)
    ensures v.x == w.x ==> Clamp(v, minX, minY, maxX, maxY).x == Clamp(w, minX, minY', maxX, maxY').x
    ensures v.y == w.y ==> Clamp(v, minX, minY, maxX, maxY).y == Clamp(w, minX', minY, maxX', maxY).y
  {
  }
}

/** Utility/Extensions/Primitives/RectExtensions.cs */
module RectExtensions {
  import opened UnityEngine

  /** Normalise an integer rect by dividing position and size by `max`. */
  function NormalizeInt(rect: RectInt, max: int): Rect
    requires max != 0
  {
    var m := max as real;
    Rect(rect.x as real / m, rect.y as real / m, rect.width as real / m, rect.height as real / m)
  }

  /** Normalise a rect by dividing position and size by `max`. */
  function Normalize(rect: Rect, max: int): Rect
    requires max != 0
  {
    var m := max as real;
    Rect(rect.x / m, rect.y / m, rect.width / m, rect.height / m)
  }

  /** Componentwise scaling of position and size. */
  function Scale(rect: Rect, scale: Vector2): Rect
  {
    RectFromVectors(rect.Position().Times(scale), rect.Size().Times(scale))
  }

  /** Grow(Rect, units): moves the corner by units/2 toward the origin but never past 0,
      and grows the size by units/2.  Note the argument order of Mathf.Clamp: the value
      clamped is 0, into [x - units/2, x]. */
  function Grow(rect: Rect, units: real): (r: Rect)
    ensures units >= 0.0 && rect.x >= 0.0 ==> r.x == Max(0.0, rect.x - units / 2.0)
    ensures units >= 0.0 && rect.y >= 0.0 ==> r.y == Max(0.0, rect.y - units / 2.0)
    ensures r.width == rect.width + units / 2.0 && r.height == rect.height + units / 2.0
  {
    var x := Clamp(0.0, rect.x - units / 2.0, rect.x);
    var y := Clamp(0.0, rect.y - units / 2.0, rect.y);
    Rect(x, y, rect.width + units / 2.0, rect.height + units / 2.0)
  }

  /** Scale into a base size and translate by a base position. */
  function ToWorldSpace(rect: Rect, posBase: Vector2, sizeBase: Vector2): Rect
  {
    RectFromVectors(posBase.Plus(rect.Position().Times(sizeBase)), rect.Size().Times(sizeBase))
  }

  /** ToWorldSpace is Scale followed by a translation of the position only. */
  lemma ToWorldSpaceIsTranslatedScale(rect: Rect, posBase: Vector2, sizeBase: Vector2)
    ensures var s := Scale(rect, sizeBase);
            ToWorldSpace(rect, posBase, sizeBase) == Rect(s.x + posBase.x, s.y + posBase.y, s.width, s.height)
    ensures Scale(rect, sizeBase).x == rect.x * sizeBase.x && Scale(rect, sizeBase).width == rect.width * sizeBase.x
    ensures Scale(rect, sizeBase).y == rect.y * sizeBase.y && Scale(rect, sizeBase).height == rect.height * sizeBase.y
  {
  }

  /** Scale by a vector and round position and size, each component on its own. */
  function ScaleToIntByVector(rect: Rect, scale: Vector2): RectInt
  {
    RectInt(RoundToInt(rect.x * scale.x), RoundToInt(rect.y * scale.y),
            RoundToInt(rect.width * scale.x), RoundToInt(rect.height * scale.y))
  }

  /** Scale uniformly and round: each component is within one half of the exact product. */
  function ScaleToInt(rect: Rect, scale: int): (r: RectInt)
    ensures rect.x * scale as real - 0.5 <= r.x as real <= rect.x * scale as real + 0.5
    ensures rect.y * scale as real - 0.5 <= r.y as real <= rect.y * scale as real + 0.5
    ensures rect.width * scale as real - 0.5 <= r.width as real <= rect.width * scale as real + 0.5
    ensures rect.height * scale as real - 0.5 <= r.height as real <= rect.height * scale as real + 0.5
  {
    ScaleToIntByVector(rect, Vector2(scale as real, scale as real))
  }

  /** The int overload rounds each exact product on its own, ties going to the even integer. */
  lemma ScaleToIntRounds(rect: Rect, scale: int)
    ensures var r := ScaleToInt(rect, scale);
            var s := scale as real;
            r.x == RoundToInt(rect.x * s) && r.y == RoundToInt(rect.y * s) &&
            r.width == RoundToInt(rect.width * s) && r.height == RoundToInt(rect.height * s)
  {
    var v := Vector2(scale as real, scale as real);
    assert ScaleToInt(rect, scale) == ScaleToIntByVector(rect, v);
  }

  /** Normalising an integer rect and scaling it back restores it exactly. */
  lemma {:induction false} ScaleToIntNormalizeRoundTrip(rect: RectInt, m: int)
    requires m > 0
    ensures ScaleToInt(NormalizeInt(rect, m), m) == rect
  {
    var mr := m as real;
    var n := NormalizeInt(rect, m);
    assert n.x * mr == rect.x as real;
    assert n.y * mr == rect.y as real;
    assert n.width * mr == rect.width as real;
    assert n.height * mr == rect.height as real;
    RoundToIntOfInt(rect.x);
    RoundToIntOfInt(rect.y);
    RoundToIntOfInt(rect.width);
    RoundToIntOfInt(rect.height);
  }

  /** Grow(RectInt, units): same law as the float overload, with the whole of `units`. */
  function GrowInt(rect: RectInt, units: int): (r: RectInt)
    ensures units >= 0 && rect.x >= 0 ==> r.x == (if rect.x - units > 0 then rect.x - units else 0)
    ensures units >= 0 && rect.y >= 0 ==> r.y == (if rect.y - units > 0 then rect.y - units else 0)
    ensures r.width == rect.width + units && r.height == rect.height + units
  {
    var x := ClampInt(0, rect.x - units, rect.x);
    var y := ClampInt(0, rect.y - units, rect.y);
    RectInt(x, y, rect.width + units, rect.height + units)
  }

  /** Swap the axes: position (yMin, xMin), size (height, width). */
  function FlipXY(rect: RectInt): (r: RectInt)
    ensures r.width == rect.height && r.height == rect.width
    ensures rect.width >= 0 && rect.height >= 0 ==> r == RectInt(rect.y, rect.x, rect.height, rect.width)
  {
    RectInt(rect.YMin(), rect.XMin(), rect.height, rect.width)
  }

  /** Flipping twice restores every rect of non-negative size. */
  lemma FlipXYInvolution(rect: RectInt)
    requires rect.width >= 0 && rect.height >= 0
    ensures FlipXY(FlipXY(rect)) == rect
  {
  }

  /** With a negative width the engine's xMin is x + width, so flipping twice moves the
      rect left by twice its width's magnitude; a negative height moves it down the same way. */
  lemma FlipXYNegativeSize(rect: RectInt)
    ensures rect.width < 0 && rect.height >= 0 ==>
              FlipXY(FlipXY(rect)) == RectInt(rect.x + 2 * rect.width, rect.y, rect.width, rect.height)
    ensures rect.width >= 0 && rect.height < 0 ==>
              FlipXY(FlipXY(rect)) == RectInt(rect.x, rect.y + 2 * rect.height, rect.width, rect.height)
    ensures rect.width < 0 && rect.height < 0 ==>
              FlipXY(FlipXY(rect)) == RectInt(rect.x + 2 * rect.width, rect.y + 2 * rect.height, rect.width, rect.height)
  {
  }

  /** Saturate each of x, y, width and height into [0,1] on its own. */
  function Saturate(rect: Rect): (r: Rect)
    ensures 0.0 <= r.x <= 1.0 && 0.0 <= r.y <= 1.0 && 0.0 <= r.width <= 1.0 && 0.0 <= r.height <= 1.0
    ensures 0.0 <= rect.x <= 1.0 ==> r.x == rect.x
    ensures 0.0 <= rect.y <= 1.0 ==> r.y == rect.y
    ensures 0.0 <= rect.width <= 1.0 ==> r.width == rect.width
    ensures 0.0 <= rect.height <= 1.0 ==> r.height == rect.height
    ensures (rect.x < 0.0 ==> r.x == 0.0) && (1.0 < rect.x ==> r.x == 1.0)
    ensures (rect.y < 0.0 ==> r.y == 0.0) && (1.0 < rect.y ==> r.y == 1.0)
    ensures (rect.width < 0.0 ==> r.width == 0.0) && (1.0 < rect.width ==> r.width == 1.0)
    ensures (rect.height < 0.0 ==> r.height == 0.0) && (1.0 < rect.height ==> r.height == 1.0)
  {
    var pos := Vector2(Clamp01(rect.x), Clamp01(rect.y));
    var size := Vector2(Clamp01(rect.width), Clamp01(rect.height));
    RectFromVectors(pos, size)
  }

  lemma SaturateIdempotent(rect: Rect)
    ensures Saturate(Saturate(rect)) == Saturate(rect)
  {
  }
}

/** Utility/Extensions/Primitives/LayerExtensions.cs */
module LayerExtensions {
  /** A LayerMask is a 32-bit integer mask. */
  type LayerMask = bv32

  /** `1 << layer` in C# uses only the low five bits of the shift count. */
  function ShiftCount(layer: int): bv5
  {
    (layer % 32) as bv5
  }

  function BitAt(s: bv5): bv32
  {
    (1 as bv32) << s
  }

  /** The mask test for a shift count already reduced to [0,32). */
  function ContainsBit(mask: LayerMask, s: bv5): bool
  {
    mask == mask | BitAt(s)
  }

  /** mask == (mask | (1 << layer)). */
  function Contains(mask: LayerMask, layer: int): bool
  {
    ContainsBit(mask, ShiftCount(layer))
  }

  /** A layer in [0,32) is its own shift count. */
  lemma ShiftCountOfLayer(s: bv5)
    ensures ShiftCount(s as int) == s
  {
    assert (s as int) % 32 == s as int;
  }

  /** The test `mask == mask | bit` asks whether the mask has that bit set. */
  lemma SingleBitTest(mask: LayerMask, s: bv5)
    ensures ContainsBit(mask, s) <==> mask & BitAt(s) != 0
  {
  }

  /** For a layer in [0,32), the answer is whether the layer's bit is set. */
  lemma ContainsIsBitTest(mask: LayerMask, layer: bv5)
    ensures Contains(mask, layer as int) <==> mask & BitAt(layer) != 0
  {
    ShiftCountOfLayer(layer);
    SingleBitTest(mask, layer);
  }

  lemma EmptyMaskContainsNothing(layer: int)
    ensures !Contains(0, layer)
  {
  }

  lemma FullMaskContainsEverything(layer: int)
    ensures Contains(0xFFFF_FFFF, layer)
  {
  }

  /** Distinct layers in [0,32) have disjoint bits. */
  lemma BitsDisjoint(s: bv5, t: bv5)
    requires s != t
    ensures BitAt(s) & BitAt(t) == 0
  {
  }

  lemma AndPastDisjoint(a: bv32, b: bv32, c: bv32)
    requires b & c == 0
    ensures (a | b) & c == a & c
  {
  }

  /** Setting the bit of one layer makes the mask contain it and changes no other layer's answer. */
  lemma {:induction false} SetBit(mask: LayerMask, layer: bv5, other: bv5)
    ensures Contains(mask | BitAt(layer), layer as int)
    ensures other != layer ==> (Contains(mask | BitAt(layer), other as int) <==> Contains(mask, other as int))
  {
    ShiftCountOfLayer(layer);
    ShiftCountOfLayer(other);
    if other != layer {
      BitsDisjoint(layer, other);
      AndPastDisjoint(mask, BitAt(layer), BitAt(other));
      SingleBitTest(mask | BitAt(layer), other);
      SingleBitTest(mask, other);
    }
  }

  /** Layers 32 apart share a bit, because the shift count wraps. */
  lemma ContainsWraps(mask: LayerMask, layer: int)
    ensures Contains(mask, layer + 32) == Contains(mask, layer)
  {
    assert (layer + 32) % 32 == layer % 32;
    assert ShiftCount(layer + 32) == ShiftCount(layer);
  }
}

/** Utility/Extensions/Terrain/TerrainLayerExtensions.cs */
module TerrainLayerExtensions {
  /** A terrain layer asset, compared by identity. */
  datatype TerrainLayer = TerrainLayer(id: nat)

  /** The first index of `layer` in `layers`, or -1. */
  function IndexOfLayer(layers: seq<TerrainLayer>, layer: TerrainLayer): (i: int)
    ensures -1 <= i < |layers|
    ensures i == -1 <==> layer !in layers
    ensures i >= 0 ==> layers[i] == layer && layer !in layers[..i]
  {
    if |layers| == 0 then -1
    else if layers[0] == layer then 0
    else
      var k := IndexOfLayer(layers[1..], layer);
      assert layers[1..][..if k < 0 then 0 else k] == layers[1..if k < 0 then 1 else k + 1];
      if k < 0 then -1 else k + 1
  }

  /** The loop with early return. */
  method IndexOf(layers: seq<TerrainLayer>, layer: TerrainLayer) returns (index: int)
    ensures index == IndexOfLayer(layers, layer)
    ensures index == -1 <==> forall k :: 0 <= k < |layers| ==> layers[k] != layer
    ensures index >= 0 ==> layers[index] == layer && forall k :: 0 <= k < index ==> layers[k] != layer
  {
    for i := 0 to |layers|
      invariant forall k :: 0 <= k < i ==> layers[k] != layer
    {
      if layers[i] == layer {
        assert layer !in layers[..i];
        return i;
      }
    }
    return -1;
  }
}

/** Utility/Extensions/Terrain/TerrainExtensions.cs */
module TerrainExtensions {
  import opened UnityEngine
  import opened Terrains

  /** World position of a normalised point: the terrain origin plus the point scaled by the size. */
  function GetWorldPosition(terrain: Terrain, pos: Vector3): Vector3
  {
    var size := terrain.data.size;
    terrain.position.Plus(Vector3(pos.x * size.x, pos.y * size.y, pos.z * size.z))
  }

  lemma WorldPositionOfOrigin(terrain: Terrain)
    ensures GetWorldPosition(terrain, Zero3) == terrain.position
  {
  }

  /** The difference of two world positions is the difference of the inputs scaled by the size. */
  lemma WorldPositionDifference(terrain: Terrain, p: Vector3, q: Vector3)
    ensures var size := terrain.data.size;
            var d := p.Minus(q);
            GetWorldPosition(terrain, p).Minus(GetWorldPosition(terrain, q))
              == Vector3(d.x * size.x, d.y * size.y, d.z * size.z)
  {
    var size := terrain.data.size;
    assert p.x * size.x - q.x * size.x == (p.x - q.x) * size.x;
    assert p.y * size.y - q.y * size.y == (p.y - q.y) * size.y;
    assert p.z * size.z - q.z * size.z == (p.z - q.z) * size.z;
  }

  /** The 2D overload: x and z scale (p.x, p.y), and y is the host's height at (p.y, p.x). */
  function GetWorldPosition2D(terrain: Terrain, queries: TerrainQueries, pos: Vector2): (r: Vector3)
    ensures r.x == GetWorldPosition(terrain, Vector3(pos.x, 0.0, pos.y)).x
    ensures r.z == GetWorldPosition(terrain, Vector3(pos.x, 0.0, pos.y)).z
    ensures r.y == terrain.position.y + queries.interpolatedHeight(pos.y, pos.x)
  {
    var size := terrain.data.size;
    terrain.position.Plus(Vector3(pos.x * size.x, queries.interpolatedHeight(pos.y, pos.x), pos.y * size.z))
  }
}
