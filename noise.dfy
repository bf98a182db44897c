/** Utility/Math/Noise/PerlinNoise.cs: fractal noise built from the engine's 2D
    Perlin noise.  The engine's noise function itself (Mathf.PerlinNoise) is an
    uninterpreted parameter `source`; only its saturation is relied on. */
module Noise {
  import opened UnityEngine
  import opened FloatExtensions

  /** The nine authored fields of the noise struct. */
  datatype PerlinNoise = PerlinNoise(
    offset: Vector2,
    scaleX: real,
    scaleY: real,
    octaves: int,
    persistence: real,
    lacunarity: real,
    remap: Vector2,
    invert: bool,
    alpha: real)

  /** The engine's noise function. */
  type NoiseSource = (real, real) -> real

  /** Divisions the evaluation performs: 1/scaleX, 1/scaleY and the remap range. */
  predicate Evaluable(n: PerlinNoise)
  {
    n.scaleX != 0.0 && n.scaleY != 0.0 && n.remap.y != n.remap.x
  }

  /** One sample of the engine noise at the scaled, offset position, saturated. */
  function EvaluateNoise(source: NoiseSource, x: real, y: real, frequency: Vector2, position: Vector2): (r: real)
    ensures 0.0 <= r <= 1.0
  {
    Saturate(source((x + position.x) * frequency.x, (y + position.y) * frequency.y))
  }

  /** The loop state of Evaluate: running value, amplitude and frequency. */
  datatype Octave = Octave(perlin: real, amplitude: real, frequency: Vector2)

  /** The loop state after k octaves. */
  function OctaveState(n: PerlinNoise, source: NoiseSource, x: real, y: real, k: nat): Octave
    requires n.scaleX != 0.0 && n.scaleY != 0.0
  {
    Octave(Perlin(n, source, x, y, k), Amplitude(n, k), Frequency(n, k))
  }

  /** The amplitude after k octaves: each octave multiplies it by the persistence. */
  function Amplitude(n: PerlinNoise, k: nat): real
  {
    if k == 0 then 1.0 else Amplitude(n, k - 1) * n.persistence
  }

  /** The frequency after k octaves: each octave scales it by the lacunarity. */
  function Frequency(n: PerlinNoise, k: nat): Vector2
    requires n.scaleX != 0.0 && n.scaleY != 0.0
  {
    if k == 0 then Vector2(1.0 / n.scaleX, 1.0 / n.scaleY) else Frequency(n, k - 1).Scaled(n.lacunarity)
  }

  /** The running value after k octaves: each octave lerps it toward its sample by the
      octave's amplitude. */
  function Perlin(n: PerlinNoise, source: NoiseSource, x: real, y: real, k: nat): real
    requires n.scaleX != 0.0 && n.scaleY != 0.0
  {
    if k == 0 then 1.0
    else
      var value := EvaluateNoise(source, x, y, Frequency(n, k - 1), n.offset);
      MathLerp(Perlin(n, source, x, y, k - 1), value, Amplitude(n, k - 1))
  }

  /** Remap, saturate, optionally invert, then fade toward 1 by alpha and saturate. */
  function Shape(n: PerlinNoise, perlin: real): (r: real)
    requires n.remap.y != n.remap.x
    ensures 0.0 <= r <= 1.0
    ensures n.alpha == 0.0 ==> r == 1.0
  {
    var remapped := Saturate(RemapFromRange(perlin, n.remap, 0.0, 1.0));
    var inverted := if n.invert then OneMinus(remapped) else remapped;
    Saturate(MathLerp(1.0, inverted, n.alpha))
  }

  /** The number of octaves the loop runs: none for a non-positive count. */
  function OctaveCount(n: PerlinNoise): nat
  {
    if n.octaves < 0 then 0 else n.octaves
  }

  /** The value Evaluate(x, y) returns. */
  function NoiseValue(n: PerlinNoise, source: NoiseSource, x: real, y: real): real
    requires Evaluable(n)
  {
    Shape(n, OctaveState(n, source, x, y, OctaveCount(n)).perlin)
  }

  /** PerlinNoise.Evaluate(float, float). */
  method Evaluate(n: PerlinNoise, source: NoiseSource, x: real, y: real) returns (r: real)
    requires Evaluable(n)
    ensures r == NoiseValue(n, source, x, y)
    ensures 0.0 <= r <= 1.0
    ensures n.alpha == 0.0 ==> r == 1.0
  {
    var frequency := Vector2(1.0 / n.scaleX, 1.0 / n.scaleY);
    var position := n.offset;
    var amplitude := 1.0;
    var perlin := 1.0;
    var i := 0;
    while i < n.octaves
      invariant 0 <= i <= OctaveCount(n)
      invariant OctaveState(n, source, x, y, i) == Octave(perlin, amplitude, frequency)
      invariant position == n.offset
    {
      var value := EvaluateNoise(source, x, y, frequency, position);
      perlin := MathLerp(perlin, value, amplitude);
      amplitude := amplitude * n.persistence;
      frequency := frequency.Scaled(n.lacunarity);
      i := i + 1;
    }
    perlin := RemapFromRange(perlin, n.remap, 0.0, 1.0);
    perlin := Saturate(perlin);
    perlin := if n.invert then OneMinus(perlin) else perlin;
    perlin := MathLerp(1.0, perlin, n.alpha);
    r := Saturate(perlin);
  }

  /** PerlinNoise.Evaluate(Vector2). */
  method EvaluateAt(n: PerlinNoise, source: NoiseSource, v: Vector2) returns (r: real)
    requires Evaluable(n)
    ensures r == NoiseValue(n, source, v.x, v.y)
    ensures 0.0 <= r <= 1.0
  {
    r := Evaluate(n, source, v.x, v.y);
  }

  /** An unclamped lerp between values of [0,1] with a parameter in [0,1] stays in [0,1]. */
  lemma MathLerpUnit(a: real, b: real, t: real)
    requires 0.0 <= a <= 1.0 && 0.0 <= b <= 1.0 && 0.0 <= t <= 1.0
    ensures 0.0 <= MathLerp(a, b, t) <= 1.0
  {
    ScaleByUnit(b - a, t);
  }

  /** With persistence in [0,1] the running value and amplitude both stay in [0,1]. */
  lemma OctaveStateInUnit(n: PerlinNoise, source: NoiseSource, x: real, y: real, k: nat)
    requires n.scaleX != 0.0 && n.scaleY != 0.0
    requires 0.0 <= n.persistence <= 1.0
    ensures var s := OctaveState(n, source, x, y, k);
            0.0 <= s.perlin <= 1.0 && 0.0 <= s.amplitude <= 1.0
  {
    AmplitudeInUnit(n, k);
    PerlinInUnit(n, source, x, y, k);
  }

  lemma {:induction false} AmplitudeInUnit(n: PerlinNoise, k: nat)
    requires 0.0 <= n.persistence <= 1.0
    ensures 0.0 <= Amplitude(n, k) <= 1.0
  {
    if k > 0 {
      AmplitudeInUnit(n, k - 1);
      ScaleByUnit(Amplitude(n, k - 1), n.persistence);
    }
  }

  lemma {:induction false} PerlinInUnit(n: PerlinNoise, source: NoiseSource, x: real, y: real, k: nat)
    requires n.scaleX != 0.0 && n.scaleY != 0.0
    requires 0.0 <= n.persistence <= 1.0
    ensures 0.0 <= Perlin(n, source, x, y, k) <= 1.0
  {
    if k > 0 {
      PerlinInUnit(n, source, x, y, k - 1);
      AmplitudeInUnit(n, k - 1);
      var prev, value := Perlin(n, source, x, y, k - 1), EvaluateNoise(source, x, y, Frequency(n, k - 1), n.offset);
      MathLerpUnit(prev, value, Amplitude(n, k - 1));
    }
  }

  /** With no octaves the value before shaping is 1; the first octave, at amplitude 1,
      replaces it by the first sample. */
  lemma FirstOctave(n: PerlinNoise, source: NoiseSource, x: real, y: real)
    requires n.scaleX != 0.0 && n.scaleY != 0.0
    ensures OctaveState(n, source, x, y, 0).perlin == 1.0
    ensures OctaveState(n, source, x, y, 1).perlin
            == EvaluateNoise(source, x, y, Vector2(1.0 / n.scaleX, 1.0 / n.scaleY), n.offset)
  {
  }

  function Pow(b: real, k: nat): real
  {
    if k == 0 then 1.0 else Pow(b, k - 1) * b
  }

  /** After k octaves the frequency is the base frequency times lacunarity^k and the
      amplitude is persistence^k. */
  lemma {:induction false} OctaveStateGeometric(n: PerlinNoise, source: NoiseSource, x: real, y: real, k: nat)
    requires n.scaleX != 0.0 && n.scaleY != 0.0
    ensures var s := OctaveState(n, source, x, y, k);
            s.frequency == Vector2(1.0 / n.scaleX * Pow(n.lacunarity, k), 1.0 / n.scaleY * Pow(n.lacunarity, k)) &&
            s.amplitude == Pow(n.persistence, k)
  {
    FrequencyGeometric(n, k);
    AmplitudeGeometric(n, k);
  }

  lemma {:induction false} AmplitudeGeometric(n: PerlinNoise, k: nat)
    ensures Amplitude(n, k) == Pow(n.persistence, k)
  {
    if k > 0 {
      AmplitudeGeometric(n, k - 1);
    }
  }

  lemma {:induction false} FrequencyGeometric(n: PerlinNoise, k: nat)
    requires n.scaleX != 0.0 && n.scaleY != 0.0
    ensures Frequency(n, k) == Vector2(1.0 / n.scaleX * Pow(n.lacunarity, k), 1.0 / n.scaleY * Pow(n.lacunarity, k))
  {
    if k > 0 {
      FrequencyGeometric(n, k - 1);
      var l, p := n.lacunarity, Pow(n.lacunarity, k - 1);
      MulAssoc(1.0 / n.scaleX, p, l);
      MulAssoc(1.0 / n.scaleY, p, l);
    }
  }

  lemma MulAssoc(a: real, b: real, c: real)
    ensures a * b * c == a * (b * c)
  {
  }

  /** `invert` maps the saturated remapped value v to 1 - v before the alpha fade. */
  lemma InvertFlips(n: PerlinNoise, perlin: real)
    requires n.remap.y != n.remap.x
    ensures var v := Saturate(RemapFromRange(perlin, n.remap, 0.0, 1.0));
            Shape(n.(invert := true), perlin) == Saturate(MathLerp(1.0, 1.0 - v, n.alpha)) &&
            Shape(n.(invert := false), perlin) == Saturate(MathLerp(1.0, v, n.alpha))
  {
  }

  /** The equality comparer: all nine fields equal. */
  predicate ComparerEquals(a: PerlinNoise, b: PerlinNoise)
  {
    a.offset == b.offset && a.scaleX == b.scaleX && a.scaleY == b.scaleY && a.octaves == b.octaves &&
    a.persistence == b.persistence && a.lacunarity == b.lacunarity && a.remap == b.remap &&
    a.invert == b.invert && a.alpha == b.alpha
  }

  lemma ComparerIsEquality(a: PerlinNoise, b: PerlinNoise)
    ensures ComparerEquals(a, b) <==> a == b
  {
  }
}
