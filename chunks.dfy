/** The full refresh of a terrain (the static FoliageTerrain.Refresh in
    Core/Components/FoliageTerrain.cs): the unit square of the terrain is cut into
    `divisions` x `divisions` equal rectangles and each of them is refreshed as its own
    region.  The model returns the regions in the order the source refreshes them; the
    coroutine's frame yields and the progress bar are left out. */
module ChunkedRefresh {
  import opened UnityEngine
  import opened Terrains
  import opened TerrainRegions

  function Abs(a: int): nat { if a < 0 then -a else a }

  /** C#'s integer division, which truncates toward zero. */
  function CsDiv(a: int, b: int): (q: int)
    requires b != 0
    ensures a >= 0 && b > 0 ==> q == a / b
  {
    var q := Abs(a) / Abs(b);
    if (a < 0) != (b < 0) then -q else q
  }

  /** The quotient rounds toward zero: its magnitude is the largest multiple of |b| that
      does not pass |a|, and its sign is the sign of a / b. */
  lemma CsDivTruncates(a: int, b: int)
    requires b != 0
    ensures var q := CsDiv(a, b);
            Abs(q) * Abs(b) <= Abs(a) < (Abs(q) + 1) * Abs(b) &&
            (q > 0 ==> (a > 0) == (b > 0)) && (q < 0 ==> (a > 0) != (b > 0))
  {
    var m, n := Abs(a), Abs(b);
    var q0: int := m / n;
    assert q0 >= 0;
    assert a == 0 ==> q0 == 0;
    if (a < 0) != (b < 0) {
      assert CsDiv(a, b) == -q0;
    } else {
      assert CsDiv(a, b) == q0;
    }
    DivBounds(m, n);
  }

  lemma DivBounds(m: nat, n: nat)
    requires n > 0
    ensures (m / n) * n <= m < (m / n + 1) * n
  {
    var q, r := m / n, m % n;
    assert m == q * n + r && 0 <= r < n;
    assert (q + 1) * n == q * n + n;
  }

  /** `math.clamp(detailResolution / chunkedRefreshResolution, 1, 16)`. */
  function Divisions(detailResolution: int, chunkedRefreshResolution: int): (d: int)
    requires chunkedRefreshResolution != 0
    ensures 1 <= d <= 16
    ensures 1 <= CsDiv(detailResolution, chunkedRefreshResolution) <= 16 ==>
              d == CsDiv(detailResolution, chunkedRefreshResolution)
    ensures CsDiv(detailResolution, chunkedRefreshResolution) < 1 ==> d == 1
    ensures CsDiv(detailResolution, chunkedRefreshResolution) > 16 ==> d == 16
  {
    MathClampInt(CsDiv(detailResolution, chunkedRefreshResolution), 1, 16)
  }

  /** The normalised rectangle of chunk (x, y). */
  function ChunkRect(d: int, x: int, y: int): Rect
    requires d > 0
  {
    Rect(x as real / d as real, y as real / d as real, 1.0 / d as real, 1.0 / d as real)
  }

  /** The regions the full refresh visits, x-major: the k-th is chunk (k / d, k % d). */
  method ChunkRegions(terrain: Terrain, chunkedRefreshResolution: int) returns (regions: seq<TerrainRegion>)
    requires chunkedRefreshResolution != 0
    ensures var d := Divisions(terrain.data.detailResolution, chunkedRefreshResolution);
            |regions| == d * d &&
            forall k :: 0 <= k < |regions| ==> regions[k] == NewTerrainRegion(terrain, ChunkRect(d, k / d, k % d))
  {
    var divisions := Divisions(terrain.data.detailResolution, chunkedRefreshResolution);
    regions := [];
    for x := 0 to divisions
      invariant |regions| == x * divisions
      invariant forall k :: 0 <= k < |regions| ==>
                  regions[k] == NewTerrainRegion(terrain, ChunkRect(divisions, k / divisions, k % divisions))
    {
      regions := AppendRow(regions, terrain, divisions, x);
    }
  }

  /** The inner loop over y: chunks (x, 0) to (x, d - 1) appended after the earlier rows. */
  method AppendRow(prefix: seq<TerrainRegion>, terrain: Terrain, d: int, x: int) returns (regions: seq<TerrainRegion>)
    requires d > 0 && 0 <= x && |prefix| == x * d
    requires forall k :: 0 <= k < |prefix| ==> prefix[k] == NewTerrainRegion(terrain, ChunkRect(d, k / d, k % d))
    ensures |regions| == (x + 1) * d
    ensures forall k :: 0 <= k < |regions| ==> regions[k] == NewTerrainRegion(terrain, ChunkRect(d, k / d, k % d))
  {
    regions := prefix;
    for y := 0 to d
      invariant |regions| == x * d + y
      invariant forall k :: 0 <= k < |regions| ==> regions[k] == NewTerrainRegion(terrain, ChunkRect(d, k / d, k % d))
    {
      var rect := Rect(x as real / d as real, y as real / d as real, 1.0 / d as real, 1.0 / d as real);
      RowMajor(x, y, d);
      regions := regions + [NewTerrainRegion(terrain, rect)];
    }
    assert x * d + d == (x + 1) * d;
  }

  /** Cell (x, y) of a grid with d columns sits at index x * d + y. */
  lemma RowMajor(x: int, y: int, d: int)
    requires 0 <= x && 0 <= y < d
    ensures (x * d + y) / d == x && (x * d + y) % d == y
  {
    var k := x * d + y;
    var q, r := k / d, k % d;
    assert k == q * d + r && 0 <= r < d;
    var e := x - q;
    assert e * d == x * d - q * d;
    assert e * d == r - y;
    if e >= 1 {
      AtLeastOneRow(e, d);
    } else if e <= -1 {
      AtLeastOneRow(-e, d);
    }
  }

  lemma AtLeastOneRow(e: int, d: int)
    requires e >= 1 && d > 0
    ensures e * d >= d
  {
    assert e * d == (e - 1) * d + d;
  }

  lemma ScaleInside(v: real, d: real, k: int)
    requires d > 0.0
    ensures k as real / d <= v < k as real / d + 1.0 / d <==> k as real <= v * d < k as real + 1.0
  {
    var lo, hi := k as real / d, (k as real + 1.0) / d;
    assert lo + 1.0 / d == hi;
    assert lo * d == k as real;
    assert hi * d == k as real + 1.0;
    MulLe(lo, v, d);
    MulLe(hi, v, d);
  }

  /** Multiplying by a positive number keeps the order. */
  lemma MulLe(a: real, b: real, d: real)
    requires d > 0.0
    ensures a <= b <==> a * d <= b * d
  {
    assert b * d - a * d == (b - a) * d;
  }

  /** Chunk (x, y) holds exactly the points whose coordinates times d floor to x and y. */
  lemma ChunkContains(d: int, x: int, y: int, p: Vector2)
    requires d > 0
    ensures ChunkRect(d, x, y).Contains(p) <==> FloorToInt(p.x * d as real) == x && FloorToInt(p.y * d as real) == y
  {
    ScaleInside(p.x, d as real, x);
    ScaleInside(p.y, d as real, y);
  }

  /** The chunks tile the unit square: every point of [0,1) x [0,1) lies in one chunk of the
      grid, and in no other. */
  lemma ChunksTile(d: int, p: Vector2)
    requires d > 0 && 0.0 <= p.x < 1.0 && 0.0 <= p.y < 1.0
    ensures var x := FloorToInt(p.x * d as real);
            var y := FloorToInt(p.y * d as real);
            0 <= x < d && 0 <= y < d && ChunkRect(d, x, y).Contains(p) &&
            forall a, b :: ChunkRect(d, a, b).Contains(p) ==> a == x && b == y
  {
    var x := FloorToInt(p.x * d as real);
    var y := FloorToInt(p.y * d as real);
    FloorInGrid(p.x, d);
    FloorInGrid(p.y, d);
    ChunkContains(d, x, y, p);
    forall a, b | ChunkRect(d, a, b).Contains(p) ensures a == x && b == y {
      ChunkContains(d, a, b, p);
    }
  }

  /** A coordinate in [0,1) scaled by d floors to a column of the grid. */
  lemma FloorInGrid(v: real, d: int)
    requires d > 0 && 0.0 <= v < 1.0
    ensures 0 <= FloorToInt(v * d as real) < d
  {
    MulLe(0.0, v, d as real);
    MulLe(1.0, v, d as real);
  }

  /** Chunk rectangles of the grid lie in the unit square, so the region keeps them as given. */
  lemma ChunkRectInUnit(d: int, x: int, y: int)
    requires 0 <= x < d && 0 <= y < d
    ensures var r := ChunkRect(d, x, y);
            0.0 <= r.x <= 1.0 && 0.0 <= r.y <= 1.0 && 0.0 <= r.width <= 1.0 && 0.0 <= r.height <= 1.0
  {
    var dr := d as real;
    assert dr / dr == 1.0;
    DivLe(x as real, dr, dr);
    DivLe(y as real, dr, dr);
    DivLe(1.0, dr, dr);
  }

  lemma DivLe(a: real, b: real, c: real)
    requires 0.0 <= a <= b && c > 0.0
    ensures 0.0 <= a / c <= b / c
  {
    assert b / c - a / c == (b - a) / c;
  }

  /** In x-major order, every cell of an earlier row comes before row x. */
  lemma EarlierRow(a: int, b: int, x: int, d: int)
    requires 0 <= a < x && 0 <= b < d
    ensures 0 <= a * d + b < x * d
  {
    assert a * d <= (x - 1) * d;
    assert (x - 1) * d + d == x * d;
  }

  /** An index below d * d names a cell of the grid. */
  lemma IndexInGrid(k: int, d: int)
    requires d > 0 && 0 <= k < d * d
    ensures 0 <= k / d < d && 0 <= k % d < d && k == (k / d) * d + k % d
  {
    if k / d >= d {
      MulAtLeast(k / d, d);
      assert false;
    }
  }

  lemma MulAtLeast(q: int, d: int)
    requires q >= d > 0
    ensures q * d >= d * d
  {
    assert q * d == (q - d) * d + d * d;
    if q > d {
      AtLeastOneRow(q - d, d);
    }
  }

  /** The regions of the full refresh tile the terrain: every point of the unit square lies
      in the normalised rectangle of one region of the list and of no other. */
  lemma ChunkRegionsTile(terrain: Terrain, d: int, regions: seq<TerrainRegion>, p: Vector2)
    requires d > 0 && |regions| == d * d
    requires forall k :: 0 <= k < |regions| ==> regions[k] == NewTerrainRegion(terrain, ChunkRect(d, k / d, k % d))
    requires 0.0 <= p.x < 1.0 && 0.0 <= p.y < 1.0
    ensures exists k :: 0 <= k < |regions| && regions[k].region.Contains(p)
    ensures forall k, l :: (0 <= k < |regions| && 0 <= l < |regions| &&
                            regions[k].region.Contains(p) && regions[l].region.Contains(p)) ==> k == l
  {
    ChunksTile(d, p);
    var x := FloorToInt(p.x * d as real);
    var y := FloorToInt(p.y * d as real);
    var k := x * d + y;
    RowMajor(x, y, d);
    EarlierRow(x, y, d, d);
    ChunkRectInUnit(d, x, y);
    assert regions[k].region == ChunkRect(d, x, y);
    forall l | 0 <= l < |regions| && regions[l].region.Contains(p) ensures l == k {
      IndexInGrid(l, d);
      ChunkRectInUnit(d, l / d, l % d);
      assert regions[l].region == ChunkRect(d, l / d, l % d);
    }
  }
}
