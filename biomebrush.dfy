/** The biome brush (Core/Components/Brushes/BiomeBrush.cs and the copy under
    Core/Components/Brushes/Spline/): a spline brush with a biome, the deferred-refresh
    flag that coalesces edits until the next Update, and the de-duplicated biome list of
    a set of brushes.  The host's Refresh call is counted in `refreshes`; the editor's
    isUpdating / isCompiling state is passed in. */
module BiomeBrushes {
  import opened Collections
  import opened FoliageData
  import opened SplineBrushes

  class BiomeBrush {
    var brush: SplineBrush
    var biome: BiomeAsset?
    var drawBounds: bool
    var drawPolygon: bool
    var scheduleRefresh: bool
    /** How many times the brush has called Refresh. */
    var refreshes: nat

    /** A brush with the field initialisers: nothing scheduled, no debug drawing. */
    constructor(brush: SplineBrush, biome: BiomeAsset?)
      ensures this.brush == brush && this.biome == biome
      ensures !drawBounds && !drawPolygon && !scheduleRefresh && refreshes == 0
    {
      this.brush := brush;
      this.biome := biome;
      drawBounds := false;
      drawPolygon := false;
      scheduleRefresh := false;
      refreshes := 0;
    }

    /** BiomeBrush.ScheduleRefresh: nothing when a refresh is already scheduled or the editor
        is updating or compiling; otherwise an enabled brush defers the refresh to Update and
        a disabled one refreshes at once. */
    method ScheduleRefresh(isUpdating: bool, isCompiling: bool)
      modifies this
      ensures brush == old(brush) && biome == old(biome)
      ensures drawBounds == old(drawBounds) && drawPolygon == old(drawPolygon)
      ensures old(scheduleRefresh) || isUpdating || isCompiling ==>
                scheduleRefresh == old(scheduleRefresh) && refreshes == old(refreshes)
      ensures !old(scheduleRefresh) && !isUpdating && !isCompiling && brush.enabled ==>
                scheduleRefresh && refreshes == old(refreshes)
      ensures !old(scheduleRefresh) && !isUpdating && !isCompiling && !brush.enabled ==>
                !scheduleRefresh && refreshes == old(refreshes) + 1
    {
      if scheduleRefresh {
        return;
      }
      if isUpdating || isCompiling {
        return;
      }
      if brush.enabled {
        scheduleRefresh := true;
        return;
      }
      refreshes := refreshes + 1;
    }

    /** BiomeBrush.Update: a scheduled refresh happens once and the flag is cleared. */
    method Update()
      modifies this
      ensures brush == old(brush) && biome == old(biome)
      ensures drawBounds == old(drawBounds) && drawPolygon == old(drawPolygon)
      ensures !scheduleRefresh
      ensures refreshes == old(refreshes) + (if old(scheduleRefresh) then 1 else 0)
    {
      if scheduleRefresh {
        scheduleRefresh := false;
        refreshes := refreshes + 1;
      }
    }

    /** Any positive number of schedule requests on an enabled brush in an idle editor,
        followed by one Update, refresh the brush exactly once. */
    method ScheduleManyThenUpdate(n: nat)
      requires n > 0 && brush.enabled
      modifies this
      ensures brush == old(brush) && biome == old(biome)
      ensures !scheduleRefresh && refreshes == old(refreshes) + 1
    {
      ScheduleRefresh(false, false);
      assert scheduleRefresh && refreshes == old(refreshes);
      var k := 1;
      while k < n
        invariant 1 <= k <= n
        invariant brush == old(brush) && biome == old(biome)
        invariant scheduleRefresh && refreshes == old(refreshes)
      {
        ScheduleRefresh(false, false);
        k := k + 1;
      }
      Update();
    }

    /** WillDrawDebugPolygon: the polygon gizmo is drawn exactly when drawPolygon is set. */
    function WillDrawDebugPolygon(): (r: bool)
      reads this
      ensures r == drawPolygon
    {
      drawPolygon
    }

    /** WillDrawDebugBounds: the bounds gizmo is drawn exactly when drawBounds is set. */
    function WillDrawDebugBounds(): (r: bool)
      reads this
      ensures r == drawBounds
    {
      drawBounds
    }
  }

  /** The biome of each brush, in order. */
  function BiomesOf(splines: seq<BiomeBrush>): (r: seq<BiomeAsset?>)
    reads splines
    ensures |r| == |splines|
    ensures forall i :: 0 <= i < |r| ==> r[i] == splines[i].biome
  {
    if |splines| == 0 then [] else BiomesOf(splines[..|splines| - 1]) + [splines[|splines| - 1].biome]
  }

  /** BiomeBrush.GetBiomes: each brush's biome, null included, once, in the order of first
      occurrence. */
  method GetBiomes(splines: seq<BiomeBrush>) returns (biomes: seq<BiomeAsset?>)
    ensures biomes == Dedup(BiomesOf(splines))
    ensures NoDuplicates(biomes)
    ensures forall i :: 0 <= i < |splines| ==> splines[i].biome in biomes
    ensures forall i :: 0 <= i < |biomes| ==> exists k :: 0 <= k < |splines| && splines[k].biome == biomes[i]
    ensures FirstOccurrenceOrder(BiomesOf(splines), biomes)
  {
    biomes := [];
    for i := 0 to |splines|
      invariant biomes == AddAbsent([], BiomesOf(splines[..i]))
    {
      var b := splines[i];
      assert BiomesOf(splines[..i + 1]) == BiomesOf(splines[..i]) + [b.biome] by {
        assert splines[..i + 1][..i] == splines[..i];
      }
      AddAbsentSnoc([], BiomesOf(splines[..i]), b.biome);
      if b.biome !in biomes {
        biomes := biomes + [b.biome];
      }
    }
    assert splines[..|splines|] == splines;
    AddAbsentDedup(BiomesOf(splines));
    DedupOfBiomes(splines);
  }

  /** The deduplicated biome list holds each brush's biome once, nothing else, in the order of
      first occurrence. */
  lemma DedupOfBiomes(splines: seq<BiomeBrush>)
    ensures var biomes := Dedup(BiomesOf(splines));
            NoDuplicates(biomes) &&
            (forall i :: 0 <= i < |splines| ==> splines[i].biome in biomes) &&
            (forall i :: 0 <= i < |biomes| ==> exists k :: 0 <= k < |splines| && splines[k].biome == biomes[i]) &&
            FirstOccurrenceOrder(BiomesOf(splines), biomes)
  {
    var all := BiomesOf(splines);
    var biomes := Dedup(all);
    forall i | 0 <= i < |biomes| ensures exists k :: 0 <= k < |splines| && splines[k].biome == biomes[i] {
      var k := FirstIndex(all, biomes[i]);
      assert splines[k].biome == biomes[i];
    }
    DedupFirstOccurrenceOrder(all);
  }
}
