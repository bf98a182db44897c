/** The tree map of FoliageTerrain.BuildTreeMap (Core/Components/FoliageTerrain.cs): the
    trees standing in the region, the bounds that hold all of them, and per detail cell the
    influence of every tree folded in order.  The tree list of TerrainData
    (treeInstanceCount / GetTreeInstance) arrives as a sequence. */
module TreeMaps {
  import opened UnityEngine
  import opened Terrains
  import opened Collections
  import opened TerrainRegions
  import opened TerrainPositions
  import opened TerrainExtensions
  import opened Density

  /** A tree stands in the normalised rectangle r when its (x, z) position does. */
  function InRegion(r: Rect): TreeInstance -> bool
  {
    (t: TreeInstance) => r.Contains(Vector2(t.position.x, t.position.z))
  }

  /** The trees standing in the region, in their order in the terrain. */
  method KeepInRegion(trees: seq<TreeInstance>, r: Rect) returns (kept: seq<TreeInstance>)
    ensures kept == Filter(trees, InRegion(r))
    ensures forall k :: 0 <= k < |kept| ==> kept[k] in trees && r.Contains(Vector2(kept[k].position.x, kept[k].position.z))
  {
    kept := [];
    for i := 0 to |trees|
      invariant kept == Filter(trees[..i], InRegion(r))
    {
      var tree := trees[i];
      FilterAppend(trees[..i], [tree], InRegion(r));
      assert trees[..i + 1] == trees[..i] + [tree];
      if !r.Contains(Vector2(tree.position.x, tree.position.z)) {
        continue;
      }
      kept := kept + [tree];
    }
    assert trees[..|trees|] == trees;
  }

  // -------------------------------------------------------------- Bounds

  /** The box of one tree: centred on its world position with x and z swapped, and
      `2 * treePadding` long on every axis. */
  function TreeBox(terrain: Terrain, tree: TreeInstance, treePadding: int): Bounds
  {
    var nPos := Vector3(tree.position.z, tree.position.y, tree.position.x);
    BoundsFromCenterSize(GetWorldPosition(terrain, nPos), Vector3(2.0, 2.0, 2.0).Scaled(treePadding as real))
  }

  /** `size.magnitude <= 0`: the length of a vector is 0 exactly when every component is. */
  predicate ZeroLength(v: Vector3)
  {
    v.x == 0.0 && v.y == 0.0 && v.z == 0.0
  }

  /** The box of every tree, in order. */
  function TreeBoxes(terrain: Terrain, trees: seq<TreeInstance>, treePadding: int): (r: seq<Bounds>)
    ensures |r| == |trees|
    ensures forall i :: 0 <= i < |r| ==> r[i] == TreeBox(terrain, trees[i], treePadding)
  {
    seq(|trees|, i requires 0 <= i < |trees| => TreeBox(terrain, trees[i], treePadding))
  }

  /** The bounds after the first k boxes: starting from `new Bounds()`, bounds of zero size
      are replaced by the box, and then the box is encapsulated. */
  function BoxesBounds(boxes: seq<Bounds>, k: nat): Bounds
    requires k <= |boxes|
  {
    if k == 0 then DefaultBounds
    else
      var b := BoxesBounds(boxes, k - 1);
      var box := boxes[k - 1];
      (if ZeroLength(b.Size()) then box else b).EncapsulateBounds(box)
  }

  /** The bounds BuildTreeMap tests the cells against. */
  function TreesBounds(terrain: Terrain, trees: seq<TreeInstance>, treePadding: int): Bounds
  {
    BoxesBounds(TreeBoxes(terrain, trees, treePadding), |trees|)
  }

  /** The bounds loop of BuildTreeMap. */
  method BoundsOfTrees(terrain: Terrain, trees: seq<TreeInstance>, treePadding: int) returns (bounds: Bounds)
    ensures bounds == TreesBounds(terrain, trees, treePadding)
  {
    bounds := DefaultBounds;
    for k := 0 to |trees|
      invariant bounds == BoundsAfter(terrain, trees, treePadding, k)
    {
      var tree := trees[k];
      var nPos := Vector3(tree.position.z, tree.position.y, tree.position.x);
      var wPos := GetWorldPosition(terrain, nPos);
      var scale := Vector3(2.0, 2.0, 2.0).Scaled(treePadding as real);
      var treeBounds := BoundsFromCenterSize(wPos, scale);
      BoundsAfterStep(terrain, trees, treePadding, k);
      if ZeroLength(bounds.Size()) {
        bounds := treeBounds;
      }
      bounds := bounds.EncapsulateBounds(treeBounds);
    }
  }

  /** The bounds after the first k trees. */
  function BoundsAfter(terrain: Terrain, trees: seq<TreeInstance>, treePadding: int, k: nat): Bounds
    requires k <= |trees|
  {
    BoxesBounds(TreeBoxes(terrain, trees, treePadding), k)
  }

  /** One more tree folds its box into the bounds, replacing bounds of zero size. */
  lemma BoundsAfterStep(terrain: Terrain, trees: seq<TreeInstance>, treePadding: int, k: nat)
    requires k < |trees|
    ensures var b := BoundsAfter(terrain, trees, treePadding, k);
            var box := TreeBox(terrain, trees[k], treePadding);
            BoundsAfter(terrain, trees, treePadding, k + 1) == (if ZeroLength(b.Size()) then box else b).EncapsulateBounds(box)
  {
  }

  /** Each tree's box is `2 * treePadding` wide. */
  lemma BoxSize(terrain: Terrain, tree: TreeInstance, treePadding: int)
    ensures TreeBox(terrain, tree, treePadding).Size().x == 2.0 * treePadding as real
  {
  }

  /** Encapsulating a box gives bounds at least as wide as the box. */
  lemma SizeAtLeastBox(b: Bounds, box: Bounds)
    ensures b.EncapsulateBounds(box).Size().x >= box.Size().x
  {
    var c := b.Encapsulate(box.Min());
    var e := c.Encapsulate(box.Max());
    assert e.Min().x <= box.Min().x && e.Max().x >= box.Max().x;
    assert e.Size().x == e.Max().x - e.Min().x;
  }

  /** Every box is at least w wide. */
  predicate AllWide(boxes: seq<Bounds>, w: real)
  {
    forall i :: 0 <= i < |boxes| ==> boxes[i].Size().x >= w
  }

  /** Once a box of positive width is folded in, the bounds are at least that wide, so the
      zero-size test never discards them again. */
  lemma {:induction false} BoxesBoundsWide(boxes: seq<Bounds>, k: nat, w: real)
    requires 0 < k <= |boxes| && w > 0.0
    requires AllWide(boxes, w)
    ensures BoxesBounds(boxes, k).Size().x >= w
  {
    var b := BoxesBounds(boxes, k - 1);
    SizeAtLeastBox(if ZeroLength(b.Size()) then boxes[k - 1] else b, boxes[k - 1]);
  }

  /** With boxes of positive width the bounds hold every box folded in so far. */
  lemma BoxesBoundsHold(boxes: seq<Bounds>, k: nat, w: real, j: nat, p: Vector3)
    requires j < k <= |boxes| && w > 0.0
    requires AllWide(boxes, w)
    requires boxes[j].Contains(p)
    ensures BoxesBounds(boxes, k).Contains(p)
  {
    BoxesBoundsHoldOn(boxes, k, w, j, p, X);
    BoxesBoundsHoldOn(boxes, k, w, j, p, Y);
    BoxesBoundsHoldOn(boxes, k, w, j, p, Z);
  }

  /** The coordinate axes; the containment proof goes one axis at a time. */
  datatype Axis = X | Y | Z

  function Coord(v: Vector3, a: Axis): real
  {
    match a
    case X => v.x
    case Y => v.y
    case Z => v.z
  }

  /** The point lies between the bounds' faces on axis a. */
  predicate OnAxis(b: Bounds, p: Vector3, a: Axis)
  {
    Coord(b.Min(), a) <= Coord(p, a) <= Coord(b.Max(), a)
  }

  /** BoxesBoundsHold on one axis. */
  lemma {:induction false} BoxesBoundsHoldOn(boxes: seq<Bounds>, k: nat, w: real, j: nat, p: Vector3, a: Axis)
    requires j < k <= |boxes| && w > 0.0
    requires AllWide(boxes, w)
    requires OnAxis(boxes[j], p, a)
    ensures OnAxis(BoxesBounds(boxes, k), p, a)
  {
    var b := BoxesBounds(boxes, k - 1);
    if j < k - 1 {
      BoxesBoundsHoldOn(boxes, k - 1, w, j, p, a);
      BoxesBoundsWide(boxes, k - 1, w);
      EncapsulateOnAxis(b, boxes[k - 1], p, a);
    } else {
      EncapsulateOnAxis(if ZeroLength(b.Size()) then boxes[k - 1] else b, boxes[k - 1], p, a);
    }
  }

  /** Encapsulating bounds keeps the points of both on every axis. */
  lemma EncapsulateOnAxis(b: Bounds, o: Bounds, p: Vector3, a: Axis)
    requires OnAxis(b, p, a) || OnAxis(o, p, a)
    ensures OnAxis(b.EncapsulateBounds(o), p, a)
  {
    var c := b.Encapsulate(o.center.Minus(o.extents));
    assert c.Min() == Min3(b.Min(), o.Min()) && c.Max() == Max3(b.Max(), o.Min());
    var e := c.Encapsulate(o.center.Plus(o.extents));
    assert e.Min() == Min3(c.Min(), o.Max()) && e.Max() == Max3(c.Max(), o.Max());
  }

  /** With a positive padding the trees' bounds hold the box of every tree. */
  lemma TreesBoundsHold(terrain: Terrain, trees: seq<TreeInstance>, treePadding: int, j: nat, p: Vector3)
    requires treePadding > 0 && j < |trees|
    requires TreeBox(terrain, trees[j], treePadding).Contains(p)
    ensures TreesBounds(terrain, trees, treePadding).Contains(p)
  {
    var boxes := TreeBoxes(terrain, trees, treePadding);
    forall i | 0 <= i < |boxes| ensures boxes[i].Size().x >= 2.0 * treePadding as real {
      BoxSize(terrain, trees[i], treePadding);
    }
    BoxesBoundsHold(boxes, |trees|, 2.0 * treePadding as real, j, p);
  }

  // ------------------------------------------------------------ Cells

  /** Where BuildTreeMap tests cell (x, y) against the bounds: the world position of its
      terrain position, with the host height as y. */
  function CellWorld(terrain: Terrain, queries: TerrainQueries, region: TerrainRegion, x: int, y: int): Vector3
    requires terrain.data.detailResolution != 0
  {
    GetWorldPosition2D(terrain, queries, TerrainPosition2DOf(terrain, region, x, y))
  }

  /** Cell (x, y) of the tree map: 0 when trees are not evaluated, when no tree stands in the
      region or when the cell lies outside the trees' bounds; otherwise every tree in the
      region folded into 0 in order. */
  function TreeMapCell(evaluateTrees: bool, trees: seq<TreeInstance>, terrain: Terrain, queries: TerrainQueries,
                       region: TerrainRegion, t: TreeSettings, x: int, y: int): real
    requires terrain.data.detailResolution != 0
    requires evaluateTrees ==> TreesReady(Filter(trees, InRegion(region.region)), t)
  {
    var kept := Filter(trees, InRegion(region.region));
    if !evaluateTrees || |kept| == 0 then 0.0
    else if !TreesBounds(terrain, kept, t.treePadding).Contains(CellWorld(terrain, queries, region, x, y)) then 0.0
    else TreeFold(0.0, kept, |kept|, terrain, WorldPosition2DOf(terrain, region, x, y), t)
  }

  /** Every tree-map cell lies in [0, 1]. */
  lemma TreeMapCellRange(evaluateTrees: bool, trees: seq<TreeInstance>, terrain: Terrain, queries: TerrainQueries,
                         region: TerrainRegion, t: TreeSettings, x: int, y: int)
    requires terrain.data.detailResolution != 0
    requires evaluateTrees ==> TreesReady(Filter(trees, InRegion(region.region)), t)
    ensures 0.0 <= TreeMapCell(evaluateTrees, trees, terrain, queries, region, t, x, y) <= 1.0
  {
    if evaluateTrees {
      var kept := Filter(trees, InRegion(region.region));
      var world2D := WorldPosition2DOf(terrain, region, x, y);
      TreeFoldMonotone(0.0, kept, |kept|, |kept|, terrain, world2D, t);
      var folded := TreeFold(0.0, kept, |kept|, terrain, world2D, t);
      assert TreeMapCell(evaluateTrees, trees, terrain, queries, region, t, x, y) == 0.0 ||
             TreeMapCell(evaluateTrees, trees, terrain, queries, region, t, x, y) == folded;
    }
  }

  /** The tree map is 0 everywhere when trees are not evaluated or no tree stands in the
      region. */
  lemma TreeMapCellEmpty(evaluateTrees: bool, trees: seq<TreeInstance>, terrain: Terrain, queries: TerrainQueries,
                         region: TerrainRegion, t: TreeSettings, x: int, y: int)
    requires terrain.data.detailResolution != 0
    requires evaluateTrees ==> TreesReady(Filter(trees, InRegion(region.region)), t)
    requires !evaluateTrees || forall k :: 0 <= k < |trees| ==> !InRegion(region.region)(trees[k])
    ensures TreeMapCell(evaluateTrees, trees, terrain, queries, region, t, x, y) == 0.0
  {
    if evaluateTrees {
      FilterNone(trees, InRegion(region.region));
    }
  }

  /** A cell the bounds test skips lies outside the box of every tree in the region, so the
      skip only drops cells that no tree's box reaches. */
  lemma SkippedCellOutsideEveryBox(trees: seq<TreeInstance>, terrain: Terrain, queries: TerrainQueries,
                                   region: TerrainRegion, t: TreeSettings, x: int, y: int, j: nat)
    requires terrain.data.detailResolution != 0 && t.treePadding > 0
    requires var kept := Filter(trees, InRegion(region.region));
             j < |kept| && !TreesBounds(terrain, kept, t.treePadding).Contains(CellWorld(terrain, queries, region, x, y))
    ensures var kept := Filter(trees, InRegion(region.region));
            !TreeBox(terrain, kept[j], t.treePadding).Contains(CellWorld(terrain, queries, region, x, y))
  {
    var kept := Filter(trees, InRegion(region.region));
    var p := CellWorld(terrain, queries, region, x, y);
    if TreeBox(terrain, kept[j], t.treePadding).Contains(p) {
      TreesBoundsHold(terrain, kept, t.treePadding, j, p);
      assert false;
    }
  }

  /** The loop over the trees for cell (x, y): each tree's step applied to the cell in order. */
  method FoldTrees(treeMap: array2<real>, x: int, y: int, trees: seq<TreeInstance>, terrain: Terrain,
                   world2D: Vector2, t: TreeSettings)
    requires 0 <= x < treeMap.Length0 && 0 <= y < treeMap.Length1 && TreesReady(trees, t)
    modifies treeMap
    ensures forall a, b :: 0 <= a < treeMap.Length0 && 0 <= b < treeMap.Length1 ==>
              treeMap[a, b] == if a == x && b == y then TreeFold(old(treeMap[a, b]), trees, |trees|, terrain, world2D, t)
                               else old(treeMap[a, b])
  {
    for k := 0 to |trees|
      invariant forall a, b :: 0 <= a < treeMap.Length0 && 0 <= b < treeMap.Length1 ==>
                  treeMap[a, b] == if a == x && b == y then TreeFold(old(treeMap[a, b]), trees, k, terrain, world2D, t)
                                   else old(treeMap[a, b])
    {
      var tree := trees[k];
      var treePos := FloorToInt3(GetWorldPosition(terrain, tree.position));
      var treeSize := TreeSize(tree, t.treePadding);
      var dist := treeSize as real - t.distance(Vector2(treePos.z as real, treePos.x as real), world2D);
      var step := SmoothStep(t.blendRange.x, t.blendRange.y, Saturate(dist / treeSize as real));
      treeMap[x, y] := MathLerp(treeMap[x, y], 1.0, Saturate(step));
    }
  }

  /** The value the cell loops leave in cell (a, b) of a map that held `cell` there. */
  function FilledCell(cell: real, trees: seq<TreeInstance>, bounds: Bounds, terrain: Terrain, queries: TerrainQueries,
                      region: TerrainRegion, t: TreeSettings, a: int, b: int): real
    requires terrain.data.detailResolution != 0 && TreesReady(trees, t)
  {
    if !bounds.Contains(CellWorld(terrain, queries, region, a, b)) then cell
    else TreeFold(cell, trees, |trees|, terrain, WorldPosition2DOf(terrain, region, a, b), t)
  }

  /** The x loop of the cell loops over row y. */
  method FillTreeRow(treeMap: array2<real>, y: int, trees: seq<TreeInstance>, bounds: Bounds, terrain: Terrain,
                     queries: TerrainQueries, region: TerrainRegion, t: TreeSettings)
    requires terrain.data.detailResolution != 0 && TreesReady(trees, t) && 0 <= y < treeMap.Length1
    modifies treeMap
    ensures forall a, b :: 0 <= a < treeMap.Length0 && 0 <= b < treeMap.Length1 ==>
              treeMap[a, b] == if b == y then FilledCell(old(treeMap[a, b]), trees, bounds, terrain, queries, region, t, a, b)
                               else old(treeMap[a, b])
  {
    for x := 0 to treeMap.Length0
      invariant forall a, b :: 0 <= a < treeMap.Length0 && 0 <= b < treeMap.Length1 ==>
                  treeMap[a, b] == if b == y && a < x then FilledCell(old(treeMap[a, b]), trees, bounds, terrain, queries, region, t, a, b)
                                   else old(treeMap[a, b])
    {
      var worldPos := GetWorldPosition2D(terrain, queries, TerrainPosition2DOf(terrain, region, x, y));
      if !bounds.Contains(worldPos) {
        continue;
      }
      FoldTrees(treeMap, x, y, trees, terrain, WorldPosition2DOf(terrain, region, x, y), t);
    }
  }

  /** The cell loops of BuildTreeMap: every cell inside the bounds has every tree folded in. */
  method FillTreeMap(treeMap: array2<real>, trees: seq<TreeInstance>, bounds: Bounds, terrain: Terrain,
                     queries: TerrainQueries, region: TerrainRegion, t: TreeSettings)
    requires terrain.data.detailResolution != 0 && TreesReady(trees, t)
    modifies treeMap
    ensures forall a, b :: 0 <= a < treeMap.Length0 && 0 <= b < treeMap.Length1 ==>
              treeMap[a, b] == FilledCell(old(treeMap[a, b]), trees, bounds, terrain, queries, region, t, a, b)
  {
    for y := 0 to treeMap.Length1
      invariant forall a, b :: 0 <= a < treeMap.Length0 && 0 <= b < treeMap.Length1 ==>
                  treeMap[a, b] == if b < y then FilledCell(old(treeMap[a, b]), trees, bounds, terrain, queries, region, t, a, b)
                                   else old(treeMap[a, b])
    {
      FillTreeRow(treeMap, y, trees, bounds, terrain, queries, region, t);
    }
  }
}
