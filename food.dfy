/**
 * Food placement. Each random draw of the game is modelled as an
 * arbitrary choice (`:|`) within the draw's range, so every contract
 * holds for every value the generator may produce.
 */
module FoodSpawn {
  import opened Geometry

  /** The extents leave room for a food cell inset two cells from each edge. */
  predicate FitsFood(g: GridInfo)
    reads g
  {
    g.Usable() && g.GridSizeI().0 >= 4 && g.GridSizeI().1 >= 4
  }

  /** The extents leave room for a big-food anchor inset four cells from each edge. */
  predicate FitsBigFood(g: GridInfo)
    reads g
  {
    g.Usable() && g.GridSizeI().0 >= 8 && g.GridSizeI().1 >= 8
  }

  /** One cell inside the normal food range `[2, xMax-2] x [2, yMax-2]`. */
  predicate IsFoodSpot(p: seq<Cell>, extents: (int, int))
  {
    |p| == 1 &&
    2 <= p[0].x <= extents.0 - 2 &&
    2 <= p[0].y <= extents.1 - 2
  }

  /** A 2x2 block listed row by row from its anchor, the anchor lying in
      `[4, xMax-4] x [4, yMax-4]`. */
  predicate IsBigFoodBlock(p: seq<Cell>, extents: (int, int))
  {
    |p| == 4 &&
    p[1] == Cell(p[0].x + 1, p[0].y) &&
    p[2] == Cell(p[0].x, p[0].y + 1) &&
    p[3] == Cell(p[0].x + 1, p[0].y + 1) &&
    4 <= p[0].x <= extents.0 - 4 &&
    4 <= p[0].y <= extents.1 - 4
  }

  /** A big-food block has four distinct cells, each coordinate in `[4, max-3]`. */
  lemma BigFoodBlockBounds(p: seq<Cell>, extents: (int, int))
    requires IsBigFoodBlock(p, extents)
    ensures forall i, j :: 0 <= i < j < |p| ==> p[i] != p[j]
    ensures forall i :: 0 <= i < |p| ==>
              4 <= p[i].x <= extents.0 - 3 && 4 <= p[i].y <= extents.1 - 3
  {
    forall i, j | 0 <= i < j < |p|
      ensures p[i] != p[j]
    {
      assert p[i].x != p[j].x || p[i].y != p[j].y;
    }
  }

  /** One random cell inset two cells from every edge. */
  method GeneratePosition(g: GridInfo) returns (p: seq<Cell>)
    requires FitsFood(g)
    ensures IsFoodSpot(p, g.GridSizeI())
  {
    var extents := g.GridSizeI();
    var xMax, yMax := extents.0, extents.1;
    var x :| 2 <= x <= xMax - 2;
    var y :| 2 <= y <= yMax - 2;
    p := [Cell(x, y)];
  }

  /** A random 2x2 block whose anchor is inset four cells from every edge. */
  method GenerateBigFoodPosition(g: GridInfo) returns (p: seq<Cell>)
    requires FitsBigFood(g)
    ensures IsBigFoodBlock(p, g.GridSizeI())
  {
    var extents := g.GridSizeI();
    var xMax, yMax := extents.0, extents.1;
    var r :| 4 <= r <= xMax - 4;
    var s :| 4 <= s <= yMax - 4;
    p := [Cell(r, s), Cell(r + 1, s), Cell(r, s + 1), Cell(r + 1, s + 1)];
  }

  class Food {
    const gridInfo: GridInfo
    var position: seq<Cell>
    var respawnCounter: nat

    /** A food item: a 2x2 block when `isBigFood`, a single cell otherwise. */
    constructor (gridInfo: GridInfo, isBigFood: bool)
      requires if isBigFood then FitsBigFood(gridInfo) else FitsFood(gridInfo)
      ensures this.gridInfo == gridInfo && respawnCounter == 0
      ensures isBigFood ==> IsBigFoodBlock(position, gridInfo.GridSizeI())
      ensures !isBigFood ==> IsFoodSpot(position, gridInfo.GridSizeI())
    {
      var p;
      if isBigFood {
        p := GenerateBigFoodPosition(gridInfo);
      } else {
        p := GeneratePosition(gridInfo);
      }
      this.gridInfo := gridInfo;
      position := p;
      respawnCounter := 0;
    }

    /** Counts one more respawn and moves the food to a fresh random cell. */
    method Respawn()
      requires FitsFood(gridInfo)
      modifies this
      ensures respawnCounter == old(respawnCounter) + 1
      ensures IsFoodSpot(position, gridInfo.GridSizeI())
    {
      respawnCounter := respawnCounter + 1;
      position := GeneratePosition(gridInfo);
    }

    /** Moves the food to a fresh random cell and clears the counter. */
    method Reset()
      requires FitsFood(gridInfo)
      modifies this
      ensures respawnCounter == 0
      ensures IsFoodSpot(position, gridInfo.GridSizeI())
    {
      position := GeneratePosition(gridInfo);
      respawnCounter := 0;
    }
  }
}
