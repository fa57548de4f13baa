/** The nine-cell area-of-interest index of src/game/aoi_grid.cpp, against a scan of all positions. */
module AoiGrid {
  import opened Bytes

  datatype Point = Point(x: real, y: real)
  datatype Cell = Cell(cx: int, cy: int)

  const CELL_SIZE: real := 200.0

  function CellOf(p: Point): Cell {
    Cell((p.x / CELL_SIZE).Floor, (p.y / CELL_SIZE).Floor)
  }

  type Positions = map<PlayerId, Point>

  /** The cells a set of positions falls into. */
  function CellsOf(at: Positions): (cells: map<PlayerId, Cell>)
    ensures cells.Keys == at.Keys
  {
    map p | p in at :: CellOf(at[p])
  }

  predicate Adjacent(a: Cell, b: Cell) {
    -1 <= a.cx - b.cx <= 1 && -1 <= a.cy - b.cy <= 1
  }

  /** Brute force: everyone whose cell touches the cell of `id`. */
  function Nearby(at: Positions, id: PlayerId): set<PlayerId> {
    if id in at then set p | p in at && Adjacent(CellOf(at[id]), CellOf(at[p])) else {}
  }

  predicate Within(a: Point, b: Point, d: real) {
    -d <= a.x - b.x <= d && -d <= a.y - b.y <= d
  }

  /** Nearby is symmetric, holds everyone within one cell size on both axes and nobody two or more away on either. */
  lemma NearbyIsNear(at: Positions, p: PlayerId, q: PlayerId)
    requires p in at && q in at
    ensures q in Nearby(at, p) <==> p in Nearby(at, q)
    ensures Within(at[p], at[q], 200.0) ==> q in Nearby(at, p)
    ensures q in Nearby(at, p) ==> -400.0 < at[p].x - at[q].x < 400.0 && -400.0 < at[p].y - at[q].y < 400.0
  {
  }

  type Grid = map<Cell, set<PlayerId>>

  /** The grid is the inverse of the player map, without empty cells. */
  ghost predicate Inverse(grid: Grid, cells: map<PlayerId, Cell>) {
    && (forall c :: c in grid ==> grid[c] != {} && forall p :: p in grid[c] ==> p in cells && cells[p] == c)
    && (forall p :: p in cells ==> cells[p] in grid && p in grid[cells[p]])
  }

  /** grid_[cell].erase(id), dropping the cell if it became empty. */
  function Vacated(grid: Grid, cell: Cell, id: PlayerId): Grid
    requires cell in grid
  {
    if grid[cell] - {id} == {} then grid - {cell} else grid[cell := grid[cell] - {id}]
  }

  function Occupied(grid: Grid, cell: Cell, id: PlayerId): Grid {
    grid[cell := (if cell in grid then grid[cell] else {}) + {id}]
  }

  lemma VacateKeeps(grid: Grid, cells: map<PlayerId, Cell>, id: PlayerId)
    requires Inverse(grid, cells) && id in cells
    ensures Inverse(Vacated(grid, cells[id], id), cells - {id})
  {
  }

  lemma OccupyKeeps(grid: Grid, cells: map<PlayerId, Cell>, id: PlayerId, cell: Cell)
    requires Inverse(grid, cells) && id !in cells
    ensures Inverse(Occupied(grid, cell, id), cells[id := cell])
  {
  }

  class AoiGrid {
    var grid: Grid
    var playerCells: map<PlayerId, Cell>
    ghost var at: Positions  // where each player was last reported

    ghost predicate Valid()
      reads this
    {
      Inverse(grid, playerCells) && playerCells == CellsOf(at)
    }

    constructor ()
      ensures Valid() && at == map[]
    {
      grid, playerCells, at := map[], map[], map[];
    }

    method Update(id: PlayerId, p: Point)
      requires Valid()
      modifies this
      ensures Valid() && at == old(at)[id := p]
    {
      hide Inverse, CellsOf;
      CellsUpdate(at, id, p);
      var cell := CellOf(p);
      at := at[id := p];
      if id in playerCells {
        if playerCells[id] == cell {
          assert playerCells[id := cell] == playerCells;
          return;
        }
        CellPresent(grid, playerCells, id);
        VacateKeeps(grid, playerCells, id);
        grid := grid[playerCells[id] := grid[playerCells[id]] - {id}];
        if grid[playerCells[id]] == {} {
          grid := grid - {playerCells[id]};
        }
        assert grid == Vacated(old(grid), playerCells[id], id);
        assert (playerCells - {id})[id := cell] == playerCells[id := cell];
      } else {
        assert playerCells - {id} == playerCells;
      }
      OccupyKeeps(grid, playerCells - {id}, id, cell);
      grid := Occupied(grid, cell, id);
      playerCells := playerCells[id := cell];
    }

    method Remove(id: PlayerId)
      requires Valid()
      modifies this
      ensures Valid() && at == old(at) - {id}
    {
      hide Inverse, CellsOf;
      CellsUpdate(at, id, Point(0.0, 0.0));
      at := at - {id};
      if id !in playerCells {
        assert playerCells - {id} == playerCells;
        return;
      }
      CellPresent(grid, playerCells, id);
      VacateKeeps(grid, playerCells, id);
      var cell := playerCells[id];
      grid := grid[cell := grid[cell] - {id}];
      if grid[cell] == {} {
        grid := grid - {cell};
      }
      assert grid == Vacated(old(grid), cell, id);
      playerCells := playerCells - {id};
    }

    /** The nine cells around a player; each neighbour is listed exactly once. */
    method GetNearby(id: PlayerId) returns (result: seq<PlayerId>)
      requires Valid()
      ensures Distinct(result)
      ensures forall p :: p in result <==> p in Nearby(at, id)
    {
      hide Inverse, Scanned, CellOf;
      result := [];
      if id !in playerCells {
        return;
      }
      var center := playerCells[id];
      assert forall c :: !Scanned(center, -1, -1, c) && (Scanned(center, 2, -1, c) <==> Adjacent(center, c)) by {
        ScanEnds(center);
      }
      for dx := -1 to 2
        invariant Distinct(result)
        invariant forall p :: p in result <==> p in playerCells && Scanned(center, dx, -1, playerCells[p])
      {
        for dy := -1 to 2
          invariant Distinct(result)
          invariant forall p :: p in result <==> p in playerCells && Scanned(center, dx, dy, playerCells[p])
        {
          var neighbor := Cell(center.cx + dx, center.cy + dy);
          ScanNext(center, dx, dy);
          CellMembers(grid, playerCells, neighbor);
          if neighbor in grid {
            result := Listed(result, grid[neighbor]);
          }
        }
        ScanRow(center, dx);
      }
    }
  }

  lemma CellsUpdate(at: Positions, id: PlayerId, p: Point)
    ensures CellsOf(at[id := p]) == CellsOf(at)[id := CellOf(p)]
    ensures CellsOf(at - {id}) == CellsOf(at) - {id}
  {
  }

  lemma CellPresent(grid: Grid, cells: map<PlayerId, Cell>, id: PlayerId)
    requires Inverse(grid, cells) && id in cells
    ensures cells[id] in grid
  {
  }

  /** The neighbours already visited when the scan reaches (dx, dy). */
  ghost predicate Scanned(center: Cell, dx: int, dy: int, c: Cell) {
    Adjacent(center, c) && (c.cx < center.cx + dx || (c.cx == center.cx + dx && c.cy < center.cy + dy))
  }

  lemma ScanEnds(center: Cell)
    ensures forall c :: !Scanned(center, -1, -1, c) && (Scanned(center, 2, -1, c) <==> Adjacent(center, c))
  {
  }

  lemma ScanNext(center: Cell, dx: int, dy: int)
    requires -1 <= dx <= 1 && -1 <= dy <= 1
    ensures !Scanned(center, dx, dy, Cell(center.cx + dx, center.cy + dy))
    ensures forall c :: Scanned(center, dx, dy + 1, c)
                        <==> Scanned(center, dx, dy, c) || c == Cell(center.cx + dx, center.cy + dy)
  {
  }

  lemma ScanRow(center: Cell, dx: int)
    ensures forall c :: Scanned(center, dx + 1, -1, c) <==> Scanned(center, dx, 2, c)
  {
  }

  lemma CellMembers(grid: Grid, cells: map<PlayerId, Cell>, cell: Cell)
    requires Inverse(grid, cells)
    ensures forall p :: p in cells ==> (cells[p] == cell <==> cell in grid && p in grid[cell])
    ensures cell in grid ==> forall p :: p in grid[cell] ==> p in cells
  {
  }

  /** The inner loop of getNearby: append the members of a cell, in no particular order. */
  method Listed(before: seq<PlayerId>, members: set<PlayerId>) returns (result: seq<PlayerId>)
    requires Distinct(before) && forall p :: p in members ==> p !in before
    ensures Distinct(result)
    ensures forall p :: p in result <==> p in before || p in members
  {
    result := before;
    var todo := members;
    while todo != {}
      invariant todo <= members && Distinct(result)
      invariant forall p :: p in result <==> p in before || p in members - todo
      decreases todo
    {
      var p :| p in todo;
      result := result + [p];
      todo := todo - {p};
    }
  }
}
