/** The level data the game loads, and the lookup structures it derives from
    that data once per load (the non-rendering part of initMap in js/game.js). */
module LevelIndex {
  import opened Wrappers

  /** One entry of a level's cellTypes list: the map character it describes and
      whether the player may stand on such a cell. Its colour and image only
      style the rendered cells and are not modelled. */
  datatype CellType = CellType(ch: char, isWalkable: bool)

  /** Where a new-level action sends the player: the level number and the start
      coordinates the action gives, each of which may be missing. */
  datatype LevelRequest = LevelRequest(level: int, startX: Option<int>, startY: Option<int>)

  /** The action of an action cell. An item without addGold (the inventory stub)
      and an action of any other type match their cell but have no effect. */
  datatype Action =
    | NewLevel(target: LevelRequest)
    | Item(addGold: Option<int>)
    | Unrecognised

  /** An entry of a level's actionCells list. A collected item is overwritten
      with an empty object, which carries no coordinates and so matches no cell. */
  datatype ActionSlot = Cell(x: int, y: int, action: Action) | Consumed

  /** A parsed level file: the map (called grid here, since map is a Dafny keyword) as rows of cell characters, the cell types and
      the action cells. Rows need not have the same length. */
  datatype Level = Level(grid: seq<string>, cellTypes: seq<CellType>, actionCells: seq<ActionSlot>)

  // ---------------------------------------------------------------------------
  // walkableIndex

  /** The characters of the walkable cell types, in cellTypes order. */
  function WalkableChars(cellTypes: seq<CellType>): (w: seq<char>)
    ensures |w| <= |cellTypes|
    ensures forall c :: c in w <==>
      exists i :: 0 <= i < |cellTypes| && cellTypes[i].ch == c && cellTypes[i].isWalkable
  {
    if cellTypes == [] then []
    else
      var init, last := cellTypes[..|cellTypes| - 1], cellTypes[|cellTypes| - 1];
      assert forall i :: 0 <= i < |init| ==> init[i] == cellTypes[i];
      WalkableChars(init) + (if last.isWalkable then [last.ch] else [])
  }

  /** The walkable characters of two lists of cell types one after the other are
      those of the first list followed by those of the second: the index keeps
      the order of cellTypes. */
  lemma {:induction false} WalkableCharsAppend(a: seq<CellType>, b: seq<CellType>)
    ensures WalkableChars(a + b) == WalkableChars(a) + WalkableChars(b)
    decreases |b|
  {
    if b == [] {
      assert a + b == a;
    } else {
      var b' := b[..|b| - 1];
      assert (a + b)[..|a + b| - 1] == a + b';
      WalkableCharsAppend(a, b');
    }
  }

  /** Builds walkableIndex by pushing the character of every walkable cell type. */
  method BuildWalkableIndex(cellTypes: seq<CellType>) returns (w: seq<char>)
    ensures w == WalkableChars(cellTypes)
  {
    w := [];
    var i := 0;
    while i < |cellTypes|
      invariant 0 <= i <= |cellTypes|
      invariant w == WalkableChars(cellTypes[..i])
    {
      if cellTypes[i].isWalkable {
        w := w + [cellTypes[i].ch];
      }
      assert cellTypes[..i + 1][..i] == cellTypes[..i];
      i := i + 1;
    }
    assert cellTypes[..i] == cellTypes;
  }

  // ---------------------------------------------------------------------------
  // pathGraph

  /** One row of the path graph: 1 for each character of the map row that is in
      walkableIndex, 0 for every other. */
  function PathRow(row: string, walkable: seq<char>): (r: seq<int>)
    ensures |r| == |row|
    ensures forall x :: 0 <= x < |row| ==> r[x] == if row[x] in walkable then 1 else 0
  {
    if row == [] then []
    else
      var init := row[..|row| - 1];
      assert forall x :: 0 <= x < |init| ==> init[x] == row[x];
      PathRow(init, walkable) + [if row[|row| - 1] in walkable then 1 else 0]
  }

  /** The 0/1 path graph: as many rows as the map, each as long as its map row. */
  function PathGraphOf(m: seq<string>, walkable: seq<char>): (g: seq<seq<int>>)
    ensures |g| == |m|
    ensures forall y :: 0 <= y < |m| ==> g[y] == PathRow(m[y], walkable)
  {
    if m == [] then []
    else
      var init := m[..|m| - 1];
      assert forall y :: 0 <= y < |init| ==> init[y] == m[y];
      PathGraphOf(init, walkable) + [PathRow(m[|m| - 1], walkable)]
  }

  /** Builds pathGraph row by row and cell by cell, as initMap's nested loops do. */
  method BuildPathGraph(m: seq<string>, walkable: seq<char>) returns (g: seq<seq<int>>)
    ensures g == PathGraphOf(m, walkable)
  {
    g := [];
    var y := 0;
    while y < |m|
      invariant 0 <= y <= |m|
      invariant g == PathGraphOf(m[..y], walkable)
    {
      var row := m[y];
      var pathRow: seq<int> := [];
      var x := 0;
      while x < |row|
        invariant 0 <= x <= |row|
        invariant pathRow == PathRow(row[..x], walkable)
      {
        if row[x] !in walkable {
          pathRow := pathRow + [0];
        } else {
          pathRow := pathRow + [1];
        }
        assert row[..x + 1][..x] == row[..x];
        x := x + 1;
      }
      assert row[..x] == row;
      g := g + [pathRow];
      assert m[..y + 1][..y] == m[..y];
      y := y + 1;
    }
    assert m[..y] == m;
  }

  // ---------------------------------------------------------------------------
  // actionIndex

  /** The coordinates of the action cells; js/game.js keys them as "x-y" strings. */
  function ActionKeys(cells: seq<ActionSlot>): (keys: set<(int, int)>)
    ensures forall p :: p in keys <==>
      exists i :: 0 <= i < |cells| && cells[i].Cell? && (cells[i].x, cells[i].y) == p
  {
    if cells == [] then {}
    else
      var init, last := cells[..|cells| - 1], cells[|cells| - 1];
      assert forall i :: 0 <= i < |init| ==> init[i] == cells[i];
      ActionKeys(init) + (if last.Cell? then {(last.x, last.y)} else {})
  }

  /** Builds actionIndex by adding the coordinates of every action cell. */
  method BuildActionIndex(cells: seq<ActionSlot>) returns (keys: set<(int, int)>)
    ensures keys == ActionKeys(cells)
  {
    keys := {};
    var i := 0;
    while i < |cells|
      invariant 0 <= i <= |cells|
      invariant keys == ActionKeys(cells[..i])
    {
      if cells[i].Cell? {
        keys := keys + {(cells[i].x, cells[i].y)};
      }
      assert cells[..i + 1][..i] == cells[..i];
      i := i + 1;
    }
    assert cells[..i] == cells;
  }

  // ---------------------------------------------------------------------------
  // isWalkable

  /** Whether the map character at (x, y) is in walkableIndex. A row outside the
      map makes js/game.js throw (map[y] is undefined), shown here as None; a
      column outside the row reads the empty string, which is never walkable. */
  function IsWalkable(m: seq<string>, walkable: seq<char>, x: int, y: int): (r: Option<bool>)
    ensures r.None? <==> y < 0 || |m| <= y
    ensures r == Some(true) <==> 0 <= y < |m| && 0 <= x < |m[y]| && m[y][x] in walkable
  {
    if 0 <= y < |m| then Some(0 <= x < |m[y]| && m[y][x] in walkable) else None
  }

  /** isWalkable agrees with the path graph built from the same index: on a map
      row, a cell is walkable exactly when its path-graph entry is 1, and a
      column outside the row is not walkable. */
  lemma IsWalkableMatchesPathGraph(m: seq<string>, walkable: seq<char>, x: int, y: int)
    requires 0 <= y < |m|
    ensures var g := PathGraphOf(m, walkable);
      IsWalkable(m, walkable, x, y) == Some(0 <= x < |g[y]| && g[y][x] == 1)
  {
  }

  /** With the index built from the cell types, a cell is walkable exactly when
      some walkable cell type has its character. */
  lemma IsWalkableByCellType(lvl: Level, x: int, y: int)
    requires 0 <= y < |lvl.grid|
    ensures IsWalkable(lvl.grid, WalkableChars(lvl.cellTypes), x, y) == Some(true) <==>
      0 <= x < |lvl.grid[y]| &&
      exists i :: 0 <= i < |lvl.cellTypes| && lvl.cellTypes[i].ch == lvl.grid[y][x] && lvl.cellTypes[i].isWalkable
  {
  }
}
