/**
 * The board engine (Grid.java): a w x h array of tiles indexed [x, y],
 * the mine count, and the operations that place mines, compute sensor
 * values and reveal tiles.
 *
 * Each method is specified by what it does to `board`, a ghost map from
 * (x, y) to the tile in the array, kept equal to the array by `Valid`.
 * The functions of the Boards, Sensors, Placement and Flood modules say
 * what those boards mean.
 */
module Grids {
  import opened Tiles
  import opened Boards
  import opened Sensors
  import opened Placement
  import opened Flood
  import opened Setup

  /** The only cell `v` marks is `s`: the source marks the flood's start and nothing else. */
  ghost predicate MarksOnly(v: array2<bool>, s: Cell)
    reads v
  {
    forall a, b :: 0 <= a < v.Length0 && 0 <= b < v.Length1 && v[a, b] ==> (a, b) == s
  }

  class Grid {
    var gridWidth: int
    var gridHeight: int
    var numMines: int
    var tiles: array2<Tile>
    /** The contents of `tiles`, as a map from (x, y). */
    ghost var board: Board
    /**
     * Set once `numMines` is the number of mines on the board: after the
     * row-string constructor, and after the generated one when its draws
     * met enough free cells for `numMines` mines.
     */
    ghost var minesCounted: bool

    /**
     * `tiles` is gridWidth x gridHeight, `board` mirrors it, each tile
     * knows its own (x, y), and a counted `numMines` is the number of mines.
     */
    ghost predicate Valid()
      reads this, tiles
    {
      && tiles.Length0 == gridWidth && tiles.Length1 == gridHeight
      && IsGrid(board, gridWidth, gridHeight)
      && (forall a, b {:trigger tiles[a, b]} :: 0 <= a < gridWidth && 0 <= b < gridHeight ==> board[(a, b)] == tiles[a, b])
      && (minesCounted ==> numMines == |Mines(board)|)
    }

    /** The size, the mine count and the array itself stay; only tiles change. */
    twostate predicate SameShape()
      reads this
    {
      && gridWidth == old(gridWidth) && gridHeight == old(gridHeight)
      && numMines == old(numMines) && tiles == old(tiles) && minesCounted == old(minesCounted)
    }

    /**
     * `Grid(gridWidth, gridHeight, seed, numMines)`: a new game board. The
     * random draws of `placeMines` are `samples`, cells on the board.
     */
    constructor (gridWidth: int, gridHeight: int, samples: seq<Cell>, numMines: int)
      requires gridWidth >= 2 && gridHeight >= 2
      requires forall i :: 0 <= i < |samples| ==> 0 <= samples[i].0 < gridWidth && 0 <= samples[i].1 < gridHeight
      ensures Valid()
      ensures this.gridWidth == gridWidth && this.gridHeight == gridHeight && this.numMines == numMines
      ensures StartBoard(board, gridWidth, gridHeight, samples, numMines)
      ensures minesCounted == (numMines >= 0 && |Hits(Free(gridWidth, gridHeight), samples)| >= numMines)
    {
      this.gridWidth := gridWidth;
      this.gridHeight := gridHeight;
      this.numMines := numMines;
      tiles := new Tile[0, 0];
      board := map[];
      minesCounted := false;
      new;
      InitGrid(samples);
      MarkCounted(numMines >= 0 && |Hits(Free(gridWidth, gridHeight), samples)| >= numMines);
    }

    /** Records whether `numMines` is now the number of mines on the board; nothing else changes. */
    ghost method MarkCounted(counted: bool)
      requires Valid() && (counted ==> numMines == |Mines(board)|)
      modifies this
      ensures Valid() && minesCounted == counted
      ensures board == old(board) && numMines == old(numMines) && tiles == old(tiles)
      ensures gridWidth == old(gridWidth) && gridHeight == old(gridHeight)
    {
      minesCounted := counted;
    }

    /**
     * `Grid(String input)`, given the input already split into rows: the
     * height is the number of rows, the width the length of the first row,
     * tile (x, y) is a mine exactly when `rows[y][x]` is '1', and
     * `numMines` counts the mines. `initGrid` runs first and its board is
     * then overwritten, so every tile is new: hidden, unflagged, value 0.
     */
    constructor FromRows(rows: seq<string>)
      requires |rows| >= 2 && RowsFit(rows, |rows[0]|)
      ensures Valid()
      ensures gridHeight == |rows| && gridWidth == |rows[0]|
      ensures board == RowsBoard(rows, gridWidth)
      ensures Mines(board) == Ones(rows, gridWidth) && numMines == |Mines(board)|
      ensures minesCounted
    {
      gridHeight := |rows|;
      gridWidth := |rows[0]|;
      tiles := new Tile[|rows[0]|, |rows|];
      numMines := 0;
      board := map[];
      minesCounted := false;
      new;
      InitGrid([]);
      ParseRows(rows);
      RowsBoardFacts(rows, gridWidth);
      MarkCounted(true);
    }

    /** The loops of `Grid(String)`, rows outer and columns inner: every tile replaced as the rows say. */
    method ParseRows(rows: seq<string>)
      requires Valid() && |rows| == gridHeight && RowsFit(rows, gridWidth) && numMines == 0 && !minesCounted
      modifies this, tiles
      ensures Valid() && SameSize()
      ensures board == RowsBoard(rows, gridWidth)
      ensures numMines == |Mines(board)|
    {
      for y := 0 to gridHeight
        invariant Valid() && SameSize()
        invariant RowsUpTo(board, rows, 0, y)
        invariant numMines == |Parsed(board, 0, y)|
      {
        for x := 0 to gridWidth
          invariant Valid() && SameSize()
          invariant RowsUpTo(board, rows, x, y)
          invariant numMines == |Parsed(board, x, y)|
        {
          ParseTile(rows, x, y);
        }
        ParsedRow(board, gridWidth, gridHeight, y);
        RowsUpToRow(board, rows, gridWidth, y);
      }
      ParsedAll(board, gridWidth, gridHeight);
      RowsUpToAll(board, rows, gridWidth);
    }

    /** The body of the loops of `Grid(String)`: a new tile at (x, y), a mine when `rows[y][x]` is '1', counted. */
    method ParseTile(rows: seq<string>, x: int, y: int)
      requires Valid() && 0 <= x < gridWidth && 0 <= y < gridHeight
      requires y < |rows| && x < |rows[y]|
      requires RowsUpTo(board, rows, x, y) && numMines == |Parsed(board, x, y)| && !minesCounted
      modifies this, tiles
      ensures Valid() && SameSize()
      ensures board == old(board)[(x, y) := RowTile(rows, (x, y))]
      ensures RowsUpTo(board, rows, x + 1, y) && numMines == |Parsed(board, x + 1, y)|
    {
      var c := rows[y][x];
      var tile := NewTile(x, y);
      tile := tile.(kind := if c == '1' then MINE else EMPTY);
      ghost var b := board;
      SetTile(x, y, tile);
      ParsedStep(b, x, y, tile);
      RowsUpToStep(b, rows, x, y);
      if c == '1' {
        numMines := numMines + 1;
      }
    }

    /**
     * `initGrid`: allocate new tiles, put the exit in the far corner,
     * reserve the 2x2 block, place the mines, clear the block, count the
     * hints and reveal (0,0) and (1,1).
     */
    method InitGrid(samples: seq<Cell>)
      requires gridWidth >= 2 && gridHeight >= 2
      requires forall i :: 0 <= i < |samples| ==> 0 <= samples[i].0 < gridWidth && 0 <= samples[i].1 < gridHeight
      modifies this
      ensures Valid() && fresh(tiles) && !minesCounted
      ensures gridWidth == old(gridWidth) && gridHeight == old(gridHeight) && numMines == old(numMines)
      ensures StartBoard(board, gridWidth, gridHeight, samples, numMines)
    {
      AllocateTiles();
      ReserveCorners();
      PlaceMines(samples);
      ClearBlock();
      CalculateSensorValues();
      assert board == Sensed(gridWidth, gridHeight, samples, numMines);
      var hit0 := RevealTile(0, 0);
      ghost var mid := board;
      var hit1 := RevealTile(1, 1);
      InitGridOutcome(gridWidth, gridHeight, samples, numMines, mid, board, hit0, hit1);
    }

    /** The allocation loops of `initGrid`: a new tile at every cell. */
    method AllocateTiles()
      requires gridWidth >= 0 && gridHeight >= 0
      modifies this
      ensures Valid() && fresh(tiles) && !minesCounted
      ensures gridWidth == old(gridWidth) && gridHeight == old(gridHeight) && numMines == old(numMines)
      ensures board == FreshBoard(gridWidth, gridHeight)
    {
      minesCounted := false;
      tiles := new Tile[gridWidth, gridHeight];
      for x := 0 to gridWidth
        invariant forall a, b :: 0 <= a < x && 0 <= b < gridHeight ==> tiles[a, b] == NewTile(a, b)
        modifies tiles
      {
        for y := 0 to gridHeight
          invariant forall a, b :: 0 <= a < x && 0 <= b < gridHeight ==> tiles[a, b] == NewTile(a, b)
          invariant forall b :: 0 <= b < y ==> tiles[x, b] == NewTile(x, b)
          modifies tiles
        {
          tiles[x, y] := NewTile(x, y);
        }
      }
      board := FreshBoard(gridWidth, gridHeight);
      FreshBoardFacts(gridWidth, gridHeight);
    }

    /** `initGrid` before placement: the exit in the far corner, then the 2x2 block reserved. */
    method ReserveCorners()
      requires Valid() && gridWidth >= 2 && gridHeight >= 2 && !minesCounted
      requires board == FreshBoard(gridWidth, gridHeight)
      modifies this, tiles
      ensures Valid() && SameShape()
      ensures board == Prepared(gridWidth, gridHeight)
    {
      ghost var w, h, b0 := gridWidth, gridHeight, board;
      SetType(gridWidth - 1, gridHeight - 1, EXIT);
      ghost var b1 := board;
      assert b1 == SetKind(b0, (w - 1, h - 1), EXIT);
      SetType(0, 0, RESERVED);
      ghost var b2 := board;
      assert b2 == SetKind(b1, (0, 0), RESERVED);
      SetType(1, 0, RESERVED);
      ghost var b3 := board;
      assert b3 == SetKind(b2, (1, 0), RESERVED);
      SetType(0, 1, RESERVED);
      ghost var b4 := board;
      assert b4 == SetKind(b3, (0, 1), RESERVED);
      SetType(1, 1, RESERVED);
      assert board == SetKind(b4, (1, 1), RESERVED);
      assert b0 == FreshBoard(w, h);
      PreparedSteps(w, h, b0, b1, b2, b3, b4, board);
    }

    /** `initGrid` after placement: the 2x2 block back to EMPTY. */
    method ClearBlock()
      requires Valid() && gridWidth >= 2 && gridHeight >= 2 && !minesCounted
      modifies this, tiles
      ensures Valid() && SameShape()
      ensures board == Cleared(old(board))
    {
      SetType(0, 0, EMPTY);
      SetType(0, 1, EMPTY);
      SetType(1, 0, EMPTY);
      SetType(1, 1, EMPTY);
    }

    /** The size and the array itself stay; the mine count may change. */
    twostate predicate SameSize()
      reads this
    {
      gridWidth == old(gridWidth) && gridHeight == old(gridHeight) && tiles == old(tiles) && minesCounted == old(minesCounted)
    }

    /** `getGridWidth`: the number of columns. */
    function GetGridWidth(): (w: int)
      reads this, tiles
      requires Valid()
      ensures w == tiles.Length0
      ensures forall c :: c in board ==> 0 <= c.0 < w
    {
      gridWidth
    }

    /** `getGridHeight`: the number of rows. */
    function GetGridHeight(): (h: int)
      reads this, tiles
      requires Valid()
      ensures h == tiles.Length1
      ensures forall c :: c in board ==> 0 <= c.1 < h
    {
      gridHeight
    }

    /** `getNumMines`: the mine count the grid was built with, which is the number of mines on the board once counted. */
    function GetNumMines(): (n: int)
      reads this, tiles
      requires Valid()
      ensures n == numMines
      ensures minesCounted ==> n == |Mines(board)|
    {
      numMines
    }

    /** `getTile(x, y)`: the tile at (x, y); the source fails outside the board. */
    function GetTile(x: int, y: int): (t: Tile)
      reads this, tiles
      requires Valid() && 0 <= x < gridWidth && 0 <= y < gridHeight
      ensures (x, y) in board && t == board[(x, y)]
      ensures t.x == x && t.y == y
    {
      tiles[x, y]
    }

    /** Stores `t` at (x, y): how the source's assignments to a tile's fields are written here. */
    method SetTile(x: int, y: int, t: Tile)
      requires Valid() && 0 <= x < gridWidth && 0 <= y < gridHeight && t.x == x && t.y == y
      requires minesCounted ==> t.kind == board[(x, y)].kind
      modifies this, tiles
      ensures Valid() && SameShape()
      ensures board == old(board)[(x, y) := t]
    {
      if minesCounted {
        SameKindKeepsMines(board, (x, y), t);
      }
      tiles[x, y] := t;
      board := board[(x, y) := t];
    }

    /** `tiles[x][y].type = k`. */
    method SetType(x: int, y: int, k: int)
      requires Valid() && 0 <= x < gridWidth && 0 <= y < gridHeight && !minesCounted
      modifies this, tiles
      ensures Valid() && SameShape()
      ensures board == SetKind(old(board), (x, y), k)
    {
      SetTile(x, y, tiles[x, y].(kind := k));
    }

    /** `updateAdjacentSensorValues(x, y)`: every neighbour of (x, y) on the board gains one. */
    method UpdateAdjacentSensorValues(x: int, y: int)
      requires Valid()
      modifies this, tiles
      ensures Valid() && SameShape()
      ensures board == Bump(old(board), (x, y))
    {
      for dx := -1 to 2
        invariant Valid() && SameShape()
        invariant board == Bumped(old(board), (x, y), dx, -1)
      {
        for dy := -1 to 2
          invariant Valid() && SameShape()
          invariant board == Bumped(old(board), (x, y), dx, dy)
        {
          RaiseNeighbour(x, y, dx, dy);
        }
      }
      BumpedAll(old(board), (x, y));
    }

    /** The body of the loops of `updateAdjacentSensorValues`: raise the neighbour at offset (dx, dy). */
    method RaiseNeighbour(x: int, y: int, dx: int, dy: int)
      requires Valid()
      modifies this, tiles
      ensures Valid() && SameShape()
      ensures board == BumpOne(old(board), (x, y), (dx, dy))
    {
      if dx == 0 && dy == 0 {
        return;
      }
      var nx, ny := x + dx, y + dy;
      if 0 <= nx < gridWidth && 0 <= ny < gridHeight {
        SetTile(nx, ny, tiles[nx, ny].(sensorValue := tiles[nx, ny].sensorValue + 1));
      }
    }

    /**
     * `calculateSensorValues`: for each mine, in column order, raise its
     * neighbours. Starting from zero values this makes every value the
     * number of mines around the tile.
     */
    method CalculateSensorValues()
      requires Valid()
      modifies this, tiles
      ensures Valid() && SameShape()
      ensures board == SensorPass(old(board), gridHeight, gridWidth, 0)
      ensures (forall c :: c in old(board) ==> old(board)[c].sensorValue == 0) ==>
        && HintsExact(board)
        && (forall c :: c in board ==> board[c] == old(board)[c].(sensorValue := board[c].sensorValue))
    {
      for x := 0 to gridWidth
        invariant Valid() && SameShape()
        invariant board == SensorPass(old(board), gridHeight, x, 0)
      {
        for y := 0 to gridHeight
          invariant Valid() && SameShape()
          invariant board == SensorPass(old(board), gridHeight, x, y)
        {
          if GetTile(x, y).kind == MINE {
            UpdateAdjacentSensorValues(x, y);
          }
        }
      }
      if forall c :: c in old(board) ==> old(board)[c].sensorValue == 0 {
        SensorPassExact(old(board), gridWidth, gridHeight);
      }
    }

    /**
     * `placeMines`: draw cells and turn each drawn EMPTY tile into a mine
     * until `numMines` are placed. The draws are `samples`; the loop also
     * stops when they run out.
     */
    method PlaceMines(samples: seq<Cell>)
      requires Valid() && !minesCounted
      requires forall i :: 0 <= i < |samples| ==> 0 <= samples[i].0 < gridWidth && 0 <= samples[i].1 < gridHeight
      modifies this, tiles
      ensures Valid() && SameShape()
      ensures board == PlaceAll(old(board), samples, numMines)
    {
      var placed := 0;
      var i := 0;
      while placed < numMines && i < |samples|
        invariant 0 <= i <= |samples|
        invariant Valid() && SameShape()
        invariant PlaceAll(board, samples[i..], numMines - placed) == PlaceAll(old(board), samples, numMines)
      {
        var (x, y) := samples[i];
        assert samples[i..] == [(x, y)] + samples[i + 1..];
        i := i + 1;
        if GetTile(x, y).kind == EMPTY {
          SetTile(x, y, tiles[x, y].(kind := MINE));
          placed := placed + 1;
        }
      }
    }

    /**
     * `revealTile(x, y)`: reveal the tile, report whether it is a mine, and
     * flood from it when it is a safe tile with no mine around.
     */
    method RevealTile(x: int, y: int) returns (hit: bool)
      requires Valid() && 0 <= x < gridWidth && 0 <= y < gridHeight
      modifies this, tiles
      ensures Valid() && SameShape()
      ensures RevealOutcome(old(board), board, (x, y), hit)
    {
      var tile := GetTile(x, y);
      SetTile(x, y, tile.(hidden := false));
      if tile.kind == MINE {
        return true;
      }
      if tile.sensorValue == 0 {
        ghost var entered := RevealAdjacentTiles(tile.x, tile.y);
        FloodShift(old(board), board, (x, y));
      }
      return false;
    }

    /**
     * `revealAdjacentTiles`: the queue-based flood from the revealed tile
     * (sx, sy). Only the start is ever marked visited. `entered` lists the
     * tiles in the order they entered the queue.
     */
    method RevealAdjacentTiles(sx: int, sy: int) returns (ghost entered: seq<Cell>)
      requires Valid() && 0 <= sx < gridWidth && 0 <= sy < gridHeight
      requires !board[(sx, sy)].hidden
      modifies this, tiles
      ensures Valid() && SameShape()
      ensures FloodDone(old(board), board, (sx, sy))
      ensures NoDup(entered)
      ensures forall c :: c in entered <==> c == (sx, sy) || Newly(old(board), board, c)
    {
      var s := (sx, sy);
      var toVisit := [s];
      var visited := new bool[gridWidth, gridHeight]((_, _) => false);
      ghost var done: seq<Cell> := [];
      ghost var parent: map<Cell, Cell> := map[];
      FloodStart(board, s);
      while toVisit != []
        invariant Valid() && SameShape()
        invariant visited.Length0 == gridWidth && visited.Length1 == gridHeight
        invariant MarksOnly(visited, s)
        invariant FloodInv(old(board), board, s, toVisit, done, parent)
        decreases Pending(board, toVisit), |toVisit|
      {
        toVisit, done, parent := VisitNext(old(board), s, toVisit, visited, done, parent);
      }
      FloodFinish(old(board), board, s, done, parent);
      entered := done;
    }

    /**
     * One turn of the `revealAdjacentTiles` loop: poll the head of the
     * queue, mark the start visited, reveal the tile and, when no mine is
     * around it, scan its neighbours. Keeps the flood invariant and
     * shrinks the work left.
     */
    method VisitNext(ghost b0: Board, s: Cell, toVisit: seq<Cell>, visited: array2<bool>,
                     ghost done: seq<Cell>, ghost parent: map<Cell, Cell>)
      returns (r: seq<Cell>, ghost done1: seq<Cell>, ghost parent1: map<Cell, Cell>)
      requires Valid() && toVisit != [] && 0 <= s.0 < gridWidth && 0 <= s.1 < gridHeight
      requires visited.Length0 == gridWidth && visited.Length1 == gridHeight && MarksOnly(visited, s)
      requires FloodInv(b0, board, s, toVisit, done, parent)
      modifies this, tiles, visited
      ensures Valid() && SameShape() && MarksOnly(visited, s)
      ensures FloodInv(b0, board, s, r, done1, parent1)
      ensures Pending(board, r) < Pending(old(board), toVisit)
        || (Pending(board, r) == Pending(old(board), toVisit) && |r| < |toVisit|)
    {
      var t := toVisit[0];
      r := toVisit[1..];
      visited[s.0, s.1] := true;
      assert MarksOnly(visited, s);
      var tile := GetTile(t.0, t.1);
      SetTile(t.0, t.1, tile.(hidden := false));
      parent1 := parent;
      if tile.sensorValue == 0 {
        r := ScanAround(t.0, t.1, r, visited, s);
        parent1 := Adopt(parent, r[|toVisit| - 1..], t);
      }
      done1 := done + [t];
      FloodRound(b0, old(board), s, toVisit, done, parent, board, r, done1, parent1);
    }

    /**
     * The scan loops of `revealAdjacentTiles` around the dequeued tile
     * (tx, ty): queue each neighbour on the board that is not visited, not
     * queued, hidden and unflagged. `visited` marks exactly `s`.
     */
    method ScanAround(tx: int, ty: int, toVisit: seq<Cell>, visited: array2<bool>, ghost s: Cell) returns (q: seq<Cell>)
      requires Valid()
      requires visited.Length0 == gridWidth && visited.Length1 == gridHeight
      requires MarksOnly(visited, s) && 0 <= s.0 < gridWidth && 0 <= s.1 < gridHeight && visited[s.0, s.1]
      ensures Valid() && MarksOnly(visited, s)
      ensures q == Scanned(board, s, toVisit, (tx, ty), 2, -1)
    {
      q := toVisit;
      for dx := -1 to 2
        invariant q == Scanned(board, s, toVisit, (tx, ty), dx, -1)
      {
        for dy := -1 to 2
          invariant q == Scanned(board, s, toVisit, (tx, ty), dx, dy)
        {
          q := VisitNeighbour(tx, ty, dx, dy, q, visited, s);
        }
      }
    }

    /**
     * The body of the scan loops of `revealAdjacentTiles`: queue the
     * neighbour of (tx, ty) at offset (dx, dy) unless it is off the board,
     * visited, queued, revealed or flagged.
     */
    method VisitNeighbour(tx: int, ty: int, dx: int, dy: int, q: seq<Cell>, visited: array2<bool>, ghost s: Cell) returns (q': seq<Cell>)
      requires Valid()
      requires visited.Length0 == gridWidth && visited.Length1 == gridHeight
      requires MarksOnly(visited, s) && 0 <= s.0 < gridWidth && 0 <= s.1 < gridHeight && visited[s.0, s.1]
      ensures q' == Visit(board, s, q, (tx, ty), (dx, dy))
    {
      q' := q;
      var nx, ny := tx + dx, ty + dy;
      if 0 <= nx < gridWidth && 0 <= ny < gridHeight {
        var adjacent := GetTile(nx, ny);
        if visited[adjacent.x, adjacent.y] || (adjacent.x, adjacent.y) in q {
          return;
        }
        if !adjacent.hidden || adjacent.flagged {
          return;
        }
        q' := q + [(adjacent.x, adjacent.y)];
      }
    }
  }
}
