/**
 * The game controller (SlavaDukerani.java): the grid, the player and the
 * sensor, the game-over state, and the key and mouse handling that moves,
 * flags, reveals and chords. Listeners are modelled by `events`, the list
 * of reports the round has fired. Each method is specified by a relation
 * of the Rules module between the snapshots before and after it.
 */
module Game {
  import opened Tiles
  import opened Boards
  import opened Placement
  import opened Setup
  import opened Rules
  import opened Grids

  class SlavaDukerani {
    const grid: Grid
    var px: int
    var py: int
    var sx: int
    var sy: int
    var gameOver: bool
    var youWon: bool
    /** Every report fired to the flag and game-over listeners, oldest first. */
    var events: seq<Event>

    /** The round as a value. */
    ghost function Snapshot(): Round
      reads this, grid
    {
      Round(grid.board, grid.gridWidth, grid.gridHeight, (px, py), (sx, sy), Status(gameOver, youWon, events))
    }

    /** The grid is well formed and the round keeps its invariant. */
    ghost predicate Valid()
      reads this, grid, grid.tiles
    {
      grid.Valid() && RoundInv(Snapshot())
    }

    /**
     * `SlavaDukerani(gridWidth, gridHeight, seed, numMines)`: a new game on
     * a generated board (the random draws are `samples`), the player at
     * (0,0) and the sensor at (1,1).
     */
    constructor (gridWidth: int, gridHeight: int, samples: seq<Cell>, numMines: int)
      requires gridWidth >= 2 && gridHeight >= 2
      requires forall i :: 0 <= i < |samples| ==> 0 <= samples[i].0 < gridWidth && 0 <= samples[i].1 < gridHeight
      ensures Valid()
      ensures Snapshot() == StartRound(grid.board, gridWidth, gridHeight)
      ensures StartBoard(grid.board, gridWidth, gridHeight, samples, numMines)
      ensures grid.numMines == numMines
      ensures grid.minesCounted == (numMines >= 0 && |Hits(Free(gridWidth, gridHeight), samples)| >= numMines)
    {
      grid := new Grid(gridWidth, gridHeight, samples, numMines);
      px, py := 0, 0;
      sx, sy := 1, 1;
      gameOver, youWon := false, false;
      events := [];
    }

    /** `SlavaDukerani(gridString)`: a new game on a board read from rows of '0' and '1'. */
    constructor FromRows(rows: seq<string>)
      requires |rows| >= 2 && RowsFit(rows, |rows[0]|)
      ensures Valid()
      ensures Snapshot() == StartRound(grid.board, |rows[0]|, |rows|)
      ensures grid.board == RowsBoard(rows, |rows[0]|)
      ensures grid.minesCounted && grid.numMines == |Mines(grid.board)|
    {
      grid := new Grid.FromRows(rows);
      px, py := 0, 0;
      sx, sy := 1, 1;
      gameOver, youWon := false, false;
      events := [];
    }

    /** `fireGameOver(won)`: the game ends with `won` and the listeners hear it. */
    method FireGameOver(won: bool)
      modifies this
      ensures Snapshot() == old(Snapshot()).(status := Fire(old(Snapshot()).status, won))
    {
      gameOver := true;
      youWon := won;
      events := events + [GameOver(won)];
    }

    /** `fireFlagChanged`: count the flags on the board and report the count. */
    method FireFlagChanged()
      requires grid.Valid()
      modifies this
      ensures Snapshot() == old(Snapshot()).(status := FlagReport(old(Snapshot()).status, FlagCount(grid.board)))
    {
      var numFlags := CountFlags();
      events := events + [FlagCountChanged(numFlags)];
    }

    /** The counting loops of `fireFlagChanged`, column by column. */
    method CountFlags() returns (numFlags: nat)
      requires grid.Valid()
      ensures numFlags == FlagCount(grid.board)
    {
      var b := grid.board;
      numFlags := 0;
      assert FlaggedBefore(b, 0, 0) == {};
      for x := 0 to grid.GetGridWidth()
        invariant numFlags == |FlaggedBefore(b, x, 0)|
      {
        for y := 0 to grid.GetGridHeight()
          invariant numFlags == |FlaggedBefore(b, x, y)|
        {
          FlaggedStep(b, x, y);
          if grid.GetTile(x, y).flagged {
            numFlags := numFlags + 1;
          }
        }
        FlaggedColumn(b, grid.gridWidth, grid.gridHeight, x);
      }
      FlaggedAll(b, grid.gridWidth, grid.gridHeight);
    }

    /**
     * `movePlayer(dx, dy)`: step the player by (dx, dy), revealing a hidden
     * destination, ending the game on a mine or the exit, and pushing the
     * sensor when stepping onto it.
     */
    method MovePlayer(dx: int, dy: int)
      requires Valid()
      modifies this, grid, grid.tiles
      ensures Valid() && grid.SameShape()
      ensures Moved(old(Snapshot()), Snapshot(), dx, dy)
    {
      var x := px + dx;
      var y := py + dy;
      if x < 0 || x >= grid.GetGridWidth() || y < 0 || y >= grid.GetGridHeight() {
        return;
      }
      ghost var r0 := Snapshot();
      EnterTile(x, y);
      ghost var e := Snapshot();
      assert (x, y) == (r0.player.0 + dx, r0.player.1 + dy) && e.sensor == r0.sensor;
      if sx == x && sy == y {
        var bx2 := sx + dx;
        var by2 := sy + dy;
        if bx2 < 0 || bx2 >= grid.GetGridWidth() || by2 < 0 || by2 >= grid.GetGridHeight() {
          MovedByParts(r0, e, e, dx, dy);
          return;
        }
        PushSensor(bx2, by2);
      }
      px, py := x, y;
      MovedByParts(r0, e, Snapshot(), dx, dy);
    }

    /**
     * The first half of `movePlayer`, on the destination (x, y): reveal it
     * when hidden (a mine found is a loss), then a mine is a loss and the
     * exit a win. The player and the sensor stay where they are.
     */
    method EnterTile(x: int, y: int)
      requires Valid() && 0 <= x < grid.gridWidth && 0 <= y < grid.gridHeight
      modifies this, grid, grid.tiles
      ensures grid.Valid() && grid.SameShape()
      ensures Entered(old(grid.board), grid.board, (x, y))
      ensures Snapshot() == old(Snapshot()).(board := grid.board, status := Stepped(old(Snapshot()).status, old(grid.board)[(x, y)]))
    {
      var tile := grid.GetTile(x, y);
      if tile.hidden {
        var hit := grid.RevealTile(tile.x, tile.y);
        if hit {
          FireGameOver(false);
        }
      }
      assert Snapshot().status == LossIf(old(Snapshot()).status, tile.hidden && tile.kind == MINE);
      if tile.kind == MINE {
        FireGameOver(false);
      } else if tile.kind == EXIT {
        FireGameOver(true);
      }
    }

    /** The sensor's push in `movePlayer` onto its new cell (x, y): a mine there is a loss, the exit a win. */
    method PushSensor(x: int, y: int)
      requires grid.Valid() && 0 <= x < grid.gridWidth && 0 <= y < grid.gridHeight
      modifies this
      ensures Snapshot() == old(Snapshot()).(sensor := (x, y), status := Landed(old(Snapshot()).status, grid.board[(x, y)]))
    {
      var tile2 := grid.GetTile(x, y);
      if tile2.kind == MINE {
        FireGameOver(false);
      }
      assert Snapshot().status == LossIf(old(Snapshot()).status, tile2.kind == MINE);
      if tile2.kind == EXIT {
        FireGameOver(true);
      }
      sx, sy := x, y;
    }

    /**
     * The scan loops of `doChord` around (x, y): the number of flagged
     * neighbours, and the hidden ones in the order the loops meet them.
     */
    method SurveyAround(x: int, y: int) returns (adjacentFlags: nat, adjacentHidden: seq<Cell>)
      requires grid.Valid()
      ensures adjacentFlags == FlagsAround(grid.board, (x, y))
      ensures adjacentHidden == ChordList(grid.board, (x, y))
      ensures forall n :: n in adjacentHidden <==> n in grid.board && Near((x, y), n) && grid.board[n].hidden
    {
      var b := grid.board;
      var m := (x, y);
      adjacentFlags := 0;
      adjacentHidden := [];
      assert FlagsSoFar(b, m, -1, -1) == {};
      for dx := -1 to 2
        invariant adjacentFlags == |FlagsSoFar(b, m, dx, -1)|
        invariant adjacentHidden == HiddenList(b, m, dx, -1)
      {
        for dy := -1 to 2
          invariant adjacentFlags == |FlagsSoFar(b, m, dx, dy)|
          invariant adjacentHidden == HiddenList(b, m, dx, dy)
        {
          adjacentFlags, adjacentHidden := ScanNeighbour(x, y, dx, dy, adjacentFlags, adjacentHidden);
        }
        FlagsSoFarRow(b, m, dx);
      }
      FlagsSoFarRow(b, m, 2);
      ChordListMembers(b, m);
    }

    /** One pass of the scan loops of `doChord`: count the neighbour at offset (dx, dy) when flagged, list it when hidden. */
    method ScanNeighbour(x: int, y: int, dx: int, dy: int, flags: nat, listed: seq<Cell>) returns (flags': nat, listed': seq<Cell>)
      requires grid.Valid() && -1 <= dx <= 1 && -1 <= dy <= 1
      requires flags == |FlagsSoFar(grid.board, (x, y), dx, dy)| && listed == HiddenList(grid.board, (x, y), dx, dy)
      ensures flags' == |FlagsSoFar(grid.board, (x, y), dx, dy + 1)| && listed' == HiddenList(grid.board, (x, y), dx, dy + 1)
    {
      flags', listed' := flags, listed;
      if !(dx == 0 && dy == 0) {
        var ax := x + dx;
        var ay := y + dy;
        if 0 <= ax < grid.GetGridWidth() && 0 <= ay < grid.GetGridHeight() {
          var t := grid.GetTile(ax, ay);
          if t.flagged {
            flags' := flags' + 1;
          }
          if t.hidden {
            listed' := listed' + [(t.x, t.y)];
          }
        }
      }
      ScanStep(grid.board, (x, y), dx, dy, flags, listed, flags', listed');
    }

    /**
     * The reveal loop of `doChord` and the report after it: reveal each
     * listed tile that is not flagged, and lose when one of those reveals
     * hit a mine. `bs` are the boards before the loop and after each pass.
     */
    method RevealListed(listed: seq<Cell>) returns (ghost bs: seq<Board>)
      requires grid.Valid()
      requires forall n :: n in listed ==> n in grid.board
      modifies this, grid, grid.tiles
      ensures grid.Valid() && grid.SameShape()
      ensures RevealLoop(listed, bs) && bs[0] == old(grid.board)
      ensures Snapshot() == old(Snapshot()).(board := bs[|bs| - 1], status := LossIf(old(Snapshot()).status,
                exists n :: n in listed && n in old(grid.board) && !old(grid.board)[n].flagged && old(grid.board)[n].kind == MINE))
    {
      ghost var b0 := grid.board;
      var failed := false;
      bs := [b0];
      for i := 0 to |listed|
        invariant grid.Valid() && grid.SameShape() && unchanged(this)
        invariant Unhides(b0, grid.board)
        invariant |bs| == i + 1 && bs[0] == b0 && bs[i] == grid.board
        invariant forall k {:trigger listed[k]} :: 0 <= k < i ==> RevealStep(bs[k], bs[k + 1], listed[k])
        invariant failed <==> exists n :: n in listed[..i] && n in b0 && !b0[n].flagged && b0[n].kind == MINE
      {
        var t := listed[i];
        assert listed[..i + 1] == listed[..i] + [t];
        assert t in listed;
        ghost var b := grid.board;
        var hit := RevealUnflagged(t);
        UnhidesTransitive(b0, b, grid.board);
        failed := failed || hit;
        bs := bs + [grid.board];
      }
      assert listed[..|listed|] == listed;
      ghost var r := Snapshot();
      assert r == old(Snapshot()).(board := bs[|bs| - 1]);
      if failed {
        FireGameOver(false);
      }
      assert grid.board == r.board;
    }

    /** One pass of the reveal loop of `doChord`: reveal `t` unless it is flagged, and say whether a mine was revealed. */
    method RevealUnflagged(t: Cell) returns (hit: bool)
      requires grid.Valid() && t in grid.board
      modifies grid, grid.tiles
      ensures grid.Valid() && grid.SameShape()
      ensures RevealStep(old(grid.board), grid.board, t) && Unhides(old(grid.board), grid.board)
      ensures hit <==> !old(grid.board)[t].flagged && old(grid.board)[t].kind == MINE
    {
      hit := false;
      if !grid.GetTile(t.0, t.1).flagged {
        hit := grid.RevealTile(t.0, t.1);
        RevealOnlyUncovers(old(grid.board), grid.board, t, hit);
      }
    }

    /**
     * `doChord(tile)` on the tile at (x, y): on a revealed tile with a
     * positive count and exactly that many flags around it, reveal every
     * hidden unflagged neighbour in the order the scan listed them, and
     * lose if one of them was a mine. `bs` are the boards of the reveal loop.
     */
    method DoChord(x: int, y: int) returns (ghost bs: seq<Board>)
      requires Valid() && 0 <= x < grid.gridWidth && 0 <= y < grid.gridHeight
      modifies this, grid, grid.tiles
      ensures Valid() && grid.SameShape()
      ensures Chorded(old(Snapshot()), Snapshot(), (x, y), bs)
    {
      ghost var r0 := Snapshot();
      bs := [grid.board];
      var tile := grid.GetTile(x, y);
      if !tile.hidden && tile.sensorValue > 0 {
        assert (tile.x, tile.y) == (x, y);
        var adjacentFlags, adjacentHidden := SurveyAround(tile.x, tile.y);
        if adjacentFlags == tile.sensorValue {
          bs := RevealListed(adjacentHidden);
          ChordByParts(r0, Snapshot(), (x, y), adjacentHidden, bs);
          return;
        }
      }
      ChordIdle(r0, (x, y), bs);
    }

    /** The right-click branch of `clickEvent` on (x, y): flag or unflag a hidden tile. */
    method RightClick(x: int, y: int)
      requires Valid() && 0 <= x < grid.gridWidth && 0 <= y < grid.gridHeight
      modifies this, grid, grid.tiles
      ensures Valid() && grid.SameShape()
      ensures RightClicked(old(Snapshot()), Snapshot(), (x, y))
    {
      var tile := grid.GetTile(x, y);
      if tile.hidden {
        grid.SetTile(x, y, tile.(flagged := !tile.flagged));
        FireFlagChanged();
      }
    }

    /**
     * The left-click branch of `clickEvent` on (x, y): reveal a hidden
     * unflagged tile and lose on a mine, or move onto a revealed tile next
     * to the player.
     */
    method LeftClick(x: int, y: int)
      requires Valid() && 0 <= x < grid.gridWidth && 0 <= y < grid.gridHeight
      modifies this, grid, grid.tiles
      ensures Valid() && grid.SameShape()
      ensures LeftClicked(old(Snapshot()), Snapshot(), (x, y))
    {
      ghost var r0 := Snapshot();
      var tile := grid.GetTile(x, y);
      if tile.hidden {
        if !tile.flagged {
          var hit := grid.RevealTile(x, y);
          if hit {
            FireGameOver(false);
          }
          RevealClicked(r0, Snapshot(), (x, y), hit);
        }
      } else if Adjacent4((tile.x, tile.y), (px, py)) {
        var dx, dy := tile.x - px, tile.y - py;
        MovePlayer(dx, dy);
        MoveClicked(r0, Snapshot(), (x, y), dx, dy);
      }
    }

    /**
     * `clickEvent(isLeft, isRight)` on the tile under the cursor, (x, y):
     * nothing once the game is over or off the board; otherwise the right
     * branch, the left branch, then a chord when both buttons are down.
     * `ra` and `rb` are the rounds after the right and the left branch, `bs`
     * the boards of the chord's reveal loop.
     */
    method ClickEvent(x: int, y: int, isLeft: bool, isRight: bool) returns (ghost ra: Round, ghost rb: Round, ghost bs: seq<Board>)
      requires Valid()
      modifies this, grid, grid.tiles
      ensures Valid() && grid.SameShape()
      ensures Clicked(old(Snapshot()), Snapshot(), (x, y), isLeft, isRight, ra, rb, bs)
    {
      ra, rb, bs := Snapshot(), Snapshot(), [];
      if gameOver {
        return;
      }
      if x < 0 || x >= grid.GetGridWidth() || y < 0 || y >= grid.GetGridHeight() {
        return;
      }
      if isRight {
        RightClick(x, y);
      }
      ra := Snapshot();
      if isLeft {
        LeftClick(x, y);
      }
      rb := Snapshot();
      if isLeft && isRight {
        bs := DoChord(x, y);
      }
    }
  }
}
