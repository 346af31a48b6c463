# Slava Dukerani — a verified model of the game engine

Slava Dukerani is Minesweeper with a Sokoban twist. The player walks a
grid of hidden tiles, some of them mines. A sensor can be pushed along like
a Sokoban box. Every revealed tile shows how many mines lie around it. The
round is lost on a mine and won at the exit in the far corner.

This project models the engine of the game in Dafny and proves what it
promises:

- `Grid`: the tile array, mine placement, hint counting, the
  queue-based flood fill and the row-string board reader (`grid.dfy`).
- `SlavaDukerani`: the round itself. This covers player and sensor
  positions, the move and push rules, flag, reveal and chord clicks, the
  flag count and the end of the game (`game.dfy`).
- `GridTile`: one tile (`grid_tile.dfy`).

The two classes are imperative Dafny, like the source:

- `Grid` keeps its tiles in an `array2<Tile>` indexed `[x, y]`.
- `SlavaDukerani` updates its fields in place.

Every method is specified against value-level functions and predicates,
and the lemmas are proved about those:

- `boards.dfy`: boards as maps from `(x, y)` to tiles, and what
  revealing, flooding and counting mean.
- `placement.dfy`: mine placement.
- `sensors.dfy`: the hint loops.
- `flood.dfy`: the flood fill's loop invariant and its termination
  argument.
- `setup.dfy`: the start board and the row-string board.
- `rules.dfy`: rounds as values, and the move, click and chord rules.

What is proved, in the system's own terms:

- The mine count: `numMines` is the number of mines on the board after
  the row-string constructor, and after the generated constructor whenever
  its draws met enough free cells. Reveals and flag toggles never change a
  tile's kind, so the count stays right for the whole round.
- Mine placement:
  - `placeMines` only turns EMPTY tiles into mines and changes nothing else.
  - When the draws hit at least `numMines` distinct free cells, it places
    exactly `numMines` mines.
  - The exit and the reserved 2x2 start block are never mined.
- Hints: after `calculateSensorValues`, every tile's sensor value is the
  number of mines among its neighbours on the board, so it lies in 0..8.
- Reveal and flood:
  - `revealTile` reports a mine exactly when its target is one, and then
    uncovers only that tile.
  - The flood only ever clears `hidden`. It queues each tile at most once
    and terminates, although its `visited` array marks only the start tile.
  - When the flood ends, every unflagged neighbour of every zero tile it
    expanded is revealed. Every tile it revealed can be reached from the
    start through zero tiles, one unflagged neighbour at a time, so it
    never crosses a flag.
  - A reveal's outcome is determined by the board and the target.
  - With exact hints, the flood never uncovers a mine.
- The start board:
  - The block is EMPTY, and (0,0) and (1,1) are revealed and safe.
  - The exit is in the far corner unless the block covers it.
  - No tile is flagged.
- The row-string board: tile (x, y) is a mine exactly when `rows[y][x]`
  is '1', and the mine count is the number of '1's.
- The round:
  - The player and the sensor stay on the board and never share a cell.
  - A move off the board changes nothing.
  - A push moves the sensor by exactly the step, or moves nothing when
    the sensor would leave the board.
  - Clicks do nothing once the game is over, and the game never returns
    from over.
  - A chord acts only when the flags around the tile match its hint. It
    reveals every hidden unflagged neighbour, one reveal after the other,
    and loses exactly when one of them is a mine.
  - `gameOver` and `youWon` always agree with the last game-over report
    the listeners received.

Behaviour modelled as the source has it:

- The row-string constructor runs `initGrid` and then replaces every tile
  with a new one. The resulting board therefore has no hints, no revealed
  tile and no exit.
- The flood queues every hidden unflagged neighbour of a zero tile, not
  only the zero ones. It reveals each tile when it takes it off the queue.
  The comment above `revealAdjacentTiles` (Grid.java:175-176) speaks of
  visiting only tiles with value 0; the model follows the code.
- Stepping onto a hidden mine reports the loss twice: once for the reveal,
  once for the mine (`Rules.Stepped`).

## Model

| member | source | states |
|---|---|---|
| Tiles.NewTile | src/main/java/com/marginallyclever/slavadukerani/GridTile.java:6-15 | a new tile keeps the x and y it was given, is hidden and unflagged, of kind EMPTY (code 0) with sensor value 0 |
| Grids.Grid.constructor | src/main/java/com/marginallyclever/slavadukerani/Grid.java:31-39 | the grid has the given size and mine count and its board is a start board: mines only where the draws placed them, exact hints, the 2x2 block EMPTY with (0,0) and (1,1) revealed, the exit kept, no flag, no revealed mine, and exactly `numMines` mines when the draws hit enough free cells; the count is known exactly when `numMines` is at least 0 and the draws hit that many free cells |
| Grids.Grid.FromRows | src/main/java/com/marginallyclever/slavadukerani/Grid.java:43-62 | height is the number of rows and width the length of row 0; the board is the one the rows describe (a mine exactly at each '1', every tile new); `numMines` is the number of mines; the count is known |
| Grids.Grid.ParseRows | src/main/java/com/marginallyclever/slavadukerani/Grid.java:53-61 | the parse loops replace every tile as the rows say and count exactly the mines they write |
| Grids.Grid.ParseTile | src/main/java/com/marginallyclever/slavadukerani/Grid.java:55-59 | one step of the parse: only (x, y) changes, to the tile the rows describe, and the count grows by one exactly for a mine |
| Grids.Grid.InitGrid | src/main/java/com/marginallyclever/slavadukerani/Grid.java:64-93 | allocation, exit, reserved block, placement, clearing, hints and the two reveals end in a start board on a fresh array |
| Grids.Grid.AllocateTiles | src/main/java/com/marginallyclever/slavadukerani/Grid.java:67-73 | every cell holds a new tile with its own coordinates |
| Grids.Grid.ReserveCorners | src/main/java/com/marginallyclever/slavadukerani/Grid.java:74-80 | the board is the fresh one with the exit in the far corner and the 2x2 block RESERVED, in the source's order |
| Grids.Grid.ClearBlock | src/main/java/com/marginallyclever/slavadukerani/Grid.java:85-88 | the 2x2 block is set back to EMPTY and nothing else changes |
| Grids.Grid.GetGridWidth | src/main/java/com/marginallyclever/slavadukerani/Grid.java:106-108 | the width is the array's first dimension and bounds every cell of the board |
| Grids.Grid.GetGridHeight | src/main/java/com/marginallyclever/slavadukerani/Grid.java:110-112 | the height is the array's second dimension and bounds every cell of the board |
| Grids.Grid.GetNumMines | src/main/java/com/marginallyclever/slavadukerani/Grid.java:114-116 | the mine count the grid holds, which is the number of mines on the board once counted: always after the row-string constructor, and after the generated one whenever its draws met enough free cells; reveals and flag toggles keep it so |
| Grids.Grid.GetTile | src/main/java/com/marginallyclever/slavadukerani/Grid.java:118-120 | the tile at (x, y) on the board, and it carries x and y |
| Grids.Grid.CalculateSensorValues | src/main/java/com/marginallyclever/slavadukerani/Grid.java:123-131 | the board after the column-order pass; starting from zero values every hint is exact and nothing but hints changes |
| Grids.Grid.UpdateAdjacentSensorValues | src/main/java/com/marginallyclever/slavadukerani/Grid.java:134-145 | every neighbour of (x, y) on the board gains one and no other tile changes |
| Grids.Grid.RaiseNeighbour | src/main/java/com/marginallyclever/slavadukerani/Grid.java:137-142 | one pass of those loops: the centre and off-board offsets are skipped, an on-board neighbour gains one |
| Grids.Grid.PlaceMines | src/main/java/com/marginallyclever/slavadukerani/Grid.java:147-157 | the board after drawing the given cells, mining each drawn EMPTY tile until `numMines` are placed |
| Grids.Grid.RevealTile | src/main/java/com/marginallyclever/slavadukerani/Grid.java:160-173 | the target is uncovered; the result is true exactly for a mine, which leaves every other tile alone; a zero tile is flooded, every tile the flood uncovers reached from the target through zero tiles and unflagged |
| Grids.Grid.RevealAdjacentTiles | src/main/java/com/marginallyclever/slavadukerani/Grid.java:177-206 | the flood ends with only `hidden` cleared, every unflagged neighbour of every expanded zero tile revealed, each tile queued at most once, the queued tiles exactly the start and the tiles it revealed, and each of them unflagged and next to a zero tile queued before it |
| Grids.Grid.VisitNext | src/main/java/com/marginallyclever/slavadukerani/Grid.java:183-204 | one round of the queue loop keeps the flood invariant and shrinks the hidden unqueued tiles, or keeps them and shortens the queue |
| Grids.Grid.ScanAround | src/main/java/com/marginallyclever/slavadukerani/Grid.java:189-204 | the scan loops queue exactly what `Scanned` says and leave `visited` marking only the start |
| Grids.Grid.VisitNeighbour | src/main/java/com/marginallyclever/slavadukerani/Grid.java:192-202 | one pass of the scan loops: the neighbour at (dx, dy) is queued exactly when it is on the board, not the visited start, not queued, hidden and unflagged |
| Boards.AdjacentAtMostEight | src/main/java/com/marginallyclever/slavadukerani/Grid.java:134-145 | a count of neighbours is at most 8 |
| Boards.UnhidesKeepsHints | src/main/java/com/marginallyclever/slavadukerani/Grid.java:160-206 | uncovering tiles changes no mine, so exact hints stay exact |
| Boards.RevealOnlyUncovers | src/main/java/com/marginallyclever/slavadukerani/Grid.java:160-173 | any reveal only clears `hidden`, and its target ends up revealed |
| Boards.FloodRevealsNoMine | src/main/java/com/marginallyclever/slavadukerani/Grid.java:168-204 | with exact hints every tile a flood uncovers besides its start is not a mine |
| Boards.FloodBorders | src/main/java/com/marginallyclever/slavadukerani/Grid.java:187-204 | every tile a flood reveals besides its start was unflagged and borders an expanded zero tile |
| Boards.FloodOrderRevealed | src/main/java/com/marginallyclever/slavadukerani/Grid.java:183-205 | each tile of one flood's reveal order is revealed by any other finished flood from the same start on the same board |
| Boards.FloodRevealsOthers | src/main/java/com/marginallyclever/slavadukerani/Grid.java:183-205 | what one flood from a start reveals, every flood from that start on the same board reveals |
| Boards.FloodDoneUnique | src/main/java/com/marginallyclever/slavadukerani/Grid.java:177-206 | two finished floods from the same start on the same board leave the same board |
| Boards.RevealOutcomeUnique | src/main/java/com/marginallyclever/slavadukerani/Grid.java:160-173 | two reveals of the same cell on the same board report the same result and leave the same board |
| Boards.RevealHitsOnlyTarget | src/main/java/com/marginallyclever/slavadukerani/Grid.java:160-173 | with exact hints a reveal reports a mine exactly when its target is one, and the target is the only mine it can uncover |
| Placement.Placed | src/main/java/com/marginallyclever/slavadukerani/Grid.java:147-157 | the cells placement mines are free cells, at most `numMines` of them |
| Placement.PlaceAllMarks | src/main/java/com/marginallyclever/slavadukerani/Grid.java:147-157 | placement mines exactly the cells of `Placed` over the EMPTY cells and changes nothing else |
| Placement.PlacedExactly | src/main/java/com/marginallyclever/slavadukerani/Grid.java:147-157 | draws that hit at least `numMines` distinct free cells place exactly `numMines` mines |
| Placement.PlaceMinesOutcome | src/main/java/com/marginallyclever/slavadukerani/Grid.java:147-157 | only EMPTY tiles become mines, nothing else changes, the new mines are the placed cells, and exactly `numMines` of them with enough distinct free draws |
| Sensors.BumpedAt | src/main/java/com/marginallyclever/slavadukerani/Grid.java:135-144 | part way through the loops exactly the neighbours at offsets already visited have gained one |
| Sensors.BumpedAll | src/main/java/com/marginallyclever/slavadukerani/Grid.java:134-145 | the finished loops raise every neighbour on the board by one |
| Sensors.BumpKeepsRest | src/main/java/com/marginallyclever/slavadukerani/Grid.java:141 | raising neighbours changes only sensor values |
| Sensors.SensorPassAt | src/main/java/com/marginallyclever/slavadukerani/Grid.java:123-131 | part way through the column-order pass every tile has gained the number of neighbouring mines the pass has handled |
| Sensors.SensorPassExact | src/main/java/com/marginallyclever/slavadukerani/Grid.java:123-145 | starting from zeros the whole pass makes every hint the number of mines around the tile, in 0..8, and changes nothing else |
| Flood.Scanned | src/main/java/com/marginallyclever/slavadukerani/Grid.java:189-204 | the scan only appends to the queue |
| Flood.ScannedAppends | src/main/java/com/marginallyclever/slavadukerani/Grid.java:189-204 | the scan around a revealed tile appends only distinct hidden unflagged neighbours that were not queued, never the start |
| Flood.ScannedCloses | src/main/java/com/marginallyclever/slavadukerani/Grid.java:189-204 | once the scan has passed an offset, the unflagged neighbour there is revealed or queued |
| Flood.FloodStart | src/main/java/com/marginallyclever/slavadukerani/Grid.java:179-181 | the queue holding only the revealed start satisfies the flood invariant |
| Flood.Dequeue | src/main/java/com/marginallyclever/slavadukerani/Grid.java:184-186 | polling and revealing the head keeps the invariant except the closure of the head itself |
| Flood.DequeueNoScan | src/main/java/com/marginallyclever/slavadukerani/Grid.java:187 | a polled tile with a positive value is not scanned, the invariant holds and the hidden unqueued tiles stay the same |
| Flood.DequeueScan | src/main/java/com/marginallyclever/slavadukerani/Grid.java:187-204 | a polled zero tile is scanned, the invariant holds again, and the hidden unqueued tiles shrink whenever the queue grows |
| Flood.ScanPending | src/main/java/com/marginallyclever/slavadukerani/Grid.java:196-201 | a scan that queues anything takes those tiles out of the hidden unqueued ones; one that queues nothing leaves the queue as it was |
| Flood.FloodRound | src/main/java/com/marginallyclever/slavadukerani/Grid.java:183-205 | one round keeps the invariant and decreases the termination measure |
| Flood.FloodFinish | src/main/java/com/marginallyclever/slavadukerani/Grid.java:183-205 | at an empty queue the flood is done, and the queued tiles, each once, are the start and the newly revealed tiles, in an order where each was unflagged and borders a zero tile polled before it |
| Flood.FloodShift | src/main/java/com/marginallyclever/slavadukerani/Grid.java:160-170 | a flood done from the board after the reveal of its start is done from the board before it |
| Setup.FreshBoard | src/main/java/com/marginallyclever/slavadukerani/Grid.java:67-73 | the allocated board covers exactly the cells of the grid |
| Setup.FreshBoardFacts | src/main/java/com/marginallyclever/slavadukerani/Grid.java:69-73 | every allocated tile is a new tile with its own coordinates |
| Setup.PreparedAt | src/main/java/com/marginallyclever/slavadukerani/Grid.java:74-80 | before placement each tile is new, RESERVED in the block, EXIT in the far corner unless the block covers it, EMPTY elsewhere |
| Setup.PreparedFacts | src/main/java/com/marginallyclever/slavadukerani/Grid.java:74-83 | before placement the EMPTY cells are exactly the cells outside the block and the exit, and there is no mine |
| Setup.PlacedFacts | src/main/java/com/marginallyclever/slavadukerani/Grid.java:77-83 | placement on the prepared board mines only placed cells, never the block or the exit, and the exit survives |
| Setup.ClearedFacts | src/main/java/com/marginallyclever/slavadukerani/Grid.java:85-88 | clearing leaves the block EMPTY, keeps every other tile, and keeps the mines |
| Setup.SensedFacts | src/main/java/com/marginallyclever/slavadukerani/Grid.java:90 | the sensor pass over new tiles makes hints exact and keeps kinds, flags and hidden states |
| Setup.SensedChain | src/main/java/com/marginallyclever/slavadukerani/Grid.java:67-90 | before the reveals the mines are the placed cells, hints are exact, the block is EMPTY, the exit kept, every tile hidden and unflagged |
| Setup.RevealsFrom | src/main/java/com/marginallyclever/slavadukerani/Grid.java:91-92 | revealing (0,0) and then (1,1) hits no mine, keeps the mines and exact hints, flags nothing, reveals both and uncovers no mine |
| Setup.InitGridOutcome | src/main/java/com/marginallyclever/slavadukerani/Grid.java:64-93 | both reveals of `initGrid` report no mine and the board it leaves is a start board |
| Setup.ParsedStep | src/main/java/com/marginallyclever/slavadukerani/Grid.java:56-59 | writing one tile adds its cell to the parsed mines exactly when it is a mine |
| Setup.RowTile | src/main/java/com/marginallyclever/slavadukerani/Grid.java:55-58 | the parsed tile is new, at (x, y), and a mine exactly when the character is '1', empty otherwise |
| Setup.RowsBoard | src/main/java/com/marginallyclever/slavadukerani/Grid.java:53-61 | the parsed board covers the w x h grid |
| Setup.RowsBoardFacts | src/main/java/com/marginallyclever/slavadukerani/Grid.java:43-61 | the parsed board's mines are exactly the '1' characters, and it has no exit, no revealed tile, no flag and no hint |
| Rules.OutcomeAppend | src/main/java/com/marginallyclever/slavadukerani/SlavaDukerani.java:299-305 | the last game-over report decides the outcome, and a flag-count report leaves it |
| Rules.FireReports | src/main/java/com/marginallyclever/slavadukerani/SlavaDukerani.java:299-305 | firing game over keeps `gameOver` and `youWon` in step with the reports |
| Rules.FlagReportReports | src/main/java/com/marginallyclever/slavadukerani/SlavaDukerani.java:278-290 | a flag-count report keeps them in step too |
| Rules.IfReports | src/main/java/com/marginallyclever/slavadukerani/SlavaDukerani.java:299-305 | conditional reports keep them in step and never undo an end |
| Rules.SteppedReports | src/main/java/com/marginallyclever/slavadukerani/SlavaDukerani.java:116-131 | stepping onto a mine or the exit ends the game, lost on a mine and won at the exit, and keeps the reports in step |
| Rules.LandedReports | src/main/java/com/marginallyclever/slavadukerani/SlavaDukerani.java:138-148 | the sensor's landing keeps the reports in step and never undoes an end |
| Rules.MovedReports | src/main/java/com/marginallyclever/slavadukerani/SlavaDukerani.java:108-155 | a move keeps the reports in step and never undoes an end |
| Rules.MovedKeepsInv | src/main/java/com/marginallyclever/slavadukerani/SlavaDukerani.java:108-155 | a move keeps player and sensor on the board and apart, keeps the size, and only uncovers tiles |
| Rules.MovedByParts | src/main/java/com/marginallyclever/slavadukerani/SlavaDukerani.java:114-154 | entering the destination, then the blocked, plain or pushing outcome, is a move, and keeps the invariant |
| Rules.MovedOutcome | src/main/java/com/marginallyclever/slavadukerani/SlavaDukerani.java:116-131 | the destination of an on-board move ends revealed, a mine there ends the game, lost unless the sensor was pushed, and the exit wins it |
| Rules.RightClickedFacts | src/main/java/com/marginallyclever/slavadukerani/SlavaDukerani.java:207-214 | a right click toggles the flag of a hidden tile only, changes no other tile, reports the board's flag count, and keeps the invariant |
| Rules.LeftClickedFacts | src/main/java/com/marginallyclever/slavadukerani/SlavaDukerani.java:217-233 | a left click keeps the invariant and the reports, only uncovers tiles, leaves a flagged hidden tile alone and reveals an unflagged one without moving |
| Rules.RevealClicked | src/main/java/com/marginallyclever/slavadukerani/SlavaDukerani.java:219-224 | revealing a hidden unflagged tile and losing on a mine is the reveal branch of a left click |
| Rules.MoveClicked | src/main/java/com/marginallyclever/slavadukerani/SlavaDukerani.java:225-230 | a move onto a revealed tile next to the player is the move branch of a left click |
| Rules.ChordedFacts | src/main/java/com/marginallyclever/slavadukerani/SlavaDukerani.java:242-269 | a chord keeps the invariant and the reports, only uncovers tiles, reveals every hidden unflagged neighbour when it acts, and never undoes an end |
| Rules.RevealLoopFacts | src/main/java/com/marginallyclever/slavadukerani/SlavaDukerani.java:258-262 | after the first i passes of the reveal loop only `hidden` has changed and each of the first i listed tiles that was unflagged is revealed |
| Rules.ChordRevealsTargets | src/main/java/com/marginallyclever/slavadukerani/SlavaDukerani.java:258-262 | the reveal loop of a chord leaves every hidden unflagged neighbour of the tile revealed |
| Rules.ChordIdle | src/main/java/com/marginallyclever/slavadukerani/SlavaDukerani.java:242-269 | a chord on a hidden tile, a zero tile or one whose flags do not match its value leaves the round as it is |
| Rules.ChordListMembers | src/main/java/com/marginallyclever/slavadukerani/SlavaDukerani.java:244-256 | the list the scan builds holds exactly the hidden neighbours on the board |
| Rules.ChordByParts | src/main/java/com/marginallyclever/slavadukerani/SlavaDukerani.java:242-269 | listing the hidden neighbours, then revealing each unflagged one in list order, each pass a reveal as `revealTile` does it, and failing on a mine, is the chord |
| Rules.ChordSafe | src/main/java/com/marginallyclever/slavadukerani/SlavaDukerani.java:242-269 | with exact hints and flags only on mines, no tile a chord reveals is a mine |
| Rules.ClickedKeepsInv | src/main/java/com/marginallyclever/slavadukerani/SlavaDukerani.java:198-240 | a click keeps the invariant, the size and the reports, and changes nothing once the game is over |
| Rules.FlaggedStep | src/main/java/com/marginallyclever/slavadukerani/SlavaDukerani.java:281-283 | looking at (x, y) counts it exactly when it is flagged |
| Rules.FlaggedColumn | src/main/java/com/marginallyclever/slavadukerani/SlavaDukerani.java:280-284 | the end of one column is the start of the next |
| Rules.FlaggedAll | src/main/java/com/marginallyclever/slavadukerani/SlavaDukerani.java:280-284 | after the last column every flagged tile on the board is counted |
| Rules.FlagsSoFarStep | src/main/java/com/marginallyclever/slavadukerani/SlavaDukerani.java:248-253 | one offset adds one to the flag count exactly for a flagged neighbour on the board |
| Rules.ScanStep | src/main/java/com/marginallyclever/slavadukerani/SlavaDukerani.java:248-254 | one offset counts a flagged neighbour and lists a hidden one, as the loops promise |
| Rules.FlagsSoFarRow | src/main/java/com/marginallyclever/slavadukerani/SlavaDukerani.java:246-256 | the same for the flag count, and after the outer loop every flag around the tile is counted |
| Game.SlavaDukerani.constructor | src/main/java/com/marginallyclever/slavadukerani/SlavaDukerani.java:44-61 | a new round on a generated start board, player at (0,0), sensor at (1,1), nothing reported; the grid keeps `numMines`, known as the mine count exactly when it is at least 0 and the draws hit that many free cells |
| Game.SlavaDukerani.FromRows | src/main/java/com/marginallyclever/slavadukerani/SlavaDukerani.java:63-67 | a new round on the board the rows describe, player at (0,0), sensor at (1,1); `numMines` is the number of mines on that board |
| Game.SlavaDukerani.FireGameOver | src/main/java/com/marginallyclever/slavadukerani/SlavaDukerani.java:299-305 | `gameOver` set, `youWon` set to `won`, a game-over report appended, nothing else changed |
| Game.SlavaDukerani.FireFlagChanged | src/main/java/com/marginallyclever/slavadukerani/SlavaDukerani.java:278-290 | reports exactly the number of flagged tiles on the board and changes nothing else |
| Game.SlavaDukerani.CountFlags | src/main/java/com/marginallyclever/slavadukerani/SlavaDukerani.java:279-284 | the counting loops return the number of flagged tiles on the board |
| Game.SlavaDukerani.MovePlayer | src/main/java/com/marginallyclever/slavadukerani/SlavaDukerani.java:108-155 | the move relation holds between the round before and after, and the round stays valid |
| Game.SlavaDukerani.EnterTile | src/main/java/com/marginallyclever/slavadukerani/SlavaDukerani.java:114-131 | a hidden destination is revealed, flagged or not; a mine found is a loss, then a mine is a loss and the exit a win; player and sensor stay |
| Game.SlavaDukerani.PushSensor | src/main/java/com/marginallyclever/slavadukerani/SlavaDukerani.java:137-151 | the sensor moves to its new cell and a mine or the exit there is a loss or a win |
| Game.SlavaDukerani.SurveyAround | src/main/java/com/marginallyclever/slavadukerani/SlavaDukerani.java:244-256 | the number of flagged neighbours, and the list of the hidden neighbours in the order the loops meet them, holding exactly the hidden neighbours |
| Game.SlavaDukerani.ScanNeighbour | src/main/java/com/marginallyclever/slavadukerani/SlavaDukerani.java:248-254 | one pass of the scan loops: the count and the list after offset (dx, dy) are those the loops promise there |
| Game.SlavaDukerani.RevealListed | src/main/java/com/marginallyclever/slavadukerani/SlavaDukerani.java:257-264 | the listed tiles are visited in order, each pass skipping a flagged tile and otherwise a reveal as `revealTile` does it; the round is lost exactly when an unflagged listed tile was a mine |
| Game.SlavaDukerani.RevealUnflagged | src/main/java/com/marginallyclever/slavadukerani/SlavaDukerani.java:259-261 | one pass: a flagged tile is left alone, otherwise it is revealed; the result says whether an unflagged mine was revealed |
| Game.SlavaDukerani.DoChord | src/main/java/com/marginallyclever/slavadukerani/SlavaDukerani.java:242-269 | the chord relation holds: nothing unless the tile is revealed with a positive value and the flags match it, else the scan's list revealed pass by pass and a loss exactly when an unflagged hidden neighbour was a mine |
| Game.SlavaDukerani.RightClick | src/main/java/com/marginallyclever/slavadukerani/SlavaDukerani.java:207-214 | the right-click relation: a hidden tile's flag toggled and the flag count reported |
| Game.SlavaDukerani.LeftClick | src/main/java/com/marginallyclever/slavadukerani/SlavaDukerani.java:217-233 | the left-click relation: reveal a hidden unflagged tile, or step onto a revealed tile next to the player |
| Game.SlavaDukerani.ClickEvent | src/main/java/com/marginallyclever/slavadukerani/SlavaDukerani.java:198-240 | nothing once the game is over or off the board; otherwise right branch, left branch, then a chord when both buttons are down |

## Left out

- Random numbers: `java.util.Random` and its seed are replaced by a
  given sequence of drawn cells.
  - Placement stops when the draws run out. The source instead loops until
    `numMines` mines are placed, and never ends when there are fewer free
    cells than that.
  - Determinism for a seed holds by construction.
- Tiles are values (`Tile`) stored in the array, not shared objects. The
  source's assignments to a tile's fields become writes of a changed tile
  into its cell. Where the source reads, through a reference it kept, a
  field that a write has changed since, the model reads the array cell
  again. `LeftClick` reads the flag the right-click branch may have just
  toggled, `DoChord` reads the hidden state the left-click branch may have
  just cleared, and the chord's reveal loop reads each listed tile's flag
  when it reaches it.
- Short rows: `Grid(String)` reads `rows[y].charAt(x)` for every x below
  the length of row 0, and fails with a string index exception when a
  later row is shorter. That exception path is not modelled; the
  row-string constructors require every row to be at least as long as
  row 0 (`RowsFit`).
- Boards smaller than 2x2: `initGrid` writes the 2x2 start block and
  fails with an array index exception on a smaller board. That exception
  path is not modelled; the constructors require at least 2x2.
- Grids.Grid.GetTile: `getTile` fails with an array index exception off
  the board. That path is not modelled; `GetTile` and `RevealTile` require
  a cell on the board, as every caller in the core passes one.
- The row-string constructor takes the text already split into rows. The
  split on "\n" and the `Random()` it creates but never draws from are not
  modelled.
- Rendering, art and Swing: `loadArt`, `paintComponent`, `drawOneTile`,
  the panel's painting and art loading, and `repaint`.
- Input plumbing:
  - The key and mouse adapters are not modelled. This includes the key
    handler's own game-over guard before `movePlayer`.
  - The `initialized` first-frame flag is not modelled.
  - `hoverOver` is not modelled: `clickEvent` takes the tile's
    coordinates, and a missing tile is a cell off the board.
- Listeners: the listener lists, their add and remove methods, and the
  listener interfaces are not modelled. Each notification is recorded in
  the `events` log instead.
- `System.out` logging, `main` and the MetaGame and settings classes are
  not part of this model.
- Game.SlavaDukerani.DoChord: the scan lists the coordinates of hidden
  neighbours rather than the tile objects themselves. The reveal loop
  reads each tile's flag afresh, as the source does through the object.
- Rules.Moved: a move that reaches the sensor's cell while the sensor
  stands on a mine or the exit is modelled as written. In that case the
  reports are overwritten in order. On a generated board that state
  arises only after the game is over, since pushing the sensor onto a
  mine or the exit ends it, and both callers then refuse to move. A row
  board whose (1,1) is '1' starts a live round with the sensor on a mine.
  There the step onto the sensor is a loss and the push may add another;
  no win can follow, because a row board has no exit.
