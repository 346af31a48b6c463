/**
 * One cell of the game board (GridTile.java): its coordinates, its kind
 * (empty, mine, exit, or the temporary "reserved" marker used while mines
 * are placed), the number of mines around it, and whether it is still
 * hidden or carries a flag.
 */
module Tiles {

  /** Kind codes. The source compares raw codes 0, 1 and 2 in places, so the values matter. */
  const EMPTY: int := 0
  const MINE: int := 1
  const EXIT: int := 2
  /** Marks the 2x2 start block while mines are placed; any code other than EMPTY works. */
  const RESERVED: int := 3

  /**
   * A tile. The source's field `type` is called `kind` here (`type` is a
   * keyword). `sensorValue` counts mines and is never negative.
   */
  datatype Tile = Tile(x: int, y: int, kind: int, sensorValue: nat, hidden: bool, flagged: bool)

  /** `new GridTile(x, y)`: an empty, hidden, unflagged tile with a zero count. */
  function NewTile(x: int, y: int): (t: Tile)
    ensures t.x == x && t.y == y
    ensures t.hidden && !t.flagged
    ensures t.kind == EMPTY && t.sensorValue == 0
  {
    Tile(x, y, EMPTY, 0, true, false)
  }
}
