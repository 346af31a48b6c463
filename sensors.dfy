/**
 * The sensor values (Grid.java `calculateSensorValues` and
 * `updateAdjacentSensorValues`) as functions on boards: how far the two
 * nested loops have got, and what they compute once they finish.
 */
module Sensors {
  import opened Tiles
  import opened Boards

  /** What `updateAdjacentSensorValues` around `m` does: every neighbour of `m` on the board gains one. */
  function Bump(b: Board, m: Cell): (r: Board)
    ensures r.Keys == b.Keys
  {
    map c | c in b :: if Near(c, m) then b[c].(sensorValue := b[c].sensorValue + 1) else b[c]
  }

  /** One pass of the inner loop of `updateAdjacentSensorValues` around `m`, at offset `d`. */
  function BumpOne(b: Board, m: Cell, d: Cell): Board
  {
    var n := (m.0 + d.0, m.1 + d.1);
    if d == (0, 0) || n !in b then b else b[n := b[n].(sensorValue := b[n].sensorValue + 1)]
  }

  /** The board when the loops of `updateAdjacentSensorValues` around `m` are at `dx`, `dy`. */
  function Bumped(b: Board, m: Cell, dx: int, dy: int): Board
    requires OffsetLoop(dx, dy)
    decreases dx + 1, dy + 1
  {
    if dy > -1 then BumpOne(Bumped(b, m, dx, dy - 1), m, (dx, dy - 1))
    else if dx > -1 then Bumped(b, m, dx - 1, 2)
    else b
  }

  lemma BumpOneAt(b: Board, m: Cell, d: Cell)
    ensures BumpOne(b, m, d).Keys == b.Keys
    ensures forall c :: c in b ==>
      BumpOne(b, m, d)[c] == if d != (0, 0) && c == (m.0 + d.0, m.1 + d.1) then b[c].(sensorValue := b[c].sensorValue + 1) else b[c]
  {
  }

  /** The neighbours of `m` raised once the loops are at (dx, dy): those at offsets already visited. */
  function Raised(b: Board, m: Cell, dx: int, dy: int, c: Cell): Tile
    requires c in b
  {
    if Near(c, m) && OffsetBefore(m, c, dx, dy) then b[c].(sensorValue := b[c].sensorValue + 1) else b[c]
  }

  /** One step of the inner loop keeps `Raised` true at a single cell. */
  lemma BumpedCell(b: Board, m: Cell, dx: int, dy: int, c: Cell)
    requires -1 <= dx <= 1 && 0 <= dy <= 2 && c in b
    requires Bumped(b, m, dx, dy - 1).Keys == b.Keys
    requires Bumped(b, m, dx, dy - 1)[c] == Raised(b, m, dx, dy - 1, c)
    ensures c in Bumped(b, m, dx, dy) && Bumped(b, m, dx, dy)[c] == Raised(b, m, dx, dy, c)
  {
    var prev := Bumped(b, m, dx, dy - 1);
    var n := (m.0 + dx, m.1 + dy - 1);
    if (dx, dy - 1) != (0, 0) && c == n {
      assert Bumped(b, m, dx, dy) == prev[n := prev[n].(sensorValue := prev[n].sensorValue + 1)];
    } else if (dx, dy - 1) == (0, 0) || n !in prev {
      assert Bumped(b, m, dx, dy) == prev;
    } else {
      assert Bumped(b, m, dx, dy) == prev[n := prev[n].(sensorValue := prev[n].sensorValue + 1)];
    }
  }

  /** Once the loops are at (dx, dy), exactly the neighbours of `m` at offsets already visited have gained one. */
  ghost predicate RaisedUpTo(b: Board, m: Cell, dx: int, dy: int)
    requires OffsetLoop(dx, dy)
  {
    && Bumped(b, m, dx, dy).Keys == b.Keys
    && forall c :: c in b ==> Bumped(b, m, dx, dy)[c] == Raised(b, m, dx, dy, c)
  }

  /** Part way through, exactly the neighbours at offsets already visited have gained one. */
  lemma {:induction false} BumpedAt(b: Board, m: Cell, dx: int, dy: int)
    requires OffsetLoop(dx, dy)
    ensures RaisedUpTo(b, m, dx, dy)
    decreases dx + 1, dy + 1
  {
    if dy > -1 {
      BumpedAt(b, m, dx, dy - 1);
      BumpedStep(b, m, dx, dy);
    } else if dx > -1 {
      BumpedAt(b, m, dx - 1, 2);
      RaisedRow(b, m, dx);
    }
  }

  /** The end of one pass of the inner loop is the start of the next. */
  lemma RaisedRow(b: Board, m: Cell, dx: int)
    requires 0 <= dx <= 2 && RaisedUpTo(b, m, dx - 1, 2)
    ensures RaisedUpTo(b, m, dx, -1)
  {
    assert forall c :: c in b ==> Raised(b, m, dx - 1, 2, c) == Raised(b, m, dx, -1, c);
  }

  /** One step of the inner loop keeps `Raised` true on the whole board. */
  lemma BumpedStep(b: Board, m: Cell, dx: int, dy: int)
    requires -1 <= dx <= 1 && 0 <= dy <= 2 && RaisedUpTo(b, m, dx, dy - 1)
    ensures RaisedUpTo(b, m, dx, dy)
  {
    BumpOneAt(Bumped(b, m, dx, dy - 1), m, (dx, dy - 1));
    forall c | c in b
      ensures Bumped(b, m, dx, dy)[c] == Raised(b, m, dx, dy, c)
    {
      BumpedCell(b, m, dx, dy, c);
    }
  }

  /** When both loops are done, the board is `Bump(b, m)`. */
  lemma BumpedAll(b: Board, m: Cell)
    ensures Bumped(b, m, 2, -1) == Bump(b, m)
  {
    BumpedAt(b, m, 2, -1);
    var r, s := Bumped(b, m, 2, -1), Bump(b, m);
    forall c | c in b
      ensures r[c] == s[c]
    {
      assert r[c] == Raised(b, m, 2, -1, c);
    }
  }

  /** Bumping changes only sensor values. */
  lemma BumpKeepsRest(b: Board, m: Cell)
    ensures forall c :: c in b ==> Bump(b, m)[c] == b[c].(sensorValue := Bump(b, m)[c].sensorValue)
  {
  }

  /**
   * `b` after every tile's sensor value has been raised by the number of
   * cells of `done` around it.
   */
  function Counted(b: Board, done: set<Cell>): (r: Board)
    ensures r.Keys == b.Keys
  {
    map c | c in b :: b[c].(sensorValue := b[c].sensorValue + AdjacentIn(done, c))
  }

  /** The step of `calculateSensorValues` at (x, y): only a mine there raises its neighbours. */
  function MineStep(b: Board, c: Cell): Board
  {
    if c in b && b[c].kind == MINE then Bump(b, c) else b
  }

  /**
   * The board when the loops of `calculateSensorValues` (x outer, y inner,
   * y running up to `h`) are at (x, y).
   */
  function SensorPass(b: Board, h: int, x: int, y: int): Board
    requires 0 <= x && 0 <= y <= h
    decreases x, y
  {
    if y > 0 then MineStep(SensorPass(b, h, x, y - 1), (x, y - 1))
    else if x > 0 then SensorPass(b, h, x - 1, h)
    else b
  }

  /** The cells the sensor pass has handled when it is about to look at (x, y). */
  predicate Before(c: Cell, x: int, y: int)
  {
    c.0 < x || (c.0 == x && c.1 < y)
  }

  /** The mines of `b` the sensor pass has handled when it reaches (x, y). */
  function MinesBefore(b: Board, x: int, y: int): set<Cell>
  {
    set c | c in Mines(b) && Before(c, x, y)
  }

  lemma CountedNone(b: Board)
    ensures Counted(b, {}) == b
  {
    forall c | c in b
      ensures Counted(b, {})[c] == b[c]
    {
      assert (set n | n in {} && Near(c, n)) == {};
    }
  }

  /** Handling one more mine `m` is one `Bump` around it. */
  lemma CountedBump(b: Board, done: set<Cell>, m: Cell)
    requires m !in done
    ensures Bump(Counted(b, done), m) == Counted(b, done + {m})
  {
    forall c | c in b
      ensures Bump(Counted(b, done), m)[c] == Counted(b, done + {m})[c]
    {
      AdjacentAdd(done, m, c);
    }
  }

  /** Looking at cell c = (x, y) adds c to the handled mines exactly when it is a mine. */
  lemma SensorPassStep(b: Board, x: int, y: int)
    ensures MineStep(Counted(b, MinesBefore(b, x, y)), (x, y)) == Counted(b, MinesBefore(b, x, y + 1))
  {
    var done, c := MinesBefore(b, x, y), (x, y);
    MinesBeforeNext(b, x, y);
    if c in Mines(b) {
      assert c in Counted(b, done) && Counted(b, done)[c].kind == MINE;
      CountedBump(b, done, c);
      assert MinesBefore(b, x, y + 1) == done + {c};
    } else {
      assert MineStep(Counted(b, done), c) == Counted(b, done);
      assert MinesBefore(b, x, y + 1) == done;
    }
  }

  lemma MinesBeforeNext(b: Board, x: int, y: int)
    ensures (x, y) !in MinesBefore(b, x, y)
    ensures MinesBefore(b, x, y + 1) == MinesBefore(b, x, y) + if (x, y) in Mines(b) then {(x, y)} else {}
  {
  }

  /**
   * Part way through, every tile has gained the number of mines around it
   * that the pass has already handled.
   */
  lemma {:induction false} SensorPassAt(b: Board, w: int, h: int, x: int, y: int)
    requires IsGrid(b, w, h) && 0 <= x && 0 <= y <= h
    ensures SensorPass(b, h, x, y) == Counted(b, MinesBefore(b, x, y))
    decreases x, y
  {
    if y > 0 {
      SensorPassAt(b, w, h, x, y - 1);
      SensorPassStep(b, x, y - 1);
      assert SensorPass(b, h, x, y) == MineStep(SensorPass(b, h, x, y - 1), (x, y - 1));
    } else if x > 0 {
      SensorPassAt(b, w, h, x - 1, h);
      assert MinesBefore(b, x, 0) == MinesBefore(b, x - 1, h);
      assert SensorPass(b, h, x, 0) == SensorPass(b, h, x - 1, h);
    } else {
      assert MinesBefore(b, 0, 0) == {};
      CountedNone(b);
    }
  }

  /**
   * The whole pass over a w x h board raises every tile by the number of
   * mines around it; starting from zeros, the hints become exact and lie in 0..8.
   */
  lemma SensorPassExact(b: Board, w: int, h: int)
    requires IsGrid(b, w, h) && 0 <= w && 0 <= h
    requires forall c :: c in b ==> b[c].sensorValue == 0
    ensures var r := SensorPass(b, h, w, 0);
      && r.Keys == b.Keys
      && (forall c :: c in b ==> r[c] == b[c].(sensorValue := r[c].sensorValue))
      && HintsExact(r)
      && (forall c :: c in r ==> r[c].sensorValue <= 8)
  {
    SensorPassAt(b, w, h, w, 0);
    assert MinesBefore(b, w, 0) == Mines(b);
    var r := SensorPass(b, h, w, 0);
    assert Mines(r) == Mines(b);
    forall c | c in r
      ensures r[c].sensorValue <= 8
    {
      AdjacentAtMostEight(Mines(b), c);
    }
  }
}
