/**
 * Board set-up (Grid.java `initGrid` and the row-string constructor) as
 * functions on boards: the fresh w x h board, the exit and the reserved
 * 2x2 block written before the mines are placed, the block cleared again
 * afterwards, and the board a list of '0'/'1' rows describes.
 */
module Setup {
  import opened Tiles
  import opened Boards
  import opened Sensors
  import opened Placement

  /** The cells of a w x h grid. */
  function Cells(w: int, h: int): set<Cell>
  {
    set a, b | 0 <= a < w && 0 <= b < h :: (a, b)
  }

  /** The board `initGrid` allocates: a new tile at every cell. */
  function FreshBoard(w: int, h: int): (b: Board)
    ensures b.Keys == Cells(w, h)
  {
    map c | c in Cells(w, h) :: NewTile(c.0, c.1)
  }

  /** `b` with the kind of the tile at `c` set to `k`, as `tiles[x][y].type = k` does. */
  function SetKind(b: Board, c: Cell, k: int): (r: Board)
    ensures r.Keys == b.Keys
  {
    if c in b then b[c := b[c].(kind := k)] else b
  }

  /** The safe block in the top-left corner, reserved during placement and cleared afterwards. */
  function Block(): set<Cell>
  {
    {(0, 0), (1, 0), (0, 1), (1, 1)}
  }

  /** The board just before `placeMines`: the exit in the far corner, then the block reserved. */
  function Prepared(w: int, h: int): Board
  {
    var withExit := SetKind(FreshBoard(w, h), (w - 1, h - 1), EXIT);
    SetKind(SetKind(SetKind(SetKind(withExit, (0, 0), RESERVED), (1, 0), RESERVED), (0, 1), RESERVED), (1, 1), RESERVED)
  }

  /** The block set back to EMPTY, in the source's order. */
  function Cleared(b: Board): Board
  {
    SetKind(SetKind(SetKind(SetKind(b, (0, 0), EMPTY), (0, 1), EMPTY), (1, 0), EMPTY), (1, 1), EMPTY)
  }

  /** The cells `placeMines` may mine: every cell except the block and the exit. */
  function Free(w: int, h: int): set<Cell>
  {
    Cells(w, h) - Block() - {(w - 1, h - 1)}
  }

  /** `b` covers the w x h grid and each tile is a new one except, perhaps, for its kind. */
  ghost predicate KindsOnly(b: Board, w: int, h: int)
  {
    && IsGrid(b, w, h)
    && forall c :: c in b ==> b[c] == NewTile(c.0, c.1).(kind := b[c].kind)
  }

  /** Setting a kind touches only that cell. */
  lemma SetKindAt(b: Board, c: Cell, k: int, x: Cell)
    requires x in b
    ensures x in SetKind(b, c, k)
    ensures SetKind(b, c, k)[x] == if x == c then b[x].(kind := k) else b[x]
  {
  }

  /** The five kind assignments of `initGrid`, one board after another, end in `Prepared`. */
  lemma PreparedSteps(w: int, h: int, b0: Board, b1: Board, b2: Board, b3: Board, b4: Board, b5: Board)
    requires b0 == FreshBoard(w, h)
    requires b1 == SetKind(b0, (w - 1, h - 1), EXIT)
    requires b2 == SetKind(b1, (0, 0), RESERVED)
    requires b3 == SetKind(b2, (1, 0), RESERVED)
    requires b4 == SetKind(b3, (0, 1), RESERVED)
    requires b5 == SetKind(b4, (1, 1), RESERVED)
    ensures b5 == Prepared(w, h)
  {
  }

  /** The kind `Prepared` gives each cell: RESERVED in the block, EXIT in the far corner, EMPTY elsewhere. */
  function PreparedKind(w: int, h: int, c: Cell): int
  {
    if c in Block() then RESERVED else if c == (w - 1, h - 1) then EXIT else EMPTY
  }

  /** Before placement the tiles are new ones of kind `PreparedKind`. */
  lemma {:induction false} PreparedAt(w: int, h: int)
    ensures Prepared(w, h).Keys == Cells(w, h)
    ensures forall c :: c in Cells(w, h) ==> Prepared(w, h)[c] == NewTile(c.0, c.1).(kind := PreparedKind(w, h, c))
  {
    var b0 := FreshBoard(w, h);
    var b1 := SetKind(b0, (w - 1, h - 1), EXIT);
    var b2 := SetKind(b1, (0, 0), RESERVED);
    var b3 := SetKind(b2, (1, 0), RESERVED);
    var b4 := SetKind(b3, (0, 1), RESERVED);
    var b5 := SetKind(b4, (1, 1), RESERVED);
    assert b5 == Prepared(w, h);
    forall c | c in Cells(w, h)
      ensures b5[c] == NewTile(c.0, c.1).(kind := PreparedKind(w, h, c))
    {
      SetKindAt(b0, (w - 1, h - 1), EXIT, c);
      SetKindAt(b1, (0, 0), RESERVED, c);
      SetKindAt(b2, (1, 0), RESERVED, c);
      SetKindAt(b3, (0, 1), RESERVED, c);
      SetKindAt(b4, (1, 1), RESERVED, c);
    }
  }

  /** The fresh board covers the grid and holds only new tiles. */
  lemma FreshBoardFacts(w: int, h: int)
    ensures KindsOnly(FreshBoard(w, h), w, h)
    ensures forall c :: c in FreshBoard(w, h) ==> FreshBoard(w, h)[c] == NewTile(c.0, c.1)
  {
  }

  /** Before placement the free cells are exactly the EMPTY ones, and there is no mine. */
  lemma {:induction false} PreparedFacts(w: int, h: int)
    requires w >= 2 && h >= 2
    ensures var p := Prepared(w, h);
      && KindsOnly(p, w, h)
      && Empties(p) == Free(w, h)
      && Mines(p) == {}
      && (forall k :: k in Block() ==> k in p && p[k].kind == RESERVED)
      && ((w >= 3 || h >= 3) ==> (w - 1, h - 1) in p && p[(w - 1, h - 1)].kind == EXIT)
  {
    var p := Prepared(w, h);
    PreparedAt(w, h);
    assert forall c :: c in Empties(p) <==> c in Free(w, h);
    assert forall c :: c !in Mines(p);
  }

  /** Placement on the prepared board mines exactly the placed cells, none of them in the block or the exit. */
  lemma {:induction false} PlacedFacts(w: int, h: int, samples: seq<Cell>, need: int)
    requires w >= 2 && h >= 2
    ensures var m := PlaceAll(Prepared(w, h), samples, need);
      && KindsOnly(m, w, h)
      && Mines(m) == Placed(Free(w, h), samples, need)
      && ((w >= 3 || h >= 3) ==> (w - 1, h - 1) in m && m[(w - 1, h - 1)].kind == EXIT)
      && (forall k :: k in Block() ==> k in m && m[k].kind != MINE)
  {
    PreparedFacts(w, h);
    PlacedOn(Prepared(w, h), w, h, samples, need);
  }

  /** Placement on a board whose empty cells are the free ones and which holds no mine. */
  lemma {:induction false} PlacedOn(p: Board, w: int, h: int, samples: seq<Cell>, need: int)
    requires w >= 2 && h >= 2 && KindsOnly(p, w, h) && Empties(p) == Free(w, h) && Mines(p) == {}
    requires (w >= 3 || h >= 3) ==> (w - 1, h - 1) in p && p[(w - 1, h - 1)].kind == EXIT
    ensures var m := PlaceAll(p, samples, need);
      && KindsOnly(m, w, h)
      && Mines(m) == Placed(Free(w, h), samples, need)
      && ((w >= 3 || h >= 3) ==> (w - 1, h - 1) in m && m[(w - 1, h - 1)].kind == EXIT)
      && (forall k :: k in Block() ==> k in m && m[k].kind != MINE)
  {
    var m := PlaceAll(p, samples, need);
    PlaceMinesOutcome(p, samples, need);
    KindsKept(p, m, w, h);
    forall k | k in Block()
      ensures k in m && m[k].kind != MINE
    {
      assert k !in Free(w, h);
      assert k !in Mines(m);
    }
  }

  /** A board that differs from `b` only in kinds keeps `KindsOnly`. */
  lemma {:induction false} KindsKept(b: Board, r: Board, w: int, h: int)
    requires KindsOnly(b, w, h) && r.Keys == b.Keys
    requires forall c :: c in b ==> r[c] == b[c].(kind := r[c].kind)
    ensures KindsOnly(r, w, h)
  {
    forall c | c in r
      ensures r[c] == NewTile(c.0, c.1).(kind := r[c].kind)
    {
      assert b[c] == NewTile(c.0, c.1).(kind := b[c].kind);
    }
  }

  /** The cleared board: the block is EMPTY and everything else is kept. */
  lemma {:induction false} ClearedFacts(m: Board, w: int, h: int)
    requires KindsOnly(m, w, h) && w >= 2 && h >= 2
    requires forall k :: k in Block() ==> m[k].kind != MINE
    ensures var c := Cleared(m);
      && KindsOnly(c, w, h)
      && Mines(c) == Mines(m)
      && (forall k :: k in Block() ==> c[k].kind == EMPTY)
      && (forall k :: k in m && k !in Block() ==> c[k] == m[k])
      && ((w >= 3 || h >= 3) ==> c[(w - 1, h - 1)] == m[(w - 1, h - 1)])
  {
    var c := Cleared(m);
    ClearedAt(m);
    KindsKept(m, c, w, h);
    assert forall k :: k in Mines(c) <==> k in Mines(m);
  }

  /** Clearing sets the block's kinds to EMPTY and keeps every other tile. */
  lemma {:induction false} ClearedAt(m: Board)
    ensures Cleared(m).Keys == m.Keys
    ensures forall k :: k in m ==> Cleared(m)[k] == if k in Block() then m[k].(kind := EMPTY) else m[k]
  {
    var b1 := SetKind(m, (0, 0), EMPTY);
    var b2 := SetKind(b1, (0, 1), EMPTY);
    var b3 := SetKind(b2, (1, 0), EMPTY);
    var c := SetKind(b3, (1, 1), EMPTY);
    assert c == Cleared(m);
    forall k | k in m
      ensures c[k] == if k in Block() then m[k].(kind := EMPTY) else m[k]
    {
      SetKindAt(m, (0, 0), EMPTY, k);
      SetKindAt(b1, (0, 1), EMPTY, k);
      SetKindAt(b2, (1, 0), EMPTY, k);
      SetKindAt(b3, (1, 1), EMPTY, k);
    }
  }

  /** The sensor pass over a board of new tiles: exact hints, kinds, flags and hidden states kept. */
  lemma {:induction false} SensedFacts(c: Board, w: int, h: int)
    requires KindsOnly(c, w, h) && w >= 2 && h >= 2
    ensures var s := SensorPass(c, h, w, 0);
      && IsGrid(s, w, h)
      && Mines(s) == Mines(c)
      && HintsExact(s)
      && (forall k :: k in c ==> s[k].kind == c[k].kind && s[k].hidden && !s[k].flagged)
  {
    SensorPassExact(c, w, h);
    var s := SensorPass(c, h, w, 0);
    assert forall k :: k in Mines(s) <==> k in Mines(c);
  }

  /**
   * The predicate `initGrid` leaves true of the board `r` of a w x h grid
   * whose placement drew `samples` for `need` mines: the mines are the
   * placed ones, the hints are exact, the block is EMPTY and (0,0) and
   * (1,1) are revealed, the exit is in the far corner unless the block
   * covers it, no tile is flagged, no revealed tile is a mine, and with
   * enough distinct free draws there are exactly `need` mines.
   */
  ghost predicate StartBoard(r: Board, w: int, h: int, samples: seq<Cell>, need: int)
  {
    && IsGrid(r, w, h)
    && Mines(r) == Placed(Free(w, h), samples, need)
    && HintsExact(r)
    && (forall k :: k in Block() ==> k in r && r[k].kind == EMPTY)
    && (0, 0) in r && !r[(0, 0)].hidden && (1, 1) in r && !r[(1, 1)].hidden
    && ((w >= 3 || h >= 3) ==> (w - 1, h - 1) in r && r[(w - 1, h - 1)].kind == EXIT)
    && (forall k :: k in r ==> !r[k].flagged)
    && (forall k :: k in r && !r[k].hidden ==> r[k].kind != MINE)
    && (|Hits(Free(w, h), samples)| >= need ==> |Mines(r)| == if need < 0 then 0 else need)
  }

  /** The board `initGrid` has made when it starts revealing: placed, cleared and with its hints counted. */
  function Sensed(w: int, h: int, samples: seq<Cell>, need: int): Board
    requires w >= 0 && h >= 0
  {
    SensorPass(Cleared(PlaceAll(Prepared(w, h), samples, need)), h, w, 0)
  }

  /** Before the reveals: the placed mines, exact hints, the block EMPTY, the exit kept, every tile hidden and unflagged. */
  lemma {:induction false} SensedChain(w: int, h: int, samples: seq<Cell>, need: int)
    requires w >= 2 && h >= 2
    ensures var s := Sensed(w, h, samples, need);
      && IsGrid(s, w, h)
      && Mines(s) == Placed(Free(w, h), samples, need)
      && HintsExact(s)
      && (forall k :: k in Block() ==> k in s && s[k].kind == EMPTY)
      && ((w >= 3 || h >= 3) ==> (w - 1, h - 1) in s && s[(w - 1, h - 1)].kind == EXIT)
      && (forall k :: k in s ==> s[k].hidden && !s[k].flagged)
  {
    var m := PlaceAll(Prepared(w, h), samples, need);
    PlacedFacts(w, h, samples, need);
    ClearedFacts(m, w, h);
    SensedFacts(Cleared(m), w, h);
  }

  /**
   * `initGrid` ends in a start board: after the sensor pass, revealing
   * (0,0) and then (1,1) hits no mine and only uncovers tiles.
   */
  lemma {:induction false} InitGridOutcome(w: int, h: int, samples: seq<Cell>, need: int,
                                           mid: Board, r: Board, hit0: bool, hit1: bool)
    requires w >= 2 && h >= 2
    requires RevealOutcome(Sensed(w, h, samples, need), mid, (0, 0), hit0)
    requires RevealOutcome(mid, r, (1, 1), hit1)
    ensures !hit0 && !hit1
    ensures StartBoard(r, w, h, samples, need)
  {
    SensedChain(w, h, samples, need);
    if |Hits(Free(w, h), samples)| >= need {
      PlacedExactly(Free(w, h), samples, need);
    }
    RevealsFrom(Sensed(w, h, samples, need), w, h, Placed(Free(w, h), samples, need), mid, r, hit0, hit1);
  }

  /** Revealing (0,0) and then (1,1) on a hidden, unflagged board with exact hints and an EMPTY block. */
  lemma {:induction false} RevealsFrom(s: Board, w: int, h: int, mines: set<Cell>, mid: Board, r: Board, hit0: bool, hit1: bool)
    requires IsGrid(s, w, h) && Mines(s) == mines && HintsExact(s)
    requires forall k :: k in Block() ==> k in s && s[k].kind == EMPTY
    requires forall k :: k in s ==> s[k].hidden && !s[k].flagged
    requires RevealOutcome(s, mid, (0, 0), hit0) && RevealOutcome(mid, r, (1, 1), hit1)
    ensures !hit0 && !hit1
    ensures IsGrid(r, w, h) && Mines(r) == mines && HintsExact(r)
    ensures forall k :: k in s ==> r[k].kind == s[k].kind && !r[k].flagged
    ensures !r[(0, 0)].hidden && !r[(1, 1)].hidden
    ensures forall k :: k in r && !r[k].hidden ==> r[k].kind != MINE
  {
    RevealSafely(s, mid, w, h, mines, (0, 0), hit0);
    RevealSafely(mid, r, w, h, mines, (1, 1), hit1);
  }

  /** One reveal of an EMPTY tile on a board whose uncovered tiles are no mines and whose tiles carry no flag. */
  lemma {:induction false} RevealSafely(s: Board, r: Board, w: int, h: int, mines: set<Cell>, t: Cell, hit: bool)
    requires IsGrid(s, w, h) && Mines(s) == mines && HintsExact(s)
    requires t in s && s[t].kind == EMPTY
    requires forall k :: k in s ==> !s[k].flagged && (!s[k].hidden ==> s[k].kind != MINE)
    requires RevealOutcome(s, r, t, hit)
    ensures !hit
    ensures IsGrid(r, w, h) && Mines(r) == mines && HintsExact(r)
    ensures forall k :: k in s ==> r[k].kind == s[k].kind && !r[k].flagged && (!s[k].hidden ==> !r[k].hidden)
    ensures !r[t].hidden
    ensures forall k :: k in r ==> !r[k].flagged && (!r[k].hidden ==> r[k].kind != MINE)
  {
    RevealOnlyUncovers(s, r, t, hit);
    RevealHitsOnlyTarget(s, r, t, hit);
    UnhidesKeepsHints(s, r);
    forall k | k in r && !r[k].hidden
      ensures r[k].kind != MINE
    {
      if s[k].hidden {
        assert Newly(s, r, k);
      }
    }
  }

  /** The row-string constructor's loops (y outer, x inner) have written `c` once they are at (x, y). */
  predicate RowBefore(c: Cell, x: int, y: int)
  {
    c.1 < y || (c.1 == y && c.0 < x)
  }

  /** The mines among the tiles the row-string constructor has written when it is at (x, y). */
  function Parsed(b: Board, x: int, y: int): set<Cell>
  {
    set c | c in b && RowBefore(c, x, y) && b[c].kind == MINE
  }

  /** Writing tile `t` at (x, y) adds (x, y) to the parsed mines exactly when `t` is a mine. */
  lemma {:induction false} ParsedStep(b: Board, x: int, y: int, t: Tile)
    requires (x, y) in b
    ensures |Parsed(b[(x, y) := t], x + 1, y)| == |Parsed(b, x, y)| + if t.kind == MINE then 1 else 0
  {
    var b1 := b[(x, y) := t];
    var before := Parsed(b, x, y);
    assert (x, y) !in before;
    assert Parsed(b1, x, y) == before;
    if t.kind == MINE {
      assert Parsed(b1, x + 1, y) == before + {(x, y)};
    } else {
      assert Parsed(b1, x + 1, y) == before;
    }
  }

  /** Every tile the row-string constructor has written by (x, y) is the one the rows describe. */
  ghost predicate RowsUpTo(b: Board, rows: seq<string>, x: int, y: int)
  {
    forall c :: c in b && RowBefore(c, x, y) && 0 <= c.1 < |rows| && 0 <= c.0 < |rows[c.1]| ==> b[c] == RowTile(rows, c)
  }

  /** Writing the tile the rows describe at (x, y) moves the written part on by one cell. */
  lemma RowsUpToStep(b: Board, rows: seq<string>, x: int, y: int)
    requires RowsUpTo(b, rows, x, y) && 0 <= y < |rows| && 0 <= x < |rows[y]|
    ensures RowsUpTo(b[(x, y) := RowTile(rows, (x, y))], rows, x + 1, y)
  {
  }

  /** On a board `w` wide, the end of row y is the start of row y + 1. */
  lemma RowsUpToRow(b: Board, rows: seq<string>, w: int, y: int)
    requires IsGrid(b, w, |rows|) && RowsUpTo(b, rows, w, y)
    ensures RowsUpTo(b, rows, 0, y + 1)
  {
    assert forall c :: c in b ==> (RowBefore(c, w, y) <==> RowBefore(c, 0, y + 1));
  }

  /** Once every row is written, the board is the one the rows describe. */
  lemma RowsUpToAll(b: Board, rows: seq<string>, w: int)
    requires RowsFit(rows, w) && IsGrid(b, w, |rows|) && RowsUpTo(b, rows, 0, |rows|)
    ensures b == RowsBoard(rows, w)
  {
    forall c | c in b
      ensures b[c] == RowsBoard(rows, w)[c]
    {
      assert RowBefore(c, 0, |rows|);
    }
  }

  /** On a board `w` wide, the end of row y is the start of row y + 1. */
  lemma ParsedRow(b: Board, w: int, h: int, y: int)
    requires IsGrid(b, w, h)
    ensures Parsed(b, w, y) == Parsed(b, 0, y + 1)
  {
    assert forall c :: c in b ==> (RowBefore(c, w, y) <==> RowBefore(c, 0, y + 1));
  }

  /** Once every row is written, the parsed mines are all the mines. */
  lemma ParsedAll(b: Board, w: int, h: int)
    requires IsGrid(b, w, h)
    ensures Parsed(b, 0, h) == Mines(b)
  {
    assert forall c :: c in Parsed(b, 0, h) <==> c in Mines(b);
  }

  /** The tile the row-string constructor puts at (x, y): new, and a mine exactly when `rows[y][x]` is '1'. */
  function RowTile(rows: seq<string>, c: Cell): (t: Tile)
    requires 0 <= c.1 < |rows| && 0 <= c.0 < |rows[c.1]|
    ensures t.x == c.0 && t.y == c.1 && t.hidden && !t.flagged && t.sensorValue == 0
    ensures t.kind == MINE <==> rows[c.1][c.0] == '1'
    ensures t.kind == MINE || t.kind == EMPTY
  {
    NewTile(c.0, c.1).(kind := if rows[c.1][c.0] == '1' then MINE else EMPTY)
  }

  /** The rows are a board of width `w`: there are at least two, each at least `w >= 2` long. */
  predicate RowsFit(rows: seq<string>, w: int)
  {
    |rows| >= 2 && w >= 2 && forall y :: 0 <= y < |rows| ==> |rows[y]| >= w
  }

  /** The board the row-string constructor builds from `rows`, `w` columns wide. */
  function RowsBoard(rows: seq<string>, w: int): (b: Board)
    requires RowsFit(rows, w)
    ensures b.Keys == Cells(w, |rows|)
  {
    map c | c in Cells(w, |rows|) :: RowTile(rows, c)
  }

  /** The positions of the '1' characters within the first `w` columns of the rows. */
  function Ones(rows: seq<string>, w: int): set<Cell>
    requires RowsFit(rows, w)
  {
    set c | c in Cells(w, |rows|) && rows[c.1][c.0] == '1'
  }

  /**
   * The parsed board covers the grid, its mines are exactly the '1'
   * characters, and there is no exit, no revealed tile, no flag and no hint.
   */
  lemma RowsBoardFacts(rows: seq<string>, w: int)
    requires RowsFit(rows, w)
    ensures var b := RowsBoard(rows, w);
      && IsGrid(b, w, |rows|)
      && Mines(b) == Ones(rows, w)
      && (forall c :: c in b ==> b[c].kind != EXIT && b[c].hidden && !b[c].flagged && b[c].sensorValue == 0)
  {
    var b := RowsBoard(rows, w);
    assert forall c :: c in Mines(b) <==> c in Ones(rows, w);
  }
}
