/**
 * Mine placement (Grid.java `placeMines`) as functions on boards. The
 * source draws random cells until it has turned `numMines` empty tiles into
 * mines; here the draws are a given sequence of cells.
 */
module Placement {
  import opened Tiles
  import opened Boards

  /** The cells of `b` whose tile is of kind EMPTY: the only cells `placeMines` may mine. */
  function Empties(b: Board): set<Cell>
  {
    set c | c in b && b[c].kind == EMPTY
  }

  /**
   * The board `placeMines` leaves when the draws are `samples` and `need`
   * mines are still to place: a draw on an empty tile makes it a mine,
   * any other draw is skipped, and it stops once nothing is needed or the
   * draws run out.
   */
  function PlaceAll(b: Board, samples: seq<Cell>, need: int): Board
    decreases |samples|
  {
    if need <= 0 || samples == [] then b
    else
      var c := samples[0];
      if c in b && b[c].kind == EMPTY then PlaceAll(b[c := b[c].(kind := MINE)], samples[1..], need - 1)
      else PlaceAll(b, samples[1..], need)
  }

  /**
   * The cells that become mines: each draw that lands on a still-free cell
   * takes it, until `need` cells are taken or the draws run out.
   */
  function Placed(free: set<Cell>, samples: seq<Cell>, need: int): (r: set<Cell>)
    ensures r <= free
    ensures |r| <= if need < 0 then 0 else need
    decreases |samples|
  {
    if need <= 0 || samples == [] then {}
    else if samples[0] in free then {samples[0]} + Placed(free - {samples[0]}, samples[1..], need - 1)
    else Placed(free, samples[1..], need)
  }

  /** `b` with the tiles at the cells of `s` turned into mines. */
  function Mark(b: Board, s: set<Cell>): (r: Board)
    ensures r.Keys == b.Keys
  {
    map c | c in b :: if c in s then b[c].(kind := MINE) else b[c]
  }

  /** The free cells the draws hit, each counted once. */
  function Hits(free: set<Cell>, samples: seq<Cell>): set<Cell>
  {
    set c | c in samples && c in free
  }

  lemma MarkNone(b: Board)
    ensures Mark(b, {}) == b
  {
  }

  /** Marking one more free cell `c` first, then the rest, is marking both. */
  lemma MarkOne(b: Board, c: Cell, s: set<Cell>)
    requires c in b
    ensures Mark(b[c := b[c].(kind := MINE)], s) == Mark(b, s + {c})
  {
    var b1 := b[c := b[c].(kind := MINE)];
    forall k | k in b
      ensures Mark(b1, s)[k] == Mark(b, s + {c})[k]
    {
    }
    assert Mark(b, s + {c}).Keys == Mark(b1, s).Keys;
  }

  /** Mining a cell takes it out of the empty cells and leaves the others. */
  lemma EmptiesAfterMine(b: Board, c: Cell)
    requires c in Empties(b)
    ensures Empties(b[c := b[c].(kind := MINE)]) == Empties(b) - {c}
  {
  }

  /** `placeMines` mines exactly the cells of `Placed` over the board's empty cells and changes nothing else. */
  lemma {:induction false} PlaceAllMarks(b: Board, samples: seq<Cell>, need: int)
    ensures PlaceAll(b, samples, need) == Mark(b, Placed(Empties(b), samples, need))
    decreases |samples|
  {
    if need <= 0 || samples == [] {
      MarkNone(b);
    } else {
      var c := samples[0];
      if c in b && b[c].kind == EMPTY {
        var b1 := b[c := b[c].(kind := MINE)];
        var rest := Placed(Empties(b) - {c}, samples[1..], need - 1);
        assert PlaceAll(b, samples, need) == PlaceAll(b1, samples[1..], need - 1);
        PlaceAllMarks(b1, samples[1..], need - 1);
        EmptiesAfterMine(b, c);
        assert PlaceAll(b1, samples[1..], need - 1) == Mark(b1, rest);
        MarkOne(b, c, rest);
        assert Placed(Empties(b), samples, need) == {c} + rest;
        assert rest + {c} == {c} + rest;
      } else {
        PlaceAllMarks(b, samples[1..], need);
        assert c !in Empties(b);
      }
    }
  }

  /** When the draws hit at least `need` different free cells, exactly `need` mines are placed. */
  lemma {:induction false} PlacedExactly(free: set<Cell>, samples: seq<Cell>, need: int)
    requires |Hits(free, samples)| >= need
    ensures |Placed(free, samples, need)| == if need < 0 then 0 else need
    decreases |samples|
  {
    if need <= 0 || samples == [] {
    } else if samples[0] in free {
      var s := samples[0];
      assert Hits(free, samples) <= Hits(free - {s}, samples[1..]) + {s};
      SubsetCard(Hits(free, samples), Hits(free - {s}, samples[1..]) + {s});
      PlacedExactly(free - {s}, samples[1..], need - 1);
      assert s !in Placed(free - {s}, samples[1..], need - 1);
    } else {
      assert Hits(free, samples) == Hits(free, samples[1..]);
      PlacedExactly(free, samples[1..], need);
    }
  }

  /**
   * What `placeMines` promises: only empty tiles become mines, nothing else
   * changes, and with enough distinct empty cells among the draws exactly
   * `need` tiles become mines.
   */
  lemma PlaceMinesOutcome(b: Board, samples: seq<Cell>, need: int)
    ensures var r := PlaceAll(b, samples, need);
      && r.Keys == b.Keys
      && (forall c :: c in b ==> r[c] == b[c] || (b[c].kind == EMPTY && r[c] == b[c].(kind := MINE)))
      && Mines(r) == Mines(b) + Placed(Empties(b), samples, need)
      && (|Hits(Empties(b), samples)| >= need ==> |Placed(Empties(b), samples, need)| == if need < 0 then 0 else need)
  {
    PlaceAllMarks(b, samples, need);
    var r := PlaceAll(b, samples, need);
    var p := Placed(Empties(b), samples, need);
    assert forall c :: c in Mines(r) <==> c in Mines(b) + p;
    if |Hits(Empties(b), samples)| >= need {
      PlacedExactly(Empties(b), samples, need);
    }
  }
}
