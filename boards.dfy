/**
 * Value-level view of a board: a map from (x, y) to the tile there. The
 * imperative Grid (grid.dfy) keeps its tiles in a 2D array; its contracts
 * take snapshots of that array as a `Board` and relate them with the
 * predicates below, which state what revealing, flooding and counting mean.
 */
module Boards {
  import opened Tiles

  type Cell = (int, int)
  type Board = map<Cell, Tile>

  /** `b` covers exactly the cells of a w x h grid, and each tile carries its own coordinates. */
  ghost predicate IsGrid(b: Board, w: int, h: int)
  {
    && (forall c :: c in b <==> 0 <= c.0 < w && 0 <= c.1 < h)
    && (forall c :: c in b ==> b[c].x == c.0 && b[c].y == c.1)
  }

  /** c lies in the 3x3 square centred on p: the source's `dx, dy` loops from -1 to 1. */
  predicate Within1(p: Cell, c: Cell)
  {
    -1 <= c.0 - p.0 <= 1 && -1 <= c.1 - p.1 <= 1
  }

  /** c is one of the (up to) eight neighbours of p. */
  predicate Near(p: Cell, c: Cell)
  {
    Within1(p, c) && p != c
  }

  /** The eight cells around p. */
  function Ring(p: Cell): set<Cell>
  {
    {(p.0 - 1, p.1 - 1), (p.0 - 1, p.1), (p.0 - 1, p.1 + 1), (p.0, p.1 - 1),
     (p.0, p.1 + 1), (p.0 + 1, p.1 - 1), (p.0 + 1, p.1), (p.0 + 1, p.1 + 1)}
  }

  /** Where a pair of nested `dx`, `dy` loops over -1..1 can be: `dx` in -1..1 with `dy` in -1..2, or both loops done. */
  predicate OffsetLoop(dx: int, dy: int)
  {
    (-1 <= dx <= 1 && -1 <= dy <= 2) || (dx == 2 && dy == -1)
  }

  /** The offset (c.0 - m.0, c.1 - m.1) comes before (dx, dy) in the order of those loops (dx outer, dy inner). */
  predicate OffsetBefore(m: Cell, c: Cell, dx: int, dy: int)
  {
    c.0 - m.0 < dx || (c.0 - m.0 == dx && c.1 - m.1 < dy)
  }

  /** How many cells of `s` are neighbours of `c`. */
  function AdjacentIn(s: set<Cell>, c: Cell): nat
  {
    |set n | n in s && Near(c, n)|
  }

  /** The cells of a board that hold a mine. */
  function Mines(b: Board): set<Cell>
  {
    set c | c in b && b[c].kind == MINE
  }

  /** Every tile's sensor value is the number of mines among its in-board neighbours. */
  predicate HintsExact(b: Board)
  {
    forall c :: c in b ==> b[c].sensorValue == AdjacentIn(Mines(b), c)
  }

  /** The number of flagged tiles among the neighbours of `c`. */
  function FlagsAround(b: Board, c: Cell): nat
  {
    |set n | n in b && Near(c, n) && b[n].flagged|
  }

  /** The number of flagged tiles on the whole board. */
  function FlagCount(b: Board): nat
  {
    |set c | c in b && b[c].flagged|
  }

  /** `b1` differs from `b0` at most by tiles that went from hidden to revealed. */
  predicate Unhides(b0: Board, b1: Board)
  {
    b1.Keys == b0.Keys &&
    forall c :: c in b0 ==> b1[c] == b0[c] || b1[c] == b0[c].(hidden := false)
  }

  /** Tile `c` was hidden in `b0` and is revealed in `b1`. */
  predicate Newly(b0: Board, b1: Board, c: Cell)
  {
    c in b0 && c in b1 && b0[c].hidden && !b1[c].hidden
  }

  /** Tile `p` was taken off the flood's queue (the start or a tile the flood revealed) and has value 0. */
  predicate Expanded(b0: Board, b1: Board, s: Cell, p: Cell)
  {
    p in b0 && p in b1 && (p == s || Newly(b0, b1, p)) && b1[p].sensorValue == 0
  }

  /**
   * `order` is an order in which a flood from `s` can take tiles off its
   * queue: it starts at `s`, and every later tile in it was hidden and
   * unflagged, is revealed in `b1`, and borders an earlier zero tile of
   * `order`. So every tile of `order` is reachable from `s` through zero
   * tiles without crossing a flag.
   */
  ghost predicate FloodOrder(b0: Board, b1: Board, s: Cell, order: seq<Cell>)
  {
    && |order| > 0 && order[0] == s
    && (forall i :: 0 <= i < |order| ==> order[i] in b1)
    && (forall i :: 0 < i < |order| ==> Newly(b0, b1, order[i]) && !b0[order[i]].flagged)
    && (forall i :: 0 < i < |order| ==> BordersEarlierZero(b1, order, i))
  }

  /** `order[i]` borders a tile earlier in `order` whose value in `b1` is zero. */
  ghost predicate BordersEarlierZero(b1: Board, order: seq<Cell>, i: int)
    requires 0 <= i < |order|
  {
    exists j :: 0 <= j < i && Near(order[j], order[i]) && order[j] in b1 && b1[order[j]].sensorValue == 0
  }

  /**
   * What a finished flood from `s` leaves behind: only `hidden` changed,
   * `s` is revealed, the tiles it revealed can be put in a `FloodOrder`
   * from `s`, and every unflagged neighbour of an expanded zero tile is
   * revealed.
   */
  ghost predicate FloodDone(b0: Board, b1: Board, s: Cell)
  {
    && Unhides(b0, b1)
    && s in b1 && !b1[s].hidden
    && (exists order :: FloodOrder(b0, b1, s, order) && forall c :: Newly(b0, b1, c) ==> c in order)
    && (forall p, c :: Expanded(b0, b1, s, p) && c in b1 && Near(p, c) && !b1[c].flagged ==>
          !b1[c].hidden)
  }

  /**
   * What revealing `s` does: `hit` says whether `s` is a mine; a mine or a
   * tile with a non-zero value is only uncovered, a zero tile is flooded.
   */
  ghost predicate RevealOutcome(b0: Board, b1: Board, s: Cell, hit: bool)
  {
    && s in b0
    && hit == (b0[s].kind == MINE)
    && if hit || b0[s].sensorValue != 0 then b1 == b0[s := b0[s].(hidden := false)]
       else FloodDone(b0, b1, s)
  }

  /** A tile has at most eight neighbours, so a count of neighbours is at most 8. */
  lemma {:induction false} AdjacentAtMostEight(s: set<Cell>, c: Cell)
    ensures AdjacentIn(s, c) <= 8
  {
    var around := set n | n in s && Near(c, n);
    assert around <= Ring(c);
    SubsetCard(around, Ring(c));
  }

  lemma {:induction false} SubsetCard(a: set<Cell>, b: set<Cell>)
    requires a <= b
    ensures |a| <= |b|
  {
    assert b == a + (b - a);
  }

  /** A tile whose neighbourhood holds no cell of `s` has no neighbour in `s`. */
  lemma {:induction false} AdjacentZero(s: set<Cell>, c: Cell, n: Cell)
    requires AdjacentIn(s, c) == 0 && Near(c, n)
    ensures n !in s
  {
    var around := set k | k in s && Near(c, k);
    assert around == {};
    assert n in s ==> n in around;
  }

  /** Adding one cell to `s` raises the count of every neighbour of that cell by one and no other. */
  lemma {:induction false} AdjacentAdd(s: set<Cell>, m: Cell, c: Cell)
    requires m !in s
    ensures AdjacentIn(s + {m}, c) == AdjacentIn(s, c) + (if Near(c, m) then 1 else 0)
  {
    var before := set n | n in s && Near(c, n);
    var after := set n | n in s + {m} && Near(c, n);
    if Near(c, m) {
      assert after == before + {m};
    } else {
      assert after == before;
    }
  }

  /** Writing a tile of the same kind keeps the mines. */
  lemma SameKindKeepsMines(b: Board, c: Cell, t: Tile)
    requires c in b && t.kind == b[c].kind
    ensures Mines(b[c := t]) == Mines(b)
  {
    assert forall n :: n in Mines(b[c := t]) <==> n in Mines(b);
  }

  /** Revealing never changes what is a mine, so exact hints stay exact. */
  lemma {:induction false} UnhidesKeepsHints(b0: Board, b1: Board)
    requires Unhides(b0, b1) && HintsExact(b0)
    ensures Mines(b1) == Mines(b0)
    ensures HintsExact(b1)
  {
    assert forall c :: c in Mines(b1) <==> c in Mines(b0);
  }

  lemma UnhidesTransitive(b0: Board, b1: Board, b2: Board)
    requires Unhides(b0, b1) && Unhides(b1, b2)
    ensures Unhides(b0, b2)
  {
  }

  /** Whatever a reveal does, it only uncovers tiles, and the target ends up revealed. */
  lemma {:induction false} RevealOnlyUncovers(b0: Board, b1: Board, s: Cell, hit: bool)
    requires RevealOutcome(b0, b1, s, hit)
    ensures Unhides(b0, b1) && s in b1 && !b1[s].hidden
  {
  }

  /**
   * With exact hints a flood never uncovers a mine: each tile it reveals
   * borders a zero tile, and a zero tile has no mine around it.
   */
  lemma {:induction false} FloodRevealsNoMine(b0: Board, b1: Board, s: Cell)
    requires HintsExact(b0) && FloodDone(b0, b1, s)
    ensures forall c :: Newly(b0, b1, c) && c != s ==> b1[c].kind != MINE
  {
    FloodBorders(b0, b1, s);
    forall c | Newly(b0, b1, c) && c != s
      ensures b1[c].kind != MINE
    {
      var p :| Expanded(b0, b1, s, p) && Near(p, c);
      assert b0[p].sensorValue == 0;
      AdjacentZero(Mines(b0), p, c);
    }
  }

  /**
   * With exact hints a reveal reports a mine exactly when its target is one,
   * and the target is the only mine it can uncover.
   */
  lemma {:induction false} RevealHitsOnlyTarget(b0: Board, b1: Board, s: Cell, hit: bool)
    requires HintsExact(b0) && RevealOutcome(b0, b1, s, hit)
    ensures hit <==> b1[s].kind == MINE
    ensures forall c :: Newly(b0, b1, c) && b1[c].kind == MINE ==> c == s && hit
  {
    if !hit && b0[s].sensorValue == 0 {
      FloodRevealsNoMine(b0, b1, s);
    }
  }

  /** Every tile a flood revealed besides its start was unflagged and borders an expanded zero tile. */
  lemma {:induction false} FloodBorders(b0: Board, b1: Board, s: Cell)
    requires FloodDone(b0, b1, s)
    ensures forall c :: Newly(b0, b1, c) && c != s ==>
      !b0[c].flagged && exists p :: Expanded(b0, b1, s, p) && Near(p, c)
  {
    var order :| FloodOrder(b0, b1, s, order) && forall c :: Newly(b0, b1, c) ==> c in order;
    forall c | Newly(b0, b1, c) && c != s
      ensures !b0[c].flagged && exists p :: Expanded(b0, b1, s, p) && Near(p, c)
    {
      var i :| 0 <= i < |order| && order[i] == c;
      assert BordersEarlierZero(b1, order, i);
      var j :| 0 <= j < i && Near(order[j], order[i]) && order[j] in b1 && b1[order[j]].sensorValue == 0;
      assert Expanded(b0, b1, s, order[j]);
    }
  }

  /** Each tile of a `FloodOrder` of one flood is revealed by any other flood from the same start on the same board. */
  lemma {:induction false} FloodOrderRevealed(b0: Board, b1: Board, b2: Board, s: Cell, order: seq<Cell>, i: int)
    requires FloodOrder(b0, b1, s, order) && FloodDone(b0, b2, s) && Unhides(b0, b1)
    requires 0 <= i < |order|
    ensures !b2[order[i]].hidden
    decreases i
  {
    if i > 0 {
      assert BordersEarlierZero(b1, order, i);
      var j :| 0 <= j < i && Near(order[j], order[i]) && order[j] in b1 && b1[order[j]].sensorValue == 0;
      FloodOrderRevealed(b0, b1, b2, s, order, j);
      assert Expanded(b0, b2, s, order[j]);
    }
  }

  /** A flood's outcome is determined: two finished floods from `s` on the same board leave the same board. */
  lemma {:induction false} FloodDoneUnique(b0: Board, b1: Board, b2: Board, s: Cell)
    requires FloodDone(b0, b1, s) && FloodDone(b0, b2, s)
    ensures b1 == b2
  {
    FloodRevealsOthers(b0, b1, b2, s);
    FloodRevealsOthers(b0, b2, b1, s);
    forall c | c in b0
      ensures b1[c] == b2[c]
    {
      assert b1[c].hidden == b2[c].hidden by {
        assert b0[c].hidden && !b1[c].hidden ==> Newly(b0, b1, c);
        assert b0[c].hidden && !b2[c].hidden ==> Newly(b0, b2, c);
      }
    }
  }

  /** Every tile one flood from `s` reveals, another flood from `s` on the same board reveals too. */
  lemma {:induction false} FloodRevealsOthers(b0: Board, b1: Board, b2: Board, s: Cell)
    requires FloodDone(b0, b1, s) && FloodDone(b0, b2, s)
    ensures forall c :: Newly(b0, b1, c) ==> !b2[c].hidden
  {
    var order :| FloodOrder(b0, b1, s, order) && forall c :: Newly(b0, b1, c) ==> c in order;
    forall c | Newly(b0, b1, c)
      ensures !b2[c].hidden
    {
      var i :| 0 <= i < |order| && order[i] == c;
      FloodOrderRevealed(b0, b1, b2, s, order, i);
    }
  }

  /** So a reveal's outcome is determined by the board and the target. */
  lemma {:induction false} RevealOutcomeUnique(b0: Board, b1: Board, b2: Board, s: Cell, hit1: bool, hit2: bool)
    requires RevealOutcome(b0, b1, s, hit1) && RevealOutcome(b0, b2, s, hit2)
    ensures hit1 == hit2 && b1 == b2
  {
    if !hit1 && b0[s].sensorValue == 0 {
      FloodDoneUnique(b0, b1, b2, s);
    }
  }
}
