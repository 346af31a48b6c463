/**
 * The rules of one round (SlavaDukerani.java) on values: a snapshot of the
 * round, the events it reports, and what moving the player, clicking a
 * tile and chording do to a snapshot. The imperative class in game.dfy is
 * specified by these relations; the lemmas here say what they guarantee.
 */
module Rules {
  import opened Tiles
  import opened Boards
  import opened Sensors

  /** What the round reports to its listeners: a new flag count, or the end of the game. */
  datatype Event = FlagCountChanged(count: nat) | GameOver(won: bool)

  /** Where the round stands after a list of events: still running, or over, won or lost by the last report. */
  datatype Outcome = Playing | Over(won: bool)

  function OutcomeOf(events: seq<Event>): Outcome
    decreases |events|
  {
    if events == [] then Playing
    else match events[|events| - 1]
      case GameOver(won) => Over(won)
      case FlagCountChanged(_) => OutcomeOf(events[..|events| - 1])
  }

  /** What the listeners and the flags `gameOver`, `youWon` know of a round: its end, and the events fired so far. */
  datatype Status = Status(gameOver: bool, youWon: bool, events: seq<Event>)

  /** A snapshot of a round: the board and its size, the player, the sensor, and the status. */
  datatype Round = Round(board: Board, w: int, h: int, player: Cell, sensor: Cell, status: Status)

  /** `fireGameOver(won)`: the game ends with `won`, and the listeners are told. */
  function Fire(s: Status, won: bool): Status
  {
    Status(true, won, s.events + [GameOver(won)])
  }

  /** The report of `fireFlagChanged` with `count` flags on the board. */
  function FlagReport(s: Status, count: nat): Status
  {
    s.(events := s.events + [FlagCountChanged(count)])
  }

  /** A lost game when `b` holds, nothing otherwise. */
  function LossIf(s: Status, b: bool): Status
  {
    if b then Fire(s, false) else s
  }

  /** A won game when `b` holds, nothing otherwise. */
  function WinIf(s: Status, b: bool): Status
  {
    if b then Fire(s, true) else s
  }

  predicate OnBoard(r: Round, c: Cell)
  {
    0 <= c.0 < r.w && 0 <= c.1 < r.h
  }

  /** What every round keeps: a w x h board, and player and sensor on it on different cells. */
  ghost predicate RoundInv(r: Round)
  {
    && IsGrid(r.board, r.w, r.h)
    && OnBoard(r, r.player) && OnBoard(r, r.sensor)
    && r.player != r.sensor
  }

  /** `gameOver` and `youWon` agree with the reports: the game is over, and won, exactly as the last game-over report said. */
  predicate Reports(s: Status)
  {
    && s.gameOver == OutcomeOf(s.events).Over?
    && s.youWon == (OutcomeOf(s.events) == Over(true))
  }

  /** The round a new game starts with: player at (0,0), sensor at (1,1), nothing reported. */
  function StartRound(b: Board, w: int, h: int): Round
  {
    Round(b, w, h, (0, 0), (1, 1), Status(false, false, []))
  }

  /** Stepping onto `dest`: a hidden destination is revealed (flagged or not), any other leaves the board as it is. */
  ghost predicate Entered(b0: Board, b1: Board, dest: Cell)
  {
    dest in b0 &&
    if b0[dest].hidden then RevealOutcome(b0, b1, dest, b0[dest].kind == MINE) else b1 == b0
  }

  /** The reports of stepping onto tile `t`: a mine uncovered by the step, then a mine (again) or the exit. */
  function Stepped(s: Status, t: Tile): Status
  {
    WinIf(LossIf(LossIf(s, t.hidden && t.kind == MINE), t.kind == MINE), t.kind == EXIT)
  }

  /** The reports of the sensor landing on tile `t`: a mine is a loss, the exit a win. */
  function Landed(s: Status, t: Tile): Status
  {
    WinIf(LossIf(s, t.kind == MINE), t.kind == EXIT)
  }

  /**
   * `movePlayer(dx, dy)`. A destination off the board changes nothing.
   * Otherwise the destination is entered and its reports made. Stepping
   * onto the sensor pushes it by (dx, dy): if its new cell is off the
   * board neither moves (the reports already made stay), otherwise a mine
   * or the exit under its new cell is a loss or a win and the player takes
   * the sensor's old cell.
   */
  ghost predicate Moved(r0: Round, r1: Round, dx: int, dy: int)
  {
    var dest := (r0.player.0 + dx, r0.player.1 + dy);
    if !OnBoard(r0, dest) then r1 == r0
    else
      && Entered(r0.board, r1.board, dest)
      && var st := Stepped(r0.status, r0.board[dest]);
      if dest != r0.sensor then r1 == r0.(board := r1.board, player := dest, status := st)
      else
        var push := (r0.sensor.0 + dx, r0.sensor.1 + dy);
        if !OnBoard(r0, push) then r1 == r0.(board := r1.board, status := st)
        else
          && push in r1.board
          && r1 == r0.(board := r1.board, player := dest, sensor := push, status := Landed(st, r1.board[push]))
  }

  /** The right-click branch of `clickEvent` on tile `c`: a hidden tile's flag is toggled and the new count reported. */
  ghost predicate RightClicked(r0: Round, r1: Round, c: Cell)
  {
    c in r0.board &&
    var t := r0.board[c];
    if t.hidden then
      var b := r0.board[c := t.(flagged := !t.flagged)];
      r1 == r0.(board := b, status := FlagReport(r0.status, FlagCount(b)))
    else r1 == r0
  }

  /** Cells 4-adjacent to each other: one step along a row or a column. */
  predicate Adjacent4(a: Cell, b: Cell)
  {
    (a.0 == b.0 && (a.1 - b.1 == 1 || b.1 - a.1 == 1)) || (a.1 == b.1 && (a.0 - b.0 == 1 || b.0 - a.0 == 1))
  }

  /**
   * The left-click branch of `clickEvent` on tile `c`: a hidden unflagged
   * tile is revealed and a mine there is a loss; a hidden flagged tile is
   * left alone; a revealed tile 4-adjacent to the player is moved onto.
   */
  ghost predicate LeftClicked(r0: Round, r1: Round, c: Cell)
  {
    c in r0.board &&
    var t := r0.board[c];
    if t.hidden then
      if t.flagged then r1 == r0
      else
        && RevealOutcome(r0.board, r1.board, c, t.kind == MINE)
        && r1 == r0.(board := r1.board, status := LossIf(r0.status, t.kind == MINE))
    else if Adjacent4(c, r0.player) then Moved(r0, r1, c.0 - r0.player.0, c.1 - r0.player.1)
    else r1 == r0
  }

  /** `doChord` acts on `c` when it is revealed, shows a positive count and has exactly that many flags around it. */
  ghost predicate ChordActs(b: Board, c: Cell)
  {
    c in b && !b[c].hidden && b[c].sensorValue > 0 && FlagsAround(b, c) == b[c].sensorValue
  }

  /** The tiles a chord on `c` reveals: its hidden, unflagged neighbours. */
  function ChordTargets(b: Board, c: Cell): set<Cell>
  {
    set n | n in b && Near(c, n) && b[n].hidden && !b[n].flagged
  }

  /** One pass of the reveal loop of `doChord` on `t`: a flagged tile is skipped, any other is revealed. */
  ghost predicate RevealStep(b0: Board, b1: Board, t: Cell)
  {
    t in b0 && if b0[t].flagged then b1 == b0 else RevealOutcome(b0, b1, t, b0[t].kind == MINE)
  }

  /** `bs` are the boards of the reveal loop of `doChord` over `listed`: the board before it, then one after each pass. */
  ghost predicate RevealLoop(listed: seq<Cell>, bs: seq<Board>)
  {
    |bs| == |listed| + 1 && forall k {:trigger listed[k]} :: 0 <= k < |listed| ==> RevealStep(bs[k], bs[k + 1], listed[k])
  }

  /**
   * `doChord(c)`, through the boards `bs` of its reveal loop: when it acts,
   * each hidden neighbour is taken in the order the scan listed it, a
   * flagged one is skipped and any other is revealed (and flooded), and the
   * game is lost exactly when one of those it revealed is a mine; otherwise
   * nothing changes.
   */
  ghost predicate Chorded(r0: Round, r1: Round, c: Cell, bs: seq<Board>)
  {
    if ChordActs(r0.board, c) then
      && RevealLoop(ChordList(r0.board, c), bs) && bs[0] == r0.board
      && r1 == r0.(board := bs[|bs| - 1],
                   status := LossIf(r0.status, exists n :: n in ChordTargets(r0.board, c) && r0.board[n].kind == MINE))
    else r1 == r0
  }

  /**
   * `clickEvent(c, isLeft, isRight)`, through the rounds after the right
   * branch (`ra`) and the left branch (`rb`): nothing once the game is over
   * or off the board; otherwise right click, then left click, then a chord
   * (with the boards `bs` of its reveal loop) when both buttons are down.
   */
  ghost predicate Clicked(r0: Round, r1: Round, c: Cell, isLeft: bool, isRight: bool, ra: Round, rb: Round, bs: seq<Board>)
  {
    if r0.status.gameOver || !OnBoard(r0, c) then r1 == r0
    else
      && (if isRight then RightClicked(r0, ra, c) else ra == r0)
      && (if isLeft then LeftClicked(ra, rb, c) else rb == ra)
      && (if isLeft && isRight then Chorded(rb, r1, c, bs) else r1 == rb)
  }

  /** The last report decides: a game-over report sets the outcome, a flag count leaves it. */
  lemma OutcomeAppend(e: seq<Event>, x: Event)
    ensures OutcomeOf(e + [x]) == if x.GameOver? then Over(x.won) else OutcomeOf(e)
  {
    assert (e + [x])[..|e|] == e;
  }

  /** Firing a game-over report keeps the flags in step with the reports, and an ended game stays ended. */
  lemma FireReports(s: Status, won: bool)
    requires Reports(s)
    ensures Reports(Fire(s, won))
  {
    OutcomeAppend(s.events, GameOver(won));
  }

  /** The same for a flag-count report, which leaves the flags alone. */
  lemma FlagReportReports(s: Status, count: nat)
    requires Reports(s)
    ensures Reports(FlagReport(s, count))
  {
    OutcomeAppend(s.events, FlagCountChanged(count));
  }

  /** Conditional reports keep the flags in step with the reports, and never undo an end. */
  lemma {:induction false} IfReports(s: Status, b: bool)
    requires Reports(s)
    ensures Reports(LossIf(s, b)) && Reports(WinIf(s, b))
    ensures s.gameOver ==> LossIf(s, b).gameOver && WinIf(s, b).gameOver
  {
    FireReports(s, false);
    FireReports(s, true);
  }

  /** The reports of a step keep the flags in step; a mine always ends the game, lost unless the exit was also reported, and the exit wins it. */
  lemma {:induction false} SteppedReports(s: Status, t: Tile)
    ensures Reports(s) ==> Reports(Stepped(s, t))
    ensures s.gameOver || t.kind == MINE || t.kind == EXIT ==> Stepped(s, t).gameOver
    ensures t.kind == MINE ==> !Stepped(s, t).youWon
    ensures t.kind == EXIT ==> Stepped(s, t).youWon
  {
    if Reports(s) {
      var a := LossIf(s, t.hidden && t.kind == MINE);
      IfReports(s, t.hidden && t.kind == MINE);
      IfReports(a, t.kind == MINE);
      IfReports(LossIf(a, t.kind == MINE), t.kind == EXIT);
    }
  }

  /** The same for the reports of the sensor landing on a tile. */
  lemma {:induction false} LandedReports(s: Status, t: Tile)
    ensures Reports(s) ==> Reports(Landed(s, t))
    ensures s.gameOver ==> Landed(s, t).gameOver
  {
    if Reports(s) {
      IfReports(s, t.kind == MINE);
      IfReports(LossIf(s, t.kind == MINE), t.kind == EXIT);
    }
  }

  /** A move keeps the flags in step with the reports, and never undoes an end. */
  lemma {:induction false} MovedReports(r0: Round, r1: Round, dx: int, dy: int)
    requires Moved(r0, r1, dx, dy)
    ensures Reports(r0.status) ==> Reports(r1.status)
    ensures r0.status.gameOver ==> r1.status.gameOver
  {
    var dest := (r0.player.0 + dx, r0.player.1 + dy);
    if OnBoard(r0, dest) {
      var st := Stepped(r0.status, r0.board[dest]);
      SteppedReports(r0.status, r0.board[dest]);
      var push := (r0.sensor.0 + dx, r0.sensor.1 + dy);
      if dest == r0.sensor && OnBoard(r0, push) {
        LandedReports(st, r1.board[push]);
      }
    }
  }

  /** Moving keeps player and sensor on the board and apart, and only uncovers tiles. */
  lemma {:induction false} MovedKeepsInv(r0: Round, r1: Round, dx: int, dy: int)
    requires RoundInv(r0) && Moved(r0, r1, dx, dy)
    ensures RoundInv(r1)
    ensures Unhides(r0.board, r1.board)
    ensures r1.w == r0.w && r1.h == r0.h
  {
    var dest := (r0.player.0 + dx, r0.player.1 + dy);
    if OnBoard(r0, dest) {
      var t := r0.board[dest];
      if t.hidden {
        RevealOnlyUncovers(r0.board, r1.board, dest, t.kind == MINE);
      }
    }
  }

  /** A move put together from entering the destination (`e`) and what happens to the sensor afterwards. */
  lemma {:induction false} MovedByParts(r0: Round, e: Round, r1: Round, dx: int, dy: int)
    requires RoundInv(r0)
    requires var dest := (r0.player.0 + dx, r0.player.1 + dy);
      && OnBoard(r0, dest)
      && Entered(r0.board, e.board, dest)
      && e == r0.(board := e.board, status := Stepped(r0.status, r0.board[dest]))
    requires var dest := (r0.player.0 + dx, r0.player.1 + dy);
      var push := (r0.sensor.0 + dx, r0.sensor.1 + dy);
      if dest != r0.sensor then r1 == e.(player := dest)
      else if !OnBoard(r0, push) then r1 == e
      else push in e.board && r1 == e.(player := dest, sensor := push, status := Landed(e.status, e.board[push]))
    ensures Moved(r0, r1, dx, dy)
    ensures RoundInv(r1)
  {
    MovedKeepsInv(r0, r1, dx, dy);
  }

  /**
   * Where a move on the board ends: the destination is revealed, a mine
   * destination always ends the game, and without a sensor push a mine
   * loses it and the exit wins it.
   */
  lemma {:induction false} MovedOutcome(r0: Round, r1: Round, dx: int, dy: int)
    requires RoundInv(r0) && Moved(r0, r1, dx, dy)
    requires OnBoard(r0, (r0.player.0 + dx, r0.player.1 + dy))
    ensures var dest := (r0.player.0 + dx, r0.player.1 + dy);
      && !r1.board[dest].hidden
      && (r0.board[dest].kind == MINE ==> r1.status.gameOver)
      && (r0.board[dest].kind == MINE && dest != r0.sensor ==> !r1.status.youWon)
      && (r0.board[dest].kind == EXIT && dest != r0.sensor ==> r1.status.gameOver && r1.status.youWon)
  {
    var dest := (r0.player.0 + dx, r0.player.1 + dy);
    var t := r0.board[dest];
    if t.hidden {
      RevealOnlyUncovers(r0.board, r1.board, dest, t.kind == MINE);
    }
    SteppedReports(r0.status, t);
    var push := (r0.sensor.0 + dx, r0.sensor.1 + dy);
    if dest == r0.sensor && OnBoard(r0, push) {
      LandedReports(Stepped(r0.status, t), r1.board[push]);
    }
  }

  /** A right click keeps the invariant and the reports, and reports the number of flags on the board it leaves. */
  lemma RightClickedFacts(r0: Round, r1: Round, c: Cell)
    requires RoundInv(r0) && RightClicked(r0, r1, c)
    ensures RoundInv(r1)
    ensures r0.board[c].hidden ==> r1.board[c].flagged == !r0.board[c].flagged && r1.status.events[|r1.status.events| - 1] == FlagCountChanged(FlagCount(r1.board))
    ensures forall n :: n in r0.board && n != c ==> r1.board[n] == r0.board[n]
    ensures Reports(r0.status) ==> Reports(r1.status)
    ensures r1.w == r0.w && r1.h == r0.h
  {
    var t := r0.board[c];
    if t.hidden {
      var b := r0.board[c := t.(flagged := !t.flagged)];
      assert r1.board == b && r1.status == FlagReport(r0.status, FlagCount(b));
      assert IsGrid(b, r0.w, r0.h) by {
        assert forall n :: n in b <==> n in r0.board;
      }
      if Reports(r0.status) {
        FlagReportReports(r0.status, FlagCount(b));
      }
    }
  }

  /** A left click keeps the invariant and the reports, only uncovers tiles, never undoes an end, and never touches a flagged hidden tile. */
  lemma {:induction false} LeftClickedFacts(r0: Round, r1: Round, c: Cell)
    requires RoundInv(r0) && LeftClicked(r0, r1, c)
    ensures RoundInv(r1)
    ensures Unhides(r0.board, r1.board)
    ensures r0.board[c].hidden && r0.board[c].flagged ==> r1 == r0
    ensures r0.board[c].hidden && !r0.board[c].flagged ==> !r1.board[c].hidden && r1.player == r0.player
    ensures r0.status.gameOver ==> r1.status.gameOver
    ensures Reports(r0.status) ==> Reports(r1.status)
    ensures r1.w == r0.w && r1.h == r0.h
  {
    var t := r0.board[c];
    if t.hidden && !t.flagged {
      RevealOnlyUncovers(r0.board, r1.board, c, t.kind == MINE);
      if Reports(r0.status) {
        IfReports(r0.status, t.kind == MINE);
      }
    } else if !t.hidden && Adjacent4(c, r0.player) {
      var dx, dy := c.0 - r0.player.0, c.1 - r0.player.1;
      assert Moved(r0, r1, dx, dy);
      MovedKeepsInv(r0, r1, dx, dy);
      MovedReports(r0, r1, dx, dy);
    }
  }

  /** The reveal branch of a left click put together from the reveal and the loss it reports. */
  lemma RevealClicked(r0: Round, r1: Round, c: Cell, hit: bool)
    requires RoundInv(r0) && c in r0.board && r0.board[c].hidden && !r0.board[c].flagged
    requires RevealOutcome(r0.board, r1.board, c, hit)
    requires r1 == r0.(board := r1.board, status := LossIf(r0.status, hit))
    ensures LeftClicked(r0, r1, c) && RoundInv(r1)
  {
    LeftClickedFacts(r0, r1, c);
  }

  /** The move branch of a left click: a step onto the revealed tile `c` beside the player. */
  lemma MoveClicked(r0: Round, r1: Round, c: Cell, dx: int, dy: int)
    requires c in r0.board && !r0.board[c].hidden && Adjacent4(c, r0.player)
    requires dx == c.0 - r0.player.0 && dy == c.1 - r0.player.1 && Moved(r0, r1, dx, dy)
    ensures LeftClicked(r0, r1, c)
  {
  }

  /**
   * The reveal loop of `doChord` only uncovers tiles, and once it has made
   * `i` passes every unflagged tile among the first `i` listed is revealed.
   */
  lemma {:induction false} RevealLoopFacts(listed: seq<Cell>, bs: seq<Board>, i: int)
    requires RevealLoop(listed, bs) && 0 <= i < |bs|
    ensures Unhides(bs[0], bs[i])
    ensures forall j :: 0 <= j < i ==> listed[j] in bs[0] && (!bs[0][listed[j]].flagged ==> !bs[i][listed[j]].hidden)
    decreases i
  {
    if i > 0 {
      RevealLoopFacts(listed, bs, i - 1);
      var t := listed[i - 1];
      assert RevealStep(bs[i - 1], bs[i], t);
      if !bs[i - 1][t].flagged {
        RevealOnlyUncovers(bs[i - 1], bs[i], t, bs[i - 1][t].kind == MINE);
      }
      UnhidesTransitive(bs[0], bs[i - 1], bs[i]);
    }
  }

  /**
   * A chord keeps the invariant and the reports, only uncovers tiles,
   * reveals every hidden unflagged neighbour when it acts, and never undoes
   * an end.
   */
  lemma {:induction false} ChordedFacts(r0: Round, r1: Round, c: Cell, bs: seq<Board>)
    requires RoundInv(r0) && Chorded(r0, r1, c, bs)
    ensures RoundInv(r1)
    ensures Unhides(r0.board, r1.board)
    ensures ChordActs(r0.board, c) ==> forall n :: n in ChordTargets(r0.board, c) ==> !r1.board[n].hidden
    ensures r0.status.gameOver ==> r1.status.gameOver
    ensures Reports(r0.status) ==> Reports(r1.status)
    ensures r1.w == r0.w && r1.h == r0.h
  {
    if ChordActs(r0.board, c) {
      RevealLoopFacts(ChordList(r0.board, c), bs, |bs| - 1);
      ChordRevealsTargets(r0.board, c, bs);
      if Reports(r0.status) {
        IfReports(r0.status, exists n :: n in ChordTargets(r0.board, c) && r0.board[n].kind == MINE);
      }
    }
  }

  /** The reveal loop of a chord leaves every tile around `c` that was not flagged uncovered. */
  lemma {:induction false} ChordRevealsTargets(b0: Board, c: Cell, bs: seq<Board>)
    requires RevealLoop(ChordList(b0, c), bs) && bs[0] == b0
    ensures forall n :: n in ChordTargets(b0, c) ==> n in bs[|bs| - 1] && !bs[|bs| - 1][n].hidden
  {
    var listed := ChordList(b0, c);
    RevealLoopFacts(listed, bs, |listed|);
    ChordListMembers(b0, c);
    forall n | n in ChordTargets(b0, c)
      ensures n in bs[|bs| - 1] && !bs[|bs| - 1][n].hidden
    {
      var j :| 0 <= j < |listed| && listed[j] == n;
    }
  }

  /** When `doChord` does not act, the round stays as it was. */
  lemma ChordIdle(r0: Round, c: Cell, bs: seq<Board>)
    requires !ChordActs(r0.board, c)
    ensures Chorded(r0, r0, c, bs)
  {
  }

  /**
   * A chord put together from its scan (`listed`) and its reveal loop (the
   * boards `bs`), lost when a listed unflagged tile was a mine.
   */
  lemma {:induction false} ChordByParts(r0: Round, r1: Round, c: Cell, listed: seq<Cell>, bs: seq<Board>)
    requires RoundInv(r0) && ChordActs(r0.board, c)
    requires listed == ChordList(r0.board, c) && RevealLoop(listed, bs) && bs[0] == r0.board
    requires r1 == r0.(board := bs[|bs| - 1], status := LossIf(r0.status,
               exists n :: n in listed && n in r0.board && !r0.board[n].flagged && r0.board[n].kind == MINE))
    ensures Chorded(r0, r1, c, bs) && RoundInv(r1)
  {
    var b := r0.board;
    ChordListMembers(b, c);
    assert (exists n :: n in listed && n in b && !b[n].flagged && b[n].kind == MINE) <==>
           (exists n :: n in ChordTargets(b, c) && b[n].kind == MINE) by {
      forall n | n in ChordTargets(b, c)
        ensures n in listed
      {
      }
    }
    ChordedFacts(r0, r1, c, bs);
  }

  /** A set inside another of the same size is that set. */
  lemma {:induction false} SubsetSameCard(a: set<Cell>, b: set<Cell>)
    requires a <= b && |a| == |b|
    ensures a == b
  {
    assert b == a + (b - a);
    assert |b - a| == 0;
  }

  /**
   * With exact hints and flags only on mines, a chord never loses: the
   * flags around the tile are as many as the mines around it, so they are
   * on every one of those mines, and the tiles it reveals are all safe.
   */
  lemma {:induction false} ChordSafe(b: Board, c: Cell)
    requires HintsExact(b) && ChordActs(b, c)
    requires forall n :: n in b && b[n].flagged ==> b[n].kind == MINE
    ensures forall n :: n in ChordTargets(b, c) ==> b[n].kind != MINE
  {
    var flags := set n | n in b && Near(c, n) && b[n].flagged;
    var mines := set n | n in Mines(b) && Near(c, n);
    assert flags <= mines;
    SubsetSameCard(flags, mines);
    forall n | n in ChordTargets(b, c)
      ensures b[n].kind != MINE
    {
      assert n !in flags;
    }
  }

  /** A click keeps the invariant and the reports, changes nothing once the game is over, and keeps the board's size. */
  lemma {:induction false} ClickedKeepsInv(r0: Round, r1: Round, c: Cell, isLeft: bool, isRight: bool, ra: Round, rb: Round, bs: seq<Board>)
    requires RoundInv(r0) && Clicked(r0, r1, c, isLeft, isRight, ra, rb, bs)
    ensures RoundInv(r1)
    ensures r0.status.gameOver ==> r1 == r0
    ensures Reports(r0.status) ==> Reports(r1.status)
    ensures r1.w == r0.w && r1.h == r0.h
  {
    if !(r0.status.gameOver || !OnBoard(r0, c)) {
      if isRight {
        RightClickedFacts(r0, ra, c);
      }
      if isLeft {
        LeftClickedFacts(ra, rb, c);
      }
      if isLeft && isRight {
        ChordedFacts(rb, r1, c, bs);
      }
    }
  }

  /** The flagged tiles `fireFlagChanged` has counted when its loops (x outer, y inner) are at (x, y). */
  function FlaggedBefore(b: Board, x: int, y: int): set<Cell>
  {
    set c | c in b && b[c].flagged && Before(c, x, y)
  }

  /** Looking at (x, y) counts it exactly when it is flagged. */
  lemma {:induction false} FlaggedStep(b: Board, x: int, y: int)
    requires (x, y) in b
    ensures |FlaggedBefore(b, x, y + 1)| == |FlaggedBefore(b, x, y)| + if b[(x, y)].flagged then 1 else 0
  {
    var before := FlaggedBefore(b, x, y);
    assert (x, y) !in before;
    if b[(x, y)].flagged {
      assert FlaggedBefore(b, x, y + 1) == before + {(x, y)};
    } else {
      assert FlaggedBefore(b, x, y + 1) == before;
    }
  }

  /** On a board `h` high, the end of column x is the start of column x + 1. */
  lemma FlaggedColumn(b: Board, w: int, h: int, x: int)
    requires IsGrid(b, w, h)
    ensures FlaggedBefore(b, x, h) == FlaggedBefore(b, x + 1, 0)
  {
    assert forall c :: c in b ==> (Before(c, x, h) <==> Before(c, x + 1, 0));
  }

  /** On a board `w` wide, after the last column every flag is counted. */
  lemma FlaggedAll(b: Board, w: int, h: int)
    requires IsGrid(b, w, h)
    ensures FlaggedBefore(b, w, 0) == set c | c in b && b[c].flagged
  {
    assert forall c :: c in b ==> Before(c, w, 0);
  }

  /** The flags `doChord` has counted around `m` when its loops are at offset (dx, dy). */
  function FlagsSoFar(b: Board, m: Cell, dx: int, dy: int): set<Cell>
  {
    set n | n in b && Near(m, n) && b[n].flagged && OffsetBefore(m, n, dx, dy)
  }

  /** The offset (dx, dy) adds its cell exactly when it is a flagged neighbour on the board. */
  lemma {:induction false} FlagsSoFarStep(b: Board, m: Cell, dx: int, dy: int)
    requires -1 <= dx <= 1 && -1 <= dy <= 1
    ensures var n := (m.0 + dx, m.1 + dy);
      |FlagsSoFar(b, m, dx, dy + 1)| == |FlagsSoFar(b, m, dx, dy)| + if n in b && n != m && b[n].flagged then 1 else 0
  {
    var n := (m.0 + dx, m.1 + dy);
    var before := FlagsSoFar(b, m, dx, dy);
    assert n !in before;
    if n in b && n != m && b[n].flagged {
      assert FlagsSoFar(b, m, dx, dy + 1) == before + {n};
    } else {
      assert FlagsSoFar(b, m, dx, dy + 1) == before;
    }
  }

  /** The hidden neighbours of `m` the scan of `doChord` has listed, in the order it met them, when its loops are at offset (dx, dy). */
  function HiddenList(b: Board, m: Cell, dx: int, dy: int): seq<Cell>
    requires OffsetLoop(dx, dy)
    decreases dx + 1, dy + 1
  {
    if dy > -1 then
      var n := (m.0 + dx, m.1 + dy - 1);
      HiddenList(b, m, dx, dy - 1) + if n in b && n != m && b[n].hidden then [n] else []
    else if dx > -1 then HiddenList(b, m, dx - 1, 2)
    else []
  }

  /** The list of hidden neighbours the scan of `doChord` around `c` ends with. */
  function ChordList(b: Board, c: Cell): seq<Cell>
  {
    HiddenList(b, c, 2, -1)
  }

  /** The scan of `doChord` around `c` lists exactly the hidden neighbours of `c`. */
  lemma {:induction false} ChordListMembers(b: Board, c: Cell)
    ensures forall n :: n in ChordList(b, c) <==> n in b && Near(c, n) && b[n].hidden
  {
  }

  /**
   * One step of the scan loops of `doChord`: looking at offset (dx, dy)
   * counts its cell when it is a flagged neighbour on the board and lists
   * it when it is a hidden one.
   */
  lemma {:induction false} ScanStep(b: Board, m: Cell, dx: int, dy: int, flags: nat, listed: seq<Cell>, flags': nat, listed': seq<Cell>)
    requires -1 <= dx <= 1 && -1 <= dy <= 1
    requires flags == |FlagsSoFar(b, m, dx, dy)| && listed == HiddenList(b, m, dx, dy)
    requires var n := (m.0 + dx, m.1 + dy);
      && flags' == flags + (if n in b && n != m && b[n].flagged then 1 else 0)
      && listed' == if n in b && n != m && b[n].hidden then listed + [n] else listed
    ensures flags' == |FlagsSoFar(b, m, dx, dy + 1)| && listed' == HiddenList(b, m, dx, dy + 1)
  {
    FlagsSoFarStep(b, m, dx, dy);
    assert listed + [] == listed;
  }

  /** The end of the inner loop is the start of the next, and after the outer loop every flag around `m` is counted. */
  lemma FlagsSoFarRow(b: Board, m: Cell, dx: int)
    ensures FlagsSoFar(b, m, dx, 2) == FlagsSoFar(b, m, dx + 1, -1)
    ensures |FlagsSoFar(b, m, 2, -1)| == FlagsAround(b, m)
  {
    assert FlagsSoFar(b, m, 2, -1) == set n | n in b && Near(m, n) && b[n].flagged;
  }
}
