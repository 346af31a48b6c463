/**
 * The flood fill of Grid.java `revealAdjacentTiles`, as functions on
 * boards: what one scan of the eight neighbours adds to the queue, the
 * invariant the queue loop keeps, and the argument that the loop ends.
 *
 * The source marks only the start tile in its `visited` array, so the
 * visited test skips nothing but the start. The loop still ends, because a
 * tile is queued only while it is hidden and not already queued, and it is
 * revealed when it leaves the queue: the set of hidden, unqueued tiles
 * (`Pending`) shrinks whenever the queue grows.
 */
module Flood {
  import opened Tiles
  import opened Boards

  /** No cell occurs twice. */
  predicate NoDup(q: seq<Cell>)
  {
    forall i, j :: 0 <= i < j < |q| ==> q[i] != q[j]
  }

  /**
   * One pass of the scan loops around `t` at offset `d`: the neighbour is
   * queued when it is on the board, is not the start `s` (the only visited
   * tile), is not queued yet, and is hidden and unflagged.
   */
  function Visit(b: Board, s: Cell, q: seq<Cell>, t: Cell, d: Cell): seq<Cell>
  {
    var n := (t.0 + d.0, t.1 + d.1);
    if n !in b || n == s || n in q || !b[n].hidden || b[n].flagged then q else q + [n]
  }

  /** The queue when the scan loops around `t` are at (dx, dy). */
  function Scanned(b: Board, s: Cell, q: seq<Cell>, t: Cell, dx: int, dy: int): (r: seq<Cell>)
    requires OffsetLoop(dx, dy)
    ensures |q| <= |r| && r[..|q|] == q
    decreases dx + 1, dy + 1
  {
    if dy > -1 then Visit(b, s, Scanned(b, s, q, t, dx, dy - 1), t, (dx, dy - 1))
    else if dx > -1 then Scanned(b, s, q, t, dx - 1, 2)
    else q
  }

  /** Every neighbour of `p` that is not flagged is revealed or waiting in `q`. */
  ghost predicate Closed(b: Board, p: Cell, q: seq<Cell>)
  {
    forall c :: c in b && Near(p, c) && !b[c].flagged ==> !b[c].hidden || c in q
  }

  /** The same, for the neighbours at offsets the scan has passed. */
  ghost predicate ClosedBefore(b: Board, p: Cell, q: seq<Cell>, dx: int, dy: int)
  {
    forall c :: c in b && Near(p, c) && OffsetBefore(p, c, dx, dy) && !b[c].flagged ==> !b[c].hidden || c in q
  }

  /**
   * What the scan around `t` appends: neighbours of `t` that are hidden,
   * unflagged and not queued before, never the same cell twice.
   */
  lemma {:induction false} ScannedAppends(b: Board, s: Cell, q: seq<Cell>, t: Cell, dx: int, dy: int)
    requires OffsetLoop(dx, dy)
    requires t in b && !b[t].hidden
    ensures var r := Scanned(b, s, q, t, dx, dy);
      && (NoDup(q) ==> NoDup(r))
      && (forall c :: c in r && c !in q ==> c in b && Near(t, c) && b[c].hidden && !b[c].flagged)
    decreases dx + 1, dy + 1
  {
    if dy > -1 {
      ScannedAppends(b, s, q, t, dx, dy - 1);
      VisitAppends(b, s, q, t, dx, dy);
    } else if dx > -1 {
      ScannedAppends(b, s, q, t, dx - 1, 2);
    }
  }

  /** The step case of `ScannedAppends`: one `Visit` keeps the facts. */
  lemma VisitAppends(b: Board, s: Cell, q: seq<Cell>, t: Cell, dx: int, dy: int)
    requires -1 <= dx <= 1 && 0 <= dy <= 2
    requires t in b && !b[t].hidden
    requires var r := Scanned(b, s, q, t, dx, dy - 1);
      && (NoDup(q) ==> NoDup(r))
      && (forall c :: c in r && c !in q ==> c in b && Near(t, c) && b[c].hidden && !b[c].flagged)
    ensures var r := Scanned(b, s, q, t, dx, dy);
      && (NoDup(q) ==> NoDup(r))
      && (forall c :: c in r && c !in q ==> c in b && Near(t, c) && b[c].hidden && !b[c].flagged)
  {
    var r0 := Scanned(b, s, q, t, dx, dy - 1);
    var n := (t.0 + dx, t.1 + dy - 1);
    assert Scanned(b, s, q, t, dx, dy) == Visit(b, s, r0, t, (dx, dy - 1));
    if n !in b || n == s || n in r0 || !b[n].hidden || b[n].flagged {
    } else {
      assert n in q ==> n in r0;
    }
  }

  /**
   * Once the scan around a revealed tile `t` has passed an offset, the
   * unflagged neighbour there is revealed or queued.
   */
  lemma {:induction false} ScannedCloses(b: Board, s: Cell, q: seq<Cell>, t: Cell, dx: int, dy: int)
    requires OffsetLoop(dx, dy)
    requires s in b && !b[s].hidden
    ensures ClosedBefore(b, t, Scanned(b, s, q, t, dx, dy), dx, dy)
    decreases dx + 1, dy + 1
  {
    if dy > -1 {
      ScannedCloses(b, s, q, t, dx, dy - 1);
      VisitCloses(b, s, q, t, dx, dy);
    } else if dx > -1 {
      ScannedCloses(b, s, q, t, dx - 1, 2);
      RowCloses(b, t, Scanned(b, s, q, t, dx, dy), dx);
    }
  }

  /** One visit extends the closed region by the offset it looks at. */
  lemma VisitCloses(b: Board, s: Cell, q: seq<Cell>, t: Cell, dx: int, dy: int)
    requires -1 <= dx <= 1 && 0 <= dy <= 2
    requires s in b && !b[s].hidden
    requires ClosedBefore(b, t, Scanned(b, s, q, t, dx, dy - 1), dx, dy - 1)
    ensures ClosedBefore(b, t, Scanned(b, s, q, t, dx, dy), dx, dy)
  {
    var r0 := Scanned(b, s, q, t, dx, dy - 1);
    var r := Visit(b, s, r0, t, (dx, dy - 1));
    assert Scanned(b, s, q, t, dx, dy) == r;
    var n := (t.0 + dx, t.1 + dy - 1);
    forall c | c in b && Near(t, c) && OffsetBefore(t, c, dx, dy) && !b[c].flagged
      ensures !b[c].hidden || c in r
    {
      if c != n {
        assert OffsetBefore(t, c, dx, dy - 1);
        assert c in r0 ==> c in r;
      }
    }
  }

  /** Finishing a column of offsets leaves the same cells closed at the next column's start. */
  lemma RowCloses(b: Board, t: Cell, r: seq<Cell>, dx: int)
    requires 0 <= dx <= 2
    requires ClosedBefore(b, t, r, dx - 1, 2)
    ensures ClosedBefore(b, t, r, dx, -1)
  {
    forall c | c in b && Near(t, c) && OffsetBefore(t, c, dx, -1) && !b[c].flagged
      ensures !b[c].hidden || c in r
    {
      assert OffsetBefore(t, c, dx - 1, 2);
    }
  }


  /** Tile `c`, queued or revealed by the flood, was hidden and unflagged and was queued by a zero tile next to it. */
  ghost predicate Adopted(b0: Board, b: Board, done: seq<Cell>, parent: map<Cell, Cell>, c: Cell)
  {
    && c in b0 && b0[c].hidden && !b0[c].flagged
    && c in parent && parent[c] in done && parent[c] in b
    && b[parent[c]].sensorValue == 0 && Near(parent[c], c)
  }

  /**
   * The queue loop's invariant without the closure clause. `b0` is the
   * board when the flood starts (the start `s` already revealed), `b` the
   * current board, `q` the queue, `done` the tiles taken off it so far, in
   * order, and `parent` the tile whose scan queued each other tile, which
   * left the queue before that tile did.
   */
  ghost predicate Core(b0: Board, b: Board, s: Cell, q: seq<Cell>, done: seq<Cell>, parent: map<Cell, Cell>)
  {
    && Unhides(b0, b)
    && s in b0 && !b0[s].hidden
    && NoDup(done + q) && |done + q| > 0 && (done + q)[0] == s
    && (forall c :: c in done + q ==> c in b0)
    && (forall c :: c in q && c != s ==> c in b && b[c].hidden)
    && (forall c :: c in done ==> c in b && !b[c].hidden)
    && (forall c :: Newly(b0, b, c) ==> c in done)
    && (forall c :: c in done + q && c != s ==> Adopted(b0, b, done, parent, c))
    && (forall i :: 0 < i < |done| ==> done[i] in parent && parent[done[i]] in done[..i])
  }

  /** Every zero tile taken off the queue, other than `t`, has its neighbourhood closed. */
  ghost predicate ClosedExcept(b: Board, done: seq<Cell>, q: seq<Cell>, t: Cell)
  {
    forall p :: p in done && p != t && p in b && b[p].sensorValue == 0 ==> Closed(b, p, q)
  }

  /** The invariant of the queue loop. */
  ghost predicate FloodInv(b0: Board, b: Board, s: Cell, q: seq<Cell>, done: seq<Cell>, parent: map<Cell, Cell>)
  {
    && Core(b0, b, s, q, done, parent)
    && (forall p :: p in done && p in b && b[p].sensorValue == 0 ==> Closed(b, p, q))
  }

  /** The hidden tiles not in the queue: the flood can still queue only these. */
  function Pending(b: Board, q: seq<Cell>): set<Cell>
  {
    set c | c in b && b[c].hidden && c !in q
  }

  /** `parent` with each cell of `added` given the parent `t`. */
  function Adopt(parent: map<Cell, Cell>, added: seq<Cell>, t: Cell): map<Cell, Cell>
  {
    map c | c in parent.Keys + (set n | n in added) :: if c in added then t else parent[c]
  }

  /** A concatenation has no repeats exactly when neither part has and they share no cell. */
  lemma NoDupConcat(a: seq<Cell>, b: seq<Cell>)
    ensures NoDup(a + b) <==> NoDup(a) && NoDup(b) && forall x :: x in a ==> x !in b
  {
    if NoDup(a + b) {
      forall i, j | 0 <= i < j < |a| ensures a[i] != a[j] {
        assert a[i] == (a + b)[i] && a[j] == (a + b)[j];
      }
      forall i, j | 0 <= i < j < |b| ensures b[i] != b[j] {
        assert b[i] == (a + b)[|a| + i] && b[j] == (a + b)[|a| + j];
      }
      forall i, j | 0 <= i < |a| && 0 <= j < |b| ensures a[i] != b[j] {
        assert a[i] == (a + b)[i] && b[j] == (a + b)[|a| + j];
      }
    }
    if NoDup(a) && NoDup(b) && forall x :: x in a ==> x !in b {
      forall i, j | 0 <= i < j < |a + b| ensures (a + b)[i] != (a + b)[j] {
        if j < |a| {
          assert (a + b)[i] == a[i] && (a + b)[j] == a[j];
        } else if i < |a| {
          assert (a + b)[i] == a[i] && (a + b)[j] == b[j - |a|];
          assert a[i] in a && b[j - |a|] in b;
        } else {
          assert (a + b)[i] == b[i - |a|] && (a + b)[j] == b[j - |a|];
        }
      }
    }
  }

  /** Appending to the queue cells that are new to it and were never taken off it keeps the cells distinct. */
  lemma AppendUnseen(done: seq<Cell>, q: seq<Cell>, added: seq<Cell>)
    requires NoDup(done + q) && NoDup(q + added) && |done| > 0
    requires forall c :: c in added ==> c !in done
    ensures NoDup(done + (q + added)) && (done + (q + added))[0] == (done + q)[0]
  {
    NoDupConcat(done, q);
    forall x | x in done
      ensures x !in q + added
    {
    }
    NoDupConcat(done, q + added);
  }

  /** Before the first round: only the start is queued. */
  lemma FloodStart(b0: Board, s: Cell)
    requires s in b0 && !b0[s].hidden
    ensures FloodInv(b0, b0, s, [s], [], map[])
  {
    assert [] + [s] == [s];
  }

  /** Taking `t` off the queue and revealing it keeps the invariant, except the closure of `t` itself. */
  lemma Dequeue(b0: Board, b: Board, s: Cell, q: seq<Cell>, done: seq<Cell>, parent: map<Cell, Cell>)
    requires FloodInv(b0, b, s, q, done, parent) && q != []
    ensures var t := q[0];
      var b1 := b[t := b[t].(hidden := false)];
      && t in b && t !in q[1..]
      && Core(b0, b1, s, q[1..], done + [t], parent)
      && ClosedExcept(b1, done + [t], q[1..], t)
      && Pending(b1, q[1..]) == Pending(b, q)
  {
    var t := q[0];
    var b1 := b[t := b[t].(hidden := false)];
    var q1 := q[1..];
    assert q == [t] + q1;
    assert done + [t] + q1 == done + q;
    NoDupConcat(done, q);
    NoDupConcat([t], q1);
    assert t in q;
    forall c | c in q1
      ensures c in q && c != t
    {
    }
    forall c | c in done + [t] + q1 && c != s
      ensures Adopted(b0, b1, done + [t], parent, c)
    {
      assert Adopted(b0, b, done, parent, c);
    }
    forall p | p in done + [t] && p != t && p in b1 && b1[p].sensorValue == 0
      ensures Closed(b1, p, q1)
    {
      assert Closed(b, p, q);
    }
    forall i | 0 < i < |done + [t]|
      ensures (done + [t])[i] in parent && parent[(done + [t])[i]] in (done + [t])[..i]
    {
      if i < |done| {
        assert (done + [t])[i] == done[i] && (done + [t])[..i] == done[..i];
      } else {
        assert (done + q)[i] == t && (done + q)[0] == s;
        assert Adopted(b0, b, done, parent, t);
        assert (done + [t])[..i] == done;
      }
    }
    assert Pending(b1, q1) == Pending(b, q);
  }

  /** A dequeued tile with a non-zero value is not scanned, and the invariant holds again. */
  lemma DequeueNoScan(b0: Board, b: Board, s: Cell, q: seq<Cell>, done: seq<Cell>, parent: map<Cell, Cell>)
    requires FloodInv(b0, b, s, q, done, parent) && q != []
    requires b[q[0]].sensorValue > 0
    ensures FloodInv(b0, b[q[0] := b[q[0]].(hidden := false)], s, q[1..], done + [q[0]], parent)
    ensures Pending(b[q[0] := b[q[0]].(hidden := false)], q[1..]) == Pending(b, q)
  {
    Dequeue(b0, b, s, q, done, parent);
  }

  /** What the whole scan around a revealed tile `t` appends: distinct, hidden, unflagged neighbours of `t` not queued before. */
  lemma ScanAdded(b: Board, s: Cell, q: seq<Cell>, t: Cell)
    requires t in b && !b[t].hidden
    ensures var r := Scanned(b, s, q, t, 2, -1);
      && r == q + r[|q|..]
      && (NoDup(q) ==> NoDup(r))
      && (forall c :: c in r && c !in q ==> c in b && Near(t, c) && b[c].hidden && !b[c].flagged)
  {
    var r := Scanned(b, s, q, t, 2, -1);
    ScannedAppends(b, s, q, t, 2, -1);
    assert r == r[..|q|] + r[|q|..];
  }

  /** Queuing such cells with `t`, a zero tile already taken off the queue, as their parent keeps `Core`. */
  lemma AdoptKeepsCore(b0: Board, b: Board, s: Cell, q: seq<Cell>, done: seq<Cell>, parent: map<Cell, Cell>, t: Cell, added: seq<Cell>)
    requires Core(b0, b, s, q, done, parent)
    requires t in done && t in b && b[t].sensorValue == 0
    requires NoDup(q) ==> NoDup(q + added)
    requires forall c :: c in q + added && c !in q ==> c in b && Near(t, c) && b[c].hidden && !b[c].flagged
    ensures Core(b0, b, s, q + added, done, Adopt(parent, added, t))
  {
    var parent1 := Adopt(parent, added, t);
    NoDupConcat(done, q);
    NoDupConcat(q, added);
    forall c | c in added
      ensures c in b && b[c].hidden && !b[c].flagged && Near(t, c) && c !in done
    {
      assert c in q + added && c !in q;
    }
    AppendUnseen(done, q, added);
    forall c | c in done + (q + added) && c != s
      ensures Adopted(b0, b, done, parent1, c)
    {
      if c in added {
        assert parent1[c] == t;
      } else {
        assert c in done + q;
        assert Adopted(b0, b, done, parent, c);
      }
    }
    forall i | 0 < i < |done|
      ensures done[i] in parent1 && parent1[done[i]] == parent[done[i]]
    {
      assert done[i] in done && done[i] !in added;
    }
  }

  /** The same scan closes the neighbourhood of `t`, and queuing only adds, so the closure of earlier tiles stays. */
  lemma ScanClosed(b: Board, s: Cell, q: seq<Cell>, done: seq<Cell>, t: Cell)
    requires ClosedExcept(b, done, q, t)
    requires s in b && !b[s].hidden && t in b && !b[t].hidden
    ensures var r := Scanned(b, s, q, t, 2, -1);
      forall p :: p in done && p in b && b[p].sensorValue == 0 ==> Closed(b, p, r)
  {
    var r := Scanned(b, s, q, t, 2, -1);
    ScannedCloses(b, s, q, t, 2, -1);
    forall p | p in done && p in b && b[p].sensorValue == 0
      ensures Closed(b, p, r)
    {
      if p == t {
        forall c | c in b && Near(t, c) && !b[c].flagged
          ensures !b[c].hidden || c in r
        {
          assert OffsetBefore(t, c, 2, -1);
        }
      } else {
        assert Closed(b, p, q);
        forall c | c in q ensures c in r {
          assert r[..|q|] == q;
        }
      }
    }
  }

  /** A scan that queues anything shrinks `Pending`; one that queues nothing leaves the queue as it was. */
  lemma ScanPending(b: Board, s: Cell, q: seq<Cell>, t: Cell)
    requires t in b && !b[t].hidden && NoDup(q)
    ensures var r := Scanned(b, s, q, t, 2, -1);
      Pending(b, r) < Pending(b, q) || r == q
  {
    var r := Scanned(b, s, q, t, 2, -1);
    ScanAdded(b, s, q, t);
    var added := r[|q|..];
    if added != [] {
      NoDupConcat(q, added);
      var n := added[0];
      assert n in r && n !in q;
      assert n in Pending(b, q) && n !in Pending(b, r);
      forall c | c in Pending(b, r) ensures c in Pending(b, q) {
        assert c in q ==> c in r;
      }
    } else {
      assert r == q + [];
    }
  }

  /** A dequeued zero tile is scanned; the scan restores the invariant and shrinks `Pending` when it queues anything. */
  lemma DequeueScan(b0: Board, b: Board, s: Cell, q: seq<Cell>, done: seq<Cell>, parent: map<Cell, Cell>)
    requires FloodInv(b0, b, s, q, done, parent) && q != []
    requires b[q[0]].sensorValue == 0
    ensures var t := q[0];
      var b1 := b[t := b[t].(hidden := false)];
      var r := Scanned(b1, s, q[1..], t, 2, -1);
      && FloodInv(b0, b1, s, r, done + [t], Adopt(parent, r[|q| - 1..], t))
      && (Pending(b1, r) < Pending(b, q) || (r == q[1..] && Pending(b1, r) == Pending(b, q)))
  {
    var t := q[0];
    var b1 := b[t := b[t].(hidden := false)];
    Dequeue(b0, b, s, q, done, parent);
    assert s in b1 && !b1[s].hidden;
    ScanAdded(b1, s, q[1..], t);
    var r := Scanned(b1, s, q[1..], t, 2, -1);
    AdoptKeepsCore(b0, b1, s, q[1..], done + [t], parent, t, r[|q| - 1..]);
    ScanClosed(b1, s, q[1..], done + [t], t);
    NoDupConcat(done + [t], q[1..]);
    ScanPending(b1, s, q[1..], t);
  }

  /**
   * One round of the queue loop: take `t` off the queue, reveal it, and
   * scan around it when its value is zero. The invariant holds again, and
   * either `Pending` shrank or it stayed and the queue got shorter.
   */
  lemma FloodRound(b0: Board, b: Board, s: Cell, q: seq<Cell>, done: seq<Cell>, parent: map<Cell, Cell>,
                   b1: Board, r: seq<Cell>, done1: seq<Cell>, parent1: map<Cell, Cell>)
    requires FloodInv(b0, b, s, q, done, parent) && q != []
    requires b1 == b[q[0] := b[q[0]].(hidden := false)] && done1 == done + [q[0]]
    requires b[q[0]].sensorValue > 0 ==> r == q[1..] && parent1 == parent
    requires b[q[0]].sensorValue == 0 ==>
      r == Scanned(b1, s, q[1..], q[0], 2, -1) && parent1 == Adopt(parent, r[|q| - 1..], q[0])
    ensures FloodInv(b0, b1, s, r, done1, parent1)
    ensures Pending(b1, r) < Pending(b, q) || (Pending(b1, r) == Pending(b, q) && |r| < |q|)
  {
    if b[q[0]].sensorValue > 0 {
      DequeueNoScan(b0, b, s, q, done, parent);
    } else {
      DequeueScan(b0, b, s, q, done, parent);
    }
  }

  /**
   * When the queue is empty the invariant is the promise of the flood:
   * `FloodDone`, with the order the tiles left the queue as its
   * `FloodOrder`, and the tiles that entered the queue, each once, are the
   * start and the tiles the flood revealed.
   */
  lemma FloodFinish(b0: Board, b: Board, s: Cell, done: seq<Cell>, parent: map<Cell, Cell>)
    requires FloodInv(b0, b, s, [], done, parent)
    ensures FloodDone(b0, b, s) && FloodOrder(b0, b, s, done)
    ensures NoDup(done) && forall c :: c in done <==> c == s || Newly(b0, b, c)
  {
    assert done + [] == done;
    assert s in done;
    forall c | c in done
      ensures c == s || Newly(b0, b, c)
    {
      if c != s {
        assert Adopted(b0, b, done, parent, c);
      }
    }
    forall i | 0 < i < |done|
      ensures Newly(b0, b, done[i]) && !b0[done[i]].flagged
    {
      assert done[i] in done && done[i] != done[0];
      assert Adopted(b0, b, done, parent, done[i]);
    }
    forall i | 0 < i < |done|
      ensures BordersEarlierZero(b, done, i)
    {
      assert done[i] in done && done[i] != done[0];
      assert Adopted(b0, b, done, parent, done[i]);
      var p := parent[done[i]];
      var j :| 0 <= j < i && done[..i][j] == p;
      assert done[j] == p;
    }
    assert FloodOrder(b0, b, s, done) && forall c :: Newly(b0, b, c) ==> c in done;
    forall p, c | Expanded(b0, b, s, p) && c in b && Near(p, c) && !b[c].flagged
      ensures !b[c].hidden
    {
      assert p in done;
      assert Closed(b, p, []);
    }
  }

  /**
   * The flood starts after `revealTile` has revealed its target; a flood
   * that is done from that board is done from the board before the reveal.
   */
  lemma FloodShift(b0: Board, b1: Board, s: Cell)
    requires s in b0
    requires FloodDone(b0[s := b0[s].(hidden := false)], b1, s)
    ensures FloodDone(b0, b1, s)
  {
    var m := b0[s := b0[s].(hidden := false)];
    var order :| FloodOrder(m, b1, s, order) && forall c :: Newly(m, b1, c) ==> c in order;
    forall i | 0 < i < |order|
      ensures Newly(b0, b1, order[i]) && !b0[order[i]].flagged
    {
      assert Newly(m, b1, order[i]);
    }
    assert FloodOrder(b0, b1, s, order);
    forall c | Newly(b0, b1, c)
      ensures c in order
    {
      if c != s {
        assert Newly(m, b1, c);
      }
    }
    forall p, c | Expanded(b0, b1, s, p) && c in b1 && Near(p, c) && !b1[c].flagged
      ensures !b1[c].hidden
    {
      assert Expanded(m, b1, s, p);
    }
  }
}
