/** The flood fill GameDisplay drives: a primary click reveals a cell and
    queues the candidates interactAt returns; each `update()` tick reveals at
    most 12 queued coordinates from the front of the queue and appends the
    candidates they return at the tail. */
module Cascade {
  import opened Coordinates
  import opened Rng
  import opened Boards
  import opened Generation

  /** How many queued coordinates one `update()` handles at most. */
  const BatchSize := 12

  /** How many entries a tick takes from a queue of length `n`. */
  function Taken(n: nat): (k: nat)
    ensures k <= n && k <= BatchSize
    ensures k == n || k == BatchSize
  {
    if n < BatchSize then n else BatchSize
  }

  /** The non-null results of a run of reveals, concatenated in order. */
  function Found(r: Option<seq<Coordinate>>): seq<Coordinate>
  {
    if r.Some? then r.value else []
  }

  /** Revealing `cs` one after the other: the final board and the
      concatenation of the lists returned, in order. */
  function RevealAll(b: Board, cs: seq<Coordinate>, draws: DrawSource): (Board, seq<Coordinate>)
    decreases |cs|
  {
    if cs == [] then (b, [])
    else
      var (mid, found) := RevealAll(b, cs[..|cs| - 1], draws);
      var (a, r) := Reveal(mid, cs[|cs| - 1], draws);
      (a, found + Found(r))
  }

  /** Revealing one more entry of a queue extends the batch by one reveal. */
  lemma RevealAllNext(b: Board, q: seq<Coordinate>, t: nat, draws: DrawSource)
    requires t < |q|
    ensures var (mid, found) := RevealAll(b, q[..t], draws);
      var (a, r) := Reveal(mid, q[t], draws);
      RevealAll(b, q[..t + 1], draws) == (a, found + Found(r))
  {
    assert q[..t + 1][..t] == q[..t];
  }

  /** The BUTTON1 branch: reveal the clicked cell and append the list it
      returns, if any, to the queue. */
  function Click(b: Board, q: seq<Coordinate>, c: Coordinate, draws: DrawSource): (r: (Board, seq<Coordinate>))
    ensures q <= r.1
    ensures r.0 == Reveal(b, c, draws).0
    ensures r.1 == q + Found(Reveal(b, c, draws).1)
    ensures |r.1| <= |q| + 8
  {
    var (a, res) := Reveal(b, c, draws);
    (a, q + Found(res))
  }

  /** A click queues, behind the old queue, exactly the unrevealed
      neighbours of the clicked cell, in enumeration order, when that click
      revealed a non-mine with no mined neighbour, and nothing otherwise. */
  lemma ClickQueues(b: Board, q: seq<Coordinate>, c: Coordinate, draws: DrawSource)
    requires WellFormed(b)
    ensures var (a, q') := Click(b, q, c, draws);
      q' == q + (if c in b.fields && c !in b.revealed && c !in b.bombs && UnsafeNeighbors(a.bombs, c) == 0
                 then Outside(Neighbors(c), a.revealed) else [])
  {
    RevealCandidates(b, c, draws);
  }

  /** One `update()`: the first `Taken(|q|)` entries are revealed in order,
      the rest of the queue stays in front, and the lists returned follow it. */
  function Tick(b: Board, q: seq<Coordinate>, draws: DrawSource): (Board, seq<Coordinate>)
  {
    var k := Taken(|q|);
    var (a, found) := RevealAll(b, q[..k], draws);
    (a, q[k..] + found)
  }

  /** `n` consecutive ticks. */
  function Run(b: Board, q: seq<Coordinate>, draws: DrawSource, n: nat): (Board, seq<Coordinate>)
    decreases n
  {
    if n == 0 then (b, q)
    else
      var (a, q') := Tick(b, q, draws);
      Run(a, q', draws, n - 1)
  }

  /** Fields not revealed yet, counted: the measure of the flood fill. */
  function Pending(b: Board): int
  {
    |b.fields| - |b.revealed|
  }

  /** On a well-formed board no more cells are revealed than there are fields. */
  lemma PendingBound(b: Board)
    requires WellFormed(b)
    ensures Pending(b) >= 0
  {
    DistinctWithin(b.revealed, b.fields);
  }

  /** A batch keeps the invariant, flags and mode; every entry contributes
      at most 8 candidates, and entries that contribute nothing add nothing. */
  lemma {:induction false} RevealAllBound(b: Board, cs: seq<Coordinate>, draws: DrawSource)
    requires WellFormed(b)
    ensures var (a, found) := RevealAll(b, cs, draws);
      && WellFormed(a)
      && a.flags == b.flags && a.procedural == b.procedural
      && b.revealed <= a.revealed
      && |found| <= 8 * |cs|
    decreases |cs|
  {
    if cs != [] {
      var init := cs[..|cs| - 1];
      var c := cs[|cs| - 1];
      RevealAllBound(b, init, draws);
      var (mid, found) := RevealAll(b, init, draws);
      RevealMarksCell(mid, c, draws);
      RevealCandidates(mid, c, draws);
    }
  }

  /** On a finite board a batch changes only `revealed`, and every entry
      that returns candidates has revealed a new cell first: each candidate
      list (at most 8 entries) is paid for by one fewer pending field. */
  lemma {:induction false} RevealAllFinite(b: Board, cs: seq<Coordinate>, draws: DrawSource)
    requires WellFormed(b) && !b.procedural
    ensures var (a, found) := RevealAll(b, cs, draws);
      && WellFormed(a) && !a.procedural
      && a.fields == b.fields && a.bombs == b.bombs && a.random == b.random
      && a.flags == b.flags
      && b.revealed <= a.revealed
      && |found| <= 8 * (|a.revealed| - |b.revealed|)
    decreases |cs|
  {
    if cs != [] {
      var init := cs[..|cs| - 1];
      var c := cs[|cs| - 1];
      RevealAllFinite(b, init, draws);
      var (mid, found) := RevealAll(b, init, draws);
      RevealMarksCell(mid, c, draws);
      RevealCandidates(mid, c, draws);
    }
  }

  /** Queue accounting of one tick: exactly `Taken(|q|)` entries leave the
      front, the rest keep their order at the front, and at most 8 candidates
      per processed entry join at the tail. */
  lemma TickAccounting(b: Board, q: seq<Coordinate>, draws: DrawSource)
    requires WellFormed(b)
    ensures var k := Taken(|q|);
      var (a, q') := Tick(b, q, draws);
      && q[k..] <= q'
      && |q'| <= |q| - k + 8 * k
      && WellFormed(a) && a.flags == b.flags && a.procedural == b.procedural
  {
    RevealAllBound(b, q[..Taken(|q|)], draws);
  }

  /** With an empty queue a tick changes nothing. */
  lemma TickEmpty(b: Board, draws: DrawSource)
    ensures Tick(b, [], draws) == (b, [])
  {
    var q: seq<Coordinate> := [];
    assert q[..0] == [] && q[0..] + [] == [];
  }

  /** FIFO: when the queue holds at least a full batch, whatever is queued
      behind it does not take part in this tick and stays in order, between
      the untouched rest of the queue and the new candidates. */
  lemma TickIgnoresTail(b: Board, q: seq<Coordinate>, tail: seq<Coordinate>, draws: DrawSource)
    requires |q| >= BatchSize
    ensures var (a, found) := RevealAll(b, q[..BatchSize], draws);
      Tick(b, q + tail, draws) == (a, q[BatchSize..] + tail + found)
  {
    assert (q + tail)[..BatchSize] == q[..BatchSize];
    assert (q + tail)[BatchSize..] == q[BatchSize..] + tail;
  }

  /** A tick on a finite board makes progress: fewer pending fields, or as
      many pending fields and a shorter queue. */
  lemma TickProgress(b: Board, q: seq<Coordinate>, draws: DrawSource)
    requires WellFormed(b) && !b.procedural && q != []
    ensures var (a, q') := Tick(b, q, draws);
      && WellFormed(a) && !a.procedural
      && a.fields == b.fields && a.bombs == b.bombs && a.flags == b.flags
      && (Pending(a) < Pending(b) || (Pending(a) == Pending(b) && |q'| < |q|))
  {
    var k := Taken(|q|);
    RevealAllFinite(b, q[..k], draws);
  }

  /** On a finite board repeated ticks empty the queue: the number of ticks
      that does it, found by following the progress measure. */
  function TicksToDrain(b: Board, q: seq<Coordinate>, draws: DrawSource): (n: nat)
    requires WellFormed(b) && !b.procedural
    ensures Run(b, q, draws, n).1 == []
    ensures Run(b, q, draws, n).0.fields == b.fields
    decreases Pending(b), |q|
  {
    if q == [] then 0
    else
      TickProgress(b, q, draws);
      PendingBound(b);
      var (a, q') := Tick(b, q, draws);
      PendingBound(a);
      1 + TicksToDrain(a, q', draws)
  }

  // ---------------------------------------------------------------------
  // Cascade correctness

  /** A revealed non-mine with no mined neighbour: a cell the flood fill
      spreads from. */
  predicate Opened(b: Board, c: Coordinate)
  {
    c in b.revealed && c !in b.bombs && UnsafeNeighbors(b.bombs, c) == 0
  }

  /** The flood fill is complete up to the queue: every field next to an
      opened cell is revealed or still queued. */
  ghost predicate Closed(b: Board, q: seq<Coordinate>)
  {
    forall c, d :: Opened(b, c) && Adjacent(c, d) && d in b.fields ==> d in b.revealed || d in q
  }

  /** On a procedural board every revealed non-mine has all 8 neighbours as
      fields, because its reveal materialised them. */
  ghost predicate Surrounded(b: Board)
  {
    b.procedural ==> forall c, d :: c in b.revealed && c !in b.bombs && Adjacent(c, d) ==> d in b.fields
  }

  /** One reveal of the front entry `c` keeps the flood fill complete up to
      the rest of the queue followed by the list the reveal returns. */
  lemma RevealKeepsClosed(b: Board, c: Coordinate, rest: seq<Coordinate>, draws: DrawSource)
    requires WellFormed(b) && Surrounded(b) && Closed(b, [c] + rest)
    ensures var (a, r) := Reveal(b, c, draws);
      Surrounded(a) && Closed(a, rest + Found(r))
  {
    RevealMarksCell(b, c, draws);
    RevealCandidates(b, c, draws);
    var (a, r) := Reveal(b, c, draws);
    if b.procedural && c in b.fields && c !in b.revealed && c !in b.bombs {
      RevealExpands(b, c, draws, b.random.seed, b.random.position);
    }
    forall c0, d | Opened(a, c0) && Adjacent(c0, d) && d in a.fields
      ensures d in a.revealed || d in rest + Found(r)
    {
      if c0 in b.revealed {
        assert Opened(b, c0);
        assert d in b.fields;
        assert d in b.revealed || d == c || d in rest;
      } else {
        assert c0 == c;
      }
    }
    assert Surrounded(a) by {
      if a.procedural {
        forall c0, d | c0 in a.revealed && c0 !in a.bombs && Adjacent(c0, d)
          ensures d in a.fields
        {
          if c0 in b.revealed {
            assert d in b.fields;
          } else {
            assert c0 == c;
          }
        }
      }
    }
  }

  /** A batch keeps the flood fill complete: what was queued behind the
      batch, followed by the lists it returned, covers it afterwards. */
  lemma {:induction false} RevealAllKeepsClosed(b: Board, cs: seq<Coordinate>, rest: seq<Coordinate>, draws: DrawSource)
    requires WellFormed(b) && Surrounded(b) && Closed(b, cs + rest)
    ensures var (a, found) := RevealAll(b, cs, draws);
      Surrounded(a) && Closed(a, rest + found)
    decreases |cs|
  {
    if cs == [] {
      assert cs + rest == rest + [];
    } else {
      var init := cs[..|cs| - 1];
      var c := cs[|cs| - 1];
      assert cs + rest == init + ([c] + rest);
      RevealAllKeepsClosed(b, init, [c] + rest, draws);
      RevealAllBound(b, init, draws);
      RevealNextKeepsClosed(RevealAll(b, init, draws).0, c, rest, RevealAll(b, init, draws).1, draws);
    }
  }

  /** The step case of RevealAllKeepsClosed, kept apart to keep its proof small. */
  lemma RevealNextKeepsClosed(mid: Board, c: Coordinate, rest: seq<Coordinate>, found: seq<Coordinate>, draws: DrawSource)
    requires WellFormed(mid) && Surrounded(mid) && Closed(mid, [c] + rest + found)
    ensures var (a, r) := Reveal(mid, c, draws);
      Surrounded(a) && Closed(a, rest + (found + Found(r)))
  {
    assert [c] + rest + found == [c] + (rest + found);
    RevealKeepsClosed(mid, c, rest + found, draws);
    var (a, r) := Reveal(mid, c, draws);
    assert rest + found + Found(r) == rest + (found + Found(r));
  }

  /** One `update()` keeps the flood fill complete up to the new queue; it
      keeps the invariant and the mode, only adds revealed cells, and on a
      finite board leaves fields and mines alone. */
  lemma TickKeepsClosed(b: Board, q: seq<Coordinate>, draws: DrawSource)
    requires WellFormed(b) && Surrounded(b) && Closed(b, q)
    ensures var (a, q') := Tick(b, q, draws);
      && WellFormed(a) && Surrounded(a) && Closed(a, q')
      && a.procedural == b.procedural && b.revealed <= a.revealed
      && (!b.procedural ==> a.fields == b.fields && a.bombs == b.bombs)
  {
    var k := Taken(|q|);
    assert q == q[..k] + q[k..];
    RevealAllKeepsClosed(b, q[..k], q[k..], draws);
    RevealAllBound(b, q[..k], draws);
    if !b.procedural {
      RevealAllFinite(b, q[..k], draws);
    }
  }

  /** A click keeps the flood fill complete up to the queue it leaves. */
  lemma ClickKeepsClosed(b: Board, q: seq<Coordinate>, c: Coordinate, draws: DrawSource)
    requires WellFormed(b) && Surrounded(b) && Closed(b, q)
    ensures var (a, q') := Click(b, q, c, draws);
      WellFormed(a) && Surrounded(a) && Closed(a, q')
  {
    assert Closed(b, [c] + q);
    RevealKeepsClosed(b, c, q, draws);
    RevealMarksCell(b, c, draws);
  }

  /** Any number of ticks keeps the flood fill complete up to the queue. */
  lemma {:induction false} RunKeepsClosed(b: Board, q: seq<Coordinate>, draws: DrawSource, n: nat)
    requires WellFormed(b) && Surrounded(b) && Closed(b, q)
    ensures var (a, q') := Run(b, q, draws, n);
      && WellFormed(a) && Surrounded(a) && Closed(a, q')
      && a.procedural == b.procedural && b.revealed <= a.revealed
      && (!b.procedural ==> a.fields == b.fields && a.bombs == b.bombs)
    decreases n
  {
    if n > 0 {
      TickKeepsClosed(b, q, draws);
      var (a, q') := Tick(b, q, draws);
      RunKeepsClosed(a, q', draws, n - 1);
    }
  }

  /** Cascade correctness on a finite board: once the ticks have emptied the
      queue, every field next to an opened cell is revealed. */
  lemma DrainCloses(b: Board, q: seq<Coordinate>, draws: DrawSource)
    requires WellFormed(b) && !b.procedural && Closed(b, q)
    ensures var a := Run(b, q, draws, TicksToDrain(b, q, draws)).0;
      forall c, d :: Opened(a, c) && Adjacent(c, d) && d in a.fields ==> d in a.revealed
  {
    RunKeepsClosed(b, q, draws, TicksToDrain(b, q, draws));
  }

  function Abs(n: int): nat
  {
    if n < 0 then -n else n
  }

  function Sign(n: int): int
  {
    if n < 0 then -1 else if n > 0 then 1 else 0
  }

  /** On a mine-free rectangle that is complete with nothing queued, every
      cell is revealed once one is: walk from a revealed cell towards any
      other cell one diagonal or straight step at a time. */
  lemma {:induction false} MineFreeRectangleRevealed(z: Board, w: int, h: int, r: Coordinate, u: Coordinate)
    requires forall d :: d in z.fields <==> InRect(d, w, h)
    requires z.bombs == [] && Closed(z, [])
    requires r in z.revealed && InRect(r, w, h) && InRect(u, w, h)
    ensures u in z.revealed
    decreases Abs(u.x - r.x) + Abs(u.y - r.y)
  {
    if r != u {
      var s := Coordinate(r.x + Sign(u.x - r.x), r.y + Sign(u.y - r.y));
      assert Adjacent(r, s) && InRect(s, w, h);
      assert Opened(z, r);
      MineFreeRectangleRevealed(z, w, h, s, u);
    }
  }

  /** Cascade correctness on a fresh mine-free `w` x `h` board: a click on
      any field, followed by as many ticks as it takes to empty the queue,
      reveals every field. */
  lemma MineFreeCascade(b: Board, w: int, h: int, c: Coordinate, draws: DrawSource)
    requires WellFormed(b) && !b.procedural
    requires b.fields == Rectangle(w, h) && b.bombs == [] && b.revealed == []
    requires c in b.fields
    ensures var (a, q) := Click(b, [], c, draws);
      var z := Run(a, q, draws, TicksToDrain(a, q, draws)).0;
      forall d :: d in b.fields ==> d in z.revealed
  {
    RectangleCells(w, h);
    ClickKeepsClosed(b, [], c, draws);
    RevealMarksCell(b, c, draws);
    var (a, q) := Click(b, [], c, draws);
    assert a.revealed == [c] && a.fields == b.fields && a.bombs == [] && !a.procedural;
    var n := TicksToDrain(a, q, draws);
    RunKeepsClosed(a, q, draws, n);
    var z := Run(a, q, draws, n).0;
    assert z.revealed[0] == c;
    forall d | d in b.fields
      ensures d in z.revealed
    {
      MineFreeRectangleRevealed(z, w, h, c, d);
    }
  }
}
