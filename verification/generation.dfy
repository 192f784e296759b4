/** What the two generators of GameLogic produce: the row-major rectangle of
    fields, the mines placed by seeded rejection sampling, and the one-cell
    start of a procedural board. */
module Generation {
  import opened Coordinates
  import opened Rng
  import opened Boards

  /** `c` lies in `[0, w) x [0, h)`. */
  predicate InRect(c: Coordinate, w: int, h: int)
  {
    0 <= c.x < w && 0 <= c.y < h
  }

  /** Row `y` as the inner `column` loop adds it: columns `0 .. w - 1` in order. */
  function Row(w: int, y: int): (r: seq<Coordinate>)
    ensures |r| == if w <= 0 then 0 else w
    ensures forall i :: 0 <= i < |r| ==> r[i] == Coordinate(i, y)
    ensures forall c :: c in r <==> c.y == y && 0 <= c.x < w
    decreases w
  {
    if w <= 0 then [] else Row(w - 1, y) + [Coordinate(w - 1, y)]
  }

  /** The fields added by the nested loops of generateSquareGame, in the
      order they are added: row by row, each row left to right. */
  function Rectangle(w: int, h: int): seq<Coordinate>
    decreases h
  {
    if h <= 0 then [] else Rectangle(w, h - 1) + Row(w, h - 1)
  }

  /** The rectangle holds exactly the cells of `[0, w) x [0, h)`. */
  lemma {:induction false} RectangleCells(w: int, h: int)
    ensures forall c :: c in Rectangle(w, h) <==> InRect(c, w, h)
    decreases h
  {
    if h > 0 {
      RectangleCells(w, h - 1);
    }
  }

  /** The rectangle holds no cell twice. */
  lemma {:induction false} RectangleDistinct(w: int, h: int)
    ensures NoDuplicates(Rectangle(w, h))
    decreases h
  {
    if h > 0 {
      RectangleDistinct(w, h - 1);
      RectangleCells(w, h - 1);
      var row := Row(w, h - 1);
      assert NoDuplicates(row) by {
        forall i, j | 0 <= i < j < |row| ensures row[i] != row[j] {
          assert row[i].x == i && row[j].x == j;
        }
      }
      NoDuplicatesConcat(Rectangle(w, h - 1), row);
    }
  }

  /** `h` rows of `w` cells, counted row by row. */
  function Area(w: nat, h: int): (n: nat)
    decreases h
  {
    if h <= 0 then 0 else Area(w, h - 1) + w
  }

  /** Counting row by row gives the product. */
  lemma {:induction false} AreaIsProduct(w: nat, h: nat)
    ensures Area(w, h) == w * h
  {
    if h > 0 {
      AreaIsProduct(w, h - 1);
      assert w * h == w * (h - 1) + w;
    }
  }

  /** The rectangle has `w * h` entries: with RectangleDistinct, each of its
      cells exactly once. */
  lemma RectangleSize(w: int, h: int)
    requires w > 0 && h >= 0
    ensures |Rectangle(w, h)| == w * h
  {
    RectangleArea(w, h);
    AreaIsProduct(w, h);
  }

  /** The rectangle has one entry per cell counted by Area. */
  lemma {:induction false} RectangleArea(w: nat, h: int)
    ensures |Rectangle(w, h)| == Area(w, h)
    decreases h
  {
    if h > 0 {
      RectangleArea(w, h - 1);
    }
  }

  /** Adding row `row` to the rows above it: the rows above hold no cell of
      it, and together they are the next rectangle. */
  lemma RectangleGrows(w: int, row: int)
    requires row >= 0
    ensures forall c :: c in Rectangle(w, row) ==> c.y != row
    ensures Rectangle(w, row + 1) == Rectangle(w, row) + Row(w, row)
  {
    RectangleCells(w, row);
  }

  /** Adding cell `(column, row)` to fields that hold the row up to that
      column and no other cell of the row: the cell is new, and the row grows
      by exactly that cell. */
  lemma RowGrows(before: seq<Coordinate>, w: int, row: int, column: int)
    requires 0 <= column < w
    requires forall c :: c in before ==> c.y != row
    ensures Adjoin(before + Row(column, row), Coordinate(column, row)) == before + Row(column + 1, row)
  {
    assert Coordinate(column, row) !in before + Row(column, row);
    assert (before + Row(column, row)) + [Coordinate(column, row)] == before + Row(column + 1, row);
  }

  /** Pigeonhole: fewer than `w * h` coordinates leave a cell of the
      rectangle free. */
  lemma FreeCellExists(w: int, h: int, taken: seq<Coordinate>)
    requires w > 0 && h > 0 && |taken| < w * h
    ensures exists c :: InRect(c, w, h) && c !in taken
  {
    var all := Rectangle(w, h);
    RectangleCells(w, h);
    RectangleDistinct(w, h);
    RectangleSize(w, h);
    if forall c :: c in all ==> c in taken {
      DistinctWithin(all, taken);
      assert false;
    }
    var c :| c in all && c !in taken;
    assert InRect(c, w, h);
  }

  // ---------------------------------------------------------------------
  // Rejection sampling

  /** One attempt of the placement loop, starting at draw `p` of the stream
      seeded with `seed`: `new Coordinate(nextInt(w), nextInt(h))`, the
      column drawn first.  It uses draws `p` and `p + 1`. */
  function Drawn(draws: DrawSource, seed: int, p: nat, w: int, h: int): (c: Coordinate)
    requires w > 0 && h > 0
    ensures InRect(c, w, h)
  {
    Coordinate(NextInt(draws, Random(seed, p), w).0, NextInt(draws, Random(seed, p + 1), h).0)
  }

  /** Attempt number `t` of a placement turn whose first attempt starts at
      draw `p`: each attempt uses two draws. */
  function Attempt(draws: DrawSource, seed: int, p: nat, t: nat, w: int, h: int): (c: Coordinate)
    requires w > 0 && h > 0
    ensures InRect(c, w, h)
  {
    Drawn(draws, seed, p + 2 * t, w, h)
  }

  /** Attempt `t` hits a cell that is not yet a mine. */
  predicate Hit(draws: DrawSource, seed: int, p: nat, t: nat, w: int, h: int, taken: seq<Coordinate>)
    requires w > 0 && h > 0
  {
    Attempt(draws, seed, p, t, w, h) !in taken
  }

  /** Attempts from draw `p` on eventually hit `c`. */
  ghost predicate Reaches(draws: DrawSource, seed: int, p: nat, w: int, h: int, c: Coordinate)
    requires w > 0 && h > 0
  {
    exists t: nat :: Attempt(draws, seed, p, t, w, h) == c
  }

  /** The fairness the rejection loop relies on: from every position of
      every stream, attempts eventually hit every cell of the rectangle. */
  ghost predicate Covers(draws: DrawSource, w: int, h: int)
  {
    w > 0 && h > 0 ==>
      forall seed: int, p: nat, c :: InRect(c, w, h) ==> Reaches(draws, seed, p, w, h, c)
  }

  /** With a free cell left, some attempt hits a free cell. */
  lemma HitExists(draws: DrawSource, seed: int, p: nat, w: int, h: int, taken: seq<Coordinate>)
    requires w > 0 && h > 0 && |taken| < w * h && Covers(draws, w, h)
    ensures exists t: nat :: Hit(draws, seed, p, t, w, h, taken)
  {
    FreeCellExists(w, h, taken);
    var c :| InRect(c, w, h) && c !in taken;
    assert Reaches(draws, seed, p, w, h, c);
    var t: nat :| Attempt(draws, seed, p, t, w, h) == c;
    assert Hit(draws, seed, p, t, w, h, taken);
  }

  /** The `while (bombs.contains(coordinate))` loop, from attempt `t` on
      when the attempts before `t` all missed: the number of the first
      attempt that hits a free cell.  `k` only bounds the search (attempt
      `k` is known to hit); the result does not depend on it. */
  function Search(draws: DrawSource, seed: int, p: nat, w: int, h: int, taken: seq<Coordinate>,
                  t: nat, ghost k: nat): (u: nat)
    requires w > 0 && h > 0 && t <= k
    requires Hit(draws, seed, p, k, w, h, taken)
    requires forall i: nat :: i < t ==> !Hit(draws, seed, p, i, w, h, taken)
    ensures t <= u <= k
    ensures Hit(draws, seed, p, u, w, h, taken)
    ensures forall i: nat :: i < u ==> !Hit(draws, seed, p, i, w, h, taken)
    decreases k - t
  {
    if Hit(draws, seed, p, t, w, h, taken) then t
    else Search(draws, seed, p, w, h, taken, t + 1, k)
  }

  /** The number of the first attempt from draw `p` on that hits a free cell. */
  ghost function FirstHit(draws: DrawSource, seed: int, p: nat, w: int, h: int, taken: seq<Coordinate>): (u: nat)
    requires w > 0 && h > 0 && |taken| < w * h && Covers(draws, w, h)
    ensures Hit(draws, seed, p, u, w, h, taken)
    ensures forall i: nat :: i < u ==> !Hit(draws, seed, p, i, w, h, taken)
  {
    HitExists(draws, seed, p, w, h, taken);
    var k: nat :| Hit(draws, seed, p, k, w, h, taken);
    Search(draws, seed, p, w, h, taken, 0, k)
  }

  /** Two attempt numbers that are both the first hit are the same. */
  lemma FirstHitUnique(draws: DrawSource, seed: int, p: nat, w: int, h: int, taken: seq<Coordinate>,
                       u1: nat, u2: nat)
    requires w > 0 && h > 0
    requires Hit(draws, seed, p, u1, w, h, taken)
    requires forall i: nat :: i < u1 ==> !Hit(draws, seed, p, i, w, h, taken)
    requires Hit(draws, seed, p, u2, w, h, taken)
    requires forall i: nat :: i < u2 ==> !Hit(draws, seed, p, i, w, h, taken)
    ensures u1 == u2
  {
  }

  /** The mines placed by the first `n` turns of the placement loop, in
      order, and the draw position after them.  Every turn first draws, then
      redraws while the cell is already a mine. */
  ghost function SampleBombs(draws: DrawSource, seed: int, p: nat, w: int, h: int, n: nat): (r: (seq<Coordinate>, nat))
    requires w > 0 && h > 0 && n <= w * h && Covers(draws, w, h)
    ensures |r.0| == n
    ensures NoDuplicates(r.0)
    ensures forall c :: c in r.0 ==> InRect(c, w, h)
    ensures p + 2 * n <= r.1
    decreases n
  {
    if n == 0 then ([], p)
    else
      var (prev, q) := SampleBombs(draws, seed, p, w, h, n - 1);
      var u := FirstHit(draws, seed, q, w, h, prev);
      var c := Attempt(draws, seed, q, u, w, h);
      AppendNew(prev, c);
      (prev + [c], q + 2 * u + 2)
  }

  /** One more turn of the placement loop appends the cell of the first
      hitting attempt and moves past its two draws. */
  lemma SampleBombsNext(draws: DrawSource, seed: int, p: nat, w: int, h: int, n: nat)
    requires w > 0 && h > 0 && n < w * h && Covers(draws, w, h)
    ensures var (prev, q) := SampleBombs(draws, seed, p, w, h, n);
      var u := FirstHit(draws, seed, q, w, h, prev);
      SampleBombs(draws, seed, p, w, h, n + 1)
        == (prev + [Attempt(draws, seed, q, u, w, h)], q + 2 * u + 2)
  {
  }

  // ---------------------------------------------------------------------
  // generateProceduralGame

  /** The board after generateProceduralGame with seed `seed`: the bound
      loops run once, so the only field is `(0, 0)`; flags are kept. */
  function ProceduralStart(b: Board, seed: int): (a: Board)
    ensures a.fields == [Coordinate(0, 0)] && a.bombs == [] && a.revealed == []
    ensures a.flags == b.flags
    ensures a.random == Random(seed, 0) && a.procedural
    ensures NoDuplicates(b.flags) ==> WellFormed(a)
  {
    Board([Coordinate(0, 0)], [], [], b.flags, Random(seed, 0), true)
  }

  /** Regeneration keeps the flags but not the mines they marked: on a
      procedural start every old flag is stale, so "every flag marks a mine"
      holds only until the next generation. */
  lemma ProceduralStartStrandsFlags(b: Board, seed: int)
    requires b.flags != []
    ensures ProceduralStart(b, seed).flags == b.flags
    ensures !FlagsOnBombs(ProceduralStart(b, seed))
  {
    assert b.flags[0] in ProceduralStart(b, seed).flags;
  }
}
