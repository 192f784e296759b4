/** GameLogic: the board engine as an object whose Vectors are updated in
    place.  Each method is proved against the pure meaning of its operation
    in modules Boards and Generation. */
module Logic {
  import opened Coordinates
  import opened Rng
  import opened Boards
  import opened Generation

  /** How a call to generateSquareGame ends: normally, by the `System.exit(1)`
      of the mine-count check, or by the exception `nextInt` throws for a
      bound that is not positive. */
  datatype Outcome = Generated | ConfigurationError | InvalidBound

  class GameLogic {
    /** The java.util.Random library, for every seed (not modelled). */
    const draws: DrawSource

    var seed: int
    var bombs: seq<Coordinate>
    var revealed: seq<Coordinate>
    var fields: seq<Coordinate>
    var flags: seq<Coordinate>
    var minX: int
    var minY: int
    var maxX: int
    var maxY: int
    var random: Random
    var procedural: bool

    /** The board the object holds. */
    function State(): Board
      reads this
    {
      Board(fields, bombs, revealed, flags, random, procedural)
    }

    /** The collections are duplicate-free and mines and revealed cells are fields. */
    predicate Valid()
      reads this
    {
      WellFormed(State())
    }

    /** A fresh engine: seed 0, empty collections, bounds 0, finite mode.
        The source leaves `random` null (its `new Random` goes to a local);
        it is read only in procedural mode, which only generateProceduralGame
        turns on after assigning it, so any value stands for it here. */
    constructor (draws: DrawSource)
      ensures Valid()
      ensures this.draws == draws && seed == 0
      ensures fields == [] && bombs == [] && revealed == [] && flags == []
      ensures minX == 0 && minY == 0 && maxX == 0 && maxY == 0
      ensures !procedural
    {
      this.draws := draws;
      seed := 0;
      bombs := [];
      revealed := [];
      fields := [];
      flags := [];
      minX, minY, maxX, maxY := 0, 0, 0, 0;
      random := Random(0, 0);
      procedural := false;
    }

    /** setFieldAt: append `c` to the fields unless it is already there. */
    method SetFieldAt(c: Coordinate)
      modifies this`fields
      ensures fields == Adjoin(old(fields), c)
    {
      if c in fields {
        return;
      }
      fields := fields + [c];
    }

    /** setBombAt: mine `c`, first making it a field when it is not one. */
    method SetBombAt(c: Coordinate)
      modifies this`fields, this`bombs
      ensures fields == Adjoin(old(fields), c) && bombs == Adjoin(old(bombs), c)
      decreases if c in fields then 0 else 1
    {
      if c in fields {
        if c in bombs {
          return;
        }
        bombs := bombs + [c];
      } else {
        SetFieldAt(c);
        SetBombAt(c);
      }
    }

    /** generateSquareGame: a `width` x `height` rectangle of fields with
        `count` mines placed by rejection sampling from a generator seeded
        with `seed`.  The loop terminates when the generator eventually draws
        every cell (Covers). */
    method GenerateSquareGame(width: int, height: int, count: int) returns (outcome: Outcome)
      requires Valid()
      requires 0 < count < width * height ==> Covers(draws, width, height)
      modifies this`minX, this`minY, this`maxX, this`maxY
      modifies this`bombs, this`revealed, this`fields, this`random, this`procedural
      ensures Valid()
      ensures seed == old(seed) && flags == old(flags)
      ensures outcome == ConfigurationError <==> count >= width * height
      ensures outcome == InvalidBound <==>
                count < width * height && count > 0 && (width <= 0 || height <= 0)
      ensures outcome == ConfigurationError ==> unchanged(this)
      ensures outcome != ConfigurationError ==>
                && minX == 0 && minY == 0 && maxX == width - 1 && maxY == height - 1
                && fields == Rectangle(width, height) && revealed == []
      ensures outcome == InvalidBound ==>
                bombs == [] && random == old(random) && procedural == old(procedural)
      ensures outcome == Generated ==> random == Random(seed, 0) && !procedural
      ensures outcome == Generated && count <= 0 ==> bombs == []
      ensures outcome == Generated && count > 0 ==>
                bombs == SampleBombs(draws, seed, 0, width, height, count).0
    {
      if count >= width * height {
        return ConfigurationError;
      }
      LayOutRectangle(width, height);
      outcome := SeedMines(width, height, count);
    }

    /** generateSquareGame past the layout: the exception `nextInt` throws
        for a dimension that is not positive, otherwise the mine-placement
        loop, the reseeded generator and finite mode. */
    method SeedMines(width: int, height: int, count: int) returns (outcome: Outcome)
      requires Valid() && bombs == [] && revealed == []
      requires forall c :: c in fields <==> InRect(c, width, height)
      requires 0 < count < width * height ==> Covers(draws, width, height)
      requires count < width * height
      modifies this`fields, this`bombs, this`random, this`procedural
      ensures Valid() && fields == old(fields)
      ensures outcome != ConfigurationError
      ensures outcome == InvalidBound <==> count > 0 && (width <= 0 || height <= 0)
      ensures outcome == InvalidBound ==>
                bombs == [] && random == old(random) && procedural == old(procedural)
      ensures outcome == Generated ==> random == Random(seed, 0) && !procedural
      ensures outcome == Generated && count <= 0 ==> bombs == []
      ensures outcome == Generated && count > 0 ==>
                bombs == SampleBombs(draws, seed, 0, width, height, count).0
    {
      if count > 0 && (width <= 0 || height <= 0) {
        return InvalidBound;
      }

      if count > 0 {
        PlaceBombs(width, height, count);
      }

      random := Random(seed, 0);
      procedural := false;
      return Generated;
    }

    /** generateSquareGame past the mine-count check: the bounds are set, the
        collections other than flags are cleared and the rectangle is laid out. */
    method LayOutRectangle(width: int, height: int)
      requires Valid()
      modifies this`minX, this`minY, this`maxX, this`maxY, this`bombs, this`revealed, this`fields
      ensures Valid()
      ensures minX == 0 && minY == 0 && maxX == width - 1 && maxY == height - 1
      ensures fields == Rectangle(width, height) && bombs == [] && revealed == []
      ensures forall c :: c in fields <==> InRect(c, width, height)
    {
      minX, minY, maxX, maxY := 0, 0, width - 1, height - 1;
      bombs, revealed, fields := [], [], [];
      FillRectangle(width, height);
      RectangleDistinct(width, height);
      RectangleCells(width, height);
    }

    /** The outer loop of generateSquareGame: rows `0 .. height - 1`. */
    method FillRectangle(width: int, height: int)
      requires fields == []
      modifies this`fields
      ensures fields == Rectangle(width, height)
    {
      var row := 0;
      while row < height
        invariant 0 <= row && (row <= height || row == 0)
        invariant fields == Rectangle(width, row)
      {
        RectangleGrows(width, row);
        FillRow(width, row);
        row := row + 1;
      }
    }

    /** The inner loop of generateSquareGame: row `row`, left to right,
        appended to fields that hold no cell of that row yet. */
    method FillRow(width: int, row: int)
      requires forall c :: c in fields ==> c.y != row
      modifies this`fields
      ensures fields == old(fields) + Row(width, row)
    {
      ghost var before := fields;
      var column := 0;
      while column < width
        invariant 0 <= column && (column <= width || column == 0)
        invariant fields == before + Row(column, row)
      {
        RowGrows(before, width, row, column);
        SetFieldAt(Coordinate(column, row));
        column := column + 1;
      }
      assert Row(column, row) == Row(width, row);
    }

    /** The mine-placement loop of generateSquareGame, on an empty mine list
        over the full rectangle. */
    method PlaceBombs(width: int, height: int, count: int)
      requires width > 0 && height > 0 && 0 < count < width * height
      requires Covers(draws, width, height)
      requires forall c :: InRect(c, width, height) ==> c in fields
      requires bombs == []
      modifies this`fields, this`bombs
      ensures fields == old(fields)
      ensures bombs == SampleBombs(draws, seed, 0, width, height, count).0
    {
      var rng := Random(seed, 0);
      var index := 0;
      while index < count
        invariant 0 <= index <= count
        invariant bombs == SampleBombs(draws, seed, 0, width, height, index).0
        invariant rng == Random(seed, SampleBombs(draws, seed, 0, width, height, index).1)
        invariant fields == old(fields)
      {
        SampleBombsNext(draws, seed, 0, width, height, index);
        var coordinate;
        coordinate, rng := NextFreeCell(rng, width, height);
        index := index + 1;
      }
    }

    /** One turn of the placement loop: draw a cell, redraw while it is
        already a mine, then mine it. */
    method NextFreeCell(rng: Random, width: int, height: int) returns (coordinate: Coordinate, next: Random)
      requires width > 0 && height > 0 && |bombs| < width * height
      requires Covers(draws, width, height)
      requires forall c :: InRect(c, width, height) ==> c in fields
      modifies this`fields, this`bombs
      ensures fields == old(fields)
      ensures var u := FirstHit(draws, rng.seed, rng.position, width, height, old(bombs));
        && coordinate == Attempt(draws, rng.seed, rng.position, u, width, height)
        && next == Random(rng.seed, rng.position + 2 * u + 2)
        && bombs == old(bombs) + [coordinate]
    {
      ghost var q := rng.position;
      ghost var seed := rng.seed;
      HitExists(draws, seed, q, width, height, bombs);
      ghost var k: nat :| Hit(draws, seed, q, k, width, height, bombs);

      var drawX := NextInt(draws, rng, width);
      var drawY := NextInt(draws, drawX.1, height);
      next := drawY.1;
      coordinate := Coordinate(drawX.0, drawY.0);
      ghost var t := 0;

      while coordinate in bombs
        invariant t <= k
        invariant next == Random(seed, q + 2 * t + 2)
        invariant coordinate == Attempt(draws, seed, q, t, width, height)
        invariant forall i: nat :: i < t ==> !Hit(draws, seed, q, i, width, height, bombs)
        decreases k - t
      {
        drawX := NextInt(draws, next, width);
        drawY := NextInt(draws, drawX.1, height);
        next := drawY.1;
        coordinate := Coordinate(drawX.0, drawY.0);
        t := t + 1;
      }

      FirstHitUnique(draws, seed, q, width, height, bombs, t, FirstHit(draws, seed, q, width, height, bombs));
      assert coordinate in fields;
      SetBombAt(coordinate);
    }

    /** generateProceduralGame: bounds 0, the single field `(0, 0)`, no mines,
        nothing revealed, a generator seeded with `seed`, procedural mode. */
    method GenerateProceduralGame()
      requires Valid()
      modifies this`minX, this`minY, this`maxX, this`maxY
      modifies this`bombs, this`revealed, this`fields, this`random, this`procedural
      ensures Valid()
      ensures State() == ProceduralStart(old(State()), seed)
      ensures seed == old(seed)
      ensures minX == 0 && minY == 0 && maxX == 0 && maxY == 0
    {
      minX, minY, maxX, maxY := 0, 0, 0, 0;
      bombs, revealed, fields := [], [], [];

      FillBounds();

      random := Random(seed, 0);
      procedural := true;
    }

    /** The nested bound loops of generateProceduralGame, with all four
        bounds 0: they run once and add the field `(0, 0)`. */
    method FillBounds()
      requires fields == [] && minX == 0 && minY == 0 && maxX == 0 && maxY == 0
      modifies this`fields
      ensures fields == [Coordinate(0, 0)]
    {
      var row := minY;
      while row <= maxY
        invariant 0 <= row <= 1
        invariant fields == if row == 0 then [] else [Coordinate(0, 0)]
        modifies this`fields
      {
        var column := minX;
        while column <= maxX
          invariant 0 <= column <= 1
          invariant fields == if column == 0 then [] else [Coordinate(0, 0)]
          modifies this`fields
        {
          SetFieldAt(Coordinate(column, row));
          column := column + 1;
        }
        row := row + 1;
      }
    }

    /** fieldInfoAt: NONE exactly off the board, a revealed non-mine shows
        its mined-neighbour count, and ERROR_STATE never occurs. */
    function FieldInfoAt(c: Coordinate): (s: FieldState)
      reads this
      ensures s == NoField <==> c !in fields
      ensures s == Flag <==> c in fields && c !in revealed && c in flags
      ensures c in fields && c in revealed && c !in bombs ==> ShownCount(s) == UnsafeNeighbors(bombs, c)
      ensures s != ErrorState
    {
      FieldInfo(State(), c)
    }

    /** interactAt: reveal `c`; in procedural mode materialise and mine its
        missing neighbours; return its unrevealed neighbours when none of its
        neighbours is a mine, and null otherwise. */
    method InteractAt(c: Coordinate) returns (result: Option<seq<Coordinate>>)
      requires Valid()
      modifies this`fields, this`bombs, this`revealed, this`random
      ensures Valid()
      ensures (State(), result) == Reveal(old(State()), c, draws)
    {
      RevealMarksCell(State(), c, draws);
      if c !in fields {
        return None;
      }
      if c in revealed {
        return None;
      }
      revealed := revealed + [c];
      if c in bombs {
        return None;
      }

      if procedural {
        ExpandNeighbors(c);
      }

      if UnsafeNeighbors(bombs, c) == 0 {
        var toReveal := UnrevealedNeighbors(c);
        return Some(toReveal);
      }
      return None;
    }

    /** The procedural loop of interactAt: every neighbour of `c` that is not
        a field becomes one and takes one `nextInt(8)` draw; a 0 mines it. */
    method ExpandNeighbors(c: Coordinate)
      modifies this`fields, this`bombs, this`random
      ensures State() == Expand(old(State()), Neighbors(c), draws)
    {
      var ns := Neighbors(c);
      ghost var start := State();
      var i := 0;
      while i < |ns|
        invariant 0 <= i <= |ns|
        invariant State() == Expand(start, ns[..i], draws)
      {
        assert ns[..i + 1][..i] == ns[..i];
        ExpandAt(ns[i]);
        i := i + 1;
      }
      assert ns[..i] == ns;
    }

    /** One turn of the procedural loop, on neighbour `neighbor`. */
    method ExpandAt(neighbor: Coordinate)
      modifies this`fields, this`bombs, this`random
      ensures State() == ExpandStep(old(State()), neighbor, draws)
    {
      if neighbor !in fields {
        SetFieldAt(neighbor);
        var draw := NextInt(draws, random, 8);
        random := draw.1;
        if draw.0 == 0 {
          SetBombAt(neighbor);
        }
      }
    }

    /** The candidate loop of interactAt: the neighbours of `c` that are not
        revealed, in enumeration order. */
    method UnrevealedNeighbors(c: Coordinate) returns (toReveal: seq<Coordinate>)
      ensures toReveal == Outside(Neighbors(c), revealed)
      ensures forall d :: d in toReveal <==> Adjacent(c, d) && d !in revealed
      ensures |toReveal| <= 8
    {
      var ns := Neighbors(c);
      toReveal := [];
      var i := 0;
      while i < |ns|
        invariant 0 <= i <= |ns|
        invariant toReveal == Outside(ns[..i], revealed)
      {
        assert ns[..i + 1][..i] == ns[..i];
        if ns[i] !in revealed {
          toReveal := toReveal + [ns[i]];
        }
        i := i + 1;
      }
      assert ns[..i] == ns;
    }

    /** setFlagAt: flag `c` when it is an unflagged field holding a mine. */
    method SetFlagAt(c: Coordinate)
      modifies this`flags
      ensures State() == SetFlag(old(State()), c)
    {
      if c !in fields {
        return;
      }
      if c in flags {
        return;
      }
      if c in bombs {
        flags := flags + [c];
      }
    }

    function MinX(): int
      reads this
    {
      minX
    }

    function MinY(): int
      reads this
    {
      minY
    }

    function MaxX(): int
      reads this
    {
      maxX
    }

    function MaxY(): int
      reads this
    {
      maxY
    }

    function Seed(): int
      reads this
    {
      seed
    }

    method SetSeed(s: int)
      modifies this`seed
      ensures seed == s
    {
      seed := s;
    }
  }
}
