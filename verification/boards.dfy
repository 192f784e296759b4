/** The board engine's state as a value, and the pure meaning of its
    operations: classifying a cell, revealing one cell (with procedural
    expansion), and flagging.  The class GameLogic (module Logic) performs
    these operations in place and is proved to agree with this module. */
module Boards {
  import opened Coordinates
  import opened Rng

  /** A Vector reference that may be null. */
  datatype Option<T> = None | Some(value: T)

  /** What a cell looks like to the display. */
  datatype FieldState =
    | NoField | Flag | UnrevealedBomb | Blank | RevealedBomb
    | Empty | One | Two | Three | Four | Five | Six | Seven | Eight
    | ErrorState

  /** The four coordinate collections of GameLogic, its generator and its mode.
      Each collection is a Vector used as a set. */
  datatype Board = Board(
    fields: seq<Coordinate>,
    bombs: seq<Coordinate>,
    revealed: seq<Coordinate>,
    flags: seq<Coordinate>,
    random: Random,
    procedural: bool)

  /** What every operation keeps: no duplicates anywhere, and mines and
      revealed cells are fields.  (Flags are not tied to fields or mines:
      regeneration keeps the old flags.) */
  predicate WellFormed(b: Board)
  {
    && NoDuplicates(b.fields)
    && NoDuplicates(b.bombs)
    && NoDuplicates(b.revealed)
    && NoDuplicates(b.flags)
    && (forall c :: c in b.bombs ==> c in b.fields)
    && (forall c :: c in b.revealed ==> c in b.fields)
  }

  /** Every flag marks a mine. */
  predicate FlagsOnBombs(b: Board)
  {
    forall c :: c in b.flags ==> c in b.bombs
  }

  // ---------------------------------------------------------------------
  // setFieldAt and setBombAt

  /** setFieldAt: `c` becomes a field, nothing else changes, and the
      invariant is kept. */
  function AddField(b: Board, c: Coordinate): (a: Board)
    ensures c in a.fields
    ensures forall d :: d in a.fields <==> d in b.fields || d == c
    ensures a.(fields := b.fields) == b
    ensures WellFormed(b) ==> WellFormed(a)
  {
    b.(fields := Adjoin(b.fields, c))
  }

  /** setBombAt: when `c` is not a field, the source first makes it one and
      then calls itself, so in every case `c` ends up, once, in both
      collections and mines stay inside the fields. */
  function AddBomb(b: Board, c: Coordinate): (a: Board)
    ensures c in a.fields && c in a.bombs
    ensures forall d :: d in a.fields <==> d in b.fields || d == c
    ensures forall d :: d in a.bombs <==> d in b.bombs || d == c
    ensures a.(fields := b.fields, bombs := b.bombs) == b
    ensures WellFormed(b) ==> WellFormed(a)
  {
    b.(fields := Adjoin(b.fields, c), bombs := Adjoin(b.bombs, c))
  }

  /** setFieldAt and setBombAt are idempotent: a second call with the same
      coordinate changes nothing. */
  lemma AddIdempotent(b: Board, c: Coordinate)
    ensures AddField(AddField(b, c), c) == AddField(b, c)
    ensures AddBomb(AddBomb(b, c), c) == AddBomb(b, c)
    ensures c in b.fields ==> AddField(b, c) == b
    ensures c in b.bombs && c in b.fields ==> AddBomb(b, c) == b
  {
    AdjoinIdempotent(b.fields, c);
    AdjoinIdempotent(b.bombs, c);
  }

  // ---------------------------------------------------------------------
  // fieldInfoAt

  /** unsafeNeighborsAt: how many of the 8 neighbours of `c` are mines. */
  function UnsafeNeighbors(bombs: seq<Coordinate>, c: Coordinate): (n: nat)
    ensures n <= 8
    ensures n == 0 <==> forall d :: Adjacent(c, d) ==> d !in bombs
    ensures n == |set d | Adjacent(c, d) && d in bombs|
  {
    var ns := Neighbors(c);
    assert (set d | d in ns && d in bombs) == (set d | Adjacent(c, d) && d in bombs);
    CountIn(ns, bombs)
  }

  /** The switch from a neighbour-mine count to a state. */
  function CountState(n: int): (s: FieldState)
    ensures 0 <= n <= 8 ==> ShownCount(s) == n
    ensures s == ErrorState <==> n < 0 || n > 8
  {
    match n
    case 0 => Empty
    case 1 => One
    case 2 => Two
    case 3 => Three
    case 4 => Four
    case 5 => Five
    case 6 => Six
    case 7 => Seven
    case 8 => Eight
    case _ => ErrorState
  }

  /** The count a numbered state shows (-1 for the other states): the
      inverse of CountState on 0..8. */
  function ShownCount(s: FieldState): int
  {
    match s
    case Empty => 0
    case One => 1
    case Two => 2
    case Three => 3
    case Four => 4
    case Five => 5
    case Six => 6
    case Seven => 7
    case Eight => 8
    case _ => -1
  }

  /** fieldInfoAt: the state of `c`, decided from the four collections. */
  function FieldInfo(b: Board, c: Coordinate): (s: FieldState)
    ensures s == NoField <==> c !in b.fields
    ensures s == Flag <==> c in b.fields && c !in b.revealed && c in b.flags
    ensures s == UnrevealedBomb <==> c in b.fields && c !in b.revealed && c !in b.flags && c in b.bombs
    ensures s == Blank <==> c in b.fields && c !in b.revealed && c !in b.flags && c !in b.bombs
    ensures s == RevealedBomb <==> c in b.fields && c in b.revealed && c in b.bombs
    ensures c in b.fields && c in b.revealed && c !in b.bombs ==>
              ShownCount(s) == UnsafeNeighbors(b.bombs, c)
    ensures s != ErrorState
  {
    if c !in b.fields then NoField
    else
      var bomb := c in b.bombs;
      var revealed := c in b.revealed;
      var flagged := c in b.flags;
      if !revealed then
        if flagged then Flag
        else if bomb then UnrevealedBomb
        else Blank
      else if bomb then RevealedBomb
      else CountState(UnsafeNeighbors(b.bombs, c))
  }

  // ---------------------------------------------------------------------
  // interactAt

  /** One turn of the procedural-expansion loop: a neighbour that is not yet a
      field becomes one and consumes one `nextInt(8)` draw; a draw of 0 mines it. */
  function ExpandStep(b: Board, n: Coordinate, draws: DrawSource): Board
  {
    if n in b.fields then b
    else
      var withField := AddField(b, n);
      var (v, next) := NextInt(draws, withField.random, 8);
      var drawn := withField.(random := next);
      if v == 0 then AddBomb(drawn, n) else drawn
  }

  /** The expansion loop over `ns`, in order. */
  function Expand(b: Board, ns: seq<Coordinate>, draws: DrawSource): Board
    decreases |ns|
  {
    if ns == [] then b
    else ExpandStep(Expand(b, ns[..|ns| - 1], draws), ns[|ns| - 1], draws)
  }

  /** The entries of `created` whose draws are 0, when `created[j]` consumes
      draw number `start + j` of the generator seeded with `seed`. */
  function Mined(created: seq<Coordinate>, seed: int, start: nat, draws: DrawSource): seq<Coordinate>
    decreases |created|
  {
    if created == [] then []
    else
      var j := |created| - 1;
      Mined(created[..j], seed, start, draws)
        + (if NextInt(draws, Random(seed, start + j), 8).0 == 0 then [created[j]] else [])
  }

  /** Creating one more cell adds its draw's outcome at the end. */
  lemma MinedAppend(created: seq<Coordinate>, n: Coordinate, seed: int, start: nat, draws: DrawSource)
    ensures Mined(created + [n], seed, start, draws)
            == Mined(created, seed, start, draws)
               + (if NextInt(draws, Random(seed, start + |created|), 8).0 == 0 then [n] else [])
  {
    assert (created + [n])[..|created|] == created;
  }

  /** A newly created cell is mined exactly when its own draw is 0. */
  lemma {:induction false} MinedMembership(created: seq<Coordinate>, seed: int, start: nat, draws: DrawSource, j: nat)
    requires NoDuplicates(created) && j < |created|
    ensures created[j] in Mined(created, seed, start, draws)
            <==> NextInt(draws, Random(seed, start + j), 8).0 == 0
  {
    var last := |created| - 1;
    var init := created[..last];
    MinedWithin(init, seed, start, draws);
    if j < last {
      MinedMembership(init, seed, start, draws, j);
      assert created[j] == init[j];
    } else {
      assert created[j] !in init;
    }
  }

  /** Only created cells are mined by an expansion, each at most once. */
  lemma {:induction false} MinedWithin(created: seq<Coordinate>, seed: int, start: nat, draws: DrawSource)
    ensures forall d :: d in Mined(created, seed, start, draws) ==> d in created
    ensures NoDuplicates(created) ==> NoDuplicates(Mined(created, seed, start, draws))
    decreases |created|
  {
    if created != [] {
      var last := |created| - 1;
      var init := created[..last];
      assert created == init + [created[last]];
      MinedWithin(init, seed, start, draws);
      if NoDuplicates(created) {
        assert NoDuplicates(init);
        assert created[last] !in init;
        NoDuplicatesConcat(Mined(init, seed, start, draws),
          if NextInt(draws, Random(seed, start + last), 8).0 == 0 then [created[last]] else []);
      }
    }
  }

  /** Appending the mined cells to a list of mines none of them was in: a
      created cell is then a mine exactly when its draw is 0. */
  lemma MinedAfter(bombs: seq<Coordinate>, created: seq<Coordinate>, seed: int, start: nat, draws: DrawSource)
    requires NoDuplicates(created)
    requires forall d :: d in created ==> d !in bombs
    ensures forall j :: 0 <= j < |created| ==>
      (created[j] in bombs + Mined(created, seed, start, draws)
       <==> NextInt(draws, Random(seed, start + j), 8).0 == 0)
  {
    forall j | 0 <= j < |created|
      ensures created[j] in bombs + Mined(created, seed, start, draws)
              <==> NextInt(draws, Random(seed, start + j), 8).0 == 0
    {
      MinedMembership(created, seed, start, draws, j);
    }
  }

  /** Expansion touches only fields, mines and the generator; it only appends. */
  lemma {:induction false} ExpandFrame(b: Board, ns: seq<Coordinate>, draws: DrawSource)
    ensures var e := Expand(b, ns, draws);
      && e.revealed == b.revealed && e.flags == b.flags && e.procedural == b.procedural
      && b.fields <= e.fields && b.bombs <= e.bombs
      && e.random.seed == b.random.seed
    decreases |ns|
  {
    if ns != [] {
      ExpandFrame(b, ns[..|ns| - 1], draws);
    }
  }

  /** One expansion step: a neighbour that is already a field changes
      nothing; otherwise it is appended to the fields, the generator advances
      by one draw, and a draw of 0 appends it to the mines. */
  lemma ExpandStepShape(e: Board, n: Coordinate, draws: DrawSource)
    ensures n in e.fields ==> ExpandStep(e, n, draws) == e
    ensures n !in e.fields ==>
      && ExpandStep(e, n, draws).fields == e.fields + [n]
      && ExpandStep(e, n, draws).random == Random(e.random.seed, e.random.position + 1)
    ensures n !in e.fields && n !in e.bombs ==>
      ExpandStep(e, n, draws).bombs
      == e.bombs + (if NextInt(draws, e.random, 8).0 == 0 then [n] else [])
  {
  }

  /** The step case of ExpandFields, kept apart to keep its proof small. */
  lemma ExpandFieldsStep(b: Board, e0: Board, created0: seq<Coordinate>, n: Coordinate, draws: DrawSource)
    requires e0.fields == b.fields + created0
    requires e0.random == Random(b.random.seed, b.random.position + |created0|)
    requires n !in created0
    ensures var created := created0 + (if n in b.fields then [] else [n]);
      && ExpandStep(e0, n, draws).fields == b.fields + created
      && ExpandStep(e0, n, draws).random == Random(b.random.seed, b.random.position + |created|)
  {
    ExpandStepShape(e0, n, draws);
    if n !in b.fields {
      assert (b.fields + created0) + [n] == b.fields + (created0 + [n]);
    }
  }

  /** The expansion loop appends the entries of `ns` that were not fields to
      the fields, in order, and consumes one draw for each of them. */
  lemma {:induction false} ExpandFields(b: Board, ns: seq<Coordinate>, draws: DrawSource)
    requires NoDuplicates(ns)
    ensures Expand(b, ns, draws).fields == b.fields + Outside(ns, b.fields)
    ensures Expand(b, ns, draws).random == Random(b.random.seed, b.random.position + |Outside(ns, b.fields)|)
    decreases |ns|
  {
    if ns != [] {
      var last := |ns| - 1;
      var init := ns[..last];
      var n := ns[last];
      assert ns == init + [n];
      assert NoDuplicates(init);
      ExpandFields(b, init, draws);
      var created0 := Outside(init, b.fields);
      assert n !in created0 by {
        assert n !in init;
      }
      assert Outside(ns, b.fields) == created0 + (if n in b.fields then [] else [n]);
      ExpandFieldsStep(b, Expand(b, init, draws), created0, n, draws);
    }
  }

  /** The step case of ExpandBombs, kept apart to keep its proof small. */
  lemma ExpandBombsStep(e0: Board, bombs: seq<Coordinate>, created0: seq<Coordinate>, n: Coordinate,
                        draws: DrawSource, seed: int, start: nat)
    requires e0.bombs == bombs + Mined(created0, seed, start, draws)
    requires e0.random == Random(seed, start + |created0|)
    requires n !in e0.fields && n !in e0.bombs
    ensures ExpandStep(e0, n, draws).bombs == bombs + Mined(created0 + [n], seed, start, draws)
  {
    ExpandStepShape(e0, n, draws);
    MinedAppend(created0, n, seed, start, draws);
  }

  /** The expansion loop appends to the mines, in order, the created cells
      whose draws are 0. */
  lemma {:induction false} ExpandBombs(b: Board, ns: seq<Coordinate>, draws: DrawSource)
    requires forall c :: c in b.bombs ==> c in b.fields
    requires NoDuplicates(ns)
    ensures Expand(b, ns, draws).bombs == b.bombs + Mined(Outside(ns, b.fields), b.random.seed, b.random.position, draws)
    decreases |ns|
  {
    if ns != [] {
      var last := |ns| - 1;
      var init := ns[..last];
      var n := ns[last];
      assert ns == init + [n];
      assert NoDuplicates(init);
      ExpandBombs(b, init, draws);
      ExpandFields(b, init, draws);
      var e0 := Expand(b, init, draws);
      var created0 := Outside(init, b.fields);
      assert Expand(b, ns, draws) == ExpandStep(e0, n, draws);
      assert Outside(ns, b.fields) == created0 + (if n in b.fields then [] else [n]);
      if n in b.fields {
        ExpandStepShape(e0, n, draws);
        assert Outside(ns, b.fields) == created0;
      } else {
        assert n !in init;
        MinedWithin(created0, b.random.seed, b.random.position, draws);
        assert n !in e0.bombs;
        ExpandBombsStep(e0, b.bombs, created0, n, draws, b.random.seed, b.random.position);
        assert Outside(ns, b.fields) == created0 + [n];
      }
    }
  }

  /** The expansion loop, all at once: the neighbours that were not fields
      (`Outside(ns, b.fields)`) are appended to the fields in order, each
      consumes one draw in that order, the ones whose draw is 0 are appended to
      the mines, cells that were already fields are left alone, nothing else
      changes, and the invariant is kept. */
  lemma ExpandEffect(b: Board, ns: seq<Coordinate>, draws: DrawSource)
    requires WellFormed(b) && NoDuplicates(ns)
    ensures Expand(b, ns, draws).fields == b.fields + Outside(ns, b.fields)
    ensures Expand(b, ns, draws).bombs == b.bombs + Mined(Outside(ns, b.fields), b.random.seed, b.random.position, draws)
    ensures Expand(b, ns, draws).random == Random(b.random.seed, b.random.position + |Outside(ns, b.fields)|)
    ensures Expand(b, ns, draws).revealed == b.revealed
    ensures Expand(b, ns, draws).flags == b.flags
    ensures Expand(b, ns, draws).procedural == b.procedural
    ensures WellFormed(Expand(b, ns, draws))
  {
    ExpandFields(b, ns, draws);
    ExpandBombs(b, ns, draws);
    ExpandFrame(b, ns, draws);
    var created := Outside(ns, b.fields);
    var mined := Mined(created, b.random.seed, b.random.position, draws);
    MinedWithin(created, b.random.seed, b.random.position, draws);
    NoDuplicatesConcat(b.fields, created);
    NoDuplicatesConcat(b.bombs, mined);
  }

  /** After expanding over `ns`, every entry of `ns` is a field. */
  lemma {:induction false} ExpandCovers(b: Board, ns: seq<Coordinate>, draws: DrawSource)
    ensures forall n :: n in ns ==> n in Expand(b, ns, draws).fields
    decreases |ns|
  {
    if ns != [] {
      var last := |ns| - 1;
      var init := ns[..last];
      assert ns == init + [ns[last]];
      ExpandCovers(b, init, draws);
      var e0 := Expand(b, init, draws);
      ExpandFrame(e0, [ns[last]], draws);
      assert Expand(e0, [ns[last]], draws) == ExpandStep(e0, ns[last], draws);
    }
  }

  /** Each cell an expansion creates is a mine exactly when its own draw,
      taken in creation order, is 0. */
  lemma ExpandMinesCreated(b: Board, ns: seq<Coordinate>, draws: DrawSource, seed: int, start: nat)
    requires WellFormed(b) && NoDuplicates(ns) && b.random == Random(seed, start)
    ensures var created := Outside(ns, b.fields);
      forall j :: 0 <= j < |created| ==>
        (created[j] in Expand(b, ns, draws).bombs
         <==> NextInt(draws, Random(seed, start + j), 8).0 == 0)
  {
    ExpandBombs(b, ns, draws);
    MinedAfter(b.bombs, Outside(ns, b.fields), seed, start, draws);
  }

  /** interactAt: the board afterwards and the returned list (null is None). */
  function Reveal(b: Board, c: Coordinate, draws: DrawSource): (Board, Option<seq<Coordinate>>)
  {
    if c !in b.fields || c in b.revealed then (b, None)
    else
      var marked := b.(revealed := b.revealed + [c]);
      if c in marked.bombs then (marked, None)
      else
        var grown := if marked.procedural then Expand(marked, Neighbors(c), draws) else marked;
        if UnsafeNeighbors(grown.bombs, c) == 0 then (grown, Some(Outside(Neighbors(c), grown.revealed)))
        else (grown, None)
  }

  /** interactAt ignores a cell that is not a field or is already revealed;
      otherwise it reveals exactly that cell.  It never changes flags or the
      mode, only appends to fields and mines (so "every flag is a mine" holds
      until the next regeneration), on a finite board it changes nothing
      else, and it keeps the invariant. */
  lemma RevealMarksCell(b: Board, c: Coordinate, draws: DrawSource)
    requires WellFormed(b)
    ensures var (a, r) := Reveal(b, c, draws);
      && (c !in b.fields || c in b.revealed ==> a == b && r == None)
      && (c in b.fields && c !in b.revealed ==> a.revealed == b.revealed + [c])
      && (c in b.fields && c !in b.revealed && c in b.bombs ==>
            a == b.(revealed := b.revealed + [c]) && r == None)
      && a.flags == b.flags && a.procedural == b.procedural
      && b.fields <= a.fields && b.bombs <= a.bombs
      && (FlagsOnBombs(b) ==> FlagsOnBombs(a))
      && (!b.procedural ==> a.fields == b.fields && a.bombs == b.bombs && a.random == b.random)
      && WellFormed(a)
  {
    if c in b.fields && c !in b.revealed && c !in b.bombs && b.procedural {
      var marked := b.(revealed := b.revealed + [c]);
      assert WellFormed(marked) by {
        AppendNew(b.revealed, c);
      }
      ExpandEffect(marked, Neighbors(c), draws);
    } else if c in b.fields && c !in b.revealed {
      AppendNew(b.revealed, c);
    }
  }

  /** interactAt returns a list exactly when it revealed a non-mine with no
      mined neighbour (counted after expansion); the list holds, in enumeration
      order and once each, the neighbours not revealed at that point. */
  lemma RevealCandidates(b: Board, c: Coordinate, draws: DrawSource)
    requires WellFormed(b)
    ensures var (a, r) := Reveal(b, c, draws);
      && (r.Some? <==> c in b.fields && c !in b.revealed && c !in b.bombs
                       && UnsafeNeighbors(a.bombs, c) == 0)
      && (r.Some? ==>
            && r.value == Outside(Neighbors(c), a.revealed)
            && |r.value| <= 8
            && NoDuplicates(r.value)
            && (forall d :: d in r.value <==> Adjacent(c, d) && d !in a.revealed))
  {
    if c in b.fields && c !in b.revealed && c !in b.bombs && b.procedural {
      ExpandFrame(b.(revealed := b.revealed + [c]), Neighbors(c), draws);
    }
  }

  /** Procedural expansion on reveal: afterwards all 8 neighbours are fields;
      those that were not are appended in enumeration order, and exactly as
      many `nextInt(8)` draws are consumed; the mines added are the created
      cells whose draw was 0, in the same order. */
  lemma RevealExpands(b: Board, c: Coordinate, draws: DrawSource, seed: int, start: nat)
    requires WellFormed(b) && b.procedural && b.random == Random(seed, start)
    requires c in b.fields && c !in b.revealed && c !in b.bombs
    ensures var (a, _) := Reveal(b, c, draws);
      var created := Outside(Neighbors(c), b.fields);
      && (forall d :: Adjacent(c, d) ==> d in a.fields)
      && a.fields == b.fields + created
      && a.bombs == b.bombs + Mined(created, seed, start, draws)
      && a.random == Random(seed, start + |created|)
  {
    var marked := b.(revealed := b.revealed + [c]);
    assert WellFormed(marked) by {
      AppendNew(b.revealed, c);
    }
    assert Reveal(b, c, draws).0 == Expand(marked, Neighbors(c), draws);
    ExpandFields(marked, Neighbors(c), draws);
    ExpandBombs(marked, Neighbors(c), draws);
  }

  /** Each neighbour created by a reveal is a mine exactly when its own draw,
      taken in enumeration order, is 0. */
  lemma RevealMinesCreated(b: Board, c: Coordinate, draws: DrawSource, seed: int, start: nat)
    requires WellFormed(b) && b.procedural && b.random == Random(seed, start)
    requires c in b.fields && c !in b.revealed && c !in b.bombs
    ensures var created := Outside(Neighbors(c), b.fields);
      forall j :: 0 <= j < |created| ==>
        (created[j] in Reveal(b, c, draws).0.bombs
         <==> NextInt(draws, Random(seed, start + j), 8).0 == 0)
  {
    var marked := b.(revealed := b.revealed + [c]);
    assert WellFormed(marked) by {
      AppendNew(b.revealed, c);
    }
    assert Reveal(b, c, draws).0 == Expand(marked, Neighbors(c), draws);
    ExpandMinesCreated(marked, Neighbors(c), draws, seed, start);
  }

  /** Revealing the same cell twice has the effect of revealing it once;
      the second call returns null. */
  lemma RevealIdempotent(b: Board, c: Coordinate, draws: DrawSource)
    ensures var (a, _) := Reveal(b, c, draws);
      Reveal(a, c, draws) == (a, None)
  {
    if c in b.fields && c !in b.revealed && c !in b.bombs && b.procedural {
      ExpandFrame(b.(revealed := b.revealed + [c]), Neighbors(c), draws);
    }
  }

  // ---------------------------------------------------------------------
  // setFlagAt

  /** setFlagAt: a flag is added only on an unflagged field that is a mine;
      nothing else changes and no flag is ever removed. */
  function SetFlag(b: Board, c: Coordinate): (a: Board)
    ensures a.(flags := b.flags) == b
    ensures b.flags <= a.flags
    ensures a.flags != b.flags <==> c in b.fields && c !in b.flags && c in b.bombs
    ensures a.flags != b.flags ==> a.flags == b.flags + [c]
    ensures FlagsOnBombs(b) ==> FlagsOnBombs(a)
    ensures WellFormed(b) ==> WellFormed(a)
  {
    if c !in b.fields then b
    else if c in b.flags then b
    else if c in b.bombs then
      AppendNew(b.flags, c);
      b.(flags := b.flags + [c])
    else b
  }
}
