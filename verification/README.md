# Minesweeper board engine, modelled in Dafny

This project models the board engine of a small Minesweeper game, together with the part of its display that drives the flood fill.

The engine is the class `GameLogic`. It keeps four coordinate collections:
- `fields`: the cells that exist;
- `bombs`: the mined cells;
- `revealed`: the uncovered cells;
- `flags`: the flagged cells.

They are `Vector`s, used as duplicate-free sets. The engine also keeps the board bounds, a seed, a generator and a mode flag. The mode flag says whether the board is a finite rectangle or a procedural board, which grows as cells are revealed.

The display keeps a FIFO queue, `coordinatesToReveal`:
- A primary click reveals one cell and queues the neighbours the engine hands back.
- Every `update()` reveals at most 12 queued cells from the front of the queue, and only then appends the neighbours they hand back.

Layout, one module per file:

- `coordinates.dfy` (`Coordinates`):
  - coordinates and the 8-neighbour enumeration;
  - the contains-guarded `add` (`Adjoin`);
  - the stream count (`CountIn`) and the filter loop (`Outside`);
  - duplicate-free sequences and a pigeonhole lemma.
- `rng.dfy` (`Rng`): `java.util.Random` as an abstract deterministic stream.
  - A generator is a seed plus the number of `nextInt` calls made on it so far.
  - A `DrawSource` gives each call's value within its bound.
- `boards.dfy` (`Boards`): the board as a value, and the meaning of the engine's operations on it:
  - `setFieldAt` and `setBombAt`;
  - `fieldInfoAt`;
  - `interactAt`, including procedural expansion;
  - `setFlagAt`.
- `generation.dfy` (`Generation`):
  - the rectangle that `generateSquareGame` lays out, row by row;
  - the mines placed by its seeded rejection sampling;
  - the start of a procedural board.
- `game_logic.dfy` (`Logic`): the class `GameLogic`.
  - It has the source's fields, and its loops and in-place updates.
  - Its methods are proved to produce the state that the functions of `Coordinates`, `Boards` and `Generation` describe; `SetSeed` sets its argument.
- `cascade.dfy` (`Cascade`): the meaning of the display's queue. It covers:
  - a click;
  - a batch of reveals, and one `update()` tick;
  - repeated ticks;
  - the progress measure showing that a finite board's queue drains;
  - the flood fill's correctness: every field next to a revealed non-mine with no mined neighbour is revealed or still queued, so a drained finite board is complete, and on a mine-free rectangle one click reveals everything.
- `game_display.dfy` (`Display`): the class `GameDisplay`, reduced to its engine, its queue, the primary-click branch and `update()`.

## Model

| member | source | states |
|---|---|---|
| Coordinates.Neighbors | GameLogic.java:216-228 | exactly 8 neighbours, all distinct, and a cell is among them iff it is at Chebyshev distance 1 |
| Coordinates.Adjoin | GameLogic.java:110-116 | the contains-guarded add: the result holds the old entries plus `c`, keeps the old ones as a prefix, grows by at most one entry and stays duplicate-free |
| Coordinates.AdjoinIdempotent | GameLogic.java:110-116 | adding twice is adding once; adding a present coordinate changes nothing |
| Coordinates.CountIn | GameLogic.java:206-210 | the filter-and-count is at most the number of candidates, is 0 iff no candidate is in the collection, and for distinct candidates equals the number of candidates that are in the collection |
| Coordinates.Outside | GameLogic.java:188-198 | the neighbours kept by the `revealed.contains ... continue` loop: exactly those not in the collection, at most as many as the candidates, and duplicate-free when the candidates are |
| Rng.NextInt | GameLogic.java:62-65 | `nextInt(bound)` returns a value in `[0, bound)` and advances the generator by exactly one call; it also stands for the `nextInt(8)` of the procedural loop (GameLogic.java line 180) |
| Boards.AddField | GameLogic.java:110-116 | setFieldAt: `c` becomes a field, nothing else changes, and the board invariant is kept |
| Boards.AddBomb | GameLogic.java:97-108 | setBombAt: `c` ends up in both fields and mines (the recursive call included), nothing else changes, and mines stay within fields |
| Boards.AddIdempotent | GameLogic.java:97-116 | setFieldAt and setBombAt are idempotent, and are no-ops on a coordinate that is already present |
| Boards.UnsafeNeighbors | GameLogic.java:206-214 | the result is the number of cells at Chebyshev distance 1 that are mines: at most 8, and 0 iff no adjacent cell is a mine |
| Boards.CountState | GameLogic.java:143-154 | each count 0..8 maps to a state whose shown count (`ShownCount`) is that count; ERROR_STATE iff the count is out of 0..8 |
| Boards.FieldInfo | GameLogic.java:118-157 | NONE iff not a field; FLAG, UNREVEALED_BOMB, BLANK and REVEALED_BOMB each under its exact condition; a revealed non-mine shows its mined-neighbour count; ERROR_STATE is unreachable |
| Boards.ExpandStep | GameLogic.java:176-183 | one turn of the procedural loop; its whole-loop effect is stated by ExpandFields, ExpandBombs and ExpandEffect |
| Boards.Expand | GameLogic.java:175-185 | the procedural loop over the neighbours, in enumeration order; ExpandFields, ExpandBombs, ExpandEffect, ExpandCovers and ExpandMinesCreated state what it does |
| Boards.ExpandFields | GameLogic.java:175-185 | the procedural loop appends the non-field neighbours in enumeration order and consumes exactly one draw per created cell |
| Boards.ExpandBombs | GameLogic.java:175-185 | the procedural loop appends to the mines, in order, exactly the created cells whose draw is 0 |
| Boards.ExpandEffect | GameLogic.java:175-185 | the whole loop: fields, mines and generator as above; revealed, flags and mode unchanged; invariant kept |
| Boards.ExpandCovers | GameLogic.java:175-185 | after the loop every enumerated neighbour is a field |
| Boards.ExpandMinesCreated | GameLogic.java:175-185 | the j-th created cell is a mine iff draw number `start + j` is 0 |
| Boards.MinedMembership | GameLogic.java:180-182 | a created cell is mined iff its own draw is 0 |
| Boards.MinedWithin | GameLogic.java:180-182 | only created cells are mined, each at most once |
| Boards.MinedAfter | GameLogic.java:175-185 | with no created cell mined beforehand, the j-th created cell is among the mines afterwards iff its draw is 0 |
| Boards.Reveal | GameLogic.java:159-204 | interactAt on a board value; RevealMarksCell, RevealCandidates, RevealExpands, RevealMinesCreated and RevealIdempotent state what it does |
| Boards.RevealMarksCell | GameLogic.java:159-173 | a non-field or revealed cell leaves the board unchanged and returns null. Otherwise exactly that cell is added to revealed; a mine returns null without expansion. Flags and mode never change; fields and mines are only appended to, so "every flag is a mine" is kept; a finite board changes nothing else; the invariant is kept |
| Boards.RevealCandidates | GameLogic.java:187-203 | a list is returned iff an unrevealed non-mine field was revealed with no mined neighbour. The list holds the unrevealed neighbours, in enumeration order, at most 8 and duplicate-free |
| Boards.RevealExpands | GameLogic.java:175-185 | a procedural reveal makes all 8 neighbours fields. The missing ones are appended in order, consuming one draw each; the new mines are the created cells whose draw is 0 |
| Boards.RevealMinesCreated | GameLogic.java:175-185 | in a procedural reveal, the j-th created neighbour is a mine iff the j-th draw is 0 |
| Boards.RevealIdempotent | GameLogic.java:159-166 | a second interactAt on the same cell changes nothing and returns null |
| Boards.SetFlag | GameLogic.java:254-266 | a flag is added iff the cell is an unflagged mined field; flags are only appended; "every flag is a mine" and the invariant are kept |
| Generation.Row | GameLogic.java:52-56 | the inner loop's row: `w` cells `(0, y) .. (w - 1, y)`, in order |
| Generation.Rectangle | GameLogic.java:51-57 | the fields the nested loops lay out, row after row; RectangleCells, RectangleDistinct, RectangleSize and RectangleGrows state what they are |
| Generation.RectangleCells | GameLogic.java:51-57 | the nested loops lay out exactly the cells of `[0, w) x [0, h)` |
| Generation.RectangleDistinct | GameLogic.java:51-57 | the laid-out fields hold no cell twice |
| Generation.RectangleSize | GameLogic.java:51-57 | the laid-out fields have `w * h` entries |
| Generation.RectangleGrows | GameLogic.java:51-57 | each outer iteration appends a row that has no cell in common with the rows above |
| Generation.FreeCellExists | GameLogic.java:36-40 | with fewer than `w * h` mines, some cell of the rectangle is free |
| Generation.Drawn | GameLogic.java:62-65 | `new Coordinate(nextInt(width), nextInt(height))` lies in the rectangle |
| Generation.Attempt | GameLogic.java:62-66 | every attempt of the placement loop lies in the rectangle |
| Generation.HitExists | GameLogic.java:64-66 | under the fairness assumption `Covers`, some attempt hits a free cell |
| Generation.Search | GameLogic.java:64-66 | the `while (bombs.contains(coordinate))` loop stops at the first attempt that hits a free cell |
| Generation.FirstHit | GameLogic.java:64-66 | the number of the first hitting attempt: it hits, and every earlier attempt misses |
| Generation.FirstHitUnique | GameLogic.java:64-66 | the first hitting attempt is unique |
| Generation.SampleBombs | GameLogic.java:59-68 | `n` placement turns give exactly `n` distinct mines, all in the rectangle, and consume at least two draws per turn |
| Generation.ProceduralStart | GameLogic.java:75-95 | a procedural start has the single field `(0, 0)`, no mines, nothing revealed, the old flags, a generator seeded from `seed` and procedural mode |
| Generation.ProceduralStartStrandsFlags | GameLogic.java:81-83 | generateProceduralGame keeps old flags while clearing mines, so any flag left over no longer marks a mine |
| Logic.GameLogic.constructor | GameLogic.java:19-34 | seed 0, empty collections, bounds 0, finite mode, invariant established |
| Logic.GameLogic.SetFieldAt | GameLogic.java:110-116 | fields become `Adjoin(old fields, c)` |
| Logic.GameLogic.SetBombAt | GameLogic.java:97-108 | fields and mines both become `Adjoin(old, c)`, via the same recursion as the source |
| Logic.GameLogic.GenerateSquareGame | GameLogic.java:36-73 | fail-stop iff `count >= width * height`, leaving the state unchanged. Otherwise the bounds are `0, 0, width - 1, height - 1`, the fields are exactly the rectangle and nothing is revealed. A non-positive dimension with `count > 0` throws in nextInt. Otherwise the mines are the sampled ones, the generator is reseeded and the mode is finite; flags and seed are kept; the invariant is kept |
| Logic.GameLogic.LayOutRectangle | GameLogic.java:42-57 | bounds set, mines and revealed cleared, fields exactly the rectangle's cells |
| Logic.GameLogic.SeedMines | GameLogic.java:59-72 | past the layout: the nextInt exception iff a dimension is not positive while `count > 0`; otherwise exactly the sampled mines (none when `count <= 0`), a reseeded generator and finite mode; fields kept; invariant kept |
| Logic.GameLogic.FillRectangle | GameLogic.java:51-57 | the nested loops leave the fields equal to the rectangle, row by row |
| Logic.GameLogic.FillRow | GameLogic.java:52-56 | the inner loop appends one row, left to right |
| Logic.GameLogic.PlaceBombs | GameLogic.java:59-68 | the placement loop leaves exactly the sampled mines and leaves the fields alone |
| Logic.GameLogic.NextFreeCell | GameLogic.java:62-68 | one turn: the cell of the first hitting attempt is appended to the mines and the generator moves past its draws |
| Logic.GameLogic.GenerateProceduralGame | GameLogic.java:75-95 | the board becomes the procedural start; seed kept; bounds 0; invariant kept |
| Logic.GameLogic.FillBounds | GameLogic.java:85-91 | with all bounds 0 the bound loops add exactly the field `(0, 0)` |
| Logic.GameLogic.FieldInfoAt | GameLogic.java:118-157 | NONE iff `c` is not a field, FLAG iff it is an unrevealed flagged field, a revealed non-mine shows its mined-neighbour count, ERROR_STATE never occurs |
| Logic.GameLogic.InteractAt | GameLogic.java:159-204 | the new board and the returned list are those of `Reveal`; the invariant is kept |
| Logic.GameLogic.ExpandNeighbors | GameLogic.java:175-185 | the procedural loop produces the board `Expand` describes |
| Logic.GameLogic.ExpandAt | GameLogic.java:176-183 | one turn of the procedural loop produces `ExpandStep` |
| Logic.GameLogic.UnrevealedNeighbors | GameLogic.java:187-200 | the candidate list: the unrevealed neighbours in enumeration order, at most 8 |
| Logic.GameLogic.SetFlagAt | GameLogic.java:254-266 | the board becomes `SetFlag` of the old one |
| Logic.GameLogic.SetSeed | GameLogic.java:246-248 | the seed is set |
| Logic.GameLogic.MinY | GameLogic.java:230-232 | the getter returns the `minY` field |
| Logic.GameLogic.MaxY | GameLogic.java:234-236 | the getter returns the `maxY` field |
| Logic.GameLogic.MinX | GameLogic.java:238-240 | the getter returns the `minX` field |
| Logic.GameLogic.MaxX | GameLogic.java:242-244 | the getter returns the `maxX` field |
| Logic.GameLogic.Seed | GameLogic.java:250-252 | the getter returns the `seed` field (the `(int)` cast is not modelled) |
| Cascade.Taken | GameDisplay.java:276-287 | a tick takes `min(12, queue length)` entries |
| Cascade.RevealAll | GameDisplay.java:276-287 | the batch: the queue's front entries revealed one after the other, their lists concatenated in order; RevealAllBound, RevealAllFinite and RevealAllKeepsClosed state what it does |
| Cascade.Tick | GameDisplay.java:273-291 | one update(): the batch, then the rest of the queue followed by the collected lists; TickAccounting, TickEmpty, TickIgnoresTail, TickProgress and TickKeepsClosed state what it does |
| Cascade.Run | GameDisplay.java:273-291 | update() called `n` times in a row; TicksToDrain, RunKeepsClosed and DrainCloses state what it does |
| Cascade.Click | GameDisplay.java:174-181 | a click leaves the board `interactAt` produces and appends the list it returned (nothing for null) to the queue: the old queue stays a prefix and at most 8 entries join |
| Cascade.ClickQueues | GameDisplay.java:174-181 | on a well-formed board a click queues, behind the old queue, exactly the unrevealed neighbours of the clicked cell in enumeration order when it revealed a non-mine with no mined neighbour, and nothing otherwise |
| Cascade.PendingBound | GameLogic.java:160-168 | a well-formed board never has more revealed cells than fields |
| Cascade.RevealAllBound | GameDisplay.java:276-287 | a batch keeps the invariant, flags and mode, only appends to revealed, and yields at most 8 candidates per processed entry |
| Cascade.RevealAllFinite | GameDisplay.java:276-287 | on a finite board a batch only reveals, and yields at most 8 candidates per newly revealed cell |
| Cascade.TickEmpty | GameDisplay.java:277 | with an empty queue update() changes neither the board nor the queue |
| Cascade.TickIgnoresTail | GameDisplay.java:278-290 | FIFO: entries behind a full batch take no part in the tick and keep their order, before the new candidates |
| Cascade.TickAccounting | GameDisplay.java:273-291 | exactly `min(12, length)` entries leave the front, the rest stays in front in order, and at most 8 per processed entry join at the tail |
| Cascade.TickProgress | GameDisplay.java:273-291 | on a finite board a non-empty tick lowers the number of unrevealed fields, or keeps it and shortens the queue |
| Cascade.TicksToDrain | GameDisplay.java:273-291 | on a finite board some number of ticks empties the queue, without changing the fields |
| Cascade.RevealKeepsClosed | GameLogic.java:187-203 | revealing the front entry keeps every field next to an opened cell (a revealed non-mine with no mined neighbour) revealed or queued, the returned list taking the entry's place at the tail; on a procedural board every revealed non-mine keeps all 8 neighbours as fields |
| Cascade.RevealAllKeepsClosed | GameDisplay.java:276-287 | a batch keeps that closure, with the rest of the queue followed by the collected lists as the new queue |
| Cascade.TickKeepsClosed | GameDisplay.java:273-291 | update() keeps the closure against the queue it leaves, keeps the invariant and the mode, only adds revealed cells, and on a finite board keeps fields and mines |
| Cascade.ClickKeepsClosed | GameDisplay.java:174-181 | a click keeps the closure against the queue it leaves |
| Cascade.RunKeepsClosed | GameDisplay.java:273-291 | any number of update() calls keep the closure, the invariant and the mode, and only add revealed cells |
| Cascade.DrainCloses | GameDisplay.java:273-291 | on a finite board, once the queue is empty every field next to an opened cell is revealed |
| Cascade.MineFreeRectangleRevealed | GameLogic.java:187-203 | on a mine-free rectangle closed with nothing queued, one revealed cell means every cell is revealed |
| Cascade.MineFreeCascade | GameDisplay.java:174-181 | on a fresh mine-free rectangle, a click on any field followed by update() until the queue is empty reveals every field |
| Display.GameDisplay.constructor | GameDisplay.java:82-87 | the engine has seed 0 and a procedural start; the queue is empty |
| Display.GameDisplay.PrimaryClick | GameDisplay.java:174-181 | the board and queue become those of `Click`; one interactAt call |
| Display.GameDisplay.Update | GameDisplay.java:273-291 | the board and queue become those of `Tick`; exactly `min(12, queue length)` interactAt calls |
| Display.GameDisplay.RevealFront | GameDisplay.java:277-287 | one batch turn: reveal the front entry, collect its list, remove the front |

## Left out

- `java.util.Random` internals (the 48-bit LCG and the rejection inside `nextInt`):
  - They are a foreign library. A `DrawSource` stands for them: a function of the seed, the number of earlier `nextInt` calls and the bound.
  - For a bound that is not a power of two, `nextInt` may take several steps of the LCG, so a value depends on the bounds of the earlier calls, not only on their number.
  - One `DrawSource` is therefore exact for a single generator instance, whose bounds follow a fixed pattern: width and height alternately while mines are placed; always 8 in procedural mode.
  - It is exact across instances only when every bound is a power of two, as in procedural mode. The engine holds one `DrawSource`, so two square games with the same seed and different dimensions that are not powers of two are not both modelled exactly.
- Logic.GameLogic.GenerateSquareGame requires `Covers` when `0 < count < width * height`: from every stream position, the attempts eventually hit every cell of the rectangle.
  - The source demands nothing here. Its rejection loop simply runs until a free cell is drawn.
  - `Covers` is what makes that loop terminate. Without it the mines are not a function of the seed. Logic.GameLogic.SeedMines, Logic.GameLogic.PlaceBombs and Logic.GameLogic.NextFreeCell carry the same requirement.
- `System.exit(1)` in generateSquareGame is the outcome `ConfigurationError`, with the state unchanged. The `IllegalArgumentException` that `nextInt` throws for a non-positive bound is the outcome `InvalidBound`.
- Java `int` overflow, in `width * height`, in the coordinate `± 1` arithmetic and in the `(int)` casts of `seed()` and of the stream count: coordinates, counts and the seed are unbounded integers.
- The game-over branch is only a TODO in the source (GameLogic.java:171). A revealed mine just returns null.
- The constructor's `new Random(seed)` goes to a local variable, so the field stays null.
  - The model gives the field a placeholder value.
  - The generator is only read in procedural mode, and only generateProceduralGame turns that mode on, after assigning the field.
- Logic.GameLogic.InteractAt, Logic.GameLogic.GenerateSquareGame and Logic.GameLogic.GenerateProceduralGame require the board invariant `Valid()`.
  - The invariant says the collections are duplicate-free and that mines and revealed cells are fields.
  - The constructor establishes it and every method keeps it.
- The accessors `minX`, `minY`, `maxX`, `maxY` and `seed` are functions that read the field; they carry no further contract.
- Three behaviours a reader might not expect are followed as written:
  - generateProceduralGame does create the field `(0, 0)`;
  - neither generator clears `flags`;
  - interactAt reveals flagged cells.
- The rest of GameDisplay:
  - the view rectangle, pan and zoom, and the mouse-to-cell conversion, which are floating point;
  - texture loading and drawing, and the other mouse buttons and keys.
- GameFramework, MouseManager and KeyManager (window setup, the frame loop, clocks and event hand-off between threads) are not part of this model.
- Cascade.DrainCloses and Cascade.MineFreeCascade are about finite boards only: a procedural board's queue need not drain. The closure that they rest on (Cascade.TickKeepsClosed, Cascade.RunKeepsClosed) is proved for both modes.
- Display.GameDisplay.PrimaryClick takes the cell under the mouse as a parameter instead of reading the mouse position.
- The queue is a `seq` that the methods reassign. Aliasing of the Vectors is not modelled; none of them is shared in the source.
