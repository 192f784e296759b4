/** The part of GameDisplay that drives the flood fill: its engine, the
    `coordinatesToReveal` queue, the primary-click branch that seeds the
    queue and `update()`, which works the queue off in batches. */
module Display {
  import opened Coordinates
  import opened Rng
  import opened Boards
  import opened Logic
  import opened Cascade

  class GameDisplay {
    const gameLogic: GameLogic
    var coordinatesToReveal: seq<Coordinate>
    /** How many times interactAt has been called on the engine. */
    ghost var interactions: nat

    /** The engine is created with seed 0 and a procedural game; the queue
        starts empty. */
    constructor (draws: DrawSource)
      ensures fresh(gameLogic)
      ensures gameLogic.Valid() && gameLogic.draws == draws && gameLogic.seed == 0
      ensures gameLogic.State() == Board([Coordinate(0, 0)], [], [], [], Random(0, 0), true)
      ensures coordinatesToReveal == [] && interactions == 0
    {
      var logic := new GameLogic(draws);
      logic.SetSeed(0);
      logic.GenerateProceduralGame();
      gameLogic := logic;
      coordinatesToReveal := [];
      interactions := 0;
    }

    /** The BUTTON1 branch of processInput: interact with the cell under the
        mouse and queue the list it returns, if any. */
    method PrimaryClick(c: Coordinate)
      requires gameLogic.Valid()
      modifies this`coordinatesToReveal, this`interactions
      modifies gameLogic`fields, gameLogic`bombs, gameLogic`revealed, gameLogic`random
      ensures gameLogic.Valid()
      ensures (gameLogic.State(), coordinatesToReveal)
              == Click(old(gameLogic.State()), old(coordinatesToReveal), c, gameLogic.draws)
      ensures interactions == old(interactions) + 1
    {
      var toReveal := gameLogic.InteractAt(c);
      interactions := interactions + 1;
      if toReveal != None {
        coordinatesToReveal := coordinatesToReveal + toReveal.value;
      } else {
        assert coordinatesToReveal + Found(toReveal) == coordinatesToReveal;
      }
    }

    /** update(): up to 12 times, interact with the front of the queue and
        remove it, collecting the lists returned; then append them all. */
    method Update()
      requires gameLogic.Valid()
      modifies this`coordinatesToReveal, this`interactions
      modifies gameLogic`fields, gameLogic`bombs, gameLogic`revealed, gameLogic`random
      ensures gameLogic.Valid()
      ensures (gameLogic.State(), coordinatesToReveal)
              == Tick(old(gameLogic.State()), old(coordinatesToReveal), gameLogic.draws)
      ensures interactions == old(interactions) + Taken(|old(coordinatesToReveal)|)
    {
      ghost var start := gameLogic.State();
      ghost var queue := coordinatesToReveal;
      var newToReveal: seq<Coordinate> := [];

      var batch := 0;
      ghost var taken := 0;
      while batch < BatchSize
        invariant 0 <= taken <= batch <= BatchSize && taken <= |queue|
        invariant taken == batch || coordinatesToReveal == []
        invariant coordinatesToReveal == queue[taken..]
        invariant gameLogic.Valid()
        invariant gameLogic.State() == RevealAll(start, queue[..taken], gameLogic.draws).0
        invariant newToReveal == RevealAll(start, queue[..taken], gameLogic.draws).1
        invariant interactions == old(interactions) + taken
      {
        if coordinatesToReveal != [] {
          RevealAllNext(start, queue, taken, gameLogic.draws);
          newToReveal := RevealFront(newToReveal);
          taken := taken + 1;
        }
        batch := batch + 1;
      }
      assert taken == Taken(|queue|);

      coordinatesToReveal := coordinatesToReveal + newToReveal;
    }

    /** One turn of the batch loop: interact with the front of the queue,
        collect the list it returns, if any, and remove the front. */
    method RevealFront(newToReveal: seq<Coordinate>) returns (collected: seq<Coordinate>)
      requires gameLogic.Valid() && coordinatesToReveal != []
      modifies this`coordinatesToReveal, this`interactions
      modifies gameLogic`fields, gameLogic`bombs, gameLogic`revealed, gameLogic`random
      ensures gameLogic.Valid()
      ensures var (a, r) := Reveal(old(gameLogic.State()), old(coordinatesToReveal)[0], gameLogic.draws);
        gameLogic.State() == a && collected == newToReveal + Found(r)
      ensures coordinatesToReveal == old(coordinatesToReveal)[1..]
      ensures interactions == old(interactions) + 1
    {
      var coordinate := coordinatesToReveal[0];
      var result := gameLogic.InteractAt(coordinate);
      interactions := interactions + 1;
      collected := newToReveal;
      if result != None {
        collected := collected + result.value;
      } else {
        assert collected + Found(result) == collected;
      }
      coordinatesToReveal := coordinatesToReveal[1..];
    }
  }
}
