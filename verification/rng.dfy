/** The engine's pseudo-random generator, as an abstract deterministic stream.

    java.util.Random is a foreign library: its algorithm is not modelled.  A
    generator is its seed plus the number of `nextInt` calls made on it so
    far; what the `position`-th call returns is supplied by a `DrawSource`,
    a total function standing for the library. */
module Rng {

  /** `draws(seed, position, bound)` is what the `position`-th
      `nextInt(bound)` call of a generator built from `seed` returns: a value
      in `[0, bound)` whenever the bound is positive. */
  type DrawSource = f: (int, nat, int) -> int
    | forall seed, position, bound :: bound > 0 ==> 0 <= f(seed, position, bound) < bound
    witness (seed: int, position: nat, bound: int) => 0

  /** `new Random(seed)` is `Random(seed, 0)`. */
  datatype Random = Random(seed: int, position: nat)

  /** `nextInt(bound)`: a value in `[0, bound)`, and the generator advanced by
      exactly one call.  A non-positive bound makes the library throw, so the
      callers check it first. */
  function NextInt(draws: DrawSource, r: Random, bound: int): (result: (int, Random))
    requires bound > 0
    ensures 0 <= result.0 < bound
    ensures result.1.seed == r.seed && result.1.position == r.position + 1
  {
    (draws(r.seed, r.position, bound), Random(r.seed, r.position + 1))
  }
}
