/**
  What one value production consults besides the descriptor itself: the regex match it
  runs in, the null policy the caller chose, and the random sources, which the model
  takes as inputs rather than drawing them.
 */
module Generation {
  import opened Wrappers
  import opened JavaText

  /** The capture groups of one regex match, group 0 first; an absent group is None. */
  type Match = seq<Option<string>>

  /** `NullHandler`: whether an absent value stays absent (AS_NULL) or becomes "" (EMPTY). */
  datatype NullHandler = AsNull | Empty

  /** The value `nextInt(bound)` of a `java.util.Random` for every positive bound: always in [0, bound). */
  type BoundedDraw = f: int -> int | forall bound :: 0 < bound ==> 0 <= f(bound) < bound
    witness (bound: int) => 0

  /** `new Random(seed).nextInt(bound)`: a fixed function of the seed and the bound, in [0, bound). */
  type SeededDraw = f: (int, int) -> int | forall seed, bound :: 0 < bound ==> 0 <= f(seed, bound) < bound
    witness (seed: int, bound: int) => 0

  /** A seeded name generator (FirstNameDescriptor.getSeededFirstName and its last-name twin): never empty. */
  type NameSource = f: int -> string | forall seed :: |f(seed)| > 0
    witness (seed: int) => "A"

  /**
    The randomness one production may consume: the descriptor's own `Random.nextInt`,
    a `UUID.randomUUID()` rendering, and a `new Random().nextLong()` for a reseed.
   */
  datatype Entropy = Entropy(nextInt: BoundedDraw, guid: string, freshSeed: Int64)

  /** The deterministic generators shared by all productions. */
  datatype Env = Env(seeded: SeededDraw, firstName: NameSource, lastName: NameSource)
}
