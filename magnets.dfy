/** Magnet patterns of the two stepper motors.

    Each wheel is driven by a ring of four magnets, stored slot by slot as ints
    (1 = on, 0 = off).  The robot controller advances its own copy of each ring
    and hands it to the emulator, which compares it with the pattern it stored
    last time.  Both sides search a pattern for its first active slot, so that
    search is defined here once.

        +-----0-----+
        |           |
        3           1
        |           |
        +-----2-----+
 */
module Magnets {

  /** Number of magnets around one motor. */
  const MAGNETS: nat := 4

  /** A magnet pattern exactly as the source passes it around: four ints. */
  type Pattern = p: seq<int> | |p| == MAGNETS witness [0, 0, 0, 0]

  /** Every magnet off: what the emulator stores before the first step. */
  const Zeros: Pattern := [0, 0, 0, 0]

  /** The ring the controller starts from: magnet 0 on. */
  const InitialRing: Pattern := [1, 0, 0, 0]

  /** Exactly magnet `i` is on, every other slot holds 0. */
  predicate OneHot(p: Pattern, i: int) {
    0 <= i < MAGNETS && p[i] == 1 && forall k :: 0 <= k < MAGNETS && k != i ==> p[k] == 0
  }

  /** The sum of the four slots; more than 1 means the motor is jammed. */
  function Sum(p: Pattern): int {
    p[0] + p[1] + p[2] + p[3]
  }

  /** The first slot at or after `from` that holds 1, or MAGNETS when there is none. */
  function FirstActive(p: Pattern, from: nat): (r: nat)
    requires from <= MAGNETS
    ensures from <= r <= MAGNETS
    ensures r < MAGNETS ==> p[r] == 1
    ensures forall k :: from <= k < r ==> p[k] != 1
    decreases MAGNETS - from
  {
    if from == MAGNETS then MAGNETS
    else if p[from] == 1 then from
    else FirstActive(p, from + 1)
  }

  /** A ring with one magnet on: the search finds it and the sum is 1. */
  lemma OneHotFound(p: Pattern, i: int)
    requires OneHot(p, i)
    ensures FirstActive(p, 0) == i
    ensures Sum(p) == 1
  {
    assert p[0] + p[1] + p[2] + p[3] == p[i] by {
      forall k | 0 <= k < MAGNETS && k != i ensures p[k] == 0 { }
    }
  }
}
