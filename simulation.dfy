/**
 * The game-state facade the agents are written against. The simulator that
 * implements it (the `pacman` and `game` modules) and the evaluation heuristic
 * (the `heuristics` module) are not part of this model: they appear here only
 * as uninterpreted total functions bundled in a `Game` value, so every result
 * proved below holds for every simulator.
 */
module Simulation {

  /** An optional value: the simulator's successor function answers `None`
      when it cannot continue (step budget exhausted or invalid continuation). */
  datatype Option<T> = None | Some(value: T)

  /** Actions are the simulator's direction strings. */
  type Action = string

  /** The root action recorded before any generation of the genetic search
      has been scored: the empty string. */
  const NoAction: Action := ""

  /**
   * The simulator, seen from the agents:
   *  - `isWin` / `isLose`: terminal tests on a state,
   *  - `succ`: `generatePacmanSuccessor`, which may fail,
   *  - `eval`: `gameEvaluation(root, reached)`, an integer score.
   */
  datatype Game<!S> = Game(
    isWin: S -> bool,
    isLose: S -> bool,
    succ: (S, Action) -> Option<S>,
    eval: (S, S) -> int)

  /** A state in which a rollout keeps stepping. */
  predicate Live<S>(g: Game<S>, s: S)
  {
    !g.isWin(s) && !g.isLose(s)
  }

  /** A uniform draw `random.randint(0, len(possible) - 1)` used as an index. */
  predicate IsPick(possible: seq<Action>, pick: nat)
  {
    pick < |possible|
  }

  /** Every element of `acts` is one of the possible actions. */
  predicate AllPossible(acts: seq<Action>, possible: seq<Action>)
  {
    forall k :: 0 <= k < |acts| ==> acts[k] in possible
  }
}
