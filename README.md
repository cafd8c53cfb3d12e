# Pac-Man search agents: hill climbing and a genetic algorithm

This project models the two search agents in `pacmanAgents.py`. Each frame,
both agents choose Pac-Man's next move by simulating short sequences of five
actions from the current game state.

- `HillClimberAgent` keeps one action sequence. It seeds the sequence at
  random and then repeatedly perturbs it. The perturbed sequence is rolled
  out, and it replaces the stored sequence when its evaluation is at least as
  good.
- `GeneticAgent` keeps a population of eight sequences. Each generation it:
  - rolls out and evaluates every member;
  - ranks the members with a stable ascending sort;
  - records the root action of the best-ranked member;
  - breeds the next generation by rank selection, with 70% uniform crossover
    and otherwise the parents' own lists;
  - mutates single genes in place with 10% probability.

The Python code is modelled module by module:

| file | module | models |
|---|---|---|
| `simulation.dfy` | `Simulation` | The game interface. Win and lose tests, the successor function, which may answer `None`, and the evaluation heuristic are kept as uninterpreted functions in a `Game` value. Actions are strings. |
| `rollout.dfy` | `Rollouts` | The rollout loop that executes an action sequence, in its two variants: break on a lose state, and `continue` on a lose state. Both are proved equal to one specification function. That function is characterised against an independent step-by-step trajectory definition. |
| `rank_selection.dfy` | `RankSelection` | The arithmetic behind `selectRank`: which draw selects which index. It proves that index `i` of `P` is selected by exactly `i + 1` of the `P(P+1)/2` equally likely draws. |
| `ranking.dfy` | `Ranking` | `sorted(..., key=evaluation)` as a stable insertion sort. It also relates the last ranked element to the last maximum of the evaluations. |
| `variation.dfy` | `Variation` | Uniform crossover, and the in-place mutation of a population whose slots may share one list. |
| `genetic.dfy` | `Genetic` | The `GeneticAgent` class: `selectRank`, and one generation split into its phases. `getAction` is the generation loop. |
| `hill_climber.dfy` | `HillClimber` | The `HillClimberAgent` class: a stored action array, seeding, perturbation, one improvement round and `getAction`. |

Every call to `random.randint` becomes an explicit argument, a "draw", whose
range is stated in a precondition with the same bounds the code passes to
`randint`. Draws are bundled per phase: `PairDraws`, `MutationDraws`,
`GenerationDraws` and `PerturbDraws`. The unbounded `while True` loops run
until the supplied draw bundles are used up, and the budget counts whole
iterations or generations. When no bundle is left, `getAction` answers
`None`. For the genetic agent this happens even when the next evaluation,
which draws nothing, would have returned.

The genetic population is a `seq<array<Action>>`. This keeps the Python
behaviour where a pairing round without crossover appends both parents' lists
uncopied. Two slots of the next generation can then hold the same list, and a
mutation of one slot shows in the other. `Variation.MutatedGene` is the
specification of that aliasing.

Behaviours of `pacmanAgents.py` that are easy to misread, all modelled as
written:

- When the hill climber's first rollout meets a missing successor, it returns
  the first action of the freshly seeded sequence. It does not return a
  previously stored one (`pacmanAgents.py:71-87`).
- In the hill climber's improvement loop, reaching a lose state does not
  abandon the candidate. The `continue` only skips to the next position of the
  inner loop, so the candidate is still evaluated at the lose state and may be
  accepted (`pacmanAgents.py:100-112`).
- When the genetic agent meets a missing successor in its first generation, it
  returns the initial root action `''` (`pacmanAgents.py:130-133, 155-156`).
- Rank selection returns `selectedRank - 1` at the first running sum that
  reaches the draw, exactly as the counter loop at `pacmanAgents.py:195-201`
  does.

## Model

| member | source | states |
|---|---|---|
| Rollouts.RollFrom | pacmanAgents.py:148-158 | A `Win` or `NoSuccessor` outcome only arises before the end of the sequence. A completed sequence with no stop leaves the state it reached. |
| Rollouts.RollFromSound | pacmanAgents.py:148-158 | Rolling on from a live prefix of the trajectory ends exactly as the whole trajectory's first stop dictates: a win, a missing successor, or the first lose state or end of the sequence. |
| Rollouts.RolloutCharacterized | pacmanAgents.py:148-158 | Each rollout outcome matches a stopping step `n` of the independent trajectory: a win at `n`, no successor for action `n`, or the state reached at `n` when `n` is the first lose state or the end. |
| Rollouts.RolloutAllLive | pacmanAgents.py:148-158 | If every trajectory state is live and every successor exists, the rollout reaches the trajectory's final state. |
| Rollouts.Rollout | pacmanAgents.py:145-158 | The break-on-lose loop (also used at lines 74-87) returns exactly the specification outcome `RollOutcome`. |
| Rollouts.RolloutContinuingAfterLose | pacmanAgents.py:95-107 | The loop whose lose branch only `continue`s returns the same outcome `RollOutcome` as the break variant. |
| RankSelection.AboveClosedForm | pacmanAgents.py:193-201 | `Above(P, i)`, the value of `runnerRank` while `selectedRank == i + 1`, equals `(P(P+1) - i(i+1)) / 2`. |
| RankSelection.AboveBounds | pacmanAgents.py:193-201 | The last threshold, reached when `selectedRank == 1`, is `sumOfRanks`, and no threshold exceeds it. |
| RankSelection.AboveAntitone | pacmanAgents.py:196-201 | The thresholds shrink as the index grows. |
| RankSelection.SelectsUnique | pacmanAgents.py:196-201 | A draw selects at most one index. |
| RankSelection.DrawRangeSpec | pacmanAgents.py:194 | The draws `lo+1..hi` form a set of `hi - lo` integers. |
| RankSelection.DrawsPerIndex | pacmanAgents.py:190-201 | Index `i` is selected by exactly `i + 1` of the `sumOfRanks` draws, so higher-ranked (better) candidates are proportionally likelier. |
| RankSelection.SelectionExtremes | pacmanAgents.py:192-201 | After the ascending sort, index `P-1` is the best candidate. It is selected exactly by draws `1..P`, the loop's first threshold `runnerRank = P`. The worst index `0` is selected only by the draw `sumOfRanks`. |
| Ranking.Insert | pacmanAgents.py:163 | Inserting adds exactly the one candidate to the multiset of candidates. The new head is the inserted candidate or the old head. |
| Ranking.InsertAscending | pacmanAgents.py:163 | Inserting after equal keys keeps an ascending list ascending. |
| Ranking.InsertLast | pacmanAgents.py:163-164 | The inserted candidate ends up last exactly when the old last is not better. Otherwise the old last stays last. |
| Ranking.RankedMembers | pacmanAgents.py:163 | Every ranked candidate is one of the evaluated candidates. |
| Ranking.Ranked | pacmanAgents.py:163 | The ranked population is ascending by evaluation and is a permutation of the evaluated population. |
| Ranking.LatestBest | pacmanAgents.py:164 | Returns an index of a maximal evaluation, strictly greater than every later one. |
| Ranking.RankedLast | pacmanAgents.py:163-164 | The stable sort puts the last maximal candidate, in evaluation order, at the end. |
| Ranking.RankedByOrder | pacmanAgents.py:163 | Rank `k` of the sorted population is the candidate at position `RankOrder(evaluations)[k]`, so the sort is a rearrangement by an index map computed from the evaluations alone. |
| Ranking.RankOrderStable | pacmanAgents.py:163 | The rank order lists members by ascending evaluation, and members with equal evaluations in population order, as Python's stable `sorted` does. With `RankOrderInjective` this fixes the order completely. |
| Ranking.RankOrderInjective | pacmanAgents.py:163 | The rank order names every position at most once: no candidate is ranked twice. |
| Ranking.RankedDistinct | pacmanAgents.py:163 | When no two evaluated candidates hold the same list, no two ranked candidates do either. |
| Variation.Crossover | pacmanAgents.py:174-181 | Each child gene is parent 1's gene when its coin is 0 and parent 2's otherwise. |
| Variation.CrossoverGenesFromParents | pacmanAgents.py:174-181 | A child of parents drawn from possible actions holds only possible actions. |
| Variation.MutatedGenePossible | pacmanAgents.py:185-187 | After mutation, every gene is still a possible action. |
| Variation.MutatedGeneUnaliased | pacmanAgents.py:185-187 | A slot whose list no other slot holds changes only at its own mutation's position, if its test passes. |
| Variation.MutatedGeneAliased | pacmanAgents.py:183-187 | Two slots holding the same list see identical genes after mutation. |
| Variation.MutatedGeneSharedWrite | pacmanAgents.py:183-187 | A mutation through slot `j` shows in every slot aliasing it, unless a later slot of that list overwrites the same position. |
| Genetic.RankedContents | pacmanAgents.py:163-184 | The contents of the ranked lists, in rank order, are the population's contents rearranged by `RankOrder` of the scores. |
| Genetic.SharedSlots | pacmanAgents.py:170-184 | With distinct ranked lists, two distinct slots of the next generation hold the same list exactly when neither of their rounds crossed over and both took the same ranked parent. |
| Genetic.GeneticAgent.constructor | pacmanAgents.py:117-124 | Population size 8 and sequence length 5. |
| Genetic.GeneticAgent.SelectRank | pacmanAgents.py:190-201 | For every draw in `1..sumOfRanks` the counter loop returns an index below the population size, which is the index the draw `Selects`. |
| Genetic.GeneticAgent.InitialPopulation | pacmanAgents.py:136-141 | `populationSize` fresh lists of `actionCount` genes, each gene the possible action its draw picks. |
| Genetic.GeneticAgent.Evaluate | pacmanAgents.py:143-162 | Stops at the first member whose rollout wins or lacks a successor, and reports which. Otherwise it returns fresh copies of every member with evaluation `eval(root, reached state)`, no two candidates sharing a list. |
| Genetic.GeneticAgent.RankAndRecord | pacmanAgents.py:163-167 | Ranks the population and replaces the best root action when the top evaluation is `>=` the recorded one. The recorded evaluation never decreases and bounds every candidate's. |
| Genetic.GeneticAgent.PairingRound | pacmanAgents.py:170-184 | Selects two ranked parents by their draws. On a passing crossover test it builds two fresh, distinct children whose genes are the coin-chosen parent genes. Otherwise it returns the parents' own lists. |
| Genetic.GeneticAgent.AppendRound | pacmanAgents.py:170-184 | Appends one pairing round's two slots to the generation built so far, keeping every earlier slot and the contents and aliasing facts of every earlier round. |
| Genetic.GeneticAgent.BuildNextGeneration | pacmanAgents.py:168-184 | Runs `P/2` pairing rounds, producing `P` slots. Round `r` selects its parents by its draws and fills slots `2r`, `2r+1` with the crossover children of their contents, or with the parents' own lists when the test fails. Crossover children are fresh and occur in one slot only. |
| Genetic.GeneticAgent.Mutate | pacmanAgents.py:185-187 | Changes only the population's lists, and each gene ends as `MutatedGene` says, shared lists included. |
| Genetic.GeneticAgent.Advance | pacmanAgents.py:163-188 | Records the best action by the `>=` rule on the last maximal candidate. It breeds from the ranking `Ranked(evaluated)`, whose rank order is `RankOrder` of the evaluations: the pairing rounds act on the contents in that order, slots without crossover are lists of `Ranked(evaluated)`, two slots alias exactly as `SharedExactly` says, and mutation ends as `MutatedGene` says. Only the candidates' own copies may change. |
| Genetic.GeneticAgent.Breed | pacmanAgents.py:168-188 | Builds and mutates a valid next generation. Before mutation, the slots held what the pairing rounds give from the ranked lists' contents (`Paired`). Slots of rounds without crossover are the ranked parents' own lists, crossover children are fresh and unshared, and every gene ends as `MutatedGene` says. |
| Genetic.GeneticAgent.Generation | pacmanAgents.py:143-188 | Returns an action exactly when some rollout does not complete: the member's first action on a win, the best root action on a missing successor. Otherwise it updates the best action by the `>=` rule on the last maximum, which never lowers its evaluation. The next generation is bred from the population ranked by `RankOrder` of its scores, aliases exactly as `SharedExactly` says, and is mutated as `MutatedGene` says. |
| Genetic.GeneticAgent.GetAction | pacmanAgents.py:127-188 | Any returned action is `''` or a possible action. Given draws for at least one generation, a winning root returns the first gene of the first initial member, and a live root without successors returns `''`. |
| HillClimber.Perturbed | pacmanAgents.py:91-94 | The perturbed sequence has the same length as the current one. |
| HillClimber.PerturbedGenes | pacmanAgents.py:91-94 | Each gene is kept or is a possible action. A sequence of possible actions stays one. With no coin at 0 the sequence is unchanged. |
| HillClimber.Climb | pacmanAgents.py:90-112 | The improvement loop over a run of iterations keeps the stored length, and any action it returns is the first action of the contents stored at that moment. |
| HillClimber.ClimbScores | pacmanAgents.py:90-112 | Starting from stored contents that score `best`, the loop ends with stored contents scoring at least `best`, made only of possible actions when it started so. |
| HillClimber.HillClimberAgent.constructor | pacmanAgents.py:58-63 | The stored sequence is five copies of the stop action. |
| HillClimber.HillClimberAgent.Seed | pacmanAgents.py:71-72 | Each stored gene becomes the possible action its draw picks, in place. |
| HillClimber.HillClimberAgent.Perturb | pacmanAgents.py:91-94 | Returns a fresh copy of the stored sequence, perturbed as `Perturbed` says. The stored sequence is left unchanged. |
| HillClimber.HillClimberAgent.Improve | pacmanAgents.py:91-112 | On a win or a missing successor it returns the stored first action. Otherwise it accepts the candidate exactly when its evaluation is `>=` the best. The best never decreases, and a replacing sequence scores the new best. A round with no coin at 0, on a stored sequence that scores the best, keeps the stored contents and the best unchanged. |
| HillClimber.HillClimberAgent.GetAction | pacmanAgents.py:66-112 | A returned action is the stored sequence's first action, and the stored sequence holds only possible actions. If the seeded rollout does not complete, it returns at once with the seeded sequence stored. Otherwise the action returned and the contents stored are exactly where `Climb` ends from the seeded sequence and its evaluation over the iterations, and on every exit the stored sequence has a score at least the seeded sequence's evaluation. |

## Left out

- `RandomAgent`, `RandomSequenceAgent` and `MCTSAgent` are not part of this model. Only the hill-climbing and genetic agents are modelled.
- The game state, its successor generator, `isWin`/`isLose` and the `gameEvaluation` heuristic are uninterpreted functions. Their Pac-Man semantics live in other files, which are not part of this model.
- The `random` module is replaced by draws passed as arguments. Only the counting fact behind `selectRank`'s distribution (`RankSelection.DrawsPerIndex`) is proved. Probabilities themselves are not modelled.
- `while True`: the agents' search loops run while draw bundles remain, and `GetAction` answers `None` when they run out. Nothing bounds the real loops, which stop only on a win or a missing successor.
- `GeneticAgent.registerInitialState` also builds `actionList`, which `getAction` never reads. It is omitted.
- `Directions.STOP` is the parameter of the hill climber's constructor rather than a fixed string.
- `self.populationSize/2` is Python 2 integer division. It is modelled as `/` on a population size required to be even, so the division is exact.
- `randint(0, len(possibleActions) - 1)` raises on an empty action list. The model excludes that case by requiring every pick to index `possibleActions`, which no pick can do when the list is empty.
- `Genetic.GeneticAgent.GetAction`: does not state which action a generation after the first returns. It states only the returns decided by the first generation's evaluation, and that any returned action is possible or `''`.
- `HillClimber.Perturbed`: its own contract states only the length. The gene-by-gene contents are stated by `HillClimber.PerturbedGenes`.
