/**
 * `HillClimberAgent`: the agent keeps one action sequence, `actionList`,
 * across decision steps. Each step overwrites it in place with a fresh random
 * sequence, rolls that out, and then repeatedly perturbs a copy of the stored
 * sequence and stores the copy when it scores at least as well.
 */
module HillClimber {
  import opened Simulation
  import opened Rollouts

  /** The draws of one perturbation: per position, the `randint(0, 1)` coin
      and the index of the replacement action used when the coin shows 0. */
  datatype PerturbDraws = PerturbDraws(coins: seq<nat>, picks: seq<nat>)

  predicate PerturbInRange(d: PerturbDraws, length: nat, possible: seq<Action>)
  {
    |d.coins| == length && |d.picks| == length &&
    forall k :: 0 <= k < length ==> d.coins[k] <= 1 && d.picks[k] < |possible|
  }

  /** How one iteration of the improvement loop ended: with the action the
      agent returns, or with the (possibly raised) best score. */
  datatype Iteration = Return(action: Action) | Continue(bestGameEval: int)

  /** The sequence a perturbation builds from `current`: each position with
      coin 0 takes its drawn action, every other position is kept. */
  function Perturbed(current: seq<Action>, possible: seq<Action>, d: PerturbDraws): (candidate: seq<Action>)
    requires PerturbInRange(d, |current|, possible)
    ensures |candidate| == |current|
  {
    seq(|current|, k requires 0 <= k < |current| => if d.coins[k] == 0 then possible[d.picks[k]] else current[k])
  }

  /** Each position of a perturbed sequence keeps the current action or
      takes a possible action, and with no coin at 0 nothing changes. */
  lemma PerturbedGenes(current: seq<Action>, possible: seq<Action>, d: PerturbDraws)
    requires PerturbInRange(d, |current|, possible)
    ensures forall k :: 0 <= k < |current| ==>
      Perturbed(current, possible, d)[k] == current[k] || Perturbed(current, possible, d)[k] in possible
    ensures AllPossible(current, possible) ==> AllPossible(Perturbed(current, possible, d), possible)
    ensures (forall k :: 0 <= k < |current| ==> d.coins[k] != 0) ==> Perturbed(current, possible, d) == current
  {
  }

  /** The score the rollout of `acts` earns when it reaches a state to score. */
  ghost predicate SequenceScores<S>(g: Game<S>, root: S, acts: seq<Action>, score: int)
  {
    RollOutcome(g, root, acts).Reached? && g.eval(root, RollOutcome(g, root, acts).state) == score
  }

  /** Where the improvement loop ends: the action it returns (`None` when the
      iterations ran out) and the contents stored at that moment. */
  datatype Climbed = Climbed(action: Option<Action>, stored: seq<Action>)

  /**
   * The improvement loop run over the iterations `its`, from stored contents
   * `current` whose score is `best`. Each iteration perturbs a copy of the
   * stored contents and rolls it out. A win or a missing successor returns
   * the stored first action, and a scored candidate replaces the stored
   * contents when its score is at least `best`.
   */
  function Climb<S>(g: Game<S>, root: S, possible: seq<Action>, current: seq<Action>, best: int,
                    its: seq<PerturbDraws>): (c: Climbed)
    requires forall n :: 0 <= n < |its| ==> PerturbInRange(its[n], |current|, possible)
    ensures |c.stored| == |current|
    ensures c.action.Some? ==> |current| > 0 && c.action.value == c.stored[0]
    decreases |its|
  {
    if its == [] then Climbed(None, current)
    else
      var candidate := Perturbed(current, possible, its[0]);
      match RollOutcome(g, root, candidate)
      case Reached(tempState) =>
        if g.eval(root, tempState) >= best
        then Climb(g, root, possible, candidate, g.eval(root, tempState), its[1..])
        else Climb(g, root, possible, current, best, its[1..])
      case _ =>
        assert |candidate| > 0;
        Climbed(Some(current[0]), current)
  }

  /** The improvement loop never lowers the stored score: whatever it stores
      at the end scores at least the score it started from, and holds only
      possible actions when it started with them. */
  lemma {:induction false} ClimbScores<S>(g: Game<S>, root: S, possible: seq<Action>, current: seq<Action>, best: int,
                                          its: seq<PerturbDraws>)
    requires forall n :: 0 <= n < |its| ==> PerturbInRange(its[n], |current|, possible)
    requires SequenceScores(g, root, current, best)
    ensures var c := Climb(g, root, possible, current, best, its);
      exists score :: SequenceScores(g, root, c.stored, score) && best <= score
    ensures AllPossible(current, possible) ==> AllPossible(Climb(g, root, possible, current, best, its).stored, possible)
    decreases |its|
  {
    if its == [] {
      assert Climb(g, root, possible, current, best, its).stored == current;
    } else {
      var candidate := Perturbed(current, possible, its[0]);
      PerturbedGenes(current, possible, its[0]);
      match RollOutcome(g, root, candidate)
      case Reached(tempState) =>
        if g.eval(root, tempState) >= best {
          ClimbScores(g, root, possible, candidate, g.eval(root, tempState), its[1..]);
          var c := Climb(g, root, possible, candidate, g.eval(root, tempState), its[1..]);
          assert Climb(g, root, possible, current, best, its) == c;
          var score :| SequenceScores(g, root, c.stored, score) && g.eval(root, tempState) <= score;
          assert best <= score;
        } else {
          ClimbScores(g, root, possible, current, best, its[1..]);
        }
      case _ =>
        assert Climb(g, root, possible, current, best, its).stored == current;
    }
  }

  class HillClimberAgent {
    var actionList: array<Action>

    /** `registerInitialState`: five copies of the stop action. */
    constructor (stop: Action)
      ensures fresh(actionList)
      ensures actionList[..] == [stop, stop, stop, stop, stop]
    {
      actionList := new Action[5](_ => stop);
    }

    /** The first part of a decision step: every position of the stored
        sequence is overwritten, in place, with a drawn possible action. */
    method Seed(possible: seq<Action>, picks: seq<nat>)
      requires |picks| == actionList.Length
      requires forall k :: 0 <= k < |picks| ==> picks[k] < |possible|
      modifies actionList
      ensures forall k :: 0 <= k < actionList.Length ==> actionList[k] == possible[picks[k]]
    {
      for actionCount := 0 to actionList.Length
        invariant forall k :: 0 <= k < actionCount ==> actionList[k] == possible[picks[k]]
      {
        actionList[actionCount] := possible[picks[actionCount]];
      }
    }

    /** A copy of the stored sequence with each position replaced, when its
        coin shows 0, by the drawn action. */
    method Perturb(possible: seq<Action>, d: PerturbDraws) returns (newActionList: array<Action>)
      requires PerturbInRange(d, actionList.Length, possible)
      ensures fresh(newActionList)
      ensures newActionList[..] == Perturbed(actionList[..], possible, d)
    {
      var current := actionList[..];
      newActionList := new Action[|current|](k requires 0 <= k < |current| => current[k]);
      for actionCount := 0 to |current|
        invariant forall k :: 0 <= k < actionCount ==> newActionList[k] == Perturbed(current, possible, d)[k]
        invariant forall k :: actionCount <= k < |current| ==> newActionList[k] == current[k]
      {
        if d.coins[actionCount] == 0 {
          newActionList[actionCount] := possible[d.picks[actionCount]];
        }
      }
      assert newActionList[..] == Perturbed(current, possible, d);
    }

    /**
     * One iteration of the improvement loop. A win or a missing successor
     * during the candidate's rollout returns the STORED sequence's first
     * action, never the candidate's; a lose only stops stepping, and the
     * candidate is still scored. The candidate replaces the stored sequence
     * when its score is at least `bestGameEval`.
     */
    method Improve<S>(g: Game<S>, root: S, possible: seq<Action>, bestGameEval: int, d: PerturbDraws)
      returns (r: Iteration)
      requires PerturbInRange(d, actionList.Length, possible)
      modifies this
      ensures var candidate := Perturbed(old(actionList[..]), possible, d);
        match RollOutcome(g, root, candidate)
        case Reached(tempState) =>
          var newGameEval := g.eval(root, tempState);
          if newGameEval >= bestGameEval
          then r == Continue(newGameEval) && fresh(actionList) && actionList[..] == candidate
          else r == Continue(bestGameEval) && actionList == old(actionList)
        case _ =>
          |candidate| > 0 && r == Return(old(actionList[0])) && actionList == old(actionList)
      ensures r.Continue? ==> bestGameEval <= r.bestGameEval
      ensures r.Continue? && actionList != old(actionList) ==> SequenceScores(g, root, actionList[..], r.bestGameEval)
      ensures (forall k :: 0 <= k < |d.coins| ==> d.coins[k] != 0) && SequenceScores(g, root, old(actionList[..]), bestGameEval) ==>
        r == Continue(bestGameEval) && actionList[..] == old(actionList[..])
    {
      var newActionList := Perturb(possible, d);
      PerturbedGenes(old(actionList[..]), possible, d);
      var outcome := RolloutContinuingAfterLose(g, root, newActionList[..]);
      match outcome {
        case Win =>
          return Return(actionList[0]);
        case NoSuccessor =>
          return Return(actionList[0]);
        case Reached(tempState) =>
          var newGameEval := g.eval(root, tempState);
          if newGameEval >= bestGameEval {
            actionList := newActionList;
            return Continue(newGameEval);
          }
          return Continue(bestGameEval);
      }
    }

    /**
     * `getAction`: seeds the stored sequence and rolls it out, then runs one
     * improvement iteration per element of `iterations` until one returns.
     * Every action returned is the first action of the sequence stored at
     * that moment. The budget counts whole iterations: `None` means no bundle
     * of perturbation draws was left for the next iteration.
     */
    method GetAction<S>(g: Game<S>, root: S, possible: seq<Action>, seedPicks: seq<nat>,
                        iterations: seq<PerturbDraws>) returns (action: Option<Action>)
      requires |seedPicks| == actionList.Length
      requires forall k :: 0 <= k < |seedPicks| ==> seedPicks[k] < |possible|
      requires forall n :: 0 <= n < |iterations| ==> PerturbInRange(iterations[n], actionList.Length, possible)
      modifies this, actionList
      ensures actionList.Length == old(actionList.Length)
      ensures AllPossible(actionList[..], possible)
      ensures action.Some? ==> actionList.Length > 0 && action.value == actionList[0]
      ensures var seeded := seq(|seedPicks|, k requires 0 <= k < |seedPicks| => possible[seedPicks[k]]);
        !RollOutcome(g, root, seeded).Reached? ==> action.Some? && actionList[..] == seeded
      ensures var seeded := seq(|seedPicks|, k requires 0 <= k < |seedPicks| => possible[seedPicks[k]]);
        action.None? ==> RollOutcome(g, root, seeded).Reached?
      ensures var seeded := seq(|seedPicks|, k requires 0 <= k < |seedPicks| => possible[seedPicks[k]]);
        RollOutcome(g, root, seeded).Reached? ==>
          exists score :: SequenceScores(g, root, actionList[..], score) &&
            g.eval(root, RollOutcome(g, root, seeded).state) <= score
      ensures var seeded := seq(|seedPicks|, k requires 0 <= k < |seedPicks| => possible[seedPicks[k]]);
        RollOutcome(g, root, seeded).Reached? ==>
          Climb(g, root, possible, seeded, g.eval(root, RollOutcome(g, root, seeded).state), iterations) ==
          Climbed(action, actionList[..])
    {
      Seed(possible, seedPicks);
      ghost var seeded := seq(|seedPicks|, k requires 0 <= k < |seedPicks| => possible[seedPicks[k]]);
      assert actionList[..] == seeded;
      var outcome := Rollout(g, root, actionList[..]);
      if !outcome.Reached? {
        return Some(actionList[0]);
      }
      var bestGameEval := g.eval(root, outcome.state);
      ghost var initialEval := bestGameEval;
      var n := 0;
      while n < |iterations|
        invariant n <= |iterations|
        invariant actionList.Length == old(actionList.Length)
        invariant AllPossible(actionList[..], possible)
        invariant SequenceScores(g, root, actionList[..], bestGameEval)
        invariant initialEval <= bestGameEval
        invariant Climb(g, root, possible, actionList[..], bestGameEval, iterations[n..]) ==
          Climb(g, root, possible, seeded, initialEval, iterations)
      {
        assert iterations[n..][0] == iterations[n] && iterations[n..][1..] == iterations[n + 1..];
        PerturbedGenes(actionList[..], possible, iterations[n]);
        var r := Improve(g, root, possible, bestGameEval, iterations[n]);
        if r.Return? {
          return Some(r.action);
        }
        bestGameEval := r.bestGameEval;
        n := n + 1;
      }
      action := None;
    }
  }
}
