/**
 * The sequence rollout, which appears three times in pacmanAgents.py: the
 * genetic agent's evaluation of a population member, the hill climber's
 * rollout of its freshly seeded sequence, and the hill climber's rollout of
 * each perturbed candidate. Each step first checks the state it starts from:
 * a win ends the rollout with the signal `Win`, a lose stops stepping (the
 * state reached so far is scored), otherwise the next action is applied and a
 * missing successor ends the rollout with the signal `NoSuccessor`.
 */
module Rollouts {
  import opened Simulation

  /** What a rollout tells its caller. */
  datatype Outcome<S> = Win | NoSuccessor | Reached(state: S)

  /** The rollout from step `i` on, in state `s`. */
  function RollFrom<S>(g: Game<S>, s: S, acts: seq<Action>, i: nat): (r: Outcome<S>)
    requires i <= |acts|
    ensures r.Win? || r.NoSuccessor? ==> i < |acts|
    ensures r.Reached? && i == |acts| ==> r.state == s
    decreases |acts| - i
  {
    if i == |acts| then Reached(s)
    else if g.isWin(s) then Win
    else if g.isLose(s) then Reached(s)
    else match g.succ(s, acts[i])
      case None => NoSuccessor
      case Some(t) => RollFrom(g, t, acts, i + 1)
  }

  /** The outcome of rolling `acts` forward from `root`. */
  function RollOutcome<S>(g: Game<S>, root: S, acts: seq<Action>): Outcome<S>
  {
    RollFrom(g, root, acts, 0)
  }

  /** Reference definition: the state after applying the first `n` actions
      with no terminal checks at all, or `None` once a successor is missing. */
  ghost function Trajectory<S>(g: Game<S>, root: S, acts: seq<Action>, n: nat): Option<S>
    requires n <= |acts|
  {
    if n == 0 then Some(root)
    else match Trajectory(g, root, acts, n - 1)
      case None => None
      case Some(u) => g.succ(u, acts[n - 1])
  }

  /** After `m` actions the trajectory exists and is neither won nor lost. */
  ghost predicate LiveAt<S>(g: Game<S>, root: S, acts: seq<Action>, m: nat)
    requires m <= |acts|
  {
    Trajectory(g, root, acts, m).Some? && Live(g, Trajectory(g, root, acts, m).value)
  }

  /** Every state before step `n` lets the rollout go on. */
  ghost predicate LiveBefore<S>(g: Game<S>, root: S, acts: seq<Action>, n: nat)
    requires n <= |acts|
  {
    forall m :: 0 <= m < n ==> LiveAt(g, root, acts, m)
  }

  /** The rollout applies exactly `n` actions and scores the state `t`:
      either all actions were applied, or step `n` starts in a lost state. */
  ghost predicate StopsReached<S>(g: Game<S>, root: S, acts: seq<Action>, n: nat, t: S)
  {
    n <= |acts| && LiveBefore(g, root, acts, n) && Trajectory(g, root, acts, n) == Some(t) &&
    (n < |acts| ==> g.isLose(t) && !g.isWin(t))
  }

  /** Step `n` starts in a won state after `n` applied actions. */
  ghost predicate StopsWin<S>(g: Game<S>, root: S, acts: seq<Action>, n: nat)
  {
    n < |acts| && LiveBefore(g, root, acts, n) &&
    Trajectory(g, root, acts, n).Some? && g.isWin(Trajectory(g, root, acts, n).value)
  }

  /** Applying action `n` from a live state yields no successor. */
  ghost predicate StopsNoSuccessor<S>(g: Game<S>, root: S, acts: seq<Action>, n: nat)
  {
    n < |acts| && LiveBefore(g, root, acts, n + 1) && Trajectory(g, root, acts, n + 1).None?
  }

  lemma {:induction false} RollFromSound<S>(g: Game<S>, root: S, acts: seq<Action>, i: nat, s: S)
    requires i <= |acts| && LiveBefore(g, root, acts, i) && Trajectory(g, root, acts, i) == Some(s)
    ensures match RollFrom(g, s, acts, i)
      case Reached(t) => exists n :: i <= n && StopsReached(g, root, acts, n, t)
      case Win => exists n :: i <= n && StopsWin(g, root, acts, n)
      case NoSuccessor => exists n :: i <= n && StopsNoSuccessor(g, root, acts, n)
    decreases |acts| - i
  {
    if i == |acts| {
      assert RollFrom(g, s, acts, i) == Reached(s);
      assert StopsReached(g, root, acts, i, s);
    } else if g.isWin(s) {
      assert StopsWin(g, root, acts, i);
    } else if g.isLose(s) {
      assert RollFrom(g, s, acts, i) == Reached(s);
      assert StopsReached(g, root, acts, i, s);
    } else {
      assert LiveAt(g, root, acts, i);
      assert LiveBefore(g, root, acts, i + 1);
      match g.succ(s, acts[i]) {
        case None =>
          assert StopsNoSuccessor(g, root, acts, i);
        case Some(t) =>
          assert RollFrom(g, s, acts, i) == RollFrom(g, t, acts, i + 1);
          assert Trajectory(g, root, acts, i + 1) == Some(t);
          RollFromSound(g, root, acts, i + 1, t);
      }
    }
  }

  /** The rollout stops at the first step that starts in a terminal state or
      whose action has no successor: it never applies more than `|acts|`
      actions, none after a lost state, and scores the state it reached. */
  lemma RolloutCharacterized<S>(g: Game<S>, root: S, acts: seq<Action>)
    ensures match RollOutcome(g, root, acts)
      case Reached(t) => exists n :: StopsReached(g, root, acts, n, t)
      case Win => exists n :: StopsWin(g, root, acts, n)
      case NoSuccessor => exists n :: StopsNoSuccessor(g, root, acts, n)
  {
    RollFromSound(g, root, acts, 0, root);
  }

  lemma {:induction false} RollFromAllLive<S>(g: Game<S>, root: S, acts: seq<Action>, i: nat, s: S)
    requires i <= |acts| && LiveBefore(g, root, acts, |acts|) && Trajectory(g, root, acts, |acts|).Some?
    requires Trajectory(g, root, acts, i) == Some(s)
    ensures RollFrom(g, s, acts, i) == Reached(Trajectory(g, root, acts, |acts|).value)
    decreases |acts| - i
  {
    if i < |acts| {
      assert LiveAt(g, root, acts, i);
      if i + 1 < |acts| {
        assert LiveAt(g, root, acts, i + 1);
      }
      var t := g.succ(s, acts[i]).value;
      assert Trajectory(g, root, acts, i + 1) == Some(t);
      RollFromAllLive(g, root, acts, i + 1, t);
    }
  }

  /** When every state along the whole trajectory is live, the rollout
      applies every action and scores the final state. */
  lemma RolloutAllLive<S>(g: Game<S>, root: S, acts: seq<Action>)
    requires LiveBefore(g, root, acts, |acts|) && Trajectory(g, root, acts, |acts|).Some?
    ensures RollOutcome(g, root, acts) == Reached(Trajectory(g, root, acts, |acts|).value)
  {
    RollFromAllLive(g, root, acts, 0, root);
  }

  /**
   * The rollout loop as the genetic agent and the hill climber's initial
   * rollout write it: a lose state ends the loop with `break`.
   */
  method Rollout<S>(g: Game<S>, root: S, acts: seq<Action>) returns (out: Outcome<S>)
    ensures out == RollOutcome(g, root, acts)
  {
    var state := root;
    var i := 0;
    while i < |acts|
      invariant i <= |acts|
      invariant RollFrom(g, state, acts, i) == RollOutcome(g, root, acts)
    {
      if g.isWin(state) {
        return Win;
      } else if g.isLose(state) {
        break;
      } else {
        var next := g.succ(state, acts[i]);
        if next.None? {
          return NoSuccessor;
        }
        state := next.value;
      }
      i := i + 1;
    }
    out := Reached(state);
  }

  /**
   * The rollout loop as the hill climber writes it for a perturbed candidate:
   * a lose state only skips the rest of the current step (`continue`), so the
   * loop keeps visiting the unchanged lost state until the steps run out. The
   * outcome is the same as with `break`.
   */
  method RolloutContinuingAfterLose<S>(g: Game<S>, root: S, acts: seq<Action>) returns (out: Outcome<S>)
    ensures out == RollOutcome(g, root, acts)
  {
    var state := root;
    var i := 0;
    while i < |acts|
      invariant i <= |acts|
      invariant RollFrom(g, state, acts, i) == RollOutcome(g, root, acts)
    {
      if g.isWin(state) {
        return Win;
      } else if g.isLose(state) {
        i := i + 1;
        continue;
      } else {
        var next := g.succ(state, acts[i]);
        if next.None? {
          return NoSuccessor;
        }
        state := next.value;
      }
      i := i + 1;
    }
    out := Reached(state);
  }
}
