/**
 * `GeneticAgent`: one decision step evolves a population of action sequences
 * and returns a root action. Every `random.randint` result is an argument
 * here, with the range the call would draw from as a precondition, and the
 * unbounded `while True` generation loop runs once per generation's worth of
 * draws supplied.
 */
module Genetic {
  import opened Simulation
  import opened Rollouts
  import opened RankSelection
  import opened Ranking
  import opened Variation

  /** The best root action seen so far in this decision step, and its score. */
  datatype BestAction = BestAction(rootAction: Action, evaluation: int)

  /** The record a decision step starts from. */
  const InitialBest := BestAction(NoAction, -99999)

  /** The draws of one pairing round: two selection draws, the crossover test,
      and one coin per gene for each of the two children. */
  datatype PairDraws = PairDraws(rank1: nat, rank2: nat, crossover: nat, genes1: seq<nat>, genes2: seq<nat>)

  /** The draws of one generation: its pairing rounds and its mutation step. */
  datatype GenerationDraws = GenerationDraws(pairs: seq<PairDraws>, mutations: seq<MutationDraws>)

  /** How evaluating a population ended: a rollout interrupted it at member
      `index` (with a win, or with a missing successor), or every member was scored. */
  datatype Evaluation = Interrupted(index: nat, won: bool) | Scored(candidates: seq<Candidate<array<Action>>>)

  /** How one generation ended: with the action `getAction` returns, or with the
      next population and the updated best record. */
  datatype Step = Return(action: Action) | Next(population: seq<array<Action>>, best: BestAction)

  /** The action sequences the population's lists currently hold. */
  ghost function Contents(pop: seq<array<Action>>): (c: seq<seq<Action>>)
    reads set a | a in pop
    ensures |c| == |pop|
    ensures forall i :: 0 <= i < |pop| ==> c[i] == pop[i][..]
  {
    seq(|pop|, i requires 0 <= i < |pop| reads set a | a in pop => pop[i][..])
  }

  ghost predicate AllReached<S>(g: Game<S>, root: S, contents: seq<seq<Action>>)
  {
    forall i :: 0 <= i < |contents| ==> RollOutcome(g, root, contents[i]).Reached?
  }

  /** The score `gameEvaluation(root, reached)` of every member. */
  ghost function Scores<S>(g: Game<S>, root: S, contents: seq<seq<Action>>): (scores: seq<int>)
    requires AllReached(g, root, contents)
    ensures |scores| == |contents|
    ensures forall i :: 0 <= i < |contents| ==> scores[i] == g.eval(root, RollOutcome(g, root, contents[i]).state)
  {
    seq(|contents|, i requires 0 <= i < |contents| && AllReached(g, root, contents) =>
      g.eval(root, RollOutcome(g, root, contents[i]).state))
  }

  /** Member `i` is the first whose rollout did not reach a state to score. */
  ghost predicate FirstInterrupted<S>(g: Game<S>, root: S, contents: seq<seq<Action>>, i: nat)
  {
    i < |contents| && !RollOutcome(g, root, contents[i]).Reached? &&
    forall j :: 0 <= j < i ==> RollOutcome(g, root, contents[j]).Reached?
  }

  /** The action lists of the ranked candidates. */
  ghost function CandidateLists(ranked: seq<Candidate<array<Action>>>): set<array<Action>>
  {
    set j | 0 <= j < |ranked| :: ranked[j].member
  }

  /** What pairing round `d` gives its two slots, from its parents' contents:
      two uniform crossovers when the crossover test passes, the parents'
      contents otherwise. */
  predicate RoundContents(d: PairDraws, parent1: seq<Action>, parent2: seq<Action>, child1: seq<Action>, child2: seq<Action>)
    requires |parent2| == |parent1| && |d.genes1| == |parent1| && |d.genes2| == |parent1|
  {
    if d.crossover <= CrossoverThreshold then
      |child1| == |parent1| && |child2| == |parent1| &&
      forall k :: 0 <= k < |parent1| ==>
        child1[k] == (if d.genes1[k] == 0 then parent1[k] else parent2[k]) &&
        child2[k] == (if d.genes2[k] == 0 then parent1[k] else parent2[k])
    else
      child1 == parent1 && child2 == parent2
  }

  /** `xs` rearranged so that position `p` holds `xs[order[p]]`. */
  function Permuted<X>(xs: seq<X>, order: seq<nat>): (ys: seq<X>)
    requires forall p :: 0 <= p < |order| ==> order[p] < |xs|
    ensures |ys| == |order| && forall p :: 0 <= p < |order| ==> ys[p] == xs[order[p]]
  {
    seq(|order|, p requires 0 <= p < |order| => xs[order[p]])
  }

  /** The action lists the candidates hold, in their order. */
  function ListsOf(candidates: seq<Candidate<array<Action>>>): (lists: seq<array<Action>>)
    ensures |lists| == |candidates| && forall j :: 0 <= j < |candidates| ==> lists[j] == candidates[j].member
  {
    seq(|candidates|, j requires 0 <= j < |candidates| => candidates[j].member)
  }

  /** The contents of the ranked lists, in rank order, are the candidates'
      contents rearranged by `RankOrder`. */
  lemma RankedContents(candidates: seq<Candidate<array<Action>>>, contents: seq<seq<Action>>)
    requires |contents| == |candidates|
    requires forall j :: 0 <= j < |candidates| ==> candidates[j].member[..] == contents[j]
    ensures Contents(ListsOf(Ranked(candidates))) == Permuted(contents, RankOrder(Evaluations(candidates)))
  {
    RankedByOrder(candidates);
  }

  /**
   * The pairing rounds, on contents: round `r` selected the ranks
   * `parents[r]` with its two selection draws and gave slots `2r` and
   * `2r + 1` the contents `before[2r]` and `before[2r + 1]` that
   * `RoundContents` yields from its parents' contents, `parentContents`
   * being the contents of the ranked lists in rank order.
   */
  ghost predicate Paired(parentContents: seq<seq<Action>>, pairs: seq<PairDraws>, parents: seq<(nat, nat)>, before: seq<seq<Action>>)
  {
    |parents| == |pairs| && |before| == 2 * |pairs| &&
    forall r :: 0 <= r < |pairs| ==>
      parents[r].0 < |parentContents| && parents[r].1 < |parentContents| &&
      Selects(|parentContents|, pairs[r].rank1, parents[r].0) &&
      Selects(|parentContents|, pairs[r].rank2, parents[r].1) &&
      |parentContents[parents[r].1]| == |parentContents[parents[r].0]| &&
      |pairs[r].genes1| == |parentContents[parents[r].0]| && |pairs[r].genes2| == |parentContents[parents[r].0]| &&
      RoundContents(pairs[r], parentContents[parents[r].0], parentContents[parents[r].1], before[2 * r], before[2 * r + 1])
  }

  /** Slot `i` of the next generation is filled by pairing round `i / 2`: from
      that round's first parent when `i` is even, from its second when odd. */
  function SlotParent(parents: seq<(nat, nat)>, i: nat): nat
    requires i / 2 < |parents|
  {
    if i % 2 == 0 then parents[i / 2].0 else parents[i / 2].1
  }

  /**
   * Aliasing in the next generation: two distinct slots hold the same list
   * exactly when neither round crossed over and both slots took the same
   * ranked parent.
   */
  ghost predicate SharedExactly(slots: seq<array<Action>>, pairs: seq<PairDraws>, parents: seq<(nat, nat)>)
  {
    |slots| == 2 * |pairs| && |parents| == |pairs| &&
    forall i, j :: 0 <= i < |slots| && 0 <= j < |slots| && i != j ==>
      (slots[i] == slots[j] <==>
        !Crossed(pairs, i) && !Crossed(pairs, j) && SlotParent(parents, i) == SlotParent(parents, j))
  }

  /** Slot `i` was filled by a round whose crossover test passed. */
  predicate Crossed(pairs: seq<PairDraws>, i: nat)
    requires i / 2 < |pairs|
  {
    pairs[i / 2].crossover <= CrossoverThreshold
  }

  /** Which slots share a list: when the ranked lists are distinct, a round
      without crossover holds its parents' lists and a crossover child is
      held by its own slot alone, two slots hold the same list exactly when
      neither was crossed and both hold the same ranked parent. */
  lemma SharedSlots(slots: seq<array<Action>>, pairs: seq<PairDraws>, parents: seq<(nat, nat)>,
                    ranked: seq<Candidate<array<Action>>>)
    requires |slots| == 2 * |pairs| && |parents| == |pairs|
    requires DistinctLists(ranked)
    requires forall r :: 0 <= r < |pairs| ==> parents[r].0 < |ranked| && parents[r].1 < |ranked|
    requires forall r :: 0 <= r < |pairs| && pairs[r].crossover > CrossoverThreshold ==>
      slots[2 * r] == ranked[parents[r].0].member && slots[2 * r + 1] == ranked[parents[r].1].member
    requires forall r :: 0 <= r < |pairs| && pairs[r].crossover <= CrossoverThreshold ==>
      multiset(slots)[slots[2 * r]] == 1 && multiset(slots)[slots[2 * r + 1]] == 1
    ensures SharedExactly(slots, pairs, parents)
  {
    forall i, j | 0 <= i < |slots| && 0 <= j < |slots| && i != j
      ensures slots[i] == slots[j] <==>
        !Crossed(pairs, i) && !Crossed(pairs, j) && SlotParent(parents, i) == SlotParent(parents, j)
    {
      SlotHolds(slots, pairs, parents, ranked, i);
      SlotHolds(slots, pairs, parents, ranked, j);
      if slots[i] == slots[j] {
        if i < j {
          MultiplicityOfRepeat(slots, i, j);
        } else {
          MultiplicityOfRepeat(slots, j, i);
        }
      }
    }
  }

  /** Slot `i` as its round filled it: a list held once, or its parent's list. */
  lemma SlotHolds(slots: seq<array<Action>>, pairs: seq<PairDraws>, parents: seq<(nat, nat)>,
                  ranked: seq<Candidate<array<Action>>>, i: nat)
    requires |slots| == 2 * |pairs| && |parents| == |pairs| && i < |slots|
    requires forall r :: 0 <= r < |pairs| ==> parents[r].0 < |ranked| && parents[r].1 < |ranked|
    requires forall r :: 0 <= r < |pairs| && pairs[r].crossover > CrossoverThreshold ==>
      slots[2 * r] == ranked[parents[r].0].member && slots[2 * r + 1] == ranked[parents[r].1].member
    requires forall r :: 0 <= r < |pairs| && pairs[r].crossover <= CrossoverThreshold ==>
      multiset(slots)[slots[2 * r]] == 1 && multiset(slots)[slots[2 * r + 1]] == 1
    ensures SlotParent(parents, i) < |ranked|
    ensures Crossed(pairs, i) ==> multiset(slots)[slots[i]] == 1
    ensures !Crossed(pairs, i) ==> slots[i] == ranked[SlotParent(parents, i)].member
  {
    var r := i / 2;
    assert i == 2 * r || i == 2 * r + 1;
  }

  class GeneticAgent {
    const populationSize: nat
    const actionCount: nat

    /** `registerInitialState`: a population of 8 sequences of 5 actions. */
    constructor ()
      ensures populationSize == 8 && actionCount == 5
      ensures Valid()
    {
      populationSize := 8;
      actionCount := 5;
    }

    /** The pairing rounds fill the population exactly and sequences are not empty. */
    predicate Valid()
    {
      populationSize >= 2 && populationSize % 2 == 0 && actionCount >= 1
    }

    /** A population of the configured shape whose genes are possible actions. */
    ghost predicate IsPopulation(pop: seq<array<Action>>, possible: seq<Action>)
      reads set a | a in pop
    {
      |pop| == populationSize &&
      (forall i :: 0 <= i < |pop| ==> pop[i].Length == actionCount) &&
      (forall i :: 0 <= i < |pop| ==> AllPossible(pop[i][..], possible))
    }

    predicate PairInRange(d: PairDraws)
    {
      1 <= d.rank1 <= SumOfRanks(populationSize) && 1 <= d.rank2 <= SumOfRanks(populationSize) &&
      1 <= d.crossover <= 10 &&
      |d.genes1| == actionCount && |d.genes2| == actionCount &&
      (forall k :: 0 <= k < actionCount ==> d.genes1[k] <= 1 && d.genes2[k] <= 1)
    }

    predicate GenerationInRange(d: GenerationDraws, possible: seq<Action>)
    {
      |d.pairs| == populationSize / 2 && (forall r :: 0 <= r < |d.pairs| ==> PairInRange(d.pairs[r])) &&
      |d.mutations| == populationSize &&
      (forall i :: 0 <= i < |d.mutations| ==> MutationInRange(d.mutations[i], actionCount, possible))
    }

    /**
     * `selectRank`: walks the draw down from the best rank, widening the
     * threshold by the next lower rank each time. It always returns, and with
     * the index the draw selects under linear rank weighting.
     */
    method SelectRank(draw: nat) returns (index: nat)
      requires Valid()
      requires 1 <= draw <= SumOfRanks(populationSize)
      ensures index < populationSize
      ensures Selects(populationSize, draw, index)
    {
      var highestRank := populationSize;
      var sumOfRanks := highestRank * (highestRank + 1) / 2;
      var selectedRank := highestRank;
      var runnerRank := highestRank;
      AboveBounds(highestRank, 0);
      while runnerRank <= sumOfRanks
        invariant 1 <= selectedRank <= highestRank
        invariant runnerRank == Above(highestRank, selectedRank - 1) <= sumOfRanks
        invariant Above(highestRank, selectedRank) < draw
        decreases selectedRank
      {
        if draw <= runnerRank {
          return selectedRank - 1;
        }
        selectedRank := selectedRank - 1;
        runnerRank := runnerRank + selectedRank;
        AboveBounds(highestRank, selectedRank - 1);
      }
      assert false;
    }

    /** The initial population: `populationSize` fresh lists of `actionCount`
        possible actions, drawn by the indices `picks`. */
    method InitialPopulation(possible: seq<Action>, picks: seq<seq<nat>>) returns (population: seq<array<Action>>)
      requires |picks| == populationSize
      requires forall i :: 0 <= i < |picks| ==> |picks[i]| == actionCount
      requires forall i, k :: 0 <= i < |picks| && 0 <= k < |picks[i]| ==> picks[i][k] < |possible|
      ensures IsPopulation(population, possible)
      ensures forall i :: 0 <= i < |population| ==> fresh(population[i])
      ensures forall i, k :: 0 <= i < |population| && 0 <= k < actionCount ==> population[i][k] == possible[picks[i][k]]
    {
      population := [];
      var populationCount := 0;
      while populationCount < populationSize
        invariant populationCount <= populationSize && |population| == populationCount
        invariant forall i :: 0 <= i < populationCount ==> fresh(population[i]) && population[i].Length == actionCount
        invariant forall i, k :: 0 <= i < populationCount && 0 <= k < actionCount ==> population[i][k] == possible[picks[i][k]]
      {
        var actionList: seq<Action> := [];
        var actionCounter := 0;
        while actionCounter < actionCount
          invariant actionCounter <= actionCount && |actionList| == actionCounter
          invariant forall k :: 0 <= k < actionCounter ==> actionList[k] == possible[picks[populationCount][k]]
        {
          actionList := actionList + [possible[picks[populationCount][actionCounter]]];
          actionCounter := actionCounter + 1;
        }
        var copy := new Action[|actionList|](k requires 0 <= k < |actionList| => actionList[k]);
        population := population + [copy];
        populationCount := populationCount + 1;
      }
    }

    /**
     * Rolls every member out from `root` in population order. A win returns
     * at once (the caller returns that member's first action), and so does a
     * missing successor; otherwise each member is recorded with a fresh copy
     * of its actions and its score.
     */
    method Evaluate<S>(g: Game<S>, root: S, population: seq<array<Action>>) returns (r: Evaluation)
      requires |population| == populationSize
      requires forall i :: 0 <= i < |population| ==> population[i].Length == actionCount
      ensures r.Interrupted? ==> FirstInterrupted(g, root, Contents(population), r.index)
      ensures r.Interrupted? ==> (r.won <==> RollOutcome(g, root, population[r.index][..]).Win?)
      ensures r.Scored? <==> AllReached(g, root, Contents(population))
      ensures r.Scored? ==> |r.candidates| == |population|
      ensures r.Scored? ==> forall i :: 0 <= i < |population| ==>
        fresh(r.candidates[i].member) && r.candidates[i].member[..] == population[i][..] &&
        r.candidates[i].evaluation == Scores(g, root, Contents(population))[i]
      ensures r.Scored? ==> DistinctLists(r.candidates) && fresh(CandidateLists(r.candidates))
    {
      var evaluatedPopulation: seq<Candidate<array<Action>>> := [];
      var populationIndex := 0;
      while populationIndex < populationSize
        invariant populationIndex <= populationSize && |evaluatedPopulation| == populationIndex
        invariant forall j :: 0 <= j < populationIndex ==> RollOutcome(g, root, population[j][..]).Reached?
        invariant forall j :: 0 <= j < populationIndex ==>
          fresh(evaluatedPopulation[j].member) && evaluatedPopulation[j].member[..] == population[j][..] &&
          evaluatedPopulation[j].evaluation == g.eval(root, RollOutcome(g, root, population[j][..]).state)
        invariant DistinctLists(evaluatedPopulation)
      {
        var currentActionSeq := population[populationIndex];
        var outcome := Rollout(g, root, currentActionSeq[..]);
        match outcome {
          case Win =>
            return Interrupted(populationIndex, true);
          case NoSuccessor =>
            return Interrupted(populationIndex, false);
          case Reached(tempState) =>
            var acts := currentActionSeq[..];
            var copy := new Action[|acts|](k requires 0 <= k < |acts| => acts[k]);
            assert copy[..] == acts;
            evaluatedPopulation := evaluatedPopulation + [Candidate(copy, g.eval(root, tempState))];
        }
        populationIndex := populationIndex + 1;
      }
      r := Scored(evaluatedPopulation);
    }

    /** One pairing round: selects two parents by rank, then appends two
        fresh crossover children or, when the crossover test fails, the
        parents' own lists, not copies. */
    method PairingRound(ranked: seq<Candidate<array<Action>>>, pair: PairDraws, ghost possible: seq<Action>)
      returns (slot1: array<Action>, slot2: array<Action>, ghost index1: nat, ghost index2: nat)
      requires Valid()
      requires |ranked| == populationSize
      requires forall j :: 0 <= j < |ranked| ==>
        ranked[j].member.Length == actionCount && AllPossible(ranked[j].member[..], possible)
      requires PairInRange(pair)
      ensures index1 < populationSize && Selects(populationSize, pair.rank1, index1)
      ensures index2 < populationSize && Selects(populationSize, pair.rank2, index2)
      ensures RoundContents(pair, ranked[index1].member[..], ranked[index2].member[..], slot1[..], slot2[..])
      ensures pair.crossover <= CrossoverThreshold ==> fresh(slot1) && fresh(slot2) && slot1 != slot2
      ensures pair.crossover > CrossoverThreshold ==> slot1 == ranked[index1].member && slot2 == ranked[index2].member
      ensures slot1.Length == actionCount && AllPossible(slot1[..], possible)
      ensures slot2.Length == actionCount && AllPossible(slot2[..], possible)
    {
      var rank1 := SelectRank(pair.rank1);
      var rank2 := SelectRank(pair.rank2);
      index1, index2 := rank1, rank2;
      var candidate1, candidate2 := ranked[rank1], ranked[rank2];
      if pair.crossover <= CrossoverThreshold {
        var seq1, seq2 := candidate1.member[..], candidate2.member[..];
        var child1 := Crossover(seq1, seq2, pair.genes1);
        CrossoverGenesFromParents(seq1, seq2, pair.genes1, child1, possible);
        slot1 := new Action[|child1|](k requires 0 <= k < |child1| => child1[k]);
        var child2 := Crossover(seq1, seq2, pair.genes2);
        CrossoverGenesFromParents(seq1, seq2, pair.genes2, child2, possible);
        slot2 := new Action[|child2|](k requires 0 <= k < |child2| => child2[k]);
        assert slot1[..] == child1 && slot2[..] == child2;
      } else {
        slot1, slot2 := candidate1.member, candidate2.member;
      }
    }

    /** Pairing round `d` selected ranked indices `p` and filled two slots
        holding `slot1`, `slot2` with contents `child1`, `child2`: the
        `RoundContents` of the parents' contents, in fresh lists after a
        crossover and in the parents' own lists otherwise. */
    ghost predicate RoundBuilt(ranked: seq<Candidate<array<Action>>>, rankedContents: seq<seq<Action>>, d: PairDraws,
                               p: (nat, nat), slot1: array<Action>, slot2: array<Action>, child1: seq<Action>, child2: seq<Action>)
      requires |rankedContents| == |ranked| == populationSize
      requires forall j :: 0 <= j < |ranked| ==> |rankedContents[j]| == actionCount
      requires PairInRange(d)
    {
      p.0 < populationSize && p.1 < populationSize &&
      Selects(populationSize, d.rank1, p.0) && Selects(populationSize, d.rank2, p.1) &&
      RoundContents(d, rankedContents[p.0], rankedContents[p.1], child1, child2) &&
      if d.crossover <= CrossoverThreshold then
        slot1 !in CandidateLists(ranked) && slot2 !in CandidateLists(ranked) && slot1 != slot2
      else
        slot1 == ranked[p.0].member && slot2 == ranked[p.1].member
    }

    /** The first `|parents|` pairing rounds filled `slots`, whose contents
        are `contents`, each as `RoundBuilt` says; a crossover child is held
        by its own slot alone. */
    ghost predicate Built(ranked: seq<Candidate<array<Action>>>, rankedContents: seq<seq<Action>>, pairs: seq<PairDraws>,
                          possible: seq<Action>, slots: seq<array<Action>>, contents: seq<seq<Action>>, parents: seq<(nat, nat)>)
      requires |rankedContents| == |ranked| == populationSize
      requires forall j :: 0 <= j < |ranked| ==> |rankedContents[j]| == actionCount
      requires forall r :: 0 <= r < |pairs| ==> PairInRange(pairs[r])
    {
      |parents| <= |pairs| && |slots| == 2 * |parents| && |contents| == |slots| &&
      (forall i :: 0 <= i < |slots| ==>
        slots[i].Length == actionCount && |contents[i]| == actionCount && AllPossible(contents[i], possible)) &&
      (forall r :: 0 <= r < |parents| ==>
        RoundBuilt(ranked, rankedContents, pairs[r], parents[r], slots[2 * r], slots[2 * r + 1], contents[2 * r], contents[2 * r + 1])) &&
      forall r :: 0 <= r < |parents| && pairs[r].crossover <= CrossoverThreshold ==>
        multiset(slots)[slots[2 * r]] == 1 && multiset(slots)[slots[2 * r + 1]] == 1
    }

    /** One pass of the pairing loop: runs round `|slots| / 2` and appends its
        two slots. */
    method AppendRound(ranked: seq<Candidate<array<Action>>>, ghost rankedContents: seq<seq<Action>>, pairs: seq<PairDraws>,
                       ghost possible: seq<Action>, slots: seq<array<Action>>, ghost contents: seq<seq<Action>>, ghost parents: seq<(nat, nat)>)
      returns (nextSlots: seq<array<Action>>, ghost nextContents: seq<seq<Action>>, ghost nextParents: seq<(nat, nat)>)
      requires Valid()
      requires |ranked| == populationSize == |rankedContents|
      requires forall j :: 0 <= j < |ranked| ==>
        ranked[j].member.Length == actionCount && rankedContents[j] == ranked[j].member[..] &&
        AllPossible(rankedContents[j], possible)
      requires |pairs| == populationSize / 2 && forall r :: 0 <= r < |pairs| ==> PairInRange(pairs[r])
      requires Built(ranked, rankedContents, pairs, possible, slots, contents, parents) && |parents| < |pairs|
      requires |contents| == |slots| && forall i :: 0 <= i < |slots| ==> contents[i] == slots[i][..]
      ensures Built(ranked, rankedContents, pairs, possible, nextSlots, nextContents, nextParents)
      ensures |nextContents| == |nextSlots| && forall i :: 0 <= i < |nextSlots| ==> nextContents[i] == nextSlots[i][..]
      ensures forall j :: 0 <= j < |ranked| ==> rankedContents[j] == ranked[j].member[..]
      ensures |nextParents| == |parents| + 1
      ensures |nextSlots| == |slots| + 2 && nextSlots[..|slots|] == slots
      ensures fresh(nextSlots[|slots|]) || nextSlots[|slots|] in CandidateLists(ranked)
      ensures fresh(nextSlots[|slots| + 1]) || nextSlots[|slots| + 1] in CandidateLists(ranked)
    {
      var n := |slots| / 2;
      var slot1, slot2, index1, index2 := PairingRound(ranked, pairs[n], possible);
      nextSlots := slots + [slot1, slot2];
      nextContents := contents + [slot1[..], slot2[..]];
      nextParents := parents + [(index1, index2)];
      assert nextSlots[..|slots|] == slots;
      assert n == |parents|;
      assert ranked[index1].member[..] == rankedContents[index1] && ranked[index2].member[..] == rankedContents[index2];
      assert RoundContents(pairs[n], rankedContents[index1], rankedContents[index2], slot1[..], slot2[..]);
      assert pairs[n].crossover <= CrossoverThreshold ==>
        slot1 !in CandidateLists(ranked) && slot2 !in CandidateLists(ranked) && slot1 !in slots && slot2 !in slots;
      assert RoundBuilt(ranked, rankedContents, pairs[n], (index1, index2), slot1, slot2, slot1[..], slot2[..]);
      BuiltSnoc(ranked, rankedContents, pairs, possible, slots, contents, parents, slot1, slot2, slot1[..], slot2[..], (index1, index2));
    }

    /** Appending a round that `RoundBuilt` describes keeps `Built`, provided
        its crossover children are new lists. */
    lemma BuiltSnoc(ranked: seq<Candidate<array<Action>>>, rankedContents: seq<seq<Action>>, pairs: seq<PairDraws>,
                    possible: seq<Action>, slots: seq<array<Action>>, contents: seq<seq<Action>>, parents: seq<(nat, nat)>,
                    slot1: array<Action>, slot2: array<Action>, child1: seq<Action>, child2: seq<Action>, p: (nat, nat))
      requires |rankedContents| == |ranked| == populationSize
      requires forall j :: 0 <= j < |ranked| ==> |rankedContents[j]| == actionCount && AllPossible(rankedContents[j], possible)
      requires forall r :: 0 <= r < |pairs| ==> PairInRange(pairs[r])
      requires Built(ranked, rankedContents, pairs, possible, slots, contents, parents) && |parents| < |pairs|
      requires RoundBuilt(ranked, rankedContents, pairs[|parents|], p, slot1, slot2, child1, child2)
      requires slot1.Length == actionCount && AllPossible(child1, possible)
      requires slot2.Length == actionCount && AllPossible(child2, possible)
      requires pairs[|parents|].crossover <= CrossoverThreshold ==> slot1 !in slots && slot2 !in slots
      ensures Built(ranked, rankedContents, pairs, possible, slots + [slot1, slot2], contents + [child1, child2], parents + [p])
    {
      var n := |parents|;
      var nextSlots := slots + [slot1, slot2];
      assert multiset(nextSlots) == multiset(slots) + multiset{slot1, slot2};
      // an earlier crossover child is neither of the two new slots
      forall r | 0 <= r < n && pairs[r].crossover <= CrossoverThreshold
        ensures slots[2 * r] != slot1 && slots[2 * r] != slot2 && slots[2 * r + 1] != slot1 && slots[2 * r + 1] != slot2
      {
        assert RoundBuilt(ranked, rankedContents, pairs[r], parents[r], slots[2 * r], slots[2 * r + 1], contents[2 * r], contents[2 * r + 1]);
      }
    }

    /**
     * The pairing rounds: each selects two parents by rank and appends either
     * two crossover children (fresh lists) or the two parents' lists
     * themselves. The ghost `parents` records the selected ranked indices.
     * A crossover child is a list no other slot holds.
     */
    method BuildNextGeneration(ranked: seq<Candidate<array<Action>>>, pairs: seq<PairDraws>, ghost possible: seq<Action>)
      returns (nextGeneration: seq<array<Action>>, ghost parents: seq<(nat, nat)>)
      requires Valid()
      requires |ranked| == populationSize
      requires forall j :: 0 <= j < |ranked| ==>
        ranked[j].member.Length == actionCount && AllPossible(ranked[j].member[..], possible)
      requires |pairs| == populationSize / 2 && forall r :: 0 <= r < |pairs| ==> PairInRange(pairs[r])
      ensures |nextGeneration| == populationSize && |parents| == |pairs|
      ensures forall i :: 0 <= i < |nextGeneration| ==>
        (fresh(nextGeneration[i]) || nextGeneration[i] in CandidateLists(ranked)) &&
        nextGeneration[i].Length == actionCount && AllPossible(nextGeneration[i][..], possible)
      ensures forall r :: 0 <= r < |pairs| ==>
        parents[r].0 < populationSize && parents[r].1 < populationSize &&
        Selects(populationSize, pairs[r].rank1, parents[r].0) &&
        Selects(populationSize, pairs[r].rank2, parents[r].1) &&
        PairInRange(pairs[r]) &&
        RoundContents(pairs[r], ranked[parents[r].0].member[..], ranked[parents[r].1].member[..],
                      nextGeneration[2 * r][..], nextGeneration[2 * r + 1][..])
      ensures forall r :: 0 <= r < |pairs| && pairs[r].crossover > CrossoverThreshold ==>
        nextGeneration[2 * r] == ranked[parents[r].0].member && nextGeneration[2 * r + 1] == ranked[parents[r].1].member
      ensures forall r :: 0 <= r < |pairs| && pairs[r].crossover <= CrossoverThreshold ==>
        fresh(nextGeneration[2 * r]) && fresh(nextGeneration[2 * r + 1]) &&
        multiset(nextGeneration)[nextGeneration[2 * r]] == 1 && multiset(nextGeneration)[nextGeneration[2 * r + 1]] == 1
    {
      ghost var rankedContents := seq(|ranked|, j requires 0 <= j < |ranked| reads CandidateLists(ranked) => ranked[j].member[..]);
      ghost var contents: seq<seq<Action>> := [];
      nextGeneration := [];
      parents := [];
      while |nextGeneration| < populationSize
        invariant Built(ranked, rankedContents, pairs, possible, nextGeneration, contents, parents)
        invariant |contents| == |nextGeneration| && forall i :: 0 <= i < |nextGeneration| ==> contents[i] == nextGeneration[i][..]
        invariant forall j :: 0 <= j < |ranked| ==> rankedContents[j] == ranked[j].member[..]
        invariant forall i :: 0 <= i < |nextGeneration| ==> fresh(nextGeneration[i]) || nextGeneration[i] in CandidateLists(ranked)
        decreases populationSize - |nextGeneration|
      {
        ghost var prev := nextGeneration;
        nextGeneration, contents, parents := AppendRound(ranked, rankedContents, pairs, possible, nextGeneration, contents, parents);
        assert forall i :: 0 <= i < |prev| ==> nextGeneration[i] == prev[i];
      }
      BuiltComplete(ranked, rankedContents, pairs, possible, nextGeneration, contents, parents);
    }

    /** The facts `Built` records, read back through the slots' current contents. */
    lemma BuiltComplete(ranked: seq<Candidate<array<Action>>>, rankedContents: seq<seq<Action>>, pairs: seq<PairDraws>,
                        possible: seq<Action>, slots: seq<array<Action>>, contents: seq<seq<Action>>, parents: seq<(nat, nat)>)
      requires |rankedContents| == |ranked| == populationSize
      requires forall j :: 0 <= j < |ranked| ==>
        ranked[j].member.Length == actionCount && rankedContents[j] == ranked[j].member[..]
      requires forall r :: 0 <= r < |pairs| ==> PairInRange(pairs[r])
      requires Built(ranked, rankedContents, pairs, possible, slots, contents, parents) && |parents| == |pairs|
      requires |contents| == |slots| && forall i :: 0 <= i < |slots| ==> contents[i] == slots[i][..]
      ensures forall i :: 0 <= i < |slots| ==> slots[i].Length == actionCount && AllPossible(slots[i][..], possible)
      ensures forall r :: 0 <= r < |pairs| ==>
        parents[r].0 < populationSize && parents[r].1 < populationSize &&
        Selects(populationSize, pairs[r].rank1, parents[r].0) &&
        Selects(populationSize, pairs[r].rank2, parents[r].1) &&
        PairInRange(pairs[r]) &&
        RoundContents(pairs[r], ranked[parents[r].0].member[..], ranked[parents[r].1].member[..],
                      slots[2 * r][..], slots[2 * r + 1][..])
      ensures forall r :: 0 <= r < |pairs| && pairs[r].crossover > CrossoverThreshold ==>
        slots[2 * r] == ranked[parents[r].0].member && slots[2 * r + 1] == ranked[parents[r].1].member
      ensures forall r :: 0 <= r < |pairs| && pairs[r].crossover <= CrossoverThreshold ==>
        slots[2 * r] !in CandidateLists(ranked) && slots[2 * r + 1] !in CandidateLists(ranked) &&
        multiset(slots)[slots[2 * r]] == 1 && multiset(slots)[slots[2 * r + 1]] == 1
    {
      forall r | 0 <= r < |pairs|
        ensures RoundBuilt(ranked, rankedContents, pairs[r], parents[r], slots[2 * r], slots[2 * r + 1],
                           slots[2 * r][..], slots[2 * r + 1][..])
      {
        assert RoundBuilt(ranked, rankedContents, pairs[r], parents[r], slots[2 * r], slots[2 * r + 1], contents[2 * r], contents[2 * r + 1]);
      }
    }

    /**
     * The mutation step, in place: slot by slot, a passing test writes a
     * possible action at one position of the list the slot holds. A list held
     * by several slots receives all their writes.
     */
    method Mutate(nextGeneration: seq<array<Action>>, possible: seq<Action>, mutations: seq<MutationDraws>)
      requires |nextGeneration| == populationSize == |mutations|
      requires forall i :: 0 <= i < |nextGeneration| ==> nextGeneration[i].Length == actionCount
      requires forall i :: 0 <= i < |mutations| ==> MutationInRange(mutations[i], actionCount, possible)
      modifies set i | 0 <= i < |nextGeneration| :: nextGeneration[i]
      ensures MutationFrame(nextGeneration, old(Contents(nextGeneration)), possible, mutations)
      ensures forall i, k :: 0 <= i < |nextGeneration| && 0 <= k < actionCount ==>
        nextGeneration[i][k] == MutatedGene(nextGeneration, old(Contents(nextGeneration)), possible, mutations, |nextGeneration|, i, k)
    {
      ghost var before := Contents(nextGeneration);
      assert MutationFrame(nextGeneration, before, possible, mutations);
      var populationCount := 0;
      while populationCount < populationSize
        invariant populationCount <= populationSize
        invariant forall i, k :: 0 <= i < |nextGeneration| && 0 <= k < actionCount ==>
          nextGeneration[i][k] == MutatedGene(nextGeneration, before, possible, mutations, populationCount, i, k)
      {
        var m := mutations[populationCount];
        if m.test <= MutationThreshold {
          nextGeneration[populationCount][m.position] := possible[m.pick];
        }
        populationCount := populationCount + 1;
      }
    }

    /**
     * Ranking and the best record: the candidates sorted ascending by
     * evaluation, and the record replaced by the last ranked candidate's root
     * action and score when that score is at least the recorded one.
     */
    method RankAndRecord(evaluatedPopulation: seq<Candidate<array<Action>>>, best: BestAction, ghost possible: seq<Action>)
      returns (rankedPopulation: seq<Candidate<array<Action>>>, bestAction: BestAction)
      requires |evaluatedPopulation| == populationSize && Valid()
      requires forall j :: 0 <= j < |evaluatedPopulation| ==>
        evaluatedPopulation[j].member.Length == actionCount && AllPossible(evaluatedPopulation[j].member[..], possible)
      requires best.rootAction == NoAction || best.rootAction in possible
      ensures rankedPopulation == Ranked(evaluatedPopulation)
      ensures forall j :: 0 <= j < |rankedPopulation| ==> rankedPopulation[j] in evaluatedPopulation
      ensures var scores := Evaluations(evaluatedPopulation);
        var j := LatestBest(scores);
        bestAction == if best.evaluation <= scores[j]
                      then BestAction(evaluatedPopulation[j].member[0], scores[j]) else best
      ensures best.evaluation <= bestAction.evaluation
      ensures forall i :: 0 <= i < |evaluatedPopulation| ==> evaluatedPopulation[i].evaluation <= bestAction.evaluation
      ensures bestAction.rootAction == NoAction || bestAction.rootAction in possible
    {
      rankedPopulation := Ranked(evaluatedPopulation);
      RankedMembers(evaluatedPopulation);
      ghost var scores := Evaluations(evaluatedPopulation);
      ghost var j := LatestBest(scores);
      var bestRankedSeq := rankedPopulation[|rankedPopulation| - 1];
      RankedLast(evaluatedPopulation);
      assert bestRankedSeq == evaluatedPopulation[j] && bestRankedSeq.evaluation == scores[j];
      bestAction := best;
      if bestRankedSeq.evaluation >= best.evaluation {
        bestAction := BestAction(bestRankedSeq.member[0], bestRankedSeq.evaluation);
      }
    }

    /**
     * Breeding: the pairing rounds followed by the mutation step. The ghost
     * `parents` records each round's selected ranked indices and `before` the
     * slots' contents between the two steps; the mutation then writes through
     * the slots as `MutatedGene` says, so a parent list held by several slots
     * receives all their writes.
     */
    method Breed(rankedPopulation: seq<Candidate<array<Action>>>, draws: GenerationDraws, possible: seq<Action>)
      returns (nextGeneration: seq<array<Action>>, ghost parents: seq<(nat, nat)>, ghost before: seq<seq<Action>>)
      requires Valid()
      requires |rankedPopulation| == populationSize
      requires forall j :: 0 <= j < |rankedPopulation| ==>
        rankedPopulation[j].member.Length == actionCount &&
        AllPossible(rankedPopulation[j].member[..], possible)
      requires GenerationInRange(draws, possible)
      modifies CandidateLists(rankedPopulation)
      ensures IsPopulation(nextGeneration, possible)
      ensures forall i :: 0 <= i < |nextGeneration| ==>
        fresh(nextGeneration[i]) || nextGeneration[i] in CandidateLists(rankedPopulation)
      ensures |parents| == |draws.pairs|
      ensures Paired(old(Contents(ListsOf(rankedPopulation))), draws.pairs, parents, before)
      ensures forall r :: 0 <= r < |draws.pairs| && draws.pairs[r].crossover > CrossoverThreshold ==>
        parents[r].0 < |rankedPopulation| && parents[r].1 < |rankedPopulation| &&
        nextGeneration[2 * r] == rankedPopulation[parents[r].0].member &&
        nextGeneration[2 * r + 1] == rankedPopulation[parents[r].1].member
      ensures forall r :: 0 <= r < |draws.pairs| && draws.pairs[r].crossover <= CrossoverThreshold ==>
        fresh(nextGeneration[2 * r]) && fresh(nextGeneration[2 * r + 1]) &&
        multiset(nextGeneration)[nextGeneration[2 * r]] == 1 && multiset(nextGeneration)[nextGeneration[2 * r + 1]] == 1
      ensures MutationDone(nextGeneration, before, possible, draws.mutations)
    {
      ghost var parentContents := Contents(ListsOf(rankedPopulation));
      nextGeneration, parents := BuildNextGeneration(rankedPopulation, draws.pairs, possible);
      before := Contents(nextGeneration);
      assert Paired(parentContents, draws.pairs, parents, before);
      Mutate(nextGeneration, possible, draws.mutations);
      forall i, k | 0 <= i < |nextGeneration| && 0 <= k < actionCount
        ensures nextGeneration[i][k] in possible
      {
        MutatedGenePossible(nextGeneration, before, possible, draws.mutations, |nextGeneration|, i, k);
      }
    }

    /** Everything after evaluation: rank, update the best record, breed. Only
        the candidates' own copies can change. */
    method Advance(evaluatedPopulation: seq<Candidate<array<Action>>>, ghost contents: seq<seq<Action>>,
                   best: BestAction, draws: GenerationDraws, possible: seq<Action>)
      returns (nextGeneration: seq<array<Action>>, bestAction: BestAction,
               ghost order: seq<nat>, ghost parents: seq<(nat, nat)>, ghost before: seq<seq<Action>>)
      requires Valid()
      requires |evaluatedPopulation| == populationSize
      requires forall j :: 0 <= j < |evaluatedPopulation| ==>
        evaluatedPopulation[j].member.Length == actionCount &&
        AllPossible(evaluatedPopulation[j].member[..], possible)
      requires |contents| == |evaluatedPopulation| &&
        forall j :: 0 <= j < |evaluatedPopulation| ==> evaluatedPopulation[j].member[..] == contents[j]
      requires DistinctLists(evaluatedPopulation)
      requires GenerationInRange(draws, possible)
      requires best.rootAction == NoAction || best.rootAction in possible
      modifies CandidateLists(evaluatedPopulation)
      ensures IsPopulation(nextGeneration, possible)
      ensures forall i :: 0 <= i < |nextGeneration| ==>
        fresh(nextGeneration[i]) || nextGeneration[i] in CandidateLists(evaluatedPopulation)
      ensures var scores := Evaluations(evaluatedPopulation);
        var j := LatestBest(scores);
        bestAction == if best.evaluation <= scores[j]
                      then BestAction(contents[j][0], scores[j]) else best
      ensures best.evaluation <= bestAction.evaluation
      ensures forall i :: 0 <= i < |evaluatedPopulation| ==> evaluatedPopulation[i].evaluation <= bestAction.evaluation
      ensures bestAction.rootAction == NoAction || bestAction.rootAction in possible
      ensures order == RankOrder(Evaluations(evaluatedPopulation))
      ensures |order| == populationSize && forall p :: 0 <= p < |order| ==> order[p] < populationSize
      ensures |parents| == |draws.pairs|
      ensures Paired(Permuted(contents, order), draws.pairs, parents, before)
      ensures forall r :: 0 <= r < |draws.pairs| && draws.pairs[r].crossover > CrossoverThreshold ==>
        parents[r].0 < |evaluatedPopulation| && parents[r].1 < |evaluatedPopulation| &&
        nextGeneration[2 * r] == Ranked(evaluatedPopulation)[parents[r].0].member &&
        nextGeneration[2 * r + 1] == Ranked(evaluatedPopulation)[parents[r].1].member
      ensures forall r :: 0 <= r < |draws.pairs| && draws.pairs[r].crossover <= CrossoverThreshold ==>
        fresh(nextGeneration[2 * r]) && fresh(nextGeneration[2 * r + 1]) &&
        multiset(nextGeneration)[nextGeneration[2 * r]] == 1 && multiset(nextGeneration)[nextGeneration[2 * r + 1]] == 1
      ensures SharedExactly(nextGeneration, draws.pairs, parents)
      ensures MutationDone(nextGeneration, before, possible, draws.mutations)
    {
      var rankedPopulation;
      rankedPopulation, bestAction := RankAndRecord(evaluatedPopulation, best, possible);
      assert CandidateLists(rankedPopulation) <= CandidateLists(evaluatedPopulation);
      order := RankOrder(Evaluations(evaluatedPopulation));
      RankedContents(evaluatedPopulation, contents);
      RankedDistinct(evaluatedPopulation);
      nextGeneration, parents, before := Breed(rankedPopulation, draws, possible);
      SharedSlots(nextGeneration, draws.pairs, parents, rankedPopulation);
    }

    /**
     * One pass of the generation loop: evaluate, rank, update the best record
     * under the `>=` rule, pair, mutate. The population passed in is only read.
     * For the next population, the ghost `parents` gives each pairing round's
     * selected ranks (the population member of rank `p` is `order[p]`) and
     * `before` the slots' contents ahead of the mutation step.
     */
    method Generation<S>(g: Game<S>, root: S, possible: seq<Action>, population: seq<array<Action>>,
                         best: BestAction, draws: GenerationDraws)
      returns (step: Step, ghost order: seq<nat>, ghost parents: seq<(nat, nat)>, ghost before: seq<seq<Action>>)
      requires Valid() && IsPopulation(population, possible) && GenerationInRange(draws, possible)
      requires best.rootAction == NoAction || best.rootAction in possible
      ensures step.Return? <==> !AllReached(g, root, Contents(population))
      ensures step.Return? ==> exists i: nat :: (FirstInterrupted(g, root, Contents(population), i) &&
        step.action == if RollOutcome(g, root, population[i][..]).Win? then population[i][0] else best.rootAction)
      ensures step.Return? ==> step.action == NoAction || step.action in possible
      ensures step.Next? ==> IsPopulation(step.population, possible)
      ensures step.Next? ==> forall i :: 0 <= i < |step.population| ==> fresh(step.population[i])
      ensures step.Next? ==>
        var scores := Scores(g, root, Contents(population));
        var j := LatestBest(scores);
        step.best == if best.evaluation <= scores[j] then BestAction(population[j][0], scores[j]) else best
      ensures step.Next? ==> best.evaluation <= step.best.evaluation
      ensures step.Next? ==> forall i :: 0 <= i < |population| ==>
        Scores(g, root, Contents(population))[i] <= step.best.evaluation
      ensures step.Next? ==> step.best.rootAction == NoAction || step.best.rootAction in possible
      ensures step.Next? ==> order == RankOrder(Scores(g, root, Contents(population)))
      ensures step.Next? ==> |order| == |population| && forall p :: 0 <= p < |order| ==> order[p] < |population|
      ensures step.Next? ==> Paired(Permuted(Contents(population), order), draws.pairs, parents, before)
      ensures step.Next? ==> SharedExactly(step.population, draws.pairs, parents)
      ensures step.Next? ==> MutationDone(step.population, before, possible, draws.mutations)
    {
      order, parents, before := [], [], [];
      var evaluation := Evaluate(g, root, population);
      if evaluation.Interrupted? {
        if evaluation.won {
          step := Return(population[evaluation.index][0]);
        } else {
          step := Return(best.rootAction);
        }
        return;
      }
      var evaluatedPopulation := evaluation.candidates;
      ghost var contents := Contents(population);
      assert Evaluations(evaluatedPopulation) == Scores(g, root, contents);
      var nextGeneration, bestAction;
      nextGeneration, bestAction, order, parents, before := Advance(evaluatedPopulation, contents, best, draws, possible);
      assert Contents(population) == contents;
      step := Next(nextGeneration, bestAction);
    }

    /**
     * `getAction`: seeds a population and runs one generation per element of
     * `generations` until a rollout forces a return. The budget counts whole
     * generations: `None` means no bundle of generation draws was left, even
     * where the next evaluation, which draws nothing, would have returned.
     */
    method GetAction<S>(g: Game<S>, root: S, possible: seq<Action>, initial: seq<seq<nat>>,
                        generations: seq<GenerationDraws>) returns (action: Option<Action>)
      requires Valid()
      requires |initial| == populationSize
      requires forall i :: 0 <= i < |initial| ==> |initial[i]| == actionCount
      requires forall i, k :: 0 <= i < |initial| && 0 <= k < |initial[i]| ==> initial[i][k] < |possible|
      requires forall n :: 0 <= n < |generations| ==> GenerationInRange(generations[n], possible)
      ensures action.Some? ==> action.value == NoAction || action.value in possible
      ensures |generations| > 0 && g.isWin(root) ==> action == Some(possible[initial[0][0]])
      ensures |generations| > 0 && Live(g, root) && (forall a :: g.succ(root, a).None?) ==> action == Some(NoAction)
    {
      var population := InitialPopulation(possible, initial);
      var bestAction := InitialBest;
      var n := 0;
      while n < |generations|
        invariant n <= |generations|
        invariant IsPopulation(population, possible)
        invariant bestAction.rootAction == NoAction || bestAction.rootAction in possible
        invariant InitialBest.evaluation <= bestAction.evaluation
        invariant n == 0 ==> bestAction == InitialBest && population[0][0] == possible[initial[0][0]]
        invariant n > 0 ==> !g.isWin(root) && !(Live(g, root) && forall a :: g.succ(root, a).None?)
      {
        var step, _, _, _ := Generation(g, root, possible, population, bestAction, generations[n]);
        ghost var contents := Contents(population);
        if n == 0 {
          // the first member's rollout stops at its first step in both scenarios
          assert contents[0] == population[0][..] && |contents[0]| > 0;
          assert g.isWin(root) ==> RollOutcome(g, root, contents[0]).Win?;
          assert Live(g, root) && (forall a :: g.succ(root, a).None?) ==> RollOutcome(g, root, contents[0]).NoSuccessor?;
        }
        if step.Return? {
          if n == 0 {
            ghost var i: nat :| FirstInterrupted(g, root, contents, i) &&
              step.action == if RollOutcome(g, root, population[i][..]).Win? then population[i][0] else bestAction.rootAction;
            assert g.isWin(root) || (Live(g, root) && (forall a :: g.succ(root, a).None?)) ==> i == 0;
          }
          return Some(step.action);
        }
        population, bestAction := step.population, step.best;
        n := n + 1;
      }
      action := None;
    }
  }
}
