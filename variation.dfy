/**
 * The genetic agent's variation operators: uniform crossover of two parent
 * sequences, and the in-place single-gene mutation of the next generation.
 *
 * The next generation is a list of references to action lists, and two of its
 * slots may hold the SAME list (a parent appended twice without a copy). The
 * mutation step writes through each slot in turn, so a list held by several
 * slots receives the writes of all of them. `MutatedGene` specifies the gene
 * every slot holds after the first `n` slots were processed, in these terms.
 */
module Variation {
  import opened Simulation

  /** `random.randint(1, 10) <= 7`: crossover happens in 70% of pairing rounds. */
  const CrossoverThreshold: nat := 7
  /** `random.randint(1, 10) <= 1`: a slot is mutated with probability 10%. */
  const MutationThreshold: nat := 1

  /** The three draws of one slot's mutation, in the order they are drawn:
      the 1..10 test, the index of the new action, then the gene position.
      The assignment's right-hand side is evaluated before its subscript. */
  datatype MutationDraws = MutationDraws(test: nat, pick: nat, position: nat)

  predicate MutationInRange(m: MutationDraws, length: nat, possible: seq<Action>)
  {
    1 <= m.test <= 10 && m.position < length && m.pick < |possible|
  }

  /**
   * Builds one child gene by gene: with the coin `genes[k]` at 0 the gene
   * comes from the first parent, otherwise from the second.
   */
  method Crossover(parent1: seq<Action>, parent2: seq<Action>, genes: seq<nat>) returns (child: seq<Action>)
    requires |parent1| == |parent2| == |genes|
    requires forall k :: 0 <= k < |genes| ==> genes[k] <= 1
    ensures |child| == |genes|
    ensures forall k :: 0 <= k < |child| ==> child[k] == if genes[k] == 0 then parent1[k] else parent2[k]
  {
    child := [];
    var k := 0;
    while k < |genes|
      invariant k <= |genes| && |child| == k
      invariant forall j :: 0 <= j < k ==> child[j] == if genes[j] == 0 then parent1[j] else parent2[j]
    {
      if genes[k] == 0 {
        child := child + [parent1[k]];
      } else {
        child := child + [parent2[k]];
      }
      k := k + 1;
    }
  }

  /** Every crossover gene is one of the two parents' genes at that position,
      so a child of parents drawn from `possible` is drawn from `possible`. */
  lemma CrossoverGenesFromParents(parent1: seq<Action>, parent2: seq<Action>, genes: seq<nat>, child: seq<Action>, possible: seq<Action>)
    requires |parent1| == |parent2| == |genes| == |child|
    requires forall k :: 0 <= k < |child| ==> child[k] == if genes[k] == 0 then parent1[k] else parent2[k]
    ensures forall k :: 0 <= k < |child| ==> child[k] == parent1[k] || child[k] == parent2[k]
    ensures AllPossible(parent1, possible) && AllPossible(parent2, possible) ==> AllPossible(child, possible)
  {
  }

  /** Well-formedness of the arguments of `MutatedGene`. */
  ghost predicate MutationFrame(slots: seq<array<Action>>, before: seq<seq<Action>>, possible: seq<Action>, muts: seq<MutationDraws>)
  {
    |before| == |slots| && |muts| == |slots| &&
    forall j :: 0 <= j < |muts| ==> muts[j].pick < |possible|
  }

  /**
   * Gene `k` of slot `i` after the mutation loop processed slots `0 .. n - 1`,
   * given the contents `before` the loop: the value of the last write among
   * those slots that hold the same list as slot `i` and mutate position `k`.
   */
  ghost function MutatedGene(slots: seq<array<Action>>, before: seq<seq<Action>>, possible: seq<Action>,
                             muts: seq<MutationDraws>, n: nat, i: nat, k: nat): Action
    requires MutationFrame(slots, before, possible, muts)
    requires n <= |slots| && i < |slots| && k < |before[i]|
  {
    if n == 0 then before[i][k]
    else if slots[n - 1] == slots[i] && muts[n - 1].test <= MutationThreshold && muts[n - 1].position == k
    then possible[muts[n - 1].pick]
    else MutatedGene(slots, before, possible, muts, n - 1, i, k)
  }

  /** The state after the whole mutation step: every gene of every slot is
      as `MutatedGene` says once all slots were processed. */
  ghost predicate MutationDone(slots: seq<array<Action>>, before: seq<seq<Action>>, possible: seq<Action>, muts: seq<MutationDraws>)
    reads set i | 0 <= i < |slots| :: slots[i]
  {
    MutationFrame(slots, before, possible, muts) &&
    (forall i :: 0 <= i < |slots| ==> slots[i].Length == |before[i]|) &&
    forall i, k :: 0 <= i < |slots| && 0 <= k < |before[i]| ==>
      slots[i][k] == MutatedGene(slots, before, possible, muts, |slots|, i, k)
  }

  /** Mutation only ever writes possible actions. */
  lemma {:induction false} MutatedGenePossible(slots: seq<array<Action>>, before: seq<seq<Action>>, possible: seq<Action>,
                                               muts: seq<MutationDraws>, n: nat, i: nat, k: nat)
    requires MutationFrame(slots, before, possible, muts)
    requires n <= |slots| && i < |slots| && k < |before[i]|
    requires AllPossible(before[i], possible)
    ensures MutatedGene(slots, before, possible, muts, n, i, k) in possible
  {
    if n > 0 {
      MutatedGenePossible(slots, before, possible, muts, n - 1, i, k);
    }
  }

  /** A slot whose list no other slot holds receives at most one write, its
      own: position `position` becomes `possible[pick]` when its test passes,
      and every other gene keeps its value. */
  lemma {:induction false} MutatedGeneUnaliased(slots: seq<array<Action>>, before: seq<seq<Action>>, possible: seq<Action>,
                                                muts: seq<MutationDraws>, n: nat, i: nat, k: nat)
    requires MutationFrame(slots, before, possible, muts)
    requires n <= |slots| && i < |slots| && k < |before[i]|
    requires forall j :: 0 <= j < |slots| && j != i ==> slots[j] != slots[i]
    ensures MutatedGene(slots, before, possible, muts, n, i, k) ==
            if i < n && muts[i].test <= MutationThreshold && muts[i].position == k
            then possible[muts[i].pick] else before[i][k]
  {
    if n > 0 {
      MutatedGeneUnaliased(slots, before, possible, muts, n - 1, i, k);
    }
  }

  /** Two slots holding the same list end with the same contents. */
  lemma {:induction false} MutatedGeneAliased(slots: seq<array<Action>>, before: seq<seq<Action>>, possible: seq<Action>,
                                              muts: seq<MutationDraws>, n: nat, i: nat, j: nat, k: nat)
    requires MutationFrame(slots, before, possible, muts)
    requires n <= |slots| && i < |slots| && j < |slots| && k < |before[i]|
    requires slots[i] == slots[j] && before[i] == before[j]
    ensures MutatedGene(slots, before, possible, muts, n, i, k) == MutatedGene(slots, before, possible, muts, n, j, k)
  {
    if n > 0 {
      MutatedGeneAliased(slots, before, possible, muts, n - 1, i, j, k);
    }
  }

  /** The write made through slot `j` shows in every slot holding the same
      list, unless a later slot holding that list overwrites the same position:
      one list can thus receive the writes of several slots. */
  lemma {:induction false} MutatedGeneSharedWrite(slots: seq<array<Action>>, before: seq<seq<Action>>, possible: seq<Action>,
                                                  muts: seq<MutationDraws>, n: nat, i: nat, j: nat, k: nat)
    requires MutationFrame(slots, before, possible, muts)
    requires j < n <= |slots| && i < |slots| && k < |before[i]|
    requires slots[j] == slots[i] && muts[j].test <= MutationThreshold && muts[j].position == k
    requires forall m :: j < m < n && slots[m] == slots[i] ==> !(muts[m].test <= MutationThreshold && muts[m].position == k)
    ensures MutatedGene(slots, before, possible, muts, n, i, k) == possible[muts[j].pick]
  {
    if n - 1 > j {
      MutatedGeneSharedWrite(slots, before, possible, muts, n - 1, i, j, k);
    }
  }
}
