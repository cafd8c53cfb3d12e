/**
 * The genetic agent's ranking step: `sorted(evaluatedPopulation, key=...)`
 * orders the evaluated candidates by ascending evaluation. The sort used is
 * stable, so among equally evaluated candidates the original order is kept,
 * and the last ranked candidate is the LATEST one with the highest evaluation.
 */
module Ranking {
  import opened Simulation

  /** One evaluated population member and its score. The genetic agent's
      `member` is a copy of the member's action list; the ranking lemmas also
      rank population indices, where `member` is the index (`Candidate<nat>`). */
  datatype Candidate<T> = Candidate(member: T, evaluation: int)

  ghost predicate Ascending<T>(xs: seq<Candidate<T>>)
  {
    forall i, j :: 0 <= i < j < |xs| ==> xs[i].evaluation <= xs[j].evaluation
  }

  /** The evaluations of the candidates, in order. */
  function Evaluations<T>(xs: seq<Candidate<T>>): (scores: seq<int>)
    ensures |scores| == |xs|
    ensures forall i :: 0 <= i < |xs| ==> scores[i] == xs[i].evaluation
  {
    seq(|xs|, i requires 0 <= i < |xs| => xs[i].evaluation)
  }

  /** Prefixing a candidate no better than the head keeps a list ascending. */
  lemma AscendingCons<T>(x: Candidate<T>, xs: seq<Candidate<T>>)
    requires Ascending(xs)
    requires xs != [] ==> x.evaluation <= xs[0].evaluation
    ensures Ascending([x] + xs)
  {
    var r := [x] + xs;
    forall i, j | 0 <= i < j < |r|
      ensures r[i].evaluation <= r[j].evaluation
    {
      if i == 0 && j > 1 {
        assert xs[0].evaluation <= xs[j - 1].evaluation;
      }
    }
  }

  /** Inserts `c` after every element whose evaluation does not exceed its own. */
  function Insert<T(==)>(c: Candidate<T>, xs: seq<Candidate<T>>): (r: seq<Candidate<T>>)
    ensures multiset(r) == multiset(xs) + multiset{c}
    ensures |r| == |xs| + 1
    ensures r[0] == c || (xs != [] && r[0] == xs[0])
  {
    if xs == [] then [c]
    else if c.evaluation < xs[0].evaluation then [c] + xs
    else
      assert xs == [xs[0]] + xs[1..];
      [xs[0]] + Insert(c, xs[1..])
  }

  /** Insertion keeps an ascending list ascending. */
  lemma {:induction false} InsertAscending<T>(c: Candidate<T>, xs: seq<Candidate<T>>)
    requires Ascending(xs)
    ensures Ascending(Insert(c, xs))
  {
    if xs != [] && c.evaluation < xs[0].evaluation {
      AscendingCons(c, xs);
    } else if xs != [] {
      var rest := Insert(c, xs[1..]);
      InsertAscending(c, xs[1..]);
      AscendingCons(xs[0], rest);
    }
  }

  /** Inserting into an ascending list puts `c` last exactly when no element
      has a higher evaluation; otherwise the old last element stays last. */
  lemma {:induction false} InsertLast<T>(c: Candidate<T>, xs: seq<Candidate<T>>)
    requires Ascending(xs)
    ensures Insert(c, xs)[|xs|] == if xs == [] || xs[|xs| - 1].evaluation <= c.evaluation then c else xs[|xs| - 1]
  {
    if xs != [] && c.evaluation < xs[0].evaluation {
      assert xs[0].evaluation <= xs[|xs| - 1].evaluation;
    } else if |xs| > 1 {
      InsertLast(c, xs[1..]);
      assert xs[1..][|xs| - 2] == xs[|xs| - 1];
    }
  }

  /** The ranked population: the candidates in stable ascending order of evaluation. */
  function Ranked<T(==)>(xs: seq<Candidate<T>>): (r: seq<Candidate<T>>)
    ensures Ascending(r)
    ensures multiset(r) == multiset(xs)
    ensures |r| == |xs|
  {
    if xs == [] then []
    else
      assert xs == xs[..|xs| - 1] + [xs[|xs| - 1]];
      InsertAscending(xs[|xs| - 1], Ranked(xs[..|xs| - 1]));
      Insert(xs[|xs| - 1], Ranked(xs[..|xs| - 1]))
  }

  /** The index of the last maximum of `scores`. */
  function LatestBest(scores: seq<int>): (j: nat)
    requires |scores| > 0
    ensures j < |scores|
    ensures forall i :: 0 <= i < |scores| ==> scores[i] <= scores[j]
    ensures forall i :: j < i < |scores| ==> scores[i] < scores[j]
  {
    if |scores| == 1 then 0
    else
      var j := LatestBest(scores[..|scores| - 1]);
      if scores[j] <= scores[|scores| - 1] then |scores| - 1 else j
  }

  /** Ranking one more candidate: it ends up last exactly when the previous
      last ranked candidate is not better. */
  lemma RankedSnocLast<T>(xs: seq<Candidate<T>>)
    requires |xs| > 1
    ensures var init, c := xs[..|xs| - 1], xs[|xs| - 1];
      Ranked(xs)[|xs| - 1] == if Ranked(init)[|xs| - 2].evaluation <= c.evaluation then c else Ranked(init)[|xs| - 2]
  {
    var init, c := xs[..|xs| - 1], xs[|xs| - 1];
    assert xs == init + [c];
    InsertLast(c, Ranked(init));
  }

  /** Ranking only reorders: every ranked candidate is an evaluated one. */
  lemma RankedMembers<T>(xs: seq<Candidate<T>>)
    ensures forall j :: 0 <= j < |Ranked(xs)| ==> Ranked(xs)[j] in xs
  {
    var r := Ranked(xs);
    forall j | 0 <= j < |r|
      ensures r[j] in xs
    {
      assert r[j] in multiset(r);
    }
  }

  /** The evaluations of a prefix are the prefix of the evaluations. */
  lemma EvaluationsPrefix<T>(xs: seq<Candidate<T>>, n: nat)
    requires n <= |xs|
    ensures Evaluations(xs[..n]) == Evaluations(xs)[..n]
  {
  }

  /** The last ranked candidate has the highest evaluation, and is the latest
      candidate in population order that has it. */
  lemma {:induction false} RankedLast<T>(xs: seq<Candidate<T>>)
    requires |xs| > 0
    ensures Ranked(xs)[|xs| - 1] == xs[LatestBest(Evaluations(xs))]
  {
    if |xs| == 1 {
      assert xs == [] + [xs[0]];
      assert Ranked(xs) == Insert(xs[0], []);
    } else {
      var init, c := xs[..|xs| - 1], xs[|xs| - 1];
      RankedSnocLast(xs);
      RankedLast(init);
      EvaluationsPrefix(xs, |xs| - 1);
      var scores := Evaluations(xs);
      var j := LatestBest(Evaluations(init));
      assert init[j] == xs[j];
      assert LatestBest(scores) == if scores[j] <= scores[|xs| - 1] then |xs| - 1 else j;
    }
  }

  /** The population indices paired with their scores, in population order. */
  function Indexed(scores: seq<int>): (xs: seq<Candidate<nat>>)
    ensures |xs| == |scores|
    ensures forall i :: 0 <= i < |scores| ==> xs[i] == Candidate(i, scores[i])
  {
    seq(|scores|, i requires 0 <= i < |scores| => Candidate(i, scores[i]))
  }

  /** Every index in `idx` points into `base`, with the score `base` has there. */
  ghost predicate Consistent<T>(idx: seq<Candidate<nat>>, base: seq<Candidate<T>>)
  {
    forall j :: 0 <= j < |idx| ==> idx[j].member < |base| && idx[j].evaluation == base[idx[j].member].evaluation
  }

  /** The candidates of `base` that the indices of `idx` name, in the order of `idx`. */
  ghost function Image<T>(idx: seq<Candidate<nat>>, base: seq<Candidate<T>>): (r: seq<Candidate<T>>)
    requires Consistent(idx, base)
    ensures |r| == |idx|
    ensures forall j :: 0 <= j < |idx| ==> r[j] == base[idx[j].member]
  {
    seq(|idx|, j requires 0 <= j < |idx| && Consistent(idx, base) => base[idx[j].member])
  }

  /** The stable ascending order of the population by score: entry `k` is the
      population index of the member ranked `k`. */
  function RankOrder(scores: seq<int>): (order: seq<nat>)
    ensures |order| == |scores|
    ensures forall k :: 0 <= k < |order| ==> order[k] < |scores|
  {
    var r := Ranked(Indexed(scores));
    RankedMembers(Indexed(scores));
    seq(|r|, k requires 0 <= k < |r| => r[k].member)
  }

  /** Naming one more candidate in front names it in front. */
  lemma ImageCons<T>(x: Candidate<nat>, idx: seq<Candidate<nat>>, base: seq<Candidate<T>>)
    requires x.member < |base| && x.evaluation == base[x.member].evaluation
    requires Consistent(idx, base)
    ensures Consistent([x] + idx, base)
    ensures Image([x] + idx, base) == [base[x.member]] + Image(idx, base)
  {
    assert forall j :: 0 < j <= |idx| ==> ([x] + idx)[j] == idx[j - 1];
  }

  /** Sorting names and sorting the candidates they name agree: insertion
      compares scores only. */
  lemma {:induction false} InsertImage<T>(c: Candidate<nat>, idx: seq<Candidate<nat>>, base: seq<Candidate<T>>)
    requires c.member < |base| && c.evaluation == base[c.member].evaluation
    requires Consistent(idx, base)
    ensures Consistent(Insert(c, idx), base)
    ensures Insert(base[c.member], Image(idx, base)) == Image(Insert(c, idx), base)
  {
    var b := base[c.member];
    if idx == [] {
      ImageCons(c, idx, base);
      assert Insert(c, idx) == [c] + idx;
    } else if c.evaluation < idx[0].evaluation {
      ImageCons(c, idx, base);
      assert Insert(c, idx) == [c] + idx;
      assert Image(idx, base)[0].evaluation == idx[0].evaluation;
    } else {
      var head, tail := idx[0], idx[1..];
      assert idx == [head] + tail;
      assert Consistent(tail, base) by {
        forall j | 0 <= j < |tail| ensures tail[j] == idx[j + 1] { }
      }
      InsertImage(c, tail, base);
      var ins := Insert(c, tail);
      assert Insert(c, idx) == [head] + ins;
      ImageCons(head, ins, base);
      ImageCons(head, tail, base);
      var image := Image(idx, base);
      assert image[0].evaluation == head.evaluation;
      assert image[1..] == Image(tail, base);
    }
  }

  /** Ranking a population is ranking its indices by score and reading the
      members off. */
  lemma {:induction false} RankedImage<T>(xs: seq<Candidate<T>>)
    ensures Consistent(Ranked(Indexed(Evaluations(xs))), xs)
    ensures Ranked(xs) == Image(Ranked(Indexed(Evaluations(xs))), xs)
  {
    var n := |xs|;
    if n > 0 {
      var init := xs[..n - 1];
      var c := IndexedSnoc(xs);
      var rest := Ranked(Indexed(Evaluations(init)));
      RankedImage(init);
      ImagePrefix(rest, init, xs);
      InsertImage(c, rest, xs);
    }
  }

  /** Ranking the indices of `xs` inserts the last index into the ranked indices of its prefix. */
  lemma IndexedSnoc<T>(xs: seq<Candidate<T>>) returns (c: Candidate<nat>)
    requires |xs| > 0
    ensures c.member < |xs| && c.evaluation == xs[c.member].evaluation
    ensures Ranked(xs) == Insert(xs[c.member], Ranked(xs[..|xs| - 1]))
    ensures Ranked(Indexed(Evaluations(xs))) == Insert(c, Ranked(Indexed(Evaluations(xs[..|xs| - 1]))))
  {
    var n := |xs|;
    var scores := Evaluations(xs);
    EvaluationsPrefix(xs, n - 1);
    c := Candidate(n - 1, scores[n - 1]);
    assert Indexed(scores)[..n - 1] == Indexed(Evaluations(xs[..n - 1]));
  }

  /** Indices into a prefix of `xs` name the same candidates in `xs`. */
  lemma ImagePrefix<T>(idx: seq<Candidate<nat>>, init: seq<Candidate<T>>, xs: seq<Candidate<T>>)
    requires Consistent(idx, init) && init <= xs
    ensures Consistent(idx, xs) && Image(idx, init) == Image(idx, xs)
  {
  }

  /** The member ranked `k` is the population member `RankOrder` names. */
  lemma RankedByOrder<T>(xs: seq<Candidate<T>>)
    ensures forall k :: 0 <= k < |xs| ==> Ranked(xs)[k] == xs[RankOrder(Evaluations(xs))[k]]
  {
    RankedImage(xs);
  }

  /** No two candidates hold the same list. */
  ghost predicate DistinctLists<T>(xs: seq<Candidate<T>>)
  {
    forall i, j :: 0 <= i < j < |xs| ==> xs[i].member != xs[j].member
  }

  /** Ranking candidates with distinct lists leaves their lists distinct. */
  lemma {:induction false} RankedDistinct<T>(xs: seq<Candidate<T>>)
    requires DistinctLists(xs)
    ensures DistinctLists(Ranked(xs))
  {
    var order := RankOrder(Evaluations(xs));
    RankedByOrder(xs);
    RankOrderInjective(Evaluations(xs));
  }

  /** No population index is ranked twice. */
  lemma RankOrderInjective(scores: seq<int>)
    ensures forall k, m :: 0 <= k < m < |scores| ==> RankOrder(scores)[k] != RankOrder(scores)[m]
  {
    var xs := Indexed(scores);
    var r := Ranked(xs);
    forall k, m | 0 <= k < m < |scores|
      ensures r[k].member != r[m].member
    {
      if r[k].member == r[m].member {
        RankedMembers(xs);
        assert r[k] in xs && r[m] in xs;
        assert r[k] == r[m];
        MultiplicityOfRepeat(r, k, m);
        IndexedOnce(scores, r[k]);
        assert false;
      }
    }
  }

  /** Equally evaluated entries come in increasing order of the index they name. */
  ghost predicate StableOrder(r: seq<Candidate<nat>>)
  {
    forall k, m :: 0 <= k < m < |r| && r[k].evaluation == r[m].evaluation ==> r[k].member < r[m].member
  }

  /** Putting an entry in front keeps ties in index order when its index is
      below that of every equally evaluated entry behind it. */
  lemma StableCons(x: Candidate<nat>, rest: seq<Candidate<nat>>)
    requires StableOrder(rest)
    requires forall j :: 0 <= j < |rest| && rest[j].evaluation == x.evaluation ==> x.member < rest[j].member
    ensures StableOrder([x] + rest)
  {
    var r := [x] + rest;
    forall k, m | 0 <= k < m < |r| && r[k].evaluation == r[m].evaluation
      ensures r[k].member < r[m].member
    {
      assert r[m] == rest[m - 1];
      if k > 0 {
        assert r[k] == rest[k - 1];
      }
    }
  }

  /** Inserting an index larger than every index present keeps ties in index order. */
  lemma {:induction false} InsertStable(c: Candidate<nat>, xs: seq<Candidate<nat>>)
    requires Ascending(xs) && StableOrder(xs)
    requires forall j :: 0 <= j < |xs| ==> xs[j].member < c.member
    ensures StableOrder(Insert(c, xs))
  {
    if xs != [] && c.evaluation < xs[0].evaluation {
      assert forall j :: 0 <= j < |xs| ==> xs[0].evaluation <= xs[j].evaluation;
      StableCons(c, xs);
    } else if xs != [] {
      var tail := xs[1..];
      assert forall j :: 0 <= j < |tail| ==> tail[j] == xs[j + 1];
      InsertStable(c, tail);
      var rest := Insert(c, tail);
      forall j | 0 <= j < |rest| && rest[j].evaluation == xs[0].evaluation
        ensures xs[0].member < rest[j].member
      {
        assert rest[j] in multiset(rest);
        if rest[j] != c {
          assert rest[j] in tail;
          var i :| 0 <= i < |tail| && tail[i] == rest[j];
          assert xs[i + 1] == rest[j];
        }
      }
      StableCons(xs[0], rest);
    }
  }

  /** Ranking the indices keeps equally scored indices in population order. */
  lemma {:induction false} RankedIndexStable(scores: seq<int>)
    ensures StableOrder(Ranked(Indexed(scores)))
  {
    var n := |scores|;
    if n > 0 {
      var xs := Indexed(scores);
      var init := scores[..n - 1];
      RankedIndexStable(init);
      assert xs[..n - 1] == Indexed(init);
      var rest := Ranked(Indexed(init));
      RankedMembers(Indexed(init));
      forall j | 0 <= j < |rest|
        ensures rest[j].member < n - 1
      {
        var i :| 0 <= i < n - 1 && Indexed(init)[i] == rest[j];
      }
      assert xs == xs[..n - 1] + [xs[n - 1]];
      InsertStable(xs[n - 1], rest);
    }
  }

  /** The rank order lists the population by ascending score, and members
      with equal scores in population order: the sort is stable. Together
      with `RankOrderInjective` this fixes the order completely. */
  lemma RankOrderStable(scores: seq<int>)
    ensures forall k, m :: 0 <= k < m < |scores| ==>
      scores[RankOrder(scores)[k]] <= scores[RankOrder(scores)[m]] &&
      (scores[RankOrder(scores)[k]] == scores[RankOrder(scores)[m]] ==> RankOrder(scores)[k] < RankOrder(scores)[m])
  {
    var xs := Indexed(scores);
    var r := Ranked(xs);
    RankedMembers(xs);
    RankedIndexStable(scores);
    forall k | 0 <= k < |r|
      ensures r[k].evaluation == scores[r[k].member]
    {
      var i :| 0 <= i < |xs| && xs[i] == r[k];
    }
  }

  /** An element found at two positions occurs at least twice. */
  lemma MultiplicityOfRepeat<T>(r: seq<T>, k: nat, m: nat)
    requires k < m < |r| && r[k] == r[m]
    ensures multiset(r)[r[k]] >= 2
  {
    assert r == r[..m] + [r[m]] + r[m + 1..];
    assert r[k] in r[..m];
  }

  /** Each index occurs once among the indexed scores. */
  lemma {:induction false} IndexedOnce(scores: seq<int>, x: Candidate<nat>)
    ensures multiset(Indexed(scores))[x] <= 1
  {
    var n := |scores|;
    if n > 0 {
      IndexedOnce(scores[..n - 1], x);
      assert Indexed(scores) == Indexed(scores[..n - 1]) + [Candidate(n - 1, scores[n - 1])];
      if x == Candidate(n - 1, scores[n - 1]) {
        assert x !in Indexed(scores[..n - 1]);
      }
    }
  }
}
