/**
 * Linear rank selection as `GeneticAgent.selectRank` performs it. The ranked
 * population is in ascending order of evaluation, so index `i` (0-based) has
 * rank `i + 1` and is meant to be chosen with weight `i + 1`. One uniform draw
 * from `1 .. P * (P + 1) / 2` is walked down from the best index, and index
 * `i` is chosen by exactly the draws in `(Above(P, i + 1), Above(P, i)]`.
 */
module RankSelection {

  /** `P * (P + 1) / 2`: the sum of the ranks `1 .. P`, the largest draw. */
  function SumOfRanks(P: nat): nat
  {
    P * (P + 1) / 2
  }

  /** The summed weights of the indices `i .. P - 1`, index `k` weighing `k + 1`. */
  function Above(P: nat, i: nat): nat
    requires i <= P
    decreases P - i
  {
    if i == P then 0 else (i + 1) + Above(P, i + 1)
  }

  /** Draw `draw` selects index `i` of a ranked population of size `P`. */
  ghost predicate Selects(P: nat, draw: int, i: nat)
  {
    i < P && Above(P, i + 1) < draw <= Above(P, i)
  }

  lemma {:induction false} AboveClosedForm(P: nat, i: nat)
    requires i <= P
    ensures 2 * Above(P, i) == P * (P + 1) - i * (i + 1)
    decreases P - i
  {
    if i < P {
      AboveClosedForm(P, i + 1);
      calc {
        2 * Above(P, i);
        2 * (i + 1) + 2 * Above(P, i + 1);
        2 * (i + 1) + P * (P + 1) - (i + 1) * (i + 2);
        { assert (i + 1) * (i + 2) == (i + 1) * i + 2 * (i + 1); }
        P * (P + 1) - i * (i + 1);
      }
    }
  }

  /** The weights of all indices add up to the largest draw, and every tail
      sum is at most that. */
  lemma AboveBounds(P: nat, i: nat)
    requires i <= P
    ensures Above(P, 0) == SumOfRanks(P)
    ensures Above(P, i) <= SumOfRanks(P)
  {
    AboveClosedForm(P, 0);
    AboveClosedForm(P, i);
    assert i * (i + 1) >= 0;
  }

  lemma {:induction false} AboveAntitone(P: nat, i: nat, j: nat)
    requires i <= j <= P
    ensures Above(P, j) <= Above(P, i)
    decreases j - i
  {
    if i < j {
      AboveAntitone(P, i + 1, j);
    }
  }

  /** No draw selects two indices. */
  lemma SelectsUnique(P: nat, draw: int, i: nat, j: nat)
    requires Selects(P, draw, i) && Selects(P, draw, j)
    ensures i == j
  {
    if i < j {
      AboveAntitone(P, i + 1, j);
    } else if j < i {
      AboveAntitone(P, j + 1, i);
    }
  }

  /** The draws `lo + 1 .. hi`. */
  ghost function DrawRange(lo: int, hi: int): set<int>
    decreases hi - lo
  {
    if hi <= lo then {} else DrawRange(lo, hi - 1) + {hi}
  }

  lemma {:induction false} DrawRangeSpec(lo: int, hi: int)
    requires lo <= hi
    ensures |DrawRange(lo, hi)| == hi - lo
    ensures forall r :: r in DrawRange(lo, hi) <==> lo < r <= hi
    decreases hi - lo
  {
    if lo < hi {
      DrawRangeSpec(lo, hi - 1);
    }
  }

  /** Linear rank weighting: of the draws `1 .. P * (P + 1) / 2`, exactly
      `i + 1` select index `i`. */
  lemma DrawsPerIndex(P: nat, i: nat)
    requires i < P
    ensures |set r: int | 1 <= r <= SumOfRanks(P) && Selects(P, r, i)| == i + 1
  {
    AboveBounds(P, i);
    AboveBounds(P, i + 1);
    DrawRangeSpec(Above(P, i + 1), Above(P, i));
    assert (set r: int | 1 <= r <= SumOfRanks(P) && Selects(P, r, i))
        == DrawRange(Above(P, i + 1), Above(P, i));
  }

  /** The draws `1 .. P` all select the best-ranked index `P - 1`, and the
      largest draw alone selects the worst-ranked index `0`. */
  lemma SelectionExtremes(P: nat, draw: int)
    requires P >= 1
    ensures Selects(P, draw, P - 1) <==> 1 <= draw <= P
    ensures Selects(P, draw, 0) <==> SumOfRanks(P) - 1 < draw <= SumOfRanks(P)
  {
    AboveBounds(P, 0);
    assert Above(P, P - 1) == P;
    if P > 1 {
      AboveClosedForm(P, 1);
    }
  }
}
