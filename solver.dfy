/** The Peer Rank fixed-point iteration of `run_peer_rank`: reviewer weights
    `alpha` are refined from the weighted scores they induce, for at most
    `maxIter` rounds or until an L1 step falls below `tol`. */
module Solver {
  import opened RealSeq

  /** The guard added to the min-max denominator. */
  const Eps: real := 0.00000001
  const DefaultMaxIter: int := 20
  const DefaultTol: real := 0.0001

  /** Ways a run produces no usable weights. `EmptyUniverse`: the minimum of
      an empty score array is taken. `FlatScores`: every score of an
      iteration is equal, so every normalised score is zero and the weights
      are zero divided by zero. */
  datatype SolveError = EmptyUniverse | FlatScores

  datatype Result<T> = Ok(value: T) | Err(error: SolveError)

  /** `w[r][c]` is the win rate reviewer `r` gives contestant `c`. */
  predicate Square(w: seq<seq<real>>, n: nat) {
    |w| == n && forall r :: 0 <= r < n ==> |w[r]| == n
  }

  /** `sum(alpha[r] * winrates[r][c] for r in models)`. */
  function Weighted(alpha: seq<real>, w: seq<seq<real>>, c: nat): real
    requires |w| == |alpha|
    requires forall r :: 0 <= r < |w| ==> c < |w[r]|
  {
    if |alpha| == 0 then 0.0 else alpha[0] * w[0][c] + Weighted(alpha[1..], w[1..], c)
  }

  /** The weighted opinion of all reviewers about each contestant. */
  function Scores(alpha: seq<real>, w: seq<seq<real>>): seq<real>
    requires Square(w, |alpha|)
  {
    seq(|alpha|, c requires 0 <= c < |alpha| => Weighted(alpha, w, c))
  }

  function Ones(n: nat): seq<real> {
    seq(n, _ => 1.0)
  }

  /** Min-max normalisation with the `Eps` guard (line 66), given the
      minimum `lo` and maximum `hi` of line 65. */
  function MinMaxNormalize(s: seq<real>, lo: real, hi: real): (norm: seq<real>)
    requires lo <= hi
    ensures |norm| == |s|
  {
    seq(|s|, m requires 0 <= m < |s| => (s[m] - lo) / (hi - lo + Eps))
  }

  /** With bounds `lo <= s[m] <= hi` for every entry (the true minimum and
      maximum, as at line 65), every normalised entry lands in [0, 1), is zero
      exactly when its score equals `lo`, and the order of the scores is
      kept. */
  lemma MinMaxNormalizeBounds(s: seq<real>, lo: real, hi: real)
    requires lo <= hi
    requires forall m :: 0 <= m < |s| ==> lo <= s[m] <= hi
    ensures forall m :: 0 <= m < |s| ==> 0.0 <= MinMaxNormalize(s, lo, hi)[m] < 1.0
    ensures forall m :: 0 <= m < |s| ==> (MinMaxNormalize(s, lo, hi)[m] == 0.0 <==> s[m] == lo)
    ensures forall i, j :: 0 <= i < |s| && 0 <= j < |s| && s[i] <= s[j] ==>
              MinMaxNormalize(s, lo, hi)[i] <= MinMaxNormalize(s, lo, hi)[j]
  {
    var norm := MinMaxNormalize(s, lo, hi);
    forall m | 0 <= m < |s|
      ensures 0.0 <= norm[m] < 1.0
      ensures norm[m] == 0.0 <==> s[m] == lo
    {
      NormalizedEntry(s[m], lo, hi);
    }
    forall i, j | 0 <= i < |s| && 0 <= j < |s| && s[i] <= s[j]
      ensures norm[i] <= norm[j]
    {
      NormalizedOrder(s[i], s[j], lo, hi);
    }
  }

  lemma NormalizedEntry(x: real, lo: real, hi: real)
    requires lo <= x <= hi
    ensures 0.0 <= (x - lo) / (hi - lo + Eps) < 1.0
    ensures (x - lo) / (hi - lo + Eps) == 0.0 <==> x == lo
  {
    var d := hi - lo + Eps;
    var q := (x - lo) / d;
    assert q * d == x - lo;
    assert (1.0 - q) * d == hi - x + Eps;
  }

  lemma NormalizedOrder(x: real, y: real, lo: real, hi: real)
    requires x <= y && lo <= hi
    ensures (x - lo) / (hi - lo + Eps) <= (y - lo) / (hi - lo + Eps)
  {
    var d := hi - lo + Eps;
    assert ((y - lo) / d - (x - lo) / d) * d == y - x;
  }

  /** Divides every entry by the total (lines 69-70); a zero total has no
      such rescaling. */
  function Renormalize(norm: seq<real>): (r: Result<seq<real>>)
    ensures r.Ok? ==> |r.value| == |norm|
    ensures r.Err? ==> r.error == FlatScores
  {
    var total := Sum(norm);
    if total == 0.0 then Err(FlatScores)
    else Ok(seq(|norm|, m requires 0 <= m < |norm| => norm[m] / total))
  }

  /** On non-negative entries the rescaling fails exactly when every entry is
      zero; otherwise it is a distribution with zeros exactly where the
      entries were zero. */
  lemma RenormalizeDistribution(norm: seq<real>)
    requires NonNegative(norm)
    ensures Renormalize(norm).Err? <==> forall m :: 0 <= m < |norm| ==> norm[m] == 0.0
    ensures Renormalize(norm).Ok? ==> IsDistribution(Renormalize(norm).value)
    ensures Renormalize(norm).Ok? ==> forall m :: 0 <= m < |norm| ==>
              (Renormalize(norm).value[m] == 0.0 <==> norm[m] == 0.0)
  {
    var total := Sum(norm);
    SumNonNegative(norm);
    if total != 0.0 {
      var next := Renormalize(norm).value;
      SumDivided(norm, next, total);
      DivideBySelf(total);
      forall m | 0 <= m < |norm|
        ensures 0.0 <= next[m]
        ensures next[m] == 0.0 <==> norm[m] == 0.0
      {
        NonNegativeQuotient(norm[m], total);
      }
    }
  }

  lemma DivideBySelf(x: real)
    requires x != 0.0
    ensures x / x == 1.0
  {
  }

  lemma NonNegativeQuotient(x: real, t: real)
    requires 0.0 <= x && 0.0 < t
    ensures 0.0 <= x / t
    ensures x / t == 0.0 <==> x == 0.0
  {
    assert (x / t) * t == x;
  }

  /** One round of the iteration: scores, min-max normalisation and
      renormalisation to weights (`new_alpha`). */
  function Step(w: seq<seq<real>>, alpha: seq<real>): (r: Result<seq<real>>)
    requires Square(w, |alpha|)
    ensures r.Ok? ==> |r.value| == |alpha|
    ensures r == Err(EmptyUniverse) <==> |alpha| == 0
  {
    var s := Scores(alpha, w);
    if |s| == 0 then Err(EmptyUniverse)
    else Renormalize(MinMaxNormalize(s, Min(s), Max(s)))
  }

  /** A round fails exactly when the universe is empty or all scores are
      equal; otherwise its weights are a distribution that gives zero weight
      exactly to the competitors with the minimal score. */
  lemma StepOutcome(w: seq<seq<real>>, alpha: seq<real>)
    requires Square(w, |alpha|)
    ensures Step(w, alpha).Err? <==> |alpha| == 0 || Flat(Scores(alpha, w))
    ensures Step(w, alpha).Ok? ==> IsDistribution(Step(w, alpha).value)
    ensures Step(w, alpha).Ok? ==> forall m :: 0 <= m < |alpha| ==>
              (Step(w, alpha).value[m] == 0.0 <==> Scores(alpha, w)[m] == Min(Scores(alpha, w)))
  {
    var s := Scores(alpha, w);
    if |s| > 0 {
      MinMaxNormalizeBounds(s, Min(s), Max(s));
      RenormalizeDistribution(MinMaxNormalize(s, Min(s), Max(s)));
      FlatIffAllMinimal(s);
    }
  }

  lemma FlatIffAllMinimal(s: seq<real>)
    requires |s| > 0
    ensures Flat(s) <==> forall m :: 0 <= m < |s| ==> s[m] == Min(s)
  {
    var k :| 0 <= k < |s| && Min(s) == s[k];
  }

  /** The loop of `run_peer_rank` from weights `alpha` with `fuel` rounds left.
      On convergence the weights in hand are kept and `new_alpha` is dropped. */
  function Iterate(w: seq<seq<real>>, alpha: seq<real>, fuel: nat, tol: real): Result<seq<real>>
    requires Square(w, |alpha|)
    decreases fuel
  {
    if fuel == 0 then Ok(alpha)
    else
      match Step(w, alpha)
      case Err(e) => Err(e)
      case Ok(next) =>
        if L1Distance(next, alpha) < tol then Ok(alpha)
        else Iterate(w, next, fuel - 1, tol)
  }

  /** The weights `run_peer_rank` ends with: iterate from all-ones weights for
      `max(maxIter, 0)` rounds. */
  function Solve(w: seq<seq<real>>, n: nat, maxIter: int, tol: real): Result<seq<real>>
    requires Square(w, n)
  {
    Iterate(w, Ones(n), if maxIter > 0 then maxIter else 0, tol)
  }

  /** One round of the loop body (lines 61-70): the weighted scores, their
      minimum and maximum, min-max normalisation and renormalisation. */
  method Round(w: seq<seq<real>>, alpha: seq<real>) returns (outcome: Result<seq<real>>)
    requires Square(w, |alpha|)
    ensures outcome == Step(w, alpha)
    ensures outcome.Ok? ==> |outcome.value| == |alpha| && IsDistribution(outcome.value)
    ensures outcome.Err? <==> |alpha| == 0 || Flat(Scores(alpha, w))
  {
    var scores := Scores(alpha, w);
    if |scores| == 0 {
      return Err(EmptyUniverse);
    }
    var minV, maxV := Min(scores), Max(scores);
    var norm := MinMaxNormalize(scores, minV, maxV);
    outcome := Renormalize(norm);
    StepOutcome(w, alpha);
  }

  /** The loop at lines 57-77: at most `maxIter` rounds; a round either fails,
      converges (keeping the current weights) or commits `new_alpha`. The
      weights returned are the all-ones start (nothing committed) or a
      committed distribution. */
  method SolveWeights(w: seq<seq<real>>, n: nat, maxIter: int, tol: real) returns (r: Result<seq<real>>)
    requires Square(w, n)
    ensures r == Solve(w, n, maxIter, tol)
    ensures r.Ok? ==> |r.value| == n
  {
    var alpha := Ones(n);
    var iteration := 0;
    ghost var fuel: nat := if maxIter > 0 then maxIter else 0;
    while iteration < maxIter
      invariant 0 <= iteration && (maxIter > 0 ==> iteration <= maxIter)
      invariant fuel == if maxIter > 0 then maxIter - iteration else 0
      invariant |alpha| == n
      invariant Solve(w, n, maxIter, tol) == Iterate(w, alpha, fuel, tol)
    {
      var outcome := Round(w, alpha);
      if outcome.Err? {
        return Err(outcome.error);
      }
      var next := outcome.value;
      var delta := L1Distance(next, alpha);
      if delta < tol {
        ConvergedKeepsPrevious(w, alpha, fuel, tol);
        break;
      }
      CommittedStepContinues(w, alpha, fuel, tol);
      alpha := next;
      iteration := iteration + 1;
      fuel := fuel - 1;
    }
    r := Ok(alpha);
  }

  /** Whatever the loop ends with is the weights it started from or a
      committed `new_alpha`, which is a distribution of the same length. */
  lemma {:induction false} IterateOutcome(w: seq<seq<real>>, alpha: seq<real>, fuel: nat, tol: real)
    requires Square(w, |alpha|)
    decreases fuel
    ensures Iterate(w, alpha, fuel, tol).Ok? ==> |Iterate(w, alpha, fuel, tol).value| == |alpha|
    ensures Iterate(w, alpha, fuel, tol).Ok? ==>
              Iterate(w, alpha, fuel, tol).value == alpha || IsDistribution(Iterate(w, alpha, fuel, tol).value)
  {
    if fuel > 0 {
      var step := Step(w, alpha);
      if step.Ok? && L1Distance(step.value, alpha) >= tol {
        StepOutcome(w, alpha);
        IterateOutcome(w, step.value, fuel - 1, tol);
      }
    }
  }

  /** The weights a run returns are all ones (nothing committed) or a
      distribution; with no rounds they are all ones; with rounds, an empty
      universe fails at the first minimum. */
  lemma SolveOutcome(w: seq<seq<real>>, n: nat, maxIter: int, tol: real)
    requires Square(w, n)
    ensures Solve(w, n, maxIter, tol).Ok? ==> |Solve(w, n, maxIter, tol).value| == n
    ensures Solve(w, n, maxIter, tol).Ok? ==>
              Solve(w, n, maxIter, tol).value == Ones(n) || IsDistribution(Solve(w, n, maxIter, tol).value)
    ensures maxIter <= 0 ==> Solve(w, n, maxIter, tol) == Ok(Ones(n))
    ensures maxIter > 0 && n == 0 ==> Solve(w, n, maxIter, tol) == Err(EmptyUniverse)
  {
    IterateOutcome(w, Ones(n), if maxIter > 0 then maxIter else 0, tol);
  }

  /** When a round's step is below the tolerance the loop stops with the
      weights it had, not with the step it just computed. */
  lemma ConvergedKeepsPrevious(w: seq<seq<real>>, alpha: seq<real>, fuel: nat, tol: real)
    requires Square(w, |alpha|) && fuel > 0
    requires Step(w, alpha).Ok? && L1Distance(Step(w, alpha).value, alpha) < tol
    ensures Iterate(w, alpha, fuel, tol) == Ok(alpha)
  {
  }

  /** When the step is not below the tolerance the loop commits it and goes
      on with one round fewer. */
  lemma CommittedStepContinues(w: seq<seq<real>>, alpha: seq<real>, fuel: nat, tol: real)
    requires Square(w, |alpha|) && fuel > 0
    requires Step(w, alpha).Ok? && L1Distance(Step(w, alpha).value, alpha) >= tol
    ensures Iterate(w, alpha, fuel, tol) == Iterate(w, Step(w, alpha).value, fuel - 1, tol)
  {
  }

  /** Every reviewer giving every contestant the same rate `v` makes each
      score the same multiple of `v`. */
  lemma {:induction false} WeightedUniform(alpha: seq<real>, w: seq<seq<real>>, c: nat, v: real)
    requires |w| == |alpha|
    requires forall r :: 0 <= r < |w| ==> c < |w[r]| && w[r][c] == v
    ensures Weighted(alpha, w, c) == Sum(alpha) * v
  {
    if |alpha| > 0 {
      WeightedUniform(alpha[1..], w[1..], c, v);
    }
  }

  /** A constant matrix (for instance, only ties, or no observations at all)
      makes every score equal, so a run with at least one round fails. */
  lemma UniformMatrixIsFlat(w: seq<seq<real>>, n: nat, v: real, maxIter: int, tol: real)
    requires Square(w, n) && n > 0 && maxIter > 0
    requires forall r, c :: 0 <= r < n && 0 <= c < n ==> w[r][c] == v
    ensures Solve(w, n, maxIter, tol) == Err(FlatScores)
  {
    var s := Scores(Ones(n), w);
    forall c | 0 <= c < n
      ensures s[c] == Sum(Ones(n)) * v
    {
      WeightedUniform(Ones(n), w, c, v);
    }
    assert Flat(s);
    StepOutcome(w, Ones(n));
  }

  /** A single competitor has a single score, which is trivially flat. */
  lemma SingleCompetitorIsFlat(w: seq<seq<real>>, maxIter: int, tol: real)
    requires Square(w, 1) && maxIter > 0
    ensures Solve(w, 1, maxIter, tol) == Err(FlatScores)
  {
    StepOutcome(w, Ones(1));
  }

  /** With non-negative weights and rates in [0, 1], each score lies between
      zero and the total weight. */
  lemma {:induction false} WeightedBounds(alpha: seq<real>, w: seq<seq<real>>, c: nat)
    requires |w| == |alpha| && NonNegative(alpha)
    requires forall r :: 0 <= r < |w| ==> c < |w[r]| && 0.0 <= w[r][c] <= 1.0
    ensures 0.0 <= Weighted(alpha, w, c) <= Sum(alpha)
  {
    if |alpha| > 0 {
      assert NonNegative(alpha[1..]);
      WeightedBounds(alpha[1..], w[1..], c);
      assert 0.0 <= alpha[0] * w[0][c] <= alpha[0] * 1.0;
      assert Sum(alpha) == alpha[0] + Sum(alpha[1..]);
    }
  }

  /** A contestant that every reviewer rates at least as high as another
      scores at least as high under any non-negative weights. */
  lemma {:induction false} WeightedMonotone(alpha: seq<real>, w: seq<seq<real>>, y: nat, z: nat)
    requires |w| == |alpha| && NonNegative(alpha)
    requires forall r :: 0 <= r < |w| ==> y < |w[r]| && z < |w[r]| && w[r][y] <= w[r][z]
    ensures Weighted(alpha, w, y) <= Weighted(alpha, w, z)
  {
    if |alpha| > 0 {
      assert NonNegative(alpha[1..]);
      WeightedMonotone(alpha[1..], w[1..], y, z);
      assert alpha[0] * w[0][y] <= alpha[0] * w[0][z];
    }
  }
}
