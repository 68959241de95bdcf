/** `run_peer_rank` as a whole: the solved weights, the final scores they
    give and the ranking, plus the properties that tie the stages together. */
module PeerRank {
  import opened Judgments
  import opened Universe
  import opened WinRate
  import opened RealSeq
  import opened Solver
  import opened Ranking

  /** What `run_peer_rank` returns: the ranking, the final score of each
      model and the final weight of each model (both aligned with `models`). */
  datatype Report = Report(ranking: seq<(string, real)>, finalScores: seq<real>, alpha: seq<real>)

  /** `run_peer_rank(winrates, models, max_iter, tol)`. The weights, scores
      and matrix are dictionaries keyed by model name, so `models` lists
      distinct names; `extract_models` hands them over sorted. */
  method RunPeerRank(w: seq<seq<real>>, models: seq<string>, maxIter: int, tol: real) returns (r: Result<Report>)
    requires Square(w, |models|) && StrictlyIncreasing(models)
    ensures r.Err? <==> Solve(w, |models|, maxIter, tol).Err?
    ensures r.Err? ==> r.error == Solve(w, |models|, maxIter, tol).error
    ensures r.Ok? ==> r.value.alpha == Solve(w, |models|, maxIter, tol).value
    ensures r.Ok? ==> |r.value.alpha| == |models| && |r.value.finalScores| == |models|
    ensures r.Ok? ==> r.value.finalScores == Scores(r.value.alpha, w)
    ensures r.Ok? ==> r.value.ranking == Rank(models, r.value.finalScores)
    ensures r.Ok? ==> r.value.alpha == Ones(|models|) || IsDistribution(r.value.alpha)
    ensures r.Ok? ==> Leaderboard(r.value.ranking)
  {
    var weights := SolveWeights(w, |models|, maxIter, tol);
    SolveOutcome(w, |models|, maxIter, tol);
    if weights.Err? {
      return Err(weights.error);
    }
    var alpha := weights.value;
    var finalScores := Scores(alpha, w);
    TiesInNameOrder(models, finalScores);
    r := Ok(Report(Rank(models, finalScores), finalScores, alpha));
  }

  /** `run_peer_rank(winrates, models)` with the default arguments of line 56,
      as the entry point calls it. */
  method RunPeerRankWithDefaults(w: seq<seq<real>>, models: seq<string>) returns (r: Result<Report>)
    requires Square(w, |models|) && StrictlyIncreasing(models)
    ensures r.Err? <==> Solve(w, |models|, DefaultMaxIter, DefaultTol).Err?
    ensures r.Err? ==> r.error == Solve(w, |models|, DefaultMaxIter, DefaultTol).error
    ensures r.Ok? ==> r.value.alpha == Solve(w, |models|, DefaultMaxIter, DefaultTol).value
    ensures r.Ok? ==> |r.value.alpha| == |models| && |r.value.finalScores| == |models|
    ensures r.Ok? ==> r.value.finalScores == Scores(r.value.alpha, w)
    ensures r.Ok? ==> r.value.ranking == Rank(models, r.value.finalScores)
    ensures r.Ok? ==> Leaderboard(r.value.ranking)
  {
    r := RunPeerRank(w, models, DefaultMaxIter, DefaultTol);
  }

  /** A ranking read top to bottom: scores never increase, and equal scores
      appear in name order. */
  predicate Leaderboard(ranking: seq<(string, real)>)
  {
    && (forall p, q :: 0 <= p < q < |ranking| ==> ranking[p].1 >= ranking[q].1)
    && (forall p, q :: 0 <= p < q < |ranking| && ranking[p].1 == ranking[q].1 ==>
          Below(ranking[p].0, ranking[q].0))
  }

  /** Over a sorted universe, scores never increase down the ranking and
      equal scores are ranked in name order. */
  lemma TiesInNameOrder(models: seq<string>, scores: seq<real>)
    requires |models| == |scores| && StrictlyIncreasing(models)
    ensures Leaderboard(Rank(models, scores))
  {
    RankIsStableSort(models, scores);
  }

  /** With rates in [0, 1], the final scores lie in [0, 1] for a committed
      weighting and in [0, n] for the all-ones start: the two kinds of
      weights a run returns (`Solver.SolveOutcome`). */
  lemma FinalScoresBounded(w: seq<seq<real>>, alpha: seq<real>)
    requires Square(w, |alpha|)
    requires forall r, c :: 0 <= r < |alpha| && 0 <= c < |alpha| ==> 0.0 <= w[r][c] <= 1.0
    requires alpha == Ones(|alpha|) || IsDistribution(alpha)
    ensures forall c :: 0 <= c < |alpha| ==>
              0.0 <= Scores(alpha, w)[c] <= (if alpha == Ones(|alpha|) then |alpha| as real else 1.0)
  {
    SumConstant(Ones(|alpha|), 1.0);
    forall c | 0 <= c < |alpha|
      ensures 0.0 <= Scores(alpha, w)[c] <= Sum(alpha)
    {
      WeightedBounds(alpha, w, c);
    }
  }

  /** Recording every verdict from the other side (contestants swapped,
      score negated) yields the same universe and the same win rates, and
      hence the same solver input and outputs. */
  lemma FlipLeavesInputsUnchanged(reviews: seq<Judgment>, models: seq<string>, flippedModels: seq<string>)
    requires StrictlyIncreasing(models)
    requires forall x :: x in models <==> x in Names(reviews)
    requires StrictlyIncreasing(flippedModels)
    requires forall x :: x in flippedModels <==> x in Names(FlipAll(reviews))
    ensures flippedModels == models
    ensures forall r, c :: 0 <= r < |models| && 0 <= c < |models| ==>
              Rate(FlipAll(reviews), (models[r], models[c])) == Rate(reviews, (models[r], models[c]))
  {
    FlipKeepsNames(reviews);
    SortedUnique(models, flippedModels);
    forall r, c | 0 <= r < |models| && 0 <= c < |models|
      ensures Rate(FlipAll(reviews), (models[r], models[c])) == Rate(reviews, (models[r], models[c]))
    {
      FlipAllKeepsRates(reviews, (models[r], models[c]));
    }
  }
}
