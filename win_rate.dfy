/** The win-rate aggregator (`compute_winrate_matrix`): per (reviewer,
    contestant) credit and observation counts, then their ratio with a neutral
    0.5 where nothing was observed. */
module WinRate {
  import opened Judgments

  /** Credit one judgment gives to `k = (reviewer, contestant)`: `Transform(-s)`
      for the contestant in position 1 and `Transform(s)` for the one in
      position 2 (both, when a model is compared with itself). */
  function JudgmentCredit(j: Judgment, k: Key): real
  {
    (if k == (j.reviewer, j.modelA) then Transform(-j.score) else 0.0)
    + (if k == (j.reviewer, j.modelB) then Transform(j.score) else 0.0)
  }

  /** Observations one judgment adds to `k`. */
  function JudgmentCount(j: Judgment, k: Key): nat
  {
    (if k == (j.reviewer, j.modelA) then 1 else 0)
    + (if k == (j.reviewer, j.modelB) then 1 else 0)
  }

  /** `counts[reviewer][contestant]` after folding the judgments in order. */
  function Credit(reviews: seq<Judgment>, k: Key): real
  {
    if |reviews| == 0 then 0.0
    else Credit(reviews[..|reviews| - 1], k) + JudgmentCredit(reviews[|reviews| - 1], k)
  }

  /** `totals[reviewer][contestant]` after folding the judgments in order. */
  function Observations(reviews: seq<Judgment>, k: Key): nat
  {
    if |reviews| == 0 then 0
    else Observations(reviews[..|reviews| - 1], k) + JudgmentCount(reviews[|reviews| - 1], k)
  }

  /** The matrix entry for `k`: mean credit, or 0.5 with no observations. */
  function Rate(reviews: seq<Judgment>, k: Key): real
  {
    var n := Observations(reviews, k);
    if n > 0 then Credit(reviews, k) / n as real else 0.5
  }

  function GetOr<V>(m: map<Key, V>, k: Key, default: V): V
  {
    if k in m then m[k] else default
  }

  /** `compute_winrate_matrix`: one pass over the judgments updating the two
      tables, then the full table over `models` x `models`, row = reviewer,
      column = contestant. */
  method ComputeWinRateMatrix(reviews: seq<Judgment>, models: seq<string>) returns (w: seq<seq<real>>)
    ensures |w| == |models|
    ensures forall r :: 0 <= r < |w| ==> |w[r]| == |models|
    ensures forall r, c :: 0 <= r < |models| && 0 <= c < |models| ==>
              w[r][c] == Rate(reviews, (models[r], models[c]))
    ensures forall r, c :: 0 <= r < |models| && 0 <= c < |models| ==>
              (Observations(reviews, (models[r], models[c])) == 0 ==> w[r][c] == 0.5)
    ensures AllValid(reviews) ==>
              forall r, c :: 0 <= r < |models| && 0 <= c < |models| ==> 0.0 <= w[r][c] <= 1.0
  {
    var counts: map<Key, real> := map[];
    var totals: map<Key, nat> := map[];
    for i := 0 to |reviews|
      invariant forall k :: GetOr(counts, k, 0.0) == Credit(reviews[..i], k)
      invariant forall k :: GetOr(totals, k, 0) == Observations(reviews[..i], k)
    {
      var j := reviews[i];
      var ka, kb := (j.reviewer, j.modelA), (j.reviewer, j.modelB);
      counts := counts[ka := GetOr(counts, ka, 0.0) + Transform(-j.score)];
      counts := counts[kb := GetOr(counts, kb, 0.0) + Transform(j.score)];
      totals := totals[ka := GetOr(totals, ka, 0) + 1];
      totals := totals[kb := GetOr(totals, kb, 0) + 1];
      assert reviews[..i + 1][..i] == reviews[..i];
    }
    assert reviews[..|reviews|] == reviews;
    w := seq(|models|, r requires 0 <= r < |models| =>
           seq(|models|, c requires 0 <= c < |models| =>
             var k := (models[r], models[c]);
             if GetOr(totals, k, 0) > 0 then GetOr(counts, k, 0.0) / GetOr(totals, k, 0) as real else 0.5));
    forall r, c | 0 <= r < |models| && 0 <= c < |models| && AllValid(reviews)
      ensures 0.0 <= w[r][c] <= 1.0
    {
      RateBounds(reviews, (models[r], models[c]));
    }
  }

  /** With every score in {-1, 0, 1}, the credit to a pair lies between zero
      and its number of observations. */
  lemma {:induction false} CreditBounds(reviews: seq<Judgment>, k: Key)
    requires AllValid(reviews)
    ensures 0.0 <= Credit(reviews, k) <= Observations(reviews, k) as real
  {
    if |reviews| > 0 {
      var last := reviews[|reviews| - 1];
      assert ValidScore(last.score) && ValidScore(-last.score);
      CreditBounds(reviews[..|reviews| - 1], k);
    }
  }

  /** Every win rate lies in [0, 1] when every score is in {-1, 0, 1}. */
  lemma RateBounds(reviews: seq<Judgment>, k: Key)
    requires AllValid(reviews)
    ensures 0.0 <= Rate(reviews, k) <= 1.0
  {
    CreditBounds(reviews, k);
    var n := Observations(reviews, k) as real;
    if n > 0.0 {
      var c := Credit(reviews, k);
      UnitRatio(c, n);
    }
  }

  lemma UnitRatio(c: real, n: real)
    requires 0.0 <= c <= n && 0.0 < n
    ensures 0.0 <= c / n <= 1.0
  {
    var q := c / n;
    assert q * n == c;
    assert (q - 1.0) * n == c - n <= 0.0;
  }

  /** Two judgment sequences whose judgments contribute alike, position by
      position, accumulate the same tables. */
  lemma {:induction false} SameContributions(rs: seq<Judgment>, qs: seq<Judgment>, k: Key)
    requires |rs| == |qs|
    requires forall i :: 0 <= i < |rs| ==>
               JudgmentCredit(rs[i], k) == JudgmentCredit(qs[i], k) &&
               JudgmentCount(rs[i], k) == JudgmentCount(qs[i], k)
    ensures Credit(rs, k) == Credit(qs, k)
    ensures Observations(rs, k) == Observations(qs, k)
  {
    if |rs| > 0 {
      SameContributions(rs[..|rs| - 1], qs[..|qs| - 1], k);
    }
  }

  /** Recording a verdict from the other side contributes exactly as before. */
  lemma FlipContributesAlike(j: Judgment, k: Key)
    ensures JudgmentCredit(Flip(j), k) == JudgmentCredit(j, k)
    ensures JudgmentCount(Flip(j), k) == JudgmentCount(j, k)
  {
  }

  /** Replacing judgment `(a, b, s)` at position `i` by `(b, a, -s)` leaves
      every credit, every count and hence every win rate unchanged. */
  lemma FlipOneKeepsRates(reviews: seq<Judgment>, i: nat, k: Key)
    requires i < |reviews|
    ensures Credit(reviews[i := Flip(reviews[i])], k) == Credit(reviews, k)
    ensures Observations(reviews[i := Flip(reviews[i])], k) == Observations(reviews, k)
    ensures Rate(reviews[i := Flip(reviews[i])], k) == Rate(reviews, k)
  {
    var qs := reviews[i := Flip(reviews[i])];
    forall p | 0 <= p < |reviews|
      ensures JudgmentCredit(qs[p], k) == JudgmentCredit(reviews[p], k)
      ensures JudgmentCount(qs[p], k) == JudgmentCount(reviews[p], k)
    {
      FlipContributesAlike(reviews[p], k);
    }
    SameContributions(qs, reviews, k);
  }

  /** Swapping the two contestants and negating the score in every judgment
      leaves every win rate unchanged. */
  lemma FlipAllKeepsRates(reviews: seq<Judgment>, k: Key)
    ensures Credit(FlipAll(reviews), k) == Credit(reviews, k)
    ensures Observations(FlipAll(reviews), k) == Observations(reviews, k)
    ensures Rate(FlipAll(reviews), k) == Rate(reviews, k)
  {
    var qs := FlipAll(reviews);
    forall p | 0 <= p < |reviews|
      ensures JudgmentCredit(qs[p], k) == JudgmentCredit(reviews[p], k)
      ensures JudgmentCount(qs[p], k) == JudgmentCount(reviews[p], k)
    {
      FlipContributesAlike(reviews[p], k);
    }
    SameContributions(qs, reviews, k);
  }
}
