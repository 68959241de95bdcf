# Peer Rank in Dafny

A model of the Peer Rank pipeline of `scripts/peer_rank.py`. In this pipeline, language models judge pairs of
answers and each other's judgments, and the pipeline turns those pairwise verdicts into a weighted leaderboard. It has four stages:

- **Competitor universe** (`extract_models`): every model name and reviewer name, without duplicates and in Python string order. This is `Universe.ExtractModels`. Python's `<` on strings is the predicate `Universe.Below`.
- **Score transform** (`score_transform`): maps a verdict in {-1, 0, 1} to the unit scale. This is `Judgments.Transform`.
- **Win-rate matrix** (`compute_winrate_matrix`): a single pass over the judgments that accumulates credit and observation counts per (reviewer, contestant) pair. The matrix entry is their ratio, or 0.5 where the pair was never observed. This is `WinRate.ComputeWinRateMatrix`, specified by the recursive `WinRate.Credit`, `WinRate.Observations` and `WinRate.Rate`.
- **Solver and ranking** (`run_peer_rank`):
  - Starting from all-ones weights, each round computes weighted scores, min-max normalises them with a `1e-8` guard, renormalises them to weights and measures the L1 step. The loop stops after `max_iter` rounds or when the step falls below `tol`, and on convergence it keeps the previous weights.
  - Final scores come from the weights, and a stable sort by descending score produces the ranking.
  - The imperative loop is `Solver.SolveWeights`, proved equal to the recursive specification `Solver.Solve` / `Solver.Iterate`. The composition is `PeerRank.RunPeerRank`. The stable sort is `Ranking.Rank`.

Floats are exact `real`s. Competitors are indexed by their position in the sorted universe. The matrix is `seq<seq<real>>` with `w[r][c]` the rate reviewer `r` gives contestant `c`. Weights and scores are `seq<real>` aligned with the universe.

The degenerate outcomes of a solver run are results, not preconditions:
- `Err(FlatScores)`: a round in which every score is equal. In the code this gives zero divided by zero at line 70, a NaN in numpy, and NaN then reaches every output.
- `Err(EmptyUniverse)`: an empty universe with `max_iter > 0`. In the code, taking the minimum of an empty array raises.

Two outcomes one might expect from the algorithm do not hold in the code, and the model follows the code:
- A single competitor that only reviews itself does not end with weight 1.0. Its one score is trivially flat, so the run fails (`Solver.SingleCompetitorIsFlat`).
- A run in which every judgment is a tie does not converge to uniform weights. Every rate is 0.5, the scores are flat, and the run fails (`Solver.UniformMatrixIsFlat`).

## Model

| member | source | states |
|---|---|---|
| Judgments.Transform | scripts/peer_rank.py:33 | -1 maps to 0, 0 to 1/2, 1 to 1; a valid score lands in [0, 1] |
| Judgments.CreditsComplement | scripts/peer_rank.py:46-47 | the credits one judgment gives its two contestants add up to exactly 1 |
| Universe.Below | scripts/peer_rank.py:30 | Python's `<` on strings, the order `sorted` uses: lexicographic on code points, a proper prefix first |
| Universe.InsertSorted | scripts/peer_rank.py:30 | inserting a new name into a strictly increasing list keeps it strictly increasing and adds exactly that name |
| Universe.SortedNames | scripts/peer_rank.py:30 | `sorted` of a set: strictly increasing, exactly the set's elements |
| Universe.SortedUnique | scripts/peer_rank.py:30 | two strictly increasing lists with the same elements are equal, so the sorted universe does not depend on set iteration order |
| Universe.Names | scripts/peer_rank.py:27-29 | the set grown by `models.update` over the judgments, before sorting |
| Universe.NamesAreMentioned | scripts/peer_rank.py:27-29 | a name is collected exactly when some judgment carries it as model A, model B or reviewer |
| Universe.FlipKeepsNames | scripts/peer_rank.py:28-29 | swapping the contestants of every judgment collects the same names |
| Universe.ExtractModels | scripts/peer_rank.py:26-30 | the result is strictly increasing (sorted, no duplicates) and contains exactly the collected names |
| WinRate.JudgmentCredit | scripts/peer_rank.py:46-47 | the credit one judgment adds to a (reviewer, contestant) pair: `Transform(-s)` to model A, `Transform(s)` to model B, both when A and B coincide |
| WinRate.JudgmentCount | scripts/peer_rank.py:48-49 | the observations one judgment adds to a pair: one for model A, one for model B |
| WinRate.Credit | scripts/peer_rank.py:40-47 | `counts[reviewer][contestant]` after the whole pass: the credits of all judgments, folded in order |
| WinRate.Observations | scripts/peer_rank.py:40-49 | `totals[reviewer][contestant]` after the whole pass |
| WinRate.Rate | scripts/peer_rank.py:51 | the matrix entry: credit divided by observations, or 0.5 when there are none |
| WinRate.ComputeWinRateMatrix | scripts/peer_rank.py:35-53 | an n x n matrix whose entry (r, c) is the accumulated credit over observations for (models[r], models[c]); an unobserved pair gets exactly 0.5; with valid scores every entry is in [0, 1] |
| WinRate.CreditBounds | scripts/peer_rank.py:44-49 | with valid scores the credit of a pair lies between 0 and its number of observations |
| WinRate.RateBounds | scripts/peer_rank.py:44-52 | with valid scores every win rate lies in [0, 1] |
| WinRate.SameContributions | scripts/peer_rank.py:40-49 | judgment lists contributing alike position by position accumulate equal credits and counts |
| WinRate.FlipContributesAlike | scripts/peer_rank.py:46-49 | judgment (a, b, s) and (b, a, -s) add the same credit and count to every pair |
| WinRate.FlipOneKeepsRates | scripts/peer_rank.py:46-52 | flipping one judgment leaves every credit, count and rate unchanged |
| WinRate.FlipAllKeepsRates | scripts/peer_rank.py:46-52 | flipping every judgment leaves every credit, count and rate unchanged |
| RealSeq.Sum | scripts/peer_rank.py:69 | the sum of the entries, Python's `sum`; over exact reals any order of the additions gives the same value |
| RealSeq.SumFromLeft | scripts/peer_rank.py:69 | the sum equals Python's accumulation from the left: the sum of all but the last entry plus the last entry |
| RealSeq.Abs | scripts/peer_rank.py:73 | the absolute value: non-negative and equal to x or -x |
| RealSeq.Min | scripts/peer_rank.py:65 | the minimum bounds every score from below and is one of them |
| RealSeq.Max | scripts/peer_rank.py:65 | the maximum bounds every score from above and is one of them |
| RealSeq.FlatIffMinIsMax | scripts/peer_rank.py:65-66 | minimum equals maximum exactly when all scores are equal |
| RealSeq.L1Distance | scripts/peer_rank.py:73 | the convergence delta is non-negative and zero exactly when the two weightings are equal |
| Solver.Weighted | scripts/peer_rank.py:61 | `sum(alpha[r] * winrates[r][c] for r in models)` for one contestant c, summed over the reviewers in universe order |
| Solver.Scores | scripts/peer_rank.py:61 | the weighted score of every contestant; line 80 computes the final scores with the same sum |
| Solver.Ones | scripts/peer_rank.py:57 | the initial weights, 1.0 for every competitor |
| Solver.MinMaxNormalize | scripts/peer_rank.py:66 | `(s[m] - lo) / (hi - lo + 1e-8)` for every entry, given the minimum and maximum of line 65 |
| Solver.MinMaxNormalizeBounds | scripts/peer_rank.py:65-66 | normalised scores lie in [0, 1), are zero exactly at the minimum, and keep the order of the scores |
| Solver.Renormalize | scripts/peer_rank.py:69-70 | renormalisation keeps the length; its only failure is the flat-scores error |
| Solver.RenormalizeDistribution | scripts/peer_rank.py:69-70 | on non-negative input it fails exactly when every entry is zero, and otherwise yields weights that are non-negative, sum to 1 and are zero exactly where the input was zero |
| Solver.Step | scripts/peer_rank.py:61-70 | a round keeps the length of the weights, and its result is `Err(EmptyUniverse)` exactly when there are no competitors |
| Solver.StepOutcome | scripts/peer_rank.py:61-70 | a round fails exactly when the universe is empty or all scores are equal; otherwise `new_alpha` is non-negative, sums to 1, and is zero exactly for the competitors with the minimum score |
| Solver.Round | scripts/peer_rank.py:61-70 | one loop body computes exactly `Step`; it fails exactly when the universe is empty or all scores are equal, and otherwise returns a distribution of the same length |
| Solver.Iterate | scripts/peer_rank.py:59-77 | the loop from given weights with a number of rounds left: no rounds left returns the weights; a failed round fails; a step below `tol` returns the weights in hand; otherwise it continues from `new_alpha` |
| Solver.Solve | scripts/peer_rank.py:57-59 | `Iterate` from all-ones weights with `max(max_iter, 0)` rounds, as `range(max_iter)` runs none for a negative count |
| Solver.SolveWeights | scripts/peer_rank.py:57-77 | the loop, running at most `max_iter` rounds, returns exactly `Solve`, with one weight per competitor |
| Solver.IterateOutcome | scripts/peer_rank.py:57-77 | whatever the loop returns has the same length and is the starting weights or a committed distribution |
| Solver.SolveOutcome | scripts/peer_rank.py:57-77 | a run yields all ones or a distribution; `max_iter <= 0` yields exactly all ones; an empty universe with rounds to run fails |
| Solver.CommittedStepContinues | scripts/peer_rank.py:74-77 | when the step is not below `tol`, the loop commits `new_alpha` and continues with one round fewer |
| Solver.ConvergedKeepsPrevious | scripts/peer_rank.py:73-77 | when the step is below `tol`, the loop returns the weights it had, not `new_alpha` |
| Solver.WeightedUniform | scripts/peer_rank.py:61 | when every reviewer gives a contestant the same rate v, its score is the total weight times v |
| Solver.UniformMatrixIsFlat | scripts/peer_rank.py:59-70 | a constant matrix (for instance all ties) with at least one competitor and one round ends in the flat-scores failure |
| Solver.SingleCompetitorIsFlat | scripts/peer_rank.py:59-70 | a single competitor with at least one round ends in the flat-scores failure |
| Solver.WeightedBounds | scripts/peer_rank.py:80 | with non-negative weights and rates in [0, 1], a score lies between 0 and the total weight |
| Solver.WeightedMonotone | scripts/peer_rank.py:80 | a contestant every reviewer rates at least as high as another scores at least as high |
| Ranking.Before | scripts/peer_rank.py:81 | item x precedes item y: a higher score, or an equal score and an earlier position (the stable sort on `-score`) |
| Ranking.Rank | scripts/peer_rank.py:81 | the (model, score) items in the order `RankOrder` gives over all indices |
| Ranking.InsertIndex | scripts/peer_rank.py:81 | inserting a later index into a ranked order keeps it ranked (descending score, ties by position) and adds exactly that index |
| Ranking.RankOrder | scripts/peer_rank.py:81 | the order lists each of the first k indices, in descending score with ties by position |
| Ranking.RankIsStableSort | scripts/peer_rank.py:81 | the ranking lists every (model, score) item exactly once, by non-increasing score, with equal scores in their original order |
| PeerRank.RunPeerRank | scripts/peer_rank.py:56-82 | for a sorted universe of distinct names: fails exactly when `Solve` fails, with its error; otherwise returns the solved weights (all ones or a distribution), the final scores they give and the stable descending ranking of those scores, which is a leaderboard (non-increasing, ties in name order) |
| PeerRank.RunPeerRankWithDefaults | scripts/peer_rank.py:56 | the run with the defaults `max_iter = 20` and `tol = 1e-4`: the same result as `Solve` with those values, and a leaderboard ranking |
| PeerRank.Leaderboard | scripts/peer_rank.py:81 | a ranking whose scores never increase and whose equal scores appear in name order |
| PeerRank.TiesInNameOrder | scripts/peer_rank.py:80-81 | over the universe sorted at line 30, the ranking is a leaderboard: non-increasing, and equal scores in name order |
| PeerRank.FinalScoresBounded | scripts/peer_rank.py:80 | with rates in [0, 1], final scores lie in [0, 1] under a committed weighting and in [0, n] under the all-ones weights |
| PeerRank.FlipLeavesInputsUnchanged | scripts/peer_rank.py:26-52 | flipping every judgment gives the same universe and the same matrix, hence the same solver input |

## Left out

- `load_reviews` and the `__main__` block (scripts/peer_rank.py:15-23, 84-92): filesystem and JSON loading, and printing. The model takes an already-loaded sequence of judgment records, with the reviewer set from its directory name.
- `question_id` and `rationale`: they carry no weight in the scoring and are not part of `Judgments.Judgment`.
- `scripts/utils.py`, `scripts/peer_discussion.py`, `scripts/generate_reviews.py`, `scripts/generate_answers.py`, `test_api_key.py` and `test_openai_key.py`: network clients, prompt templates and orchestration around them, none of them part of this model.
- IEEE-754 rounding: floats are exact reals, so sums, divisions and the `1e-8` guard have no rounding error.
- NaN: the code's zero-by-zero division at line 70 produces NaN in every output. The model reports it as `Err(FlatScores)` and does not model how NaN propagates through `delta`, the final scores and the sort.
- Empty universe: the exception raised by numpy's `min` on an empty array is `Err(EmptyUniverse)`. Its exception type and message are not modelled.
- Dictionaries keyed by model name (`alpha`, `scores`, `final_scores`, the nested win-rate dictionary) are sequences indexed by position in the sorted universe. Lookups of names outside the universe, which the code never performs, are not modelled.
- Solver.SolveWeights: the bound of at most `max_iter` rounds is a loop invariant of the method, not a separate postcondition; that the returned weights are all ones or a distribution is stated by `Solver.SolveOutcome` about `Solve`, which the method equals.
- PeerRank.RunPeerRank: requires the names in `models` to be distinct (strictly increasing, as `extract_models` returns them). With a repeated name the code's dictionaries keep one entry per name while the sums over the list count the name twice; that mixture is not modelled.
