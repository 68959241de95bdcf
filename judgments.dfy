/** Judgment records and the ternary score transform of the Peer Rank pipeline. */
module Judgments {

  /** One pairwise verdict: `reviewer` compared `modelA` (position 1) with
      `modelB` (position 2). A score of -1 means `modelA` wins, 0 a tie and
      1 means `modelB` wins. Question ids and rationales carry no weight in
      the scoring and are not part of the record. */
  datatype Judgment = Judgment(modelA: string, modelB: string, score: int, reviewer: string)

  /** A (reviewer, contestant) pair, the key of the credit and count tables. */
  type Key = (string, string)

  predicate ValidScore(s: int) {
    -1 <= s <= 1
  }

  predicate AllValid(reviews: seq<Judgment>) {
    forall i :: 0 <= i < |reviews| ==> ValidScore(reviews[i].score)
  }

  /** `x` is one of the three names a judgment carries. */
  predicate Mentions(j: Judgment, x: string) {
    x == j.modelA || x == j.modelB || x == j.reviewer
  }

  /** Maps a verdict onto the unit scale: -1 to 0, 0 to 1/2 and 1 to 1. */
  function Transform(s: int): (r: real)
    ensures s == -1 ==> r == 0.0
    ensures s == 0 ==> r == 0.5
    ensures s == 1 ==> r == 1.0
    ensures ValidScore(s) ==> 0.0 <= r <= 1.0
  {
    (s as real + 1.0) / 2.0
  }

  /** Within one judgment the credit for position 1 (`Transform(-s)`) and the
      credit for position 2 (`Transform(s)`) add up to exactly one. */
  lemma CreditsComplement(s: int)
    ensures Transform(-s) + Transform(s) == 1.0
  {
  }

  /** The same verdict seen from the other side: the two contestants swap
      positions and the score changes sign. */
  function Flip(j: Judgment): (f: Judgment)
    ensures f.reviewer == j.reviewer
    ensures f.modelA == j.modelB && f.modelB == j.modelA
    ensures f.score == -j.score
    ensures forall x :: Mentions(f, x) <==> Mentions(j, x)
  {
    Judgment(j.modelB, j.modelA, -j.score, j.reviewer)
  }

  function FlipAll(reviews: seq<Judgment>): (r: seq<Judgment>)
    ensures |r| == |reviews|
    ensures forall i :: 0 <= i < |r| ==> r[i] == Flip(reviews[i])
  {
    seq(|reviews|, i requires 0 <= i < |reviews| => Flip(reviews[i]))
  }
}
