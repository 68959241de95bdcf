/** The final ranking of `run_peer_rank` (line 81): the (model, score) items
    sorted by descending score with Python's stable sort, so equal scores keep
    the order of the models. */
module Ranking {

  /** Index `x` goes before index `y`: a higher score, or an equal score and
      an earlier position. */
  predicate Before(s: seq<real>, x: nat, y: nat)
    requires x < |s| && y < |s|
  {
    s[x] > s[y] || (s[x] == s[y] && x < y)
  }

  /** `o` lists indices of `s` in ranking order. */
  predicate Ranked(s: seq<real>, o: seq<nat>)
  {
    && (forall k :: 0 <= k < |o| ==> o[k] < |s|)
    && (forall p, q :: 0 <= p < q < |o| ==> Before(s, o[p], o[q]))
  }

  /** Inserts index `i`, later than every index already placed, after all
      entries whose score is at least `s[i]`. */
  function InsertIndex(s: seq<real>, o: seq<nat>, i: nat): (r: seq<nat>)
    requires i < |s| && Ranked(s, o)
    requires forall k :: 0 <= k < |o| ==> o[k] < i
    ensures |r| == |o| + 1
    ensures forall x :: x in r <==> x in o || x == i
    ensures Ranked(s, r)
  {
    if |o| == 0 then [i]
    else if s[o[0]] >= s[i] then
      var rest := InsertIndex(s, o[1..], i);
      assert forall x :: x in rest ==> Before(s, o[0], x) by {
        forall x | x in rest ensures Before(s, o[0], x) {
          if x != i {
            var k :| 0 <= k < |o[1..]| && o[1..][k] == x;
            assert o[k + 1] == x;
          }
        }
      }
      [o[0]] + rest
    else
      assert forall q :: 0 <= q < |o| ==> Before(s, i, o[q]) by {
        forall q | 0 <= q < |o| ensures Before(s, i, o[q]) {
          if q > 0 {
            assert Before(s, o[0], o[q]);
          }
        }
      }
      [i] + o
  }

  /** The indices `0 .. k-1` in ranking order. */
  function RankOrder(s: seq<real>, k: nat): (o: seq<nat>)
    requires k <= |s|
    ensures |o| == k
    ensures forall j :: 0 <= j < |o| ==> o[j] < k
    ensures forall x :: 0 <= x < k ==> x in o
    ensures Ranked(s, o)
  {
    if k == 0 then []
    else
      var prev := RankOrder(s, k - 1);
      var r := InsertIndex(s, prev, k - 1);
      assert forall j :: 0 <= j < |r| ==> r[j] < k by {
        forall j | 0 <= j < |r| ensures r[j] < k {
          if r[j] != k - 1 {
            assert r[j] in prev;
          }
        }
      }
      r
  }

  /** `sorted(final_scores.items(), key=lambda x: -x[1])`. */
  function Rank(models: seq<string>, scores: seq<real>): (r: seq<(string, real)>)
    requires |models| == |scores|
  {
    var o := RankOrder(scores, |scores|);
    seq(|o|, k requires 0 <= k < |o| => (models[o[k]], scores[o[k]]))
  }

  /** The ranking lists every (model, score) item exactly once, by
      non-increasing score, and items with equal scores in their original
      order. */
  lemma RankIsStableSort(models: seq<string>, scores: seq<real>)
    requires |models| == |scores|
    ensures var o := RankOrder(scores, |scores|);
      && |Rank(models, scores)| == |scores|
      && (forall k :: 0 <= k < |o| ==> o[k] < |scores| && Rank(models, scores)[k] == (models[o[k]], scores[o[k]]))
      && (forall x :: 0 <= x < |scores| ==> x in o)
      && (forall p, q :: 0 <= p < q < |o| ==> o[p] != o[q])
      && (forall p, q :: 0 <= p < q < |o| ==> Rank(models, scores)[p].1 >= Rank(models, scores)[q].1)
      && (forall p, q :: 0 <= p < q < |o| && scores[o[p]] == scores[o[q]] ==> o[p] < o[q])
  {
    var o := RankOrder(scores, |scores|);
    forall p, q | 0 <= p < q < |o|
      ensures o[p] != o[q]
    {
      assert Before(scores, o[p], o[q]);
    }
  }
}
