/** Sums, minima, maxima and distances over vectors of exact reals: the
    `sum(...)`, `values.min()`, `values.max()` and `abs` of the solver. */
module RealSeq {

  /** The sum of the entries (Python's `sum`; over exact reals the order of
      the additions does not matter, see `SumFromLeft`). */
  function Sum(s: seq<real>): real
  {
    if |s| == 0 then 0.0 else s[0] + Sum(s[1..])
  }

  /** Python's `sum` starts from 0 and adds the entries from the left: the
      sum of a sequence is the sum of all but its last entry plus that entry. */
  lemma {:induction false} SumFromLeft(s: seq<real>)
    requires |s| > 0
    ensures Sum(s) == Sum(s[..|s| - 1]) + s[|s| - 1]
  {
    if |s| > 1 {
      SumFromLeft(s[1..]);
      assert s[1..][..|s| - 2] == s[..|s| - 1][1..];
    }
  }

  predicate NonNegative(s: seq<real>) {
    forall i :: 0 <= i < |s| ==> 0.0 <= s[i]
  }

  /** A weight vector: non-negative entries that add up to one. */
  predicate IsDistribution(s: seq<real>) {
    NonNegative(s) && Sum(s) == 1.0
  }

  /** All entries are equal. */
  predicate Flat(s: seq<real>) {
    forall i, j :: 0 <= i < |s| && 0 <= j < |s| ==> s[i] == s[j]
  }

  /** `abs` on a float. */
  function Abs(x: real): (r: real)
    ensures 0.0 <= r && (r == x || r == -x)
  {
    if x < 0.0 then -x else x
  }

  /** The smallest entry (`values.min()` on a non-empty array). */
  function Min(s: seq<real>): (m: real)
    requires |s| > 0
    ensures forall i :: 0 <= i < |s| ==> m <= s[i]
    ensures exists i :: 0 <= i < |s| && m == s[i]
  {
    if |s| == 1 then s[0]
    else
      var rest := Min(s[1..]);
      assert forall i :: 1 <= i < |s| ==> s[i] == s[1..][i - 1];
      if s[0] <= rest then s[0] else rest
  }

  /** The largest entry (`values.max()` on a non-empty array). */
  function Max(s: seq<real>): (m: real)
    requires |s| > 0
    ensures forall i :: 0 <= i < |s| ==> s[i] <= m
    ensures exists i :: 0 <= i < |s| && m == s[i]
  {
    if |s| == 1 then s[0]
    else
      var rest := Max(s[1..]);
      assert forall i :: 1 <= i < |s| ==> s[i] == s[1..][i - 1];
      if rest <= s[0] then s[0] else rest
  }

  /** The minimum and the maximum coincide exactly when all entries are equal. */
  lemma FlatIffMinIsMax(s: seq<real>)
    requires |s| > 0
    ensures Flat(s) <==> Min(s) == Max(s)
  {
    if Flat(s) {
      var i :| 0 <= i < |s| && Max(s) == s[i];
      var j :| 0 <= j < |s| && Min(s) == s[j];
    }
  }

  /** Sum of absolute differences, `sum(abs(new[m] - old[m]) for m in models)`. */
  function L1Distance(a: seq<real>, b: seq<real>): (d: real)
    requires |a| == |b|
    ensures 0.0 <= d
    ensures d == 0.0 <==> a == b
  {
    if |a| == 0 then 0.0
    else
      var rest := L1Distance(a[1..], b[1..]);
      assert a == [a[0]] + a[1..] && b == [b[0]] + b[1..];
      Abs(a[0] - b[0]) + rest
  }

  /** A sum of non-negative entries is non-negative, bounds every entry, and
      is zero exactly when every entry is zero. */
  lemma {:induction false} SumNonNegative(s: seq<real>)
    requires NonNegative(s)
    ensures 0.0 <= Sum(s)
    ensures forall i :: 0 <= i < |s| ==> s[i] <= Sum(s)
    ensures Sum(s) == 0.0 <==> forall i :: 0 <= i < |s| ==> s[i] == 0.0
  {
    if |s| > 0 {
      SumNonNegative(s[1..]);
      assert forall i :: 1 <= i < |s| ==> s[i] == s[1..][i - 1];
    }
  }

  /** Dividing every entry by `t` divides the sum by `t`. */
  lemma {:induction false} SumDivided(s: seq<real>, d: seq<real>, t: real)
    requires t != 0.0 && |d| == |s|
    requires forall i :: 0 <= i < |s| ==> d[i] == s[i] / t
    ensures Sum(d) == Sum(s) / t
  {
    if |s| > 0 {
      SumDivided(s[1..], d[1..], t);
      assert d[0] + Sum(d[1..]) == s[0] / t + Sum(s[1..]) / t;
    }
  }

  /** Every entry equal to `c`: the sum is `c` times the length. */
  lemma {:induction false} SumConstant(s: seq<real>, c: real)
    requires forall i :: 0 <= i < |s| ==> s[i] == c
    ensures Sum(s) == |s| as real * c
  {
    if |s| > 0 {
      SumConstant(s[1..], c);
    }
  }
}
