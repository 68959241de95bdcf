/** The competitor universe: every name that appears in a judgment, sorted
    and without duplicates (`extract_models`). */
module Universe {
  import opened Judgments

  /** Python's `<` on strings: lexicographic on code points, a proper prefix
      coming first. */
  predicate Below(a: string, b: string)
  {
    if |a| == 0 then |b| > 0
    else |b| > 0 && (a[0] < b[0] || (a[0] == b[0] && Below(a[1..], b[1..])))
  }

  lemma {:induction false} BelowIrreflexive(a: string)
    ensures !Below(a, a)
  {
    if |a| > 0 {
      BelowIrreflexive(a[1..]);
    }
  }

  lemma {:induction false} BelowTransitive(a: string, b: string, c: string)
    requires Below(a, b) && Below(b, c)
    ensures Below(a, c)
  {
    if |a| > 0 && a[0] == b[0] && b[0] == c[0] {
      BelowTransitive(a[1..], b[1..], c[1..]);
    }
  }

  lemma {:induction false} BelowTotal(a: string, b: string)
    requires a != b
    ensures Below(a, b) || Below(b, a)
  {
    if |a| > 0 && |b| > 0 && a[0] == b[0] {
      assert a == [a[0]] + a[1..] && b == [b[0]] + b[1..];
      BelowTotal(a[1..], b[1..]);
    }
  }

  lemma BelowAsymmetric(a: string, b: string)
    requires Below(a, b)
    ensures !Below(b, a)
  {
    if Below(b, a) {
      BelowTransitive(a, b, a);
      BelowIrreflexive(a);
    }
  }

  predicate StrictlyIncreasing(s: seq<string>) {
    forall i, j :: 0 <= i < j < |s| ==> Below(s[i], s[j])
  }

  /** Inserts a new name at its place in a strictly increasing sequence. */
  function InsertSorted(s: seq<string>, x: string): (r: seq<string>)
    requires StrictlyIncreasing(s) && x !in s
    ensures StrictlyIncreasing(r)
    ensures |r| == |s| + 1
    ensures forall y :: y in r <==> y in s || y == x
  {
    if |s| == 0 then [x]
    else if Below(x, s[0]) then
      assert forall j :: 0 < j < |s| ==> Below(x, s[j]) by {
        forall j | 0 < j < |s| ensures Below(x, s[j]) { BelowTransitive(x, s[0], s[j]); }
      }
      [x] + s
    else
      BelowTotal(x, s[0]);
      var rest := InsertSorted(s[1..], x);
      assert forall y :: y in rest ==> Below(s[0], y) by {
        forall y | y in rest ensures Below(s[0], y) {
          if y != x {
            var j :| 0 <= j < |s[1..]| && s[1..][j] == y;
            assert s[j + 1] == y;
          }
        }
      }
      [s[0]] + rest
  }

  /** `sorted(names)`: the names of a finite set as a strictly increasing
      sequence, built by inserting them one at a time. */
  method SortedNames(names: set<string>) returns (r: seq<string>)
    ensures StrictlyIncreasing(r)
    ensures forall x :: x in r <==> x in names
  {
    r := [];
    var rest := names;
    while rest != {}
      invariant rest <= names
      invariant StrictlyIncreasing(r)
      invariant forall x :: x in r <==> x in names && x !in rest
      decreases |rest|
    {
      var x :| x in rest;
      r := InsertSorted(r, x);
      rest := rest - {x};
    }
  }

  lemma FirstIsMember(s: seq<string>)
    ensures |s| > 0 ==> s[0] in s
  {
  }

  /** A strictly increasing sequence is fixed by its elements, so the order in
      which the set hands out its names does not affect the result. */
  lemma {:induction false} SortedUnique(s: seq<string>, t: seq<string>)
    requires StrictlyIncreasing(s) && StrictlyIncreasing(t)
    requires forall x :: x in s <==> x in t
    ensures s == t
  {
    FirstIsMember(s);
    FirstIsMember(t);
    if |s| == 0 || |t| == 0 {
    } else {
      assert s[0] in t;
      assert |t| > 0;
      if s[0] != t[0] {
        assert t[0] in s;
        var i :| 0 <= i < |s| && s[i] == t[0];
        var j :| 0 <= j < |t| && t[j] == s[0];
        assert i > 0 && j > 0;
        BelowAsymmetric(s[0], s[i]);
        assert false;
      }
      forall x
        ensures x in s[1..] <==> x in t[1..]
      {
        if x in s[1..] {
          var i :| 0 < i < |s| && s[i] == x;
          BelowIrreflexive(x);
          assert x != s[0];
          assert x in t;
        }
        if x in t[1..] {
          var j :| 0 < j < |t| && t[j] == x;
          BelowIrreflexive(x);
          assert x != t[0];
          assert x in s;
        }
      }
      SortedUnique(s[1..], t[1..]);
    }
  }

  /** Every name the judgments carry: the set `extract_models` builds
      before sorting. */
  function Names(reviews: seq<Judgment>): set<string>
  {
    if |reviews| == 0 then {}
    else
      var j := reviews[|reviews| - 1];
      Names(reviews[..|reviews| - 1]) + {j.modelA, j.modelB, j.reviewer}
  }

  /** A name is collected exactly when some judgment mentions it. */
  lemma {:induction false} NamesAreMentioned(reviews: seq<Judgment>, x: string)
    ensures x in Names(reviews) <==> exists i :: 0 <= i < |reviews| && Mentions(reviews[i], x)
  {
    if |reviews| > 0 {
      var prefix := reviews[..|reviews| - 1];
      NamesAreMentioned(prefix, x);
      if x in Names(prefix) {
        var i :| 0 <= i < |prefix| && Mentions(prefix[i], x);
        assert reviews[i] == prefix[i];
      }
      if exists i :: 0 <= i < |reviews| && Mentions(reviews[i], x) {
        var i :| 0 <= i < |reviews| && Mentions(reviews[i], x);
        if i < |prefix| {
          assert prefix[i] == reviews[i];
        }
      }
    }
  }

  /** Recording every verdict from the other side mentions the same names. */
  lemma {:induction false} FlipKeepsNames(reviews: seq<Judgment>)
    ensures Names(FlipAll(reviews)) == Names(reviews)
  {
    if |reviews| > 0 {
      var n := |reviews|;
      assert FlipAll(reviews)[..n - 1] == FlipAll(reviews[..n - 1]);
      FlipKeepsNames(reviews[..n - 1]);
    }
  }

  /** `extract_models`: collects every `modelA`, `modelB` and `reviewer` into a
      set and returns the set sorted. */
  method ExtractModels(reviews: seq<Judgment>) returns (models: seq<string>)
    ensures StrictlyIncreasing(models)
    ensures forall x :: x in models <==> x in Names(reviews)
  {
    var names: set<string> := {};
    for i := 0 to |reviews|
      invariant names == Names(reviews[..i])
    {
      var r := reviews[i];
      names := names + {r.modelA, r.modelB, r.reviewer};
      assert reviews[..i + 1][..i] == reviews[..i];
    }
    assert reviews[..|reviews|] == reviews;
    models := SortedNames(names);
  }
}
