/** What every sort of the engine promises, and the reference merge of two runs. */
module SortSpec {
  import opened Transactions

  /** No element should precede an earlier one: non-decreasing under `f`. */
  ghost predicate SortedBy(s: seq<Transaction>, f: SortField)
  {
    forall i, j :: 0 <= i < j < |s| ==> !Before(f, s[j], s[i])
  }

  /** `x` may precede every element of `s`. */
  ghost predicate LowerBound(x: Transaction, s: seq<Transaction>, f: SortField)
  {
    forall y :: y in s ==> !Before(f, y, x)
  }

  /** `a` and `b` agree at every index outside `[lo, hi)`. */
  ghost predicate SameOutside(a: seq<Transaction>, b: seq<Transaction>, lo: int, hi: int)
  {
    |a| == |b| && forall k :: 0 <= k < |a| && (k < lo || hi <= k) ==> a[k] == b[k]
  }

  /** The merge of two runs that both the array merge and the node-relinking
      list merge perform: the head of the first run is taken only when it should
      strictly precede the head of the second, so on ties the second run's
      element comes first. */
  function MergeRuns(xs: seq<Transaction>, ys: seq<Transaction>, f: SortField): (r: seq<Transaction>)
    ensures |r| == |xs| + |ys|
    decreases |xs| + |ys|
  {
    if xs == [] then ys
    else if ys == [] then xs
    else if Before(f, xs[0], ys[0]) then [xs[0]] + MergeRuns(xs[1..], ys, f)
    else [ys[0]] + MergeRuns(xs, ys[1..], f)
  }

  /** The merge is not stable: of two records with equal keys, the one from
      the second run comes out first. */
  lemma MergeRunsTiesTakeRight(x: Transaction, y: Transaction, f: SortField)
    requires !Before(f, x, y) && !Before(f, y, x)
    ensures MergeRuns([x], [y], f) == [y, x]
  {
  }

  lemma {:induction false} MergeRunsPermutes(xs: seq<Transaction>, ys: seq<Transaction>, f: SortField)
    ensures multiset(MergeRuns(xs, ys, f)) == multiset(xs) + multiset(ys)
    decreases |xs| + |ys|
  {
    if xs != [] && ys != [] {
      if Before(f, xs[0], ys[0]) {
        MergeRunsPermutes(xs[1..], ys, f);
        HeadTail(xs);
      } else {
        MergeRunsPermutes(xs, ys[1..], f);
        HeadTail(ys);
      }
    }
  }

  /** One step of a merge loop: the head taken is the next element of the
      merge, and the rest of the merge follows it. */
  lemma MergeStep(out: seq<Transaction>, x: seq<Transaction>, y: seq<Transaction>, merged: seq<Transaction>, f: SortField)
    requires x != [] && y != [] && out + MergeRuns(x, y, f) == merged
    ensures Before(f, x[0], y[0]) ==> (out + [x[0]]) + MergeRuns(x[1..], y, f) == merged
    ensures !Before(f, x[0], y[0]) ==> (out + [y[0]]) + MergeRuns(x, y[1..], f) == merged
  {
    if Before(f, x[0], y[0]) {
      Associative(out, [x[0]], MergeRuns(x[1..], y, f));
    } else {
      Associative(out, [y[0]], MergeRuns(x, y[1..], f));
    }
  }

  lemma Associative(r: seq<Transaction>, s: seq<Transaction>, t: seq<Transaction>)
    ensures r + (s + t) == (r + s) + t
  {
  }

  lemma HeadTail(s: seq<Transaction>)
    requires s != []
    ensures multiset(s) == multiset{s[0]} + multiset(s[1..])
  {
    assert s == [s[0]] + s[1..];
  }

  lemma SortedCons(x: Transaction, s: seq<Transaction>, f: SortField)
    requires LowerBound(x, s, f) && SortedBy(s, f)
    ensures SortedBy([x] + s, f)
  {
    var t := [x] + s;
    forall i, j | 0 <= i < j < |t| ensures !Before(f, t[j], t[i]) {
      if i == 0 {
        assert t[j] == s[j - 1] && t[j] in s;
      } else {
        assert t[i] == s[i - 1] && t[j] == s[j - 1];
      }
    }
  }

  /** Merging two sorted runs gives a sorted run. */
  lemma {:induction false} MergeRunsSorted(xs: seq<Transaction>, ys: seq<Transaction>, f: SortField)
    requires SortedBy(xs, f) && SortedBy(ys, f)
    ensures SortedBy(MergeRuns(xs, ys, f), f)
    decreases |xs| + |ys|
  {
    if xs != [] && ys != [] {
      SortedHeadBound(xs, f);
      SortedHeadBound(ys, f);
      if Before(f, xs[0], ys[0]) {
        MergeRunsSorted(xs[1..], ys, f);
        BeforeAsymmetric(f, xs[0], ys[0]);
        LowerBoundThrough(xs[0], ys[0], ys, f);
        MergeRunsLowerBound(xs[0], xs[1..], ys, f);
        SortedCons(xs[0], MergeRuns(xs[1..], ys, f), f);
      } else {
        MergeRunsSorted(xs, ys[1..], f);
        LowerBoundThrough(ys[0], xs[0], xs, f);
        MergeRunsLowerBound(ys[0], xs, ys[1..], f);
        SortedCons(ys[0], MergeRuns(xs, ys[1..], f), f);
      }
    }
  }

  /** The head of a sorted run may precede all of it. */
  lemma SortedHeadBound(s: seq<Transaction>, f: SortField)
    requires s != [] && SortedBy(s, f)
    ensures LowerBound(s[0], s, f) && LowerBound(s[0], s[1..], f)
  {
    BeforeIrreflexive(f, s[0]);
    forall y | y in s ensures !Before(f, y, s[0]) {
      var k :| 0 <= k < |s| && s[k] == y;
    }
  }

  /** Whatever may follow `z` may follow anything that may precede `z`. */
  lemma LowerBoundThrough(x: Transaction, z: Transaction, s: seq<Transaction>, f: SortField)
    requires !Before(f, z, x) && LowerBound(z, s, f)
    ensures LowerBound(x, s, f)
  {
    forall y | y in s ensures !Before(f, y, x) {
      NotBeforeTransitive(f, x, z, y);
    }
  }

  /** A bound on both runs bounds their merge. */
  lemma MergeRunsLowerBound(x: Transaction, xs: seq<Transaction>, ys: seq<Transaction>, f: SortField)
    requires LowerBound(x, xs, f) && LowerBound(x, ys, f)
    ensures LowerBound(x, MergeRuns(xs, ys, f), f)
  {
    MergeRunsPermutes(xs, ys, f);
    forall y | y in MergeRuns(xs, ys, f) ensures !Before(f, y, x) {
      assert y in multiset(MergeRuns(xs, ys, f));
    }
  }

  /** `b` rearranges the cells of `a` in the window `[lo, hi)` and leaves every
      other cell alone. */
  ghost predicate PermutesWindow(a: seq<Transaction>, b: seq<Transaction>, lo: int, hi: int)
  {
    SameOutside(a, b, lo, hi) && multiset(b) == multiset(a)
  }

  lemma PermutesWindowTransitive(a: seq<Transaction>, b: seq<Transaction>, c: seq<Transaction>, lo: int, hi: int)
    requires PermutesWindow(a, b, lo, hi) && PermutesWindow(b, c, lo, hi)
    ensures PermutesWindow(a, c, lo, hi)
  {
  }

  lemma PermutesWindowWidens(a: seq<Transaction>, b: seq<Transaction>, lo: int, hi: int, lo': int, hi': int)
    requires lo' <= lo && hi <= hi' && PermutesWindow(a, b, lo, hi)
    ensures PermutesWindow(a, b, lo', hi')
  {
  }

  /** The window `[lo, hi)` of `s` is non-decreasing under `f`. */
  ghost predicate SortedRange(s: seq<Transaction>, lo: int, hi: int, f: SortField)
    requires 0 <= lo <= hi <= |s|
  {
    forall i, j :: lo <= i < j < hi ==> !Before(f, s[j], s[i])
  }

  lemma SortedRangeSlice(s: seq<Transaction>, lo: int, hi: int, f: SortField)
    requires 0 <= lo <= hi <= |s|
    ensures SortedRange(s, lo, hi, f) <==> SortedBy(s[lo..hi], f)
  {
    var t := s[lo..hi];
    if SortedRange(s, lo, hi, f) {
      forall i, j | 0 <= i < j < |t| ensures !Before(f, t[j], t[i]) {
        assert t[i] == s[lo + i] && t[j] == s[lo + j];
      }
    }
    if SortedBy(t, f) {
      forall i, j | lo <= i < j < hi ensures !Before(f, s[j], s[i]) {
        assert t[i - lo] == s[i] && t[j - lo] == s[j];
      }
    }
  }

  /** Overwriting the window `[lo, hi)` with a rearrangement of its cells. */
  lemma Splice(a: seq<Transaction>, w: seq<Transaction>, lo: int, hi: int)
    requires 0 <= lo <= hi <= |a| && multiset(w) == multiset(a[lo..hi])
    ensures PermutesWindow(a, a[..lo] + w + a[hi..], lo, hi)
    ensures (a[..lo] + w + a[hi..])[lo..hi] == w
  {
    var b := a[..lo] + w + a[hi..];
    assert |w| == hi - lo by {
      assert |w| == |multiset(w)| && |a[lo..hi]| == |multiset(a[lo..hi])|;
    }
    assert b[lo..hi] == w;
    assert a == a[..lo] + a[lo..hi] + a[hi..];
  }

  /** A permutation of the whole sequence that moves nothing outside
      `[lo, hi)` permutes `[lo, hi)`. */
  lemma RangePermutation(a: seq<Transaction>, b: seq<Transaction>, lo: int, hi: int)
    requires 0 <= lo <= hi <= |a|
    requires SameOutside(a, b, lo, hi) && multiset(a) == multiset(b)
    ensures multiset(a[lo..hi]) == multiset(b[lo..hi])
  {
    assert a == a[..lo] + a[lo..hi] + a[hi..];
    assert b == b[..lo] + b[lo..hi] + b[hi..];
    assert a[..lo] == b[..lo];
    assert a[hi..] == b[hi..];
    calc {
      multiset(a[lo..hi]);
      multiset(a) - multiset(a[..lo]) - multiset(a[hi..]);
      multiset(b) - multiset(b[..lo]) - multiset(b[hi..]);
      multiset(b[lo..hi]);
    }
  }

  /** A window whose cells may all follow `pivot` keeps that property when the
      window is permuted. */
  lemma AtLeastPreserved(a: seq<Transaction>, b: seq<Transaction>, lo: int, hi: int, pivot: Transaction, f: SortField)
    requires 0 <= lo <= hi <= |a|
    requires PermutesWindow(a, b, lo, hi)
    requires forall k :: lo <= k < hi ==> !Before(f, a[k], pivot)
    ensures forall k :: lo <= k < hi ==> !Before(f, b[k], pivot)
  {
    RangePermutation(a, b, lo, hi);
    forall k | lo <= k < hi ensures !Before(f, b[k], pivot) {
      assert b[k] == b[lo..hi][k - lo];
      assert b[k] in multiset(a[lo..hi]);
      var t :| 0 <= t < hi - lo && a[lo..hi][t] == b[k];
      assert a[lo + t] == b[k];
    }
  }

  /** The mirror image of `AtLeastPreserved`. */
  lemma AtMostPreserved(a: seq<Transaction>, b: seq<Transaction>, lo: int, hi: int, pivot: Transaction, f: SortField)
    requires 0 <= lo <= hi <= |a|
    requires PermutesWindow(a, b, lo, hi)
    requires forall k :: lo <= k < hi ==> !Before(f, pivot, a[k])
    ensures forall k :: lo <= k < hi ==> !Before(f, pivot, b[k])
  {
    RangePermutation(a, b, lo, hi);
    forall k | lo <= k < hi ensures !Before(f, pivot, b[k]) {
      assert b[k] == b[lo..hi][k - lo];
      assert b[k] in multiset(a[lo..hi]);
      var t :| 0 <= t < hi - lo && a[lo..hi][t] == b[k];
      assert a[lo + t] == b[k];
    }
  }
}
