/** The in-place sorts over the array's buffer. The buffer's contents are a
    sequence value: each method returns the buffer as the source leaves it. Ranges
    are inclusive `[left, right]`, as in the program. */
module ArraySort {
  import opened Transactions
  import opened SortSpec

  /** The partition step of `quickSortArray`: Hoare's scheme around a copy of
      the middle element. On return every cell left of `i` may precede the pivot,
      every cell right of `j` may follow it, and the two scans have crossed. */
  method Partition(a: seq<Transaction>, left: int, right: int, f: SortField)
    returns (b: seq<Transaction>, i: int, j: int, pivot: Transaction)
    requires 0 <= left < right < |a|
    ensures PermutesWindow(a, b, left, right + 1)
    ensures left < i <= right + 1 && left - 1 <= j < right && j < i
    ensures forall k :: left <= k < i ==> !Before(f, pivot, b[k])
    ensures forall k :: j < k <= right ==> !Before(f, b[k], pivot)
    ensures pivot == a[(left + right) / 2]
  {
    var m := (left + right) / 2;
    pivot := a[m];
    b, i, j := a, left, right;
    ghost var swapped := false;
    BeforeIrreflexive(f, pivot);
    while i <= j
      invariant PermutesWindow(a, b, left, right + 1)
      invariant left <= i <= right + 1 && left - 1 <= j <= right
      invariant forall k :: left <= k < i ==> !Before(f, pivot, b[k])
      invariant forall k :: j < k <= right ==> !Before(f, b[k], pivot)
      invariant !swapped ==> i == left && j == right && b == a
      invariant swapped ==> left < i && j < right && i <= j + 2
      decreases j - i + 2
    {
      // Before the first swap both scans stop at the pivot's cell at the
      // latest; after it, each stops at the latest at the cell the other
      // scan last passed.
      i := ScanUp(b, i, if swapped then j + 1 else m, pivot, f);
      j := ScanDown(b, j, if swapped then i - 1 else m, pivot, f);
      if i <= j {
        var c := b[i := b[j]][j := b[i]];
        SwapKeepsPartition(a, b, c, left, right, i, j, pivot, f);
        b := c;
        i, j := i + 1, j - 1;
        swapped := true;
      }
    }
  }

  /** `std::swap(arr[i], arr[j])` where both scans stopped: the two cells then
      join the regions on their new sides. */
  lemma SwapKeepsPartition(a: seq<Transaction>, b: seq<Transaction>, c: seq<Transaction>, left: int, right: int,
                           i: int, j: int, pivot: Transaction, f: SortField)
    requires 0 <= left <= i <= j <= right < |b| && c == b[i := b[j]][j := b[i]]
    requires PermutesWindow(a, b, left, right + 1)
    requires !Before(f, b[i], pivot) && !Before(f, pivot, b[j])
    requires forall k :: left <= k < i ==> !Before(f, pivot, b[k])
    requires forall k :: j < k <= right ==> !Before(f, b[k], pivot)
    ensures PermutesWindow(a, c, left, right + 1)
    ensures forall k :: left <= k < i + 1 ==> !Before(f, pivot, c[k])
    ensures forall k :: j - 1 < k <= right ==> !Before(f, c[k], pivot)
  {
  }

  /** `while (comp(arr[i], pivot)) i++;` It stops at the first cell from `i`
      that does not precede the pivot; every cell it passed does. The cell
      `stop` is known not to precede the pivot, so the scan cannot run past it. */
  method ScanUp(b: seq<Transaction>, i: int, ghost stop: int, pivot: Transaction, f: SortField)
    returns (i': int)
    requires 0 <= i <= stop < |b| && !Before(f, b[stop], pivot)
    ensures i <= i' <= stop && !Before(f, b[i'], pivot)
    ensures forall k :: i <= k < i' ==> Before(f, b[k], pivot) && !Before(f, pivot, b[k])
  {
    i' := i;
    while Before(f, b[i'], pivot)
      invariant i <= i' <= stop
      invariant forall k :: i <= k < i' ==> Before(f, b[k], pivot) && !Before(f, pivot, b[k])
      decreases stop - i'
    {
      BeforeAsymmetric(f, b[i'], pivot);
      i' := i' + 1;
    }
  }

  /** `while (comp(pivot, arr[j])) j--;` It stops at the first cell down from
      `j` that the pivot does not precede; the pivot precedes every cell it
      passed. The cell `stop` is known not to follow the pivot, so the scan
      cannot run past it. */
  method ScanDown(b: seq<Transaction>, j: int, ghost stop: int, pivot: Transaction, f: SortField)
    returns (j': int)
    requires 0 <= stop <= j < |b| && !Before(f, pivot, b[stop])
    ensures stop <= j' <= j && !Before(f, pivot, b[j'])
    ensures forall k :: j' < k <= j ==> Before(f, pivot, b[k]) && !Before(f, b[k], pivot)
  {
    j' := j;
    while Before(f, pivot, b[j'])
      invariant stop <= j' <= j
      invariant forall k :: j' < k <= j ==> Before(f, pivot, b[k]) && !Before(f, b[k], pivot)
      decreases j' - stop
    {
      BeforeAsymmetric(f, pivot, b[j']);
      j' := j' - 1;
    }
  }

  /** `quickSortArray(arr, left, right, comp)`: a no-op when `left >= right`;
      otherwise it sorts `[left, right]` by rearranging only those cells. */
  method QuickSortArray(a: seq<Transaction>, left: int, right: int, f: SortField)
    returns (b: seq<Transaction>)
    requires left < right ==> 0 <= left && right < |a|
    ensures left >= right ==> b == a
    ensures left < right ==> PermutesWindow(a, b, left, right + 1)
    ensures left < right ==> SortedRange(b, left, right + 1, f)
    decreases right - left
  {
    if left >= right {
      return a;
    }
    var p, i, j, pivot := Partition(a, left, right, f);
    var lo := QuickSortArray(p, left, j, f);
    b := QuickSortArray(lo, i, right, f);
    QuickSortCombine(a, p, lo, b, left, right, i, j, pivot, f);
  }

  /** Sorting both sides of a partition sorts the whole window. */
  lemma QuickSortCombine(a: seq<Transaction>, p: seq<Transaction>, lo: seq<Transaction>, b: seq<Transaction>,
                         left: int, right: int, i: int, j: int, pivot: Transaction, f: SortField)
    requires 0 <= left < right < |a|
    requires PermutesWindow(a, p, left, right + 1)
    requires left < i <= right + 1 && left - 1 <= j < right && j < i
    requires forall k :: left <= k < i ==> !Before(f, pivot, p[k])
    requires forall k :: j < k <= right ==> !Before(f, p[k], pivot)
    requires left >= j ==> lo == p
    requires left < j ==> PermutesWindow(p, lo, left, j + 1) && SortedRange(lo, left, j + 1, f)
    requires i >= right ==> b == lo
    requires i < right ==> PermutesWindow(lo, b, i, right + 1) && SortedRange(b, i, right + 1, f)
    ensures PermutesWindow(a, b, left, right + 1)
    ensures SortedRange(b, left, right + 1, f)
  {
    if left < j {
      AtMostPreserved(p, lo, left, j + 1, pivot, f);
      PermutesWindowWidens(p, lo, left, j + 1, left, right + 1);
    }
    if i < right {
      AtLeastPreserved(lo, b, i, right + 1, pivot, f);
      PermutesWindowWidens(lo, b, i, right + 1, left, right + 1);
    }
    PermutesWindowTransitive(a, p, lo, left, right + 1);
    PermutesWindowTransitive(a, lo, b, left, right + 1);
    SortedAroundPivot(b, left, right, i, j, pivot, f);
  }

  /** Two sorted sides of a pivot, with every cell between them equivalent to
      it, make one sorted window. */
  lemma SortedAroundPivot(s: seq<Transaction>, left: int, right: int, i: int, j: int, pivot: Transaction, f: SortField)
    requires 0 <= left < right < |s|
    requires left < i <= right + 1 && left - 1 <= j < right && j < i
    requires SortedRange(s, left, j + 1, f) && SortedRange(s, i, right + 1, f)
    requires forall k :: left <= k < i ==> !Before(f, pivot, s[k])
    requires forall k :: j < k <= right ==> !Before(f, s[k], pivot)
    ensures SortedRange(s, left, right + 1, f)
  {
    forall x, y | left <= x < y < right + 1 ensures !Before(f, s[y], s[x]) {
      if y <= j || i <= x {
      } else {
        NotBeforeTransitive(f, s[x], pivot, s[y]);
      }
    }
  }

  /** `merge(arr, left, mid, right, comp)`: copies the runs `[left, mid]` and
      `[mid + 1, right]` into two buffers and writes their merge back over
      `[left, right]`, leaving every other cell alone. The cells are written in
      order `arr[k++]`, so the written part `[left, k)` is kept as `out`. */
  method Merge(a: seq<Transaction>, left: int, mid: int, right: int, f: SortField)
    returns (b: seq<Transaction>)
    requires 0 <= left <= mid + 1 <= right + 1 <= |a|
    ensures PermutesWindow(a, b, left, right + 1)
    ensures b[left..right + 1] == MergeRuns(a[left..mid + 1], a[mid + 1..right + 1], f)
  {
    // `x` and `y` are the parts `L[i..n1)` and `R[j..n2)` not yet written back.
    var x, y := a[left..mid + 1], a[mid + 1..right + 1];
    ghost var merged := MergeRuns(x, y, f);
    var out := [];
    while x != [] && y != []
      invariant out + MergeRuns(x, y, f) == merged
      decreases |x| + |y|
    {
      MergeStep(out, x, y, merged, f);
      if Before(f, x[0], y[0]) {
        out, x := out + [x[0]], x[1..];
      } else {
        out, y := out + [y[0]], y[1..];
      }
    }
    // One run is used up, so the rest of the merge is the other run.
    assert out + x + y == merged;
    while x != []
      invariant out + x + y == merged
    {
      out, x := out + [x[0]], x[1..];
    }
    while y != []
      invariant out + x + y == merged && x == []
    {
      out, y := out + [y[0]], y[1..];
    }
    b := a[..left] + out + a[right + 1..];
    WriteBack(a, out, left, mid, right, f);
  }

  /** Writing the merged runs over `[left, right]` permutes that window. */
  lemma WriteBack(a: seq<Transaction>, out: seq<Transaction>, left: int, mid: int, right: int, f: SortField)
    requires 0 <= left <= mid + 1 <= right + 1 <= |a|
    requires out == MergeRuns(a[left..mid + 1], a[mid + 1..right + 1], f)
    ensures PermutesWindow(a, a[..left] + out + a[right + 1..], left, right + 1)
    ensures (a[..left] + out + a[right + 1..])[left..right + 1] == out
  {
    MergedWindowPermutes(a, left, mid, right, f);
    Splice(a, out, left, right + 1);
  }

  lemma MergedWindowPermutes(a: seq<Transaction>, left: int, mid: int, right: int, f: SortField)
    requires 0 <= left <= mid + 1 <= right + 1 <= |a|
    ensures multiset(MergeRuns(a[left..mid + 1], a[mid + 1..right + 1], f)) == multiset(a[left..right + 1])
  {
    var xs, ys := a[left..mid + 1], a[mid + 1..right + 1];
    assert a[left..right + 1] == xs + ys;
    MergeRunsPermutes(xs, ys, f);
  }

  /** `mergeSortArray(arr, left, right, comp)`: a no-op when `left >= right`;
      otherwise it sorts `[left, right]` by rearranging only those cells. */
  method MergeSortArray(a: seq<Transaction>, left: int, right: int, f: SortField)
    returns (b: seq<Transaction>)
    requires left < right ==> 0 <= left && right < |a|
    ensures left >= right ==> b == a
    ensures left < right ==> PermutesWindow(a, b, left, right + 1)
    ensures left < right ==> SortedRange(b, left, right + 1, f)
    decreases right - left
  {
    if left >= right {
      return a;
    }
    var mid := left + (right - left) / 2;
    var lo := MergeSortArray(a, left, mid, f);
    var hi := MergeSortArray(lo, mid + 1, right, f);
    b := Merge(hi, left, mid, right, f);
    MergeSortCombine(a, lo, hi, b, left, mid, right, f);
  }

  /** Merging the two sorted halves sorts the whole window. */
  lemma MergeSortCombine(a: seq<Transaction>, lo: seq<Transaction>, hi: seq<Transaction>, b: seq<Transaction>,
                         left: int, mid: int, right: int, f: SortField)
    requires 0 <= left <= mid < right < |a|
    requires left == mid ==> lo == a
    requires left < mid ==> PermutesWindow(a, lo, left, mid + 1) && SortedRange(lo, left, mid + 1, f)
    requires mid + 1 == right ==> hi == lo
    requires mid + 1 < right ==> PermutesWindow(lo, hi, mid + 1, right + 1) && SortedRange(hi, mid + 1, right + 1, f)
    requires PermutesWindow(hi, b, left, right + 1)
    requires b[left..right + 1] == MergeRuns(hi[left..mid + 1], hi[mid + 1..right + 1], f)
    ensures PermutesWindow(a, b, left, right + 1)
    ensures SortedRange(b, left, right + 1, f)
  {
    if left < mid {
      PermutesWindowWidens(a, lo, left, mid + 1, left, right + 1);
    }
    if mid + 1 < right {
      PermutesWindowWidens(lo, hi, mid + 1, right + 1, left, right + 1);
    }
    PermutesWindowTransitive(a, lo, hi, left, right + 1);
    PermutesWindowTransitive(a, hi, b, left, right + 1);
    assert SortedRange(hi, left, mid + 1, f) by {
      if left < mid {
        assert forall k :: left <= k < mid + 1 ==> hi[k] == lo[k];
      }
    }
    assert SortedRange(hi, mid + 1, right + 1, f);
    MergedHalvesSorted(hi, b, left, mid, right, f);
  }

  lemma MergedHalvesSorted(hi: seq<Transaction>, b: seq<Transaction>, left: int, mid: int, right: int, f: SortField)
    requires 0 <= left <= mid < right < |hi| == |b|
    requires SortedRange(hi, left, mid + 1, f) && SortedRange(hi, mid + 1, right + 1, f)
    requires b[left..right + 1] == MergeRuns(hi[left..mid + 1], hi[mid + 1..right + 1], f)
    ensures SortedRange(b, left, right + 1, f)
  {
    SortedRangeSlice(hi, left, mid + 1, f);
    SortedRangeSlice(hi, mid + 1, right + 1, f);
    MergeRunsSorted(hi[left..mid + 1], hi[mid + 1..right + 1], f);
    SortedRangeSlice(b, left, right + 1, f);
  }
}
