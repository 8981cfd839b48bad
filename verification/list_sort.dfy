/** The node-relinking sorts over the linked list. A chain is the sequence of
    records met by following `next` from a node to the end; relinking nodes
    yields a new chain, so each sort returns the chain of the head it returns. */
module ListSort {
  import opened Transactions
  import opened SortSpec

  /** `mergeSortedLists(a, b, comp)`: hands back the other chain when one is
      empty, and otherwise links the nodes of both into one chain, taking the
      head of `a` only when it should strictly precede the head of `b`. */
  method MergeSortedLists(a: seq<Transaction>, b: seq<Transaction>, f: SortField) returns (r: seq<Transaction>)
    ensures a == [] ==> r == b
    ensures b == [] ==> r == a
    ensures r == MergeRuns(a, b, f)
    ensures multiset(r) == multiset(a) + multiset(b)
    ensures SortedBy(a, f) && SortedBy(b, f) ==> SortedBy(r, f)
  {
    if a == [] {
      return b;
    }
    if b == [] {
      return a;
    }
    ghost var whole := MergeRuns(a, b, f);
    var x, y := a, b;
    // The chain from `result` to `tail`.
    r := [];
    while x != [] && y != []
      invariant r + MergeRuns(x, y, f) == whole
      decreases |x| + |y|
    {
      MergeStep(r, x, y, whole, f);
      if Before(f, x[0], y[0]) {
        r, x := r + [x[0]], x[1..];
      } else {
        r, y := r + [y[0]], y[1..];
      }
    }
    // Both chains were non-empty, so some node was linked and `tail` is set:
    // `tail->next = a ? a : b`.
    r := r + (if x != [] then x else y);
    MergeRunsPermutes(a, b, f);
    if SortedBy(a, f) && SortedBy(b, f) {
      MergeRunsSorted(a, b, f);
    }
  }

  /** `splitList(source, &front, &back)`: the slow pointer advances once for
      every two steps of the fast one, and the chain is cut after it. Nodes are
      named by their index; index `|source|` stands for the null pointer. */
  method SplitList(source: seq<Transaction>) returns (front: seq<Transaction>, back: seq<Transaction>)
    requires source != []
    ensures front + back == source
    ensures |front| == (|source| + 1) / 2 && |back| == |source| / 2
  {
    var n := |source|;
    var slow, fast := 0, 1;
    while fast < n
      invariant 0 <= slow && fast <= n
      invariant fast == 2 * slow + 1 || fast == 2 * slow + 2 == n
      decreases n - fast
    {
      fast := fast + 1;
      if fast < n {
        slow, fast := slow + 1, fast + 1;
      }
    }
    front, back := source[..slow + 1], source[slow + 1..];
  }

  /** `mergeSortLinkedList(head, comp)`: the recursive top-down sort. */
  method MergeSortLinkedList(head: seq<Transaction>, f: SortField) returns (r: seq<Transaction>)
    ensures |head| <= 1 ==> r == head
    ensures multiset(r) == multiset(head)
    ensures SortedBy(r, f)
    decreases |head|
  {
    if |head| <= 1 {
      return head;
    }
    var a, b := SplitList(head);
    a := MergeSortLinkedList(a, f);
    b := MergeSortLinkedList(b, f);
    r := MergeSortedLists(a, b, f);
  }

  /** `while (current) { length++; current = current->next; }` */
  method CountNodes(head: seq<Transaction>) returns (length: int)
    ensures length == |head|
  {
    length := 0;
    while length < |head|
      invariant 0 <= length <= |head|
    {
      length := length + 1;
    }
  }

  /** `while (curr && count < size - 1) { curr = curr->next; count++; }` from
      the first node of `chain`: the walk stops at index `pos`, which is the
      null pointer when it equals `|chain|`. */
  method Walk(chain: seq<Transaction>, size: int) returns (pos: int)
    requires size >= 1
    ensures 0 <= pos <= |chain| && pos <= size - 1
    ensures pos == |chain| || pos == size - 1
  {
    pos := 0;
    while pos < |chain| && pos < size - 1
      invariant 0 <= pos <= |chain| && pos <= size - 1
    {
      pos := pos + 1;
    }
  }

  /** The records of a sequence of chains laid end to end. */
  ghost function Flatten(runs: seq<seq<Transaction>>): seq<Transaction>
  {
    if runs == [] then [] else runs[0] + Flatten(runs[1..])
  }

  /** `runs` cuts a chain into sorted runs of `w` nodes, of which only the last
      may be shorter. */
  ghost predicate RunsOf(runs: seq<seq<Transaction>>, w: int, f: SortField)
  {
    forall t :: 0 <= t < |runs| ==>
      runs[t] != [] && |runs[t]| <= w && SortedBy(runs[t], f) && (t < |runs| - 1 ==> |runs[t]| == w)
  }

  /** The runs of width one: every node on its own. */
  ghost function Singletons(s: seq<Transaction>): (runs: seq<seq<Transaction>>)
    ensures |runs| == |s|
    ensures forall t :: 0 <= t < |s| ==> runs[t] == [s[t]]
  {
    if s == [] then [] else [[s[0]]] + Singletons(s[1..])
  }

  lemma {:induction false} FlattenSingletons(s: seq<Transaction>)
    ensures Flatten(Singletons(s)) == s
  {
    if s != [] {
      FlattenSingletons(s[1..]);
      assert Singletons(s)[1..] == Singletons(s[1..]);
    }
  }

  lemma SingletonsAreRuns(s: seq<Transaction>, f: SortField)
    ensures RunsOf(Singletons(s), 1, f)
  {
  }

  lemma {:induction false} FlattenSnoc(runs: seq<seq<Transaction>>, r: seq<Transaction>)
    ensures Flatten(runs + [r]) == Flatten(runs) + r
    decreases |runs|
  {
    if runs == [] {
      assert [] + [r] == [r];
    } else {
      FlattenSnoc(runs[1..], r);
      assert (runs + [r])[1..] == runs[1..] + [r];
    }
  }

  /** The chain left from run `q` on starts with run `q`, and the walk of one
      pass over it reaches the end of the chain exactly when run `q` is the
      last. */
  lemma TakeRun(runs: seq<seq<Transaction>>, q: int, size: int, chain: seq<Transaction>, pos: int, f: SortField)
    requires size >= 1 && RunsOf(runs, size, f) && 0 <= q < |runs|
    requires chain == Flatten(runs[q..])
    requires 0 <= pos <= |chain| && pos <= size - 1 && (pos == |chain| || pos == size - 1)
    ensures pos + 1 >= |chain| <==> q + 1 == |runs|
    ensures pos < |chain| ==> chain[..pos + 1] == runs[q] && chain[pos + 1..] == Flatten(runs[q + 1..])
    ensures pos == |chain| ==> chain == runs[q] && q + 1 == |runs|
  {
    assert runs[q..][0] == runs[q] && runs[q..][1..] == runs[q + 1..];
    assert chain == runs[q] + Flatten(runs[q + 1..]);
    if q + 1 < |runs| {
      assert runs[q + 1..][0] == runs[q + 1];
      assert |Flatten(runs[q + 1..])| >= |runs[q + 1]| > 0;
    } else {
      assert runs[q + 1..] == [];
    }
  }

  lemma NoRunsLeft(runs: seq<seq<Transaction>>, q: int)
    requires 0 <= q <= |runs|
    ensures q == |runs| ==> Flatten(runs[q..]) == []
  {
    if q == |runs| {
      assert runs[q..] == [];
    }
  }

  /** Adding a run to the runs of the next pass. */
  lemma AppendRun(merged: seq<seq<Transaction>>, m: seq<Transaction>, w: int, f: SortField)
    requires RunsOf(merged, w, f) && (merged != [] ==> |merged[|merged| - 1]| == w)
    requires m != [] && |m| <= w && SortedBy(m, f)
    ensures RunsOf(merged + [m], w, f)
  {
  }

  /** The body of the inner loop of `mergeSortLinkedListIterative`: from the
      node `curr` at the start of run `q`, walks over that run; if it is the last
      run it is linked on unchanged, and otherwise it is cut off, the next run is
      walked over and cut off, and the two are merged. */
  method NextRuns(curr: seq<Transaction>, size: int, ghost runs: seq<seq<Transaction>>, ghost q: int, f: SortField)
    returns (last: bool, m: seq<Transaction>, nextStart: seq<Transaction>)
    requires size >= 1 && RunsOf(runs, size, f) && 0 <= q < |runs| && curr == Flatten(runs[q..])
    ensures last <==> q + 1 == |runs|
    ensures last ==> curr == runs[q] && m == curr && nextStart == []
    ensures !last ==> curr == runs[q] + runs[q + 1] + nextStart && nextStart == Flatten(runs[q + 2..])
    ensures !last ==> m == MergeRuns(runs[q], runs[q + 1], f)
  {
    var first := curr;
    var pos := Walk(curr, size);
    TakeRun(runs, q, size, curr, pos, f);
    if pos >= |curr| || pos + 1 >= |curr| {
      return true, first, [];
    }
    first := curr[..pos + 1];
    var second;
    second, nextStart := SecondRun(curr[pos + 1..], size, runs, q + 1, f);
    assert curr == first + (second + nextStart);
    last := false;
    m := MergeSortedLists(first, second, f);
  }

  /** The second half of the body: walks over the run starting at
      `secondStart` and, unless it ends the chain, cuts the chain after it. */
  method SecondRun(secondStart: seq<Transaction>, size: int, ghost runs: seq<seq<Transaction>>, ghost q: int, f: SortField)
    returns (second: seq<Transaction>, nextStart: seq<Transaction>)
    requires size >= 1 && RunsOf(runs, size, f) && 0 <= q < |runs| && secondStart == Flatten(runs[q..])
    ensures second == runs[q] && nextStart == Flatten(runs[q + 1..])
    ensures secondStart == second + nextStart
  {
    var pos := Walk(secondStart, size);
    TakeRun(runs, q, size, secondStart, pos, f);
    if pos < |secondStart| {
      second, nextStart := secondStart[..pos + 1], secondStart[pos + 1..];
    } else {
      second, nextStart := secondStart, [];
      assert runs[q + 1..] == [];
    }
  }

  /** Linking a merged pair of runs onto the chain built so far keeps the
      invariant of a pass. */
  lemma PairStep(s: seq<Transaction>, size: int, runs: seq<seq<Transaction>>, q: int,
                 merged: seq<seq<Transaction>>, r: seq<Transaction>, m: seq<Transaction>, rest: seq<Transaction>, f: SortField)
    requires size >= 1 && RunsOf(runs, size, f) && 0 <= q && q + 1 < |runs|
    requires RunsOf(merged, 2 * size, f) && Flatten(merged) == r
    requires merged != [] ==> |merged[|merged| - 1]| == 2 * size
    requires multiset(r) + multiset(runs[q] + runs[q + 1] + rest) == multiset(s)
    requires |r| + |runs[q] + runs[q + 1] + rest| == |s|
    requires m == MergeRuns(runs[q], runs[q + 1], f)
    ensures RunsOf(merged + [m], 2 * size, f) && Flatten(merged + [m]) == r + m
    ensures q + 2 < |runs| ==> |m| == 2 * size
    ensures multiset(r + m) + multiset(rest) == multiset(s) && |r + m| + |rest| == |s|
  {
    MergeRunsSorted(runs[q], runs[q + 1], f);
    MergeRunsPermutes(runs[q], runs[q + 1], f);
    AppendRun(merged, m, 2 * size, f);
    FlattenSnoc(merged, m);
  }

  /** Linking the unpaired last run on unchanged ends the pass. */
  lemma LastStep(s: seq<Transaction>, size: int, merged: seq<seq<Transaction>>, r: seq<Transaction>,
                 m: seq<Transaction>, f: SortField)
    requires size >= 1 && m != [] && |m| <= size && SortedBy(m, f)
    requires RunsOf(merged, 2 * size, f) && Flatten(merged) == r
    requires merged != [] ==> |merged[|merged| - 1]| == 2 * size
    requires multiset(r) + multiset(m) == multiset(s) && |r| + |m| == |s|
    ensures RunsOf(merged + [m], 2 * size, f) && Flatten(merged + [m]) == r + m
    ensures multiset(r + m) == multiset(s) && |r + m| == |s|
  {
    AppendRun(merged, m, 2 * size, f);
    FlattenSnoc(merged, m);
  }

  /** One pass of the outer loop of `mergeSortLinkedListIterative`: merges the
      runs of width `size` pairwise, left to right; an unpaired last run is
      linked on unchanged. */
  method MergePass(s: seq<Transaction>, size: int, ghost runs: seq<seq<Transaction>>, f: SortField)
    returns (r: seq<Transaction>, ghost merged: seq<seq<Transaction>>)
    requires size >= 1 && RunsOf(runs, size, f) && Flatten(runs) == s
    ensures multiset(r) == multiset(s) && |r| == |s|
    ensures RunsOf(merged, 2 * size, f) && Flatten(merged) == r
  {
    var curr := s;
    // The chain from `newHead` to `tail`.
    r := [];
    ghost var q := 0;
    merged := [];
    while curr != []
      invariant 0 <= q <= |runs| && curr == Flatten(runs[q..])
      invariant RunsOf(merged, 2 * size, f) && Flatten(merged) == r
      invariant q < |runs| && merged != [] ==> |merged[|merged| - 1]| == 2 * size
      invariant multiset(r) + multiset(curr) == multiset(s) && |r| + |curr| == |s|
      decreases |curr|
    {
      NoRunsLeft(runs, q);
      var last, m, nextStart := NextRuns(curr, size, runs, q, f);
      if last {
        LastStep(s, size, merged, r, m, f);
        r, merged := r + m, merged + [m];
        break;
      }
      PairStep(s, size, runs, q, merged, r, m, nextStart, f);
      r, merged, q := r + m, merged + [m], q + 2;
      curr := nextStart;
    }
  }

  /** Once a run is as wide as the whole chain, there is only one run. */
  lemma SingleRun(runs: seq<seq<Transaction>>, w: int, f: SortField)
    requires RunsOf(runs, w, f) && |Flatten(runs)| <= w
    ensures SortedBy(Flatten(runs), f)
  {
    if runs != [] {
      assert Flatten(runs) == runs[0] + Flatten(runs[1..]);
      if |runs| > 1 {
        assert false;
      }
      assert runs[1..] == [];
    }
  }

  /** `mergeSortLinkedListIterative(head, comp)`: the bottom-up sort, merging
      runs of width 1, 2, 4, ... until one run spans the chain. */
  method MergeSortLinkedListIterative(head: seq<Transaction>, f: SortField) returns (r: seq<Transaction>)
    ensures |head| <= 1 ==> r == head
    ensures multiset(r) == multiset(head)
    ensures SortedBy(r, f)
  {
    if |head| <= 1 {
      return head;
    }
    var length := CountNodes(head);
    r := head;
    ghost var runs := Singletons(head);
    FlattenSingletons(head);
    SingletonsAreRuns(head, f);
    var size := 1;
    while size < length
      invariant size >= 1 && |r| == length
      invariant RunsOf(runs, size, f) && Flatten(runs) == r
      invariant multiset(r) == multiset(head)
    {
      r, runs := MergePass(r, size, runs, f);
      size := size * 2;
    }
    SingleRun(runs, size, f);
  }
}
