/** `performSort`: reads a field and an algorithm from two menus, then sorts
    the active container of a manager by that field, choosing the algorithm
    from the menu choice and, for the linked list, from its length. */
module SortDispatch {
  import opened Wrappers
  import opened Transactions
  import opened SortSpec
  import opened TransactionArrays
  import opened TransactionLists
  import opened Manager
  import ArraySort
  import ListSort

  /** From this many nodes on, the list is sorted bottom-up instead of
      recursively. */
  const IterativeThreshold := 5000

  /** Which sort ran, if any. */
  datatype SortRoute = NoSort | QuickSortOnArray | MergeSortOnArray | RecursiveMergeSortOnList | IterativeMergeSortOnList

  /** The counting loop of `performSort`: steps along the chain and stops at
      its end or after `cap` nodes, whichever comes first. */
  method CountNodesUpTo(chain: seq<Transaction>, cap: int) returns (nodeCount: int)
    ensures cap <= 0 ==> nodeCount == 0
    ensures cap > 0 ==> nodeCount == if |chain| < cap then |chain| else cap
  {
    nodeCount := 0;
    var temp := chain;
    while temp != [] && nodeCount < cap
      invariant 0 <= nodeCount <= |chain| && temp == chain[nodeCount..] && |temp| == |chain| - nodeCount
      invariant nodeCount == 0 || nodeCount <= cap
      decreases |temp|
    {
      nodeCount := nodeCount + 1;
      temp := temp[1..];
    }
  }

  /** The rebuilding loop: a new list to which every node of the sorted
      chain is appended in order. */
  method Rebuild(sorted: seq<Transaction>) returns (newList: TransactionList)
    ensures newList.Valid() && newList.nodes == sorted && newList.size == |sorted|
  {
    newList := EmptyList();
    var current := sorted;
    while current != []
      invariant newList.Valid() && newList.nodes + current == sorted
      decreases |current|
    {
      newList := TransactionLists.AddTransaction(newList, current[0]);
      current := current[1..];
    }
  }

  /** The array branch: the cells `[0, size - 1]` of the buffer, by quicksort
      when the choice is 1 and by mergesort otherwise. */
  method SortArray(a: TransactionArray, f: SortField, algoChoice: int) returns (r: TransactionArray, route: SortRoute)
    ensures r.capacity == a.capacity && multiset(r.items) == multiset(a.items) && SortedBy(r.items, f)
    ensures route == if algoChoice == 1 then QuickSortOnArray else MergeSortOnArray
  {
    var size := a.Size();
    var arr;
    if algoChoice == 1 {
      arr := ArraySort.QuickSortArray(a.items, 0, size - 1, f);
      route := QuickSortOnArray;
    } else {
      arr := ArraySort.MergeSortArray(a.items, 0, size - 1, f);
      route := MergeSortOnArray;
    }
    if size >= 2 {
      SortedRangeSlice(arr, 0, size, f);
      assert arr[0..size] == arr;
    }
    r := TransactionArray(arr, a.capacity);
  }

  /** The list branch: whatever algorithm was chosen, a mergesort, bottom-up
      when the chain has at least 5000 nodes and recursive otherwise; its
      output is then copied into a new list that replaces the old one. */
  method SortList(l: TransactionList, f: SortField) returns (r: TransactionList, route: SortRoute)
    requires l.Valid()
    ensures r.Valid() && r.size == l.size
    ensures multiset(r.nodes) == multiset(l.nodes) && SortedBy(r.nodes, f)
    ensures route == if |l.nodes| >= IterativeThreshold then IterativeMergeSortOnList else RecursiveMergeSortOnList
  {
    var nodeCount := CountNodesUpTo(GetHead(l), IterativeThreshold);
    var sorted;
    if nodeCount >= IterativeThreshold {
      sorted := ListSort.MergeSortLinkedListIterative(GetHead(l), f);
      route := IterativeMergeSortOnList;
    } else {
      sorted := ListSort.MergeSortLinkedList(GetHead(l), f);
      route := RecursiveMergeSortOnList;
    }
    r := Rebuild(sorted);
    assert |sorted| == |multiset(sorted)| == |multiset(l.nodes)| == |l.nodes|;
  }

  /** `performSort` from the algorithm choice on: 0 and anything outside 1..2
      return without sorting; otherwise only the active container changes,
      and it ends up sorted by the field and holding the same records. */
  method SortActive(m: TransactionManager, f: SortField, algoChoice: int) returns (m': TransactionManager, route: SortRoute)
    requires m.Valid()
    ensures algoChoice < 1 || algoChoice > 2 ==> m' == m && route == NoSort
    ensures m'.Valid() && m'.useArrayDataStructure == m.useArrayDataStructure
    ensures multiset(m'.Active()) == multiset(m.Active()) && TransactionCount(m') == TransactionCount(m)
    ensures 1 <= algoChoice <= 2 ==> SortedBy(m'.Active(), f)
    ensures m.useArrayDataStructure ==> m'.transactionsLinkedList == m.transactionsLinkedList
    ensures !m.useArrayDataStructure ==> m'.transactionsArray == m.transactionsArray
    ensures 1 <= algoChoice <= 2 && m.useArrayDataStructure ==>
              route == if algoChoice == 1 then QuickSortOnArray else MergeSortOnArray
    ensures 1 <= algoChoice <= 2 && !m.useArrayDataStructure ==>
              route == if TransactionCount(m) >= IterativeThreshold then IterativeMergeSortOnList else RecursiveMergeSortOnList
  {
    if algoChoice < 1 || algoChoice > 2 {
      return m, NoSort;
    }
    if m.useArrayDataStructure {
      var sortedArray;
      sortedArray, route := SortArray(m.transactionsArray, f, algoChoice);
      assert |sortedArray.items| == |multiset(sortedArray.items)| == |multiset(m.transactionsArray.items)|;
      m' := m.(transactionsArray := sortedArray);
    } else {
      var newList;
      newList, route := SortList(m.transactionsLinkedList, f);
      m' := m.(transactionsLinkedList := newList);
    }
  }

  /** The field menu of `performSort`: 1 is the location, 2 the amount and 3
      the timestamp; 0 goes back and any other number is rejected. */
  function FieldOf(fieldChoice: int): (r: Option<SortField>)
    ensures r.None? <==> fieldChoice < 1 || fieldChoice > 3
    ensures r == Some(Location) <==> fieldChoice == 1
    ensures r == Some(Amount) <==> fieldChoice == 2
    ensures r == Some(Timestamp) <==> fieldChoice == 3
  {
    if fieldChoice < 1 || fieldChoice > 3 then None
    else if fieldChoice == 2 then Some(Amount)
    else if fieldChoice == 3 then Some(Timestamp)
    else Some(Location)
  }

  /** `performSort` with both menu choices: a field choice outside 1..3 or an
      algorithm choice outside 1..2 returns without sorting; otherwise only
      the active container changes, and it ends up sorted by the chosen field
      and holding the same records. */
  method PerformSort(m: TransactionManager, fieldChoice: int, algoChoice: int) returns (m': TransactionManager, route: SortRoute)
    requires m.Valid()
    ensures fieldChoice < 1 || fieldChoice > 3 || algoChoice < 1 || algoChoice > 2 ==> m' == m && route == NoSort
    ensures m'.Valid() && m'.useArrayDataStructure == m.useArrayDataStructure
    ensures multiset(m'.Active()) == multiset(m.Active()) && TransactionCount(m') == TransactionCount(m)
    ensures 1 <= algoChoice <= 2 && FieldOf(fieldChoice).Some? ==> SortedBy(m'.Active(), FieldOf(fieldChoice).value)
    ensures m.useArrayDataStructure ==> m'.transactionsLinkedList == m.transactionsLinkedList
    ensures !m.useArrayDataStructure ==> m'.transactionsArray == m.transactionsArray
    ensures 1 <= fieldChoice <= 3 && 1 <= algoChoice <= 2 && m.useArrayDataStructure ==>
              route == if algoChoice == 1 then QuickSortOnArray else MergeSortOnArray
    ensures 1 <= fieldChoice <= 3 && 1 <= algoChoice <= 2 && !m.useArrayDataStructure ==>
              route == if TransactionCount(m) >= IterativeThreshold then IterativeMergeSortOnList else RecursiveMergeSortOnList
  {
    var field := FieldOf(fieldChoice);
    if field.None? {
      return m, NoSort;
    }
    m', route := SortActive(m, field.value, algoChoice);
  }
}
