# Transaction engine core in Dafny

This project models the core of a C++ engine for financial transactions. The engine loads
transaction records from a CSV file into two containers at once: a growable array
(`TransactionArray`) and a singly-linked list (`TransactionLinkedList`). A
`TransactionManager` owns both containers and a flag that says which one is active. Over the
active container the engine:

- sorts by location, amount or timestamp, using quicksort or mergesort on the array and a
  recursive or bottom-up mergesort on the list;
- searches by transaction type (simple search) or by a set of criteria (advanced search);
- hands records from a reader thread to a writer thread through a `ThreadSafeQueue`.

The model is value-level. A container is a datatype over `seq<Transaction>`. The "in-place"
array sorts are methods that take the buffer contents as a sequence and return the new
contents. A linked chain is the sequence of records reachable from its head. Proofs use no
heap state.

Modules, one file each:

- `Wrappers` (wrappers.dfy): `Option`, used for null pointers and `npos`.
- `Transactions` (transaction.dfy):
  - the record;
  - `std::string`'s lexicographic `<` (`StrLess`);
  - the sort comparator `Before`, and proofs that it is a strict weak order.
- `SortSpec` (sort_spec.dfy): the sortedness and permutation vocabulary, and `MergeRuns`.
  `MergeRuns` is the reference merge of two runs that the array merge and the list merge both
  produce.
- `ArraySort` (array_sort.dfy): `quickSortArray`, `merge`, `mergeSortArray`.
- `ListSort` (list_sort.dfy): `mergeSortedLists`, `splitList`, `mergeSortLinkedList`,
  `mergeSortLinkedListIterative`.
- `TransactionArrays`, `TransactionLists`: the two containers, with their copy and move
  operations.
- `Manager`: the manager's constructor, the loading loop, count and indexed access, and the
  structure switch.
- `Search`:
  - `toLowercase`, `trim`, `std::string::find`;
  - the advanced-search criteria;
  - the scans that collect matches.
- `SortDispatch`: `performSort` from the two menu choices on.
- `HandOffQueue`: the logical state machine of `ThreadSafeQueue<T>`.

The comparator for each field is `a.field < b.field`:

- Strings compare lexicographically.
- An amount is modelled as an integer, because the engine only ever compares amounts.
- On equal keys, both merges take the element of the second run first. This follows
  `comp(L[i], R[j]) ? L[i++] : R[j++]`. `MergeRuns` fixes this order, so the model describes
  exactly the output sequence of each merge, not merely some sorted permutation.

Neither merge is stable. Both loops emit the left record only when it is strictly smaller
(`comp(L[i], R[j]) ? L[i++] : R[j++]`), so of two records with equal keys the right one comes
first (`SortSpec.MergeRunsTiesTakeRight`). The sorts are proved to produce sorted permutations.

## Model

| member | source | states |
|---|---|---|
| Transactions.StrLessIrreflexive | Program_Files/tm_sort_transactions.cpp:281 | no string is lexicographically less than itself |
| Transactions.StrLessTransitive | Program_Files/tm_sort_transactions.cpp:281 | lexicographic `<` on strings is transitive |
| Transactions.StrLessTotal | Program_Files/tm_sort_transactions.cpp:281 | any two different strings are ordered one way or the other |
| Transactions.BeforeIrreflexive | Program_Files/tm_sort_transactions.cpp:279-286 | the comparator never puts a record before itself, for each of the three fields |
| Transactions.BeforeTransitive | Program_Files/tm_sort_transactions.cpp:279-286 | the comparator is transitive for each field |
| Transactions.BeforeAsymmetric | Program_Files/tm_sort_transactions.cpp:279-286 | if a comes before b then b does not come before a |
| Transactions.NotBeforeTransitive | Program_Files/tm_sort_transactions.cpp:279-286 | "not before" is transitive, so equal keys form equivalence classes (a strict weak order, which the sorts need) |
| SortSpec.MergeRuns | Program_Files/tm_sort_transactions.cpp:56-58 | the merged sequence has exactly as many records as the two runs together |
| SortSpec.MergeRunsTiesTakeRight | Program_Files/tm_sort_transactions.cpp:56 | of two records with equal keys, the merge emits the second run's record first, so it does not keep their input order |
| SortSpec.MergeRunsPermutes | Program_Files/tm_sort_transactions.cpp:56-58 | merging two runs yields exactly their records: the multiset union |
| SortSpec.MergeRunsSorted | Program_Files/tm_sort_transactions.cpp:56-58 | merging two runs sorted by a field yields a sequence sorted by that field |
| SortSpec.MergeStep | Program_Files/tm_sort_transactions.cpp:56 | one step of the merge loop: the smaller head (the right head on ties) is emitted next, and the rest of the merge continues from the shortened runs |
| SortSpec.SortedRangeSlice | Program_Files/tm_sort_transactions.cpp:295-301 | sortedness of the cells `[lo, hi)` of a buffer is the same as sortedness of that slice |
| SortSpec.Splice | Program_Files/tm_sort_transactions.cpp:56-58 | writing a rearrangement of a window's contents back into the window permutes the window and leaves every other cell alone |
| SortSpec.RangePermutation | Program_Files/tm_sort_transactions.cpp:33-47 | if two buffers agree outside a window and hold the same records overall, the windows hold the same records |
| SortSpec.AtLeastPreserved | Program_Files/tm_sort_transactions.cpp:45-46 | permuting a window keeps "no cell is before the pivot" true for that window |
| SortSpec.AtMostPreserved | Program_Files/tm_sort_transactions.cpp:45-46 | permuting a window keeps "the pivot is before no cell" true for that window |
| ArraySort.Partition | Program_Files/tm_sort_transactions.cpp:35-44 | Hoare partition around a copy of the input's cell `(left + right) / 2`: it permutes only `[left, right]`, ends with `j < i` inside the bounds, leaves no cell left of `i` after the pivot and no cell right of `j` before it |
| ArraySort.ScanUp | Program_Files/tm_sort_transactions.cpp:38 | the upward scan stops at the first cell not before the pivot, and every cell it passed is before the pivot |
| ArraySort.ScanDown | Program_Files/tm_sort_transactions.cpp:39 | the downward scan stops at the first cell the pivot is not before, and the pivot is before every cell it passed |
| ArraySort.SwapKeepsPartition | Program_Files/tm_sort_transactions.cpp:40-43 | swapping the two cells where the scans stopped keeps the partition invariant one cell further on each side |
| ArraySort.QuickSortArray | Program_Files/tm_sort_transactions.cpp:33-47 | an empty or one-cell range is left as is; otherwise cells `[left, right]` end up sorted and permuted, and every other cell is unchanged |
| ArraySort.QuickSortCombine | Program_Files/tm_sort_transactions.cpp:45-46 | sorting the two sides of a partition sorts the whole range |
| ArraySort.SortedAroundPivot | Program_Files/tm_sort_transactions.cpp:45-46 | two sorted sides split by the pivot, with a middle of pivot-equal cells, form a sorted range |
| ArraySort.Merge | Program_Files/tm_sort_transactions.cpp:49-62 | the cells `[left, right]` become exactly `MergeRuns` of `[left, mid]` and `[mid+1, right]`; nothing outside changes |
| ArraySort.WriteBack | Program_Files/tm_sort_transactions.cpp:56-58 | copying the merged output over `[left, right]` permutes that window and nothing else |
| ArraySort.MergedWindowPermutes | Program_Files/tm_sort_transactions.cpp:53-58 | the merged output holds exactly the records of the window `[left, right]` |
| ArraySort.MergeSortArray | Program_Files/tm_sort_transactions.cpp:64-70 | an empty or one-cell range is left as is; otherwise cells `[left, right]` end up sorted and permuted, and every other cell is unchanged |
| ArraySort.MergeSortCombine | Program_Files/tm_sort_transactions.cpp:66-69 | sorting both halves and merging them sorts and permutes the range |
| ArraySort.MergedHalvesSorted | Program_Files/tm_sort_transactions.cpp:69 | merging two sorted halves yields a sorted range |
| ListSort.MergeSortedLists | Program_Files/tm_sort_transactions.cpp:72-108 | a null side returns the other side unchanged; otherwise the result is `MergeRuns` of the two chains, holding exactly their records, and it is sorted when both inputs are |
| ListSort.SplitList | Program_Files/tm_sort_transactions.cpp:110-123 | a non-empty chain is cut into a front of ceil(n/2) nodes and a back of floor(n/2), which concatenate back to it |
| ListSort.MergeSortLinkedList | Program_Files/tm_sort_transactions.cpp:125-133 | chains of 0 or 1 node are returned unchanged; every result is sorted and holds the same records |
| ListSort.CountNodes | Program_Files/tm_sort_transactions.cpp:140-145 | the length loop counts every node of the chain |
| ListSort.Walk | Program_Files/tm_sort_transactions.cpp:155-158 | the walk for a run stops at the chain's end or after `size - 1` steps, whichever comes first |
| ListSort.Singletons | Program_Files/tm_sort_transactions.cpp:147 | the first pass starts from runs of one record each, one per record |
| ListSort.FlattenSingletons | Program_Files/tm_sort_transactions.cpp:147 | the one-record runs concatenate to the original chain |
| ListSort.SingletonsAreRuns | Program_Files/tm_sort_transactions.cpp:147 | the one-record runs are sorted runs of width 1 |
| ListSort.FlattenSnoc | Program_Files/tm_sort_transactions.cpp:191-199 | appending a run to the new chain appends its records |
| ListSort.TakeRun | Program_Files/tm_sort_transactions.cpp:155-167 | the walk ends on the last node of the current run; it reaches the chain's end exactly when that run is the last one |
| ListSort.NoRunsLeft | Program_Files/tm_sort_transactions.cpp:153 | no runs left means an empty remaining chain |
| ListSort.AppendRun | Program_Files/tm_sort_transactions.cpp:191-199 | appending a sorted run of at most the new width keeps the sequence of runs well-formed |
| ListSort.NextRuns | Program_Files/tm_sort_transactions.cpp:154-189 | from the start of run `q`: either it is the last run (the odd one, appended as is), or the next two runs are cut off and merged, and the chain after them is returned |
| ListSort.SecondRun | Program_Files/tm_sort_transactions.cpp:172-185 | the second walk cuts off exactly run `q` and returns the chain after it |
| ListSort.PairStep | Program_Files/tm_sort_transactions.cpp:189-203 | appending a merged pair keeps the merged runs sorted and of the doubled width, and keeps the records conserved |
| ListSort.LastStep | Program_Files/tm_sort_transactions.cpp:162-169 | appending the odd run left over keeps the merged runs well-formed and the records conserved |
| ListSort.MergePass | Program_Files/tm_sort_transactions.cpp:148-205 | one pass turns sorted runs of width `size` into sorted runs of width `2*size`, with the same records in the same total length |
| ListSort.SingleRun | Program_Files/tm_sort_transactions.cpp:147 | once the width reaches the length there is one run, so the chain is sorted |
| ListSort.MergeSortLinkedListIterative | Program_Files/tm_sort_transactions.cpp:135-208 | chains of 0 or 1 node are returned unchanged; every result is sorted and holds the same records |
| TransactionArrays.NewArray | Program_Files/custom_data_structures.cpp:4-10 | a new array is empty, with the requested capacity or 10 when the request is not positive |
| TransactionArrays.ExpandCapacity | Program_Files/custom_data_structures.cpp:19-29 | growing doubles the capacity and keeps every stored record in its cell |
| TransactionArrays.AddTransaction | Program_Files/custom_data_structures.cpp:31-36 | the records become the old ones followed by the new record; the capacity doubles exactly when the buffer was full and stays otherwise |
| TransactionArrays.GetTransaction | Program_Files/custom_data_structures.cpp:42-48 | null exactly for an index outside `[0, size)`; otherwise the record in that cell |
| TransactionArrays.CopyArray | Program_Files/custom_data_structures.cpp:65-70 | a copy has the same capacity and the same records in the same cells |
| TransactionArrays.CopyAssign | Program_Files/custom_data_structures.cpp:72-84 | after copy assignment this array equals `other`, including on self-assignment |
| TransactionArrays.MoveArray | Program_Files/custom_data_structures.cpp:86-91 | the new array takes over `other` whole; `other` is left empty with capacity 0 |
| TransactionArrays.MoveKeepsRecords | Program_Files/custom_data_structures.cpp:86-91 | after a move, every index reads the same record from the new array as from the old one, and nothing from the moved-from array |
| TransactionArrays.MoveAssign | Program_Files/custom_data_structures.cpp:93-106 | a self-move changes nothing; otherwise this array becomes `other` and `other` is left empty with capacity 0 |
| TransactionLists.EmptyList | Program_Files/custom_data_structures.cpp:109 | a new list has no head, no tail and size 0, and already satisfies the list invariant |
| TransactionLists.NewNode | Program_Files/custom_data_structures.h:35 | a new node is a chain of exactly one record |
| TransactionLists.AddTransaction | Program_Files/custom_data_structures.cpp:123-133 | appending links the record after the tail, which it becomes, and grows the size by one; on an empty list it becomes both head and tail |
| TransactionLists.GetTransaction | Program_Files/custom_data_structures.cpp:139-149 | null exactly for an index outside `[0, size)`; otherwise the record `index` steps from the head |
| TransactionLists.GetHead | Program_Files/custom_data_structures.h:56 | the chain from the head of a consistent list has `size` nodes and ends at the tail |
| TransactionLists.SetHead | Program_Files/custom_data_structures.h:57 | setting the head changes the chain and keeps the tail and the size |
| TransactionLists.SetHeadGetHead | Program_Files/custom_data_structures.h:56-57 | setting the head a list already has changes nothing |
| TransactionLists.CopyList | Program_Files/custom_data_structures.cpp:163-180 | a copy is a consistent list with the same records; copying a consistent list gives an equal one |
| TransactionLists.CopyAssign | Program_Files/custom_data_structures.cpp:182-210 | after copy assignment this list holds `other`'s records; self-assignment changes nothing |
| TransactionLists.MoveList | Program_Files/custom_data_structures.cpp:212-217 | the new list takes over head, tail and size; `other` is left empty |
| TransactionLists.MoveAssign | Program_Files/custom_data_structures.cpp:219-236 | a self-move changes nothing; otherwise this list becomes `other` and `other` is left empty |
| Manager.NewManager | Program_Files/transaction_manager.cpp:9-16 | a new manager has an empty array of capacity 500000, an empty list, and the array active |
| Manager.ParseFraudFlag | Program_Files/transaction_manager.cpp:44 | a row is fraudulent exactly when its fraud column is `True` or `true`; every other token, `TRUE` and `1` included, is not |
| Manager.RecordOf | Program_Files/transaction_manager.cpp:34-52 | each kept column lands in the field of the same name, the amount as read, and the fraud flag as `ParseFraudFlag` reads it |
| Manager.RecordsOf | Program_Files/transaction_manager.cpp:33-57 | one record per row, in row order |
| Manager.RecordsOfSnoc | Program_Files/transaction_manager.cpp:33-57 | reading one more row appends its record at the end |
| Manager.LoadTransactions | Program_Files/transaction_manager.cpp:33-59 | every row's record is appended to both the array and the list, the count equals the number of rows, the load returns true, and the flag is untouched |
| Manager.TransactionCount | Program_Files/transaction_manager.cpp:62-68 | the count is the active container's size |
| Manager.GetTransactionAt | Program_Files/transaction_manager.cpp:70-76 | null exactly for an index outside `[0, count)`; otherwise the record at that index of the active container |
| Manager.SwitchDataStructure | Program_Files/transaction_manager.cpp:102-121 | choice 1 activates the array and 2 the list; failed input or any other number changes nothing; the containers are never touched |
| Manager.SetActiveDataStructure | Program_Files/transaction_manager.h:60-63 | sets the flag and leaves both containers alone |
| Manager.SwitchIsSetActive | Program_Files/transaction_manager.cpp:112-117 | choosing 1 or 2 is the same as setting the flag to array or list |
| Manager.SwitchIdempotent | Program_Files/transaction_manager.cpp:112-120 | making the same menu choice twice is the same as making it once |
| Manager.LoadedManagerAgrees | Program_Files/transaction_manager.cpp:54-55 | after a load both containers hold the same records, so switching changes neither the count nor any record read |
| Search.LowerChar | Program_Files/tm_search_transactions.cpp:35 | `tolower` maps A to Z onto a to z and leaves every other character alone |
| Search.ToLowercase | Program_Files/tm_search_transactions.cpp:32-37 | lowering keeps the length and maps each character through `tolower` |
| Search.LowercaseHasNoUpper | Program_Files/tm_search_transactions.cpp:32-37 | a lowered string has no letter from A to Z left |
| Search.LowercaseIdempotent | Program_Files/tm_search_transactions.cpp:32-37 | lowering twice is lowering once |
| Search.EqualsIgnoringCaseOfLowered | Program_Files/tm_search_transactions.cpp:32-37 | a string equals its own lowered form ignoring case |
| Search.FirstNonSpace | Program_Files/tm_search_transactions.cpp:40 | `find_first_not_of(' ')` gives the first non-space position, or `npos` exactly when every character is a space |
| Search.LastNonSpace | Program_Files/tm_search_transactions.cpp:42 | `find_last_not_of(' ')` gives the last non-space position, or `npos` exactly when every character is a space |
| Search.Trim | Program_Files/tm_search_transactions.cpp:39-44 | an empty or all-space string trims to `""`; otherwise the result is the slice starting and ending with a non-space, with only spaces cut off on either side |
| Search.TrimKeepsUnpadded | Program_Files/tm_search_transactions.cpp:39-44 | a non-empty string that neither starts nor ends with a space is its own trim |
| Search.TrimIdempotent | Program_Files/tm_search_transactions.cpp:39-44 | trimming twice is trimming once |
| Search.OccursShift | Program_Files/tm_search_transactions.cpp:194 | an occurrence at a position past 0 is an occurrence one position earlier in the rest of the string |
| Search.Find | Program_Files/tm_search_transactions.cpp:194 | `find` gives the first position of an occurrence, or `npos` exactly when there is none |
| Search.FindEmpty | Program_Files/tm_search_transactions.cpp:194 | the empty string is found at position 0 of every string |
| Search.CheckRecord | Program_Files/tm_search_transactions.cpp:188-204 | the chain of checks accepts a record exactly when it meets every criterion that is set: type and channel equal ignoring case, the location containing the query ignoring case, the amount inside the inclusive range, and the record being fraudulent |
| Search.SelectSound | Program_Files/tm_search_transactions.cpp:94-98 | every selected record is one of the scanned records and is accepted by the query |
| Search.SelectComplete | Program_Files/tm_search_transactions.cpp:94-98 | every scanned record the query accepts is selected |
| Search.SelectSnoc | Program_Files/tm_search_transactions.cpp:87-98 | scanning one more record appends it exactly when it is accepted |
| Search.SelectAll | Program_Files/tm_search_transactions.cpp:206-210 | a query that accepts every record selects all of them, in order |
| Search.DefaultCriteriaSelectAll | Program_Files/tm_search_transactions.cpp:55 | with the default criteria an advanced search returns every record |
| Search.SimpleIsAdvancedByType | Program_Files/tm_search_transactions.cpp:94 | a simple search for a non-empty type selects exactly what an advanced search with only that type set selects |
| Search.Decide | Program_Files/tm_search_transactions.cpp:94 | the per-record test of a scan accepts exactly what the query accepts |
| Search.Collect | Program_Files/tm_search_transactions.cpp:88-98 | one step of the scan: a null entry is skipped, and an accepted record is appended to the results and counted |
| Search.Scan | Program_Files/tm_search_transactions.cpp:77-119 | the results are the accepted records of the active container in scan order; `matchCount` is their number; `found` says whether there is any |
| Search.SimpleSearch | Program_Files/tm_search_transactions.cpp:68-119 | the results are the records whose type equals the query ignoring case, in order, counted by `matchCount` |
| Search.AdvancedSearch | Program_Files/tm_search_transactions.cpp:168-210 | the results are the records meeting every criterion that is set, in order, counted by `matchCount` |
| SortDispatch.CountNodesUpTo | Program_Files/tm_sort_transactions.cpp:303-309 | the counting loop stops at the chain's end or at the cap, so the count is the smaller of the two |
| SortDispatch.Rebuild | Program_Files/tm_sort_transactions.cpp:325-330 | appending the sorted chain node by node builds a consistent list with exactly that sequence |
| SortDispatch.SortArray | Program_Files/tm_sort_transactions.cpp:295-301 | choice 1 runs quicksort and any other choice mergesort over `[0, size-1]`; the buffer ends sorted with the same records |
| SortDispatch.SortList | Program_Files/tm_sort_transactions.cpp:302-331 | whatever algorithm was chosen, the list is sorted by mergesort: bottom-up exactly when it has at least 5000 nodes, recursive otherwise; the new list holds the same records, sorted, with the same size |
| SortDispatch.SortActive | Program_Files/tm_sort_transactions.cpp:272-331 | an algorithm choice outside 1..2 changes nothing; otherwise only the active container changes, and it ends sorted with the same records and count |
| SortDispatch.FieldOf | Program_Files/tm_sort_transactions.cpp:247-260 | the field menu: 1 selects the location, 2 the amount, 3 the timestamp, and exactly the choices outside 1..3 select nothing |
| SortDispatch.PerformSort | Program_Files/tm_sort_transactions.cpp:236-331 | a field choice outside 1..3 or an algorithm choice outside 1..2 changes nothing; otherwise only the active container changes, and it ends sorted by the chosen field with the same records and count |
| HandOffQueue.Empty | Program_Files/csv_json_processing.h:14-18 | a new queue holds nothing and is not finished |
| HandOffQueue.Push | Program_Files/csv_json_processing.h:20-26 | `push` appends at the back and leaves the finished flag as it was, even when the queue is finished |
| HandOffQueue.Finish | Program_Files/csv_json_processing.h:35-41 | `finish` sets the flag and keeps the queued values |
| HandOffQueue.FinishIdempotent | Program_Files/csv_json_processing.h:35-41 | finishing twice is finishing once |
| HandOffQueue.Pop | Program_Files/csv_json_processing.h:27-34 | once the wait is over, `pop` returns false exactly on an empty queue, changing nothing; otherwise it yields the front value and removes it |
| HandOffQueue.PushAll | Program_Files/csv_json_processing.cpp:45 | pushing values one by one appends them in order |
| HandOffQueue.Drain | Program_Files/csv_json_processing.cpp:63 | the consumer loop on a finished queue receives every queued value in order and leaves the queue empty |
| HandOffQueue.FifoHandOff | Program_Files/csv_json_processing.cpp:45-47 | starting from a new queue (empty, not finished), values pushed before `finish` come out in the order they went in, and `pop` then reports the end |

## Left out

- CSV reading and parsing (`io::CSVReader`, `strtod`) is not modelled. Rows arrive already split
  into fields, and an amount arrives as a number. The columns the engine never reads are dropped
  from the record. A file that cannot be opened makes the reader throw, which is not modelled.
- Floating point is not modelled: amounts are integers. The engine only compares amounts with
  `<` and `>`, so a NaN amount, whose comparisons are all false, is the one case the model
  cannot describe.
- Threads, the mutex and condition variable, `notify_*`, and the global `txQueue` are not
  modelled. `pop`'s blocking wait is its precondition.
- Printing the menus, console output, timings, memory statistics, `getCurrentDataStructureName`,
  `displayDataStructureInfo`, JSON export and store-by-payment-channel are not modelled. The
  numbers `performSort` and `switchDataStructure` read from their menus are parameters.
- Raw pointers, `new`/`delete` and leaked nodes are not modelled. In `performSort`, the sorted
  chain reuses the old list's nodes, and copy-assigning the rebuilt list frees only the nodes
  reachable from the old head. That costs memory but changes no value, so the model has only
  the values.
- `getDataPointer` aliasing is not modelled: a sort is a function from the buffer's first
  `size` cells to their new contents.
- Buffer cells past `size` are not modelled, because no operation reads them.
- TransactionArrays.AddTransaction: requires a positive capacity. A moved-from array has
  capacity 0, so in the source its "doubled" capacity is still 0 and the write goes out of
  bounds.
- TransactionArrays.ExpandCapacity: `capacity * 2` and the bottom-up width `size *= 2` are
  unbounded here. In the source they overflow a 32-bit `int` only beyond 2^30 records.
- TransactionLists.GetTransaction: requires a stored size no larger than the chain. The
  engine breaks that only inside `performSort`: the list mergesorts relink the list's own nodes
  (Program_Files/tm_sort_transactions.cpp:318-322), so until the copy-assign at line 331 the
  head reaches only part of the sorted chain and the old tail node may have a successor. No
  indexed read happens in that window, and the copy-assign replaces the list with a consistent
  one. Outside it, only `setHead`, which the engine never calls, could break the requirement,
  and the source would then follow a null `next`.
- TransactionLists.SetHead: the tail is modelled as a record, not as a node's identity.
  So after `setHead` the model cannot say whether the old tail node is still reachable.
- ListSort.MergeSortedLists: the `result = a ? a : b` branch runs only when no node was
  emitted, and both runs are then non-empty. That branch is unreachable and is left out.
- The sorts are not claimed stable. Quicksort swaps across the window, and each merge takes
  the second run's element first on equal keys. No relation between the orders the recursive and
  the bottom-up list sorts give to equal keys is stated. Each sort is proved to give a sorted
  permutation, and each merge is proved equal to `MergeRuns`.
- Search.Scan: the search loops catch any `std::exception` around each record
  (Program_Files/tm_search_transactions.cpp:88-118 and 184-231) and stop the search there,
  keeping the matches found so far. Such an exception could only be a failed allocation while
  copying a record or growing the result array, which the model does not have, so the scan
  always visits every record.
- ArraySort.Partition: the midpoint is `(left + right) / 2` on unbounded integers. In the source
  that sum overflows a 32-bit `int` once `left + right` exceeds 2^31 - 1, that is for windows
  past about 2^30 records; the array mergesort's `left + (right - left) / 2` does not.
- Strings are sequences of `char`. `tolower` is the C-locale mapping of A to Z, and there is
  no encoding or multi-byte handling.
