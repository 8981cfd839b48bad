/** `TransactionManager`: one array and one linked list holding the same
    records, and a flag choosing which of the two the rest of the program reads. */
module Manager {
  import opened Wrappers
  import opened Transactions
  import opened TransactionArrays
  import opened TransactionLists

  /** The capacity the manager asks for when it builds its array. */
  const ManagerArrayCapacity := 500000

  datatype TransactionManager = TransactionManager(transactionsArray: TransactionArray, transactionsLinkedList: TransactionList, useArrayDataStructure: bool)
  {
    /** Both containers in a reachable state, the array with a buffer. */
    ghost predicate Valid()
    {
      transactionsArray.Valid() && transactionsArray.capacity > 0 && transactionsLinkedList.Valid()
    }

    /** The records of the container the flag selects. */
    ghost function Active(): seq<Transaction>
    {
      if useArrayDataStructure then transactionsArray.items else transactionsLinkedList.nodes
    }
  }

  /** The constructor: an array of capacity 500000, an empty list, and the
      array active. */
  function NewManager(): (m: TransactionManager)
    ensures m.Valid() && m.useArrayDataStructure
    ensures m.transactionsArray.Size() == 0 && m.transactionsArray.capacity == ManagerArrayCapacity
    ensures m.transactionsLinkedList.nodes == [] && m.transactionsLinkedList.size == 0
  {
    TransactionManager(NewArray(ManagerArrayCapacity), EmptyList(), true)
  }

  /** The columns of a CSV row the engine keeps, already split into fields.
      The amount arrives as a number, since its text is converted by the C
      library. */
  datatype CsvRow = CsvRow(transactionId: string, timestamp: string, amount: int, transactionType: string,
                           location: string, isFraud: string, paymentChannel: string)

  /** The `isFraud` column read as a flag: exactly the two spellings `True`
      and `true` mean fraudulent; every other token, `TRUE` and `1` included,
      reads as not fraudulent. */
  function ParseFraudFlag(token: string): (b: bool)
    ensures b <==> token == "True" || token == "true"
  {
    token == "True" || token == "true"
  }

  /** The record built from one row: every kept column lands in the field of
      the same name, and the fraud column is read as a flag. */
  function RecordOf(row: CsvRow): (tx: Transaction)
    ensures tx.transactionId == row.transactionId && tx.timestamp == row.timestamp && tx.amount == row.amount
    ensures tx.transactionType == row.transactionType && tx.location == row.location
    ensures tx.paymentChannel == row.paymentChannel && tx.isFraud == ParseFraudFlag(row.isFraud)
  {
    Transaction(row.transactionId, row.timestamp, row.location, row.transactionType, row.paymentChannel,
                row.amount, ParseFraudFlag(row.isFraud))
  }

  /** The records of the rows, in order. */
  function RecordsOf(rows: seq<CsvRow>): (txs: seq<Transaction>)
    ensures |txs| == |rows| && forall i :: 0 <= i < |rows| ==> txs[i] == RecordOf(rows[i])
  {
    if rows == [] then [] else RecordsOf(rows[..|rows| - 1]) + [RecordOf(rows[|rows| - 1])]
  }

  /** One more row read is one more record at the end. */
  lemma RecordsOfSnoc(rows: seq<CsvRow>, k: nat)
    requires k < |rows|
    ensures RecordsOf(rows[..k + 1]) == RecordsOf(rows[..k]) + [RecordOf(rows[k])]
  {
    assert rows[..k + 1][..k] == rows[..k];
  }

  /** The loading loop of `loadTransactionsFromCsv`: every row's record is
      appended to the array and then to the list, and the load reports success. */
  method LoadTransactions(m: TransactionManager, rows: seq<CsvRow>)
    returns (m': TransactionManager, ok: bool, count: int)
    requires m.Valid()
    ensures m'.Valid() && ok && count == |rows|
    ensures m'.transactionsArray.items == m.transactionsArray.items + RecordsOf(rows)
    ensures m'.transactionsLinkedList.nodes == m.transactionsLinkedList.nodes + RecordsOf(rows)
    ensures m'.useArrayDataStructure == m.useArrayDataStructure
  {
    m' := m;
    count := 0;
    while count < |rows|
      invariant 0 <= count <= |rows| && m'.Valid() && m'.useArrayDataStructure == m.useArrayDataStructure
      invariant m'.transactionsArray.items == m.transactionsArray.items + RecordsOf(rows[..count])
      invariant m'.transactionsLinkedList.nodes == m.transactionsLinkedList.nodes + RecordsOf(rows[..count])
    {
      var tx := RecordOf(rows[count]);
      RecordsOfSnoc(rows, count);
      var grown := TransactionArrays.AddTransaction(m'.transactionsArray, tx);
      var linked := TransactionLists.AddTransaction(m'.transactionsLinkedList, tx);
      m' := TransactionManager(grown, linked, m'.useArrayDataStructure);
      count := count + 1;
    }
    assert rows[..count] == rows;
    ok := true;
  }

  /** `getTransactionCount()`: the size of the active container. */
  function TransactionCount(m: TransactionManager): (n: int)
    ensures m.useArrayDataStructure ==> n == m.transactionsArray.Size()
    ensures !m.useArrayDataStructure ==> n == m.transactionsLinkedList.size
    ensures m.Valid() ==> n == |m.Active()|
  {
    if m.useArrayDataStructure then m.transactionsArray.Size() else m.transactionsLinkedList.size
  }

  /** `getTransactionPtrAt(index)`: the active container's `getTransaction`. */
  method GetTransactionAt(m: TransactionManager, index: int) returns (r: Option<Transaction>)
    requires !m.useArrayDataStructure ==> m.transactionsLinkedList.Valid()
    ensures r.None? <==> index < 0 || index >= TransactionCount(m)
    ensures r.Some? ==> r.value == m.Active()[index]
    ensures m.useArrayDataStructure ==> r == TransactionArrays.GetTransaction(m.transactionsArray, index)
  {
    if m.useArrayDataStructure {
      r := TransactionArrays.GetTransaction(m.transactionsArray, index);
    } else {
      r := TransactionLists.GetTransaction(m.transactionsLinkedList, index);
    }
  }

  /** `switchDataStructure()`: the menu choice read, or `None` when reading a
      number failed. 1 selects the array, 2 the list, and anything else changes
      nothing; the containers are never touched. */
  function SwitchDataStructure(m: TransactionManager, choice: Option<int>): (m': TransactionManager)
    ensures m'.transactionsArray == m.transactionsArray && m'.transactionsLinkedList == m.transactionsLinkedList
    ensures choice == Some(1) ==> m'.useArrayDataStructure
    ensures choice == Some(2) ==> !m'.useArrayDataStructure
    ensures choice != Some(1) && choice != Some(2) ==> m' == m
  {
    match choice
    case Some(c) =>
      if c == 1 then m.(useArrayDataStructure := true)
      else if c == 2 then m.(useArrayDataStructure := false)
      else m
    case None => m
  }

  /** `setActiveDataStructure(useArray)`: sets the flag and nothing else. */
  function SetActiveDataStructure(m: TransactionManager, useArray: bool): (m': TransactionManager)
    ensures m'.useArrayDataStructure == useArray
    ensures m'.transactionsArray == m.transactionsArray && m'.transactionsLinkedList == m.transactionsLinkedList
  {
    m.(useArrayDataStructure := useArray)
  }

  /** The two valid menu choices are `setActiveDataStructure` with the
      matching flag. */
  lemma SwitchIsSetActive(m: TransactionManager)
    ensures SwitchDataStructure(m, Some(1)) == SetActiveDataStructure(m, true)
    ensures SwitchDataStructure(m, Some(2)) == SetActiveDataStructure(m, false)
  {
  }

  /** Making the same menu choice twice is the same as making it once. */
  lemma SwitchIdempotent(m: TransactionManager, choice: Option<int>)
    ensures SwitchDataStructure(SwitchDataStructure(m, choice), choice) == SwitchDataStructure(m, choice)
  {
  }

  /** Loading into a new manager leaves both containers holding the same
      records, so what the rest of the program reads does not depend on the
      flag: switching changes neither the count nor any record. */
  lemma LoadedManagerAgrees(rows: seq<CsvRow>, m: TransactionManager, choice: Option<int>)
    requires m.Valid() && m.transactionsArray.items == RecordsOf(rows) && m.transactionsLinkedList.nodes == RecordsOf(rows)
    ensures TransactionCount(SwitchDataStructure(m, choice)) == TransactionCount(m) == |rows|
    ensures SwitchDataStructure(m, choice).Active() == m.Active() == RecordsOf(rows)
  {
  }
}
