/** `TransactionArray`: a growable buffer of records with a size and a capacity.
    The buffer's first `size` cells are `items`; cells past them hold nothing
    the program can observe, so they are not modelled. A moved-from array has
    no buffer, size 0 and capacity 0. */
module TransactionArrays {
  import opened Wrappers
  import opened Transactions

  /** The default argument of the constructor. */
  const DefaultInitialCapacity := 10

  datatype TransactionArray = TransactionArray(items: seq<Transaction>, capacity: int)
  {
    function Size(): int
    {
      |items|
    }

    /** Every object the program can reach is in this state: the size never
        exceeds the capacity. */
    ghost predicate Valid()
    {
      |items| <= capacity
    }
  }

  /** The constructor `TransactionArray(initialCapacity)`: empty, with the
      requested capacity, or the default one when the request is not positive. */
  function NewArray(initialCapacity: int): (r: TransactionArray)
    ensures r.Size() == 0 && r.Valid()
    ensures initialCapacity > 0 ==> r.capacity == initialCapacity
    ensures initialCapacity <= 0 ==> r.capacity == DefaultInitialCapacity
  {
    TransactionArray([], if initialCapacity <= 0 then DefaultInitialCapacity else initialCapacity)
  }

  /** `expandCapacity()`: a buffer of twice the capacity into which the first
      `size` cells are moved in order. */
  method ExpandCapacity(a: TransactionArray) returns (r: TransactionArray)
    ensures r.capacity == 2 * a.capacity
    ensures r.Size() == a.Size() && forall i :: 0 <= i < a.Size() ==> r.items[i] == a.items[i]
  {
    var newData: seq<Transaction> := [];
    var i := 0;
    while i < |a.items|
      invariant 0 <= i <= |a.items| && newData == a.items[..i]
    {
      newData := newData + [a.items[i]];
      i := i + 1;
    }
    r := TransactionArray(newData, a.capacity * 2);
  }

  /** `addTransaction(tx)`: grows the buffer first when it is full, then
      writes `tx` into cell `size` and increments the size. A buffer of capacity
      0 (moved from) would grow to capacity 0 and then be written past its end,
      so the capacity must be positive. */
  method AddTransaction(a: TransactionArray, tx: Transaction) returns (r: TransactionArray)
    requires a.Valid() && a.capacity > 0
    ensures r.Valid() && r.capacity > 0
    ensures r.items == a.items + [tx]
    ensures r.capacity == if a.Size() == a.capacity then 2 * a.capacity else a.capacity
  {
    var b := a;
    if |a.items| == a.capacity {
      b := ExpandCapacity(a);
      assert b.items == a.items;
    }
    r := TransactionArray(b.items + [tx], b.capacity);
  }

  /** `getTransaction(index)`: nothing (a null pointer) outside `[0, size)`,
      and cell `index` inside it. */
  function GetTransaction(a: TransactionArray, index: int): (r: Option<Transaction>)
    ensures r.None? <==> index < 0 || index >= a.Size()
    ensures r.Some? ==> r.value == a.items[index]
  {
    if index < 0 || index >= |a.items| then None else Some(a.items[index])
  }

  /** The copy constructor: a new buffer of the same capacity holding copies
      of the first `size` cells. */
  method CopyArray(other: TransactionArray) returns (r: TransactionArray)
    ensures r.capacity == other.capacity
    ensures r.Size() == other.Size() && forall i :: 0 <= i < other.Size() ==> r.items[i] == other.items[i]
  {
    var data: seq<Transaction> := [];
    var i := 0;
    while i < |other.items|
      invariant 0 <= i <= |other.items| && data == other.items[..i]
    {
      data := data + [other.items[i]];
      i := i + 1;
    }
    r := TransactionArray(data, other.capacity);
  }

  /** Copy assignment `*this = other`; `aliased` says whether `other` is this
      very object, in which case nothing happens. */
  method CopyAssign(self: TransactionArray, other: TransactionArray, aliased: bool) returns (r: TransactionArray)
    requires aliased ==> self == other
    ensures r == other
  {
    if aliased {
      return self;
    }
    r := CopyArray(other);
  }

  /** The state of an array after its buffer was moved out. */
  const MovedFrom := TransactionArray([], 0)

  /** The move constructor: takes over `other`'s buffer, size and capacity and
      leaves `other` without a buffer. */
  function MoveArray(other: TransactionArray): (r: (TransactionArray, TransactionArray))
    ensures r.0 == other
    ensures r.1.Size() == 0 && r.1.capacity == 0
  {
    (other, MovedFrom)
  }

  /** After a move every index reads the same record from the new array as
      from the old one, and nothing from the moved-from one. */
  lemma MoveKeepsRecords(other: TransactionArray, index: int)
    ensures GetTransaction(MoveArray(other).0, index) == GetTransaction(other, index)
    ensures GetTransaction(MoveArray(other).1, index).None?
  {
  }

  /** Move assignment `*this = std::move(other)`: returns the new states of
      this object and of `other`; a self-move changes nothing. */
  function MoveAssign(self: TransactionArray, other: TransactionArray, aliased: bool): (r: (TransactionArray, TransactionArray))
    requires aliased ==> self == other
    ensures aliased ==> r == (self, other)
    ensures !aliased ==> r.0 == other && r.1.Size() == 0 && r.1.capacity == 0
  {
    if aliased then (self, other) else MoveArray(other)
  }
}
