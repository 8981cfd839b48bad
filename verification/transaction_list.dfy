/** `TransactionLinkedList`: a singly-linked chain of nodes with head, tail and
    size. The chain reachable from `head` is `nodes`; `tail` is the record of
    the node the list appends after, and `size` is the stored count. They can
    disagree through `setHead`, and while `performSort` relinks the list's own
    nodes in place; the rebuilt list replaces the relinked one before any
    indexed read. */
module TransactionLists {
  import opened Wrappers
  import opened Transactions

  datatype TransactionList = TransactionList(nodes: seq<Transaction>, tail: Option<Transaction>, size: int)
  {
    /** Head, tail and size describe one chain. */
    ghost predicate Valid()
    {
      size == |nodes| && (nodes == [] <==> tail.None?) && (nodes != [] ==> tail == Some(nodes[|nodes| - 1]))
    }
  }

  /** The default constructor: no head, no tail, size 0, a list that already
      describes one (empty) chain. */
  function EmptyList(): (l: TransactionList)
    ensures l.Valid() && l.nodes == [] && l.tail.None? && l.size == 0
  {
    TransactionList([], None, 0)
  }

  /** `new TransactionNode(t)`: a node holding `t` whose `next` is null, that
      is, a chain of exactly that one record. */
  function NewNode(t: Transaction): (chain: seq<Transaction>)
    ensures |chain| == 1 && chain[0] == t
  {
    [t]
  }

  /** `addTransaction(tx)`: links a new node after the tail (or makes it head
      and tail of an empty list) and increments the size. */
  function AddTransaction(l: TransactionList, tx: Transaction): (r: TransactionList)
    requires l.Valid()
    ensures r.Valid()
    ensures r.nodes == l.nodes + [tx] && r.size == l.size + 1
    ensures l.nodes == [] ==> r.nodes == [tx] && r.tail == Some(tx)
  {
    if l.nodes == [] then TransactionList(NewNode(tx), Some(tx), l.size + 1)
    else TransactionList(l.nodes + NewNode(tx), Some(tx), l.size + 1)
  }

  /** `getTransaction(index)`: nothing (a null pointer) outside `[0, size)`;
      inside it, the record of the node `index` steps from the head. A stored
      size larger than the chain would walk off its end, so that is excluded. */
  method GetTransaction(l: TransactionList, index: int) returns (r: Option<Transaction>)
    requires 0 <= index < l.size ==> index < |l.nodes|
    ensures r.None? <==> index < 0 || index >= l.size
    ensures r.Some? ==> r.value == l.nodes[index]
  {
    if index < 0 || index >= l.size {
      return None;
    }
    var current := l.nodes;
    var i := 0;
    while i < index
      invariant 0 <= i <= index && current == l.nodes[i..]
    {
      current := current[1..];
      i := i + 1;
    }
    r := Some(current[0]);
  }

  /** `getHead()`: the chain from the head. */
  function GetHead(l: TransactionList): (chain: seq<Transaction>)
    ensures l.Valid() ==> |chain| == l.size && (chain != [] ==> l.tail == Some(chain[|chain| - 1]))
  {
    l.nodes
  }

  /** `setHead(newHead)`: replaces the head and nothing else. */
  function SetHead(l: TransactionList, newHead: seq<Transaction>): (r: TransactionList)
    ensures GetHead(r) == newHead
    ensures r.tail == l.tail && r.size == l.size
  {
    l.(nodes := newHead)
  }

  /** Setting the head a list already has changes nothing. */
  lemma SetHeadGetHead(l: TransactionList)
    ensures SetHead(l, GetHead(l)) == l
  {
  }

  /** The copy constructor: a fresh node for every node of `other`'s chain, in
      order, counted as it is linked. */
  method CopyList(other: TransactionList) returns (r: TransactionList)
    ensures r.Valid() && r.nodes == other.nodes
    ensures other.Valid() ==> r == other
  {
    if other.nodes == [] {
      return EmptyList();
    }
    var currentOther := other.nodes;
    r := TransactionList(NewNode(currentOther[0]), Some(currentOther[0]), 1);
    currentOther := currentOther[1..];
    while currentOther != []
      invariant r.Valid() && r.nodes + currentOther == other.nodes
      decreases |currentOther|
    {
      r := TransactionList(r.nodes + NewNode(currentOther[0]), Some(currentOther[0]), r.size + 1);
      currentOther := currentOther[1..];
    }
  }

  /** Copy assignment `*this = other`: frees this list's nodes and copies
      `other`'s, unless `other` is this very object. */
  method CopyAssign(self: TransactionList, other: TransactionList, aliased: bool) returns (r: TransactionList)
    requires aliased ==> self == other
    ensures r.nodes == other.nodes
    ensures aliased ==> r == self
    ensures !aliased ==> r.Valid()
    ensures other.Valid() ==> r == other
  {
    if aliased {
      return self;
    }
    r := CopyList(other);
  }

  /** The move constructor: takes over head, tail and size and leaves `other`
      empty. */
  function MoveList(other: TransactionList): (r: (TransactionList, TransactionList))
    ensures r.0 == other
    ensures r.1.nodes == [] && r.1.tail.None? && r.1.size == 0
  {
    (other, EmptyList())
  }

  /** Move assignment `*this = std::move(other)`: returns the new states of
      this object and of `other`; a self-move changes nothing. */
  function MoveAssign(self: TransactionList, other: TransactionList, aliased: bool): (r: (TransactionList, TransactionList))
    requires aliased ==> self == other
    ensures aliased ==> r == (self, other)
    ensures !aliased ==> r.0 == other && r.1.nodes == [] && r.1.tail.None? && r.1.size == 0
  {
    if aliased then (self, other) else MoveList(other)
  }
}
