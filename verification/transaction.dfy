/** The transaction record and the orderings the sort engine compares it by. */
module Transactions {

  /** A transaction reduced to the fields the engine reads. The program keeps
      `amount` as a double; the engine only compares it, so it is an integer key
      here. */
  datatype Transaction = Transaction(
    transactionId: string,
    timestamp: string,
    location: string,
    transactionType: string,
    paymentChannel: string,
    amount: int,
    isFraud: bool)

  /** Strict lexicographic order on strings, as `std::string`'s `operator<`:
      the first differing character decides, and a proper prefix is smaller. */
  predicate StrLess(a: string, b: string)
    decreases |a|
  {
    |b| > 0 && (|a| == 0 || a[0] < b[0] || (a[0] == b[0] && StrLess(a[1..], b[1..])))
  }

  lemma {:induction false} StrLessIrreflexive(a: string)
    ensures !StrLess(a, a)
    decreases |a|
  {
    if |a| > 0 {
      StrLessIrreflexive(a[1..]);
    }
  }

  lemma {:induction false} StrLessTransitive(a: string, b: string, c: string)
    requires StrLess(a, b) && StrLess(b, c)
    ensures StrLess(a, c)
    decreases |a|
  {
    if |a| > 0 && a[0] == b[0] && b[0] == c[0] {
      StrLessTransitive(a[1..], b[1..], c[1..]);
    }
  }

  /** Any two strings are equal or ordered one way or the other. */
  lemma {:induction false} StrLessTotal(a: string, b: string)
    ensures a == b || StrLess(a, b) || StrLess(b, a)
    decreases |a|
  {
    if |a| > 0 && |b| > 0 && a[0] == b[0] {
      StrLessTotal(a[1..], b[1..]);
      if a[1..] == b[1..] {
        assert a == [a[0]] + a[1..] && b == [b[0]] + b[1..];
      }
    }
  }

  /** The fields a sort can be keyed on. */
  datatype SortField = Location | Amount | Timestamp

  /** The comparator of the sort menu: `a` should precede `b` when its key in
      the chosen field is strictly smaller. Text keys compare lexicographically. */
  predicate Before(f: SortField, a: Transaction, b: Transaction)
  {
    match f
    case Location => StrLess(a.location, b.location)
    case Amount => a.amount < b.amount
    case Timestamp => StrLess(a.timestamp, b.timestamp)
  }

  lemma BeforeIrreflexive(f: SortField, a: Transaction)
    ensures !Before(f, a, a)
  {
    match f
    case Location => StrLessIrreflexive(a.location);
    case Amount =>
    case Timestamp => StrLessIrreflexive(a.timestamp);
  }

  lemma BeforeTransitive(f: SortField, a: Transaction, b: Transaction, c: Transaction)
    requires Before(f, a, b) && Before(f, b, c)
    ensures Before(f, a, c)
  {
    match f
    case Location => StrLessTransitive(a.location, b.location, c.location);
    case Amount =>
    case Timestamp => StrLessTransitive(a.timestamp, b.timestamp, c.timestamp);
  }

  lemma BeforeAsymmetric(f: SortField, a: Transaction, b: Transaction)
    requires Before(f, a, b)
    ensures !Before(f, b, a)
  {
    if Before(f, b, a) {
      BeforeTransitive(f, a, b, a);
      BeforeIrreflexive(f, a);
    }
  }

  /** "May precede" is transitive: the comparator is a strict weak order, which
      is what every sort of the engine relies on. */
  lemma NotBeforeTransitive(f: SortField, a: Transaction, b: Transaction, c: Transaction)
    requires !Before(f, b, a) && !Before(f, c, b)
    ensures !Before(f, c, a)
  {
    match f
    case Location => StrKeysChain(a.location, b.location, c.location);
    case Amount =>
    case Timestamp => StrKeysChain(a.timestamp, b.timestamp, c.timestamp);
  }

  lemma StrKeysChain(x: string, y: string, z: string)
    requires !StrLess(y, x) && !StrLess(z, y)
    ensures !StrLess(z, x)
  {
    StrLessTotal(x, y);
    StrLessTotal(y, z);
    StrLessIrreflexive(x);
    if StrLess(z, x) {
      if x == y {
        StrLessTransitive(z, x, z);
      } else if y == z {
        StrLessTransitive(x, y, x);
      } else {
        StrLessTransitive(x, y, z);
        StrLessTransitive(x, z, x);
      }
    }
  }
}
