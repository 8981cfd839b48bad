/** The search screen: case folding and trimming of user input, the criteria
    of an advanced search, and the scans that collect matching records into a
    fresh `TransactionArray`. */
module Search {
  import opened Wrappers
  import opened Transactions
  import opened TransactionArrays
  import opened Manager

  /** `std::tolower` in the C locale: only the letters A to Z change. */
  function LowerChar(c: char): (d: char)
    ensures 'A' <= c <= 'Z' ==> d as int == c as int + 32
    ensures !('A' <= c <= 'Z') ==> d == c
  {
    if 'A' <= c <= 'Z' then (c as int - 'A' as int + 'a' as int) as char else c
  }

  /** `toLowercase`: the same length, every character through `tolower`. */
  function ToLowercase(s: string): (r: string)
    ensures |r| == |s| && forall i :: 0 <= i < |s| ==> r[i] == LowerChar(s[i])
  {
    if s == [] then [] else [LowerChar(s[0])] + ToLowercase(s[1..])
  }

  /** A lowered string has no upper-case letter left. */
  lemma LowercaseHasNoUpper(s: string)
    ensures forall i :: 0 <= i < |s| ==> !('A' <= ToLowercase(s)[i] <= 'Z')
  {
  }

  /** Lowering twice is lowering once. */
  lemma LowercaseIdempotent(s: string)
    ensures ToLowercase(ToLowercase(s)) == ToLowercase(s)
  {
  }

  /** Two strings are equal ignoring case exactly when they agree letter by
      letter after lowering. */
  predicate EqualsIgnoringCase(a: string, b: string)
  {
    ToLowercase(a) == ToLowercase(b)
  }

  /** A string equals its own lowered form ignoring case. */
  lemma EqualsIgnoringCaseOfLowered(a: string)
    ensures EqualsIgnoringCase(a, ToLowercase(a))
  {
    LowercaseIdempotent(a);
  }

  /** `find_first_not_of(' ')`: the first non-space position, or nothing
      (`npos`) when there is none. */
  function FirstNonSpace(s: string): (k: Option<nat>)
    ensures k.None? <==> forall i :: 0 <= i < |s| ==> s[i] == ' '
    ensures k.Some? ==> k.value < |s| && s[k.value] != ' ' && forall i :: 0 <= i < k.value ==> s[i] == ' '
  {
    if s == [] then None
    else if s[0] != ' ' then Some(0)
    else match FirstNonSpace(s[1..])
      case None => None
      case Some(k) => Some(k + 1)
  }

  /** `find_last_not_of(' ')`: the last non-space position, or nothing. */
  function LastNonSpace(s: string): (k: Option<nat>)
    ensures k.None? <==> forall i :: 0 <= i < |s| ==> s[i] == ' '
    ensures k.Some? ==> k.value < |s| && s[k.value] != ' ' && forall i :: k.value < i < |s| ==> s[i] == ' '
  {
    if s == [] then None
    else if s[|s| - 1] != ' ' then Some(|s| - 1)
    else LastNonSpace(s[..|s| - 1])
  }

  /** `trim`: nothing for an empty or all-space string; otherwise the part
      from the first to the last non-space character. Only `' '` counts as
      space. */
  function Trim(s: string): (r: string)
    ensures (forall i :: 0 <= i < |s| ==> s[i] == ' ') ==> r == ""
    ensures (exists i :: 0 <= i < |s| && s[i] != ' ') ==>
              r != [] && r[0] != ' ' && r[|r| - 1] != ' ' &&
              exists lo, hi :: 0 <= lo < hi <= |s| && r == s[lo..hi] &&
                (forall i :: 0 <= i < lo ==> s[i] == ' ') && (forall i :: hi <= i < |s| ==> s[i] == ' ')
  {
    match FirstNonSpace(s)
    case None => ""
    case Some(first) =>
      var last := LastNonSpace(s).value;
      assert first <= last;
      s[first..last + 1]
  }

  /** A string that neither starts nor ends with a space is its own trim. */
  lemma TrimKeepsUnpadded(s: string)
    requires s != [] && s[0] != ' ' && s[|s| - 1] != ' '
    ensures Trim(s) == s
  {
  }

  /** Trimming twice is trimming once. */
  lemma TrimIdempotent(s: string)
    ensures Trim(Trim(s)) == Trim(s)
  {
    var t := Trim(s);
    if t != [] {
      TrimKeepsUnpadded(t);
    }
  }

  /** `needle` occurs in `hay` starting at position `k`. */
  predicate OccursAt(hay: string, needle: string, k: int)
  {
    0 <= k && k + |needle| <= |hay| && hay[k..k + |needle|] == needle
  }

  /** `hay.find(needle)`: the first position at which `needle` occurs, or
      nothing (`npos`). */
  function Find(hay: string, needle: string): (k: Option<nat>)
    ensures k.None? <==> forall j :: 0 <= j <= |hay| ==> !OccursAt(hay, needle, j)
    ensures k.Some? ==> OccursAt(hay, needle, k.value) && forall j :: 0 <= j < k.value ==> !OccursAt(hay, needle, j)
    decreases |hay|
  {
    if |needle| > |hay| then None
    else if OccursAt(hay, needle, 0) then Some(0)
    else
      OccursShift(hay, needle);
      match Find(hay[1..], needle)
      case None => None
      case Some(k) =>
        assert OccursAt(hay[1..], needle, k);
        assert OccursAt(hay, needle, k + 1);
        Some(k + 1)
  }

  /** An occurrence past the first position is an occurrence in the rest. */
  lemma OccursShift(hay: string, needle: string)
    requires hay != []
    ensures forall j :: 1 <= j <= |hay| ==> (OccursAt(hay, needle, j) <==> OccursAt(hay[1..], needle, j - 1))
  {
    forall j | 1 <= j <= |hay|
      ensures OccursAt(hay, needle, j) <==> OccursAt(hay[1..], needle, j - 1)
    {
      if j + |needle| <= |hay| {
        var shifted, here := hay[1..][j - 1..j - 1 + |needle|], hay[j..j + |needle|];
        forall i | 0 <= i < |needle|
          ensures shifted[i] == here[i]
        {
        }
        assert shifted == here;
      }
    }
  }

  /** The empty string occurs at the start of every string. */
  lemma FindEmpty(hay: string)
    ensures Find(hay, "") == Some(0)
  {
  }

  /** The fields of the advanced search form. Amounts are whole numbers, as
      everywhere in this model. */
  datatype SearchCriteria = SearchCriteria(transactionType: string, location: string, paymentChannel: string,
                                           minAmount: int, maxAmount: int, hasAmountRange: bool, isFraudOnly: bool)

  /** The default constructor: empty texts, amounts 0, both flags off. */
  const DefaultCriteria := SearchCriteria("", "", "", 0, 0, false, false)

  /** What an advanced search asks of one record, criterion by criterion: an
      empty text or a cleared flag asks nothing. */
  ghost predicate MeetsCriteria(tx: Transaction, c: SearchCriteria)
  {
    && (c.transactionType != "" ==> EqualsIgnoringCase(tx.transactionType, c.transactionType))
    && (c.location != "" ==> exists k :: OccursAt(ToLowercase(tx.location), ToLowercase(c.location), k))
    && (c.paymentChannel != "" ==> EqualsIgnoringCase(tx.paymentChannel, c.paymentChannel))
    && (c.hasAmountRange ==> c.minAmount <= tx.amount <= c.maxAmount)
    && (c.isFraudOnly ==> tx.isFraud)
  }

  /** The chain of checks in `performAdvancedSearch`: `matches` starts true and
      each criterion that is set may clear it. */
  method CheckRecord(tx: Transaction, c: SearchCriteria) returns (matches: bool)
    ensures matches <==> MeetsCriteria(tx, c)
  {
    matches := true;
    if matches && c.transactionType != "" {
      if ToLowercase(tx.transactionType) != ToLowercase(c.transactionType) { matches := false; }
    }
    if matches && c.location != "" {
      if Find(ToLowercase(tx.location), ToLowercase(c.location)).None? { matches := false; }
    }
    if matches && c.paymentChannel != "" {
      if ToLowercase(tx.paymentChannel) != ToLowercase(c.paymentChannel) { matches := false; }
    }
    if matches && c.hasAmountRange {
      if tx.amount < c.minAmount || tx.amount > c.maxAmount { matches := false; }
    }
    if matches && c.isFraudOnly {
      if !tx.isFraud { matches := false; }
    }
  }

  /** A simple search by transaction type, or an advanced one. */
  datatype Query = ByType(searchType: string) | ByCriteria(criteria: SearchCriteria)

  ghost predicate Accepts(q: Query, tx: Transaction)
  {
    match q
    case ByType(searchType) => EqualsIgnoringCase(tx.transactionType, searchType)
    case ByCriteria(c) => MeetsCriteria(tx, c)
  }

  /** The records of `s` a query accepts, in order. */
  ghost function Select(s: seq<Transaction>, q: Query): (r: seq<Transaction>)
    ensures |r| <= |s|
  {
    if s == [] then []
    else Select(s[..|s| - 1], q) + (if Accepts(q, s[|s| - 1]) then [s[|s| - 1]] else [])
  }

  /** Everything selected comes from the scanned records and is accepted. */
  lemma {:induction false} SelectSound(s: seq<Transaction>, q: Query)
    ensures forall t :: t in Select(s, q) ==> t in s && Accepts(q, t)
  {
    if s != [] {
      SelectSound(s[..|s| - 1], q);
    }
  }

  /** Every accepted record is selected. */
  lemma {:induction false} SelectComplete(s: seq<Transaction>, q: Query)
    ensures forall i :: 0 <= i < |s| && Accepts(q, s[i]) ==> s[i] in Select(s, q)
  {
    if s != [] {
      var init := s[..|s| - 1];
      SelectComplete(init, q);
      forall i | 0 <= i < |init| && Accepts(q, s[i])
        ensures s[i] in Select(s, q)
      {
        assert s[i] == init[i];
      }
    }
  }

  /** Scanning one more record adds it to the selection exactly when it is
      accepted. */
  lemma SelectSnoc(s: seq<Transaction>, i: nat, q: Query)
    requires i < |s|
    ensures Select(s[..i + 1], q) == Select(s[..i], q) + (if Accepts(q, s[i]) then [s[i]] else [])
  {
    assert s[..i + 1][..i] == s[..i];
  }

  /** A query that accepts every record selects all of them. */
  lemma {:induction false} SelectAll(s: seq<Transaction>, q: Query)
    requires forall i :: 0 <= i < |s| ==> Accepts(q, s[i])
    ensures Select(s, q) == s
  {
    if s != [] {
      SelectAll(s[..|s| - 1], q);
    }
  }

  /** The default criteria ask nothing, so an advanced search with them returns
      every record. */
  lemma DefaultCriteriaSelectAll(s: seq<Transaction>)
    ensures Select(s, ByCriteria(DefaultCriteria)) == s
  {
    SelectAll(s, ByCriteria(DefaultCriteria));
  }

  /** A simple search for a non-empty type is the advanced search whose only
      criterion is that type. */
  lemma {:induction false} SimpleIsAdvancedByType(s: seq<Transaction>, searchType: string)
    requires searchType != ""
    ensures Select(s, ByType(searchType)) == Select(s, ByCriteria(DefaultCriteria.(transactionType := searchType)))
  {
    if s != [] {
      SimpleIsAdvancedByType(s[..|s| - 1], searchType);
    }
  }

  /** The results of one search: the collected copies, their count, and
      whether anything matched. */
  datatype SearchResult = SearchResult(searchResults: TransactionArray, matchCount: int, found: bool)

  /** The test one scan applies to one record; `lowered` is the query's type
      lowered once before the scan. */
  method Decide(tx: Transaction, q: Query, lowered: string) returns (matches: bool)
    requires q.ByType? ==> lowered == ToLowercase(q.searchType)
    ensures matches <==> Accepts(q, tx)
  {
    if q.ByType? {
      matches := ToLowercase(tx.transactionType) == lowered;
    } else {
      matches := CheckRecord(tx, q.criteria);
    }
  }

  /** The body of the scan for one index: a null entry is skipped; a record
      the query accepts is counted and appended to the results. */
  method Collect(res: SearchResult, txPtr: Option<Transaction>, q: Query, lowered: string) returns (res': SearchResult)
    requires q.ByType? ==> lowered == ToLowercase(q.searchType)
    requires res.searchResults.Valid() && res.searchResults.capacity > 0
    requires res.matchCount == |res.searchResults.items| && (res.found <==> res.matchCount > 0)
    ensures res'.searchResults.Valid() && res'.searchResults.capacity > 0
    ensures res'.searchResults.items ==
              res.searchResults.items + (if txPtr.Some? && Accepts(q, txPtr.value) then [txPtr.value] else [])
    ensures res'.matchCount == |res'.searchResults.items| && (res'.found <==> res'.matchCount > 0)
  {
    res' := res;
    if txPtr.None? {
      return;
    }
    var tx := txPtr.value;
    var matches := Decide(tx, q, lowered);
    if matches {
      var searchResults := AddTransaction(res.searchResults, tx);
      res' := SearchResult(searchResults, res.matchCount + 1, true);
    }
  }

  /** The scan shared by both searches: every index below the count, skipping
      indices with no record, adding each accepted record to a default-sized
      `TransactionArray`. */
  method Scan(m: TransactionManager, q: Query) returns (res: SearchResult)
    requires m.Valid()
    ensures res.searchResults.items == Select(m.Active(), q)
    ensures res.matchCount == |res.searchResults.items|
    ensures res.found <==> res.matchCount > 0
    ensures res.searchResults.Valid()
  {
    res := SearchResult(NewArray(DefaultInitialCapacity), 0, false);
    var lowered := if q.ByType? then ToLowercase(q.searchType) else "";
    ghost var all := m.Active();
    var i := 0;
    while i < TransactionCount(m)
      invariant 0 <= i <= |all| && res.searchResults.Valid() && res.searchResults.capacity > 0
      invariant res.searchResults.items == Select(all[..i], q)
      invariant res.matchCount == |res.searchResults.items| && (res.found <==> res.matchCount > 0)
    {
      var txPtr := GetTransactionAt(m, i);
      SelectSnoc(all, i, q);
      res := Collect(res, txPtr, q, lowered);
      i := i + 1;
    }
    assert all[..i] == all;
  }

  /** `performSimpleSearch`: records whose type equals the query ignoring case. */
  method SimpleSearch(m: TransactionManager, searchType: string) returns (res: SearchResult)
    requires m.Valid()
    ensures res.searchResults.items == Select(m.Active(), ByType(searchType))
    ensures forall t :: t in res.searchResults.items ==> EqualsIgnoringCase(t.transactionType, searchType)
    ensures res.matchCount == |res.searchResults.items| && (res.found <==> res.matchCount > 0)
  {
    res := Scan(m, ByType(searchType));
    SelectSound(m.Active(), ByType(searchType));
  }

  /** `performAdvancedSearch`: records meeting every criterion that is set. */
  method AdvancedSearch(m: TransactionManager, criteria: SearchCriteria) returns (res: SearchResult)
    requires m.Valid()
    ensures res.searchResults.items == Select(m.Active(), ByCriteria(criteria))
    ensures forall t :: t in res.searchResults.items ==> MeetsCriteria(t, criteria)
    ensures res.matchCount == |res.searchResults.items| && (res.found <==> res.matchCount > 0)
  {
    res := Scan(m, ByCriteria(criteria));
    SelectSound(m.Active(), ByCriteria(criteria));
  }
}
