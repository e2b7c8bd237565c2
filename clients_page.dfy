/**
 * The search filter of the clients page: the list of clients the page shows
 * for the text typed in its search box, and the "found" count above it.
 */
module ClientsPage {

  import opened Wrappers
  import opened JsString

  /**
   * A client record as the client service returns it. `id` is the record's
   * `_id`; `balance` is the balance already rendered by `toString()`.
   */
  datatype Client = Client(
    id: string,
    firstName: Option<string>,
    lastName: Option<string>,
    walletBTCAddress: Option<string>,
    balance: string)

  /**
   * The search value as the filter uses it: trimmed, then lower-cased. It is
   * empty exactly when the typed text is all whitespace.
   */
  function NormalizeQuery(searchValue: string): (value: string)
    ensures |value| <= |searchValue|
    ensures Trimmed(value) && NoUpper(value)
    ensures value == [] <==> AllWhitespace(searchValue)
  {
    TrimEmptyIff(searchValue);
    ToLowerNoUpper(Trim(searchValue));
    ToLowerKeepsWhitespace(Trim(searchValue));
    ToLower(Trim(searchValue))
  }

  /** `field?.toLowerCase().includes(value)`: an absent field never matches. */
  predicate OptionalIncludes(field: Option<string>, value: string): (b: bool)
    ensures field.None? ==> !b
    ensures field.Some? && value == [] ==> b
    ensures b ==> |value| <= |field.value|
  {
    match field
    case None => false
    case Some(s) => Includes(ToLower(s), value)
  }

  /**
   * The per-client test: `value` occurs, ignoring case, in one of five
   * fields. The empty value matches every client.
   */
  predicate Matches(c: Client, value: string): (b: bool)
    ensures value == [] ==> b
  {
    || Includes(ToLower(c.id), value)
    || OptionalIncludes(c.firstName, value)
    || OptionalIncludes(c.lastName, value)
    || OptionalIncludes(c.walletBTCAddress, value)
    || Includes(ToLower(c.balance), value)
  }

  /** `clients.filter(...)`: the clients that match, in their original order. */
  function FilterMatching(clients: seq<Client>, value: string): (r: seq<Client>)
    ensures |r| <= |clients|
    ensures forall c :: c in r ==> c in clients && Matches(c, value)
  {
    if clients == [] then []
    else (if Matches(clients[0], value) then [clients[0]] else [])
         + FilterMatching(clients[1..], value)
  }

  /** `filteredClients`: the whole list for a blank search, else the matching clients. */
  function FilteredClients(clients: seq<Client>, searchValue: string): (r: seq<Client>)
    ensures |r| <= |clients|
    ensures AllWhitespace(searchValue) ==> r == clients
    ensures forall c :: c in r ==> c in clients
  {
    var value := NormalizeQuery(searchValue);
    if value == [] then clients else FilterMatching(clients, value)
  }

  /** The number shown beside "found". */
  function FoundCount(clients: seq<Client>, searchValue: string): (n: nat)
    ensures n <= |clients|
    ensures AllWhitespace(searchValue) ==> n == |clients|
  {
    |FilteredClients(clients, searchValue)|
  }

  // ---------------------------------------------------------------------------
  // Reference definitions

  /**
   * Whether the page lists client `c` for the normalised search value
   * `value`: the early return for an empty value, else the match. Since the
   * empty value matches every client, this is the match alone.
   */
  predicate Listed(c: Client, value: string): (b: bool)
    ensures b == Matches(c, value)
  {
    value == [] || Matches(c, value)
  }

  /** The fields of `c` the search can look at: the optional ones only when present. */
  function SearchableFields(c: Client): (fields: seq<string>)
    ensures 2 <= |fields| <= 5
    ensures c.id in fields && c.balance in fields
    ensures c.firstName.Some? ==> c.firstName.value in fields
    ensures c.lastName.Some? ==> c.lastName.value in fields
    ensures c.walletBTCAddress.Some? ==> c.walletBTCAddress.value in fields
    ensures forall f :: f in fields ==>
              || f == c.id || f == c.balance
              || Some(f) == c.firstName || Some(f) == c.lastName || Some(f) == c.walletBTCAddress
  {
    [c.id] + Present(c.firstName) + Present(c.lastName) + Present(c.walletBTCAddress) + [c.balance]
  }

  function Present(field: Option<string>): seq<string> {
    match field
    case None => []
    case Some(s) => [s]
  }

  /** The positions `from..` of `clients` that the page lists, in increasing order. */
  function ListedPositionsFrom(clients: seq<Client>, value: string, from: nat): (idx: seq<nat>)
    requires from <= |clients|
    ensures forall k :: 0 <= k < |idx| ==> from <= idx[k] < |clients|
    ensures forall k, l :: 0 <= k < l < |idx| ==> idx[k] < idx[l]
    ensures forall j: nat :: from <= j < |clients| ==> (j in idx <==> Listed(clients[j], value))
    decreases |clients| - from
  {
    if from == |clients| then []
    else
      var rest := ListedPositionsFrom(clients, value, from + 1);
      if Listed(clients[from], value) then
        assert forall j: nat :: j in [from] + rest <==> j == from || j in rest;
        [from] + rest
      else
        rest
  }

  /** The positions of `clients` that the page lists for the typed search value. */
  function ListedPositions(clients: seq<Client>, searchValue: string): (idx: seq<nat>)
    ensures forall k :: 0 <= k < |idx| ==> idx[k] < |clients|
    ensures forall k, l :: 0 <= k < l < |idx| ==> idx[k] < idx[l]
    ensures forall j: nat :: j < |clients| ==> (j in idx <==> Listed(clients[j], NormalizeQuery(searchValue)))
  {
    ListedPositionsFrom(clients, NormalizeQuery(searchValue), 0)
  }

  // ---------------------------------------------------------------------------
  // Properties

  /** A client matches exactly when the query occurs in one of its present fields. */
  lemma MatchesIffSomeField(c: Client, value: string)
    ensures Matches(c, value) <==> exists f :: f in SearchableFields(c) && Includes(ToLower(f), value)
  {
    var fields := SearchableFields(c);
    if Matches(c, value) {
      if Includes(ToLower(c.id), value) {
        assert c.id in fields;
      } else if OptionalIncludes(c.firstName, value) {
        assert c.firstName.value in fields;
      } else if OptionalIncludes(c.lastName, value) {
        assert c.lastName.value in fields;
      } else if OptionalIncludes(c.walletBTCAddress, value) {
        assert c.walletBTCAddress.value in fields;
      } else {
        assert c.balance in fields;
      }
    }
  }

  /** With every optional field absent, only `_id` and the balance can match. */
  lemma AbsentFieldsNeverMatch(c: Client, value: string)
    requires c.firstName.None? && c.lastName.None? && c.walletBTCAddress.None?
    ensures Matches(c, value) <==> Includes(ToLower(c.id), value) || Includes(ToLower(c.balance), value)
  {
  }

  lemma {:induction false} FilterMatchingMultiplicity(clients: seq<Client>, value: string, c: Client)
    ensures multiset(FilterMatching(clients, value))[c]
            == if Matches(c, value) then multiset(clients)[c] else 0
  {
    if clients != [] {
      FilterMatchingMultiplicity(clients[1..], value, c);
      assert clients == [clients[0]] + clients[1..];
    }
  }

  /**
   * Each listed client appears as many times as in the input and each
   * other client not at all: nothing is duplicated or invented.
   */
  lemma FilteredMultiplicity(clients: seq<Client>, searchValue: string, c: Client)
    ensures multiset(FilteredClients(clients, searchValue))[c]
            == if Listed(c, NormalizeQuery(searchValue)) then multiset(clients)[c] else 0
  {
    if NormalizeQuery(searchValue) != [] {
      FilterMatchingMultiplicity(clients, NormalizeQuery(searchValue), c);
    }
  }

  /** Sound and complete: a client is shown exactly when it is in the list and matches. */
  lemma FilteredSoundAndComplete(clients: seq<Client>, searchValue: string, c: Client)
    ensures c in FilteredClients(clients, searchValue) <==> c in clients && Listed(c, NormalizeQuery(searchValue))
  {
    FilteredMultiplicity(clients, searchValue, c);
    assert c in FilteredClients(clients, searchValue) <==> multiset(FilteredClients(clients, searchValue))[c] > 0;
    assert c in clients <==> multiset(clients)[c] > 0;
  }

  /** `r` is `clients` read at the positions `idx`. */
  predicate ReadAt(clients: seq<Client>, idx: seq<nat>, r: seq<Client>) {
    |r| == |idx| && forall k :: 0 <= k < |r| ==> idx[k] < |clients| && r[k] == clients[idx[k]]
  }

  lemma ReadAtConcat(clients: seq<Client>, idx1: seq<nat>, r1: seq<Client>, idx2: seq<nat>, r2: seq<Client>)
    requires ReadAt(clients, idx1, r1) && ReadAt(clients, idx2, r2)
    ensures ReadAt(clients, idx1 + idx2, r1 + r2)
  {
  }

  lemma {:induction false} FilterMatchingSelects(clients: seq<Client>, value: string, from: nat)
    requires from <= |clients|
    ensures ReadAt(clients, ListedPositionsFrom(clients, value, from), FilterMatching(clients[from..], value))
    decreases |clients| - from
  {
    if from < |clients| {
      FilterMatchingSelects(clients, value, from + 1);
      var keep := Matches(clients[from], value);
      var head := if keep then [clients[from]] else [];
      var headIdx := if keep then [from] else [];
      assert FilterMatching(clients[from..], value) == head + FilterMatching(clients[from + 1..], value) by {
        assert clients[from..][0] == clients[from];
        assert clients[from..][1..] == clients[from + 1..];
      }
      assert ListedPositionsFrom(clients, value, from) == headIdx + ListedPositionsFrom(clients, value, from + 1);
      ReadAtConcat(clients, headIdx, head, ListedPositionsFrom(clients, value, from + 1),
                   FilterMatching(clients[from + 1..], value));
    }
  }

  lemma {:induction false} AllPositionsFrom(clients: seq<Client>, from: nat)
    requires from <= |clients|
    ensures var idx := ListedPositionsFrom(clients, [], from);
            |idx| == |clients| - from && forall k :: 0 <= k < |idx| ==> idx[k] == from + k
    decreases |clients| - from
  {
    if from < |clients| {
      AllPositionsFrom(clients, from + 1);
    }
  }

  /**
   * The shown list is the input restricted to the listed positions, in
   * increasing order: a subsequence of the input, order preserved.
   */
  lemma FilteredIsOrderedSelection(clients: seq<Client>, searchValue: string)
    ensures var r := FilteredClients(clients, searchValue);
            var idx := ListedPositions(clients, searchValue);
            |r| == |idx| && forall k :: 0 <= k < |r| ==> r[k] == clients[idx[k]]
  {
    var value := NormalizeQuery(searchValue);
    if value == [] {
      AllPositionsFrom(clients, 0);
    } else {
      assert clients[0..] == clients;
      FilterMatchingSelects(clients, value, 0);
      assert ReadAt(clients, ListedPositions(clients, searchValue), FilteredClients(clients, searchValue));
    }
  }

  /** The "found" count is the number of listed positions. */
  lemma FoundCountCountsListed(clients: seq<Client>, searchValue: string)
    ensures FoundCount(clients, searchValue) == |ListedPositions(clients, searchValue)|
  {
    FilteredIsOrderedSelection(clients, searchValue);
  }

  lemma {:induction false} FilterMatchingKeepsAll(clients: seq<Client>, value: string)
    ensures FilterMatching(clients, value) == clients
            <==> forall c :: c in clients ==> Matches(c, value)
  {
    if clients != [] {
      FilterMatchingKeepsAll(clients[1..], value);
      var rest := FilterMatching(clients[1..], value);
      if Matches(clients[0], value) {
        assert forall c :: c in clients <==> c == clients[0] || c in clients[1..];
        assert [clients[0]] + rest == clients <==> rest == clients[1..];
      } else {
        assert clients[0] in clients;
      }
    }
  }

  /** The search keeps the whole list exactly when every client in it matches. */
  lemma FilteredKeepsAllIff(clients: seq<Client>, searchValue: string)
    ensures FilteredClients(clients, searchValue) == clients
            <==> forall c :: c in clients ==> Listed(c, NormalizeQuery(searchValue))
  {
    FilterMatchingKeepsAll(clients, NormalizeQuery(searchValue));
  }

  /**
   * The early return for a blank search is only a shortcut: filtering with
   * the empty value would keep every client anyway.
   */
  lemma EarlyReturnIsShortcut(clients: seq<Client>, searchValue: string)
    ensures FilteredClients(clients, searchValue) == FilterMatching(clients, NormalizeQuery(searchValue))
  {
  }

  /** Searching the shown list again with the same text changes nothing. */
  lemma FilteredIdempotent(clients: seq<Client>, searchValue: string)
    ensures FilteredClients(FilteredClients(clients, searchValue), searchValue)
            == FilteredClients(clients, searchValue)
  {
    var value := NormalizeQuery(searchValue);
    if value != [] {
      FilterMatchingKeepsAll(FilterMatching(clients, value), value);
    }
  }

  /** Search texts that differ only in letter case give the same list. */
  lemma SearchIgnoresCase(clients: seq<Client>, q1: string, q2: string)
    requires ToLower(q1) == ToLower(q2)
    ensures FilteredClients(clients, q1) == FilteredClients(clients, q2)
  {
    TrimToLowerCommute(q1);
    TrimToLowerCommute(q2);
  }

  /** Whitespace typed before or after the search text changes nothing. */
  lemma SearchIgnoresPadding(clients: seq<Client>, w1: string, q: string, w2: string)
    requires AllWhitespace(w1) && AllWhitespace(w2)
    ensures FilteredClients(clients, w1 + q + w2) == FilteredClients(clients, q)
  {
    TrimIgnoresPadding(w1, q, w2);
  }
}
