# Client search of the stash-crypto admin dashboard

The admin dashboard's clients page lists the platform's client records and has
a search box above the list. What the page shows is `filteredClients`: the
search text is trimmed and lower-cased. A blank search shows the whole list.
Any other search keeps, in their original order, the clients whose `_id`,
first name, last name, BTC wallet address or rendered balance contains that
text, ignoring case. The number printed beside "found" is the length of that
list.

This project models that computation in Dafny and proves what it promises.
It has three modules:

- `Wrappers` (`wrappers.dfy`): the `Option` type. It stands for a client field
  that may be undefined.
- `JsString` (`js_string.dfy`): the three JavaScript string operations the
  search uses. `Trim` cuts ECMAScript whitespace and line terminators from
  both ends. `ToLower` is `toLowerCase`. `Includes` is substring containment,
  and the empty string is contained in every string.
- `ClientsPage` (`clients_page.dfy`): the `Client` record, the query
  normalisation, the per-client match, the order-preserving filter, the found
  count, and the properties of all of these.

The component computes everything as pure expressions: a trim and a
lower-case, an early return, then `Array.filter` over a disjunction of
`includes` calls. So the model uses functions and lemmas and has no classes
or loops. Each operation is paired with an independent reference definition
or an inverse, as follows.

- `Trim` is characterised by `TrimOfPadded`: whatever whitespace surrounds a
  trimmed string, `Trim` returns that string.
- `Includes` is tied to "there is an index where the query occurs"
  (`IncludesIff`).
- The per-client match is tied to "the query occurs in one of the fields that
  are present" (`MatchesIffSomeField`).
- The filtered list is tied to the increasing list of positions the page
  lists (`FilteredIsOrderedSelection`) and to the multiset of the input
  (`FilteredMultiplicity`).

A matching client is not always shown "exactly once": the model follows
the code here. A client record that appears twice in the fetched list is
shown twice. `FilteredMultiplicity` states the code's
behaviour: each matching client appears as often as it does in the input.

## Model

| member | source | states |
|---|---|---|
| `ClientsPage.NormalizeQuery` | src/pages/ClientsPage/ClientsPage.tsx:47 | the normalised query is no longer than the typed text, has no whitespace at either end and no upper-case letter, and is empty exactly when the typed text is all whitespace |
| `ClientsPage.SearchableFields` | src/pages/ClientsPage/ClientsPage.tsx:51-58 | the searched fields always include `_id` and the balance string, include each optional field that is present, and hold nothing else (2 to 5 fields) |
| `ClientsPage.OptionalIncludes` | src/pages/ClientsPage/ClientsPage.tsx:55-57 | `field?.toLowerCase().includes(value)` is never true for an absent field, is true for a present field and an empty value, and needs a value no longer than the field |
| `ClientsPage.Matches` | src/pages/ClientsPage/ClientsPage.tsx:53-59 | the filter callback: the disjunction of the five `includes` tests; the empty value matches every client |
| `ClientsPage.Listed` | src/pages/ClientsPage/ClientsPage.tsx:48-59 | the early return for an empty value joined with the match is the same as the match alone, because every client matches the empty value |
| `ClientsPage.MatchesIffSomeField` | src/pages/ClientsPage/ClientsPage.tsx:53-59 | a client matches exactly when the lower-cased value of one of its present searchable fields contains the query |
| `ClientsPage.AbsentFieldsNeverMatch` | src/pages/ClientsPage/ClientsPage.tsx:55-57 | when all three optional fields are absent, only `_id` and the balance can make the client match |
| `ClientsPage.FilterMatching` | src/pages/ClientsPage/ClientsPage.tsx:50-60 | the filter result is no longer than its input, and every client in it comes from the input and matches the query |
| `ClientsPage.FilterMatchingMultiplicity` | src/pages/ClientsPage/ClientsPage.tsx:50-60 | the filter keeps each matching client as many times as it occurs in the input and drops every other client |
| `ClientsPage.FilterMatchingKeepsAll` | src/pages/ClientsPage/ClientsPage.tsx:50-60 | the filter returns its input unchanged exactly when every client in it matches |
| `ClientsPage.FilteredClients` | src/pages/ClientsPage/ClientsPage.tsx:46-61 | the shown list is no longer than the fetched list and only holds fetched clients; an empty or whitespace-only search shows exactly the fetched list |
| `ClientsPage.FilteredMultiplicity` | src/pages/ClientsPage/ClientsPage.tsx:46-61 | each listed client is shown as many times as it was fetched and every other client never; nothing is duplicated or invented |
| `ClientsPage.FilteredSoundAndComplete` | src/pages/ClientsPage/ClientsPage.tsx:50-59 | a client is shown if and only if it was fetched and the search is blank or the client matches on one of the five fields |
| `ClientsPage.ListedPositions` | src/pages/ClientsPage/ClientsPage.tsx:50-60 | the listed positions are strictly increasing, in range, and are exactly the positions whose client is listed |
| `ClientsPage.FilteredIsOrderedSelection` | src/pages/ClientsPage/ClientsPage.tsx:46-61 | the shown list is the fetched list read at the listed positions in increasing order, so it is a subsequence with the relative order kept |
| `ClientsPage.EarlyReturnIsShortcut` | src/pages/ClientsPage/ClientsPage.tsx:46-61 | the early return for a blank search gives the same list as filtering with the empty value would |
| `ClientsPage.FilteredKeepsAllIff` | src/pages/ClientsPage/ClientsPage.tsx:46-61 | the search shows the whole fetched list exactly when every fetched client is listed |
| `ClientsPage.FilteredIdempotent` | src/pages/ClientsPage/ClientsPage.tsx:46-61 | searching the shown list again with the same text gives the same list |
| `ClientsPage.SearchIgnoresCase` | src/pages/ClientsPage/ClientsPage.tsx:47 | two search texts that are equal once lower-cased show the same list |
| `ClientsPage.SearchIgnoresPadding` | src/pages/ClientsPage/ClientsPage.tsx:47 | whitespace typed before or after the search text does not change the shown list |
| `ClientsPage.FoundCount` | src/pages/ClientsPage/ClientsPage.tsx:112 | the found count never exceeds the number of fetched clients and equals it for a blank search |
| `ClientsPage.FoundCountCountsListed` | src/pages/ClientsPage/ClientsPage.tsx:112 | the found count is the number of fetched positions whose client is listed |
| `JsString.Trim` | src/pages/ClientsPage/ClientsPage.tsx:47 | `trim` returns text no longer than its input with no whitespace at either end |
| `JsString.TrimSplit` | src/pages/ClientsPage/ClientsPage.tsx:47 | every string is its trim with a run of whitespace before it and a run after it |
| `JsString.TrimOfPadded` | src/pages/ClientsPage/ClientsPage.tsx:47 | trimming any whitespace padding around a trimmed string gives back that string (this makes `Trim` unique) |
| `JsString.TrimIgnoresPadding` | src/pages/ClientsPage/ClientsPage.tsx:47 | extra whitespace around a string does not change its trim |
| `JsString.TrimEmptyIff` | src/pages/ClientsPage/ClientsPage.tsx:47-48 | a string trims to the empty string exactly when it is all whitespace |
| `JsString.ToLowerChar` | src/pages/ClientsPage/ClientsPage.tsx:47 | a lower-cased character is never an upper-case letter, other characters are unchanged, and whitespace stays whitespace |
| `JsString.ToLower` | src/pages/ClientsPage/ClientsPage.tsx:47 | `toLowerCase` keeps the length and lower-cases each character in place |
| `JsString.ToLowerIdempotent` | src/pages/ClientsPage/ClientsPage.tsx:47 | lower-casing twice is the same as lower-casing once |
| `JsString.TrimToLowerCommute` | src/pages/ClientsPage/ClientsPage.tsx:47 | trimming then lower-casing equals lower-casing then trimming |
| `JsString.Includes` | src/pages/ClientsPage/ClientsPage.tsx:54-58 | a string can only include a query that is no longer than itself, and always includes the empty query |
| `JsString.IncludesIff` | src/pages/ClientsPage/ClientsPage.tsx:54-58 | `includes` holds exactly when the query occurs in the string at some index |

## Left out

- `fetchClients`, `handleDelete`, `getClients` and `deleteClient` (src/pages/ClientsPage/ClientsPage.tsx:30-44, 63-71) are left out. They are asynchronous HTTP calls to a client service whose code is not part of this model. The fetched list is a parameter instead.
- The loading and error states (lines 24-25, 73-74) are left out. They only record the outcome of that I/O.
- The delete-confirmation dialog (lines 27-28, 242-245, 264-347) is left out. It is an open/close flag driven by UI events and an asynchronous delete.
- `client.balance.toString()` (line 51) is not modelled. JavaScript number formatting is floating point, so the balance is carried as its already-rendered string. The list's `Number(...).toFixed(2)` display (line 238) is left out for the same reason.
- `useMemo` caching is left out. The model recomputes the value, which gives the same result.
- Rendering, MUI styling, routing (`navigate`) and i18n (`t(...)`) are left out. This includes the row numbers and the `'N/A'` placeholder.
- src/pages/HomePage/CardBalance/CardBalance.tsx is left out. It fetches a rate from a third-party HTTP API and converts with floating-point division and `toFixed(8)`.
- src/pages/LandingPage/LandingPage.tsx and src/pages/LandingPage/components/CardBlock/CardBlock.tsx are left out. They are layout with no logic to state.
- The `Client` type is declared in a module that is not part of this model. Its `_id` field is called `id` here, because Dafny identifiers cannot begin with an underscore.
- JsString.ToLower: lower-cases only ASCII `A`-`Z` and Latin-1 `À`-`Þ` (except `×`). Unicode case mappings elsewhere are not modelled, such as Greek, Cyrillic, or `İ`, which becomes two characters. So the model's lower-casing always keeps the length.
- JsString.Includes: works on Unicode scalar values, not on JavaScript's UTF-16 code units. A query that matches half of a surrogate pair is not modelled.
