# phishAssessor core, modelled in Dafny

phishAssessor is a small web service in front of the ThreatFox threat-intelligence feed,
with a React page that lists the results. This project models its logic:

- **`/check/:inp`** (backend/server.js). It forwards one indicator lookup to the feed. The
  feed's reply is returned unchanged, except that an empty (falsy) body becomes
  `{data: []}`. A failure becomes status 500 with a fixed message.
- **`/malware`** (backend/server.js). It takes the feed's bulk dump and:
  - picks a 7- or 30-day window;
  - keeps the `domain` records whose `first_seen` is a valid date inside the window;
  - projects each kept record to a display record, filling missing fields with the
    `"-"` sentinel;
  - sorts the result in place with a two-key comparator: indicators that start with an
    ASCII letter come first, then the newest `first_seen` comes first. Ties keep feed
    order, because `Array.prototype.sort` is stable.
- **The list page** (frontend/src/Components/List.jsx). It keeps only domain-shaped
  indicators after a fetch, filters by a case-insensitive search, and builds the CSV
  export.

Modules, one file each:

- `Wrappers`: `Option`.
- `Seqs`: `Array.prototype.filter` (`Filter`), with membership, concatenation and
  ordered-subsequence lemmas.
- `Text`: ASCII classes, `toLowerCase`, `includes`, `join` and `split`.
- `Feed`: the feed record, the display record, and JavaScript truthiness.
- `DisplayOrder`: the comparator and the in-place stable sort.
- `Server`: both routes.
- `ListView`: the list page.

Inputs the code reads from the outside world are parameters:

- the feed's reply (an error or a body);
- the clock reading `now`, in milliseconds;
- the date parser `new Date(text)`, an abstract `string -> Option<int>`. None stands for
  an invalid date.

The sort is specified by two facts:

- the output is `Sorted`;
- for every key, it lists the records with that key in the same order as the input
  (`KeyFilter`). This is stability.

`StableOrderUnique` proves that these two facts determine the output completely, so
`Aggregate`'s contract fixes its result exactly.

Three behaviours a reader might expect are absent from the code; the model follows the code:

- The `/malware` route does not skip records with a missing or empty indicator: it returns
  them with `ioc` equal to `"-"` (backend/server.js:68). The list page then drops them, because
  `"-"` is not domain-shaped (frontend/src/Components/List.jsx:19-21; `ListView.SentinelNotDomain`).
- The lookup handler has no check of its own for an empty indicator (backend/server.js:16-38).
  An empty path segment does not match the route pattern `/check/:inp`, so the router replies
  404 before the handler runs. A blank indicator such as a space is forwarded unchanged.
- Records the filter rejects are neither counted nor logged (backend/server.js:60-64).

## Model

| member | source | states |
|---|---|---|
| `Server.CheckIoc` | backend/server.js:16-38 | A truthy upstream body is returned unchanged with status 200. A falsy body becomes `{data: []}`. A failure becomes 500 `{error: "Something went wrong"}`. The response body is never falsy. |
| `Server.CheckIocHidesUpstreamDetail` | backend/server.js:34-37 | Two failures with different upstream messages produce the same response, with status 500. The error detail never reaches the client. |
| `Server.WindowDays` | backend/server.js:45-57 | The window is 30 days exactly when `filter` is `"30days"`. Any other value, including absent, gives 7 days. |
| `Server.KeptIff` | backend/server.js:60-64 | A record survives the filter iff it is in the input, its `ioc_type` is `"domain"`, and its `first_seen` is present, parses, and is at or after the cutoff. |
| `Server.RejectedRecordIsDropped` | backend/server.js:55-64 | A record the filter rejects (for example one with an invalid date) is removed without changing what survives around it. |
| `Server.OneDegradedRecordAmongValid` | backend/server.js:53-73 | N records that pass, plus one with an unparseable `first_seen`, yield exactly N formatted records and no error. |
| `Server.ProjectionDefaults` | backend/server.js:67-73 | No display field is ever empty. `malware` is `malware_printable` if truthy, else `malware` if truthy, else `"-"`. Each of `ioc`, `type`, `threat_type_desc` and `first_seen` is the record's own value when truthy, else `"-"`. |
| `Server.Formatted` | backend/server.js:60-73 | The projected list has one entry per record that passes the filter. |
| `Server.FormattedInWindow` | backend/server.js:55-73 | Every formatted record has type `"domain"`, and its displayed `first_seen` parses to a time at or after the cutoff. The displayed type and `first_seen` are the kept record's own values, never the `"-"` fallback. |
| `Server.Aggregate` | backend/server.js:53-86 | The output is sorted. It lists each key's records in post-filter feed order. It is a permutation of the projected filtered list, and its length is the number of records that pass. Every entry is an in-window domain. |
| `Server.Malware` | backend/server.js:43-91 | It fails with 500 `"Failed to fetch malware data"` exactly when the handler throws: the fetch fails, the reply body is `null`, `data` is truthy but not a list, or an element of `data` is `null`. A missing `data` gives an empty list. Otherwise it returns `Aggregate`'s result over all the elements. |
| `DisplayOrder.CompareMatchesKeys` | backend/server.js:76-84 | On records with valid dates, the comparator is negative, zero or positive exactly when the first key is before, equal to or after the second: letter-initial first, then newer first. |
| `DisplayOrder.KeyOrderIsTotal` | backend/server.js:76-84 | The key order is irreflexive, total, asymmetric and transitive, so the comparator is consistent, as `Array.prototype.sort` requires. |
| `DisplayOrder.SortedMeansPartitionedAndRecentFirst` | backend/server.js:76-84 | In a sorted list, no indicator that starts with a letter comes after one that does not. Within a group, between two records whose `first_seen` parses, the time does not increase. |
| `DisplayOrder.SortByComparator` | backend/server.js:76-84 | Sorting the array in place leaves it sorted, with every key's records in their original order (a stable sort). |
| `DisplayOrder.KeyFiltersDeterminePermutation` | backend/server.js:76-84 | A sort that keeps every key's records in order is a permutation of its input. |
| `DisplayOrder.StableOrderUnique` | backend/server.js:76-84 | Two sorted lists with the same per-key orders are equal, so a stable sort has exactly one result. |
| `ListView.LooksLikeDomainIff` | frontend/src/Components/List.jsx:19-21 | The right-to-left domain check accepts a string iff `^[a-zA-Z0-9.-]+\.[a-zA-Z]{2,}$` matches it. That means: only `[a-zA-Z0-9.-]`, a dot, at least one character before that dot, and at least two letters (no further dot) up to the end. |
| `ListView.SentinelNotDomain` | frontend/src/Components/List.jsx:19-21 | The `"-"` placeholder that the server gives a record without an indicator is not domain-shaped, so the list page never shows such a record. |
| `ListView.AfterFetchState` | frontend/src/Components/List.jsx:11-32 | `fetchData` passes the same list to `setData` and `setFiltered`. A failure or a missing `res.data.data` makes both empty. Otherwise an item is listed iff it was received and its `ioc` is domain-shaped. |
| `ListView.SettledAfterFetch` | frontend/src/Components/List.jsx:19-49 | Once the search effect re-runs on the new `data`, `filtered` lists, in order, the fetched items that match the search box. It equals `data` when the box is empty. |
| `ListView.SearchIff` | frontend/src/Components/List.jsx:39-48 | An item is shown iff it is in `data` and the lower-cased search occurs in the lower-cased `ioc`, `malware` or `threat_type_desc`. |
| `ListView.SearchIsOrderedSubsequence` | frontend/src/Components/List.jsx:41-48 | The search result is a subsequence of `data`, in the same order. |
| `ListView.EmptySearchKeepsAll` | frontend/src/Components/List.jsx:40-48 | An empty search string keeps every item: `filtered == data`. |
| `ListView.SearchIgnoresQueryCase` | frontend/src/Components/List.jsx:40 | Searching for a string and for its lower-cased form give the same result. |
| `ListView.CsvRowsShape` | frontend/src/Components/List.jsx:52-63 | The export is skipped exactly when `filtered` is empty. Otherwise it has `filtered.length + 1` rows. The first is the header joined by commas, and it splits back into the five column names. Row i+1 is item i's row. |
| `ListView.QuotedFieldsRoundTrip` | frontend/src/Components/List.jsx:60-61 | Joining double-quoted fields with commas and reading the line back gives the fields, when no field contains a double quote. |
| `ListView.CsvRowRoundTrip` | frontend/src/Components/List.jsx:58-62 | Each data row reads back as exactly five fields, in the order ioc, first_seen, malware, type, threat_type_desc, with falsy fields replaced by `"-"`. |
| `ListView.CsvTextLines` | frontend/src/Components/List.jsx:56-65 | When no field contains a newline, the file's text splits into exactly the rows: the header plus one line per item. |
| `Text.ContainsIff` | frontend/src/Components/List.jsx:44-46 | `includes` holds iff the needle occurs at some position of the haystack. |
| `Text.LowerIdempotent` | frontend/src/Components/List.jsx:40-46 | Lower-casing twice is the same as lower-casing once. |

## Left out

- Network I/O is not modelled: axios, Express, cors, dotenv, `app.listen` and the outbound
  POST bodies (`search_ioc`, `get_iocs` with limit 5000). The feed's outcome is a parameter.
  Whatever list the feed returns is accepted, whatever its length.
- The error log lines (`console.error`) are not modelled.
- Real `Date` parsing and local-calendar `setDate` arithmetic are not modelled.
  - Times are integer milliseconds.
  - The window is exactly `days * 86400000` ms before one clock reading, so daylight-saving
    shifts and the gap between the two `new Date()` calls are not captured.
  - The parser is abstract. The list route is proved under the assumption that the parser
    rejects the empty string, as JavaScript's `Date` does.
- Null and undefined properties are both modelled as absent. So `new Date(null)` (the epoch)
  counts as an invalid date. The epoch lies outside every window once the clock is past 31 January 1970.
- A non-object element of the feed's `data` array (a number or a string) is modelled as a
  record whose properties are all absent, which the filter drops. Only `null` elements throw.
- Non-string property values are not modelled. Feed properties are strings or absent, and
  JSON numbers are integers (floating point and NaN are left out).
- `DisplayOrder.SortByComparator` requires every record to have a valid date. Without that
  requirement the comparator is inconsistent, and ECMA-262 leaves the order
  implementation-defined. The route always meets the requirement, which
  `Server.FormattedInWindow` proves.
- Regular expressions are given as explicit character predicates, not run through a regex
  engine.
- Case mapping: `toLowerCase` is modelled for ASCII only. Unicode case mapping is not
  captured.
- `ListView.CsvRowRoundTrip` and `ListView.QuotedFieldsRoundTrip` hold only for fields
  without a double quote, because the export does not escape quotes.
- `ListView.CsvTextLines` holds only for fields without a newline, for the same reason.
- React state and effects are not modelled, nor is the Blob download: the setters' arguments
  are function results. The loading flag and the rendering are left out.
- frontend/src/Components/Chatbot.jsx, Home.jsx, Nav.jsx and frontend/src/App.jsx are not part
  of this model. They are UI, routing and a call to a language-model API. Chatbot.jsx also
  logs its API key.
