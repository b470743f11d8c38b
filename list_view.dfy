/**
 * The list page's logic: keep domain-shaped indicators after a fetch, narrow the list
 * by a case-insensitive search, and build the CSV export. React state updates are
 * modelled as the values the setters receive.
 */
module ListView {
  import opened Wrappers
  import opened Feed
  import opened Seqs
  import opened Text

  // ---------------------------------------------------------------
  // Domain shape: /^[a-zA-Z0-9.-]+\.[a-zA-Z]{2,}$/
  // ---------------------------------------------------------------

  predicate InDomainClass(c: char)
  {
    IsAsciiLetter(c) || IsAsciiDigit(c) || c == '.' || c == '-'
  }

  /** The pattern matches with its literal dot at position `dot`. */
  ghost predicate DomainMatchAt(s: string, dot: int)
  {
    1 <= dot && dot + 3 <= |s| && s[dot] == '.' &&
    (forall i :: 0 <= i < dot ==> InDomainClass(s[i])) &&
    (forall i :: dot < i < |s| ==> IsAsciiLetter(s[i]))
  }

  ghost predicate MatchesDomainPattern(s: string)
  {
    exists dot :: DomainMatchAt(s, dot)
  }

  /** The length of the longest all-letter suffix. */
  function TrailingLetters(s: string): (n: nat)
    ensures n <= |s|
    ensures forall i :: |s| - n <= i < |s| ==> IsAsciiLetter(s[i])
    ensures n < |s| ==> !IsAsciiLetter(s[|s| - n - 1])
  {
    if s != [] && IsAsciiLetter(s[|s| - 1]) then TrailingLetters(s[..|s| - 1]) + 1 else 0
  }

  /** The pattern decided from the right: the letter suffix, the dot before it, the class throughout. */
  predicate LooksLikeDomain(s: string)
  {
    var n := TrailingLetters(s);
    2 <= n && n + 2 <= |s| && s[|s| - n - 1] == '.' &&
    forall i :: 0 <= i < |s| ==> InDomainClass(s[i])
  }

  /** The placeholder for a missing indicator does not look like a domain. */
  lemma SentinelNotDomain()
    ensures !LooksLikeDomain(Sentinel)
    ensures !MatchesDomainPattern(Sentinel)
  {
    LooksLikeDomainIff(Sentinel);
  }

  /** The right-to-left decision agrees with the pattern in both directions. */
  lemma LooksLikeDomainIff(s: string)
    ensures LooksLikeDomain(s) <==> MatchesDomainPattern(s)
  {
    var n := TrailingLetters(s);
    if LooksLikeDomain(s) {
      assert DomainMatchAt(s, |s| - n - 1);
    }
    if dot :| DomainMatchAt(s, dot) {
      assert !IsAsciiLetter(s[dot]);
      assert n <= |s| - dot - 1;
      assert n == |s| - dot - 1;
      assert forall i :: 0 <= i < |s| ==> InDomainClass(s[i]) by {
        forall i | 0 <= i < |s| ensures InDomainClass(s[i]) {
          if i > dot {
            assert IsAsciiLetter(s[i]);
          }
        }
      }
    }
  }

  // ---------------------------------------------------------------
  // fetchData
  // ---------------------------------------------------------------

  const DomainItem: DisplayRecord -> bool := (item: DisplayRecord) => LooksLikeDomain(item.ioc)

  function DomainsOnly(items: seq<DisplayRecord>): seq<DisplayRecord>
  {
    Filter(items, DomainItem)
  }

  /** The outcome of the request: thrown, or `res.data.data` (None when falsy). */
  datatype FetchOutcome = FetchFailed | Fetched(payload: Option<seq<DisplayRecord>>)

  /** What `setData` and `setFiltered` receive. */
  datatype ListState = ListState(data: seq<DisplayRecord>, filtered: seq<DisplayRecord>)

  function AfterFetch(outcome: FetchOutcome): ListState
  {
    match outcome
    case FetchFailed => ListState([], [])
    case Fetched(payload) =>
      var domains := DomainsOnly(if payload.Some? then payload.value else []);
      ListState(domains, domains)
  }

  /**
   * `fetchData` passes the same list to both setters; a failure or a missing payload empties them;
   * otherwise an item is listed exactly when it was received and is domain-shaped.
   */
  lemma AfterFetchState(outcome: FetchOutcome, item: DisplayRecord)
    ensures AfterFetch(outcome).data == AfterFetch(outcome).filtered
    ensures outcome.FetchFailed? || outcome.payload.None? ==> AfterFetch(outcome) == ListState([], [])
    ensures item in AfterFetch(outcome).data <==>
              outcome.Fetched? && outcome.payload.Some? && item in outcome.payload.value &&
              MatchesDomainPattern(item.ioc)
  {
    LooksLikeDomainIff(item.ioc);
    if outcome.Fetched? && outcome.payload.Some? {
      FilterMembership(outcome.payload.value, DomainItem, item);
    }
  }

  // ---------------------------------------------------------------
  // Search
  // ---------------------------------------------------------------

  /** One of the three searched fields contains the lower-cased query. */
  predicate MatchesSearch(item: DisplayRecord, lowered: string)
  {
    Contains(Lower(item.ioc), lowered) ||
    Contains(Lower(item.malware), lowered) ||
    Contains(Lower(item.threatTypeDesc), lowered)
  }

  function SearchMatcher(lowered: string): DisplayRecord -> bool
  {
    item => MatchesSearch(item, lowered)
  }

  /** The search effect: what `setFiltered` receives. */
  function Search(data: seq<DisplayRecord>, search: string): seq<DisplayRecord>
  {
    Filter(data, SearchMatcher(Lower(search)))
  }

  /** An item is shown exactly when it is in the data and one field contains the query, ignoring case. */
  lemma SearchIff(data: seq<DisplayRecord>, search: string, item: DisplayRecord)
    ensures item in Search(data, search) <==>
              item in data &&
              ((exists i :: OccursAt(Lower(item.ioc), Lower(search), i)) ||
               (exists i :: OccursAt(Lower(item.malware), Lower(search), i)) ||
               (exists i :: OccursAt(Lower(item.threatTypeDesc), Lower(search), i)))
  {
    FilterMembership(data, SearchMatcher(Lower(search)), item);
    ContainsIff(Lower(item.ioc), Lower(search));
    ContainsIff(Lower(item.malware), Lower(search));
    ContainsIff(Lower(item.threatTypeDesc), Lower(search));
  }

  /** The search result keeps the data's order. */
  lemma SearchIsOrderedSubsequence(data: seq<DisplayRecord>, search: string)
    ensures exists idx :: SubsequenceAt(Search(data, search), data, idx)
  {
    FilterIsOrderedSubsequence(data, SearchMatcher(Lower(search)));
    assert Search(data, search) == Filter(data, SearchMatcher(Lower(search)));
  }

  /** An empty query shows everything. */
  lemma EmptySearchKeepsAll(data: seq<DisplayRecord>)
    ensures Search(data, "") == data
  {
    assert Lower("") == "";
    forall i | 0 <= i < |data| ensures SearchMatcher("")(data[i]) {
      ContainsEmpty(Lower(data[i].ioc));
    }
    FilterAllPass(data, SearchMatcher(""));
  }

  /** Upper-case letters in the query make no difference. */
  lemma SearchIgnoresQueryCase(data: seq<DisplayRecord>, search: string)
    ensures Search(data, search) == Search(data, Lower(search))
  {
    LowerIdempotent(search);
  }

  /**
   * The page once the search effect has re-run on the new `data` (its dependencies are
   * `[search, data]`): `filtered` is the search over the fetched list.
   */
  function Settled(outcome: FetchOutcome, search: string): ListState
  {
    var data := AfterFetch(outcome).data;
    ListState(data, Search(data, search))
  }

  /**
   * Once settled, `filtered` lists in order the fetched items that match the search box,
   * and equals `data` when the box is empty.
   */
  lemma SettledAfterFetch(outcome: FetchOutcome, search: string, item: DisplayRecord)
    ensures Settled(outcome, search).data == AfterFetch(outcome).data
    ensures exists idx :: SubsequenceAt(Settled(outcome, search).filtered, Settled(outcome, search).data, idx)
    ensures item in Settled(outcome, search).filtered <==>
              item in AfterFetch(outcome).data && MatchesSearch(item, Lower(search))
    ensures search == "" ==> Settled(outcome, search).filtered == Settled(outcome, search).data
  {
    var data := AfterFetch(outcome).data;
    SearchIsOrderedSubsequence(data, search);
    FilterMembership(data, SearchMatcher(Lower(search)), item);
    if search == "" {
      EmptySearchKeepsAll(data);
    }
  }

  // ---------------------------------------------------------------
  // exportToCSV
  // ---------------------------------------------------------------

  const CsvHeader: seq<string> := ["IOC", "First Seen", "Malware", "Type", "Threat Description"]

  /** `field || "-"`. */
  function OrDash(field: string): string
  {
    if field == "" then Sentinel else field
  }

  function Quote(s: string): string
  {
    "\"" + s + "\""
  }

  /** `.map((field) => `"${field}"`)`. */
  function QuoteAll(fields: seq<string>): (quoted: seq<string>)
    ensures |quoted| == |fields|
    ensures forall i :: 0 <= i < |fields| ==> quoted[i] == Quote(fields[i])
  {
    if fields == [] then [] else [Quote(fields[0])] + QuoteAll(fields[1..])
  }

  /** The exported fields in column order. */
  function CsvColumns(item: DisplayRecord): seq<string>
  {
    [OrDash(item.ioc), OrDash(item.firstSeen), OrDash(item.malware), OrDash(item.iocType), OrDash(item.threatTypeDesc)]
  }

  function CsvRow(item: DisplayRecord): string
  {
    Join(",", QuoteAll(CsvColumns(item)))
  }

  /** `csvRows`, or None when `filtered` is empty and the export does nothing. */
  function CsvRows(filtered: seq<DisplayRecord>): Option<seq<string>>
  {
    if filtered == [] then None
    else Some([Join(",", CsvHeader)] + seq(|filtered|, i requires 0 <= i < |filtered| => CsvRow(filtered[i])))
  }

  /** The text placed in the downloaded file. */
  function CsvText(filtered: seq<DisplayRecord>): Option<string>
  {
    match CsvRows(filtered)
    case None => None
    case Some(rows) => Some(Join("\n", rows))
  }

  /** The export is skipped exactly for an empty list; otherwise a header and one row per item. */
  lemma CsvRowsShape(filtered: seq<DisplayRecord>)
    ensures CsvRows(filtered).None? <==> filtered == []
    ensures CsvRows(filtered).Some? ==>
              var rows := CsvRows(filtered).value;
              |rows| == |filtered| + 1 &&
              rows[0] == Join(",", CsvHeader) && Split(rows[0], ',') == CsvHeader &&
              forall i :: 0 <= i < |filtered| ==> rows[i + 1] == CsvRow(filtered[i])
  {
    assert forall i :: 0 <= i < |CsvHeader| ==> ',' !in CsvHeader[i];
    SplitJoin(CsvHeader, ',');
  }

  /** A reader for a line of double-quoted, comma-separated fields without escapes. */
  function ReadRecord(s: string): Option<seq<string>>
    decreases |s|, 1
  {
    if s != [] && s[0] == '"' then ReadQuoted(s[1..], "") else None
  }

  function ReadQuoted(s: string, acc: string): Option<seq<string>>
    decreases |s|, 0
  {
    if s == [] then None
    else if s[0] != '"' then ReadQuoted(s[1..], acc + [s[0]])
    else if |s| == 1 then Some([acc])
    else if s[1] != ',' then None
    else match ReadRecord(s[2..])
      case None => None
      case Some(rest) => Some([acc] + rest)
  }

  lemma {:induction false} ReadQuotedSkipsBody(body: string, acc: string, rest: string)
    requires '"' !in body
    ensures ReadQuoted(body + rest, acc) == ReadQuoted(rest, acc + body)
    decreases |body|
  {
    if body != [] {
      assert (body + rest)[1..] == body[1..] + rest;
      ReadQuotedSkipsBody(body[1..], acc + [body[0]], rest);
      assert acc + [body[0]] + body[1..] == acc + body;
    } else {
      assert body + rest == rest && acc + body == acc;
    }
  }

  /** A quoted field followed by a comma: the field, then what the rest reads as. */
  lemma ReadFieldThenRest(f: string, rest: string)
    requires '"' !in f
    ensures ReadRecord(Quote(f) + "," + rest) ==
              match ReadRecord(rest)
              case None => None
              case Some(fs) => Some([f] + fs)
  {
    var line := Quote(f) + "," + rest;
    assert line[1..] == f + ("\"," + rest);
    ReadQuotedSkipsBody(f, "", "\"," + rest);
    assert "" + f == f;
    assert ("\"," + rest)[2..] == rest;
  }

  /** A quoted field that ends the line. */
  lemma ReadLastField(f: string)
    requires '"' !in f
    ensures ReadRecord(Quote(f)) == Some([f])
  {
    assert Quote(f)[1..] == f + "\"";
    ReadQuotedSkipsBody(f, "", "\"");
    assert "" + f == f;
  }

  /** Reading back a join of quoted fields gives the fields, when none contains a quote. */
  lemma {:induction false} QuotedFieldsRoundTrip(fields: seq<string>)
    requires |fields| >= 1
    requires forall i :: 0 <= i < |fields| ==> '"' !in fields[i]
    ensures ReadRecord(Join(",", QuoteAll(fields))) == Some(fields)
    decreases |fields|
  {
    if |fields| == 1 {
      ReadLastField(fields[0]);
      assert fields == [fields[0]];
      assert Join(",", QuoteAll(fields)) == Quote(fields[0]);
    } else {
      QuotedFieldsRoundTrip(fields[1..]);
      ReadFieldThenRest(fields[0], Join(",", QuoteAll(fields[1..])));
      assert fields == [fields[0]] + fields[1..];
    }
  }

  /** Each exported row reads back as the item's five columns, when no field holds a quote. */
  lemma CsvRowRoundTrip(item: DisplayRecord)
    requires '"' !in item.ioc && '"' !in item.firstSeen && '"' !in item.malware
    requires '"' !in item.iocType && '"' !in item.threatTypeDesc
    ensures ReadRecord(CsvRow(item)) ==
              Some([OrDash(item.ioc), OrDash(item.firstSeen), OrDash(item.malware),
                    OrDash(item.iocType), OrDash(item.threatTypeDesc)])
  {
    QuotedFieldsRoundTrip(CsvColumns(item));
  }

  predicate NoNewline(item: DisplayRecord)
  {
    '\n' !in item.ioc && '\n' !in item.firstSeen && '\n' !in item.malware &&
    '\n' !in item.iocType && '\n' !in item.threatTypeDesc
  }

  /** The file splits into exactly the header and one line per listed item. */
  lemma CsvTextLines(filtered: seq<DisplayRecord>)
    requires filtered != []
    requires forall i :: 0 <= i < |filtered| ==> NoNewline(filtered[i])
    ensures Split(CsvText(filtered).value, '\n') == CsvRows(filtered).value
    ensures |Split(CsvText(filtered).value, '\n')| == |filtered| + 1
  {
    var rows := CsvRows(filtered).value;
    JoinAvoids('\n', ",", CsvHeader);
    forall i | 0 <= i < |filtered| ensures '\n' !in CsvRow(filtered[i]) {
      var cols := CsvColumns(filtered[i]);
      var quoted := QuoteAll(cols);
      assert forall j :: 0 <= j < |cols| ==> '\n' !in cols[j];
      assert forall j :: 0 <= j < |quoted| ==> '\n' !in quoted[j];
      JoinAvoids('\n', ",", quoted);
    }
    assert forall i :: 0 <= i < |rows| ==> '\n' !in rows[i];
    SplitJoin(rows, '\n');
  }
}
