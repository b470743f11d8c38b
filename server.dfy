/**
 * The two routes of the backend: `/check/:inp` forwards one lookup to the feed and
 * normalises its reply; `/malware` filters, projects and sorts the feed's bulk dump.
 * The outbound requests are not modelled: their outcomes arrive as parameters.
 */
module Server {
  import opened Wrappers
  import opened Feed
  import opened Seqs
  import opened DisplayOrder

  // ---------------------------------------------------------------
  // `/check/:inp`
  // ---------------------------------------------------------------

  /** A JSON value as the HTTP layer sends it; numbers are integers here. */
  datatype Json =
    | JNull
    | JBool(b: bool)
    | JNumber(n: int)
    | JString(s: string)
    | JArray(items: seq<Json>)
    | JObject(members: seq<(string, Json)>)

  /** JavaScript truthiness of a JSON value (an absent body is JNull). */
  predicate JsonTruthy(j: Json)
  {
    match j
    case JNull => false
    case JBool(b) => b
    case JNumber(n) => n != 0
    case JString(s) => s != ""
    case JArray(_) => true
    case JObject(_) => true
  }

  /** What the outbound request produced: a thrown error (with its message) or a body. */
  datatype LookupReply = LookupFailed(detail: string) | LookupBody(body: Json)

  datatype HttpResponse = HttpResponse(status: nat, body: Json)

  const LookupErrorMessage: string := "Something went wrong"

  const EmptyData: Json := JObject([("data", JArray([]))])

  /** `res.json(response.data || { data: [] })`, or the 500 reply of the catch block. */
  function CheckIoc(reply: LookupReply): (r: HttpResponse)
    ensures reply.LookupFailed? ==>
              r == HttpResponse(500, JObject([("error", JString(LookupErrorMessage))]))
    ensures reply.LookupBody? && JsonTruthy(reply.body) ==> r == HttpResponse(200, reply.body)
    ensures reply.LookupBody? && !JsonTruthy(reply.body) ==> r == HttpResponse(200, EmptyData)
    ensures JsonTruthy(r.body)
  {
    match reply
    case LookupFailed(_) => HttpResponse(500, JObject([("error", JString(LookupErrorMessage))]))
    case LookupBody(body) => HttpResponse(200, if JsonTruthy(body) then body else EmptyData)
  }

  /** A failed lookup reveals nothing of the upstream error. */
  lemma CheckIocHidesUpstreamDetail(detail1: string, detail2: string)
    ensures CheckIoc(LookupFailed(detail1)) == CheckIoc(LookupFailed(detail2))
    ensures CheckIoc(LookupFailed(detail1)).status == 500
  {
  }

  // ---------------------------------------------------------------
  // `/malware`: window, filter, projection
  // ---------------------------------------------------------------

  const DayMillis: int := 86_400_000

  /** The window selected by the `filter` query parameter (None when it is absent). */
  function WindowDays(filter: Option<string>): (days: int)
    ensures days == 30 || days == 7
    ensures days == 30 <==> filter == Some("30days")
  {
    if filter == Some("30days") then 30 else 7
  }

  /** `daysAgo`: the clock reading moved back by the window. */
  function Cutoff(now: int, filter: Option<string>): int
  {
    now - WindowDays(filter) * DayMillis
  }

  /** `new Date(item.first_seen)`: an absent property is an invalid date. */
  function FirstSeenTime(f: Field, parse: DateParse): Option<int>
  {
    if f.Some? then parse(f.value) else None
  }

  /** The filter callback: the date is valid and not before the cutoff, and the type is "domain". */
  predicate Keep(r: FeedRecord, cutoff: int, parse: DateParse)
  {
    (match FirstSeenTime(r.firstSeen, parse)
     case Some(t) => t >= cutoff
     case None => false)
    && r.iocType == Some("domain")
  }

  function KeepAt(cutoff: int, parse: DateParse): FeedRecord -> bool
  {
    r => Keep(r, cutoff, parse)
  }

  function Kept(records: seq<FeedRecord>, cutoff: int, parse: DateParse): seq<FeedRecord>
  {
    Filter(records, KeepAt(cutoff, parse))
  }

  /** The map callback: each display field falls back to the sentinel when falsy. */
  function Project(r: FeedRecord): DisplayRecord
  {
    DisplayRecord(
      ioc := OrElse(r.ioc, Sentinel),
      iocType := OrElse(r.iocType, Sentinel),
      malware := if Truthy(r.malwarePrintable) then r.malwarePrintable.value else OrElse(r.malware, Sentinel),
      threatTypeDesc := OrElse(r.threatTypeDesc, Sentinel),
      firstSeen := OrElse(r.firstSeen, Sentinel))
  }

  /** `formatted` before the sort: the kept records, projected, in feed order. */
  function Formatted(records: seq<FeedRecord>, cutoff: int, parse: DateParse): (f: seq<DisplayRecord>)
    ensures |f| == |Kept(records, cutoff, parse)|
  {
    var kept := Kept(records, cutoff, parse);
    seq(|kept|, i requires 0 <= i < |kept| => Project(kept[i]))
  }

  /** A record survives the filter exactly when it is a domain with a valid date inside the window. */
  lemma KeptIff(records: seq<FeedRecord>, cutoff: int, parse: DateParse, r: FeedRecord)
    ensures r in Kept(records, cutoff, parse) <==>
              r in records && r.iocType == Some("domain") &&
              r.firstSeen.Some? && parse(r.firstSeen.value).Some? &&
              parse(r.firstSeen.value).value >= cutoff
  {
    FilterMembership(records, KeepAt(cutoff, parse), r);
  }

  /** A record the filter rejects (an invalid date, say) is dropped without disturbing the rest. */
  lemma RejectedRecordIsDropped(before: seq<FeedRecord>, bad: FeedRecord, after: seq<FeedRecord>,
                                cutoff: int, parse: DateParse)
    requires !Keep(bad, cutoff, parse)
    ensures Kept(before + [bad] + after, cutoff, parse) == Kept(before + after, cutoff, parse)
  {
    var p := KeepAt(cutoff, parse);
    FilterAppend(before + [bad], after, p);
    FilterAppend(before, [bad], p);
    FilterAppend(before, after, p);
    assert [bad][1..] == [];
  }

  /** N records that pass and one with an unparseable date yield exactly N results. */
  lemma OneDegradedRecordAmongValid(before: seq<FeedRecord>, bad: FeedRecord, after: seq<FeedRecord>,
                                    cutoff: int, parse: DateParse)
    requires forall i :: 0 <= i < |before + after| ==> Keep((before + after)[i], cutoff, parse)
    requires bad.firstSeen.Some? && parse(bad.firstSeen.value).None?
    ensures |Formatted(before + [bad] + after, cutoff, parse)| == |before| + |after|
  {
    RejectedRecordIsDropped(before, bad, after, cutoff, parse);
    FilterAllPass(before + after, KeepAt(cutoff, parse));
  }

  /** The projection never leaves a field empty, and the malware name prefers the printable one. */
  lemma ProjectionDefaults(r: FeedRecord)
    ensures var d := Project(r);
      d.ioc != "" && d.iocType != "" && d.malware != "" && d.threatTypeDesc != "" && d.firstSeen != ""
    ensures Truthy(r.malwarePrintable) ==> Project(r).malware == r.malwarePrintable.value
    ensures !Truthy(r.malwarePrintable) && Truthy(r.malware) ==> Project(r).malware == r.malware.value
    ensures !Truthy(r.malwarePrintable) && !Truthy(r.malware) ==> Project(r).malware == Sentinel
    ensures Truthy(r.ioc) ==> Project(r).ioc == r.ioc.value
    ensures !Truthy(r.ioc) ==> Project(r).ioc == Sentinel
    ensures Truthy(r.iocType) ==> Project(r).iocType == r.iocType.value
    ensures !Truthy(r.iocType) ==> Project(r).iocType == Sentinel
    ensures Truthy(r.threatTypeDesc) ==> Project(r).threatTypeDesc == r.threatTypeDesc.value
    ensures !Truthy(r.threatTypeDesc) ==> Project(r).threatTypeDesc == Sentinel
    ensures Truthy(r.firstSeen) ==> Project(r).firstSeen == r.firstSeen.value
    ensures !Truthy(r.firstSeen) ==> Project(r).firstSeen == Sentinel
  {
  }

  /** In the list route's output region. */
  predicate InWindowDomain(d: DisplayRecord, cutoff: int, parse: DateParse)
  {
    d.iocType == "domain" && parse(d.firstSeen).Some? && parse(d.firstSeen).value >= cutoff
  }

  /**
   * Every formatted record is a domain whose displayed date is valid and inside the window.
   * The displayed type and date are the kept record's own values, never the fallback.
   */
  lemma FormattedInWindow(records: seq<FeedRecord>, cutoff: int, parse: DateParse)
    requires parse("") == None
    ensures forall d :: d in Formatted(records, cutoff, parse) ==> InWindowDomain(d, cutoff, parse)
    ensures forall i :: 0 <= i < |Formatted(records, cutoff, parse)| ==>
              Kept(records, cutoff, parse)[i].firstSeen == Some(Formatted(records, cutoff, parse)[i].firstSeen) &&
              Kept(records, cutoff, parse)[i].iocType == Some(Formatted(records, cutoff, parse)[i].iocType)
  {
    var kept := Kept(records, cutoff, parse);
    forall i | 0 <= i < |kept|
      ensures kept[i].firstSeen == Some(Project(kept[i]).firstSeen)
      ensures kept[i].iocType == Some(Project(kept[i]).iocType)
    {
      assert kept[i] in kept;
      KeptIff(records, cutoff, parse, kept[i]);
    }
    forall d | d in Formatted(records, cutoff, parse) ensures InWindowDomain(d, cutoff, parse) {
      var i :| 0 <= i < |kept| && d == Project(kept[i]);
      assert kept[i] in kept;
      KeptIff(records, cutoff, parse, kept[i]);
    }
  }

  // ---------------------------------------------------------------
  // `/malware`: the whole handler
  // ---------------------------------------------------------------

  /**
   * The handler body after the fetch: filter, map, then sort the array in place.
   * The result is sorted and lists every key's records in feed order, which by
   * StableOrderUnique pins it down completely.
   */
  method Aggregate(records: seq<FeedRecord>, filter: Option<string>, now: int, parse: DateParse)
    returns (out: seq<DisplayRecord>)
    requires parse("") == None
    ensures Sorted(out, parse)
    ensures forall k :: KeyFilter(out, k, parse) ==
                        KeyFilter(Formatted(records, Cutoff(now, filter), parse), k, parse)
    ensures multiset(out) == multiset(Formatted(records, Cutoff(now, filter), parse))
    ensures |out| == |Kept(records, Cutoff(now, filter), parse)|
    ensures forall d :: d in out ==> InWindowDomain(d, Cutoff(now, filter), parse)
  {
    var cutoff := Cutoff(now, filter);
    var formatted := Formatted(records, cutoff, parse);
    FormattedInWindow(records, cutoff, parse);
    var a := new DisplayRecord[|formatted|](i requires 0 <= i < |formatted| => formatted[i]);
    assert a[..] == formatted;
    forall i | 0 <= i < a.Length ensures Dated(a[i], parse) {
      assert a[i] in formatted;
    }
    SortByComparator(a, parse);
    out := a[..];
    KeyFiltersDeterminePermutation(out, formatted, parse);
    assert |out| == |multiset(out)| == |multiset(formatted)| == |formatted|;
    forall d | d in out ensures InWindowDomain(d, cutoff, parse) {
      assert d in multiset(out);
    }
  }

  /**
   * The `data` property of the feed's reply. A `null` element of the array is None:
   * reading `item.first_seen` on it throws. Any other non-object element reads every
   * property as undefined, so it is a record whose fields are all absent.
   */
  datatype FeedData =
    | NoData                                // absent or falsy: `|| []`
    | Items(items: seq<Option<FeedRecord>>)
    | NotAList                              // truthy but not an array: `.filter` throws

  /** The request threw; or the body is JSON `null`, so `.data` on it throws; or a body. */
  datatype BulkReply = BulkFailed(detail: string) | NullBody | BulkBody(data: FeedData)

  datatype MalwareResponse =
    | MalwareList(data: seq<DisplayRecord>)
    | MalwareFailed(status: nat, error: string)

  const MalwareErrorMessage: string := "Failed to fetch malware data"

  /** The records of the array, or None when one of its elements is `null`. */
  function AllRecords(items: seq<Option<FeedRecord>>): (r: Option<seq<FeedRecord>>)
    ensures r.Some? <==> forall i :: 0 <= i < |items| ==> items[i].Some?
    ensures r.Some? ==> |r.value| == |items| && forall i :: 0 <= i < |items| ==> r.value[i] == items[i].value
  {
    if items == [] then Some([])
    else if items[0].None? then None
    else match AllRecords(items[1..])
      case None => None
      case Some(rest) => Some([items[0].value] + rest)
  }

  /** The handler throws before it can answer: the catch block replies 500. */
  predicate Throws(reply: BulkReply)
  {
    match reply
    case BulkFailed(_) => true
    case NullBody => true
    case BulkBody(NoData) => false
    case BulkBody(NotAList) => true
    case BulkBody(Items(items)) => exists i :: 0 <= i < |items| && items[i].None?
  }

  /** `iocListRes.data.data || []`, for a reply that does not throw. */
  function Received(data: FeedData): seq<FeedRecord>
  {
    if data.Items? && AllRecords(data.items).Some? then AllRecords(data.items).value else []
  }

  /** The `/malware` route: the 500 reply after anything throws, else the sorted list. */
  method Malware(reply: BulkReply, filter: Option<string>, now: int, parse: DateParse)
    returns (res: MalwareResponse)
    requires parse("") == None
    ensures res.MalwareFailed? <==> Throws(reply)
    ensures res.MalwareFailed? ==> res == MalwareFailed(500, MalwareErrorMessage)
    ensures res.MalwareList? ==>
              var formatted := Formatted(Received(reply.data), Cutoff(now, filter), parse);
              Sorted(res.data, parse) &&
              (forall k :: KeyFilter(res.data, k, parse) == KeyFilter(formatted, k, parse)) &&
              multiset(res.data) == multiset(formatted)
    ensures res.MalwareList? && reply.data.Items? ==> |Received(reply.data)| == |reply.data.items|
    ensures res.MalwareList? && reply.data.NoData? ==> res.data == []
  {
    match reply
    case BulkFailed(_) =>
      res := MalwareFailed(500, MalwareErrorMessage);
    case NullBody =>
      res := MalwareFailed(500, MalwareErrorMessage);
    case BulkBody(data) =>
      if data.NotAList? || (data.Items? && AllRecords(data.items).None?) {
        res := MalwareFailed(500, MalwareErrorMessage);
      } else {
        var out := Aggregate(Received(data), filter, now, parse);
        res := MalwareList(out);
      }
  }
}
