/**
 * The order of the list route: indicators that start with an ASCII letter first,
 * then the most recent `first_seen` first, ties kept in input order
 * (`Array.prototype.sort` is stable).
 */
module DisplayOrder {
  import opened Feed
  import opened Seqs
  import opened Text

  /** The test `/^[a-zA-Z]/.test(ioc)`. */
  predicate StartsWithLetter(s: string)
  {
    |s| > 0 && IsAsciiLetter(s[0])
  }

  /** A display record whose `first_seen` is a valid date. */
  predicate Dated(d: DisplayRecord, parse: DateParse)
  {
    parse(d.firstSeen).Some?
  }

  /** The two comparison keys of a record. The time of an undated record is never consulted. */
  datatype SortKey = SortKey(letter: bool, time: int)

  function KeyOf(d: DisplayRecord, parse: DateParse): SortKey
  {
    SortKey(StartsWithLetter(d.ioc), if Dated(d, parse) then parse(d.firstSeen).value else 0)
  }

  /** `k1` belongs strictly before `k2`. */
  predicate KeyBefore(k1: SortKey, k2: SortKey)
  {
    (k1.letter && !k2.letter) || (k1.letter == k2.letter && k1.time > k2.time)
  }

  /** `k1` may stand before `k2`. */
  predicate KeyAtMost(k1: SortKey, k2: SortKey)
  {
    k1 == k2 || KeyBefore(k1, k2)
  }

  /**
   * The comparator of the list route: negative puts `a` first, positive puts `b` first.
   * A subtraction involving an invalid date is NaN, which the sort reads as 0.
   */
  function Compare(a: DisplayRecord, b: DisplayRecord, parse: DateParse): int
  {
    var aLetter := StartsWithLetter(a.ioc);
    var bLetter := StartsWithLetter(b.ioc);
    if aLetter && !bLetter then -1
    else if !aLetter && bLetter then 1
    else if Dated(a, parse) && Dated(b, parse) then parse(b.firstSeen).value - parse(a.firstSeen).value
    else 0
  }

  /** On dated records the comparator is the strict order on keys, and 0 exactly on equal keys. */
  lemma CompareMatchesKeys(a: DisplayRecord, b: DisplayRecord, parse: DateParse)
    requires Dated(a, parse) && Dated(b, parse)
    ensures Compare(a, b, parse) < 0 <==> KeyBefore(KeyOf(a, parse), KeyOf(b, parse))
    ensures Compare(a, b, parse) > 0 <==> KeyBefore(KeyOf(b, parse), KeyOf(a, parse))
    ensures Compare(a, b, parse) == 0 <==> KeyOf(a, parse) == KeyOf(b, parse)
  {
  }

  /** The key order is a strict total order, so the comparator is consistent on dated records. */
  lemma KeyOrderIsTotal(k1: SortKey, k2: SortKey, k3: SortKey)
    ensures !KeyBefore(k1, k1)
    ensures KeyBefore(k1, k2) || k1 == k2 || KeyBefore(k2, k1)
    ensures KeyBefore(k1, k2) ==> !KeyBefore(k2, k1)
    ensures KeyBefore(k1, k2) && KeyBefore(k2, k3) ==> KeyBefore(k1, k3)
  {
  }

  /** No record stands after one that belongs strictly after it. */
  predicate Sorted(s: seq<DisplayRecord>, parse: DateParse)
  {
    forall i, j :: 0 <= i < j < |s| ==> KeyAtMost(KeyOf(s[i], parse), KeyOf(s[j], parse))
  }

  /** Sortedness read back in the list route's own terms. */
  lemma SortedMeansPartitionedAndRecentFirst(s: seq<DisplayRecord>, parse: DateParse, i: int, j: int)
    requires Sorted(s, parse)
    requires 0 <= i < j < |s|
    ensures StartsWithLetter(s[j].ioc) ==> StartsWithLetter(s[i].ioc)
    ensures Dated(s[i], parse) && Dated(s[j], parse) &&
            StartsWithLetter(s[i].ioc) == StartsWithLetter(s[j].ioc) ==>
              parse(s[i].firstSeen).value >= parse(s[j].firstSeen).value
  {
    assert KeyAtMost(KeyOf(s[i], parse), KeyOf(s[j], parse));
  }

  function HasKey(k: SortKey, parse: DateParse): DisplayRecord -> bool
  {
    d => KeyOf(d, parse) == k
  }

  /** The records of `s` whose keys equal `k`, in their order in `s`. */
  function KeyFilter(s: seq<DisplayRecord>, k: SortKey, parse: DateParse): seq<DisplayRecord>
  {
    Filter(s, HasKey(k, parse))
  }

  /** Exchanging neighbours with different keys leaves every key's records in the same order. */
  lemma SwapKeepsKeyFilters(s: seq<DisplayRecord>, j: int, parse: DateParse)
    requires 0 < j < |s|
    requires KeyOf(s[j - 1], parse) != KeyOf(s[j], parse)
    ensures forall k :: KeyFilter(s[j - 1 := s[j]][j := s[j - 1]], k, parse) == KeyFilter(s, k, parse)
  {
    var t := s[j - 1 := s[j]][j := s[j - 1]];
    var front, back := s[..j - 1], s[j + 1..];
    assert s == front + [s[j - 1], s[j]] + back;
    assert t == front + [s[j], s[j - 1]] + back;
    forall k ensures KeyFilter(t, k, parse) == KeyFilter(s, k, parse) {
      var p := HasKey(k, parse);
      FilterAppend(front + [s[j - 1], s[j]], back, p);
      FilterAppend(front, [s[j - 1], s[j]], p);
      FilterAppend(front + [s[j], s[j - 1]], back, p);
      FilterAppend(front, [s[j], s[j - 1]], p);
      assert [s[j - 1], s[j]][1..] == [s[j]];
      assert [s[j], s[j - 1]][1..] == [s[j - 1]];
      assert Filter([s[j - 1], s[j]], p) == Filter([s[j], s[j - 1]], p);
    }
  }

  lemma {:induction false} KeyFilterCount(s: seq<DisplayRecord>, x: DisplayRecord, parse: DateParse)
    ensures multiset(KeyFilter(s, KeyOf(x, parse), parse))[x] == multiset(s)[x]
  {
    if s != [] {
      assert s == [s[0]] + s[1..];
      KeyFilterCount(s[1..], x, parse);
    }
  }

  /** Equal per-key orders make two sequences permutations of each other. */
  lemma KeyFiltersDeterminePermutation(s: seq<DisplayRecord>, t: seq<DisplayRecord>, parse: DateParse)
    requires forall k :: KeyFilter(s, k, parse) == KeyFilter(t, k, parse)
    ensures multiset(s) == multiset(t)
  {
    forall x ensures multiset(s)[x] == multiset(t)[x] {
      KeyFilterCount(s, x, parse);
      KeyFilterCount(t, x, parse);
    }
  }

  lemma KeyPresent(s: seq<DisplayRecord>, i: int, parse: DateParse)
    requires 0 <= i < |s|
    ensures KeyFilter(s, KeyOf(s[i], parse), parse) != []
  {
    FilterMembership(s, HasKey(KeyOf(s[i], parse), parse), s[i]);
  }

  lemma KeyFilterWitness(s: seq<DisplayRecord>, k: SortKey, parse: DateParse) returns (i: int)
    requires KeyFilter(s, k, parse) != []
    ensures 0 <= i < |s| && KeyOf(s[i], parse) == k
  {
    var r := KeyFilter(s, k, parse);
    assert r[0] in r;
    i :| 0 <= i < |s| && s[i] == r[0];
  }

  /**
   * A stable sort has exactly one possible result: two sorted sequences that list
   * every key's records in the same order are equal.
   */
  lemma {:induction false} StableOrderUnique(s: seq<DisplayRecord>, t: seq<DisplayRecord>, parse: DateParse)
    requires Sorted(s, parse) && Sorted(t, parse)
    requires forall k :: KeyFilter(s, k, parse) == KeyFilter(t, k, parse)
    ensures s == t
    decreases |s|
  {
    KeyFiltersDeterminePermutation(s, t, parse);
    assert |s| == |multiset(s)| == |multiset(t)| == |t|;
    if s != [] {
      var ks, kt := KeyOf(s[0], parse), KeyOf(t[0], parse);
      KeyPresent(t, 0, parse);
      var i := KeyFilterWitness(s, kt, parse);
      assert KeyAtMost(ks, kt);
      KeyPresent(s, 0, parse);
      var j := KeyFilterWitness(t, ks, parse);
      assert KeyAtMost(kt, ks);
      assert ks == kt;
      assert s[0] == KeyFilter(s, ks, parse)[0] == KeyFilter(t, ks, parse)[0] == t[0];
      forall k ensures KeyFilter(s[1..], k, parse) == KeyFilter(t[1..], k, parse) {
        assert KeyFilter(s, k, parse) == (if KeyOf(s[0], parse) == k then [s[0]] else []) + KeyFilter(s[1..], k, parse);
        assert KeyFilter(t, k, parse) == (if KeyOf(t[0], parse) == k then [t[0]] else []) + KeyFilter(t[1..], k, parse);
        assert KeyFilter(s, k, parse) == KeyFilter(t, k, parse);
        if KeyOf(s[0], parse) == k {
          assert KeyFilter(s[1..], k, parse) == KeyFilter(s, k, parse)[1..];
          assert KeyFilter(t[1..], k, parse) == KeyFilter(t, k, parse)[1..];
        } else {
          assert KeyOf(t[0], parse) != k;
          assert KeyFilter(s[1..], k, parse) == KeyFilter(s, k, parse);
        }
      }
      StableOrderUnique(s[1..], t[1..], parse);
      assert s == [s[0]] + s[1..] && t == [t[0]] + t[1..];
    }
  }

  /**
   * `formatted.sort(comparator)` as a stable insertion sort: each record moves left past
   * the records that belong strictly after it, and never past an equal key.
   */
  method SortByComparator(a: array<DisplayRecord>, parse: DateParse)
    requires forall i :: 0 <= i < a.Length ==> Dated(a[i], parse)
    modifies a
    ensures Sorted(a[..], parse)
    ensures forall k :: KeyFilter(a[..], k, parse) == KeyFilter(old(a[..]), k, parse)
  {
    ghost var original := a[..];
    var i := 0;
    while i < a.Length
      invariant 0 <= i <= a.Length
      invariant forall p, q :: 0 <= p < q < i ==> KeyAtMost(KeyOf(a[p], parse), KeyOf(a[q], parse))
      invariant forall p :: 0 <= p < a.Length ==> Dated(a[p], parse)
      invariant forall k :: KeyFilter(a[..], k, parse) == KeyFilter(original, k, parse)
    {
      var j := i;
      while 0 < j && Compare(a[j - 1], a[j], parse) > 0
        invariant 0 <= j <= i
        invariant forall p, q :: 0 <= p < q <= i && p != j && q != j ==>
                    KeyAtMost(KeyOf(a[p], parse), KeyOf(a[q], parse))
        invariant forall q :: j < q <= i ==> KeyBefore(KeyOf(a[j], parse), KeyOf(a[q], parse))
        invariant forall p :: 0 <= p < a.Length ==> Dated(a[p], parse)
        invariant forall k :: KeyFilter(a[..], k, parse) == KeyFilter(original, k, parse)
      {
        CompareMatchesKeys(a[j - 1], a[j], parse);
        SwapKeepsKeyFilters(a[..], j, parse);
        a[j - 1], a[j] := a[j], a[j - 1];
        j := j - 1;
      }
      if 0 < j {
        CompareMatchesKeys(a[j - 1], a[j], parse);
      }
      i := i + 1;
    }
  }
}
