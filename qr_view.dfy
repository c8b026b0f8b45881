/**
 * The list the main screen shows: the working list filtered by kind ("all" keeps
 * everything) and then sorted by date with the `sortByDate` comparator, which
 * `Array.prototype.sort` applies stably.
 */
module QrView {
  import opened Types
  import opened Lists

  datatype SortOrder = Asc | Desc

  /**
   * `sortByDate(a, b)`: negative when `a` belongs before `b`, zero for the same day.
   * Dates are day numbers here, so the difference of the source's millisecond
   * timestamps is this difference scaled by a positive constant: same sign.
   */
  function CompareDates(order: SortOrder, a: QR, b: QR): (r: int)
    ensures r == 0 <==> a.date == b.date
    ensures order == Asc ==> (r <= 0 <==> a.date <= b.date)
    ensures order == Desc ==> (r <= 0 <==> a.date >= b.date)
  {
    match order
    case Asc => a.date - b.date
    case Desc => b.date - a.date
  }

  /** No pair of records is out of order under the comparator. */
  ghost predicate Sorted(s: seq<QR>, order: SortOrder) {
    forall i, j :: 0 <= i < j < |s| ==> CompareDates(order, s[i], s[j]) <= 0
  }

  /** The records of one day, in the order in which they occur. */
  function DatedOn(d: int): QR -> bool {
    (q: QR) => q.date == d
  }

  /** Put `x` in front of the first record it may precede (ties included). */
  function Insert(x: QR, s: seq<QR>, order: SortOrder): (r: seq<QR>)
    ensures multiset(r) == multiset(s) + multiset{x}
  {
    if s == [] then [x]
    else if CompareDates(order, x, s[0]) <= 0 then [x] + s
    else
      assert s == [s[0]] + s[1..];
      [s[0]] + Insert(x, s[1..], order)
  }

  lemma {:induction false} InsertSorted(x: QR, s: seq<QR>, order: SortOrder)
    requires Sorted(s, order)
    ensures Sorted(Insert(x, s, order), order)
  {
    if s != [] && CompareDates(order, x, s[0]) > 0 {
      InsertSorted(x, s[1..], order);
      var t := Insert(x, s[1..], order);
      forall y | y in t
        ensures CompareDates(order, s[0], y) <= 0
      {
        assert y in multiset(t);
        if y != x {
          assert y in s[1..];
        }
      }
    }
  }

  /** The day filter takes a record at the front of a list exactly when it is of that day. */
  lemma DaysOfCons(y: QR, t: seq<QR>, d: int)
    ensures Filter([y] + t, DatedOn(d)) == (if y.date == d then [y] else []) + Filter(t, DatedOn(d))
  {
    assert ([y] + t)[1..] == t;
  }

  /** Inserting `x` puts it ahead of every record of its own day and leaves the other days alone. */
  lemma {:induction false} InsertKeepsDays(x: QR, s: seq<QR>, order: SortOrder, d: int)
    ensures Filter(Insert(x, s, order), DatedOn(d)) ==
      (if x.date == d then [x] else []) + Filter(s, DatedOn(d))
  {
    if s == [] {
      DaysOfCons(x, s, d);
    } else if CompareDates(order, x, s[0]) <= 0 {
      DaysOfCons(x, s, d);
    } else {
      var rest := s[1..];
      assert s == [s[0]] + rest;
      InsertKeepsDays(x, rest, order, d);
      DaysOfCons(s[0], Insert(x, rest, order), d);
      DaysOfCons(s[0], rest, d);
      // x sorts strictly after s[0], so the two are never of the same day
      assert x.date != s[0].date;
    }
  }

  /** A stable sort by date (insertion sort from the back). */
  function SortQrs(s: seq<QR>, order: SortOrder): (r: seq<QR>)
    ensures multiset(r) == multiset(s)
    ensures Sorted(r, order)
  {
    if s == [] then []
    else
      assert s == [s[0]] + s[1..];
      var t := SortQrs(s[1..], order);
      InsertSorted(s[0], t, order);
      Insert(s[0], t, order)
  }

  /** Stability: records of the same day keep their relative order. */
  lemma {:induction false} SortKeepsDays(s: seq<QR>, order: SortOrder, d: int)
    ensures Filter(SortQrs(s, order), DatedOn(d)) == Filter(s, DatedOn(d))
  {
    if s != [] {
      SortKeepsDays(s[1..], order, d);
      InsertKeepsDays(s[0], SortQrs(s[1..], order), order, d);
    }
  }

  /** Day by day agreement with the empty list leaves nothing. */
  lemma EmptyByDays(a: seq<QR>, b: seq<QR>)
    requires a == []
    requires forall d :: Filter(a, DatedOn(d)) == Filter(b, DatedOn(d))
    ensures b == []
  {
    if b != [] {
      FilterMembers(b, DatedOn(b[0].date), b[0]);
    }
  }

  /** Some record of `b` is `x`, so `b[0]` comes no later than `x`. */
  lemma HeadNoLater(x: QR, b: seq<QR>, order: SortOrder)
    requires Sorted(b, order) && x in b
    ensures CompareDates(order, b[0], x) <= 0
  {
    var k :| 0 <= k < |b| && b[k] == x;
    assert k == 0 || CompareDates(order, b[0], b[k]) <= 0;
  }

  /** Two sorted lists that agree day by day start on the same day. */
  lemma SameFirstDay(a: seq<QR>, b: seq<QR>, order: SortOrder)
    requires Sorted(a, order) && Sorted(b, order) && a != [] && b != []
    requires forall d :: Filter(a, DatedOn(d)) == Filter(b, DatedOn(d))
    ensures a[0].date == b[0].date
  {
    var da, db := a[0].date, b[0].date;
    FilterMembers(a, DatedOn(da), a[0]);
    FilterMembers(b, DatedOn(da), a[0]);
    HeadNoLater(a[0], b, order);
    FilterMembers(b, DatedOn(db), b[0]);
    FilterMembers(a, DatedOn(db), b[0]);
    HeadNoLater(b[0], a, order);
  }

  /** Two sorted lists that agree day by day start with the same record. */
  lemma SameHead(a: seq<QR>, b: seq<QR>, order: SortOrder)
    requires Sorted(a, order) && Sorted(b, order) && a != [] && b != []
    requires forall d :: Filter(a, DatedOn(d)) == Filter(b, DatedOn(d))
    ensures a[0] == b[0]
  {
    SameFirstDay(a, b, order);
    var d := a[0].date;
    assert a == [a[0]] + a[1..] && b == [b[0]] + b[1..];
    DaysOfCons(a[0], a[1..], d);
    DaysOfCons(b[0], b[1..], d);
    var fa, fb := Filter(a, DatedOn(d)), Filter(b, DatedOn(d));
    assert fa[0] == a[0] && fb[0] == b[0];
  }

  /** A common first record taken off, the rest still agree day by day. */
  lemma TailsByDays(a: seq<QR>, b: seq<QR>)
    requires a != [] && b != [] && a[0] == b[0]
    requires forall d :: Filter(a, DatedOn(d)) == Filter(b, DatedOn(d))
    ensures forall d :: Filter(a[1..], DatedOn(d)) == Filter(b[1..], DatedOn(d))
  {
    assert a == [a[0]] + a[1..] && b == [b[0]] + b[1..];
    forall d
      ensures Filter(a[1..], DatedOn(d)) == Filter(b[1..], DatedOn(d))
    {
      var head := if a[0].date == d then [a[0]] else [];
      var fa, fb := Filter(a[1..], DatedOn(d)), Filter(b[1..], DatedOn(d));
      DaysOfCons(a[0], a[1..], d);
      DaysOfCons(b[0], b[1..], d);
      assert head + fa == head + fb;
      assert (head + fa)[|head|..] == fa && (head + fb)[|head|..] == fb;
    }
  }

  /**
   * A sorted arrangement that keeps every day's records in a given order is unique:
   * two of them that agree day by day are equal.
   */
  lemma {:induction false} SortedByDaysUnique(a: seq<QR>, b: seq<QR>, order: SortOrder)
    requires Sorted(a, order) && Sorted(b, order)
    requires forall d :: Filter(a, DatedOn(d)) == Filter(b, DatedOn(d))
    ensures a == b
  {
    if a == [] {
      EmptyByDays(a, b);
    } else if b == [] {
      EmptyByDays(b, a);
    } else {
      SameHead(a, b, order);
      TailsByDays(a, b);
      SortedByDaysUnique(a[1..], b[1..], order);
      assert a == [a[0]] + a[1..] && b == [b[0]] + b[1..];
    }
  }

  /**
   * Whatever stable sorting algorithm runs, its result is `SortQrs`: any sorted
   * arrangement of the records that keeps each day's records in their original
   * order is exactly this one.
   */
  lemma StableSortIsSortQrs(s: seq<QR>, r: seq<QR>, order: SortOrder)
    requires Sorted(r, order)
    requires forall d :: Filter(r, DatedOn(d)) == Filter(s, DatedOn(d))
    ensures r == SortQrs(s, order)
  {
    forall d ensures Filter(r, DatedOn(d)) == Filter(SortQrs(s, order), DatedOn(d)) {
      SortKeepsDays(s, order, d);
    }
    SortedByDaysUnique(r, SortQrs(s, order), order);
  }

  /** The kind filter: "all" lets every record through. */
  function ShownFor(selectedType: string): QR -> bool {
    (q: QR) => selectedType == "all" || q.kind == selectedType
  }

  /** `filteredQrData`: a fresh list; the working list it is computed from is not touched. */
  function FilteredQrData(qrData: seq<QR>, selectedType: string, order: SortOrder): (r: seq<QR>)
    ensures forall i :: 0 <= i < |r| ==> selectedType == "all" || r[i].kind == selectedType
    ensures multiset(r) == multiset(Filter(qrData, ShownFor(selectedType)))
    ensures selectedType == "all" ==> |r| == |qrData| && multiset(r) == multiset(qrData)
    ensures order == Asc ==> forall i, j :: 0 <= i < j < |r| ==> r[i].date <= r[j].date
    ensures order == Desc ==> forall i, j :: 0 <= i < j < |r| ==> r[i].date >= r[j].date
  {
    var shown := Filter(qrData, ShownFor(selectedType));
    var r := SortQrs(shown, order);
    forall i | 0 <= i < |r|
      ensures selectedType == "all" || r[i].kind == selectedType
    {
      assert r[i] in multiset(shown);
      FilterMembers(qrData, ShownFor(selectedType), r[i]);
    }
    r
  }

  /** Records of the same day appear in the order they have in the working list. */
  lemma FilteredQrDataStable(qrData: seq<QR>, selectedType: string, order: SortOrder, d: int)
    ensures Filter(FilteredQrData(qrData, selectedType, order), DatedOn(d)) ==
      Filter(Filter(qrData, ShownFor(selectedType)), DatedOn(d))
  {
    SortKeepsDays(Filter(qrData, ShownFor(selectedType)), order, d);
  }
}
