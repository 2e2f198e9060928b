/**
  ImputeNAV (Data-Preprocessing.py:9-32): parse the date and NAV columns,
  sort the rows by date, then fill missing NAVs forward and then backward.
  Dates and NAVs arrive already parsed: the parsers (pd.to_datetime with
  format %d-%m-%Y and pd.to_numeric, both with errors='coerce') are
  parameters that map a cell to a value or to None. The NAV type is opaque.
 */
module Imputation {
  import opened Basics
  import opened Sorting
  import opened Frames

  /** A calendar date as a day number; None stands for NaT. */
  type Date = int

  /** One row of the cleaned frame: parsed date, parsed NAV, and the row's original cells. */
  datatype Row<N> = Row(date: Option<Date>, nav: Option<N>, record: seq<string>)

  /** pandas' ascending date order, NaT placed last. */
  predicate DateLe(a: Option<Date>, b: Option<Date>) {
    match a
    case None => b.None?
    case Some(x) => b.None? || x <= b.value
  }

  predicate ByDate<N>(a: Row<N>, b: Row<N>) {
    DateLe(a.date, b.date)
  }

  lemma {:induction false} ByDateIsTotalPreorder<N(!new)>()
    ensures TotalPreorder(ByDate<N>)
  {
  }

  function NavOf<N>(r: Row<N>): Option<N> {
    r.nav
  }

  /** The parts of a row that imputation never changes. */
  function KeyOf<N>(r: Row<N>): (Option<Date>, seq<string>) {
    (r.date, r.record)
  }

  function Navs<N>(rows: seq<Row<N>>): seq<Option<N>> {
    Image(rows, NavOf)
  }

  lemma {:induction false} NavsAt<N>(rows: seq<Row<N>>, k: int)
    requires 0 <= k < |rows|
    ensures |Navs(rows)| == |rows| && Navs(rows)[k] == rows[k].nav
  {
    assert Navs(rows)[k] == NavOf(rows[k]);
  }

  /** Number of missing values. */
  function CountNone<X>(s: seq<Option<X>>): nat {
    if s == [] then 0 else CountNone(s[..|s| - 1]) + (if s[|s| - 1].None? then 1 else 0)
  }

  /** No value is present in s[lo..hi). */
  ghost predicate NoneIn<X>(s: seq<Option<X>>, lo: int, hi: int) {
    forall k :: 0 <= k < |s| && lo <= k < hi ==> s[k].None?
  }

  /** s[j] is the closest present value before position i. */
  ghost predicate NearestEarlier<X>(s: seq<Option<X>>, i: int, j: int) {
    0 <= j < i < |s| && s[j].Some? && NoneIn(s, j + 1, i)
  }

  /** s[j] is the closest present value after position i. */
  ghost predicate NearestLater<X>(s: seq<Option<X>>, i: int, j: int) {
    0 <= i < j < |s| && s[j].Some? && NoneIn(s, i + 1, j)
  }

  /** fillna(method='ffill'): a missing value takes the last value seen before it. */
  function ForwardFill<X>(s: seq<Option<X>>): (r: seq<Option<X>>)
    ensures |r| == |s|
  {
    if s == [] then []
    else
      var p := ForwardFill(s[..|s| - 1]);
      var x := s[|s| - 1];
      p + [if x.Some? || p == [] then x else p[|p| - 1]]
  }

  /** fillna(method='bfill'): a missing value takes the next value seen after it. */
  function BackwardFill<X>(s: seq<Option<X>>): (r: seq<Option<X>>)
    ensures |r| == |s|
  {
    if s == [] then []
    else
      var t := BackwardFill(s[1..]);
      [if s[0].Some? || t == [] then s[0] else t[0]] + t
  }

  /** Lines 26-27: forward fill, then backward fill. */
  function FillNavs<X>(s: seq<Option<X>>): (r: seq<Option<X>>)
    ensures |r| == |s|
  {
    BackwardFill(ForwardFill(s))
  }

  lemma {:induction false} ForwardFillAt<X>(s: seq<Option<X>>, i: int)
    requires 0 <= i < |s|
    ensures s[i].Some? ==> ForwardFill(s)[i] == s[i]
    ensures forall j :: s[i].None? && NearestEarlier(s, i, j) ==> ForwardFill(s)[i] == s[j]
    ensures ForwardFill(s)[i].None? <==> NoneIn(s, 0, i + 1)
  {
    var n := |s|;
    var p := s[..n - 1];
    var f := ForwardFill(s);
    assert f == ForwardFill(p) + [f[n - 1]];
    if i < n - 1 {
      ForwardFillAt(p, i);
      assert f[i] == ForwardFill(p)[i];
      assert NoneIn(s, 0, i + 1) == NoneIn(p, 0, i + 1) by {
        assert forall k :: 0 <= k <= i ==> s[k] == p[k];
      }
      forall j | s[i].None? && NearestEarlier(s, i, j) ensures f[i] == s[j] {
        assert NearestEarlier(p, i, j);
      }
    } else if i > 0 {
      ForwardFillAt(p, i - 1);
      assert NoneIn(s, 0, i) == NoneIn(p, 0, i) by {
        assert forall k :: 0 <= k < i ==> s[k] == p[k];
      }
      forall j | s[i].None? && NearestEarlier(s, i, j) ensures f[i] == s[j] {
        if j < i - 1 {
          assert NearestEarlier(p, i - 1, j);
        }
      }
    }
  }

  lemma {:induction false} BackwardFillAt<X>(s: seq<Option<X>>, i: int)
    requires 0 <= i < |s|
    ensures s[i].Some? ==> BackwardFill(s)[i] == s[i]
    ensures forall j :: s[i].None? && NearestLater(s, i, j) ==> BackwardFill(s)[i] == s[j]
    ensures BackwardFill(s)[i].None? <==> NoneIn(s, i, |s|)
  {
    var t := s[1..];
    var b := BackwardFill(s);
    assert b == [b[0]] + BackwardFill(t);
    if i > 0 {
      BackwardFillAt(t, i - 1);
      forall j | s[i].None? && NearestLater(s, i, j) ensures b[i] == s[j] {
        assert NearestLater(t, i - 1, j - 1);
      }
    } else if |s| > 1 {
      BackwardFillAt(t, 0);
      forall j | s[i].None? && NearestLater(s, i, j) ensures b[i] == s[j] {
        if j > 1 {
          assert NearestLater(t, 0, j - 1);
        }
      }
    }
  }

  /**
    What lines 26-27 leave at position i: a present NAV stays; a missing one
    takes the nearest earlier NAV, or, when there is none, the nearest later
    one; it stays missing exactly when every NAV is missing.
   */
  lemma {:induction false} FillNavsAt<X>(s: seq<Option<X>>, i: int)
    requires 0 <= i < |s|
    ensures s[i].Some? ==> FillNavs(s)[i] == s[i]
    ensures forall j :: s[i].None? && NearestEarlier(s, i, j) ==> FillNavs(s)[i] == s[j]
    ensures forall j :: NoneIn(s, 0, i + 1) && NearestLater(s, i, j) ==> FillNavs(s)[i] == s[j]
    ensures FillNavs(s)[i].None? <==> NoneIn(s, 0, |s|)
  {
    var f := ForwardFill(s);
    ForwardFillAt(s, i);
    BackwardFillAt(f, i);
    forall k | 0 <= k < |s| ensures f[k].None? <==> NoneIn(s, 0, k + 1) {
      ForwardFillAt(s, k);
    }
    forall j | NoneIn(s, 0, i + 1) && NearestLater(s, i, j) ensures FillNavs(s)[i] == s[j] {
      ForwardFillAt(s, j);
      assert NearestLater(f, i, j);
    }
    if NoneIn(f, i, |f|) {
      assert f[|s| - 1].None?;
    }
  }

  lemma {:induction false} CountNoneMultiplicity<X>(s: seq<Option<X>>)
    ensures CountNone(s) == multiset(s)[None]
  {
    if s != [] {
      CountNoneMultiplicity(s[..|s| - 1]);
      assert s == s[..|s| - 1] + [s[|s| - 1]];
    }
  }

  lemma {:induction false} CountNoneBounds<X>(s: seq<Option<X>>)
    ensures CountNone(s) <= |s|
    ensures CountNone(s) == |s| <==> NoneIn(s, 0, |s|)
    ensures CountNone(s) == 0 <==> forall k :: 0 <= k < |s| ==> s[k].Some?
  {
    if s != [] {
      var p := s[..|s| - 1];
      CountNoneBounds(p);
      if CountNone(s) == |s| {
        assert NoneIn(p, 0, |p|);
      }
    }
  }

  /**
    ImputeRows: lines 16 and 26-27 on already parsed rows: sort by date, then
    fill the NAV column forward and backward.
   */
  function ImputeRows<N>(rows: seq<Row<N>>): (out: seq<Row<N>>)
    ensures |out| == |rows|
  {
    var sorted := SortBy(rows, ByDate);
    var filled := FillNavs(Navs(sorted));
    seq(|sorted|, i requires 0 <= i < |sorted| => sorted[i].(nav := filled[i]))
  }

  /**
    Imputation keeps every row: its output is the input reordered by date
    (NaT last), each row with its own date and cells; only NAVs change.
   */
  lemma {:induction false} ImputeRowsReorders<N(!new)>(rows: seq<Row<N>>)
    ensures SortedBy(ImputeRows(rows), ByDate)
    ensures multiset(Image(ImputeRows(rows), KeyOf)) == multiset(Image(rows, KeyOf))
    ensures multiset(SortBy(rows, ByDate)) == multiset(rows)
    ensures forall i :: 0 <= i < |rows| ==>
      KeyOf(ImputeRows(rows)[i]) == KeyOf(SortBy(rows, ByDate)[i])
  {
    var sorted := SortBy(rows, ByDate);
    var out := ImputeRows(rows);
    ByDateIsTotalPreorder<N>();
    SortBySorted(rows, ByDate);
    SortByPermutes(rows, ByDate);
    SortByImage(rows, ByDate, KeyOf);
    ImputeRowsKeys(rows);
    forall i, j | 0 <= i < j < |out| ensures ByDate(out[i], out[j]) {
      assert ByDate(sorted[i], sorted[j]);
    }
  }

  /** Filling touches only the NAVs: row i keeps the date and cells of the i-th row in date order. */
  lemma {:induction false} ImputeRowsKeys<N>(rows: seq<Row<N>>)
    ensures forall i :: 0 <= i < |rows| ==>
      ImputeRows(rows)[i].date == SortBy(rows, ByDate)[i].date
      && KeyOf(ImputeRows(rows)[i]) == KeyOf(SortBy(rows, ByDate)[i])
    ensures Image(ImputeRows(rows), KeyOf) == Image(SortBy(rows, ByDate), KeyOf)
  {
    var sorted := SortBy(rows, ByDate);
    var out := ImputeRows(rows);
    var filled := FillNavs(Navs(sorted));
    forall i | 0 <= i < |rows| ensures out[i].date == sorted[i].date && KeyOf(out[i]) == KeyOf(sorted[i]) {
      assert out[i] == sorted[i].(nav := filled[i]);
    }
    var ko, ks := Image(out, KeyOf), Image(sorted, KeyOf);
    assert |ko| == |ks|;
    forall i | 0 <= i < |ko| ensures ko[i] == ks[i] {
      assert ko[i] == KeyOf(out[i]) && ks[i] == KeyOf(sorted[i]);
    }
  }

  /**
    The NAV that imputation leaves in the i-th row of date order, in terms
    of the NAVs of the date-sorted rows before filling.
   */
  lemma {:induction false} ImputeRowsNavAt<N>(rows: seq<Row<N>>, i: int)
    requires 0 <= i < |rows|
    ensures var s := Navs(SortBy(rows, ByDate)); var v := ImputeRows(rows)[i].nav;
      && (s[i].Some? ==> v == s[i])
      && (forall j :: s[i].None? && NearestEarlier(s, i, j) ==> v == s[j])
      && (forall j :: NoneIn(s, 0, i + 1) && NearestLater(s, i, j) ==> v == s[j])
      && (v.None? <==> NoneIn(s, 0, |s|))
  {
    FillNavsAt(Navs(SortBy(rows, ByDate)), i);
  }

  /** Reordering keeps "every value is missing". */
  lemma {:induction false} NoneInTransfer<X>(a: seq<Option<X>>, b: seq<Option<X>>)
    requires multiset(a) == multiset(b) && NoneIn(a, 0, |a|)
    ensures NoneIn(b, 0, |b|)
  {
    forall k | 0 <= k < |b| ensures b[k].None? {
      assert b[k] in multiset(a);
    }
  }

  /** After imputation no NAV is missing, unless every NAV was missing; then all stay missing. */
  lemma {:induction false} ImputeRowsNoGaps<N>(rows: seq<Row<N>>)
    ensures (exists k :: 0 <= k < |rows| && rows[k].nav.Some?) ==>
      forall i :: 0 <= i < |rows| ==> ImputeRows(rows)[i].nav.Some?
    ensures (forall k :: 0 <= k < |rows| ==> rows[k].nav.None?) ==>
      forall i :: 0 <= i < |rows| ==> ImputeRows(rows)[i].nav.None?
  {
    var sorted := SortBy(rows, ByDate);
    var s := Navs(sorted);
    SortByImage(rows, ByDate, NavOf);
    if NoneIn(s, 0, |s|) {
      NoneInTransfer(s, Navs(rows));
    }
    if NoneIn(Navs(rows), 0, |rows|) {
      NoneInTransfer(Navs(rows), s);
    }
    forall k | 0 <= k < |rows| ensures Navs(rows)[k] == rows[k].nav {
      NavsAt(rows, k);
    }
    forall i | 0 <= i < |rows| ensures ImputeRows(rows)[i].nav.None? <==> NoneIn(s, 0, |s|) {
      ImputeRowsNavAt(rows, i);
    }
  }

  /** What ImputeNAV hands back: the cleaned rows and the counts it reports. */
  datatype Imputed<N> = Imputed(rows: seq<Row<N>>, missingBefore: nat, totalRecords: nat, missingAfter: nat)

  /** Lines 13-14: every row with its date and NAV cells parsed. */
  function ParseRows<N>(f: Frame, parseDate: string -> Option<Date>, parseNav: string -> Option<N>): seq<Row<N>>
    requires WellFormed(f) && "date" in f.columns && "nav" in f.columns
  {
    var dates := Column(f, "date");
    var navs := Column(f, "nav");
    seq(|f.records|, i requires 0 <= i < |f.records| => Row(parseDate(dates[i]), parseNav(navs[i]), f.records[i]))
  }

  /**
    ImputeNAV on a frame that was read: a missing 'date' or 'nav' column
    raises KeyError (modelled as Err naming the column); otherwise the rows
    are sorted and filled and the counts of lines 18-19 and 29 are reported.
   */
  function ImputeNAV<N>(f: Frame, parseDate: string -> Option<Date>, parseNav: string -> Option<N>)
    : (r: Result<Imputed<N>, string>)
    requires WellFormed(f)
    ensures r.Ok? <==> "date" in f.columns && "nav" in f.columns
    ensures r.Err? ==> r.error == (if "date" !in f.columns then "date" else "nav")
    ensures r.Ok? ==> |r.value.rows| == |f.records| && r.value.totalRecords == |f.records|
  {
    if "date" !in f.columns then Err("date")
    else if "nav" !in f.columns then Err("nav")
    else
      var rows := ParseRows(f, parseDate, parseNav);
      var sorted := SortBy(rows, ByDate);
      var out := ImputeRows(rows);
      Ok(Imputed(out, CountNone(Navs(sorted)), |sorted|, CountNone(Navs(out))))
  }

  /**
    The counts ImputeNAV reports: missing_before is the number of NAV cells
    that did not parse, and missing_after is 0 unless every NAV was missing,
    in which case it equals the row count.
   */
  lemma {:induction false} ImputeNAVCounts<N>(f: Frame, parseDate: string -> Option<Date>, parseNav: string -> Option<N>)
    requires WellFormed(f) && "date" in f.columns && "nav" in f.columns
    ensures ImputeNAV(f, parseDate, parseNav).Ok?
    ensures ImputeNAV(f, parseDate, parseNav).value.missingBefore == CountNone(Image(Column(f, "nav"), parseNav))
    ensures var r := ImputeNAV(f, parseDate, parseNav).value;
      r.missingAfter == (if r.missingBefore == r.totalRecords then r.totalRecords else 0)
  {
    var rows := ParseRows(f, parseDate, parseNav);
    ParsedNavs(f, parseDate, parseNav);
    MissingBeforeCount(rows);
    MissingAfterCount(rows);
  }

  lemma {:induction false} ParsedNavs<N>(f: Frame, parseDate: string -> Option<Date>, parseNav: string -> Option<N>)
    requires WellFormed(f) && "date" in f.columns && "nav" in f.columns
    ensures Navs(ParseRows(f, parseDate, parseNav)) == Image(Column(f, "nav"), parseNav)
  {
    var rows := ParseRows(f, parseDate, parseNav);
    forall i | 0 <= i < |rows| ensures Navs(rows)[i] == Image(Column(f, "nav"), parseNav)[i] {
      NavsAt(rows, i);
    }
  }

  /** Sorting does not change how many NAVs are missing. */
  lemma {:induction false} MissingBeforeCount<N>(rows: seq<Row<N>>)
    ensures CountNone(Navs(SortBy(rows, ByDate))) == CountNone(Navs(rows))
  {
    SortByImage(rows, ByDate, NavOf);
    CountNoneMultiplicity(Navs(SortBy(rows, ByDate)));
    CountNoneMultiplicity(Navs(rows));
  }

  /** After filling, either nothing is missing or everything was and still is. */
  lemma {:induction false} MissingAfterCount<N>(rows: seq<Row<N>>)
    ensures CountNone(Navs(ImputeRows(rows))) == (if CountNone(Navs(rows)) == |rows| then |rows| else 0)
  {
    var out := ImputeRows(rows);
    CountNoneBounds(Navs(rows));
    CountNoneBounds(Navs(out));
    ImputeRowsNoGaps(rows);
    forall k | 0 <= k < |rows| ensures Navs(rows)[k] == rows[k].nav && Navs(out)[k] == out[k].nav {
      NavsAt(rows, k);
      NavsAt(out, k);
    }
    if CountNone(Navs(rows)) != |rows| {
      var k :| 0 <= k < |rows| && Navs(rows)[k].Some?;
    }
  }

  /** Three dated rows with the middle NAV missing: the gap takes the earlier NAV. */
  lemma {:induction false} ImputeExample(c1: seq<string>, c2: seq<string>, c3: seq<string>)
    ensures var out := ImputeRows([Row(Some(1), Some(10.0), c1), Row(Some(2), None, c2), Row(Some(3), Some(12.0), c3)]);
      Navs(out) == [Some(10.0), Some(10.0), Some(12.0)]
  {
    var rows := [Row(Some(1), Some(10.0), c1), Row(Some(2), None, c2), Row(Some(3), Some(12.0), c3)];
    SortByOrdered(rows, ByDate);
    var s := Navs(rows);
    NavsAt(rows, 0);
    NavsAt(rows, 1);
    NavsAt(rows, 2);
    var out := ImputeRows(rows);
    ImputeRowsNavAt(rows, 0);
    ImputeRowsNavAt(rows, 1);
    ImputeRowsNavAt(rows, 2);
    assert NearestEarlier(s, 1, 0);
    NavsAt(out, 0);
    NavsAt(out, 1);
    NavsAt(out, 2);
  }
}
