/**
  A CSV file as pandas.read_csv hands it over: a header of column names and
  one record of text cells per data line. RemoveCSVCols
  (Data-Preprocessing.py:38-50) drops the requested columns that exist.
 */
module Frames {

  datatype Frame = Frame(columns: seq<string>, records: seq<seq<string>>)

  /** Every record has one cell per column, as read_csv guarantees. */
  predicate WellFormed(f: Frame) {
    forall i :: 0 <= i < |f.records| ==> |f.records[i]| == |f.columns|
  }

  /** Position of the first column called `x`. */
  function IndexOf(xs: seq<string>, x: string): (i: nat)
    requires x in xs
    ensures i < |xs| && xs[i] == x
    ensures forall k :: 0 <= k < i ==> xs[k] != x
  {
    if xs[0] == x then 0 else 1 + IndexOf(xs[1..], x)
  }

  /** The cells of column `name`, top to bottom (df[name]). */
  function Column(f: Frame, name: string): (cells: seq<string>)
    requires WellFormed(f) && name in f.columns
    ensures |cells| == |f.records|
  {
    var p := IndexOf(f.columns, name);
    seq(|f.records|, i requires 0 <= i < |f.records| => f.records[i][p])
  }

  /** The requested names that are columns of the frame, in the order they were requested. */
  function PresentColumns(names: seq<string>, columns: seq<string>): (r: seq<string>)
    ensures forall c :: c in r <==> c in names && c in columns
  {
    if names == [] then []
    else (if names[0] in columns then [names[0]] else []) + PresentColumns(names[1..], columns)
  }

  /** Reference meaning of dropping: the columns in their order, less those in `drop`. */
  function Without(xs: seq<string>, drop: seq<string>): seq<string> {
    if xs == [] then []
    else Without(xs[..|xs| - 1], drop) + (if xs[|xs| - 1] in drop then [] else [xs[|xs| - 1]])
  }

  lemma {:induction false} WithoutMembers(xs: seq<string>, drop: seq<string>, c: string)
    ensures c in Without(xs, drop) <==> c in xs && c !in drop
  {
    if xs != [] {
      WithoutMembers(xs[..|xs| - 1], drop, c);
      assert xs == xs[..|xs| - 1] + [xs[|xs| - 1]];
    }
  }

  /** Ascending positions below `n` whose column is not in `drop`. */
  function KeptBelow(columns: seq<string>, drop: seq<string>, n: nat): (ks: seq<nat>)
    requires n <= |columns|
    ensures forall k :: 0 <= k < |ks| ==> ks[k] < n && columns[ks[k]] !in drop
    ensures forall k, l :: 0 <= k < l < |ks| ==> ks[k] < ks[l]
    ensures forall p :: 0 <= p < n && columns[p] !in drop ==> p in ks
    decreases n
  {
    if n == 0 then []
    else KeptBelow(columns, drop, n - 1) + (if columns[n - 1] in drop then [] else [n - 1])
  }

  /** The positions of the columns that survive dropping `drop`. */
  function KeptPositions(columns: seq<string>, drop: seq<string>): seq<nat> {
    KeptBelow(columns, drop, |columns|)
  }

  /** The cells of `xs` at positions `ks`, in that order. */
  function Project(xs: seq<string>, ks: seq<nat>): seq<string>
    requires forall k :: 0 <= k < |ks| ==> ks[k] < |xs|
  {
    seq(|ks|, k requires 0 <= k < |ks| => xs[ks[k]])
  }

  /** df.drop(columns=labels). */
  function DropColumns(f: Frame, labels: seq<string>): (r: Frame)
    requires WellFormed(f)
    ensures WellFormed(r)
  {
    var ks := KeptPositions(f.columns, labels);
    var r := Frame(Project(f.columns, ks),
                   seq(|f.records|, i requires 0 <= i < |f.records| =>
                     Project(f.records[i], ks)));
    r
  }

  lemma {:induction false} ProjectKeptIsWithout(columns: seq<string>, drop: seq<string>, n: nat)
    requires n <= |columns|
    ensures Project(columns, KeptBelow(columns, drop, n)) == Without(columns[..n], drop)
  {
    if n > 0 {
      ProjectKeptIsWithout(columns, drop, n - 1);
      assert columns[..n][..n - 1] == columns[..n - 1];
    }
  }

  /** Two drop lists that agree on the present columns keep the same positions. */
  lemma {:induction false} KeptBelowAgree(columns: seq<string>, d1: seq<string>, d2: seq<string>, n: nat)
    requires n <= |columns|
    requires forall p :: 0 <= p < n ==> (columns[p] in d1 <==> columns[p] in d2)
    ensures KeptBelow(columns, d1, n) == KeptBelow(columns, d2, n)
  {
    if n > 0 {
      KeptBelowAgree(columns, d1, d2, n - 1);
    }
  }

  /** Dropping nothing that is present keeps every position. */
  lemma {:induction false} KeptBelowAll(columns: seq<string>, drop: seq<string>, n: nat)
    requires n <= |columns|
    requires forall p :: 0 <= p < n ==> columns[p] !in drop
    ensures KeptBelow(columns, drop, n) == seq(n, i => i)
  {
    if n > 0 {
      KeptBelowAll(columns, drop, n - 1);
    }
  }

  /** RemoveCSVCols (Data-Preprocessing.py:38-50): drop the requested columns that exist. */
  function RemoveCSVCols(f: Frame, names: seq<string>): (r: Frame)
    requires WellFormed(f)
    ensures WellFormed(r)
  {
    var existing := PresentColumns(names, f.columns);
    if |existing| > 0 then DropColumns(f, existing) else f
  }

  lemma {:induction false} NothingPresent(names: seq<string>, columns: seq<string>)
    requires forall c :: c in names ==> c !in columns
    ensures PresentColumns(names, columns) == []
  {
    if names != [] {
      NothingPresent(names[1..], columns);
    }
  }

  /**
    The columns of RemoveCSVCols(f, names) are the original ones, in order,
    less the requested names; every record loses the cells of exactly those
    columns and keeps the others in order.
   */
  lemma {:induction false} RemoveCSVColsSpec(f: Frame, names: seq<string>)
    requires WellFormed(f)
    ensures RemoveCSVCols(f, names).columns == Without(f.columns, names)
    ensures |RemoveCSVCols(f, names).records| == |f.records|
    ensures forall i :: 0 <= i < |f.records| ==>
      RemoveCSVCols(f, names).records[i] == Project(f.records[i], KeptPositions(f.columns, names))
  {
    var existing := PresentColumns(names, f.columns);
    if |existing| > 0 {
      SomePresent(f, names, existing);
    } else {
      NonePresent(f, names);
    }
  }

  lemma {:induction false} SomePresent(f: Frame, names: seq<string>, existing: seq<string>)
    requires WellFormed(f) && existing == PresentColumns(names, f.columns)
    ensures DropColumns(f, existing).columns == Without(f.columns, names)
    ensures |DropColumns(f, existing).records| == |f.records|
    ensures forall i :: 0 <= i < |f.records| ==>
      DropColumns(f, existing).records[i] == Project(f.records[i], KeptPositions(f.columns, names))
  {
    ProjectKeptIsWithout(f.columns, names, |f.columns|);
    assert f.columns[..|f.columns|] == f.columns;
    KeptBelowAgree(f.columns, existing, names, |f.columns|);
    DropColumnsSpec(f, existing);
  }

  lemma {:induction false} NonePresent(f: Frame, names: seq<string>)
    requires WellFormed(f) && PresentColumns(names, f.columns) == []
    ensures f.columns == Without(f.columns, names)
    ensures forall i :: 0 <= i < |f.records| ==>
      f.records[i] == Project(f.records[i], KeptPositions(f.columns, names))
  {
    NoColumnDropped(f.columns, names);
    ProjectKeptIsWithout(f.columns, names, |f.columns|);
    assert f.columns[..|f.columns|] == f.columns;
    KeptBelowAll(f.columns, names, |f.columns|);
    ProjectAll(f, KeptPositions(f.columns, names));
  }

  lemma {:induction false} NoColumnDropped(columns: seq<string>, names: seq<string>)
    requires PresentColumns(names, columns) == []
    ensures forall p :: 0 <= p < |columns| ==> columns[p] !in names
  {
  }

  lemma {:induction false} DropColumnsSpec(f: Frame, labels: seq<string>)
    requires WellFormed(f)
    ensures DropColumns(f, labels).columns == Project(f.columns, KeptPositions(f.columns, labels))
    ensures |DropColumns(f, labels).records| == |f.records|
    ensures forall i :: 0 <= i < |f.records| ==>
      DropColumns(f, labels).records[i] == Project(f.records[i], KeptPositions(f.columns, labels))
  {
  }

  lemma {:induction false} ProjectAll(f: Frame, ks: seq<nat>)
    requires WellFormed(f)
    requires ks == seq(|f.columns|, i => i)
    ensures forall i :: 0 <= i < |f.records| ==> Project(f.records[i], ks) == f.records[i]
  {
    forall i | 0 <= i < |f.records| ensures Project(f.records[i], ks) == f.records[i] {
    }
  }

  /** No requested name survives, and every other column survives. */
  lemma {:induction false} RemoveCSVColsColumns(f: Frame, names: seq<string>, c: string)
    requires WellFormed(f)
    ensures c in RemoveCSVCols(f, names).columns <==> c in f.columns && c !in names
  {
    RemoveCSVColsSpec(f, names);
    WithoutMembers(f.columns, names, c);
  }

  /** Nothing requested is present: RemoveCSVCols is a no-op. */
  lemma {:induction false} RemoveCSVColsNoop(f: Frame, names: seq<string>)
    requires WellFormed(f)
    requires forall c :: c in names ==> c !in f.columns
    ensures RemoveCSVCols(f, names) == f
  {
    NothingPresent(names, f.columns);
  }

  /** Removing the same names twice is removing them once. */
  lemma {:induction false} RemoveCSVColsIdempotent(f: Frame, names: seq<string>)
    requires WellFormed(f)
    ensures RemoveCSVCols(RemoveCSVCols(f, names), names) == RemoveCSVCols(f, names)
  {
    var r := RemoveCSVCols(f, names);
    forall c | c in names ensures c !in r.columns {
      RemoveCSVColsColumns(f, names, c);
    }
    RemoveCSVColsNoop(r, names);
  }

  /** The first column called `c` lands at the first position called `c` after projection. */
  lemma {:induction false} KeptIndexOf(columns: seq<string>, drop: seq<string>, c: string) returns (m: nat)
    requires c in columns && c !in drop
    ensures m < |KeptPositions(columns, drop)|
    ensures KeptPositions(columns, drop)[m] == IndexOf(columns, c)
    ensures c in Project(columns, KeptPositions(columns, drop))
    ensures IndexOf(Project(columns, KeptPositions(columns, drop)), c) == m
  {
    var ks := KeptPositions(columns, drop);
    var p := IndexOf(columns, c);
    assert p in ks;
    m :| 0 <= m < |ks| && ks[m] == p;
    var pr := Project(columns, ks);
    assert pr[m] == c;
    var q := IndexOf(pr, c);
  }

  /** A surviving column keeps its cells, row for row. */
  lemma {:induction false} RemoveCSVColsKeepsColumn(f: Frame, names: seq<string>, c: string)
    requires WellFormed(f) && c in f.columns && c !in names
    ensures c in RemoveCSVCols(f, names).columns
    ensures Column(RemoveCSVCols(f, names), c) == Column(f, c)
  {
    var r := RemoveCSVCols(f, names);
    var ks := KeptPositions(f.columns, names);
    RemoveCSVColsSpec(f, names);
    assert r.columns == Project(f.columns, ks) by {
      ProjectKeptIsWithout(f.columns, names, |f.columns|);
      assert f.columns[..|f.columns|] == f.columns;
    }
    var m := KeptIndexOf(f.columns, names, c);
    var p := IndexOf(f.columns, c);
    assert IndexOf(r.columns, c) == m;
    forall i | 0 <= i < |f.records| ensures Column(r, c)[i] == Column(f, c)[i] {
      calc {
        Column(r, c)[i];
        r.records[i][m];
        { assert r.records[i] == Project(f.records[i], ks); }
        f.records[i][ks[m]];
        f.records[i][p];
      }
    }
  }

  lemma {:induction false} WithoutSnoc(xs: seq<string>, x: string, drop: seq<string>)
    ensures Without(xs + [x], drop) == Without(xs, drop) + (if x in drop then [] else [x])
  {
    assert (xs + [x])[..|xs|] == xs;
  }

  /** Dropping labels that do not occur changes nothing. */
  lemma {:induction false} WithoutKeepsAll(xs: seq<string>, drop: seq<string>)
    requires forall k :: 0 <= k < |xs| ==> xs[k] !in drop
    ensures Without(xs, drop) == xs
  {
    if xs != [] {
      WithoutKeepsAll(xs[..|xs| - 1], drop);
      assert xs[..|xs| - 1] + [xs[|xs| - 1]] == xs;
    }
  }

  /** Dropping the two labels that close a list, and occur nowhere before, leaves the rest. */
  lemma {:induction false} WithoutTail(xs: seq<string>, d: string, e: string)
    requires forall k :: 0 <= k < |xs| ==> xs[k] !in [d, e]
    ensures Without(xs + [d, e], [d, e]) == xs
  {
    var drop := [d, e];
    WithoutKeepsAll(xs, drop);
    WithoutSnoc(xs, d, drop);
    WithoutSnoc(xs + [d], e, drop);
    assert xs + [d] + [e] == xs + [d, e];
    assert xs + [] == xs;
  }

  /** The columns the collector writes, less the two descriptive ones. */
  lemma {:induction false} DescriptiveColumnsDropped()
    ensures Without(["date", "nav", "scheme_code", "scheme_name", "fund_house"], ["scheme_name", "fund_house"])
            == ["date", "nav", "scheme_code"]
  {
    var c, d, e := "scheme_code", "scheme_name", "fund_house";
    assert c != d by {
      assert c[7] != d[7];
    }
    var xs := ["date", "nav", c];
    assert forall k :: 0 <= k < |xs| ==> xs[k] !in [d, e];
    WithoutTail(xs, d, e);
    assert xs + [d, e] == ["date", "nav", c, d, e];
  }

  /** The columns of a collector file written from an empty 'data' list, less the two descriptive ones. */
  lemma {:induction false} TagColumnsDropped()
    ensures Without(["scheme_code", "scheme_name", "fund_house"], ["scheme_name", "fund_house"]) == ["scheme_code"]
  {
    var c, d, e := "scheme_code", "scheme_name", "fund_house";
    assert c != d by {
      assert c[7] != d[7];
    }
    WithoutTail([c], d, e);
    assert [c] + [d, e] == [c, d, e];
  }

  /** The example of a file the collector writes: only date, nav and scheme_code survive. */
  lemma {:induction false} RemoveDescriptiveColumnsExample(records: seq<seq<string>>)
    requires forall i :: 0 <= i < |records| ==> |records[i]| == 5
    ensures RemoveCSVCols(Frame(["date", "nav", "scheme_code", "scheme_name", "fund_house"], records),
                          ["scheme_name", "fund_house"]).columns == ["date", "nav", "scheme_code"]
  {
    RemoveCSVColsSpec(Frame(["date", "nav", "scheme_code", "scheme_name", "fund_house"], records), ["scheme_name", "fund_house"]);
    DescriptiveColumnsDropped();
  }
}
