/**
  The directory passes of Data-Preprocessing.py: ProcessAllCSVFiles
  (lines 56-102) and generateMissingValReport (lines 108-142). The glob of
  '*.csv' files is given as a sequence of files, each with the frame
  read_csv produces or None when reading fails; whether writing an output
  path succeeds is given by `writable`.
 */
module Preprocessing {
  import opened Basics
  import opened Sorting
  import opened Text
  import opened Frames
  import opened Imputation

  /** A file matched by the glob: its path and, if it can be read, its frame. */
  datatype CsvFile = CsvFile(path: string, content: Option<Frame>)

  /** read_csv succeeds. A ragged frame stands for a file read_csv rejects. */
  predicate Loads(f: CsvFile) {
    f.content.Some? && WellFormed(f.content.value)
  }

  /** The file reads and df['date'] and df['nav'] exist, so no KeyError is raised. */
  predicate HasNavColumns(f: CsvFile) {
    Loads(f) && "date" in f.content.value.columns && "nav" in f.content.value.columns
  }

  /** Line 61. */
  const ColumnsToRemove: seq<string> := ["scheme_name", "fund_house"]

  /** The summary printed at lines 97-102. */
  datatype Summary = Summary(filesFound: nat, filesProcessed: nat, totalRecords: nat)

  /** Lines 84-87: the same file name under the output directory, or the input path itself. */
  function OutputPath(outputDir: Option<string>, path: string): (out: string)
    ensures Basename(out) == Basename(path)
    ensures (outputDir.None? || outputDir.value == "") ==> out == path
    ensures outputDir.Some? && outputDir.value != "" ==>
      var d := outputDir.value;
      && |out| >= |d| && out[..|d|] == d
      && out[|d|..] == (if d[|d| - 1] == '/' then "" else "/") + Basename(path)
  {
    if outputDir.Some? && outputDir.value != "" then
      var d, b := outputDir.value, Basename(path);
      BasenameOfJoin(d, b);
      assert (d + b)[..|d|] == d && (d + b)[|d|..] == b;
      assert (d + "/" + b)[..|d|] == d && (d + "/" + b)[|d|..] == "/" + b;
      assert "" + b == b;
      JoinPath(d, b)
    else path
  }

  /** Reference count of line 80: rows of every file whose imputation succeeded. */
  function RecordsImputed(files: seq<CsvFile>): nat {
    if files == [] then 0
    else
      var f := files[|files| - 1];
      RecordsImputed(files[..|files| - 1]) + (if HasNavColumns(f) then |f.content.value.records| else 0)
  }

  /** What line 89 writes for a file that imputes: its mirrored path and its raw frame minus the columns. */
  function OutputOf(f: CsvFile, outputDir: Option<string>): (string, Frame)
    requires HasNavColumns(f)
  {
    (OutputPath(outputDir, f.path), RemoveCSVCols(f.content.value, ColumnsToRemove))
  }

  /** Reference list of the files written at line 89, in glob order. */
  function Outputs(files: seq<CsvFile>, outputDir: Option<string>, writable: string -> bool)
    : seq<(string, Frame)>
  {
    if files == [] then []
    else
      var f := files[|files| - 1];
      var out := OutputPath(outputDir, f.path);
      Outputs(files[..|files| - 1], outputDir, writable)
        + (if HasNavColumns(f) && writable(out) then [OutputOf(f, outputDir)] else [])
  }

  lemma {:induction false} OutputsBound(files: seq<CsvFile>, outputDir: Option<string>, writable: string -> bool)
    ensures |Outputs(files, outputDir, writable)| <= |files|
  {
    if files != [] {
      OutputsBound(files[..|files| - 1], outputDir, writable);
    }
  }

  /**
    ProcessAllCSVFiles (lines 56-102). Each file is imputed, and its row count
    added to total_records as soon as imputation succeeds (line 80); then the
    file is read again and written without the two descriptive columns. A
    failure anywhere in a file skips that file only. No file at all returns
    before any summary.
   */
  method ProcessAllCSVFiles<N>(files: seq<CsvFile>, outputDir: Option<string>, writable: string -> bool,
                               parseDate: string -> Option<Date>, parseNav: string -> Option<N>)
    returns (summary: Option<Summary>, written: seq<(string, Frame)>)
    ensures files == [] ==> summary == None && written == []
    ensures files != [] ==> summary == Some(Summary(|files|, |written|, RecordsImputed(files)))
    ensures written == Outputs(files, outputDir, writable)
    ensures |written| <= |files|
  {
    if files == [] {
      return None, [];
    }
    var totalRecords := 0;
    var filesProcessed := 0;
    written := [];
    for i := 0 to |files|
      invariant written == Outputs(files[..i], outputDir, writable)
      invariant filesProcessed == |written|
      invariant totalRecords == RecordsImputed(files[..i])
    {
      var file := files[i];
      assert files[..i + 1][..i] == files[..i];
      if file.content.Some? && WellFormed(file.content.value) {
        var imputed := ImputeNAV(file.content.value, parseDate, parseNav);
        if imputed.Ok? {
          totalRecords := totalRecords + |imputed.value.rows|;
          var df := RemoveCSVCols(file.content.value, ColumnsToRemove);
          var outputPath := OutputPath(outputDir, file.path);
          if writable(outputPath) {
            written := written + [(outputPath, df)];
            filesProcessed := filesProcessed + 1;
          }
        }
      }
    }
    assert files[..|files|] == files;
    OutputsBound(files, outputDir, writable);
    summary := Some(Summary(|files|, filesProcessed, totalRecords));
  }

  /** Every file written comes from one input file: its mirrored path and its raw frame minus the columns. */
  lemma {:induction false} OutputsFromInputs(files: seq<CsvFile>, outputDir: Option<string>, writable: string -> bool, k: int)
    requires 0 <= k < |Outputs(files, outputDir, writable)|
    ensures exists i :: 0 <= i < |files| && HasNavColumns(files[i])
                        && writable(OutputPath(outputDir, files[i].path))
                        && Outputs(files, outputDir, writable)[k]
                           == (OutputPath(outputDir, files[i].path), RemoveCSVCols(files[i].content.value, ColumnsToRemove))
  {
    var init := files[..|files| - 1];
    OutputsBound(init, outputDir, writable);
    if k < |Outputs(init, outputDir, writable)| {
      OutputsFromInputs(init, outputDir, writable, k);
      var i :| 0 <= i < |init| && HasNavColumns(init[i])
        && writable(OutputPath(outputDir, init[i].path))
        && Outputs(init, outputDir, writable)[k]
           == (OutputPath(outputDir, init[i].path), RemoveCSVCols(init[i].content.value, ColumnsToRemove));
      assert files[i] == init[i];
    } else {
      assert HasNavColumns(files[|files| - 1]);
    }
  }

  /**
    A failing file costs only itself: every file that imputes and whose
    output path can be written is written, with its raw frame minus the columns.
   */
  lemma {:induction false} OutputsComplete(files: seq<CsvFile>, outputDir: Option<string>, writable: string -> bool, i: int)
    requires 0 <= i < |files| && HasNavColumns(files[i]) && writable(OutputPath(outputDir, files[i].path))
    ensures OutputOf(files[i], outputDir) in Outputs(files, outputDir, writable)
  {
    var init := files[..|files| - 1];
    var f := files[|files| - 1];
    var prev := Outputs(init, outputDir, writable);
    var all := Outputs(files, outputDir, writable);
    if i < |init| {
      OutputsComplete(init, outputDir, writable, i);
      assert files[i] == init[i];
      var k :| 0 <= k < |prev| && prev[k] == OutputOf(files[i], outputDir);
      assert all[k] == prev[k];
    } else {
      assert all == prev + [OutputOf(f, outputDir)];
      assert all[|prev|] == OutputOf(files[i], outputDir);
    }
  }

  /**
    What a written file holds: the raw frame without scheme_name and
    fund_house, its NAV and date columns exactly as read. The imputed frame
    is not what gets written.
   */
  lemma {:induction false} WrittenFrameIsRaw(f: CsvFile)
    requires HasNavColumns(f)
    ensures var w := RemoveCSVCols(f.content.value, ColumnsToRemove);
      && "scheme_name" !in w.columns && "fund_house" !in w.columns
      && "nav" in w.columns && "date" in w.columns
      && Column(w, "nav") == Column(f.content.value, "nav")
      && Column(w, "date") == Column(f.content.value, "date")
      && |w.records| == |f.content.value.records|
  {
    var raw := f.content.value;
    RemoveCSVColsColumns(raw, ColumnsToRemove, "scheme_name");
    RemoveCSVColsColumns(raw, ColumnsToRemove, "fund_house");
    RemoveCSVColsKeepsColumn(raw, ColumnsToRemove, "nav");
    RemoveCSVColsKeepsColumn(raw, ColumnsToRemove, "date");
    RemoveCSVColsSpec(raw, ColumnsToRemove);
  }

  // ---------------------------------------------------------------------
  // generateMissingValReport
  // ---------------------------------------------------------------------

  /** One row of the missing-value report (lines 128-134), the percentage kept as a ratio. */
  datatype ReportRow = ReportRow(schemeCode: string, totalRecords: nat, missingNav: nat, missingDate: nat)

  /** Line 126: the file name with every 'scheme_' and then every '.csv' removed. */
  function SchemeCodeOf(fileName: string): string {
    RemoveAll(RemoveAll(fileName, "scheme_"), ".csv")
  }

  /** Lines 116-134 for one file that reads and has both columns. */
  function ReportRowOf<N>(f: CsvFile, parseDate: string -> Option<Date>, parseNav: string -> Option<N>)
    : (r: ReportRow)
    requires HasNavColumns(f)
    ensures r.totalRecords == |f.content.value.records|
    ensures r.missingNav == CountNone(Image(Column(f.content.value, "nav"), parseNav)) <= r.totalRecords
    ensures r.missingDate == CountNone(Image(Column(f.content.value, "date"), parseDate)) <= r.totalRecords
    ensures r.schemeCode == SchemeCodeOf(Basename(f.path))
  {
    var frame := f.content.value;
    var navs := Image(Column(frame, "nav"), parseNav);
    var dates := Image(Column(frame, "date"), parseDate);
    CountNoneBounds(navs);
    CountNoneBounds(dates);
    ReportRow(SchemeCodeOf(Basename(f.path)), |frame.records|, CountNone(navs), CountNone(dates))
  }

  /** Reference list of report_data: one row per file that loads with both columns, in glob order. */
  function ReportEntries<N>(files: seq<CsvFile>, parseDate: string -> Option<Date>, parseNav: string -> Option<N>)
    : seq<ReportRow>
  {
    if files == [] then []
    else
      var f := files[|files| - 1];
      ReportEntries(files[..|files| - 1], parseDate, parseNav)
        + (if HasNavColumns(f) then [ReportRowOf(f, parseDate, parseNav)] else [])
  }

  /** Every file that loads with both columns has its row in report_data. */
  lemma {:induction false} ReportEntriesComplete<N>(files: seq<CsvFile>, parseDate: string -> Option<Date>,
                                                    parseNav: string -> Option<N>, i: int)
    requires 0 <= i < |files| && HasNavColumns(files[i])
    ensures ReportRowOf(files[i], parseDate, parseNav) in ReportEntries(files, parseDate, parseNav)
  {
    var init := files[..|files| - 1];
    if i < |init| {
      ReportEntriesComplete(init, parseDate, parseNav, i);
      assert files[i] == init[i];
    }
  }

  /** Every row of report_data is that of a file which loads with both columns. */
  lemma {:induction false} ReportEntriesFromFiles<N>(files: seq<CsvFile>, parseDate: string -> Option<Date>,
                                                     parseNav: string -> Option<N>, r: ReportRow)
    requires r in ReportEntries(files, parseDate, parseNav)
    ensures exists i :: 0 <= i < |files| && HasNavColumns(files[i]) && r == ReportRowOf(files[i], parseDate, parseNav)
  {
    var init := files[..|files| - 1];
    if r in ReportEntries(init, parseDate, parseNav) {
      ReportEntriesFromFiles(init, parseDate, parseNav, r);
      var i :| 0 <= i < |init| && HasNavColumns(init[i]) && r == ReportRowOf(init[i], parseDate, parseNav);
      assert files[i] == init[i];
    } else {
      assert HasNavColumns(files[|files| - 1]);
    }
  }

  /** Line 124 as a ratio (numerator, denominator): 0 for a file with no rows. */
  function MissingShare(r: ReportRow): (share: (nat, nat))
    ensures share.1 > 0
    ensures r.totalRecords > 0 ==> share.0 * r.totalRecords == r.missingNav * share.1
    ensures share.0 == 0 <==> r.totalRecords == 0 || r.missingNav == 0
    ensures r.missingNav <= r.totalRecords ==> share.0 <= share.1
  {
    if r.totalRecords > 0 then (r.missingNav, r.totalRecords) else (0, 1)
  }

  /** Line 140's order: a's missing share is at least b's (compared by cross-multiplication). */
  predicate ByShareDesc(a: ReportRow, b: ReportRow) {
    MissingShare(a).0 * MissingShare(b).1 >= MissingShare(b).0 * MissingShare(a).1
  }

  lemma {:induction false} MulMono(x: int, y: int, k: int)
    requires x >= y && k >= 0
    ensures x * k >= y * k
  {
    assert x * k - y * k == (x - y) * k;
  }

  /** a/b >= c/d >= e/f implies a/b >= e/f for positive denominators. */
  lemma {:induction false} CrossMulTransitive(a: int, b: int, c: int, d: int, e: int, f: int)
    requires b > 0 && d > 0 && f > 0
    requires a * d >= c * b && c * f >= e * d
    ensures a * f >= e * b
  {
    MulMono(a * d, c * b, f);
    MulMono(c * f, e * d, b);
    assert (a * f) * d == (a * d) * f;
    assert (c * b) * f == (c * f) * b;
    assert (e * d) * b == (e * b) * d;
    if a * f < e * b {
      MulMono(e * b, a * f + 1, d);
    }
  }

  lemma {:induction false} ByShareDescIsTotalPreorder()
    ensures TotalPreorder(ByShareDesc)
  {
    forall a, b, c | ByShareDesc(a, b) && ByShareDesc(b, c) ensures ByShareDesc(a, c) {
      var sa, sb, sc := MissingShare(a), MissingShare(b), MissingShare(c);
      CrossMulTransitive(sa.0, sa.1, sb.0, sb.1, sc.0, sc.1);
    }
  }

  /**
    generateMissingValReport (lines 108-142): one row per file that loads
    with both columns, ordered by non-increasing missing share. With no such
    file, sorting the empty DataFrame by 'Missing_Percentage' raises KeyError.
   */
  method GenerateMissingValReport<N>(files: seq<CsvFile>, parseDate: string -> Option<Date>,
                                     parseNav: string -> Option<N>)
    returns (report: Result<seq<ReportRow>, string>)
    ensures report.Err? <==> ReportEntries(files, parseDate, parseNav) == []
    ensures report.Err? ==> report.error == "Missing_Percentage"
    ensures report.Ok? ==> multiset(report.value) == multiset(ReportEntries(files, parseDate, parseNav))
    ensures report.Ok? ==> SortedBy(report.value, ByShareDesc)
  {
    var reportData: seq<ReportRow> := [];
    for i := 0 to |files|
      invariant reportData == ReportEntries(files[..i], parseDate, parseNav)
    {
      var file := files[i];
      assert files[..i + 1][..i] == files[..i];
      if file.content.Some? && WellFormed(file.content.value) {
        var frame := file.content.value;
        if "date" in frame.columns && "nav" in frame.columns {
          var row := ReportRowOf(file, parseDate, parseNav);
          reportData := reportData + [row];
        }
      }
    }
    assert files[..|files|] == files;
    if reportData == [] {
      return Err("Missing_Percentage");
    }
    ByShareDescIsTotalPreorder();
    SortBySorted(reportData, ByShareDesc);
    SortByPermutes(reportData, ByShareDesc);
    report := Ok(SortBy(reportData, ByShareDesc));
  }

  /** A file with no rows reports a missing share of 0, so it sorts after every file with a gap. */
  lemma {:induction false} EmptyFileLast(a: ReportRow, b: ReportRow)
    requires b.totalRecords == 0
    ensures ByShareDesc(a, b)
    ensures ByShareDesc(b, a) <==> MissingShare(a).0 == 0
  {
  }

  lemma {:induction false} NoMatchAcross(c: string, t: string, pat: string, i: int)
    requires !Contains(c, pat)
    requires 0 <= i < |c| && t != []
    requires forall k :: 1 <= k < |pat| ==> pat[k] != t[0]
    ensures !MatchAt(c + t, pat, i)
  {
    if i + |pat| <= |c| {
      assert c[i..i + |pat|] == (c + t)[i..i + |pat|];
      assert MatchAt(c + t, pat, i) ==> MatchAt(c, pat, i);
    } else if i + |pat| <= |c + t| {
      var o := |c| - i;
      assert (c + t)[i..i + |pat|][o] == t[0] != pat[o];
    }
  }

  /** The code is recovered from 'scheme_' + code + '.csv' when it holds neither marker itself. */
  lemma {:induction false} SchemeCodeOfFileName(code: string)
    requires !Contains(code, "scheme_") && !Contains(code, ".csv")
    ensures SchemeCodeOf("scheme_" + code + ".csv") == code
  {
    var rest := code + ".csv";
    assert ("scheme_" + code + ".csv")[..7] == "scheme_";
    assert ("scheme_" + code + ".csv")[7..] == rest;
    forall i | 0 <= i < |rest| ensures !MatchAt(rest + [], "scheme_", i) {
      assert rest + [] == code + ".csv";
      if i < |code| {
        NoMatchAcross(code, ".csv", "scheme_", i);
      }
    }
    RemoveAllSkipsPrefix(rest, [], "scheme_");
    assert rest + [] == rest;
    assert RemoveAll("scheme_" + code + ".csv", "scheme_") == rest;
    forall i | 0 <= i < |code| ensures !MatchAt(code + ".csv", ".csv", i) {
      NoMatchAcross(code, ".csv", ".csv", i);
    }
    RemoveAllSkipsPrefix(code, ".csv", ".csv");
    assert RemoveAll(".csv", ".csv") == RemoveAll("", ".csv") == "";
    assert code + "" == code;
  }
}
