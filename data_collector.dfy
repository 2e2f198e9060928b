/**
  CollectSpecificSchemes (Data-Collector.py:8-64): read a comma-separated
  list of scheme codes, check each against the catalog, ask for
  confirmation, then fetch every selected scheme with retries and save its
  NAV history, tagged with code, name and fund house, as
  data/raw/scheme_<code>.csv. The two console answers, the catalog oracle
  and the per-attempt HTTP oracle are parameters.
 */
module DataCollector {
  import opened Basics
  import opened Text
  import opened Frames
  import opened SchemeBrowsing
  import opened Preprocessing
  import opened Imputation

  /** One element of the returned `collected` list (line 55). */
  datatype Entry = Entry(code: string, name: string, records: nat)

  /** One row of a saved file, in the column order of lines 44-49. */
  datatype RawRow = RawRow(date: string, nav: string, schemeCode: string, schemeName: string, fundHouse: string)

  /** A file written at line 52. */
  datatype SavedFile = SavedFile(path: string, rows: seq<RawRow>)

  /**
    How a call ends: the catalog cannot be loaded (line 16 then fails on a
    missing frame), a code is unknown (line 26), the user declines (line 64),
    or the list of collected schemes (line 61).
   */
  datatype Outcome = CatalogUnavailable | UnknownCode(code: string) | Cancelled | Collected(entries: seq<Entry>)

  /** Line 41 calls get_scheme_with_retry with its default of three attempts. */
  const MaxRetries: int := 3

  // ---------------------------------------------------------------------
  // Parsing and validating the requested codes (lines 16-28)
  // ---------------------------------------------------------------------

  /** Lines 21-23: each piece trimmed (by `trim`, which is str.strip there), the empty ones skipped. */
  function NonEmptyCodes(pieces: seq<string>, trim: string -> string): seq<string> {
    if pieces == [] then [] else NonEmptyCodes(pieces[..|pieces| - 1], trim) + Kept(pieces[|pieces| - 1], trim)
  }

  /** One piece's contribution: its trimmed text, unless that is empty. */
  function Kept(piece: string, trim: string -> string): seq<string> {
    if trim(piece) != [] then [trim(piece)] else []
  }

  /** The codes the user asked for, in input order, repetitions kept. */
  function RequestedCodes(input: string): seq<string> {
    NonEmptyCodes(Split(Strip(input), ','), Strip)
  }

  lemma {:induction false} NonEmptyCodesAppend(a: seq<string>, b: seq<string>, trim: string -> string)
    ensures NonEmptyCodes(a + b, trim) == NonEmptyCodes(a, trim) + NonEmptyCodes(b, trim)
  {
    if b != [] {
      var b' := b[..|b| - 1];
      NonEmptyCodesAppend(a, b', trim);
      assert (a + b)[..|a + b| - 1] == a + b';
      assert (a + b)[|a + b| - 1] == b[|b| - 1];
      var tail := Kept(b[|b| - 1], trim);
      assert NonEmptyCodes(a, trim) + NonEmptyCodes(b', trim) + tail
          == NonEmptyCodes(a, trim) + (NonEmptyCodes(b', trim) + tail);
    } else {
      assert a + b == a;
    }
  }

  /** What a requested code looks like: non-empty, comma-free, no whitespace at either end. */
  predicate CodeShaped(c: string) {
    c != [] && ',' !in c && !IsSpace(c[0]) && !IsSpace(c[|c| - 1])
  }

  lemma {:induction false} NonEmptyCodesShape(pieces: seq<string>)
    requires forall k :: 0 <= k < |pieces| ==> ',' !in pieces[k]
    ensures forall i :: 0 <= i < |NonEmptyCodes(pieces, Strip)| ==> CodeShaped(NonEmptyCodes(pieces, Strip)[i])
  {
    if pieces != [] {
      var init := pieces[..|pieces| - 1];
      NonEmptyCodesShape(init);
      var p := pieces[|pieces| - 1];
      var code := Strip(p);
      StripSpec(p);
      if code != [] {
        StripKeepsOut(p, ',');
        assert CodeShaped(code);
        var r := NonEmptyCodes(pieces, Strip);
        assert r == NonEmptyCodes(init, Strip) + [code];
        forall i | 0 <= i < |r| ensures CodeShaped(r[i]) {
          if i < |NonEmptyCodes(init, Strip)| {
            assert r[i] == NonEmptyCodes(init, Strip)[i];
          }
        }
      }
    }
  }

  /** Every requested code is non-empty, comma-free and has no whitespace at either end. */
  lemma {:induction false} RequestedCodesShape(input: string)
    ensures forall i :: 0 <= i < |RequestedCodes(input)| ==> CodeShaped(RequestedCodes(input)[i])
  {
    var pieces := Split(Strip(input), ',');
    SplitJoin(Strip(input), ',');
    assert forall k :: 0 <= k < |pieces| ==> pieces[k] in pieces;
    NonEmptyCodesShape(pieces);
  }

  /** Line 16: code (as text) to name; a code listed twice maps to its last name. */
  function Lookup(catalog: seq<Scheme>): map<string, string> {
    if catalog == [] then map[]
    else
      var s := catalog[|catalog| - 1];
      Lookup(catalog[..|catalog| - 1])[s.code := s.name]
  }

  lemma {:induction false} LookupSpec(catalog: seq<Scheme>, c: string)
    ensures c in Lookup(catalog) <==> exists i :: 0 <= i < |catalog| && catalog[i].code == c
    ensures c in Lookup(catalog) ==>
      exists i :: 0 <= i < |catalog| && catalog[i] == Scheme(c, Lookup(catalog)[c])
                  && forall j :: i < j < |catalog| ==> catalog[j].code != c
  {
    if catalog != [] {
      var init := catalog[..|catalog| - 1];
      var s := catalog[|catalog| - 1];
      LookupSpec(init, c);
      if c != s.code {
        if c in Lookup(catalog) {
          var i :| 0 <= i < |init| && init[i] == Scheme(c, Lookup(init)[c])
                   && forall j :: i < j < |init| ==> init[j].code != c;
          assert catalog[i] == init[i];
        }
        if exists i :: 0 <= i < |catalog| && catalog[i].code == c {
          var i :| 0 <= i < |catalog| && catalog[i].code == c;
          assert init[i].code == c;
        }
      } else {
        assert catalog[|catalog| - 1] == Scheme(c, Lookup(catalog)[c]);
      }
    }
  }

  predicate AllKnown(codes: seq<string>, lookup: map<string, string>) {
    forall i :: 0 <= i < |codes| ==> codes[i] in lookup
  }

  /** The first requested code missing from the catalog, which line 26 reports. */
  function FirstUnknown(codes: seq<string>, lookup: map<string, string>): (r: Option<string>)
    ensures r.None? <==> AllKnown(codes, lookup)
  {
    if codes == [] then None
    else if codes[0] !in lookup then Some(codes[0])
    else FirstUnknown(codes[1..], lookup)
  }

  /** None exactly when every code is known; otherwise a missing code all of whose predecessors are known. */
  lemma {:induction false} FirstUnknownSpec(codes: seq<string>, lookup: map<string, string>)
    ensures FirstUnknown(codes, lookup).Some? ==>
      exists k :: 0 <= k < |codes| && codes[k] == FirstUnknown(codes, lookup).value
                  && codes[k] !in lookup && AllKnown(codes[..k], lookup)
  {
    if codes != [] {
      if codes[0] !in lookup {
        assert codes[..0] == [];
      } else {
        var tail := codes[1..];
        FirstUnknownSpec(tail, lookup);
        assert forall i :: 1 <= i < |codes| ==> codes[i] == tail[i - 1];
        if FirstUnknown(tail, lookup).Some? {
          var k :| 0 <= k < |tail| && tail[k] == FirstUnknown(tail, lookup).value
                   && tail[k] !in lookup && AllKnown(tail[..k], lookup);
          assert codes[..k + 1] == [codes[0]] + tail[..k];
          assert codes[k + 1] == tail[k];
        }
      }
    }
  }

  lemma {:induction false} FirstUnknownAfterKnown(a: seq<string>, b: seq<string>, lookup: map<string, string>)
    requires AllKnown(a, lookup)
    ensures FirstUnknown(a + b, lookup) == FirstUnknown(b, lookup)
  {
    if a != [] {
      assert a[0] in lookup && (a + b)[0] == a[0];
      assert AllKnown(a[1..], lookup) by {
        forall i | 0 <= i < |a[1..]| ensures a[1..][i] in lookup {
          assert a[1..][i] == a[i + 1];
        }
      }
      FirstUnknownAfterKnown(a[1..], b, lookup);
      assert (a + b)[1..] == a[1..] + b;
    } else {
      assert a + b == b;
    }
  }

  /** The codes of the specific_schemes dict, in insertion order. */
  function Keys(selection: seq<(string, string)>): (ks: seq<string>)
    ensures |ks| == |selection|
  {
    seq(|selection|, k requires 0 <= k < |selection| => selection[k].0)
  }

  /**
    Lines 20-28 once every code is known: specific_schemes as (code, name)
    pairs in insertion order; a repeated code keeps its first place.
   */
  function Selection(codes: seq<string>, lookup: map<string, string>): seq<(string, string)>
    requires AllKnown(codes, lookup)
  {
    if codes == [] then []
    else Assign(Selection(codes[..|codes| - 1], lookup), codes[|codes| - 1], lookup)
  }

  /** Line 28, storing a code in the dict: a new code goes last, a known one keeps its place. */
  function Assign(selection: seq<(string, string)>, c: string, lookup: map<string, string>): seq<(string, string)>
    requires c in lookup
  {
    if c in Keys(selection) then selection else selection + [(c, lookup[c])]
  }

  lemma {:induction false} IndexOfPrefix(a: seq<string>, b: seq<string>, x: string)
    requires x in a
    ensures IndexOf(a + b, x) == IndexOf(a, x)
  {
    if a[0] != x {
      IndexOfPrefix(a[1..], b, x);
      assert (a + b)[1..] == a[1..] + b;
    }
  }

  lemma {:induction false} IndexOfLast(a: seq<string>, x: string)
    requires x !in a
    ensures IndexOf(a + [x], x) == |a|
  {
    if a != [] {
      IndexOfLast(a[1..], x);
      assert (a + [x])[1..] == a[1..] + [x];
    }
  }

  /**
    The selection holds exactly the distinct requested codes, each with its
    catalog name, in the order of their first occurrence in the input.
   */
  lemma {:induction false} SelectionSpec(codes: seq<string>, lookup: map<string, string>)
    requires AllKnown(codes, lookup)
    ensures var sel := Selection(codes, lookup);
      && (forall k :: 0 <= k < |sel| ==> sel[k].0 in lookup && sel[k].1 == lookup[sel[k].0] && sel[k].0 in codes)
      && (forall c :: c in codes <==> c in Keys(sel))
      && (forall k1, k2 :: 0 <= k1 < k2 < |sel| ==> sel[k1].0 != sel[k2].0)
      && (forall k1, k2 :: 0 <= k1 < k2 < |sel| ==> IndexOf(codes, sel[k1].0) < IndexOf(codes, sel[k2].0))
  {
    if codes != [] {
      var init := codes[..|codes| - 1];
      var c := codes[|codes| - 1];
      assert codes == init + [c];
      SelectionSpec(init, lookup);
      var prev := Selection(init, lookup);
      var sel := Selection(codes, lookup);
      forall k | 0 <= k < |prev| ensures IndexOf(codes, prev[k].0) == IndexOf(init, prev[k].0) {
        IndexOfPrefix(init, [c], prev[k].0);
      }
      if c !in Keys(prev) {
        assert c !in init;
        IndexOfLast(init, c);
        assert sel == prev + [(c, lookup[c])];
        assert Keys(sel) == Keys(prev) + [c];
        forall k | 0 <= k < |prev| ensures IndexOf(codes, prev[k].0) < |init| {
        }
      }
    }
  }

  /** Line 34: the answer, stripped and lowercased, is "y". */
  predicate Confirmed(answer: string) {
    Lower(Strip(answer)) == "y"
  }

  /** Confirmation accepts exactly "y" or "Y", with surrounding whitespace. */
  lemma {:induction false} ConfirmedIff(answer: string)
    ensures Confirmed(answer) <==> Strip(answer) == "y" || Strip(answer) == "Y"
  {
    var s := Strip(answer);
    if |s| == 1 {
      assert Lower(s) == [LowerChar(s[0])];
    }
  }

  // ---------------------------------------------------------------------
  // Fetching and saving (lines 36-61)
  // ---------------------------------------------------------------------

  /** Line 51: the file a scheme's history is saved to. */
  function CollectFileName(code: string): string {
    DataDir + "/scheme_" + code + ".csv"
  }

  /** Line 49: meta['fund_house'], or "Unknown" when 'meta' or the key is absent. */
  function FundHouse(p: Payload): string {
    if p.meta.Some? && "fund_house" in p.meta.value then p.meta.value["fund_house"] else "Unknown"
  }

  /** Lines 44-49: the payload's data rows, each tagged with code, name and fund house. */
  function Enrich(data: seq<NavPoint>, code: string, name: string, fundHouse: string): (rows: seq<RawRow>)
    ensures |rows| == |data|
  {
    seq(|data|, i requires 0 <= i < |data| => RawRow(data[i].date, data[i].nav, code, name, fundHouse))
  }

  /** The retrying fetch made for one code at line 41. */
  function FetchRun(code: string, respond: (string, nat) -> Option<Payload>): RetryRun {
    Retry(respond, SchemeUrl(code), MaxRetries)
  }

  /** Line 43: a payload came back and it has a 'data' list. */
  predicate Fetched(code: string, respond: (string, nat) -> Option<Payload>) {
    var p := FetchRun(code, respond).payload;
    p.Some? && p.value.data.Some?
  }

  /** What the fetch loop leaves behind: the collected list, the files written and every sleep taken. */
  datatype Collection = Collection(entries: seq<Entry>, files: seq<SavedFile>, sleeps: seq<nat>)

  /** Reference result of the fetch loop over a selection, one code at a time. */
  function Collect(selection: seq<(string, string)>, respond: (string, nat) -> Option<Payload>): (c: Collection)
    ensures |c.entries| == |c.files| <= |selection|
  {
    if selection == [] then Collection([], [], [])
    else
      var prev := Collect(selection[..|selection| - 1], respond);
      var code, name := selection[|selection| - 1].0, selection[|selection| - 1].1;
      var run := FetchRun(code, respond);
      if run.payload.Some? && run.payload.value.data.Some? then
        var data := run.payload.value.data.value;
        Collection(prev.entries + [Entry(code, name, |data|)],
                   prev.files + [SavedFile(CollectFileName(code), Enrich(data, code, name, FundHouse(run.payload.value)))],
                   prev.sleeps + run.delays + [1])
      else
        Collection(prev.entries, prev.files, prev.sleeps + run.delays + [1])
  }

  /** Each collected entry is a selected (code, name) pair whose fetch returned data. */
  lemma {:induction false} CollectEntrySource(selection: seq<(string, string)>, respond: (string, nat) -> Option<Payload>, k: int)
    requires 0 <= k < |Collect(selection, respond).entries|
    ensures var e := Collect(selection, respond).entries[k];
      exists j :: 0 <= j < |selection| && selection[j] == (e.code, e.name) && Fetched(e.code, respond)
  {
    var init := selection[..|selection| - 1];
    var prev := Collect(init, respond);
    if k < |prev.entries| {
      CollectEntrySource(init, respond, k);
      var e := prev.entries[k];
      var j :| 0 <= j < |init| && init[j] == (e.code, e.name) && Fetched(e.code, respond);
      assert selection[j] == init[j];
    } else {
      assert selection[|selection| - 1] == (selection[|selection| - 1].0, selection[|selection| - 1].1);
    }
  }

  /**
    What is kept for a collected entry: its record count is the length of
    the fetched data, and its file, named after the code, holds those data
    rows tagged with the code, the name and the fund house.
   */
  lemma {:induction false} CollectEntryContent(selection: seq<(string, string)>, respond: (string, nat) -> Option<Payload>, k: int)
    requires 0 <= k < |Collect(selection, respond).entries|
    ensures var c := Collect(selection, respond);
      var e := c.entries[k];
      && Fetched(e.code, respond)
      && var p := FetchRun(e.code, respond).payload.value;
         && e.records == |p.data.value|
         && c.files[k].path == CollectFileName(e.code)
         && c.files[k].rows == Enrich(p.data.value, e.code, e.name, FundHouse(p))
  {
    var init := selection[..|selection| - 1];
    var prev := Collect(init, respond);
    if k < |prev.entries| {
      CollectEntryContent(init, respond, k);
    }
  }

  /** A failed code does not stop the batch: every selected code whose fetch returned data is collected. */
  lemma {:induction false} CollectComplete(selection: seq<(string, string)>, respond: (string, nat) -> Option<Payload>, j: int)
    requires 0 <= j < |selection| && Fetched(selection[j].0, respond)
    ensures exists k :: 0 <= k < |Collect(selection, respond).entries|
                        && Collect(selection, respond).entries[k].code == selection[j].0
                        && Collect(selection, respond).entries[k].name == selection[j].1
  {
    var init := selection[..|selection| - 1];
    var prev := Collect(init, respond);
    var c := Collect(selection, respond);
    if j < |init| {
      CollectComplete(init, respond, j);
      var k :| 0 <= k < |prev.entries| && prev.entries[k].code == init[j].0 && prev.entries[k].name == init[j].1;
      assert c.entries[k] == prev.entries[k];
    } else {
      assert c.entries[|c.entries| - 1].code == selection[j].0;
    }
  }

  /** Collected entries keep the order of the selection. */
  lemma {:induction false} CollectOrder(selection: seq<(string, string)>, respond: (string, nat) -> Option<Payload>, k1: int, k2: int)
    requires 0 <= k1 < k2 < |Collect(selection, respond).entries|
    ensures var es := Collect(selection, respond).entries;
      exists j1, j2 :: 0 <= j1 < j2 < |selection| && selection[j1] == (es[k1].code, es[k1].name)
                                                  && selection[j2] == (es[k2].code, es[k2].name)
  {
    var init := selection[..|selection| - 1];
    var prev := Collect(init, respond);
    var es := Collect(selection, respond).entries;
    CollectEntrySource(init, respond, k1);
    var e1 := prev.entries[k1];
    var j1 :| 0 <= j1 < |init| && init[j1] == (e1.code, e1.name) && Fetched(e1.code, respond);
    assert es[k1] == e1 && selection[j1] == init[j1];
    if k2 < |prev.entries| {
      CollectOrder(init, respond, k1, k2);
      var i1, i2 :| 0 <= i1 < i2 < |init| && init[i1] == (prev.entries[k1].code, prev.entries[k1].name)
                                         && init[i2] == (prev.entries[k2].code, prev.entries[k2].name);
      assert selection[i1] == init[i1] && selection[i2] == init[i2];
    } else {
      var j2 := |selection| - 1;
      assert selection[j2] == (es[k2].code, es[k2].name);
    }
  }

  /** Each code costs one to three sleeps: the retry back-off plus the one-second pause of line 58. */
  lemma {:induction false} CollectSleeps(selection: seq<(string, string)>, respond: (string, nat) -> Option<Payload>)
    ensures |selection| <= |Collect(selection, respond).sleeps| <= 3 * |selection|
  {
    if selection != [] {
      var init := selection[..|selection| - 1];
      CollectSleeps(init, respond);
      RetrySpec(respond, SchemeUrl(selection[|selection| - 1].0), MaxRetries);
    }
  }

  /** The saved file name gives its code back through the report's extraction rule. */
  lemma {:induction false} CollectFileNameRoundTrip(code: string)
    requires '/' !in code && !Contains(code, "scheme_") && !Contains(code, ".csv")
    ensures SchemeCodeOf(Basename(CollectFileName(code))) == code
  {
    var b := "scheme_" + code + ".csv";
    assert '/' !in b by {
      assert b == "scheme_" + (code + ".csv");
    }
    assert CollectFileName(code) == DataDir + "/" + b;
    BasenameAfterSlash(DataDir, b);
    SchemeCodeOfFileName(code);
  }

  /**
    A saved file as read back: its header and one text record per row. An
    empty 'data' list gives a frame without columns, so only the three
    columns added at lines 47-49 are written.
   */
  function SavedFrame(f: SavedFile): (frame: Frame)
    ensures WellFormed(frame)
    ensures |frame.records| == |f.rows|
    ensures "scheme_code" in frame.columns && "scheme_name" in frame.columns && "fund_house" in frame.columns
    ensures ("date" in frame.columns || "nav" in frame.columns) <==> f.rows != []
  {
    if f.rows == [] then Frame(["scheme_code", "scheme_name", "fund_house"], [])
    else
      Frame(["date", "nav", "scheme_code", "scheme_name", "fund_house"],
            seq(|f.rows|, i requires 0 <= i < |f.rows| =>
              [f.rows[i].date, f.rows[i].nav, f.rows[i].schemeCode, f.rows[i].schemeName, f.rows[i].fundHouse]))
  }

  /**
    Preprocessing a collected file with data leaves the columns date, nav and
    scheme_code; one saved from an empty 'data' list keeps only scheme_code,
    so ImputeNAV rejects it for its missing 'date' column.
   */
  lemma {:induction false} SavedFilePreprocessed<N>(f: SavedFile, parseDate: string -> Option<Date>, parseNav: string -> Option<N>)
    ensures f.rows != [] ==> RemoveCSVCols(SavedFrame(f), ColumnsToRemove).columns == ["date", "nav", "scheme_code"]
    ensures f.rows == [] ==> RemoveCSVCols(SavedFrame(f), ColumnsToRemove).columns == ["scheme_code"]
    ensures f.rows == [] ==> ImputeNAV(SavedFrame(f), parseDate, parseNav) == Err("date")
  {
    if f.rows != [] {
      RemoveDescriptiveColumnsExample(SavedFrame(f).records);
    } else {
      RemoveCSVColsSpec(SavedFrame(f), ColumnsToRemove);
      TagColumnsDropped();
    }
  }

  // ---------------------------------------------------------------------
  // The whole function
  // ---------------------------------------------------------------------

  /** The catalog load_or_fetch_schemes ends up with. */
  function CatalogOf(allSchemesCache: Option<seq<Scheme>>, remote: Option<seq<Scheme>>): Option<seq<Scheme>> {
    if allSchemesCache.Some? then allSchemesCache else remote
  }

  /**
    Lines 18-28: the parse loop. It stops at the first unknown code;
    otherwise it builds the selection.
   */
  method SelectSchemes(codesInput: string, lookup: map<string, string>)
    returns (unknown: Option<string>, specific: seq<(string, string)>)
    ensures unknown == FirstUnknown(RequestedCodes(codesInput), lookup)
    ensures unknown.None? ==> specific == Selection(RequestedCodes(codesInput), lookup)
  {
    var pieces := Split(Strip(codesInput), ',');
    specific := [];
    for i := 0 to |pieces|
      invariant AllKnown(NonEmptyCodes(pieces[..i], Strip), lookup)
      invariant specific == Selection(NonEmptyCodes(pieces[..i], Strip), lookup)
    {
      var code := Strip(pieces[i]);
      if code != [] && code !in lookup {
        UnknownAt(pieces, i, Strip, lookup);
        return Some(code), [];
      }
      ParseStep(pieces, i, Strip, lookup);
      if code != [] {
        specific := Assign(specific, code, lookup);
      }
    }
    assert pieces[..|pieces|] == pieces;
    unknown := None;
  }

  /** One turn of the parse loop keeps the selection equal to that of the codes read so far. */
  lemma {:induction false} ParseStep(pieces: seq<string>, i: int, trim: string -> string, lookup: map<string, string>)
    requires 0 <= i < |pieces| && AllKnown(NonEmptyCodes(pieces[..i], trim), lookup)
    requires trim(pieces[i]) != [] ==> trim(pieces[i]) in lookup
    ensures AllKnown(NonEmptyCodes(pieces[..i + 1], trim), lookup)
    ensures Selection(NonEmptyCodes(pieces[..i + 1], trim), lookup)
            == if trim(pieces[i]) != [] then Assign(Selection(NonEmptyCodes(pieces[..i], trim), lookup), trim(pieces[i]), lookup)
               else Selection(NonEmptyCodes(pieces[..i], trim), lookup)
  {
    var done := NonEmptyCodes(pieces[..i], trim);
    NonEmptyCodesStep(pieces, i, trim);
    if trim(pieces[i]) != [] {
      SelectionSnoc(done, trim(pieces[i]), lookup);
    } else {
      assert done + [] == done;
    }
  }

  lemma {:induction false} NonEmptyCodesStep(pieces: seq<string>, i: int, trim: string -> string)
    requires 0 <= i < |pieces|
    ensures NonEmptyCodes(pieces[..i + 1], trim) == NonEmptyCodes(pieces[..i], trim) + Kept(pieces[i], trim)
  {
    assert pieces[..i + 1][..i] == pieces[..i];
  }

  lemma {:induction false} SelectionSnoc(codes: seq<string>, c: string, lookup: map<string, string>)
    requires AllKnown(codes, lookup) && c in lookup
    ensures AllKnown(codes + [c], lookup)
    ensures Selection(codes + [c], lookup) == Assign(Selection(codes, lookup), c, lookup)
  {
    assert (codes + [c])[..|codes|] == codes;
  }

  lemma {:induction false} UnknownAfterKnown(done: seq<string>, code: string, rest: seq<string>, lookup: map<string, string>)
    requires AllKnown(done, lookup) && code !in lookup
    ensures FirstUnknown(done + [code] + rest, lookup) == Some(code)
  {
    assert (done + [code]) + rest == done + ([code] + rest);
    FirstUnknownAfterKnown(done, [code] + rest, lookup);
    assert ([code] + rest)[0] == code;
  }

  lemma {:induction false} NonEmptyCodesSplitAt(pieces: seq<string>, i: int, trim: string -> string)
    requires 0 <= i < |pieces|
    ensures NonEmptyCodes(pieces, trim)
            == NonEmptyCodes(pieces[..i], trim) + Kept(pieces[i], trim) + NonEmptyCodes(pieces[i + 1..], trim)
  {
    var pre, post := pieces[..i + 1], pieces[i + 1..];
    assert NonEmptyCodes(pre, trim) == NonEmptyCodes(pieces[..i], trim) + Kept(pieces[i], trim) by {
      assert pre[..i] == pieces[..i];
    }
    assert NonEmptyCodes(pieces, trim) == NonEmptyCodes(pre, trim) + NonEmptyCodes(post, trim) by {
      assert pre + post == pieces;
      NonEmptyCodesAppend(pre, post, trim);
    }
  }

  /** An unknown code after known ones is the one reported. */
  lemma {:induction false} UnknownAt(pieces: seq<string>, i: int, trim: string -> string, lookup: map<string, string>)
    requires 0 <= i < |pieces| && AllKnown(NonEmptyCodes(pieces[..i], trim), lookup)
    requires trim(pieces[i]) != [] && trim(pieces[i]) !in lookup
    ensures FirstUnknown(NonEmptyCodes(pieces, trim), lookup) == Some(trim(pieces[i]))
  {
    NonEmptyCodesSplitAt(pieces, i, trim);
    assert Kept(pieces[i], trim) == [trim(pieces[i])];
    UnknownAfterKnown(NonEmptyCodes(pieces[..i], trim), trim(pieces[i]), NonEmptyCodes(pieces[i + 1..], trim), lookup);
  }

  /** Lines 37-58: the fetch loop over the selection. */
  method FetchSelection(collector: SchemeBrowser, specific: seq<(string, string)>,
                        respond: (string, nat) -> Option<Payload>)
    returns (collected: seq<Entry>, saved: seq<SavedFile>, sleeps: seq<nat>)
    ensures Collection(collected, saved, sleeps) == Collect(specific, respond)
  {
    collected, saved, sleeps := [], [], [];
    for j := 0 to |specific|
      invariant Collection(collected, saved, sleeps) == Collect(specific[..j], respond)
    {
      var code, name := specific[j].0, specific[j].1;
      assert specific[..j + 1][..j] == specific[..j];
      var data, attempts, delays := collector.GetSchemeWithRetry(code, MaxRetries, respond);
      if data.Some? && data.value.data.Some? {
        var navDf := Enrich(data.value.data.value, code, name, FundHouse(data.value));
        var filename := collector.dataDir + "/scheme_" + code + ".csv";
        saved := saved + [SavedFile(filename, navDf)];
        collected := collected + [Entry(code, name, |navDf|)];
      }
      sleeps := sleeps + delays + [1];
    }
    assert specific[..|specific|] == specific;
  }

  /**
    CollectSpecificSchemes. `prompted` says whether the confirmation
    question was reached; `saved` lists the files written and `sleeps` the
    pauses taken, in order.
   */
  method CollectSpecificSchemes(schemesListCache: Option<seq<Scheme>>, allSchemesCache: Option<seq<Scheme>>,
                                remote: Option<seq<Scheme>>, codesInput: string, answer: string,
                                respond: (string, nat) -> Option<Payload>)
    returns (outcome: Outcome, prompted: bool, saved: seq<SavedFile>, sleeps: seq<nat>)
    ensures CatalogOf(allSchemesCache, remote).None? ==>
      outcome == CatalogUnavailable && !prompted && saved == [] && sleeps == []
    ensures CatalogOf(allSchemesCache, remote).Some? ==>
      var lookup := Lookup(CatalogOf(allSchemesCache, remote).value);
      var codes := RequestedCodes(codesInput);
      && (FirstUnknown(codes, lookup).Some? ==>
            outcome == UnknownCode(FirstUnknown(codes, lookup).value) && !prompted && saved == [] && sleeps == [])
      && (FirstUnknown(codes, lookup).None? && !Confirmed(answer) ==>
            outcome == Cancelled && prompted && saved == [] && sleeps == [])
      && (FirstUnknown(codes, lookup).None? && Confirmed(answer) ==>
            var c := Collect(Selection(codes, lookup), respond);
            outcome == Collected(c.entries) && prompted && saved == c.files && sleeps == c.sleeps)
  {
    var collector := new SchemeBrowser(schemesListCache, allSchemesCache);
    var loaded := collector.LoadOrFetchSchemes(remote);
    if collector.schemes.None? {
      return CatalogUnavailable, false, [], [];
    }
    var lookup := Lookup(collector.schemes.value);
    var unknown, specific := SelectSchemes(codesInput, lookup);
    if unknown.Some? {
      return UnknownCode(unknown.value), false, [], [];
    }
    if !Confirmed(answer) {
      return Cancelled, true, [], [];
    }
    var collected;
    collected, saved, sleeps := FetchSelection(collector, specific, respond);
    return Collected(collected), true, saved, sleeps;
  }
}
