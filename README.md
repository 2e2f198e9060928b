# MF-SIP-Analysis in Dafny

A verified model of the sequential logic of the MF-SIP-Analysis scripts, which
collect and clean Indian mutual-fund NAV histories from MFAPI
(`https://api.mfapi.in`):

- **Scheme browsing** (`scheme_browser.dfy`, module `SchemeBrowsing`).
  - The `SchemeBrowser` object loads the scheme catalog lazily (`schemes_df`).
  - Keyword search filters the catalog and orders hits by match position.
  - `get_scheme_with_retry` is a bounded retry loop with exponential back-off.
- **Collection of chosen schemes** (`data_collector.dfy`, module `DataCollector`).
  - `CollectSpecificSchemes` parses a comma-separated list of codes and rejects an unknown code before anything else happens.
  - It asks for confirmation, then fetches each selected scheme with retries.
  - Each history is tagged with code, name and fund house and saved as `data/raw/scheme_<code>.csv`.
- **Preprocessing** (`imputation.dfy`, `frames.dfy`, `preprocessing.dfy`).
  - `ImputeNAV` sorts a file by date, then forward- and backward-fills missing NAVs.
  - `RemoveCSVCols` drops the requested columns that exist.
  - `ProcessAllCSVFiles` runs both over a directory, tolerating failures per file and keeping counters.
  - `generateMissingValReport` builds one row per file and orders the rows by missing-NAV share.
- **Supporting modules.**
  - `basics.dfy`: `Option`, `Result` and `max(0, n)`.
  - `sorting.dfy`: a generic insertion sort, used as the reference order for every pandas `sort_values` in the scripts.
  - `text.dfy`: the Python string and path operations the scripts rely on (`strip`, `split`, `lower`, `find`, `in`, `replace(p, '')`, `os.path.basename`, `os.path.join`).

How the model stands in for the outside world:

- **Files and HTTP.**
  - A CSV file is a `Frame`: a header plus text records.
  - The directory glob is a sequence of files, each with its frame, or `None` when `read_csv` fails.
  - Whether a write succeeds is an oracle `writable`.
  - The two catalog cache files are fields of the browser.
  - The catalog download is an `Option` parameter.
  - The scheme download is an oracle `respond(url, attempt)`.
- **Console.** The answers typed at the console are parameters.
- **Parsers.** Dates and NAVs come through parser parameters that return `None` where pandas would coerce to NaT/NaN.
- **NAV values.** The NAV type is opaque.
- **Sleeps.** Each `time.sleep` is recorded in a list of delays rather than performed.

## Model

| member | source | states |
|---|---|---|
| Imputation.ImputeNAV | Data-Preprocessing.py:9-32 | KeyError, modelled as `Err` naming the column, exactly when `date` or `nav` is absent. Otherwise one output row per record, and `total_records` is the row count. |
| Imputation.ImputeRowsReorders | Data-Preprocessing.py:16 | Output is sorted by date, with NaT last. Output is a permutation of the input rows: the multiset of (date, cells) is unchanged. Row i keeps the date and cells of the i-th row in date order; only NAVs change. |
| Imputation.ForwardFillAt | Data-Preprocessing.py:26 | After ffill: a present value stays. A missing value takes the nearest earlier present value. A value is still missing iff no value is present up to it. |
| Imputation.BackwardFillAt | Data-Preprocessing.py:27 | After bfill: a present value stays. A missing value takes the nearest later present value. A value is still missing iff none is present from it on. |
| Imputation.FillNavsAt | Data-Preprocessing.py:26-27 | After ffill then bfill: a present NAV keeps its value. A missing one takes the nearest earlier NAV, or the nearest later one when none is earlier. It stays missing iff every NAV is missing. |
| Imputation.ImputeRowsKeys | Data-Preprocessing.py:16-27 | Filling touches only NAVs: row i keeps the date and cells of the i-th row in date order. |
| Imputation.ImputeRowsNavAt | Data-Preprocessing.py:16-27 | The same fill rules, stated on the NAVs of the date-sorted rows. |
| Imputation.ImputeRowsNoGaps | Data-Preprocessing.py:26-29 | If some NAV is present, no output NAV is missing. If every NAV is missing, every output NAV is missing. |
| Imputation.ImputeNAVCounts | Data-Preprocessing.py:18-29 | `missing_before` is the number of NAV cells that fail to parse. `missing_after` is 0, unless every NAV was missing; then it equals the row count. |
| Imputation.MissingBeforeCount | Data-Preprocessing.py:16-18 | Sorting by date does not change the number of missing NAVs. |
| Imputation.MissingAfterCount | Data-Preprocessing.py:26-29 | The number of missing NAVs after filling is the row count when all were missing, and 0 otherwise. |
| Imputation.ImputeExample | Data-Preprocessing.py:26-27 | Three dated rows with NAVs 10, missing, 12 become 10, 10, 12. |
| Imputation.ByDateIsTotalPreorder | Data-Preprocessing.py:16 | Date order with NaT last is total and transitive, so a sorted order exists. |
| Sorting.SortByPermutes | Data-Preprocessing.py:140 | The reference sort returns a permutation of its input. |
| Sorting.SortBySorted | Data-Preprocessing.py:140 | For a total preorder, the reference sort returns a sorted sequence. |
| Frames.PresentColumns | Data-Preprocessing.py:42 | A name is in `existing_columns` iff it is requested and is a column. |
| Frames.RemoveCSVColsSpec | Data-Preprocessing.py:38-50 | The columns are the original ones, in order, minus the requested names. The record count is the same. Each record keeps exactly the cells of the surviving columns, in order. |
| Frames.RemoveCSVColsColumns | Data-Preprocessing.py:42-46 | A column survives iff it exists and was not requested. |
| Frames.RemoveCSVColsNoop | Data-Preprocessing.py:44-48 | When no requested name is a column, the frame is returned unchanged. |
| Frames.RemoveCSVColsIdempotent | Data-Preprocessing.py:42-48 | Removing the same names twice equals removing them once. |
| Frames.RemoveCSVColsKeepsColumn | Data-Preprocessing.py:46 | A surviving column keeps all its cells, row for row. |
| Frames.RemoveDescriptiveColumnsExample | Data-Preprocessing.py:61 | On a collector file, removing `scheme_name` and `fund_house` leaves `date`, `nav`, `scheme_code`. |
| Text.BasenameOfJoin | Data-Preprocessing.py:85 | `os.path.join(dir, name)` has basename `name` for a slash-free name. |
| Preprocessing.OutputPath | Data-Preprocessing.py:84-87 | The basename is the input's. With no output directory (None or empty), the path is the input path. Otherwise the path is the directory, then a `/` unless the directory already ends in one, then the input's basename. |
| Preprocessing.ProcessAllCSVFiles | Data-Preprocessing.py:56-102 | No file: no summary and nothing written. Otherwise the summary is files found, files written, and rows of every file whose imputation succeeded (line 80), even if its write then failed. The files written are those of `Outputs`, and there are never more than files found. |
| Preprocessing.OutputsBound | Data-Preprocessing.py:92 | `files_processed` never exceeds the number of files found. |
| Preprocessing.OutputsComplete | Data-Preprocessing.py:76-94 | A failure costs only its own file: every input that imputes and whose output path is writable is written, with its raw frame minus the two columns. |
| Preprocessing.OutputsFromInputs | Data-Preprocessing.py:76-92 | Every file written comes from one input that imputes and whose output path is writable. It holds that input's mirrored path and its raw frame minus the two columns. |
| Preprocessing.WrittenFrameIsRaw | Data-Preprocessing.py:78-89 | The written frame has no `scheme_name` or `fund_house`. Its `nav` and `date` columns are those read from disk, not the imputed ones, and its row count is unchanged. |
| Preprocessing.ReportRowOf | Data-Preprocessing.py:116-134 | Total_Records is the row count. Missing_NAV and Missing_Date count the cells that fail to parse, each at most the row count. Scheme_Code is taken from the basename. |
| Preprocessing.ReportEntriesComplete | Data-Preprocessing.py:114-134 | Every file that loads with both columns has its row in `report_data`. |
| Preprocessing.ReportEntriesFromFiles | Data-Preprocessing.py:114-137 | Every row of `report_data` is the row of a file that loads with both columns. |
| Preprocessing.MissingShare | Data-Preprocessing.py:124 | The share is a positive-denominator fraction equal to missing/total for a non-empty file. It is 0 exactly when the file has no rows or misses nothing, and at most 1 when missing <= total. |
| Preprocessing.ByShareDescIsTotalPreorder | Data-Preprocessing.py:140 | Descending missing share, compared by cross-multiplication, is total and transitive. |
| Preprocessing.EmptyFileLast | Data-Preprocessing.py:124 | A file with no rows has share 0. It sorts after every file and ties only with files that miss nothing. |
| Preprocessing.GenerateMissingValReport | Data-Preprocessing.py:108-142 | With no loadable file, sorting raises KeyError (`Err("Missing_Percentage")`). Otherwise there is one row per loadable file (a permutation of `ReportEntries`), in non-increasing missing share. |
| Preprocessing.SchemeCodeOfFileName | Data-Preprocessing.py:126 | Removing `scheme_` and `.csv` from `scheme_<code>.csv` gives back `code` when `code` contains neither. |
| SchemeBrowsing.FilterMatchingCount | SchemeBrowser.py:44-49 | The mask keeps every matching catalog row as often as it occurs, and nothing else. |
| SchemeBrowsing.SearchCatalogSpec | SchemeBrowser.py:44-53 | Results are exactly the matching catalog rows, as a multiset. Each has a name containing the keyword (case-sensitively if asked, else after lowercasing) and a match position of at least 0. Results are in non-decreasing match position. |
| SchemeBrowsing.ByMatchPositionIsTotalPreorder | SchemeBrowser.py:50-51 | Ordering by match position is total and transitive. |
| Text.ContainsLower | SchemeBrowser.py:45-50 | A case-sensitive hit is also a hit after lowercasing, so its `find` position is not -1. |
| Text.Find | SchemeBrowser.py:50 | `find` gives -1 iff there is no occurrence, else the first occurrence. |
| SchemeBrowsing.SchemeBrowser.constructor | SchemeBrowser.py:7-11 | The catalog starts unloaded. |
| SchemeBrowsing.SchemeBrowser.FetchAllSchemes | SchemeBrowser.py:13-37 | An existing `Schemes-List.csv` is loaded. Otherwise a successful download is loaded and cached. A failed download returns False and changes nothing. |
| SchemeBrowsing.SchemeBrowser.Search | SchemeBrowser.py:39-53 | Loads the catalog on first use, from the cache file (left as it was) or else the download (then cached). Returns None exactly when it was unloaded and loading fails. Otherwise returns the search over the loaded catalog. |
| SchemeBrowsing.SchemeBrowser.LoadOrFetchSchemes | SchemeBrowser.py:87-105 | An existing `all_schemes.csv` is loaded. Otherwise a successful download is loaded and saved. A failed download returns False and leaves the catalog as it was. |
| SchemeBrowsing.SchemeBrowser.GetSchemeWithRetry | SchemeBrowser.py:107-119 | Payload, attempt count and sleeps are those of the reference run `Retry`. |
| SchemeBrowsing.RetryFromSpec | SchemeBrowser.py:108-119 | The same properties as `RetrySpec`, from any attempt onward. |
| SchemeBrowsing.RetrySpec | SchemeBrowser.py:107-119 | At most max(0, max_retries) attempts. The first successful payload is returned at once. None only after every attempt failed. Sleeps are 2^a after each failed attempt a except the last one made. |
| SchemeBrowsing.RetryThreeFailures | SchemeBrowser.py:115-119 | With the default three attempts all failing: None after sleeping 1 and then 2 seconds. |
| SchemeBrowsing.RetryNoAttempt | SchemeBrowser.py:107-108 | With max_retries <= 0 no request is made and None is returned. |
| SchemeBrowsing.BackoffTotal | SchemeBrowser.py:116 | The sleeps before attempt n+1 total 2^n - 1 seconds. |
| Text.SplitJoin | Data-Collector.py:21 | `split(',')` pieces contain no comma and join back to the input. |
| Text.StripSpec | Data-Collector.py:22 | `strip()` is empty iff the input is all whitespace, leaves no whitespace at either end, and leaves a string with none unchanged. |
| DataCollector.NonEmptyCodesAppend | Data-Collector.py:21-23 | The codes of two runs of pieces are the codes of each, concatenated. |
| DataCollector.RequestedCodesShape | Data-Collector.py:18-23 | Every requested code is non-empty, comma-free and unpadded. |
| DataCollector.LookupSpec | Data-Collector.py:16 | A code is in the lookup iff some catalog row has it. It maps to the name of the last such row. |
| DataCollector.FirstUnknown | Data-Collector.py:21-26 | None iff every requested code is in the lookup. |
| DataCollector.FirstUnknownSpec | Data-Collector.py:24-26 | Otherwise, the code reported is a missing code all of whose predecessors are known. |
| DataCollector.SelectionSpec | Data-Collector.py:20-28 | `specific_schemes` maps exactly the distinct requested codes, each to its catalog name, in first-occurrence order. |
| DataCollector.SelectSchemes | Data-Collector.py:18-28 | The parse loop returns the first unknown code, or, when all are known, the selection. |
| DataCollector.ConfirmedIff | Data-Collector.py:34-36 | The answer is accepted iff, stripped, it is `y` or `Y`. |
| DataCollector.Enrich | Data-Collector.py:44-49 | One saved row per data point. |
| DataCollector.FetchSelection | Data-Collector.py:37-58 | The fetch loop yields the collected list, the files and the sleeps of the reference `Collect`. |
| DataCollector.CollectEntrySource | Data-Collector.py:39-55 | Each collected entry is a selected (code, name) whose fetch returned a payload with `data`. |
| DataCollector.CollectEntryContent | Data-Collector.py:43-55 | An entry's `records` is the length of its data. Its file is `scheme_<code>.csv` and holds the data rows tagged with code, name and fund house ("Unknown" when absent). |
| DataCollector.CollectComplete | Data-Collector.py:39-58 | A failed code does not stop the batch: every selected code whose fetch returned data is collected. |
| DataCollector.CollectOrder | Data-Collector.py:39-55 | Collected entries keep the order of the selection. |
| DataCollector.CollectSleeps | Data-Collector.py:41-58 | Each selected code costs one to three sleeps: the retry back-off and the one-second pause. |
| DataCollector.CollectFileNameRoundTrip | Data-Collector.py:51 | The report's code extraction recovers the code from the saved file name when the code contains no `/`, `scheme_` or `.csv`. |
| DataCollector.SavedFrame | Data-Collector.py:44-52 | A saved file has one record per data row and the three tag columns. It has `date`/`nav` columns exactly when its data list was non-empty: an empty list gives a frame without columns, so only the tags are written. |
| DataCollector.SavedFilePreprocessed | Data-Collector.py:44-52 | Preprocessing a collected file with data leaves `date`, `nav`, `scheme_code`. One saved from an empty data list keeps only `scheme_code`, and ImputeNAV rejects it with KeyError('date'). |
| DataCollector.CollectSpecificSchemes | Data-Collector.py:8-64 | Four outcomes. (1) Catalog unavailable: nothing asked, fetched or saved. (2) Unknown code: the first unknown code is reported before the prompt and before any fetch. (3) Declined answer: Cancelled, nothing fetched. (4) Otherwise: the collection of the selection, with its files and sleeps. |

## Left out

- **SQL-Import.py.** Loading into MySQL is configuration around `to_sql` and is not part of this model.
- **I/O outside the model.**
  - The file system: directory creation, `glob`, existence checks, `read_csv`/`to_csv`. Files are given as values, and write success as an oracle.
  - HTTP: responses are oracles.
  - The console: prints and prompts. The menus `main_menu` and `interactive_search` are not modelled.
- **Parsing and arithmetic.**
  - Date parsing (`%d-%m-%Y`) and numeric coercion are parser parameters.
  - Floating point is not modelled. The percentage and its `round(..., 2)` are kept as an exact ratio. A report order by exact ratio is one of the orders the rounded percentages allow.
- **Sorting.**
  - pandas' default sort is not stable. The contracts promise only "sorted and a permutation", so ties may come out in any order.
  - The insertion sort is one admissible order; its tie order is not a promise.
- **Regex and case folding.**
  - `str.contains` treats the keyword as a regular expression. The model reads it as plain text.
  - `case=False` and `str.lower` are modelled as ASCII lowercasing.
- **Null scheme names.** The catalog in the model holds text names only, so `na=False` has no effect there.
- **Time.** Sleep durations are recorded, not waited.
- **Preprocessing I/O.**
  - `RemoveCSVCols` re-reads the file; the model uses the same frame for both reads.
  - The deprecated `fillna(method=...)` call is modelled by its documented meaning.
- **Summary arithmetic.** The summary line prints `len(csv_files)-1` as the file count (Data-Preprocessing.py:100). It is display only; the model's summary carries the true count.
- **Catalog loading in CollectSpecificSchemes.**
  - The result of `load_or_fetch_schemes` is ignored (Data-Collector.py:15).
  - When no catalog is loaded, line 16 fails on the missing frame; this is modelled as the outcome `CatalogUnavailable`.
  - A transport exception during that download also propagates in the source; it is folded into the same outcome.
- **Retry loop.** For a failed attempt, the source does not distinguish a non-200 status from a transport exception; both are `None` from the oracle.
- **Payload shapes.**
  - A payload whose `meta` is JSON null makes `meta.get` raise (Data-Collector.py:45-49); the model's payload has no null `meta`.
  - A `data` that is JSON null builds an empty frame, like an empty list, so the source saves a tag-only file with 0 records. The model's payload has no null `data` (an absent key is `None`). The empty-list case it does model (`SavedFrame`) behaves the same way.
  - A `data` given as a dict of columns also builds a frame in the source. The model takes `data` as a list of (date, nav) points, the shape MFAPI returns.
- **Write failures.** A failing write of a collected file or of a catalog cache is not modelled: writes succeed.
- **Malformed caches.** A cache file that exists but cannot be read is not modelled.
- **Round trip.** The CSV write/read round trip of a saved file is taken as `SavedFrame`.
- **Retry delays.** For three failed attempts, the sleeps come out as 1 and 2 seconds, as the loop at SchemeBrowser.py:115-116 is written. No sleep follows the last attempt.
