# Financial LLM dataset pipeline, modelled in Dafny

This project models the data-handling core of the financial-llm-dataset-pipeline repository, an
ETL pipeline that builds a point-in-time dataset of Chinese A-share data. The model covers five
stages:

- **Manifest** (`src/manifest.py`). Plans the fetch tasks. It gives each task a stable id
  (a hash of the interface id and its canonical JSON parameters), a source domain, a
  structured raw-data path and a `pending` status. It builds the smoke-test (replay) manifest
  and the full manifest: one task per market-wide interface and trading day.
- **Normalize** (`src/normalize.py`). Turns each fetched raw table into a "silver" table:
  - it renames columns through the interface's `columns_map`;
  - it turns `date` into `effective_date`;
  - it adds the ETL task's `ticker` when the table has none;
  - it groups the tables by interface and concatenates each group into one file.
- **Assemble** (`src/assemble.py`). Builds the sorted (ticker, date) base grid from the
  universe codes and the calendar slice. It then folds every silver table onto the grid with
  one of two joins: an exact left join (`feat_<col>_<id>` columns) for daily and static data,
  or a backward as-of join for low-frequency data. A failing source is skipped. The fold uses
  the corrected as-of join `Assemble.AsOfJoin`, which joins every ticker; the join as written
  (`Assemble.AsOfJoinAsWritten`) fails on any grid of two or more tickers and two or more days,
  so the original program skips every low-frequency source there (see "## Findings").
- **Label** (`src/label.py`). Computes forward returns for each gold row over horizons of 1, 5
  and 20 trading days:
  - prices are looked up by (ticker, date);
  - returns are given in basis points, clipped to ±2000;
  - a `label_na` flag marks each missing label.
- **Audit** (`src/audit.py`). Inner-joins features and labels, counts look-ahead violations
  (`effective_date` after `date`), reports missing cells per column, and sums the `label_na`
  columns.

Modules:

- `Frames` models a pandas DataFrame:
  - columns are listed in order;
  - each row is a map from column to an optional cell;
  - a cell value is text or a real number.
- `Frames` also models the pandas operations the core uses: rename, drop, set-column,
  left or inner merge, and concat.
- `Strings` models Python string semantics: code-point order (which is also ISO date order),
  `strip`, `replace`, `os.path.join`, and slicing.
- `Sorting` models a stable sort by a key, and proves that sorting gives a unique result when
  the keys are distinct.
- `Config` models the interface configuration records and the `{item.id: item}` registry.
- `Assemble`, `Label`, `Audit`, `Normalize` and `Manifest` follow the five source files;
  `Dates2024` holds the date-order facts used by the examples.

The forms follow the source:

- Pure transformations are functions, with lemmas about them.
- Each loop the source runs is a `method` with a `while` loop, proved equal to the
  specification function, for example `Normalize.GroupResults` and `Label.LabelRows`.
- The ETL task dictionary that `_enrich_task` updates in place is the class
  `Manifest.TaskRecord`.

Inputs the source reads from files are parameters of the model:

- the universe codes and calendar dates (`None` stands for a missing file);
- the silver tables, and the fetched results and their raw tables;
- the smoke tickers;
- the SHA-256 digest, passed as a function `hash`.

## Model

| member | source | states |
|---|---|---|
| Config.Lookup | src/assemble.py:21 | `interfaces_map.get(id)` finds a configuration exactly when some configuration has that id, and the one found carries that id |
| Config.LookupIsLast | src/assemble.py:21 | the dict comprehension keeps the last configuration listed under an id |
| Config.ValuesSpec | src/manifest.py:109 | `interfaces_map.values()` holds one configuration per distinct id, and every value is the one the registry returns for its id |
| Strings.LeTotalOrder | src/assemble.py:40 | text (and so ISO date) comparison is a total order: reflexive, total, antisymmetric and transitive |
| Strings.StripIsTrimmedSlice | src/assemble.py:31-32 | `str.strip()` returns a middle slice of the input with only whitespace cut from either end, and the result neither starts nor ends with whitespace |
| Strings.RemoveChar | src/manifest.py:44-46 | `replace('-', '')` leaves no hyphen, and it leaves hyphen-free text unchanged |
| Strings.RemoveCharCount | src/manifest.py:44-46 | every other character is kept, as often as it occurs |
| Strings.RemoveCharAppend | src/manifest.py:44-46 | removing the character from two joined texts removes it from each, so the kept characters stay in order |
| Strings.PathJoinRelative | src/manifest.py:48-49 | `os.path.join` of a directory without a trailing slash and a relative part inserts exactly one `/` |
| Strings.Take | src/manifest.py:49 | `task_id[:10]` is the prefix of length min(10, length) |
| Sorting.SortBySpec | src/assemble.py:48 | `sort_values` yields a sequence ordered by the key that is a permutation of its input |
| Sorting.SortedUnique | src/manifest.py:31 | two key-ordered permutations of the same elements are equal when the keys are distinct (why `sort_keys=True` canonicalises) |
| Frames.DropColumn | src/assemble.py:74 | `drop(columns=[c], errors='ignore')` removes `c`, keeps every other column, and keeps every other cell of every row |
| Frames.SetColumn | src/normalize.py:63 | assigning a column sets that column in every row and keeps every other cell and column |
| Frames.RenameRowKeys | src/normalize.py:58-59 | a renamed row has exactly the renamed columns |
| Frames.RenameRowKeepsCells | src/normalize.py:58-59 | under an injective rename, each cell moves to its column's new name |
| Frames.Matches | src/assemble.py:90 | the right rows matching a left row on the join keys are exactly the matching rows of the right table |
| Frames.MatchesCount | src/assemble.py:90 | each matching right row is matched as often as it occurs in the right table, and no other row is |
| Frames.MatchesAppend | src/assemble.py:90 | matching against two joined tables matches against each, so the matches keep their order in the right table |
| Frames.JoinBlock | src/assemble.py:90 | one left row yields one output row per match, or one null-extended row (left join) or none (inner join) when nothing matches |
| Frames.LeftMergeKeepsRows | src/assemble.py:90 | a left merge yields at least as many rows as the left table |
| Frames.LeftMergeAligned | src/assemble.py:90 | with at most one match per left row, a left merge is row-aligned with the left table, row i being left row i extended with its match's cells or nulls |
| Frames.InnerMergeRows | src/audit.py:25 | the rows of an inner merge are exactly the left rows extended with the right rows that match them on the keys: every output row is such a pair, and every matching pair is in the output |
| Frames.ConcatSpec | src/normalize.py:77 | `pd.concat(..., ignore_index=True)` has the total row count, the union of the columns, and each row's cells |
| Assemble.TickerOfSpec | src/assemble.py:29-32 | a ticker is the stripped code with `.SH` when it starts with 6, else `.SZ` |
| Assemble.TickerOfInjective | src/assemble.py:29-32 | two codes give the same ticker only when their stripped codes are equal |
| Assemble.CalendarSlice | src/assemble.py:40 | the date filter keeps exactly the calendar dates inside the inclusive range, each as often as in the calendar |
| Assemble.CrossProductCount | src/assemble.py:45 | the cross product holds each pair as often as its ticker times its date |
| Assemble.BaseGridSorted | src/assemble.py:45-48 | the grid is sorted by (ticker, date) and holds tickers × in-range days pairs |
| Assemble.BaseGridCount | src/assemble.py:40-48 | each pair occurs as often as its ticker in the universe times its date in the calendar inside the range, and never when out of range |
| Assemble.BaseGridMembers | src/assemble.py:29-48 | a pair is in the grid exactly when its ticker comes from the universe and its date is an in-range calendar date |
| Assemble.BaseGridUnique | src/assemble.py:45-48 | with no repeated ticker and no repeated date, no pair repeats |
| Assemble.BaseGridUniqueCodes | src/assemble.py:29-48 | with universe codes that differ once stripped and no repeated date, no pair repeats |
| Assemble.BaseGridEmpty | src/assemble.py:33-45 | a missing file gives the column-less empty frame; otherwise the grid is empty exactly when the universe or the in-range calendar is empty |
| Assemble.GridRows | src/assemble.py:45-48 | grid row i is the pair i of the sorted keys as a `ticker`/`date` row |
| Assemble.PrepareKeySpec | src/assemble.py:72-82 | a source without `effective_date` and `date` is skipped, and otherwise the join key `date` holds the `effective_date` cells when present, else the `date` cells |
| Assemble.PreferEffectiveDate | src/assemble.py:72-75 | dropping `date` and renaming `effective_date` moves the effective dates into `date` row by row |
| Assemble.JoinKeys | src/assemble.py:87 | the join keys are `date`, plus `ticker` exactly when the silver table has it |
| Assemble.FeatureNameInjective | src/assemble.py:88 | distinct columns get distinct `feat_<c>_<id>` names, never `ticker` or `date` |
| Assemble.JoinedColumnsSpec | src/assemble.py:88-89 | the added columns are exactly the renamed non-key silver columns |
| Assemble.ExactJoinRow | src/assemble.py:86-90 | with at most one silver row per key, gold row i keeps its cells and gains its match's cells under the `feat_` names, or nulls |
| Assemble.ExactJoinKeepsKeys | src/assemble.py:90 | the exact join keeps the gold key set and appends the feature columns |
| Assemble.LastEligible | src/assemble.py:101 | the backward search finds an eligible row (same ticker when `by='ticker'`, date not later) with no eligible row after it, or reports that none is eligible |
| Assemble.AsOfPick | src/assemble.py:94-101 | on the date-sorted silver table the chosen row is an eligible silver row with the latest date among eligible rows, or no silver row is eligible |
| Assemble.AsOfRowSpec | src/assemble.py:93-101 | after the as-of join (corrected, see Findings), gold row i keeps its cells and gains the cells of a latest eligible silver row, or nulls when none is eligible |
| Assemble.AsOfJoinKeepsKeys | src/assemble.py:101 | the as-of join keeps the gold key set and appends the renamed columns |
| Assemble.AsOfJoinAcceptsGrid | src/assemble.py:101 | the corrected as-of join accepts the base grid whenever every silver row is dated |
| Assemble.AsWrittenSkipsMultiTickerGrid | src/assemble.py:48-106 | as written, two tickers and two in-range dates make the grid's dates descend somewhere, so `merge_asof` fails and the source is skipped |
| Assemble.AsWrittenSkipsExample | src/assemble.py:45-101 | the failure above for codes 000001 and 600000 over 2024-01-02 and 2024-01-03 |
| Assemble.ExampleTickers | src/assemble.py:29-32 | the codes, taken as the text 000001 and 600000, become 000001.SZ and 600000.SH |
| Assemble.AssembledPrefixStep | src/assemble.py:57-106 | folding in one more source keeps the table unchanged when that source's step fails, and yields the step's table when it succeeds |
| Assemble.StepSpec | src/assemble.py:57-106 | one source's step fails exactly in the cases where the loop skips it: an unknown interface (59-61), an unreadable file (65-66), an empty table (67-68), no date column (77-79), a date conversion failure (82), a failed as-of merge (101, 105-106); otherwise it is the exact join for `D`/`static` interfaces and the as-of join for the rest |
| Assemble.StepKeepsKeys | src/assemble.py:57-106 | one source's join keeps the gold key set and only appends columns |
| Assemble.AssembledKeepsKeys | src/assemble.py:57-106 | folding every source keeps the grid's key set and its leading columns |
| Assemble.AssembledHasKey | src/assemble.py:45-106 | one (ticker, date) pair is in the assembled table exactly when it is in the grid |
| Assemble.AssembledKeysAreGrid | src/assemble.py:45-106 | the assembled table's (ticker, date) keys are exactly the universe tickers paired with the in-range calendar dates |
| Assemble.Process | src/assemble.py:50-113 | `process` halts exactly when the base grid is empty, and otherwise returns the fold of every source over the grid, with the corrected as-of join `Assemble.AsOfJoin` for low-frequency sources |
| Frames.RenameOneColumn | src/label.py:28-29 | renaming one present column onto an absent name moves its cells there and drops the old name |
| Label.PrepareCalendarSpec | src/label.py:33-36 | the calendar gets a `date` column exactly when it had `effective_date`, `trade_date` or `date`, taken from `effective_date` first |
| Label.DateTexts | src/label.py:49 | the model sorts the calendar dates exactly when every one is text, and then they are those texts in order (Python also sorts some calendars that are not all text; see "## Left out") |
| Label.TradeDatesSpec | src/label.py:49 | `sorted(unique())` is strictly ascending and holds exactly the calendar's dates |
| Label.TradeDatesOfAscending | src/label.py:49 | an already ascending calendar is its own trade-date list |
| Label.DateIndex | src/label.py:50 | `date_to_index` gives the first position of a date, and nothing for a date not in the calendar |
| Label.AscendingIndex | src/label.py:50 | on ascending trading days, day j has index j |
| Label.LastPriceRow | src/label.py:48 | price lookup by (ticker, date) gives the last matching price row, as `to_dict` keeps the last duplicate |
| Label.Clamp | src/label.py:87 | `np.clip(x, -2000, 2000)` stays in range and leaves in-range values unchanged |
| Label.FirstContaining | src/label.py:58 | the adjusted-close column is the first column containing `adj_close_hfq`, or none exists |
| Label.SetupSpec | src/label.py:46-60 | the error cases (missing column, unsortable calendar, no adjusted-close column), and on success the prices, the sorted trading days and the first adjusted-close column |
| Label.HorizonMeaning | src/label.py:76-90 | a horizon label is present with `label_na` 0 exactly when the future day exists, the current price is non-zero and the future price is numeric, and then it is the clipped basis-point return |
| Label.RowLabelMeaning | src/label.py:63-92 | for each horizon, `label_na` is 0 or 1 and 0 exactly when a return exists; a return exists exactly when a reportable day pair exists, and then it is the return on that later trading day |
| Label.LabelMeaning | src/label.py:41-94 | the per-row, per-horizon meaning above for every gold row of a successful run |
| Label.LabelsShape | src/label.py:63-94 | one label row per gold row, carrying its ticker and date, with one label per horizon |
| Label.LabelOneRow | src/label.py:63-92 | the loop over horizons computes the row's labels |
| Label.LabelRows | src/label.py:63-92 | the loop over gold rows computes every row's labels in order |
| Label.LabelTableOk | src/label.py:92-94 | the row results form the labels table |
| Label.Process | src/label.py:41-99 | `process` returns the labels table or the exception `process` raises |
| Label.ExampleFirstRow | tests/test_labeler.py:71-76 | the fixture's first row has a 1-day return of 200 bps with `label_na_1d` 0 |
| Label.ExampleSecondRow | tests/test_labeler.py:78-90 | the second row has a 1-day return of -200 bps, and NA 5- and 20-day labels |
| Label.LabelerExample | tests/test_labeler.py:26-90 | on the fixture, `process` succeeds with two rows and the labels above |
| Audit.GoldTable | src/audit.py:19-25 | the merge fails exactly when a join key is missing from either table, and otherwise has the feature columns then the label-only columns |
| Audit.GoldTableRows | src/audit.py:25 | the gold rows are exactly the feature rows joined with the label rows of the same (ticker, date): every gold row is such a pair, and every such pair is a gold row |
| Audit.MarkedColumns | src/audit.py:33 | the selected columns are exactly those whose name contains the marker (`effective_date` here, `label_na` at line 64) |
| Audit.ViolationCountZero | src/audit.py:38-43 | a column has no violation exactly when no row has an effective date after its date |
| Audit.TotalViolationsZero | src/audit.py:34-45 | the total is zero exactly when no audited column has a violating row |
| Audit.LookaheadAudit | src/audit.py:33-45 | the audit loop computes the audited columns and their total violation count |
| Audit.MissingCountBounds | src/audit.py:48 | a column's missing count is 0 exactly when every cell is present, and the row count exactly when none is |
| Audit.MissingReport | src/audit.py:48-49 | one (column, missing count) entry per column, in column order, each at most the row count |
| Audit.NaTotals | src/audit.py:64-67 | one sum per `label_na` column |
| Audit.NaSumCountsMissing | src/audit.py:64-66 | the sum of a `label_na_<h>d` column of the labels table is the number of rows whose label for that horizon is missing |
| Audit.LabelNaTotals | src/audit.py:64-66 | the same for the labels table the labeler produces |
| Audit.RunAllAudits | src/audit.py:27-72 | `run_all_audits` fails exactly when the merge does; otherwise it reports the audited columns, the total violation count over those columns, which is zero exactly when no row violates, the missing report and the NA sums |
| Audit.ExampleOneViolation | src/audit.py:38-43 | a two-row table with one effective date after its date has exactly one violation |
| Normalize.RenameStepKeepsValues | src/normalize.py:58-59 | under an injective `columns_map`, every cell survives under its column's new name |
| Normalize.DateStepSpec | src/normalize.py:62-66 | a `date` column becomes `effective_date` (text dates kept) and is dropped; every other cell is kept; a table without `date` is unchanged |
| Normalize.TickerStepSpec | src/normalize.py:68-69 | a table without `ticker` gets the ETL task's ticker in every row when the ETL task has one; otherwise the table is unchanged |
| Normalize.FirstUnreadable | src/normalize.py:48 | the first result whose raw table cannot be read, the error `process` stops with |
| Normalize.UnknownIgnored | src/normalize.py:50-53 | a result for an unconfigured interface adds nothing |
| Normalize.ProcessedConfigured | src/normalize.py:45-71 | every normalized table belongs to a configured interface |
| Normalize.GroupIdsSpec | src/normalize.py:71-76 | the grouped interface ids have no repeats and are exactly the ids of the normalized tables |
| Normalize.GroupAppend | src/normalize.py:71 | appending a table adds its id after the known ids when new, and extends only its own group |
| Normalize.GroupResults | src/normalize.py:42-71 | the first loop fails on the first unreadable result, and otherwise yields the group ids and, for each, its tables in order |
| Normalize.WriteFiles | src/normalize.py:76-86 | the second loop writes one concatenated file per group under `interface=<id>/data.parquet` |
| Normalize.FilesFromGroups | src/normalize.py:76-86 | the written files are the specification's files |
| Normalize.ConsolidatedRows | src/normalize.py:76-86 | each file belongs to a configured interface, sits at its silver path, and holds as many rows as its group's tables together |
| Normalize.NormalizedIds | src/normalize.py:75-88 | the returned map has one entry per interface with a normalized table, without repeats |
| Normalize.Process | src/normalize.py:29-88 | `process` returns the specification's files or its read error |
| Manifest.ParamGet | src/manifest.py:44 | `params.get(key)` finds a value exactly when the key is present, and the value is one stored under it |
| Manifest.TaskIdIgnoresOrder | src/manifest.py:28-32 | the ETL task id does not depend on the order of the parameters |
| Manifest.SourceDomain | src/manifest.py:40-41 | the configured source domain, or `default` for an unknown interface |
| Manifest.DateStr | src/manifest.py:44-46 | the `date` parameter without hyphens, or `static` without one |
| Manifest.OutputPathLayout | src/manifest.py:48-49 | the path is `<raw>/source_domain=<d>/interface=<id>/date=<date>/part-<first 10 of id>.parquet` |
| Manifest.EnrichedSpec | src/manifest.py:34-55 | enrichment sets `task_id`, `source_domain` and `output_path`, sets `status` to `pending` only when absent, and changes nothing else |
| Manifest.TaskRecord.Enrich | src/manifest.py:34-55 | the in-place update leaves the dictionary equal to its enriched form |
| Manifest.EnrichAll | src/manifest.py:78 | the list comprehension enriches every task in order |
| Manifest.ParamDate | src/manifest.py:112-114 | the hyphens are removed from the date parameter, except for the two interfaces that keep them |
| Manifest.EnrichedDateTask | src/manifest.py:44-49 | an enriched full-run task is pending and its path uses the hyphen-free date |
| Manifest.MarketWideTasksMembers | src/manifest.py:108-115 | the full run has a task for (interface, day) exactly when the interface is market-wide and the day is in the slice |
| Manifest.MarketWideTasksEmpty | src/manifest.py:108-119 | no task is generated exactly when the slice is empty or no interface is market-wide |
| Manifest.MarketWideTaskList | src/manifest.py:108-115 | the nested loops build the specification's task list |
| Manifest.FullManifestSpec | src/manifest.py:96-126 | a missing calendar or no task gives the empty manifest, and otherwise one enriched task per market-wide interface and day |
| Manifest.FullManifestEntry | src/manifest.py:96-126 | every manifest entry is a pending task of a configured market-wide interface for an in-range calendar day, with its id and path |
| Manifest.CreateFullManifest | src/manifest.py:96-126 | the method computes the full manifest |
| Manifest.PriceTasksSpec | src/manifest.py:63-69 | one price replay task per smoke ticker when the price interface is configured; the error when it has no bootstrap source (only if there is a ticker) |
| Manifest.CalendarTasksSpec | src/manifest.py:71-76 | one calendar replay task when configured; the error when it has no bootstrap source |
| Manifest.SmokeManifestSpec | src/manifest.py:57-83 | the smoke manifest fails exactly when the price interface is configured without a bootstrap source and there is a smoke ticker, or the calendar interface is configured without one; otherwise it has one price task per smoke ticker (when the price interface is configured) plus the calendar task (when that one is) |
| Manifest.SmokeEntry | src/manifest.py:57-83 | every smoke entry is pending, carries its ticker (none for the calendar) and interface, and has the output path for the date `static` |
| Manifest.PriceTaskList | src/manifest.py:63-69 | the ticker loop builds the price tasks or stops with the error |
| Manifest.CreateSmokeTestManifest | src/manifest.py:57-83 | the method computes the smoke manifest |

## Left out

- `src/transport.py`, `src/utils.py` (the token bucket and the smoke info file),
  `src/export.py`, `src/orchestrator.py`, `run_pipeline.py` and `run_smoke_test.py` are not
  part of this model. The smoke tickers are a parameter.
- `create_online_test_manifest`: one fixed task that is enriched like any other
  (`Manifest.EnrichedSpec` covers it).
- Pydantic validation of the configuration files. The records are taken as given.
- File I/O:
  - Reading and writing parquet/CSV, `os.makedirs` and logging are not modelled.
  - Read failures of the universe and calendar files become `None` inputs.
  - A raw table that cannot be read becomes `raw: None`.
  - Silver tables are given as frames.
  - Writing the parquet files is left out.
- SHA-256 and the exact bytes of `json.dumps`. The digest is the parameter `hash`. Only
  `sort_keys` and the `"key": "value"` layout of text parameters are modelled; JSON string
  escaping is not.
- Manifest.FormatTicker: `str.format` is modelled only for a `{ticker}` field.
- Suffix handling on column collisions:
  - pandas appends `_x`/`_y` when two merged tables share a non-key column; the model's
    right cells win.
  - pandas keeps duplicate columns after a rename; the model's last renamed column wins.
- Sort stability and ties:
  - the sort is stable (pandas' default quicksort is not);
  - ties in the as-of join pick the last row of that date in input order, where pandas'
    choice is unspecified.
- Dates are ISO `YYYY-MM-DD` text compared as strings.
  - `pd.to_datetime` and `strftime` act as the identity on such text.
  - A cell that is not text is a conversion failure in Assemble (the source is skipped), a
    null date in Normalize, and a null date (NaT) that compares false in Audit; pandas'
    `to_datetime` would turn a number into a timestamp instead.
  - The time-of-day part and time zones are not modelled.
- Floating point is modelled by reals. NaN is the absent cell. In Label, a price cell that is
  not a number counts as NA.
- Label.Setup, Label.DateTexts: a calendar whose dates are not all text raises the sort's
  `TypeError` in the model (`UnsortableCalendar`). Python's sort of the unique dates succeeds
  in more cases, which the model still reports as unsortable: an all-numeric calendar, a
  calendar with a single distinct date of any type, and a calendar whose dates are all null.
- Audit.ColumnSum: text cells count as 0 in a column sum. `describe()` statistics, the
  missing percentage and the outer merge of the two reports are not modelled.
- Normalize.RenameStepKeepsValues: stated for an injective `columns_map`; a map that sends
  two columns to one name keeps only the last.
- Manifest.FullManifestSpec: the empty manifest is `[]`. pandas returns a column-less
  empty DataFrame in both empty cases, so the two are not told apart.
- Manifest.ParamGet: parameter values are text only.
- Assemble.Process: the fold uses the corrected as-of join `Assemble.AsOfJoin`, not
  `Assemble.AsOfJoinAsWritten`. So, unlike `src/assemble.py:101`, a grid with two or more
  tickers and two or more days does not skip its low-frequency sources (see "## Findings").
- Assemble.TickerOfSpec, Assemble.ExampleTickers: universe codes are taken as text, so leading
  zeros survive. `pd.read_csv` without a `dtype` (`src/assemble.py:28`) reads digit-only codes
  as integers and drops their leading zeros ("000001" becomes "1.SZ"); the model does not
  capture this.

## Findings

| source | as written | input that shows it | evidently intended | confidence | as-written member | corrected member |
|---|---|---|---|---|---|---|
| src/assemble.py:101 | `merge_asof` needs its left table sorted by `date`, but the base grid is sorted by (`ticker`, `date`) at line 48, so with two or more tickers and two or more trading days pandas raises `ValueError`; the `except` at lines 105-106 logs it and every low-frequency source is silently skipped | universe codes 000001 and 600000, calendar 2024-01-02 and 2024-01-03 | a backward as-of join of every grid row, per ticker, on the latest silver row dated no later (for example after sorting the grid by `date` for the join) | not executed | Assemble.AsWrittenSkipsMultiTickerGrid | Assemble.AsOfRowSpec |
