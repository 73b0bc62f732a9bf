/** The normalizer: each fetched raw table is renamed per its interface's `columns_map`, gets
    a single `effective_date` column and, when the ETL task names one, a `ticker` column; the
    tables are then grouped by interface in order of first appearance and concatenated into
    one silver table per interface. */
module Normalize {
  import opened Wrappers
  import opened Strings
  import opened Seqs
  import opened Frames
  import opened Config

  /** The part of a task dict the normalizer reads: `interface_id` and `ticker` (absent as
      `None`). */
  datatype TaskInfo = TaskInfo(interfaceId: string, ticker: Option<string>)

  /** One fetched result: its task and the raw table read from `raw_file_path`, or `None`
      when that file cannot be read. */
  datatype FetchedResult = FetchedResult(task: TaskInfo, raw: Option<Frame>)

  /** `pd.read_parquet` raising on the result at this position: `process` stops there. */
  datatype NormalizeError = ReadFailed(index: nat)

  /** One consolidated silver table and the path it is written to. */
  datatype SilverFile = SilverFile(interfaceId: string, path: string, data: Frame)

  // ---------------------------------------------------------------------------------------
  // One raw table
  // ---------------------------------------------------------------------------------------

  /** `pd.to_datetime(col).dt.strftime('%Y-%m-%d')` on one cell: an ISO date text stays as it
      is, a null stays null. */
  function EffectiveCell(c: Cell): (r: Cell)
    ensures c.Some? && c.value.Str? ==> r == c
  {
    if c.Some? && c.value.Str? then c else None
  }

  /** The `effective_date` cells derived from each row's `date`. */
  function EffectiveCells(f: Frame): (r: seq<Cell>)
    ensures |r| == |f.rows|
    ensures forall i :: 0 <= i < |f.rows| ==> r[i] == EffectiveCell(Get(f.rows[i], "date"))
  {
    seq(|f.rows|, i requires 0 <= i < |f.rows| => EffectiveCell(Get(f.rows[i], "date")))
  }

  /** `task_info.get('ticker')` when it is a non-empty text. */
  function TaskTicker(t: TaskInfo): Option<string>
  {
    if t.ticker.Some? && t.ticker.value != "" then t.ticker else None
  }

  function RenameStep(cfg: InterfaceConfig, f: Frame): Frame
  {
    if |cfg.columnsMap| > 0 then Rename(f, cfg.columnsMap) else f
  }

  function DateStep(f: Frame): Frame
  {
    if "date" in f.columns then DropColumn(SetColumn(f, "effective_date", EffectiveCells(f)), "date") else f
  }

  function TickerStep(t: TaskInfo, f: Frame): Frame
  {
    if TaskTicker(t).Some? && "ticker" !in f.columns
    then SetColumn(f, "ticker", seq(|f.rows|, i => Some(Str(TaskTicker(t).value))))
    else f
  }

  /** The body of the first loop for a result whose interface is configured. */
  function NormalizeFrame(cfg: InterfaceConfig, t: TaskInfo, raw: Frame): Frame
  {
    TickerStep(t, DateStep(RenameStep(cfg, raw)))
  }

  /** The rename keeps every value, moving it to the column's new name, when the map sends
      distinct columns to distinct names; an empty map changes nothing. */
  lemma RenameStepKeepsValues(cfg: InterfaceConfig, f: Frame, i: nat, k: nat)
    requires i < |f.rows| && k < |f.columns| && InjectiveOn(cfg.columnsMap, f.columns)
    ensures var g := RenameStep(cfg, f);
            |g.rows| == |f.rows| && Get(g.rows[i], Renamed(cfg.columnsMap, f.columns[k])) == Get(f.rows[i], f.columns[k])
  {
    if |cfg.columnsMap| > 0 {
      RenameRowKeepsCells(f.rows[i], f.columns, cfg.columnsMap, k);
    } else {
      assert cfg.columnsMap == map[];
    }
  }

  /** A table with a `date` column comes out with `effective_date` holding its date texts and
      no `date`; other columns keep their cells; a table without `date` is unchanged. */
  lemma DateStepSpec(f: Frame)
    ensures |DateStep(f).rows| == |f.rows|
    ensures "date" in f.columns ==>
              && "effective_date" in DateStep(f).columns && "date" !in DateStep(f).columns
              && forall i :: 0 <= i < |f.rows| ==>
                   && Get(DateStep(f).rows[i], "effective_date") == EffectiveCell(Get(f.rows[i], "date"))
                   && Get(DateStep(f).rows[i], "date") == None
                   && forall c :: c != "date" && c != "effective_date" ==> Get(DateStep(f).rows[i], c) == Get(f.rows[i], c)
    ensures "date" !in f.columns ==> DateStep(f) == f
  {
    if "date" in f.columns {
      var g := SetColumn(f, "effective_date", EffectiveCells(f));
      assert "effective_date" != "date";
      forall i | 0 <= i < |f.rows|
        ensures Get(DateStep(f).rows[i], "effective_date") == EffectiveCell(Get(f.rows[i], "date"))
      {
        assert Get(g.rows[i], "effective_date") == EffectiveCells(f)[i];
      }
    }
  }

  /** `ticker` is filled from the ETL task exactly when the ETL task names a non-empty ticker and the
      table has no `ticker` column; an existing `ticker` column is left as it is. */
  lemma TickerStepSpec(t: TaskInfo, f: Frame)
    ensures |TickerStep(t, f).rows| == |f.rows|
    ensures "ticker" in f.columns || TaskTicker(t).None? ==> TickerStep(t, f) == f
    ensures "ticker" !in f.columns && TaskTicker(t).Some? ==>
              && "ticker" in TickerStep(t, f).columns
              && forall i :: 0 <= i < |f.rows| ==>
                   && Get(TickerStep(t, f).rows[i], "ticker") == Some(Str(t.ticker.value))
                   && forall c :: c != "ticker" ==> Get(TickerStep(t, f).rows[i], c) == Get(f.rows[i], c)
  {
  }

  // ---------------------------------------------------------------------------------------
  // Grouping and consolidation
  // ---------------------------------------------------------------------------------------

  /** The position of the first result whose raw table cannot be read. */
  function FirstUnreadable(results: seq<FetchedResult>): (r: Option<nat>)
    ensures r.Some? ==> r.value < |results| && results[r.value].raw.None? &&
                        forall j :: 0 <= j < r.value ==> results[j].raw.Some?
    ensures r.None? <==> forall j :: 0 <= j < |results| ==> results[j].raw.Some?
  {
    if results == [] then None
    else if results[0].raw.None? then Some(0)
    else
      var rest := FirstUnreadable(results[1..]);
      if rest.None? then None else Some(rest.value + 1)
  }

  ghost predicate AllRead(results: seq<FetchedResult>)
  {
    forall j :: 0 <= j < |results| ==> results[j].raw.Some?
  }

  /** The normalized tables of the results whose interface is configured, in input order,
      each under its interface id. */
  function Processed(cfgs: seq<InterfaceConfig>, results: seq<FetchedResult>): seq<(string, Frame)>
    requires AllRead(results)
    decreases |results|
  {
    if results == [] then []
    else
      var last := results[|results| - 1];
      Processed(cfgs, results[..|results| - 1]) +
      match Lookup(cfgs, last.task.interfaceId)
      case None => []
      case Some(cfg) => [(last.task.interfaceId, NormalizeFrame(cfg, last.task, last.raw.value))]
  }

  /** The interface ids of the normalized tables, in order. */
  function TableIds(p: seq<(string, Frame)>): (r: seq<string>)
    ensures |r| == |p| && forall k :: 0 <= k < |p| ==> r[k] == p[k].0
  {
    seq(|p|, k requires 0 <= k < |p| => p[k].0)
  }

  /** The interface ids of the silver tables, in order. */
  function FileIds(out: seq<SilverFile>): (r: seq<string>)
    ensures |r| == |out| && forall k :: 0 <= k < |out| ==> r[k] == out[k].interfaceId
  {
    seq(|out|, k requires 0 <= k < |out| => out[k].interfaceId)
  }

  /** The keys of the grouping dict, in order of first insertion. */
  function GroupIds(p: seq<(string, Frame)>): (r: seq<string>)
    decreases |p|
  {
    if p == [] then []
    else
      var ids := GroupIds(p[..|p| - 1]);
      if p[|p| - 1].0 in ids then ids else ids + [p[|p| - 1].0]
  }

  /** `processed_data_map[id]`: the tables of one interface, in input order. */
  function Group(p: seq<(string, Frame)>, id: string): (r: seq<Frame>)
    decreases |p|
  {
    if p == [] then []
    else Group(p[..|p| - 1], id) + (if p[|p| - 1].0 == id then [p[|p| - 1].1] else [])
  }

  /** `os.path.join(silver_dir, f"interface={id}", "data.parquet")`. */
  function SilverPath(silverDir: string, id: string): string
  {
    PathJoin(PathJoin(silverDir, "interface=" + id), "data.parquet")
  }

  /** What `process` writes and returns: one consolidated table per interface, or the read
      failure that stops it. */
  function Normalized(cfgs: seq<InterfaceConfig>, silverDir: string, results: seq<FetchedResult>): Result<seq<SilverFile>, NormalizeError>
  {
    match FirstUnreadable(results)
    case Some(i) => Err(ReadFailed(i))
    case None => Ok(Files(silverDir, Processed(cfgs, results)))
  }

  /** One consolidated table per grouping key, in key order. */
  function Files(silverDir: string, p: seq<(string, Frame)>): (r: seq<SilverFile>)
    ensures |r| == |GroupIds(p)|
  {
    var ids := GroupIds(p);
    seq(|ids|, k requires 0 <= k < |ids| => SilverFile(ids[k], SilverPath(silverDir, ids[k]), Concat(Group(p, ids[k]))))
  }

  // ---------------------------------------------------------------------------------------
  // Properties of the grouping
  // ---------------------------------------------------------------------------------------

  /** The grouping keys are distinct and are exactly the ids that occur. */
  lemma {:induction false} GroupIdsSpec(p: seq<(string, Frame)>)
    ensures NoDup(GroupIds(p))
    ensures forall id :: id in GroupIds(p) <==> id in TableIds(p)
    decreases |p|
  {
    if p != [] {
      var init := p[..|p| - 1];
      GroupIdsSpec(init);
      assert TableIds(p) == TableIds(init) + [p[|p| - 1].0];
    }
  }

  /** Appending one table to the grouping: its id is added if new, and it joins its group. */
  lemma GroupAppend(p: seq<(string, Frame)>, id: string, df: Frame)
    ensures GroupIds(p + [(id, df)]) == if id in GroupIds(p) then GroupIds(p) else GroupIds(p) + [id]
    ensures forall x :: Group(p + [(id, df)], x) == Group(p, x) + (if x == id then [df] else [])
  {
    assert (p + [(id, df)])[..|p|] == p;
  }

  /** An id that was never grouped has no tables. */
  lemma {:induction false} GroupAbsent(p: seq<(string, Frame)>, id: string)
    requires id !in GroupIds(p)
    ensures Group(p, id) == []
    decreases |p|
  {
    if p != [] {
      var init := p[..|p| - 1];
      assert id !in GroupIds(init);
      GroupAbsent(init, id);
    }
  }

  /** The grouping dict and its key order after one more table is appended. */
  lemma AddToGroups(groups: map<string, seq<Frame>>, ids: seq<string>, done: seq<(string, Frame)>, id: string, df: Frame)
    requires ids == GroupIds(done)
    requires forall x :: x in groups <==> x in ids
    requires forall x :: x in groups ==> groups[x] == Group(done, x)
    ensures var g := if id in groups then groups[id := groups[id] + [df]] else groups[id := [df]];
            var ids' := if id in groups then ids else ids + [id];
            && ids' == GroupIds(done + [(id, df)])
            && (forall x :: x in g <==> x in ids')
            && (forall x :: x in g ==> g[x] == Group(done + [(id, df)], x))
  {
    GroupAppend(done, id, df);
    if id !in groups {
      GroupAbsent(done, id);
    }
  }

  /** The first unreadable result stops `process`. */
  lemma {:induction false} FirstUnreadableAt(results: seq<FetchedResult>, i: nat)
    requires i < |results| && AllRead(results[..i]) && results[i].raw.None?
    ensures FirstUnreadable(results) == Some(i)
  {
    assert forall j :: 0 <= j < i ==> results[j] == results[..i][j];
  }

  /** One more result read: its table is appended when its interface is configured. */
  lemma ProcessedAppend(cfgs: seq<InterfaceConfig>, results: seq<FetchedResult>, i: nat)
    requires i < |results| && AllRead(results[..i + 1])
    ensures AllRead(results[..i])
    ensures Processed(cfgs, results[..i + 1]) ==
            Processed(cfgs, results[..i]) +
            match Lookup(cfgs, results[i].task.interfaceId)
            case None => []
            case Some(cfg) => [(results[i].task.interfaceId, NormalizeFrame(cfg, results[i].task, results[i].raw.value))]
  {
    assert results[..i + 1][..i] == results[..i];
    assert forall j :: 0 <= j < i ==> results[..i][j] == results[..i + 1][j];
  }

  lemma AllReadExtend(results: seq<FetchedResult>, i: nat)
    requires i < |results| && AllRead(results[..i]) && results[i].raw.Some?
    ensures AllRead(results[..i + 1])
  {
    assert forall j :: 0 <= j < i ==> results[..i + 1][j] == results[..i][j];
  }

  /** A result whose interface has no configuration contributes nothing. */
  lemma UnknownIgnored(cfgs: seq<InterfaceConfig>, results: seq<FetchedResult>, r: FetchedResult)
    requires AllRead(results) && r.raw.Some? && Lookup(cfgs, r.task.interfaceId).None?
    ensures AllRead(results + [r])
    ensures Processed(cfgs, results + [r]) == Processed(cfgs, results)
  {
    assert (results + [r])[..|results|] == results;
  }

  /** Every table that reaches the grouping belongs to a configured interface. */
  lemma {:induction false} ProcessedConfigured(cfgs: seq<InterfaceConfig>, results: seq<FetchedResult>)
    requires AllRead(results)
    ensures forall k :: 0 <= k < |Processed(cfgs, results)| ==> Lookup(cfgs, Processed(cfgs, results)[k].0).Some?
    decreases |results|
  {
    if results != [] {
      ProcessedConfigured(cfgs, results[..|results| - 1]);
    }
  }

  /** Each consolidated table's row count is the sum of the row counts of its parts. */
  lemma ConsolidatedRows(cfgs: seq<InterfaceConfig>, silverDir: string, results: seq<FetchedResult>, k: nat)
    requires Normalized(cfgs, silverDir, results).Ok? && k < |Normalized(cfgs, silverDir, results).value|
    ensures var f := Normalized(cfgs, silverDir, results).value[k];
            && Lookup(cfgs, f.interfaceId).Some?
            && f.path == SilverPath(silverDir, f.interfaceId)
            && |f.data.rows| == TotalRows(Group(Processed(cfgs, results), f.interfaceId))
  {
    var p := Processed(cfgs, results);
    var id := GroupIds(p)[k];
    GroupIdsSpec(p);
    ProcessedConfigured(cfgs, results);
    assert id in TableIds(p);
    var j :| 0 <= j < |p| && TableIds(p)[j] == id;
    ConcatSpec(Group(p, id));
  }

  /** The output has one table per configured interface that occurs among the results, each
      interface once. */
  lemma NormalizedIds(cfgs: seq<InterfaceConfig>, silverDir: string, results: seq<FetchedResult>)
    requires Normalized(cfgs, silverDir, results).Ok?
    ensures var out := Normalized(cfgs, silverDir, results).value;
            && NoDup(FileIds(out))
            && forall id :: id in FileIds(out) <==> id in TableIds(Processed(cfgs, results))
  {
    var p := Processed(cfgs, results);
    var out := Normalized(cfgs, silverDir, results).value;
    GroupIdsSpec(p);
    assert FileIds(out) == GroupIds(p);
  }

  // ---------------------------------------------------------------------------------------
  // The two loops
  // ---------------------------------------------------------------------------------------

  /** The first loop: normalize each result and group the tables by interface, or stop at
      the first unreadable raw table. */
  method GroupResults(cfgs: seq<InterfaceConfig>, results: seq<FetchedResult>)
    returns (r: Result<(seq<string>, map<string, seq<Frame>>), NormalizeError>)
    ensures FirstUnreadable(results).Some? ==> r == Err(ReadFailed(FirstUnreadable(results).value))
    ensures FirstUnreadable(results).None? ==>
              && r.Ok?
              && r.value.0 == GroupIds(Processed(cfgs, results))
              && (forall id :: id in r.value.1 <==> id in r.value.0)
              && (forall id :: id in r.value.1 ==> r.value.1[id] == Group(Processed(cfgs, results), id))
  {
    var ids: seq<string> := [];
    var groups: map<string, seq<Frame>> := map[];
    ghost var done: seq<(string, Frame)> := [];
    var i := 0;
    while i < |results|
      invariant 0 <= i <= |results|
      invariant AllRead(results[..i])
      invariant done == Processed(cfgs, results[..i])
      invariant Grouped(ids, groups, done)
    {
      if results[i].raw.None? {
        FirstUnreadableAt(results, i);
        return Err(ReadFailed(i));
      }
      ids, groups, done := GroupStep(cfgs, results, i, ids, groups, done);
      i := i + 1;
    }
    assert results[..i] == results;
    return Ok((ids, groups));
  }

  /** The grouping of the tables `done`: the ids in first-seen order, each mapped to its tables. */
  ghost predicate Grouped(ids: seq<string>, groups: map<string, seq<Frame>>, done: seq<(string, Frame)>)
  {
    && ids == GroupIds(done)
    && (forall x :: x in groups <==> x in ids)
    && (forall x :: x in groups ==> groups[x] == Group(done, x))
  }

  /** One iteration of the first loop on a readable result. */
  method GroupStep(cfgs: seq<InterfaceConfig>, results: seq<FetchedResult>, i: nat, ids: seq<string>,
                   groups: map<string, seq<Frame>>, ghost done: seq<(string, Frame)>)
    returns (ids': seq<string>, groups': map<string, seq<Frame>>, ghost done': seq<(string, Frame)>)
    requires i < |results| && AllRead(results[..i]) && results[i].raw.Some?
    requires done == Processed(cfgs, results[..i]) && Grouped(ids, groups, done)
    ensures AllRead(results[..i + 1])
    ensures done' == Processed(cfgs, results[..i + 1]) && Grouped(ids', groups', done')
  {
    AllReadExtend(results, i);
    ProcessedAppend(cfgs, results, i);
    var result := results[i];
    var id := result.task.interfaceId;
    var cfg := Lookup(cfgs, id);
    if cfg.Some? {
      var df := NormalizeFrame(cfg.value, result.task, result.raw.value);
      ids', groups' := AddTable(ids, groups, done, id, df);
      done' := done + [(id, df)];
    } else {
      ids', groups', done' := ids, groups, done;
    }
  }

  /** `grouped_dfs.setdefault(interface_id, []).append(df)`, with the keys kept in first-seen
      order. */
  method AddTable(ids: seq<string>, groups: map<string, seq<Frame>>, ghost done: seq<(string, Frame)>, id: string, df: Frame)
    returns (ids': seq<string>, groups': map<string, seq<Frame>>)
    requires Grouped(ids, groups, done)
    ensures Grouped(ids', groups', done + [(id, df)])
  {
    AddToGroups(groups, ids, done, id, df);
    if id in groups {
      ids', groups' := ids, groups[id := groups[id] + [df]];
    } else {
      ids', groups' := ids + [id], groups[id := [df]];
    }
  }

  /** `Normalizer.process`: the first loop groups the normalized tables by interface; the
      second writes one consolidated table per interface and records its path. */
  method Process(cfgs: seq<InterfaceConfig>, silverDir: string, results: seq<FetchedResult>)
    returns (r: Result<seq<SilverFile>, NormalizeError>)
    ensures r == Normalized(cfgs, silverDir, results)
  {
    var grouped := GroupResults(cfgs, results);
    if grouped.Err? {
      return Err(grouped.error);
    }
    assert FirstUnreadable(results).None?;
    var (ids, groups) := grouped.value;
    ghost var p := Processed(cfgs, results);
    var out := WriteFiles(silverDir, ids, groups);
    FilesFromGroups(silverDir, p, ids, groups, out);
    return Ok(out);
  }

  /** The second loop: one consolidated table per grouped interface, in the order the
      interfaces first appeared. */
  method WriteFiles(silverDir: string, ids: seq<string>, groups: map<string, seq<Frame>>) returns (out: seq<SilverFile>)
    requires forall id :: id in ids ==> id in groups
    ensures |out| == |ids|
    ensures forall j :: 0 <= j < |ids| ==> out[j] == SilverFile(ids[j], SilverPath(silverDir, ids[j]), Concat(groups[ids[j]]))
  {
    out := [];
    var k := 0;
    while k < |ids|
      invariant 0 <= k <= |ids|
      invariant |out| == k
      invariant forall j :: 0 <= j < k ==> out[j] == SilverFile(ids[j], SilverPath(silverDir, ids[j]), Concat(groups[ids[j]]))
    {
      out := out + [SilverFile(ids[k], SilverPath(silverDir, ids[k]), Concat(groups[ids[k]]))];
      k := k + 1;
    }
  }

  /** Writing from the grouping of the first loop gives the consolidated files. */
  lemma FilesFromGroups(silverDir: string, p: seq<(string, Frame)>, ids: seq<string>,
                        groups: map<string, seq<Frame>>, out: seq<SilverFile>)
    requires ids == GroupIds(p)
    requires forall id :: id in groups <==> id in ids
    requires forall id :: id in groups ==> groups[id] == Group(p, id)
    requires |out| == |ids|
    requires forall j :: 0 <= j < |ids| ==> out[j] == SilverFile(ids[j], SilverPath(silverDir, ids[j]), Concat(groups[ids[j]]))
    ensures out == Files(silverDir, p)
  {
    forall j | 0 <= j < |out| ensures out[j] == Files(silverDir, p)[j] {
      assert ids[j] in groups;
    }
  }
}
