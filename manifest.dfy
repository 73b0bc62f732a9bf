/** The manifest generator: a deterministic task id from the interface id and the sorted
    params, the enrichment every task dict receives (task id, source domain, output path,
    status), the full-run task list (one task per market-wide interface and trade date) and
    the smoke-test task list. sha256 is the parameter `hash`. */
module Manifest {
  import opened Wrappers
  import opened Strings
  import opened Seqs
  import opened Sorting
  import opened Config
  import Assemble

  // ---------------------------------------------------------------------------------------
  // Task dicts
  // ---------------------------------------------------------------------------------------

  /** No two params share a key, as in a Python dict. */
  ghost predicate DistinctKeys(p: seq<(string, string)>)
  {
    forall i, j :: 0 <= i < j < |p| ==> p[i].0 != p[j].0
  }

  /** A params dict: text keys and values in insertion order. */
  type Params = p: seq<(string, string)> | DistinctKeys(p)

  /** A value in a task dict: text, `None`, or the params dict. */
  datatype Field = Text(s: string) | NoValue | ParamsField(p: Params)

  type Task = map<string, Field>

  /** What `_enrich_task` needs of a task: a text `interface_id`, and `params`, when present,
      a dict. */
  predicate Enrichable(t: Task)
  {
    "interface_id" in t && t["interface_id"].Text? && ("params" in t ==> t["params"].ParamsField?)
  }

  function InterfaceIdOf(t: Task): string
    requires Enrichable(t)
  {
    t["interface_id"].s
  }

  /** `task.get('params', {})`. */
  function ParamsOf(t: Task): Params
    requires Enrichable(t)
  {
    if "params" in t then t["params"].p else []
  }

  /** `params.get(key)`. */
  function ParamGet(p: Params, key: string): (r: Option<string>)
    ensures r.Some? <==> exists i :: 0 <= i < |p| && p[i].0 == key
    ensures r.Some? ==> exists i :: 0 <= i < |p| && p[i] == (key, r.value)
  {
    if p == [] then None
    else if p[0].0 == key then Some(p[0].1)
    else
      var rest: Params := p[1..];
      var r := ParamGet(rest, key);
      if r.Some? then
        var i :| 0 <= i < |rest| && rest[i] == (key, r.value);
        assert p[i + 1] == (key, r.value);
        r
      else r
  }

  // ---------------------------------------------------------------------------------------
  // Task id
  // ---------------------------------------------------------------------------------------

  function ParamKey(kv: (string, string)): Key
  {
    (kv.0, "")
  }

  /** A JSON string literal (escaping is not modelled). */
  function Quote(s: string): string
  {
    "\"" + s + "\""
  }

  function Members(p: seq<(string, string)>): (r: seq<string>)
    ensures |r| == |p|
  {
    if p == [] then [] else [Quote(p[0].0) + ": " + Quote(p[0].1)] + Members(p[1..])
  }

  /** `json.dumps(p)` of a flat dict of texts, in the order given. */
  function JsonObject(p: seq<(string, string)>): string
  {
    "{" + JoinWith(", ", Members(p)) + "}"
  }

  /** `_get_task_id`: `sha256(f"{interface_id}-{json.dumps(params, sort_keys=True)}")`. */
  function TaskId(hash: string -> string, id: string, p: Params): string
  {
    hash(id + "-" + JsonObject(SortBy(p, ParamKey)))
  }

  /** The ETL task id depends only on the interface id and the params as a dict: listing the same
      params in another order gives the same id. */
  lemma TaskIdIgnoresOrder(hash: string -> string, id: string, p: Params, q: Params)
    requires multiset(p) == multiset(q)
    ensures TaskId(hash, id, p) == TaskId(hash, id, q)
  {
    SortBySpec(p, ParamKey);
    SortBySpec(q, ParamKey);
    forall x, y | x in multiset(p) && y in multiset(p) && ParamKey(x) == ParamKey(y) ensures x == y {
      var i :| 0 <= i < |p| && p[i] == x;
      var j :| 0 <= j < |p| && p[j] == y;
      if i < j {
        assert p[i].0 != p[j].0;
      } else if j < i {
        assert p[j].0 != p[i].0;
      }
    }
    assert KeysDistinct(SortBy(p, ParamKey), ParamKey);
    SortedUnique(SortBy(p, ParamKey), SortBy(q, ParamKey), ParamKey);
  }

  // ---------------------------------------------------------------------------------------
  // Enrichment
  // ---------------------------------------------------------------------------------------

  /** The interface's configured source domain, or `'default'` for an unknown interface. */
  function SourceDomain(cfgs: seq<InterfaceConfig>, id: string): (r: string)
    ensures Lookup(cfgs, id).Some? ==> r == Lookup(cfgs, id).value.sourceDomain
    ensures Lookup(cfgs, id).None? ==> r == "default"
  {
    match Lookup(cfgs, id)
    case Some(cfg) => cfg.sourceDomain
    case None => "default"
  }

  /** The date partition: `params['date']` without its hyphens, or `'static'`. */
  function DateStr(p: Params): (r: string)
    ensures '-' !in r
    ensures ParamGet(p, "date").None? ==> r == "static"
    ensures ParamGet(p, "date").Some? ==> r == RemoveChar(ParamGet(p, "date").value, '-')
  {
    match ParamGet(p, "date")
    case Some(d) => RemoveChar(d, '-')
    case None => "static"
  }

  /** The structured output path of a task. */
  function OutputPath(rawDir: string, domain: string, id: string, dateStr: string, taskId: string): string
  {
    var dir := PathJoin(PathJoin(PathJoin(rawDir, "source_domain=" + domain), "interface=" + id), "date=" + dateStr);
    PathJoin(dir, "part-" + Take(taskId, 10) + ".parquet")
  }

  predicate NoTrailingSlash(s: string)
  {
    s == [] || s[|s| - 1] != '/'
  }

  /** One path component `key=value` (or `part-...`) after its separator. */
  function Segment(key: string, v: string): string
  {
    "/" + key + v
  }

  /** Joining `key + v` under a directory: one `/` between them, and no trailing `/` after. */
  lemma JoinPart(dir: string, key: string, v: string)
    requires dir != [] && NoTrailingSlash(dir) && key != [] && key[0] != '/' && NoTrailingSlash(key + v)
    ensures PathJoin(dir, key + v) == dir + Segment(key, v)
    ensures PathJoin(dir, key + v) != [] && NoTrailingSlash(PathJoin(dir, key + v))
  {
    assert (key + v)[0] == key[0];
    PathJoinRelative(dir, key + v);
    var r := dir + "/" + (key + v);
    assert r[|r| - 1] == (key + v)[|key + v| - 1];
    assert r == dir + Segment(key, v);
  }

  /** Under a raw directory not ending in `/`, and with no path part ending in `/`, the output
      path is `raw/source_domain=D/interface=I/date=S/part-{task_id[:10]}.parquet`. */
  lemma OutputPathLayout(rawDir: string, domain: string, id: string, dateStr: string, taskId: string)
    requires rawDir != [] && NoTrailingSlash(rawDir)
    requires NoTrailingSlash(domain) && NoTrailingSlash(id) && NoTrailingSlash(dateStr)
    ensures OutputPath(rawDir, domain, id, dateStr, taskId) ==
            rawDir + Segment("source_domain=", domain) + Segment("interface=", id) + Segment("date=", dateStr) +
            Segment("part-", Take(taskId, 10) + ".parquet")
  {
    var p1 := PathJoin(rawDir, "source_domain=" + domain);
    JoinPart(rawDir, "source_domain=", domain);
    var p2 := PathJoin(p1, "interface=" + id);
    JoinPart(p1, "interface=", id);
    var p3 := PathJoin(p2, "date=" + dateStr);
    JoinPart(p2, "date=", dateStr);
    var tail := Take(taskId, 10) + ".parquet";
    assert "part-" + Take(taskId, 10) + ".parquet" == "part-" + tail;
    JoinPart(p3, "part-", tail);
  }

  /** The keys enrichment writes are none of the keys it reads. */
  lemma FieldNamesDistinct()
    ensures var written := ["task_id", "source_domain", "output_path", "status"];
            && "interface_id" !in written && "params" !in written
  {
    var written := ["task_id", "source_domain", "output_path", "status"];
    NotInByLength("interface_id", written);
    assert "params"[0] != "status"[0];
    NotInByLength("params", written[..3]);
  }

  /** `_enrich_task` on a task dict: the dict it leaves behind. */
  function Enriched(t: Task, cfgs: seq<InterfaceConfig>, rawDir: string, hash: string -> string): (r: Task)
    requires Enrichable(t)
    ensures Enrichable(r)
  {
    FieldNamesDistinct();
    var id := InterfaceIdOf(t);
    var p := ParamsOf(t);
    var taskId := TaskId(hash, id, p);
    var domain := SourceDomain(cfgs, id);
    var e := t["task_id" := Text(taskId)]["source_domain" := Text(domain)]
              ["output_path" := Text(OutputPath(rawDir, domain, id, DateStr(p), taskId))];
    if "status" in t then e else e["status" := Text("pending")]
  }

  /** Enrichment sets the ETL task id, source domain and output path, sets `status` to `pending`
      only when the ETL task has none, and leaves every other key as it was. */
  lemma EnrichedSpec(t: Task, cfgs: seq<InterfaceConfig>, rawDir: string, hash: string -> string)
    requires Enrichable(t)
    ensures var r := Enriched(t, cfgs, rawDir, hash);
            var id := InterfaceIdOf(t);
            var taskId := TaskId(hash, id, ParamsOf(t));
            && r.Keys == t.Keys + {"task_id", "source_domain", "output_path", "status"}
            && r["task_id"] == Text(taskId)
            && r["source_domain"] == Text(SourceDomain(cfgs, id))
            && r["output_path"] == Text(OutputPath(rawDir, SourceDomain(cfgs, id), id, DateStr(ParamsOf(t)), taskId))
            && r["status"] == (if "status" in t then t["status"] else Text("pending"))
            && forall k :: k in t && k != "task_id" && k != "source_domain" && k != "output_path" && k != "status" ==>
                 r[k] == t[k]
  {
    var id := InterfaceIdOf(t);
    var taskId := TaskId(hash, id, ParamsOf(t));
    var domain := SourceDomain(cfgs, id);
    var path := OutputPath(rawDir, domain, id, DateStr(ParamsOf(t)), taskId);
    WriteFields(t, Text(taskId), Text(domain), Text(path));
  }

  /** Setting the three fields and a default status, on any dict. */
  lemma WriteFields(t: Task, taskId: Field, domain: Field, path: Field)
    ensures var e := t["task_id" := taskId]["source_domain" := domain]["output_path" := path];
            var r := if "status" in t then e else e["status" := Text("pending")];
            && r.Keys == t.Keys + {"task_id", "source_domain", "output_path", "status"}
            && r["task_id"] == taskId && r["source_domain"] == domain && r["output_path"] == path
            && r["status"] == (if "status" in t then t["status"] else Text("pending"))
            && forall k :: k in t && k != "task_id" && k != "source_domain" && k != "output_path" && k != "status" ==>
                 r[k] == t[k]
  {
    EnrichKeysDistinct();
  }

  /** The four keys enrichment writes are distinct. */
  lemma EnrichKeysDistinct()
    ensures "task_id" != "source_domain" && "task_id" != "output_path" && "task_id" != "status"
    ensures "source_domain" != "output_path" && "source_domain" != "status" && "output_path" != "status"
  {
    assert "task_id"[0] != "source_domain"[0] && "task_id"[0] != "output_path"[0] && "task_id"[0] != "status"[0];
    assert "source_domain"[0] != "output_path"[0] && "source_domain"[1] != "status"[1] && "output_path"[0] != "status"[0];
  }

  /** A task dict `_enrich_task` updates in place. */
  class TaskRecord {
    var entries: Task

    constructor (t: Task)
      ensures entries == t
    {
      entries := t;
    }

    /** `_enrich_task(task)`. */
    method Enrich(cfgs: seq<InterfaceConfig>, rawDir: string, hash: string -> string)
      requires Enrichable(entries)
      modifies this
      ensures entries == Enriched(old(entries), cfgs, rawDir, hash)
    {
      var id := entries["interface_id"].s;
      var p: Params := if "params" in entries then entries["params"].p else [];
      var taskId := TaskId(hash, id, p);
      var domain := SourceDomain(cfgs, id);
      var dateStr := DateStr(p);
      var outputPath := OutputPath(rawDir, domain, id, dateStr, taskId);
      entries := entries["task_id" := Text(taskId)];
      entries := entries["source_domain" := Text(domain)];
      entries := entries["output_path" := Text(outputPath)];
      if "status" !in entries {
        entries := entries["status" := Text("pending")];
      }
    }
  }

  /** `[self._enrich_task(task) for task in tasks]`. */
  function EnrichedAll(tasks: seq<Task>, cfgs: seq<InterfaceConfig>, rawDir: string, hash: string -> string): (r: seq<Task>)
    requires forall k :: 0 <= k < |tasks| ==> Enrichable(tasks[k])
    ensures |r| == |tasks|
  {
    seq(|tasks|, k requires 0 <= k < |tasks| => Enriched(tasks[k], cfgs, rawDir, hash))
  }

  /** Entry `k` of the enriched list is task `k`, enriched. */
  lemma EnrichedAllAt(tasks: seq<Task>, cfgs: seq<InterfaceConfig>, rawDir: string, hash: string -> string)
    requires forall k :: 0 <= k < |tasks| ==> Enrichable(tasks[k])
    ensures forall k :: 0 <= k < |tasks| ==> EnrichedAll(tasks, cfgs, rawDir, hash)[k] == Enriched(tasks[k], cfgs, rawDir, hash)
  {
  }

  /** Appending the next enriched task keeps the enriched prefix. */
  lemma AppendAgrees(enriched: seq<Task>, e: Task, tasks: seq<Task>, cfgs: seq<InterfaceConfig>, rawDir: string,
                     hash: string -> string)
    requires |enriched| < |tasks| && forall k :: 0 <= k < |tasks| ==> Enrichable(tasks[k])
    requires forall j :: 0 <= j < |enriched| ==> enriched[j] == Enriched(tasks[j], cfgs, rawDir, hash)
    requires e == Enriched(tasks[|enriched|], cfgs, rawDir, hash)
    ensures forall j :: 0 <= j <= |enriched| ==> (enriched + [e])[j] == Enriched(tasks[j], cfgs, rawDir, hash)
  {
  }

  /** The enrichment loop: a `TaskRecord` per task dict, enriched in place, in task order. */
  method EnrichAll(tasks: seq<Task>, cfgs: seq<InterfaceConfig>, rawDir: string, hash: string -> string)
    returns (enriched: seq<Task>)
    requires forall k :: 0 <= k < |tasks| ==> Enrichable(tasks[k])
    ensures enriched == EnrichedAll(tasks, cfgs, rawDir, hash)
  {
    enriched := [];
    var k := 0;
    while k < |tasks|
      invariant 0 <= k <= |tasks|
      invariant |enriched| == k
      invariant forall j :: 0 <= j < k ==> enriched[j] == Enriched(tasks[j], cfgs, rawDir, hash)
    {
      var rec := new TaskRecord(tasks[k]);
      rec.Enrich(cfgs, rawDir, hash);
      var e := rec.entries;
      assert e == Enriched(tasks[k], cfgs, rawDir, hash);
      AppendAgrees(enriched, e, tasks, cfgs, rawDir, hash);
      enriched := enriched + [e];
      k := k + 1;
    }
  }

  // ---------------------------------------------------------------------------------------
  // The full manifest
  // ---------------------------------------------------------------------------------------

  const MarketWide := "market_wide_single_day"

  /** The interfaces whose `date` param keeps its hyphens. */
  predicate KeepsHyphens(id: string)
  {
    Contains(id, "stock_sse_deal_daily") || Contains(id, "stock_notice_report")
  }

  /** The `date` param of a full-run task. */
  function ParamDate(id: string, d: string): (r: string)
    ensures KeepsHyphens(id) ==> r == d
    ensures !KeepsHyphens(id) ==> '-' !in r && r == RemoveChar(d, '-')
  {
    if KeepsHyphens(id) then d else RemoveChar(d, '-')
  }

  /** `{"date": param_date}`. */
  function DateParams(id: string, d: string): Params
  {
    [("date", ParamDate(id, d))]
  }

  /** `{"interface_id": id, "params": {"date": param_date}}`. */
  function DateTask(id: string, d: string): (t: Task)
    ensures Enrichable(t) && InterfaceIdOf(t) == id && ParamsOf(t) == DateParams(id, d)
  {
    map["interface_id" := Text(id), "params" := ParamsField(DateParams(id, d))]
  }

  /** The inner loop: one task per trade date, in date order. */
  function DateTasks(id: string, dates: seq<string>): (r: seq<Task>)
    ensures |r| == |dates| && forall k :: 0 <= k < |dates| ==> r[k] == DateTask(id, dates[k])
  {
    seq(|dates|, k requires 0 <= k < |dates| => DateTask(id, dates[k]))
  }

  /** The outer loop over the interfaces: the date tasks of each market-wide interface, in
      interface order. */
  function MarketWideTasks(ifaces: seq<InterfaceConfig>, dates: seq<string>): (r: seq<Task>)
    ensures forall k :: 0 <= k < |r| ==> Enrichable(r[k])
    decreases |ifaces|
  {
    if ifaces == [] then []
    else
      var last := ifaces[|ifaces| - 1];
      MarketWideTasks(ifaces[..|ifaces| - 1], dates) + (if last.scope == MarketWide then DateTasks(last.id, dates) else [])
  }

  /** `create_full_manifest`: nothing without a calendar file or when no task is generated;
      otherwise the enriched tasks. */
  function FullManifest(cfgs: seq<InterfaceConfig>, calendar: Option<seq<string>>, start: string, end: string,
                        rawDir: string, hash: string -> string): (r: seq<Task>)
  {
    match calendar
    case None => []
    case Some(c) =>
      var tasks := MarketWideTasks(Values(cfgs), Assemble.CalendarSlice(c, start, end));
      if tasks == [] then [] else EnrichedAll(tasks, cfgs, rawDir, hash)
  }

  /** Some interface with id `id` is market wide. */
  predicate HasMarketWide(ifaces: seq<InterfaceConfig>, id: string)
  {
    exists i :: 0 <= i < |ifaces| && ifaces[i].id == id && ifaces[i].scope == MarketWide
  }

  /** Some trade date gives the same `date` param as `d`. */
  predicate HasDateParam(dates: seq<string>, id: string, d: string)
  {
    exists d' :: d' in dates && ParamDate(id, d') == ParamDate(id, d)
  }

  lemma HasMarketWideSnoc(ifaces: seq<InterfaceConfig>, id: string)
    requires ifaces != []
    ensures var last := ifaces[|ifaces| - 1];
            HasMarketWide(ifaces, id) <==>
              HasMarketWide(ifaces[..|ifaces| - 1], id) || (last.id == id && last.scope == MarketWide)
  {
    var init := ifaces[..|ifaces| - 1];
    if HasMarketWide(init, id) {
      var i :| 0 <= i < |init| && init[i].id == id && init[i].scope == MarketWide;
      assert ifaces[i] == init[i];
    }
    if HasMarketWide(ifaces, id) {
      var i :| 0 <= i < |ifaces| && ifaces[i].id == id && ifaces[i].scope == MarketWide;
      if i < |init| {
        assert init[i] == ifaces[i];
      }
    }
  }

  /** The date tasks of one interface hold the ETL task of `(id, d)` exactly when the interface is
      `id` and some trade date gives `d`'s `date` param. */
  lemma DateTasksMembers(lastId: string, dates: seq<string>, id: string, d: string)
    ensures DateTask(id, d) in DateTasks(lastId, dates) <==> lastId == id && HasDateParam(dates, id, d)
  {
    var block := DateTasks(lastId, dates);
    if DateTask(id, d) in block {
      var k :| 0 <= k < |block| && block[k] == DateTask(id, d);
      assert InterfaceIdOf(DateTask(lastId, dates[k])) == lastId;
      assert ParamsOf(DateTask(lastId, dates[k]))[0].1 == ParamDate(id, dates[k]);
      assert dates[k] in dates;
    }
    if lastId == id && HasDateParam(dates, id, d) {
      var d' :| d' in dates && ParamDate(id, d') == ParamDate(id, d);
      var k :| 0 <= k < |dates| && dates[k] == d';
      assert block[k] == DateTask(id, d');
    }
  }

  /** A task is generated exactly for a market-wide interface and a trade date, carrying that
      date (hyphen-free unless the interface keeps hyphens). */
  lemma {:induction false} MarketWideTasksMembers(ifaces: seq<InterfaceConfig>, dates: seq<string>, id: string, d: string)
    ensures DateTask(id, d) in MarketWideTasks(ifaces, dates) <==>
            HasMarketWide(ifaces, id) && HasDateParam(dates, id, d)
    decreases |ifaces|
  {
    if ifaces != [] {
      var init := ifaces[..|ifaces| - 1];
      var last := ifaces[|ifaces| - 1];
      MarketWideTasksMembers(init, dates, id, d);
      HasMarketWideSnoc(ifaces, id);
      DateTasksMembers(last.id, dates, id, d);
    }
  }

  /** No calendar, no market-wide interface or no trade date in range: an empty manifest. */
  lemma {:induction false} MarketWideTasksEmpty(ifaces: seq<InterfaceConfig>, dates: seq<string>)
    ensures MarketWideTasks(ifaces, dates) == [] <==>
            dates == [] || forall i :: 0 <= i < |ifaces| ==> ifaces[i].scope != MarketWide
    decreases |ifaces|
  {
    if ifaces != [] {
      var init := ifaces[..|ifaces| - 1];
      MarketWideTasksEmpty(init, dates);
      assert forall i :: 0 <= i < |init| ==> init[i] == ifaces[i];
    }
  }

  /** The full manifest is empty exactly when no calendar is found, no interface is market
      wide or no trade date is in range; otherwise each entry is an enriched date task. */
  lemma FullManifestSpec(cfgs: seq<InterfaceConfig>, calendar: Option<seq<string>>, start: string, end: string,
                         rawDir: string, hash: string -> string)
    ensures var r := FullManifest(cfgs, calendar, start, end, rawDir, hash);
            && (calendar.None? ==> r == [])
            && (calendar.Some? ==>
                  var tasks := MarketWideTasks(Values(cfgs), Assemble.CalendarSlice(calendar.value, start, end));
                  && (r == [] <==>
                        Assemble.CalendarSlice(calendar.value, start, end) == [] ||
                        forall i :: 0 <= i < |Values(cfgs)| ==> Values(cfgs)[i].scope != MarketWide)
                  && |r| == |tasks|
                  && forall k :: 0 <= k < |r| ==> r[k] == Enriched(tasks[k], cfgs, rawDir, hash))
  {
    if calendar.Some? {
      var tasks := MarketWideTasks(Values(cfgs), Assemble.CalendarSlice(calendar.value, start, end));
      MarketWideTasksEmpty(Values(cfgs), Assemble.CalendarSlice(calendar.value, start, end));
      if tasks != [] {
        EnrichedAllAt(tasks, cfgs, rawDir, hash);
      }
    }
  }

  /** Task `k` of the nested loops: the date task of a market-wide interface and a trade date. */
  lemma {:induction false} MarketWideTaskAt(ifaces: seq<InterfaceConfig>, dates: seq<string>, k: nat) returns (i: nat, j: nat)
    requires k < |MarketWideTasks(ifaces, dates)|
    ensures i < |ifaces| && j < |dates| && ifaces[i].scope == MarketWide
    ensures MarketWideTasks(ifaces, dates)[k] == DateTask(ifaces[i].id, dates[j])
    decreases |ifaces|
  {
    var init := ifaces[..|ifaces| - 1];
    var last := ifaces[|ifaces| - 1];
    var head := MarketWideTasks(init, dates);
    if k < |head| {
      i, j := MarketWideTaskAt(init, dates, k);
      assert ifaces[i] == init[i];
    } else {
      i, j := |ifaces| - 1, k - |head|;
    }
  }

  /** Enriching the date task of interface `id` for day `d`: pending, keyed by the ETL task id of
      its `date` param, and written under the hyphen-free date. */
  lemma EnrichedDateTask(id: string, d: string, cfgs: seq<InterfaceConfig>, rawDir: string, hash: string -> string)
    ensures var e := Enriched(DateTask(id, d), cfgs, rawDir, hash);
            var taskId := TaskId(hash, id, DateParams(id, d));
            && "interface_id" in e && e["interface_id"] == Text(id)
            && "task_id" in e && e["task_id"] == Text(taskId)
            && "status" in e && e["status"] == Text("pending")
            && "output_path" in e
            && e["output_path"] == Text(OutputPath(rawDir, SourceDomain(cfgs, id), id, RemoveChar(d, '-'), taskId))
  {
    var t := DateTask(id, d);
    EnrichedSpec(t, cfgs, rawDir, hash);
    assert ParamGet(ParamsOf(t), "date") == Some(ParamDate(id, d));
    assert DateStr(ParamsOf(t)) == RemoveChar(d, '-');
  }

  /** Entry `k` of the full manifest: a pending, enriched date task of a configured
      market-wide interface for a trade date in range, written under that interface's source
      domain and the hyphen-free date. */
  lemma FullManifestEntry(cfgs: seq<InterfaceConfig>, calendar: Option<seq<string>>, start: string, end: string,
                          rawDir: string, hash: string -> string, k: nat) returns (iface: InterfaceConfig, d: string)
    requires k < |FullManifest(cfgs, calendar, start, end, rawDir, hash)|
    ensures calendar.Some? && d in calendar.value && Assemble.InRange(d, start, end)
    ensures Lookup(cfgs, iface.id) == Some(iface) && iface.scope == MarketWide
    ensures var e := FullManifest(cfgs, calendar, start, end, rawDir, hash)[k];
            var taskId := TaskId(hash, iface.id, DateParams(iface.id, d));
            && "interface_id" in e && e["interface_id"] == Text(iface.id)
            && "task_id" in e && e["task_id"] == Text(taskId)
            && "status" in e && e["status"] == Text("pending")
            && "output_path" in e
            && e["output_path"] == Text(OutputPath(rawDir, iface.sourceDomain, iface.id, RemoveChar(d, '-'), taskId))
  {
    var ifaces := Values(cfgs);
    var dates := Assemble.CalendarSlice(calendar.value, start, end);
    var tasks := MarketWideTasks(ifaces, dates);
    var i, j := MarketWideTaskAt(ifaces, dates, k);
    iface, d := ifaces[i], dates[j];
    ValuesSpec(cfgs);
    assert iface in ifaces;
    FullManifestAt(cfgs, calendar, start, end, rawDir, hash, k);
    EnrichedDateTask(iface.id, d, cfgs, rawDir, hash);
  }

  lemma FullManifestAt(cfgs: seq<InterfaceConfig>, calendar: Option<seq<string>>, start: string, end: string,
                       rawDir: string, hash: string -> string, k: nat)
    requires k < |FullManifest(cfgs, calendar, start, end, rawDir, hash)|
    ensures calendar.Some?
    ensures var tasks := MarketWideTasks(Values(cfgs), Assemble.CalendarSlice(calendar.value, start, end));
            k < |tasks| && FullManifest(cfgs, calendar, start, end, rawDir, hash)[k] == Enriched(tasks[k], cfgs, rawDir, hash)
  {
  }

  lemma MarketWideTasksStep(ifaces: seq<InterfaceConfig>, dates: seq<string>, i: nat)
    requires i < |ifaces|
    ensures MarketWideTasks(ifaces[..i + 1], dates) ==
            MarketWideTasks(ifaces[..i], dates) + (if ifaces[i].scope == MarketWide then DateTasks(ifaces[i].id, dates) else [])
  {
    assert ifaces[..i + 1][..i] == ifaces[..i];
  }

  lemma DateTasksStep(id: string, dates: seq<string>, j: nat)
    requires j < |dates|
    ensures DateTasks(id, dates[..j + 1]) == DateTasks(id, dates[..j]) + [DateTask(id, dates[j])]
  {
  }

  /** The two nested loops of `create_full_manifest`: interfaces in order, and for each
      market-wide one its trade dates in order. */
  method MarketWideTaskList(ifaces: seq<InterfaceConfig>, dates: seq<string>) returns (tasks: seq<Task>)
    ensures tasks == MarketWideTasks(ifaces, dates)
  {
    tasks := [];
    var i := 0;
    while i < |ifaces|
      invariant 0 <= i <= |ifaces|
      invariant tasks == MarketWideTasks(ifaces[..i], dates)
    {
      var iface := ifaces[i];
      MarketWideTasksStep(ifaces, dates, i);
      if iface.scope == MarketWide {
        ghost var before := tasks;
        var j := 0;
        while j < |dates|
          invariant 0 <= j <= |dates|
          invariant tasks == before + DateTasks(iface.id, dates[..j])
        {
          var paramDate := RemoveChar(dates[j], '-');
          if Contains(iface.id, "stock_sse_deal_daily") || Contains(iface.id, "stock_notice_report") {
            paramDate := dates[j];
          }
          var task := map["interface_id" := Text(iface.id), "params" := ParamsField([("date", paramDate)])];
          assert task == DateTask(iface.id, dates[j]);
          DateTasksStep(iface.id, dates, j);
          tasks := tasks + [task];
          j := j + 1;
        }
        assert dates[..j] == dates;
      }
      i := i + 1;
    }
    assert ifaces[..i] == ifaces;
  }

  /** `create_full_manifest`: the nested loops over the configured interfaces and the trade
      dates in range, then the enrichment. */
  method CreateFullManifest(cfgs: seq<InterfaceConfig>, calendar: Option<seq<string>>, start: string, end: string,
                            rawDir: string, hash: string -> string) returns (manifest: seq<Task>)
    ensures manifest == FullManifest(cfgs, calendar, start, end, rawDir, hash)
  {
    if calendar.None? {
      return [];
    }
    var dates := Assemble.CalendarSlice(calendar.value, start, end);
    var tasks := MarketWideTaskList(Values(cfgs), dates);
    if tasks == [] {
      return [];
    }
    manifest := EnrichAll(tasks, cfgs, rawDir, hash);
  }

  // ---------------------------------------------------------------------------------------
  // The smoke-test manifest
  // ---------------------------------------------------------------------------------------

  const PriceInterface := "stock_zh_a_hist"
  const CalendarInterface := "tool_trade_date_hist_sina"

  /** `None.format(...)` or `os.path.join(..., None)`: the interface has no `bootstrap_source`. */
  datatype ManifestError = MissingBootstrapSource(id: string)

  /** `bootstrap_source.format(ticker=t)` for a pattern whose only field is `{ticker}`. */
  function FormatTicker(pattern: string, t: string): string
  {
    ReplaceAll(pattern, "{ticker}", t)
  }

  /** The replay task of one smoke ticker. */
  function PriceTask(rawDir: string, bootstrap: string, ticker: string): (t: Task)
    ensures Enrichable(t) && InterfaceIdOf(t) == PriceInterface && ParamsOf(t) == []
  {
    map["interface_id" := Text(PriceInterface), "ticker" := Text(ticker), "scope" := Text("smoke_test_price_hist"),
        "replay_path" := Text(PathJoin(PathJoin(rawDir, "bootstrap"), FormatTicker(bootstrap, RemoveChar(ticker, '.'))))]
  }

  /** The replay task of the trading calendar. */
  function CalendarTask(rawDir: string, bootstrap: string): (t: Task)
    ensures Enrichable(t) && InterfaceIdOf(t) == CalendarInterface && ParamsOf(t) == []
  {
    map["interface_id" := Text(CalendarInterface), "ticker" := NoValue, "scope" := Text("market_wide_calendar"),
        "replay_path" := Text(PathJoin(PathJoin(rawDir, "bootstrap"), bootstrap))]
  }

  /** The price tasks: none without a price configuration, one per smoke ticker otherwise. */
  function PriceTasks(cfgs: seq<InterfaceConfig>, tickers: seq<string>, rawDir: string): (r: Result<seq<Task>, ManifestError>)
    ensures r.Ok? ==> forall k :: 0 <= k < |r.value| ==> Enrichable(r.value[k])
  {
    match Lookup(cfgs, PriceInterface)
    case None => Ok([])
    case Some(cfg) =>
      if tickers == [] then Ok([])
      else if cfg.bootstrapSource.None? then Err(MissingBootstrapSource(PriceInterface))
      else Ok(seq(|tickers|, k requires 0 <= k < |tickers| => PriceTask(rawDir, cfg.bootstrapSource.value, tickers[k])))
  }

  /** With a configured price interface and its bootstrap source, price task `k` is the replay
      task of ticker `k`. */
  lemma PriceTasksAt(cfgs: seq<InterfaceConfig>, tickers: seq<string>, rawDir: string)
    requires Lookup(cfgs, PriceInterface).Some? && Lookup(cfgs, PriceInterface).value.bootstrapSource.Some?
    ensures var src := Lookup(cfgs, PriceInterface).value.bootstrapSource.value;
            var r := PriceTasks(cfgs, tickers, rawDir);
            && r.Ok? && |r.value| == |tickers|
            && forall k :: 0 <= k < |tickers| ==> r.value[k] == PriceTask(rawDir, src, tickers[k])
  {
  }

  /** The calendar task, when the calendar interface is configured. */
  function CalendarTasks(cfgs: seq<InterfaceConfig>, rawDir: string): (r: Result<seq<Task>, ManifestError>)
    ensures r.Ok? ==> forall k :: 0 <= k < |r.value| ==> Enrichable(r.value[k])
  {
    match Lookup(cfgs, CalendarInterface)
    case None => Ok([])
    case Some(cfg) =>
      if cfg.bootstrapSource.None? then Err(MissingBootstrapSource(CalendarInterface))
      else Ok([CalendarTask(rawDir, cfg.bootstrapSource.value)])
  }

  /** `create_smoke_test_manifest`: the price tasks, then the calendar task, all enriched. */
  function SmokeManifest(cfgs: seq<InterfaceConfig>, tickers: seq<string>, rawDir: string, hash: string -> string): Result<seq<Task>, ManifestError>
  {
    match PriceTasks(cfgs, tickers, rawDir)
    case Err(e) => Err(e)
    case Ok(prices) =>
      match CalendarTasks(cfgs, rawDir)
      case Err(e) => Err(e)
      case Ok(cal) =>
        var tasks := prices + cal;
        assert forall k :: 0 <= k < |tasks| ==> tasks[k] == if k < |prices| then prices[k] else cal[k - |prices|];
        Ok(EnrichedAll(tasks, cfgs, rawDir, hash))
  }

  /** The price tasks fail exactly when the price interface is configured, there is a smoke
      ticker and no bootstrap source; otherwise there is one task per ticker, in ticker order,
      none of them with a status yet. */
  lemma PriceTasksSpec(cfgs: seq<InterfaceConfig>, tickers: seq<string>, rawDir: string)
    ensures var r := PriceTasks(cfgs, tickers, rawDir);
            var price := Lookup(cfgs, PriceInterface);
            && (r.Err? <==> price.Some? && tickers != [] && price.value.bootstrapSource.None?)
            && (r.Ok? ==>
                  && |r.value| == (if price.Some? then |tickers| else 0)
                  && forall k :: 0 <= k < |r.value| ==>
                       && InterfaceIdOf(r.value[k]) == PriceInterface && ParamsOf(r.value[k]) == []
                       && r.value[k]["ticker"] == Text(tickers[k]) && "status" !in r.value[k])
  {
  }

  /** The calendar task list fails exactly when the calendar interface is configured with no
      bootstrap source; otherwise it holds one market-wide task when the interface is configured. */
  lemma CalendarTasksSpec(cfgs: seq<InterfaceConfig>, rawDir: string)
    ensures var r := CalendarTasks(cfgs, rawDir);
            var cal := Lookup(cfgs, CalendarInterface);
            && (r.Err? <==> cal.Some? && cal.value.bootstrapSource.None?)
            && (r.Ok? ==>
                  && |r.value| == (if cal.Some? then 1 else 0)
                  && forall k :: 0 <= k < |r.value| ==>
                       && InterfaceIdOf(r.value[k]) == CalendarInterface && ParamsOf(r.value[k]) == []
                       && r.value[k]["ticker"] == NoValue && "status" !in r.value[k])
  {
  }

  /** Enriching a replay task (no params, no status) gives it status `pending`, the `static`
      date partition and keeps its interface and ticker. */
  lemma EnrichedReplayTask(t: Task, cfgs: seq<InterfaceConfig>, rawDir: string, hash: string -> string)
    requires Enrichable(t) && ParamsOf(t) == [] && "status" !in t && "ticker" in t
    ensures var r := Enriched(t, cfgs, rawDir, hash);
            var id := InterfaceIdOf(t);
            && r["status"] == Text("pending") && r["ticker"] == t["ticker"] && r["interface_id"] == t["interface_id"]
            && r["output_path"] == Text(OutputPath(rawDir, SourceDomain(cfgs, id), id, "static", TaskId(hash, id, [])))
  {
    EnrichedSpec(t, cfgs, rawDir, hash);
    assert ParamGet(ParamsOf(t), "date").None?;
  }

  /** Entry `k` of a smoke manifest: a pending price task for ticker `k`, or after the price
      tasks the calendar task, with the `static` date partition. */
  lemma SmokeEntry(cfgs: seq<InterfaceConfig>, tickers: seq<string>, rawDir: string, hash: string -> string, k: nat)
    requires SmokeManifest(cfgs, tickers, rawDir, hash).Ok? && k < |SmokeManifest(cfgs, tickers, rawDir, hash).value|
    ensures var e := SmokeManifest(cfgs, tickers, rawDir, hash).value[k];
            var nPrice := if Lookup(cfgs, PriceInterface).Some? then |tickers| else 0;
            var id := if k < nPrice then PriceInterface else CalendarInterface;
            && "status" in e && e["status"] == Text("pending")
            && "ticker" in e && e["ticker"] == (if k < nPrice then Text(tickers[k]) else NoValue)
            && "interface_id" in e && e["interface_id"] == Text(id)
            && "output_path" in e && e["output_path"] == Text(OutputPath(rawDir, SourceDomain(cfgs, id), id, "static", TaskId(hash, id, [])))
  {
    SmokeManifestAt(cfgs, tickers, rawDir, hash, k);
    SmokeTaskAt(cfgs, tickers, rawDir, k);
    var tasks := PriceTasks(cfgs, tickers, rawDir).value + CalendarTasks(cfgs, rawDir).value;
    EnrichedReplayTask(tasks[k], cfgs, rawDir, hash);
  }

  /** Task `k` before enrichment: a replay task of the price interface for ticker `k`, or
      after the price tasks the calendar task. */
  lemma SmokeTaskAt(cfgs: seq<InterfaceConfig>, tickers: seq<string>, rawDir: string, k: nat)
    requires PriceTasks(cfgs, tickers, rawDir).Ok? && CalendarTasks(cfgs, rawDir).Ok?
    requires k < |PriceTasks(cfgs, tickers, rawDir).value + CalendarTasks(cfgs, rawDir).value|
    ensures var t := (PriceTasks(cfgs, tickers, rawDir).value + CalendarTasks(cfgs, rawDir).value)[k];
            var nPrice := if Lookup(cfgs, PriceInterface).Some? then |tickers| else 0;
            && Enrichable(t) && ParamsOf(t) == [] && "status" !in t
            && InterfaceIdOf(t) == (if k < nPrice then PriceInterface else CalendarInterface)
            && "ticker" in t && t["ticker"] == (if k < nPrice then Text(tickers[k]) else NoValue)
  {
    PriceTasksSpec(cfgs, tickers, rawDir);
    CalendarTasksSpec(cfgs, rawDir);
    var prices := PriceTasks(cfgs, tickers, rawDir).value;
    var calT := CalendarTasks(cfgs, rawDir).value;
    assert (prices + calT)[k] == if k < |prices| then prices[k] else calT[k - |prices|];
  }

  lemma SmokeManifestAt(cfgs: seq<InterfaceConfig>, tickers: seq<string>, rawDir: string, hash: string -> string, k: nat)
    requires SmokeManifest(cfgs, tickers, rawDir, hash).Ok? && k < |SmokeManifest(cfgs, tickers, rawDir, hash).value|
    ensures PriceTasks(cfgs, tickers, rawDir).Ok? && CalendarTasks(cfgs, rawDir).Ok?
    ensures var tasks := PriceTasks(cfgs, tickers, rawDir).value + CalendarTasks(cfgs, rawDir).value;
            k < |tasks| && SmokeManifest(cfgs, tickers, rawDir, hash).value[k] == Enriched(tasks[k], cfgs, rawDir, hash)
  {
  }

  /** The smoke manifest holds one price task per smoke ticker when the price interface is
      configured, then one calendar task when the calendar interface is; it fails exactly when
      a used interface has no bootstrap source. */
  lemma SmokeManifestSpec(cfgs: seq<InterfaceConfig>, tickers: seq<string>, rawDir: string, hash: string -> string)
    ensures var r := SmokeManifest(cfgs, tickers, rawDir, hash);
            var price := Lookup(cfgs, PriceInterface);
            var cal := Lookup(cfgs, CalendarInterface);
            && (r.Err? <==>
                  (price.Some? && tickers != [] && price.value.bootstrapSource.None?) ||
                  (cal.Some? && cal.value.bootstrapSource.None?))
            && (r.Ok? ==> |r.value| == (if price.Some? then |tickers| else 0) + (if cal.Some? then 1 else 0))
  {
    PriceTasksSpec(cfgs, tickers, rawDir);
    CalendarTasksSpec(cfgs, rawDir);
  }

  /** The price loop of `create_smoke_test_manifest`: one replay task per smoke ticker. */
  method PriceTaskList(cfgs: seq<InterfaceConfig>, tickers: seq<string>, rawDir: string)
    returns (r: Result<seq<Task>, ManifestError>)
    ensures r == PriceTasks(cfgs, tickers, rawDir)
  {
    var tasks: seq<Task> := [];
    var priceConfig := Lookup(cfgs, PriceInterface);
    if priceConfig.Some? {
      var k := 0;
      while k < |tickers|
        invariant 0 <= k <= |tickers|
        invariant |tasks| == k
        invariant k > 0 ==> priceConfig.value.bootstrapSource.Some?
        invariant forall j :: 0 <= j < k ==> tasks[j] == PriceTask(rawDir, priceConfig.value.bootstrapSource.value, tickers[j])
      {
        if priceConfig.value.bootstrapSource.None? {
          return Err(MissingBootstrapSource(PriceInterface));
        }
        var src := priceConfig.value.bootstrapSource.value;
        var path := PathJoin(PathJoin(rawDir, "bootstrap"), FormatTicker(src, RemoveChar(tickers[k], '.')));
        var t := map["interface_id" := Text(PriceInterface), "ticker" := Text(tickers[k]),
                     "scope" := Text("smoke_test_price_hist"), "replay_path" := Text(path)];
        assert t == PriceTask(rawDir, src, tickers[k]);
        tasks := tasks + [t];
        k := k + 1;
      }
      if tickers != [] {
        PriceTasksAt(cfgs, tickers, rawDir);
        assert tasks == PriceTasks(cfgs, tickers, rawDir).value;
      }
    }
    return Ok(tasks);
  }

  /** `create_smoke_test_manifest`: the price loop, the calendar task, then the enrichment. */
  method CreateSmokeTestManifest(cfgs: seq<InterfaceConfig>, tickers: seq<string>, rawDir: string, hash: string -> string)
    returns (r: Result<seq<Task>, ManifestError>)
    ensures r == SmokeManifest(cfgs, tickers, rawDir, hash)
  {
    var priceTasks := PriceTaskList(cfgs, tickers, rawDir);
    if priceTasks.Err? {
      return Err(priceTasks.error);
    }
    var tasks := priceTasks.value;
    ghost var prices := tasks;
    var calendarConfig := Lookup(cfgs, CalendarInterface);
    if calendarConfig.Some? {
      if calendarConfig.value.bootstrapSource.None? {
        return Err(MissingBootstrapSource(CalendarInterface));
      }
      tasks := tasks + [CalendarTask(rawDir, calendarConfig.value.bootstrapSource.value)];
    }
    ghost var cal := tasks[|prices|..];
    assert tasks == prices + cal;
    assert CalendarTasks(cfgs, rawDir) == Ok(cal);
    assert forall k :: 0 <= k < |tasks| ==> Enrichable(tasks[k]);
    var enriched := EnrichAll(tasks, cfgs, rawDir, hash);
    r := Ok(enriched);
  }
}
