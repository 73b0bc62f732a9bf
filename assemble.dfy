/** The point-in-time assembler: the (ticker, date) base grid and the per-source joins that fold
    every silver table onto it, exact for daily and static sources, backward as-of otherwise. */
module Assemble {
  import opened Wrappers
  import opened Strings
  import opened Seqs
  import opened Sorting
  import opened Frames
  import opened Config
  import Dates2024

  // ---------------------------------------------------------------------------------------
  // Base grid
  // ---------------------------------------------------------------------------------------

  /** Exchange policy: a code whose stripped text starts with `6` is a Shanghai listing,
      every other code a Shenzhen one. */
  function Exchange(code: string): string
  {
    if StartsWith(Strip(code), "6") then "SH" else "SZ"
  }

  /** The ticker of a universe code: the stripped code, a dot, and the exchange. */
  function TickerOf(code: string): string
  {
    Strip(code) + "." + Exchange(code)
  }

  /** Two codes give the same ticker only when their stripped codes are equal: both exchange
      suffixes are three characters long, so the stripped code is the ticker without them. */
  lemma TickerOfInjective(a: string, b: string)
    ensures TickerOf(a) == TickerOf(b) ==> Strip(a) == Strip(b)
  {
    if TickerOf(a) == TickerOf(b) {
      var sa, sb := Strip(a), Strip(b);
      var xa, xb := "." + Exchange(a), "." + Exchange(b);
      assert |xa| == 3 && |xb| == 3;
      DottedSuffix(sa, Exchange(a));
      DottedSuffix(sb, Exchange(b));
      PrefixOfJoin(sa, xa);
      PrefixOfJoin(sb, xb);
      assert sa + xa == sb + xb;
    }
  }

  /** A text is the prefix of its own length of any text that extends it. */
  lemma PrefixOfJoin(s: string, x: string)
    ensures |s + x| == |s| + |x| && (s + x)[..|s|] == s
  {
  }

  lemma TickerOfSpec(code: string)
    ensures StartsWith(Strip(code), "6") ==> TickerOf(code) == Strip(code) + ".SH"
    ensures !StartsWith(Strip(code), "6") ==> TickerOf(code) == Strip(code) + ".SZ"
    ensures StartsWith(TickerOf(code), Strip(code))
  {
    DottedSuffix(Strip(code), Exchange(code));
  }

  /** A text, a dot and a suffix: the text with `.` and the suffix appended, starting with the
      text. */
  lemma DottedSuffix(s: string, x: string)
    ensures s + "." + x == s + ("." + x) && StartsWith(s + "." + x, s)
  {
    assert (s + "." + x)[..|s|] == s;
  }

  function Tickers(codes: seq<string>): (r: seq<string>)
    ensures |r| == |codes| && forall k :: 0 <= k < |codes| ==> r[k] == TickerOf(codes[k])
  {
    seq(|codes|, k requires 0 <= k < |codes| => TickerOf(codes[k]))
  }

  predicate InRange(d: string, start: string, end: string)
  {
    Le(start, d) && Le(d, end)
  }

  /** `df_calendar[(date >= start) & (date <= end)]['date']`: the calendar's dates inside the
      inclusive range, in file order. */
  function CalendarSlice(dates: seq<string>, start: string, end: string): (r: seq<string>)
    ensures forall d :: d in r <==> d in dates && InRange(d, start, end)
    ensures forall d :: multiset(r)[d] == if InRange(d, start, end) then multiset(dates)[d] else 0
  {
    if dates == [] then []
    else
      assert dates == [dates[0]] + dates[1..];
      (if InRange(dates[0], start, end) then [dates[0]] else []) + CalendarSlice(dates[1..], start, end)
  }

  function PairsWith(t: string, dates: seq<string>): (r: seq<Key>)
    ensures |r| == |dates| && forall k :: 0 <= k < |dates| ==> r[k] == (t, dates[k])
  {
    if dates == [] then [] else [(t, dates[0])] + PairsWith(t, dates[1..])
  }

  /** `[(ticker, date) for ticker in tickers for date in trade_dates]`. */
  function CrossProduct(tickers: seq<string>, dates: seq<string>): seq<Key>
  {
    if tickers == [] then [] else PairsWith(tickers[0], dates) + CrossProduct(tickers[1..], dates)
  }

  function Id(k: Key): Key { k }

  /** The grid's (ticker, date) pairs, or `None` when the universe file or the calendar file is
      missing (the source returns an empty DataFrame then). */
  function BaseGridKeys(universe: Option<seq<string>>, calendar: Option<seq<string>>, start: string, end: string): Option<seq<Key>>
  {
    if universe.None? || calendar.None? then None
    else Some(GridKeys(universe.value, calendar.value, start, end))
  }

  /** The grid's pairs when both files are present: the cross product of the tickers and the
      in-range calendar dates, sorted by (ticker, date). */
  function GridKeys(universe: seq<string>, calendar: seq<string>, start: string, end: string): seq<Key>
  {
    SortBy(CrossProduct(Tickers(universe), CalendarSlice(calendar, start, end)), Id)
  }

  function GridRow(k: Key): Row
  {
    map["ticker" := Some(Str(k.0)), "date" := Some(Str(k.1))]
  }

  lemma GridRowCells(k: Key)
    ensures KeyOf(GridRow(k)) == (Some(Str(k.0)), Some(Str(k.1))) && DateOf(GridRow(k)) == Some(k.1)
  {
    assert "ticker" != "date" by {
      assert "ticker"[0] != "date"[0];
    }
  }

  /** `_get_base_grid`: a two-column frame, or the column-less empty frame on a missing file. */
  function BaseGrid(universe: Option<seq<string>>, calendar: Option<seq<string>>, start: string, end: string): Frame
  {
    match BaseGridKeys(universe, calendar, start, end)
    case None => Frame([], [])
    case Some(keys) => Frame(["ticker", "date"], seq(|keys|, i requires 0 <= i < |keys| => GridRow(keys[i])))
  }

  lemma {:induction false} PairsWithCount(t: string, dates: seq<string>, p: Key)
    ensures multiset(PairsWith(t, dates))[p] == if p.0 == t then multiset(dates)[p.1] else 0
  {
    if dates != [] {
      PairsWithCount(t, dates[1..], p);
      assert PairsWith(t, dates) == [(t, dates[0])] + PairsWith(t, dates[1..]);
      assert dates == [dates[0]] + dates[1..];
    }
  }

  lemma MulSucc(a: nat, n: nat)
    ensures (a + 1) * n == a * n + n
  {
  }

  lemma {:induction false} CrossProductLength(tickers: seq<string>, dates: seq<string>)
    ensures |CrossProduct(tickers, dates)| == |tickers| * |dates|
  {
    if tickers != [] {
      CrossProductLength(tickers[1..], dates);
      MulSucc(|tickers| - 1, |dates|);
    }
  }

  lemma CountStep(head: seq<Key>, tail: seq<Key>, p: Key, a: nat, n: nat, isHead: bool)
    requires multiset(head)[p] == if isHead then n else 0
    requires multiset(tail)[p] == a * n
    ensures multiset(head + tail)[p] == (if isHead then a + 1 else a) * n
  {
    assert multiset(head + tail) == multiset(head) + multiset(tail);
    if isHead {
      MulSucc(a, n);
    }
  }

  /** Counting in a non-empty list: the head, plus the rest. */
  lemma HeadCount(s: seq<string>, x: string)
    requires s != []
    ensures multiset(s)[x] == multiset(s[1..])[x] + if s[0] == x then 1 else 0
  {
    assert s == [s[0]] + s[1..];
    assert multiset(s) == multiset{s[0]} + multiset(s[1..]);
  }

  /** The cross product holds each pair as often as the ticker and the date occur in their lists. */
  lemma {:induction false} CrossProductCount(tickers: seq<string>, dates: seq<string>, p: Key)
    ensures multiset(CrossProduct(tickers, dates))[p] == multiset(tickers)[p.0] * multiset(dates)[p.1]
  {
    if tickers != [] {
      var t, rest := tickers[0], tickers[1..];
      var a, n := multiset(rest)[p.0], multiset(dates)[p.1];
      CrossProductCount(rest, dates, p);
      PairsWithCount(t, dates, p);
      CountStep(PairsWith(t, dates), CrossProduct(rest, dates), p, a, n, p.0 == t);
      HeadCount(tickers, p.0);
    }
  }

  /** The grid's keys are sorted by (ticker, date) and number |tickers| times |slice|. */
  lemma BaseGridSorted(universe: seq<string>, calendar: seq<string>, start: string, end: string)
    ensures var keys := GridKeys(universe, calendar, start, end);
            && SortedBy(keys, Id)
            && |keys| == |Tickers(universe)| * |CalendarSlice(calendar, start, end)|
  {
    var cross := CrossProduct(Tickers(universe), CalendarSlice(calendar, start, end));
    SortBySpec(cross, Id);
    CrossProductLength(Tickers(universe), CalendarSlice(calendar, start, end));
  }

  /** How often `d` is a calendar date inside the range. */
  function RangeCount(calendar: seq<string>, start: string, end: string, d: string): nat
  {
    if InRange(d, start, end) then multiset(calendar)[d] else 0
  }

  /** Each (ticker, date) pair occurs in the grid as often as its ticker in the universe times
      its date in the calendar, and not at all when the date is out of range. */
  lemma BaseGridCount(universe: seq<string>, calendar: seq<string>, start: string, end: string, p: Key)
    ensures multiset(GridKeys(universe, calendar, start, end))[p] ==
            multiset(Tickers(universe))[p.0] * RangeCount(calendar, start, end, p.1)
  {
    var slice := CalendarSlice(calendar, start, end);
    var cross := CrossProduct(Tickers(universe), slice);
    SortBySpec(cross, Id);
    CrossProductCount(Tickers(universe), slice, p);
    var b := RangeCount(calendar, start, end, p.1);
    assert multiset(slice)[p.1] == b;
    assert multiset(cross)[p] == multiset(Tickers(universe))[p.0] * b;
    var keys := GridKeys(universe, calendar, start, end);
    assert keys == SortBy(cross, Id);
    assert multiset(keys)[p] == multiset(cross)[p];
  }

  lemma MulPositive(a: nat, b: nat)
    ensures a * b > 0 <==> a > 0 && b > 0
  {
  }

  /** A pair is in the grid exactly when its ticker comes from the universe and its date is an
      in-range calendar date. */
  lemma BaseGridMembers(universe: seq<string>, calendar: seq<string>, start: string, end: string, p: Key)
    ensures p in GridKeys(universe, calendar, start, end) <==>
            p.0 in Tickers(universe) && p.1 in calendar && InRange(p.1, start, end)
  {
    var keys := GridKeys(universe, calendar, start, end);
    BaseGridCount(universe, calendar, start, end, p);
    var a := multiset(Tickers(universe))[p.0];
    var b := RangeCount(calendar, start, end, p.1);
    MulPositive(a, b);
    assert p in keys <==> multiset(keys)[p] > 0;
  }

  /** With no repeated code and no repeated date, no (ticker, date) pair repeats. */
  lemma BaseGridUnique(universe: seq<string>, calendar: seq<string>, start: string, end: string)
    requires NoDup(Tickers(universe)) && NoDup(calendar)
    ensures NoDup(GridKeys(universe, calendar, start, end))
  {
    var keys := GridKeys(universe, calendar, start, end);
    forall i, j | 0 <= i < j < |keys| ensures keys[i] != keys[j] {
      if keys[i] == keys[j] {
        TwoOccurrences(keys, i, j);
        GridPairAtMostOnce(universe, calendar, start, end, keys[i]);
      }
    }
  }
  /** Universe codes that differ once stripped give a grid in which no (ticker, date) pair
      repeats, for a calendar without repeated dates. */
  lemma BaseGridUniqueCodes(universe: seq<string>, calendar: seq<string>, start: string, end: string)
    requires forall i, j :: 0 <= i < j < |universe| ==> Strip(universe[i]) != Strip(universe[j])
    requires NoDup(calendar)
    ensures NoDup(GridKeys(universe, calendar, start, end))
  {
    var ts := Tickers(universe);
    forall i, j | 0 <= i < j < |ts| ensures ts[i] != ts[j] {
      TickerOfInjective(universe[i], universe[j]);
    }
    BaseGridUnique(universe, calendar, start, end);
  }


  lemma GridPairAtMostOnce(universe: seq<string>, calendar: seq<string>, start: string, end: string, p: Key)
    requires NoDup(Tickers(universe)) && NoDup(calendar)
    ensures multiset(GridKeys(universe, calendar, start, end))[p] <= 1
  {
    BaseGridCount(universe, calendar, start, end, p);
    NoDupCount(Tickers(universe), p.0);
    NoDupCount(calendar, p.1);
    MulAtMostOne(multiset(Tickers(universe))[p.0], RangeCount(calendar, start, end, p.1));
  }

  lemma MulAtMostOne(a: nat, b: nat)
    requires a <= 1 && b <= 1
    ensures a * b <= 1
  {
  }

  /** A missing universe or calendar file gives the empty grid, as does an empty range. */
  lemma BaseGridEmpty(universe: Option<seq<string>>, calendar: Option<seq<string>>, start: string, end: string)
    ensures universe.None? || calendar.None? ==> BaseGrid(universe, calendar, start, end) == Frame([], [])
    ensures universe.Some? && calendar.Some? ==>
              (IsEmpty(BaseGrid(universe, calendar, start, end)) <==>
               |universe.value| == 0 || |CalendarSlice(calendar.value, start, end)| == 0)
  {
    if universe.Some? && calendar.Some? {
      GridSize(universe.value, calendar.value, start, end);
      MulPositive(|universe.value|, |CalendarSlice(calendar.value, start, end)|);
    }
  }

  lemma GridSize(universe: seq<string>, calendar: seq<string>, start: string, end: string)
    ensures |BaseGrid(Some(universe), Some(calendar), start, end).rows| == |universe| * |CalendarSlice(calendar, start, end)|
  {
    BaseGridSorted(universe, calendar, start, end);
  }

  // ---------------------------------------------------------------------------------------
  // Preparing one silver table for its join
  // ---------------------------------------------------------------------------------------

  /** One entry of `silver_data_paths`: the interface id and the table read from its path
      (`None` when `read_parquet` raises). */
  datatype Source = Source(id: string, data: Option<Frame>)

  /** Why a source leaves the gold table untouched. */
  datatype SkipReason = UnknownInterface | ReadFailed | EmptySource | NoDateColumn | DateParseFailed | MergeFailed

  /** `RuntimeError("Base grid could not be created. Halting assembly.")`. */
  datatype AssemblyError = BaseGridUnavailable

  /** A date cell `pd.to_datetime` accepts: text or null (NaT). */
  predicate DateCellOk(c: Cell)
  {
    c.None? || c.value.Str?
  }

  predicate DatesConvertible(f: Frame)
  {
    forall i :: 0 <= i < |f.rows| ==> DateCellOk(Get(f.rows[i], "date"))
  }

  /** The join-key preparation: `effective_date`, when present, replaces `date`; a table that
      then has no `date` column is skipped, and so is one whose dates cannot be converted. */
  function PrepareKey(f: Frame): Result<Frame, SkipReason>
  {
    var g := if "effective_date" in f.columns
             then Rename(DropColumn(f, "date"), map["effective_date" := "date"])
             else f;
    if "date" !in g.columns then Err(NoDateColumn)
    else if !DatesConvertible(g) then Err(DateParseFailed)
    else Ok(g)
  }

  /** `drop(columns=['date'])` then `rename(columns={'effective_date': 'date'})`: the table's
      `date` column now holds the `effective_date` cells, and no `effective_date` column is left. */
  lemma PreferEffectiveDate(f: Frame)
    requires "effective_date" in f.columns
    ensures var g := Rename(DropColumn(f, "date"), map["effective_date" := "date"]);
            && "date" in g.columns && "effective_date" !in g.columns && |g.rows| == |f.rows|
            && forall i :: 0 <= i < |f.rows| ==> Get(g.rows[i], "date") == Get(f.rows[i], "effective_date")
  {
    var d := DropColumn(f, "date");
    assert "effective_date" in d.columns;
    RenameOneColumn(d, "effective_date", "date");
  }

  /** A prepared table keys on `date`, holds no `effective_date` column, keeps its rows, and
      its dates are those of `effective_date` when the table had one, else those of `date`; a
      table with neither column is skipped. */
  lemma PrepareKeySpec(f: Frame)
    ensures "effective_date" !in f.columns && "date" !in f.columns <==> PrepareKey(f) == Err(NoDateColumn)
    ensures PrepareKey(f).Ok? ==>
              var g := PrepareKey(f).value;
              && "date" in g.columns && "effective_date" !in g.columns && |g.rows| == |f.rows|
              && DatesConvertible(g)
              && (forall i :: 0 <= i < |f.rows| ==>
                    Get(g.rows[i], "date") == Get(f.rows[i], if "effective_date" in f.columns then "effective_date" else "date"))
  {
    if "effective_date" in f.columns {
      PreferEffectiveDate(f);
    }
  }

  /** `['ticker', 'date'] if 'ticker' in df_silver.columns else ['date']`. */
  function JoinKeys(f: Frame): (keys: seq<Column>)
    ensures "date" in keys && ("ticker" in keys <==> "ticker" in f.columns)
    ensures forall k :: k in keys ==> k == "ticker" || k == "date"
  {
    if "ticker" in f.columns then ["ticker", "date"] else ["date"]
  }

  /** The name a silver column takes in the gold table: `feat_{c}_{id}` for an exact join,
      `{c}_{id}` for an as-of join. */
  function FeatureName(prefix: string, c: Column, id: string): Column
  {
    prefix + c + "_" + id
  }

  /** `{c: FeatureName(c) for c in df_silver.columns if c not in join_keys}`. */
  function FeatureMap(cols: seq<Column>, keys: seq<Column>, prefix: string, id: string): map<Column, Column>
  {
    map c | c in cols && c !in keys :: FeatureName(prefix, c, id)
  }

  /** Feature names never collide with each other, and never with a join key. */
  lemma FeatureNameInjective(prefix: string, c1: Column, c2: Column, id: string)
    ensures FeatureName(prefix, c1, id) == FeatureName(prefix, c2, id) ==> c1 == c2
    ensures FeatureName(prefix, c1, id) != "ticker" && FeatureName(prefix, c1, id) != "date"
  {
    var n1 := FeatureName(prefix, c1, id);
    var n2 := FeatureName(prefix, c2, id);
    if n1 == n2 {
      assert |c1| == |c2|;
      assert c1 == n1[|prefix|..|prefix| + |c1|];
      assert c2 == n2[|prefix|..|prefix| + |c2|];
    }
    assert n1[|prefix| + |c1|] == '_';
    assert "ticker"[0] != '_' && "ticker"[1] != '_' && "ticker"[2] != '_' && "ticker"[3] != '_' && "ticker"[4] != '_' && "ticker"[5] != '_';
  }

  lemma FeatureMapInjective(cols: seq<Column>, keys: seq<Column>, prefix: string, id: string)
    requires forall k :: k in keys ==> k == "ticker" || k == "date"
    ensures InjectiveOn(FeatureMap(cols, keys, prefix, id), cols)
  {
    var m := FeatureMap(cols, keys, prefix, id);
    forall i, j | 0 <= i < |cols| && 0 <= j < |cols| && cols[i] != cols[j]
      ensures Renamed(m, cols[i]) != Renamed(m, cols[j])
    {
      FeatureNameInjective(prefix, cols[i], cols[j], id);
      FeatureNameInjective(prefix, cols[j], cols[i], id);
    }
  }

  /** After renaming, a key column still holds the key, and a non-key column's cells are found
      under its feature name, which is one of the renamed table's non-key columns. */
  lemma FeatureCells(r: Row, cols: seq<Column>, keys: seq<Column>, prefix: string, id: string)
    requires forall k :: k in keys ==> k == "ticker" || k == "date"
    requires forall k :: k in keys ==> k in cols
    ensures var m := FeatureMap(cols, keys, prefix, id);
            var rr := RenameRow(r, cols, m);
            && (forall k :: k in keys ==> Get(rr, k) == Get(r, k))
            && (forall c :: c in cols && c !in keys ==>
                  && Get(rr, FeatureName(prefix, c, id)) == Get(r, c)
                  && FeatureName(prefix, c, id) in NonKeyColumns(RenameColumns(cols, m), keys))
  {
    var m := FeatureMap(cols, keys, prefix, id);
    FeatureMapInjective(cols, keys, prefix, id);
    forall k | k in keys ensures Get(RenameRow(r, cols, m), k) == Get(r, k) {
      var j :| 0 <= j < |cols| && cols[j] == k;
      RenameRowKeepsCells(r, cols, m, j);
    }
    forall c | c in cols && c !in keys
      ensures Get(RenameRow(r, cols, m), FeatureName(prefix, c, id)) == Get(r, c)
      ensures FeatureName(prefix, c, id) in NonKeyColumns(RenameColumns(cols, m), keys)
    {
      var j :| 0 <= j < |cols| && cols[j] == c;
      RenameRowKeepsCells(r, cols, m, j);
      FeatureNameInjective(prefix, c, c, id);
      assert RenameColumns(cols, m)[j] == FeatureName(prefix, c, id);
    }
  }

  /** The gold columns a join adds: the feature names of the silver table's non-key columns. */
  function JoinedColumns(silver: Frame, prefix: string, id: string): seq<Column>
  {
    var keys := JoinKeys(silver);
    NonKeyColumns(RenameColumns(silver.columns, FeatureMap(silver.columns, keys, prefix, id)), keys)
  }

  /** The added columns are exactly the feature names of the non-key silver columns, so a
      join never adds (or overwrites) `ticker` or `date`. */
  lemma JoinedColumnsSpec(silver: Frame, prefix: string, id: string)
    requires "date" in silver.columns
    ensures forall c :: c in silver.columns && c !in JoinKeys(silver) ==> FeatureName(prefix, c, id) in JoinedColumns(silver, prefix, id)
    ensures forall n :: n in JoinedColumns(silver, prefix, id) ==>
              exists c :: c in silver.columns && c !in JoinKeys(silver) && n == FeatureName(prefix, c, id)
    ensures "ticker" !in JoinedColumns(silver, prefix, id) && "date" !in JoinedColumns(silver, prefix, id)
  {
    var keys := JoinKeys(silver);
    var cols := silver.columns;
    var m := FeatureMap(cols, keys, prefix, id);
    FeatureCells(map[], cols, keys, prefix, id);
    forall n | n in JoinedColumns(silver, prefix, id)
      ensures exists c :: c in cols && c !in keys && n == FeatureName(prefix, c, id)
    {
      var j :| 0 <= j < |cols| && RenameColumns(cols, m)[j] == n;
      assert n !in keys;
      assert cols[j] !in keys;
    }
    forall n | n in JoinedColumns(silver, prefix, id) ensures n != "ticker" && n != "date" {
      var c :| c in cols && c !in keys && n == FeatureName(prefix, c, id);
      FeatureNameInjective(prefix, c, c, id);
    }
  }

  // ---------------------------------------------------------------------------------------
  // Strategy 1: daily and static tables, exact left merge
  // ---------------------------------------------------------------------------------------

  /** `pd.merge(df_gold, df_silver.rename(columns=feat_map), on=join_keys, how='left')`. */
  function ExactJoin(gold: Frame, silver: Frame, id: string): Frame
  {
    var keys := JoinKeys(silver);
    Merge(gold, Rename(silver, FeatureMap(silver.columns, keys, "feat_", id)), keys, true)
  }

  /** Renaming to feature names keeps the join keys, so a renamed row matches exactly when
      the original row does. */
  lemma {:induction false} MatchesRenamed(l: Row, rows: seq<Row>, cols: seq<Column>, keys: seq<Column>, prefix: string, id: string)
    requires forall k :: k in keys ==> k == "ticker" || k == "date"
    requires forall k :: k in keys ==> k in cols
    ensures var m := FeatureMap(cols, keys, prefix, id);
            Matches(l, RenameRows(rows, cols, m), keys) == RenameRows(Matches(l, rows, keys), cols, m)
  {
    var m := FeatureMap(cols, keys, prefix, id);
    if rows != [] {
      MatchesRenamed(l, rows[1..], cols, keys, prefix, id);
      FeatureCells(rows[0], cols, keys, prefix, id);
      assert KeysMatch(l, RenameRow(rows[0], cols, m), keys) <==> KeysMatch(l, rows[0], keys);
      if KeysMatch(l, rows[0], keys) {
        var ms := Matches(l, rows, keys);
        assert ms[1..] == Matches(l, rows[1..], keys);
      }
    }
  }

  /** When the silver table holds at most one row per gold key, the exact join is row-aligned
      with the gold table: gold row `i` keeps its cells, and gains the cells of its matching
      silver row under their `feat_` names, or nulls when no silver row matches. */
  lemma ExactJoinRow(gold: Frame, silver: Frame, id: string, i: nat)
    requires "date" in silver.columns
    requires forall j :: 0 <= j < |gold.rows| ==> |Matches(gold.rows[j], silver.rows, JoinKeys(silver))| <= 1
    requires i < |gold.rows|
    ensures var out := ExactJoin(gold, silver, id);
            var keys := JoinKeys(silver);
            var added := JoinedColumns(silver, "feat_", id);
            var ms := Matches(gold.rows[i], silver.rows, keys);
            && |out.rows| == |gold.rows|
            && out.columns == gold.columns + added
            && (forall c :: c !in added ==> Get(out.rows[i], c) == Get(gold.rows[i], c))
            && (ms == [] ==> forall c :: c in added ==> Get(out.rows[i], c) == None)
            && (ms != [] ==>
                  && ms[0] in silver.rows && KeysMatch(gold.rows[i], ms[0], keys)
                  && forall c :: c in silver.columns && c !in keys ==>
                       Get(out.rows[i], FeatureName("feat_", c, id)) == Get(ms[0], c))
  {
    var keys := JoinKeys(silver);
    var m := FeatureMap(silver.columns, keys, "feat_", id);
    var renamed := Rename(silver, m);
    var added := JoinedColumns(silver, "feat_", id);
    forall j | 0 <= j < |gold.rows| ensures |Matches(gold.rows[j], renamed.rows, keys)| <= 1 {
      MatchesRenamed(gold.rows[j], silver.rows, silver.columns, keys, "feat_", id);
    }
    LeftMergeAligned(gold.rows, renamed.rows, keys, added);
    MatchesRenamed(gold.rows[i], silver.rows, silver.columns, keys, "feat_", id);
    var ms := Matches(gold.rows[i], silver.rows, keys);
    if ms != [] {
      FeatureCells(ms[0], silver.columns, keys, "feat_", id);
    }
  }

  // ---------------------------------------------------------------------------------------
  // Strategy 2: low-frequency tables, backward as-of merge
  // ---------------------------------------------------------------------------------------

  /** The text of a row's `date` cell, when it is a date. */
  function DateOf(r: Row): Option<string>
  {
    match Get(r, "date")
    case Some(Str(d)) => Some(d)
    case _ => None
  }

  /** Every row carries a date: `merge_asof` raises on a null key. */
  predicate AllDated(rows: seq<Row>)
  {
    forall i :: 0 <= i < |rows| ==> DateOf(rows[i]).Some?
  }

  /** The sort key of `df_silver.sort_values(by='date')`. */
  function DateKey(r: Row): Key
  {
    (if DateOf(r).Some? then DateOf(r).value else "", "")
  }

  /** Silver row `s` may feed gold row `g`: it is dated no later than `g` and, when the merge
      goes `by='ticker'`, it is of the same ticker. */
  predicate Eligible(s: Row, g: Row, byTicker: bool)
  {
    && DateOf(s).Some? && DateOf(g).Some? && Le(DateOf(s).value, DateOf(g).value)
    && (byTicker ==> Get(s, "ticker") == Get(g, "ticker"))
  }

  /** The position of the last eligible row, which on date-sorted rows is the backward
      search of `direction='backward'`. */
  function LastEligible(rs: seq<Row>, g: Row, byTicker: bool): (r: Option<nat>)
    ensures r.Some? ==> r.value < |rs| && Eligible(rs[r.value], g, byTicker)
    ensures r.Some? ==> forall j :: r.value < j < |rs| ==> !Eligible(rs[j], g, byTicker)
    ensures r.None? ==> forall j :: 0 <= j < |rs| ==> !Eligible(rs[j], g, byTicker)
    decreases |rs|
  {
    if rs == [] then None
    else if Eligible(rs[|rs| - 1], g, byTicker) then Some(|rs| - 1)
    else LastEligible(rs[..|rs| - 1], g, byTicker)
  }

  /** Each gold row, extended with the feature cells of its last eligible silver row, or with
      nulls. */
  function AsOfRows(gs: seq<Row>, rs: seq<Row>, added: seq<Column>, byTicker: bool): (out: seq<Row>)
    ensures |out| == |gs|
  {
    seq(|gs|, i requires 0 <= i < |gs| =>
      Attach(gs[i], match LastEligible(rs, gs[i], byTicker) case Some(j) => rs[j] case None => map[], added))
  }

  /** The silver rows in date order, with their non-key columns renamed to `{c}_{id}`. */
  function AsOfSide(silver: Frame, id: string): seq<Row>
  {
    var keys := JoinKeys(silver);
    RenameRows(SortBy(silver.rows, DateKey), silver.columns, FeatureMap(silver.columns, keys, "", id))
  }

  /** `pd.merge_asof(df_gold, df_silver, on='date', by=by_key, direction='backward')` on the
      date-sorted, renamed silver table, for a gold table in any row order; a null key on
      either side makes it fail. */
  function AsOfJoin(gold: Frame, silver: Frame, id: string): Result<Frame, SkipReason>
  {
    if !AllDated(gold.rows) || !AllDated(silver.rows) then Err(MergeFailed)
    else
      var added := JoinedColumns(silver, "", id);
      Ok(Frame(gold.columns + added, AsOfRows(gold.rows, AsOfSide(silver, id), added, "ticker" in silver.columns)))
  }

  lemma EligibleRenamed(r: Row, g: Row, silver: Frame, id: string)
    requires "date" in silver.columns
    ensures var m := FeatureMap(silver.columns, JoinKeys(silver), "", id);
            var byT := "ticker" in silver.columns;
            Eligible(RenameRow(r, silver.columns, m), g, byT) <==> Eligible(r, g, byT)
  {
    FeatureCells(r, silver.columns, JoinKeys(silver), "", id);
  }

  /** Among date-sorted rows, the last eligible one is dated no earlier than any eligible row. */
  lemma LastEligibleIsLatest(sorted: seq<Row>, g: Row, byTicker: bool, j: nat, k: nat)
    requires SortedBy(sorted, DateKey)
    requires j < |sorted| && k < |sorted| && Eligible(sorted[k], g, byTicker) && Eligible(sorted[j], g, byTicker)
    requires forall t :: j < t < |sorted| ==> !Eligible(sorted[t], g, byTicker)
    ensures Le(DateOf(sorted[k]).value, DateOf(sorted[j]).value)
  {
    if k < j {
      assert KeyLe(DateKey(sorted[k]), DateKey(sorted[j]));
    } else {
      assert k == j;
    }
  }

  /** The backward search over the renamed, date-sorted silver rows picks the renamed form
      of a silver row that is eligible and dated no earlier than any eligible silver row, and
      picks nothing only when no silver row is eligible. */
  lemma AsOfPick(silver: Frame, id: string, g: Row)
    requires "date" in silver.columns
    ensures var rr := AsOfSide(silver, id);
            var byT := "ticker" in silver.columns;
            var sorted := SortBy(silver.rows, DateKey);
            var m := FeatureMap(silver.columns, JoinKeys(silver), "", id);
            && (LastEligible(rr, g, byT).None? ==> forall s :: s in silver.rows ==> !Eligible(s, g, byT))
            && (LastEligible(rr, g, byT).Some? ==>
                  var j := LastEligible(rr, g, byT).value;
                  && j < |sorted| && rr[j] == RenameRow(sorted[j], silver.columns, m)
                  && sorted[j] in silver.rows && Eligible(sorted[j], g, byT)
                  && forall t :: t in silver.rows && Eligible(t, g, byT) ==>
                       Le(DateOf(t).value, DateOf(sorted[j]).value))
  {
    if LastEligible(AsOfSide(silver, id), g, "ticker" in silver.columns).None? {
      NoPick(silver, id, g);
    } else {
      SomePick(silver, id, g);
    }
  }

  /** The backward search finds nothing only when no silver row is eligible. */
  lemma NoPick(silver: Frame, id: string, g: Row)
    requires "date" in silver.columns && LastEligible(AsOfSide(silver, id), g, "ticker" in silver.columns).None?
    ensures forall s :: s in silver.rows ==> !Eligible(s, g, "ticker" in silver.columns)
  {
    var sorted := SortBy(silver.rows, DateKey);
    SortBySpec(silver.rows, DateKey);
    RenamedEligible(silver, id, g);
    forall s | s in silver.rows ensures !Eligible(s, g, "ticker" in silver.columns) {
      assert s in multiset(sorted);
      var k :| 0 <= k < |sorted| && sorted[k] == s;
    }
  }

  /** What the backward search finds is the renamed form of the latest eligible silver row. */
  lemma SomePick(silver: Frame, id: string, g: Row)
    requires "date" in silver.columns && LastEligible(AsOfSide(silver, id), g, "ticker" in silver.columns).Some?
    ensures var rr := AsOfSide(silver, id);
            var byT := "ticker" in silver.columns;
            var sorted := SortBy(silver.rows, DateKey);
            var m := FeatureMap(silver.columns, JoinKeys(silver), "", id);
            var j := LastEligible(rr, g, byT).value;
            && j < |sorted| && rr[j] == RenameRow(sorted[j], silver.columns, m)
            && sorted[j] in silver.rows && Eligible(sorted[j], g, byT)
            && forall t :: t in silver.rows && Eligible(t, g, byT) ==> Le(DateOf(t).value, DateOf(sorted[j]).value)
  {
    var byT := "ticker" in silver.columns;
    var j := LastEligible(AsOfSide(silver, id), g, byT).value;
    RenamedEligible(silver, id, g);
    LatestPick(silver, g, byT, j);
  }

  /** Renaming keeps eligibility, row by row, on the date-sorted silver rows. */
  lemma RenamedEligible(silver: Frame, id: string, g: Row)
    requires "date" in silver.columns
    ensures var sorted := SortBy(silver.rows, DateKey);
            var rr := AsOfSide(silver, id);
            var byT := "ticker" in silver.columns;
            |rr| == |sorted| &&
            forall k :: 0 <= k < |sorted| ==> (Eligible(rr[k], g, byT) <==> Eligible(sorted[k], g, byT))
  {
    var byT := "ticker" in silver.columns;
    var sorted := SortBy(silver.rows, DateKey);
    var rr := AsOfSide(silver, id);
    SortBySpec(silver.rows, DateKey);
    forall k | 0 <= k < |sorted| ensures Eligible(rr[k], g, byT) <==> Eligible(sorted[k], g, byT) {
      EligibleRenamed(sorted[k], g, silver, id);
    }
  }

  /** The last eligible date-sorted row is a silver row dated no earlier than any eligible one. */
  lemma LatestPick(silver: Frame, g: Row, byT: bool, j: nat)
    requires j < |SortBy(silver.rows, DateKey)|
    requires var sorted := SortBy(silver.rows, DateKey);
             Eligible(sorted[j], g, byT) && forall t :: j < t < |sorted| ==> !Eligible(sorted[t], g, byT)
    ensures var s := SortBy(silver.rows, DateKey)[j];
            && s in silver.rows
            && forall t :: t in silver.rows && Eligible(t, g, byT) ==> Le(DateOf(t).value, DateOf(s).value)
  {
    var sorted := SortBy(silver.rows, DateKey);
    SortBySpec(silver.rows, DateKey);
    var s := sorted[j];
    assert s in multiset(silver.rows);
    forall t | t in silver.rows && Eligible(t, g, byT) ensures Le(DateOf(t).value, DateOf(s).value) {
      assert t in multiset(sorted);
      var k :| 0 <= k < |sorted| && sorted[k] == t;
      LastEligibleIsLatest(sorted, g, byT, j, k);
    }
  }

  /** The point-in-time guarantee. Gold row `i` keeps its cells and either finds no silver row
      dated on or before its date (of its ticker, when the silver table has one), and its
      feature cells are null, or it carries the cells of such a silver row `s` under their
      `{c}_{id}` names, and no eligible silver row is dated later than `s`: no value from
      after the gold row's date ever reaches it. */
  lemma AsOfRowSpec(gold: Frame, silver: Frame, id: string, i: nat)
    requires "date" in silver.columns
    requires AsOfJoin(gold, silver, id).Ok? && i < |gold.rows|
    ensures var out := AsOfJoin(gold, silver, id).value;
            var keys := JoinKeys(silver);
            var byT := "ticker" in silver.columns;
            var added := JoinedColumns(silver, "", id);
            var g := gold.rows[i];
            && |out.rows| == |gold.rows| && out.columns == gold.columns + added
            && (forall c :: c !in added ==> Get(out.rows[i], c) == Get(g, c))
            && ((forall s :: s in silver.rows ==> !Eligible(s, g, byT)) ==>
                  forall c :: c in added ==> Get(out.rows[i], c) == None)
            && ((exists s :: s in silver.rows && Eligible(s, g, byT)) ==>
                  exists s :: && s in silver.rows && Eligible(s, g, byT)
                              && (forall t :: t in silver.rows && Eligible(t, g, byT) ==>
                                    Le(DateOf(t).value, DateOf(s).value))
                              && (forall c :: c in silver.columns && c !in keys ==>
                                    Get(out.rows[i], FeatureName("", c, id)) == Get(s, c)))
  {
    AsOfJoinRow(gold, silver, id, i);
    if LastEligible(AsOfSide(silver, id), gold.rows[i], "ticker" in silver.columns).Some? {
      AsOfRowPicked(gold, silver, id, i);
    } else {
      AsOfRowMissed(gold, silver, id, i);
    }
  }

  /** A gold row with no eligible silver row gets null feature cells. */
  lemma AsOfRowMissed(gold: Frame, silver: Frame, id: string, i: nat)
    requires "date" in silver.columns
    requires AsOfJoin(gold, silver, id).Ok? && i < |gold.rows|
    requires LastEligible(AsOfSide(silver, id), gold.rows[i], "ticker" in silver.columns).None?
    ensures var out := AsOfJoin(gold, silver, id).value;
            && (forall s :: s in silver.rows ==> !Eligible(s, gold.rows[i], "ticker" in silver.columns))
            && forall c :: c in JoinedColumns(silver, "", id) ==> Get(out.rows[i], c) == None
  {
    AsOfJoinRow(gold, silver, id, i);
    AsOfPick(silver, id, gold.rows[i]);
  }

  /** A gold row with an eligible silver row carries the cells of a latest one. */
  lemma AsOfRowPicked(gold: Frame, silver: Frame, id: string, i: nat)
    requires "date" in silver.columns
    requires AsOfJoin(gold, silver, id).Ok? && i < |gold.rows|
    requires LastEligible(AsOfSide(silver, id), gold.rows[i], "ticker" in silver.columns).Some?
    ensures var out := AsOfJoin(gold, silver, id).value;
            var keys := JoinKeys(silver);
            var byT := "ticker" in silver.columns;
            var g := gold.rows[i];
            exists s :: && s in silver.rows && Eligible(s, g, byT)
                        && (forall t :: t in silver.rows && Eligible(t, g, byT) ==>
                              Le(DateOf(t).value, DateOf(s).value))
                        && (forall c :: c in silver.columns && c !in keys ==>
                              Get(out.rows[i], FeatureName("", c, id)) == Get(s, c))
  {
    var out := AsOfJoin(gold, silver, id).value;
    var g := gold.rows[i];
    var j := LastEligible(AsOfSide(silver, id), g, "ticker" in silver.columns).value;
    AsOfJoinRow(gold, silver, id, i);
    AsOfPick(silver, id, g);
    PickedRow(out.rows[i], g, SortBy(silver.rows, DateKey)[j], silver, id);
  }

  /** A gold row extended with a latest eligible silver row, renamed, witnesses the as-of
      promise. */
  lemma PickedRow(o: Row, g: Row, s: Row, silver: Frame, id: string)
    requires "date" in silver.columns
    requires var byT := "ticker" in silver.columns;
             && s in silver.rows && Eligible(s, g, byT)
             && forall t :: t in silver.rows && Eligible(t, g, byT) ==> Le(DateOf(t).value, DateOf(s).value)
    requires o == Attach(g, RenameRow(s, silver.columns, FeatureMap(silver.columns, JoinKeys(silver), "", id)),
                         JoinedColumns(silver, "", id))
    ensures var byT := "ticker" in silver.columns;
            exists p :: && p in silver.rows && Eligible(p, g, byT)
                        && (forall t :: t in silver.rows && Eligible(t, g, byT) ==>
                              Le(DateOf(t).value, DateOf(p).value))
                        && (forall c :: c in silver.columns && c !in JoinKeys(silver) ==>
                              Get(o, FeatureName("", c, id)) == Get(p, c))
  {
    PickedRowCells(o, g, s, silver, id);
    PickWitness(o, s, silver.rows, g, "ticker" in silver.columns, silver.columns, JoinKeys(silver), id);
  }

  /** The renamed silver row's cells sit under their feature names in the output row. */
  lemma PickedRowCells(o: Row, g: Row, s: Row, silver: Frame, id: string)
    requires "date" in silver.columns
    requires o == Attach(g, RenameRow(s, silver.columns, FeatureMap(silver.columns, JoinKeys(silver), "", id)),
                         JoinedColumns(silver, "", id))
    ensures forall c :: c in silver.columns && c !in JoinKeys(silver) ==> Get(o, FeatureName("", c, id)) == Get(s, c)
  {
    PickedCells(o, g, s, silver.columns, JoinKeys(silver), id, JoinedColumns(silver, "", id));
  }

  /** A latest eligible row whose cells the output row carries witnesses the as-of promise. */
  lemma PickWitness(o: Row, s: Row, rows: seq<Row>, g: Row, byT: bool, cols: seq<Column>, keys: seq<Column>, id: string)
    requires s in rows && Eligible(s, g, byT)
    requires forall t :: t in rows && Eligible(t, g, byT) ==> Le(DateOf(t).value, DateOf(s).value)
    requires forall c :: c in cols && c !in keys ==> Get(o, FeatureName("", c, id)) == Get(s, c)
    ensures exists p :: && p in rows && Eligible(p, g, byT)
                        && (forall t :: t in rows && Eligible(t, g, byT) ==> Le(DateOf(t).value, DateOf(p).value))
                        && (forall c :: c in cols && c !in keys ==> Get(o, FeatureName("", c, id)) == Get(p, c))
  {
  }

  /** Row `i` of an as-of join is gold row `i` with the cells of its pick attached. */
  lemma AsOfJoinRow(gold: Frame, silver: Frame, id: string, i: nat)
    requires AsOfJoin(gold, silver, id).Ok? && i < |gold.rows|
    ensures var out := AsOfJoin(gold, silver, id).value;
            var rr := AsOfSide(silver, id);
            var added := JoinedColumns(silver, "", id);
            var pick := LastEligible(rr, gold.rows[i], "ticker" in silver.columns);
            && |out.rows| == |gold.rows| && out.columns == gold.columns + added
            && out.rows[i] == Attach(gold.rows[i], match pick case Some(j) => rr[j] case None => map[], added)
  {
  }

  /** A gold row extended with a renamed silver row carries that row's cells under their
      feature names. */
  lemma PickedCells(o: Row, g: Row, s: Row, cols: seq<Column>, keys: seq<Column>, id: string, added: seq<Column>)
    requires forall k :: k in keys ==> k == "ticker" || k == "date"
    requires forall k :: k in keys ==> k in cols
    requires added == NonKeyColumns(RenameColumns(cols, FeatureMap(cols, keys, "", id)), keys)
    requires o == Attach(g, RenameRow(s, cols, FeatureMap(cols, keys, "", id)), added)
    ensures forall c :: c in cols && c !in keys ==> Get(o, FeatureName("", c, id)) == Get(s, c)
  {
    FeatureCells(s, cols, keys, "", id);
  }

  // ---------------------------------------------------------------------------------------
  // The as-of merge as the assembler calls it
  // ---------------------------------------------------------------------------------------

  /** The gold dates ascend from row to row, as `merge_asof` demands of its left table. */
  predicate DatesAscending(rows: seq<Row>)
  {
    forall i, j :: 0 <= i < j < |rows| && DateOf(rows[i]).Some? && DateOf(rows[j]).Some? ==>
      Le(DateOf(rows[i]).value, DateOf(rows[j]).value)
  }

  /** The merge as called on the gold table as it stands: pandas rejects a left table whose
      `date` column does not ascend ("left keys must be sorted"), and the exception handler
      then skips the source. */
  function AsOfJoinAsWritten(gold: Frame, silver: Frame, id: string): Result<Frame, SkipReason>
  {
    if !DatesAscending(gold.rows) then Err(MergeFailed) else AsOfJoin(gold, silver, id)
  }

  /** The grid's rows are its keys, in order. */
  lemma GridRows(universe: seq<string>, calendar: seq<string>, start: string, end: string)
    ensures var keys := GridKeys(universe, calendar, start, end);
            var grid := BaseGrid(Some(universe), Some(calendar), start, end);
            && |grid.rows| == |keys|
            && forall i :: 0 <= i < |keys| ==> grid.rows[i] == GridRow(keys[i])
  {
  }

  /** With tickers `tA < tB` and dates `d1 < d2` in the grid, the row (tA, d2) comes before the
      row (tB, d1). */
  lemma GridInversion(universe: seq<string>, calendar: seq<string>, start: string, end: string,
                      tA: string, tB: string, d1: string, d2: string) returns (i: nat, j: nat)
    requires tA in Tickers(universe) && tB in Tickers(universe) && Less(tA, tB)
    requires d1 in calendar && d2 in calendar && InRange(d1, start, end) && InRange(d2, start, end)
    ensures var keys := GridKeys(universe, calendar, start, end);
            i < j < |keys| && keys[i] == (tA, d2) && keys[j] == (tB, d1)
  {
    var keys := GridKeys(universe, calendar, start, end);
    BaseGridMembers(universe, calendar, start, end, (tA, d2));
    BaseGridMembers(universe, calendar, start, end, (tB, d1));
    BaseGridSorted(universe, calendar, start, end);
    i := IndexOf(keys, (tA, d2));
    j := IndexOf(keys, (tB, d1));
    TickerOrder(keys[i], keys[j]);
    SortedBefore(keys, i, j);
  }

  /** A pair with a smaller ticker sorts strictly first, whatever the dates. */
  lemma TickerOrder(a: Key, b: Key)
    requires Less(a.0, b.0)
    ensures !KeyLe(b, a)
  {
    LessAsymmetric(a.0, b.0);
    LessIrreflexive(a.0);
  }

  /** In a sorted list, an element that does not sort after another comes first. */
  lemma SortedBefore(keys: seq<Key>, i: nat, j: nat)
    requires SortedBy(keys, Id) && i < |keys| && j < |keys| && !KeyLe(keys[j], keys[i])
    ensures i < j
  {
    KeyLeTotalOrder(keys[i], keys[i], keys[i]);
    assert j < i ==> KeyLe(Id(keys[j]), Id(keys[i]));
  }

  /** The base grid is sorted by ticker first, so with two tickers and two in-range dates its
      dates do not ascend, and every low-frequency source is skipped. */
  lemma AsWrittenSkipsMultiTickerGrid(universe: seq<string>, calendar: seq<string>, start: string, end: string,
                                      silver: Frame, id: string, tA: string, tB: string, d1: string, d2: string)
    requires tA in Tickers(universe) && tB in Tickers(universe) && Less(tA, tB)
    requires d1 in calendar && d2 in calendar && InRange(d1, start, end) && InRange(d2, start, end) && Less(d1, d2)
    ensures AsOfJoinAsWritten(BaseGrid(Some(universe), Some(calendar), start, end), silver, id) == Err(MergeFailed)
  {
    var grid := BaseGrid(Some(universe), Some(calendar), start, end);
    var i, j := GridInversion(universe, calendar, start, end, tA, tB, d1, d2);
    GridDateAt(universe, calendar, start, end, i);
    GridDateAt(universe, calendar, start, end, j);
    Descent(grid.rows, i, j, d1, d2);
  }

  /** A later row with an earlier date breaks the ascending order. */
  lemma Descent(rows: seq<Row>, i: nat, j: nat, d1: string, d2: string)
    requires i < j < |rows| && DateOf(rows[i]) == Some(d2) && DateOf(rows[j]) == Some(d1) && Less(d1, d2)
    ensures !DatesAscending(rows)
  {
    LessAsymmetric(d1, d2);
    LessIrreflexive(d1);
    assert !Le(d2, d1);
  }

  /** The date cell of the grid's `i`-th row is the date of its `i`-th key. */
  lemma GridDateAt(universe: seq<string>, calendar: seq<string>, start: string, end: string, i: nat)
    requires i < |GridKeys(universe, calendar, start, end)|
    ensures var keys := GridKeys(universe, calendar, start, end);
            var grid := BaseGrid(Some(universe), Some(calendar), start, end);
            i < |grid.rows| && DateOf(grid.rows[i]) == Some(keys[i].1)
  {
    GridRows(universe, calendar, start, end);
    GridRowCells(GridKeys(universe, calendar, start, end)[i]);
  }

  lemma ExampleShenzhen()
    ensures TickerOf("000001") == "000001.SZ"
  {
    var c := "000001";
    assert Strip(c) == c by {
      assert !IsSpace(c[0]) && !IsSpace(c[|c| - 1]);
      StripUnpadded(c);
    }
    assert Exchange(c) == "SZ" by {
      assert c[..1] != "6";
    }
  }

  lemma ExampleShanghai()
    ensures TickerOf("600000") == "600000.SH"
  {
    var c := "600000";
    assert Strip(c) == c by {
      assert !IsSpace(c[0]) && !IsSpace(c[|c| - 1]);
      StripUnpadded(c);
    }
    assert Exchange(c) == "SH" by {
      assert c[..1] == "6";
    }
  }

  lemma ExampleTickers()
    ensures Tickers(["000001", "600000"]) == ["000001.SZ", "600000.SH"]
    ensures Less("000001.SZ", "600000.SH")
  {
    ExampleShenzhen();
    ExampleShanghai();
    var t := Tickers(["000001", "600000"]);
    assert t[0] == "000001.SZ" && t[1] == "600000.SH";
    PairSeq(t, "000001.SZ", "600000.SH");
    LessAtFirstDifference("000001.SZ", "600000.SH", 0);
  }

  lemma PairSeq(s: seq<string>, x: string, y: string)
    requires |s| == 2 && s[0] == x && s[1] == y
    ensures s == [x, y]
  {
  }

  lemma ExampleDates()
    ensures Less("2024-01-02", "2024-01-03")
    ensures InRange("2024-01-02", "2024-01-01", "2024-12-31") && InRange("2024-01-03", "2024-01-01", "2024-12-31")
  {
    Dates2024.Jan02BeforeJan03();
    Dates2024.Jan01BeforeJan02();
    Dates2024.Jan01BeforeJan03();
    Dates2024.Jan02BeforeDec31();
    Dates2024.Jan03BeforeDec31();
  }

  /** An instance: the Shenzhen code 000001 and the Shanghai code 600000 over two January
      trading days. */
  lemma AsWrittenSkipsExample(silver: Frame, id: string)
    ensures AsOfJoinAsWritten(BaseGrid(Some(["000001", "600000"]), Some(["2024-01-02", "2024-01-03"]),
                                       "2024-01-01", "2024-12-31"), silver, id) == Err(MergeFailed)
  {
    ExampleTickers();
    ExampleDates();
    AsWrittenSkipsMultiTickerGrid(["000001", "600000"], ["2024-01-02", "2024-01-03"], "2024-01-01", "2024-12-31",
                                  silver, id, "000001.SZ", "600000.SH", "2024-01-02", "2024-01-03");
  }

  /** Every grid row is dated, so the per-row as-of join accepts the grid whenever the silver
      rows are dated, whatever the grid's row order. */
  lemma AsOfJoinAcceptsGrid(universe: Option<seq<string>>, calendar: Option<seq<string>>, start: string, end: string,
                            silver: Frame, id: string)
    requires AllDated(silver.rows)
    ensures AsOfJoin(BaseGrid(universe, calendar, start, end), silver, id).Ok?
  {
    var grid := BaseGrid(universe, calendar, start, end);
    forall i | 0 <= i < |grid.rows| ensures DateOf(grid.rows[i]).Some? {
      var keys := BaseGridKeys(universe, calendar, start, end).value;
      assert grid.rows[i] == GridRow(keys[i]);
    }
  }

  // ---------------------------------------------------------------------------------------
  // The assembly loop
  // ---------------------------------------------------------------------------------------

  /** One iteration of the loop over `silver_data_paths`: the joined table, or why the
      source is skipped. */
  function Step(gold: Frame, cfgs: seq<InterfaceConfig>, src: Source): Result<Frame, SkipReason>
  {
    match Lookup(cfgs, src.id)
    case None => Err(UnknownInterface)
    case Some(iface) =>
      if src.data.None? then Err(ReadFailed)
      else if IsEmpty(src.data.value) then Err(EmptySource)
      else
        match PrepareKey(src.data.value)
        case Err(e) => Err(e)
        case Ok(silver) =>
          if iface.freq == "D" || iface.freq == "static" then Ok(ExactJoin(gold, silver, src.id))
          else AsOfJoin(gold, silver, src.id)
  }

  /** The gold table after the given sources, in order; a skipped source changes nothing. */
  function Assembled(gold: Frame, cfgs: seq<InterfaceConfig>, sources: seq<Source>): Frame
    decreases |sources|
  {
    if sources == [] then gold
    else
      Advance(Assembled(gold, cfgs, sources[..|sources| - 1]), cfgs, sources[|sources| - 1])
  }

  /** The table after one source: its join, or the table unchanged when the source is skipped. */
  function Advance(prev: Frame, cfgs: seq<InterfaceConfig>, src: Source): Frame
  {
    match Step(prev, cfgs, src)
    case Ok(next) => next
    case Err(_) => prev
  }

  /** Folding in source `i`: when its step succeeds the table becomes the joined table, and
      when the step fails (see `StepSpec`) the table is kept as it was. */
  lemma AssembledPrefixStep(gold: Frame, cfgs: seq<InterfaceConfig>, sources: seq<Source>, i: nat)
    requires i < |sources|
    ensures var prev := Assembled(gold, cfgs, sources[..i]);
            var s := Step(prev, cfgs, sources[i]);
            && (s.Err? ==> Assembled(gold, cfgs, sources[..i + 1]) == prev)
            && (s.Ok? ==> Assembled(gold, cfgs, sources[..i + 1]) == s.value)
  {
    assert sources[..i + 1][..i] == sources[..i];
  }

  /** Why a source is skipped, case by case in the order the loop body checks: no interface
      configuration, an unreadable file, an empty table, no date column, dates that do not
      convert, and (for low-frequency data only) a null date on either side of the as-of merge.
      A step that is not skipped joins exactly (daily and static data) or as of the date. */
  lemma StepSpec(gold: Frame, cfgs: seq<InterfaceConfig>, src: Source)
    ensures var s := Step(gold, cfgs, src);
            var iface := Lookup(cfgs, src.id);
            var usable := iface.Some? && src.data.Some? && !IsEmpty(src.data.value);
            var prepared := if src.data.Some? then PrepareKey(src.data.value) else Err(ReadFailed);
            var exact := iface.Some? && (iface.value.freq == "D" || iface.value.freq == "static");
            && (s == Err(UnknownInterface) <==> iface.None?)
            && (s == Err(ReadFailed) <==> iface.Some? && src.data.None?)
            && (s == Err(EmptySource) <==> iface.Some? && src.data.Some? && IsEmpty(src.data.value))
            && (s == Err(NoDateColumn) <==> usable && prepared == Err(NoDateColumn))
            && (s == Err(DateParseFailed) <==> usable && prepared == Err(DateParseFailed))
            && (s == Err(MergeFailed) <==>
                  usable && prepared.Ok? && !exact &&
                  (!AllDated(gold.rows) || !AllDated(prepared.value.rows)))
            && (s.Ok? <==> usable && prepared.Ok? && (exact || (AllDated(gold.rows) && AllDated(prepared.value.rows))))
            && (s.Ok? && exact ==> s.value == ExactJoin(gold, prepared.value, src.id))
            && (s.Ok? && !exact ==> s == AsOfJoin(gold, prepared.value, src.id))
  {
    if Lookup(cfgs, src.id).Some? && src.data.Some? && !IsEmpty(src.data.value) {
      PrepareKeyErrors(src.data.value);
      if PrepareKey(src.data.value).Ok? {
        AsOfJoinFails(gold, PrepareKey(src.data.value).value, src.id);
      }
    }
  }

  /** Key preparation fails only for a missing date column or unconvertible dates. */
  lemma PrepareKeyErrors(f: Frame)
    ensures PrepareKey(f).Err? ==> PrepareKey(f) == Err(NoDateColumn) || PrepareKey(f) == Err(DateParseFailed)
  {
  }

  /** The as-of merge fails, with `MergeFailed`, exactly when a date on either side is null. */
  lemma AsOfJoinFails(gold: Frame, silver: Frame, id: string)
    ensures AsOfJoin(gold, silver, id).Err? <==> !AllDated(gold.rows) || !AllDated(silver.rows)
    ensures AsOfJoin(gold, silver, id).Err? ==> AsOfJoin(gold, silver, id) == Err(MergeFailed)
  {
  }

  /** `Assembler.process`: the base grid, halting when it is empty, then every source joined
      onto it in turn. */
  method Process(universe: Option<seq<string>>, calendar: Option<seq<string>>, start: string, end: string,
                 cfgs: seq<InterfaceConfig>, sources: seq<Source>) returns (r: Result<Frame, AssemblyError>)
    ensures var grid := BaseGrid(universe, calendar, start, end);
            && (IsEmpty(grid) <==> r == Err(BaseGridUnavailable))
            && (!IsEmpty(grid) ==> r == Ok(Assembled(grid, cfgs, sources)))
  {
    var gold := BaseGrid(universe, calendar, start, end);
    if IsEmpty(gold) {
      return Err(BaseGridUnavailable);
    }
    var i := 0;
    while i < |sources|
      invariant 0 <= i <= |sources|
      invariant gold == Assembled(BaseGrid(universe, calendar, start, end), cfgs, sources[..i])
    {
      AssembledPrefixStep(BaseGrid(universe, calendar, start, end), cfgs, sources, i);
      var step := Step(gold, cfgs, sources[i]);
      if step.Ok? {
        gold := step.value;
      }
      i := i + 1;
    }
    assert sources[..|sources|] == sources;
    return Ok(gold);
  }

  /** The (ticker, date) cells of a row. */
  function KeyOf(r: Row): (Cell, Cell)
  {
    (Get(r, "ticker"), Get(r, "date"))
  }

  function KeySet(rows: seq<Row>): set<(Cell, Cell)>
  {
    set r | r in rows :: KeyOf(r)
  }

  lemma {:induction false} LeftMergeKeepsKeys(ls: seq<Row>, rs: seq<Row>, keys: seq<Column>, added: seq<Column>)
    requires "ticker" !in added && "date" !in added
    ensures KeySet(MergeRows(ls, rs, keys, added, true)) == KeySet(ls)
  {
    if ls != [] {
      LeftMergeKeepsKeys(ls[1..], rs, keys, added);
      JoinBlockKeys(ls[0], rs, keys, added);
      KeySetConcat(JoinBlock(ls[0], rs, keys, added, true), MergeRows(ls[1..], rs, keys, added, true));
      KeySetConcat([ls[0]], ls[1..]);
      assert ls == [ls[0]] + ls[1..];
    }
  }

  /** A left row's block of joined rows carries that row's key and no other. */
  lemma JoinBlockKeys(l: Row, rs: seq<Row>, keys: seq<Column>, added: seq<Column>)
    requires "ticker" !in added && "date" !in added
    ensures KeySet(JoinBlock(l, rs, keys, added, true)) == {KeyOf(l)}
  {
    var b := JoinBlock(l, rs, keys, added, true);
    forall o | o in b ensures KeyOf(o) == KeyOf(l) {
      var k :| 0 <= k < |b| && b[k] == o;
    }
    assert b[0] in b;
  }

  lemma KeySetConcat(a: seq<Row>, b: seq<Row>)
    ensures KeySet(a + b) == KeySet(a) + KeySet(b)
  {
  }

  lemma ExactJoinKeepsKeys(gold: Frame, silver: Frame, id: string)
    requires "date" in silver.columns
    ensures KeySet(ExactJoin(gold, silver, id).rows) == KeySet(gold.rows)
    ensures ExactJoin(gold, silver, id).columns == gold.columns + JoinedColumns(silver, "feat_", id)
  {
    JoinedColumnsSpec(silver, "feat_", id);
    var keys := JoinKeys(silver);
    var renamed := Rename(silver, FeatureMap(silver.columns, keys, "feat_", id));
    LeftMergeKeepsKeys(gold.rows, renamed.rows, keys, JoinedColumns(silver, "feat_", id));
  }

  lemma AsOfJoinKeepsKeys(gold: Frame, silver: Frame, id: string)
    requires "date" in silver.columns && AsOfJoin(gold, silver, id).Ok?
    ensures KeySet(AsOfJoin(gold, silver, id).value.rows) == KeySet(gold.rows)
    ensures AsOfJoin(gold, silver, id).value.columns == gold.columns + JoinedColumns(silver, "", id)
  {
    JoinedColumnsSpec(silver, "", id);
    var out := AsOfJoin(gold, silver, id).value;
    forall i | 0 <= i < |gold.rows| ensures KeyOf(out.rows[i]) == KeyOf(gold.rows[i]) {
      AsOfRowSpec(gold, silver, id, i);
    }
    KeySetPointwise(out.rows, gold.rows);
  }

  /** Row lists with the same keys position by position have the same key set. */
  lemma KeySetPointwise(a: seq<Row>, b: seq<Row>)
    requires |a| == |b| && forall i :: 0 <= i < |a| ==> KeyOf(a[i]) == KeyOf(b[i])
    ensures KeySet(a) == KeySet(b)
  {
    forall k | k in KeySet(a) ensures k in KeySet(b) {
      var o :| o in a && KeyOf(o) == k;
      var i := IndexOf(a, o);
      assert b[i] in b;
    }
    forall k | k in KeySet(b) ensures k in KeySet(a) {
      var g :| g in b && KeyOf(g) == k;
      var i := IndexOf(b, g);
      assert a[i] in a;
    }
  }

  /** A join never adds or loses a (ticker, date) key, and only appends columns. */
  lemma StepKeepsKeys(gold: Frame, cfgs: seq<InterfaceConfig>, src: Source)
    requires Step(gold, cfgs, src).Ok?
    ensures KeySet(Step(gold, cfgs, src).value.rows) == KeySet(gold.rows)
    ensures var out := Step(gold, cfgs, src).value;
            |out.columns| >= |gold.columns| && out.columns[..|gold.columns|] == gold.columns
  {
    var silver := PrepareKey(src.data.value).value;
    PrepareKeySpec(src.data.value);
    var iface := Lookup(cfgs, src.id).value;
    if iface.freq == "D" || iface.freq == "static" {
      ExactJoinKeepsKeys(gold, silver, src.id);
    } else {
      AsOfJoinKeepsKeys(gold, silver, src.id);
    }
  }

  /** Assembly keeps the grid's (ticker, date) keys exactly -- every grid key is present and no
      other appears -- and keeps every column of the grid and of earlier joins. */
  lemma {:induction false} AssembledKeepsKeys(gold: Frame, cfgs: seq<InterfaceConfig>, sources: seq<Source>)
    ensures KeySet(Assembled(gold, cfgs, sources).rows) == KeySet(gold.rows)
    ensures var out := Assembled(gold, cfgs, sources);
            |out.columns| >= |gold.columns| && out.columns[..|gold.columns|] == gold.columns
    decreases |sources|
  {
    if sources != [] {
      var prev := Assembled(gold, cfgs, sources[..|sources| - 1]);
      AssembledKeepsKeys(gold, cfgs, sources[..|sources| - 1]);
      if Step(prev, cfgs, sources[|sources| - 1]).Ok? {
        StepKeepsKeys(prev, cfgs, sources[|sources| - 1]);
        var out := Assembled(gold, cfgs, sources);
        assert out.columns[..|gold.columns|] == out.columns[..|prev.columns|][..|gold.columns|];
      }
    }
  }

  lemma GridKeySet(universe: seq<string>, calendar: seq<string>, start: string, end: string, t: string, d: string)
    ensures (Some(Str(t)), Some(Str(d))) in KeySet(BaseGrid(Some(universe), Some(calendar), start, end).rows) <==>
            (t, d) in GridKeys(universe, calendar, start, end)
  {
    var grid := BaseGrid(Some(universe), Some(calendar), start, end);
    var keys := GridKeys(universe, calendar, start, end);
    GridRows(universe, calendar, start, end);
    if (Some(Str(t)), Some(Str(d))) in KeySet(grid.rows) {
      var r :| r in grid.rows && KeyOf(r) == (Some(Str(t)), Some(Str(d)));
      var i :| 0 <= i < |grid.rows| && grid.rows[i] == r;
      GridRowCells(keys[i]);
    }
    if (t, d) in keys {
      var i :| 0 <= i < |keys| && keys[i] == (t, d);
      GridRowCells(keys[i]);
      assert grid.rows[i] in grid.rows;
    }
  }

  /** The frame holds a row with ticker `t` and date `d`. */
  predicate HasKey(f: Frame, t: string, d: string)
  {
    (Some(Str(t)), Some(Str(d))) in KeySet(f.rows)
  }

  /** One pair: it is a key of the assembled table exactly when it is an in-range grid pair. */
  lemma AssembledHasKey(universe: seq<string>, calendar: seq<string>, start: string, end: string,
                        cfgs: seq<InterfaceConfig>, sources: seq<Source>, t: string, d: string)
    ensures HasKey(Assembled(BaseGrid(Some(universe), Some(calendar), start, end), cfgs, sources), t, d) <==>
            t in Tickers(universe) && d in calendar && InRange(d, start, end)
  {
    AssembledKeepsKeys(BaseGrid(Some(universe), Some(calendar), start, end), cfgs, sources);
    GridKeySet(universe, calendar, start, end, t, d);
    BaseGridMembers(universe, calendar, start, end, (t, d));
  }

  /** The assembled table's keys are exactly the grid's in-range (ticker, date) pairs. */
  lemma AssembledKeysAreGrid(universe: seq<string>, calendar: seq<string>, start: string, end: string,
                             cfgs: seq<InterfaceConfig>, sources: seq<Source>)
    ensures forall t, d :: HasKey(Assembled(BaseGrid(Some(universe), Some(calendar), start, end), cfgs, sources), t, d) <==>
                           t in Tickers(universe) && d in calendar && InRange(d, start, end)
  {
    forall t, d ensures HasKey(Assembled(BaseGrid(Some(universe), Some(calendar), start, end), cfgs, sources), t, d) <==>
                        t in Tickers(universe) && d in calendar && InRange(d, start, end)
    {
      AssembledHasKey(universe, calendar, start, end, cfgs, sources, t, d);
    }
  }
}
