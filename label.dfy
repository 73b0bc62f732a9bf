/** The labeler: forward returns over 1, 5 and 20 trading days, in basis points and clipped to
    +/-2000, with a 0/1 flag marking each label that cannot be computed. */
module Label {
  import opened Wrappers
  import opened Strings
  import opened Seqs
  import opened Sorting
  import opened Frames
  import Dates2024

  /** The label horizons, in trading days. */
  const Horizons: seq<nat> := [1, 5, 20]

  const AdjClose: Column := "adj_close_hfq"

  /** One horizon's label: the clipped return in basis points (`None` for NaN) and `label_na`. */
  datatype HorizonLabel = HorizonLabel(returnBps: Option<real>, labelNa: int)

  /** One entry of `results`: the gold row's ticker and date and one label per horizon. */
  datatype LabelRow = LabelRow(ticker: Cell, date: Cell, horizons: seq<HorizonLabel>)

  /** The exceptions `process` raises: a `KeyError` for a missing column, a `TypeError` from
      sorting calendar dates that are not all text, and the `ValueError` for a gold table
      without an adjusted-close column. */
  datatype LabelError = MissingColumn(name: Column) | UnsortableCalendar | NoAdjustedClose

  // ---------------------------------------------------------------------------------------
  // Loading
  // ---------------------------------------------------------------------------------------

  /** The price table's `effective_date` becomes its `date`. */
  function PreparePrices(f: Frame): Frame
  {
    if "effective_date" in f.columns then Rename(f, map["effective_date" := "date"]) else f
  }

  /** The calendar's `effective_date`, or else its `trade_date`, becomes its `date`. */
  function PrepareCalendar(f: Frame): Frame
  {
    if "effective_date" in f.columns then Rename(f, map["effective_date" := "date"])
    else if "trade_date" in f.columns then Rename(f, map["trade_date" := "date"])
    else f
  }

  /** The calendar has a `date` column exactly when it had one of the three date columns, and
      when it had no `date` of its own, that column holds `effective_date`, else `trade_date`. */
  lemma PrepareCalendarSpec(f: Frame)
    ensures "date" in PrepareCalendar(f).columns <==>
            "effective_date" in f.columns || "trade_date" in f.columns || "date" in f.columns
    ensures |PrepareCalendar(f).rows| == |f.rows|
    ensures "date" !in f.columns && ("effective_date" in f.columns || "trade_date" in f.columns) ==>
              forall i :: 0 <= i < |f.rows| ==>
                Get(PrepareCalendar(f).rows[i], "date") ==
                Get(f.rows[i], if "effective_date" in f.columns then "effective_date" else "trade_date")
  {
    var src := if "effective_date" in f.columns then "effective_date" else "trade_date";
    if src in f.columns {
      RenameGivesDate(f, src);
      if "date" !in f.columns {
        RenameOneColumn(f, src, "date");
      }
    }
  }

  /** Renaming a present column to `date` gives a table with a `date` column. */
  lemma RenameGivesDate(f: Frame, src: Column)
    requires src in f.columns
    ensures "date" in Rename(f, map[src := "date"]).columns
  {
    var k :| 0 <= k < |f.columns| && f.columns[k] == src;
    assert Rename(f, map[src := "date"]).columns[k] == "date";
  }

  // ---------------------------------------------------------------------------------------
  // Trading calendar and price lookup
  // ---------------------------------------------------------------------------------------

  /** The calendar's date texts, or `None` when some date is not text (Python's `sorted`
      then fails comparing it with the others). */
  function DateTexts(rows: seq<Row>): (r: Option<seq<string>>)
    ensures r.Some? <==> forall i :: 0 <= i < |rows| ==> Get(rows[i], "date").Some? && Get(rows[i], "date").value.Str?
    ensures r.Some? ==> |r.value| == |rows| && forall i :: 0 <= i < |rows| ==> Get(rows[i], "date") == Some(Str(r.value[i]))
  {
    if rows == [] then Some([])
    else
      match Get(rows[0], "date")
      case Some(Str(d)) =>
        var rest := DateTexts(rows[1..]);
        if rest.None? then None else Some([d] + rest.value)
      case _ => None
  }

  function TextKey(d: string): Key
  {
    (d, "")
  }

  /** `sorted(df_calendar['date'].unique())`. */
  function TradeDates(texts: seq<string>): seq<string>
  {
    SortBy(AppendNew([], texts), TextKey)
  }

  /** The trading days are the calendar's distinct dates in strictly ascending order. */
  lemma TradeDatesSpec(texts: seq<string>)
    ensures var td := TradeDates(texts);
            && (forall i, j :: 0 <= i < j < |td| ==> Less(td[i], td[j]))
            && (forall d :: d in td <==> d in texts)
  {
    var u := AppendNew([], texts);
    var td := TradeDates(texts);
    SortBySpec(u, TextKey);
    AppendNewNoDup([], texts);
    forall i, j | 0 <= i < j < |td| ensures Less(td[i], td[j]) {
      assert KeyLe(TextKey(td[i]), TextKey(td[j]));
      if td[i] == td[j] {
        TwoOccurrences(td, i, j);
        NoDupCount(u, td[i]);
      }
    }
    forall d ensures d in td <==> d in texts {
      assert d in td <==> d in multiset(td);
      assert d in u <==> d in multiset(u);
    }
  }

  /** `date_to_index.get(d)`: the position of `d` among the trading days. */
  function DateIndex(td: seq<string>, d: string): (r: Option<nat>)
    ensures r.Some? ==> r.value < |td| && td[r.value] == d && forall k :: 0 <= k < r.value ==> td[k] != d
    ensures r.None? <==> d !in td
  {
    if td == [] then None
    else if td[0] == d then Some(0)
    else
      var rest := DateIndex(td[1..], d);
      if rest.None? then None else Some(rest.value + 1)
  }

  /** A price row listed under the key (ticker, date). */
  predicate PriceKey(r: Row, t: Cell, d: string)
  {
    Get(r, "ticker") == t && Get(r, "date") == Some(Str(d))
  }

  /** The position of the last price row listed under (t, d). */
  function LastPriceRow(prices: seq<Row>, t: Cell, d: string): (r: Option<nat>)
    ensures r.Some? ==> r.value < |prices| && PriceKey(prices[r.value], t, d)
    ensures r.Some? ==> forall j :: r.value < j < |prices| ==> !PriceKey(prices[j], t, d)
    ensures r.None? ==> forall j :: 0 <= j < |prices| ==> !PriceKey(prices[j], t, d)
    decreases |prices|
  {
    if prices == [] then None
    else if PriceKey(prices[|prices| - 1], t, d) then Some(|prices| - 1)
    else LastPriceRow(prices[..|prices| - 1], t, d)
  }

  /** `price_lookup.get((t, d))`: the adjusted close of the last price row with that key, as
      `to_dict()` keeps the last value of a repeated key; null when no row has it. */
  function PriceAt(prices: seq<Row>, t: Cell, d: string): Cell
  {
    match LastPriceRow(prices, t, d)
    case Some(k) => Get(prices[k], AdjClose)
    case None => None
  }

  // ---------------------------------------------------------------------------------------
  // Labels
  // ---------------------------------------------------------------------------------------

  /** The number in a cell; NaN, text and missing cells give none. */
  function Numeric(c: Cell): Option<real>
  {
    if c.Some? && c.value.Num? then Some(c.value.x) else None
  }

  /** `np.clip(x, -2000, 2000)`. */
  function Clamp(x: real): (r: real)
    ensures -2000.0 <= r <= 2000.0
    ensures -2000.0 <= x <= 2000.0 ==> r == x
    ensures x < -2000.0 ==> r == -2000.0
    ensures x > 2000.0 ==> r == 2000.0
  {
    if x < -2000.0 then -2000.0 else if x > 2000.0 then 2000.0 else x
  }

  /** `10000 * (p_t_h / p_t - 1)`, clipped. */
  function ReturnBps(pt: real, pth: real): real
    requires pt != 0.0
  {
    Clamp(10000.0 * (pth / pt - 1.0))
  }

  /** The label for horizon `h` of a row whose date is trading day `idx` and whose adjusted
      close is `pt`. */
  function HorizonOf(prices: seq<Row>, td: seq<string>, t: Cell, idx: nat, pt: real, h: nat): HorizonLabel
  {
    var pth := if idx + h < |td| then Numeric(PriceAt(prices, t, td[idx + h])) else None;
    if pth.None? || pt == 0.0 then HorizonLabel(None, 1)
    else HorizonLabel(Some(ReturnBps(pt, pth.value)), 0)
  }

  /** Every horizon NaN with `label_na = 1`. */
  function AllMissing(): seq<HorizonLabel>
  {
    seq(|Horizons|, k requires 0 <= k < |Horizons| => HorizonLabel(None, 1))
  }

  /** The trading-day position of a gold row's date, if its date is a trading day. */
  function RowIndex(row: Row, td: seq<string>): Option<nat>
  {
    match Get(row, "date")
    case Some(Str(d)) => DateIndex(td, d)
    case _ => None
  }

  /** The labels of one gold row. */
  function RowLabel(row: Row, adj: Column, td: seq<string>, prices: seq<Row>): LabelRow
  {
    var t := Get(row, "ticker");
    var idx := RowIndex(row, td);
    var pt := Numeric(Get(row, adj));
    if idx.None? || pt.None? then LabelRow(t, Get(row, "date"), AllMissing())
    else LabelRow(t, Get(row, "date"),
                  seq(|Horizons|, k requires 0 <= k < |Horizons| => HorizonOf(prices, td, t, idx.value, pt.value, Horizons[k])))
  }

  /** `next((c for c in columns if sub in c), None)`, as a position: the first column whose
      name contains `sub`. */
  function FirstContaining(cols: seq<Column>, sub: string): (r: Option<nat>)
    ensures r.Some? ==> r.value < |cols| && Contains(cols[r.value], sub)
    ensures r.Some? ==> forall j :: 0 <= j < r.value ==> !Contains(cols[j], sub)
    ensures r.None? <==> forall c :: c in cols ==> !Contains(c, sub)
  {
    if cols == [] then None
    else if Contains(cols[0], sub) then Some(0)
    else
      var rest := FirstContaining(cols[1..], sub);
      if rest.None? then None else Some(rest.value + 1)
  }

  /** The checks `process` makes before its loop, in the order it makes them; on success the
      prepared prices, the trading days and the adjusted-close column. */
  function Setup(gold: Frame, pricesIn: Frame, calendarIn: Frame): Result<(seq<Row>, seq<string>, Column), LabelError>
  {
    var prices := PreparePrices(pricesIn);
    var calendar := PrepareCalendar(calendarIn);
    if "ticker" !in prices.columns then Err(MissingColumn("ticker"))
    else if "date" !in prices.columns then Err(MissingColumn("date"))
    else if AdjClose !in prices.columns then Err(MissingColumn(AdjClose))
    else if "date" !in calendar.columns then Err(MissingColumn("date"))
    else if DateTexts(calendar.rows).None? then Err(UnsortableCalendar)
    else if "date" !in gold.columns then Err(MissingColumn("date"))
    else
      match FirstContaining(gold.columns, AdjClose)
      case None => Err(NoAdjustedClose)
      case Some(k) =>
        if |gold.rows| > 0 && "ticker" !in gold.columns then Err(MissingColumn("ticker"))
        else Ok((prices.rows, TradeDates(DateTexts(calendar.rows).value), gold.columns[k]))
  }

  /** The labels `process` computes, one per gold row, or the exception it raises. */
  function Labels(gold: Frame, pricesIn: Frame, calendarIn: Frame): Result<seq<LabelRow>, LabelError>
  {
    match Setup(gold, pricesIn, calendarIn)
    case Err(e) => Err(e)
    case Ok((prices, td, adj)) =>
      Ok(seq(|gold.rows|, i requires 0 <= i < |gold.rows| => RowLabel(gold.rows[i], adj, td, prices)))
  }

  // ---------------------------------------------------------------------------------------
  // The labels table
  // ---------------------------------------------------------------------------------------

  function ReturnColumn(h: nat): Column
  {
    "r_" + NatToString(h) + "d"
  }

  function NaColumn(h: nat): Column
  {
    "label_na_" + NatToString(h) + "d"
  }

  function ReturnCell(l: HorizonLabel): Cell
  {
    if l.returnBps.Some? then Some(Num(l.returnBps.value)) else None
  }

  /** The label cells of the horizons `hz`, one return and one flag column each. */
  function HorizonCells(hs: seq<HorizonLabel>, hz: seq<nat>): Row
    requires |hs| == |hz|
  {
    if hs == [] then map[]
    else HorizonCells(hs[1..], hz[1..])[ReturnColumn(hz[0]) := ReturnCell(hs[0])][NaColumn(hz[0]) := Some(Num(hs[0].labelNa as real))]
  }

  function HorizonColumns(hz: seq<nat>): seq<Column>
  {
    if hz == [] then [] else [ReturnColumn(hz[0]), NaColumn(hz[0])] + HorizonColumns(hz[1..])
  }

  /** `pd.DataFrame(results)`: the columns in the order the dicts were filled, and no columns
      at all when there are no results. */
  function LabelsFrame(results: seq<LabelRow>): Frame
    requires forall i :: 0 <= i < |results| ==> |results[i].horizons| == |Horizons|
  {
    if results == [] then Frame([], [])
    else
      Frame(["ticker", "date"] + HorizonColumns(Horizons),
            seq(|results|, i requires 0 <= i < |results| =>
              HorizonCells(results[i].horizons, Horizons)["ticker" := results[i].ticker]["date" := results[i].date]))
  }

  /** `Labeler.process`: the labels table, or the exception. */
  function LabelTable(gold: Frame, pricesIn: Frame, calendarIn: Frame): Result<Frame, LabelError>
  {
    match Labels(gold, pricesIn, calendarIn)
    case Err(e) => Err(e)
    case Ok(rows) =>
      LabelsShape(gold, pricesIn, calendarIn);
      Ok(LabelsFrame(rows))
  }

  // ---------------------------------------------------------------------------------------
  // The labeling loop
  // ---------------------------------------------------------------------------------------

  /** The body of the loop over `df_gold.iterrows()`: the labels of one row, one horizon at
      a time. */
  method LabelOneRow(row: Row, adj: Column, td: seq<string>, prices: seq<Row>) returns (lr: LabelRow)
    ensures lr == RowLabel(row, adj, td, prices)
  {
    var t := Get(row, "ticker");
    var idx := RowIndex(row, td);
    var pt := Numeric(Get(row, adj));
    var hs: seq<HorizonLabel> := [];
    var k := 0;
    if idx.None? || pt.None? {
      while k < |Horizons|
        invariant 0 <= k <= |Horizons|
        invariant hs == AllMissing()[..k]
      {
        hs := hs + [HorizonLabel(None, 1)];
        k := k + 1;
      }
      assert AllMissing()[..|Horizons|] == AllMissing();
    } else {
      while k < |Horizons|
        invariant 0 <= k <= |Horizons|
        invariant |hs| == k
        invariant forall j :: 0 <= j < k ==> hs[j] == HorizonOf(prices, td, t, idx.value, pt.value, Horizons[j])
      {
        var future := idx.value + Horizons[k];
        var pth: Option<real> := None;
        if future < |td| {
          pth := Numeric(PriceAt(prices, t, td[future]));
        }
        var hl: HorizonLabel;
        if pth.None? || pt.value == 0.0 {
          hl := HorizonLabel(None, 1);
        } else {
          hl := HorizonLabel(Some(Clamp(10000.0 * (pth.value / pt.value - 1.0))), 0);
        }
        hs := hs + [hl];
        k := k + 1;
      }
    }
    lr := LabelRow(t, Get(row, "date"), hs);
  }

  /** `Labeler.process`: the checks, then one pass over the gold rows. */
  method Process(gold: Frame, pricesIn: Frame, calendarIn: Frame) returns (r: Result<Frame, LabelError>)
    ensures r == LabelTable(gold, pricesIn, calendarIn)
  {
    var setup := Setup(gold, pricesIn, calendarIn);
    if setup.Err? {
      return Err(setup.error);
    }
    var (prices, td, adj) := setup.value;
    var results := LabelRows(gold.rows, adj, td, prices);
    LabelTableOk(gold, pricesIn, calendarIn, results);
    return Ok(LabelsFrame(results));
  }

  /** The loop over `df_gold.iterrows()`: one label row per gold row, in order. */
  method LabelRows(rows: seq<Row>, adj: Column, td: seq<string>, prices: seq<Row>) returns (results: seq<LabelRow>)
    ensures |results| == |rows|
    ensures forall k :: 0 <= k < |rows| ==> results[k] == RowLabel(rows[k], adj, td, prices)
  {
    results := [];
    var i := 0;
    while i < |rows|
      invariant 0 <= i <= |rows|
      invariant |results| == i
      invariant forall k :: 0 <= k < i ==> results[k] == RowLabel(rows[k], adj, td, prices)
    {
      var lr := LabelOneRow(rows[i], adj, td, prices);
      results := results + [lr];
      i := i + 1;
    }
  }

  /** The row labels computed after a successful setup make the labels table. */
  lemma LabelTableOk(gold: Frame, pricesIn: Frame, calendarIn: Frame, results: seq<LabelRow>)
    requires Setup(gold, pricesIn, calendarIn).Ok?
    requires var (prices, td, adj) := Setup(gold, pricesIn, calendarIn).value;
             && |results| == |gold.rows|
             && forall k :: 0 <= k < |gold.rows| ==> results[k] == RowLabel(gold.rows[k], adj, td, prices)
    ensures forall i :: 0 <= i < |results| ==> |results[i].horizons| == |Horizons|
    ensures LabelTable(gold, pricesIn, calendarIn) == Ok(LabelsFrame(results))
  {
    assert results == Labels(gold, pricesIn, calendarIn).value;
    LabelsShape(gold, pricesIn, calendarIn);
  }

  // ---------------------------------------------------------------------------------------
  // What the labels mean
  // ---------------------------------------------------------------------------------------

  /** One label row per gold row, in order, carrying the row's ticker and date and one label
      per horizon. */
  lemma LabelsShape(gold: Frame, pricesIn: Frame, calendarIn: Frame)
    ensures var r := Labels(gold, pricesIn, calendarIn);
            r.Ok? ==>
              && |r.value| == |gold.rows|
              && forall i :: 0 <= i < |gold.rows| ==>
                   && r.value[i].ticker == Get(gold.rows[i], "ticker")
                   && r.value[i].date == Get(gold.rows[i], "date")
                   && |r.value[i].horizons| == |Horizons|
  {
    var r := Labels(gold, pricesIn, calendarIn);
    if r.Ok? {
      LabelsAt(gold, pricesIn, calendarIn);
      var s := Setup(gold, pricesIn, calendarIn).value;
      forall i | 0 <= i < |gold.rows|
        ensures && r.value[i].ticker == Get(gold.rows[i], "ticker")
                && r.value[i].date == Get(gold.rows[i], "date")
                && |r.value[i].horizons| == |Horizons|
      {
        RowLabelShape(gold.rows[i], s.2, s.1, s.0);
      }
    }
  }

  /** A successful run labels gold row `i` with `RowLabel` over the checked inputs. */
  lemma LabelsAt(gold: Frame, pricesIn: Frame, calendarIn: Frame)
    requires Labels(gold, pricesIn, calendarIn).Ok?
    ensures Setup(gold, pricesIn, calendarIn).Ok?
    ensures var s := Setup(gold, pricesIn, calendarIn).value;
            var r := Labels(gold, pricesIn, calendarIn).value;
            |r| == |gold.rows| && forall i :: 0 <= i < |gold.rows| ==> r[i] == RowLabel(gold.rows[i], s.2, s.1, s.0)
  {
  }

  lemma RowLabelShape(row: Row, adj: Column, td: seq<string>, prices: seq<Row>)
    ensures var l := RowLabel(row, adj, td, prices);
            l.ticker == Get(row, "ticker") && l.date == Get(row, "date") && |l.horizons| == |Horizons|
  {
  }

  /** The checks, in order: each exception is raised exactly when the tables get past the
      earlier checks and fail this one; on success the prices have their `date` column, the
      trading days come from the calendar's dates, and the adjusted close is read from the
      first gold column whose name contains `adj_close_hfq`. */
  lemma SetupSpec(gold: Frame, pricesIn: Frame, calendarIn: Frame)
    ensures var prices := PreparePrices(pricesIn);
            var calendar := PrepareCalendar(calendarIn);
            var early := "ticker" in prices.columns && "date" in prices.columns && AdjClose in prices.columns &&
                         "date" in calendar.columns && DateTexts(calendar.rows).Some? && "date" in gold.columns;
            var s := Setup(gold, pricesIn, calendarIn);
            && (s == Err(NoAdjustedClose) <==> early && forall c :: c in gold.columns ==> !Contains(c, AdjClose))
            && (s == Err(UnsortableCalendar) <==>
                  "ticker" in prices.columns && "date" in prices.columns && AdjClose in prices.columns &&
                  "date" in calendar.columns && DateTexts(calendar.rows).None?)
            && (s.Ok? ==>
                  && early
                  && s.value.0 == prices.rows
                  && s.value.1 == TradeDates(DateTexts(calendar.rows).value)
                  && Contains(s.value.2, AdjClose)
                  && exists k :: 0 <= k < |gold.columns| && gold.columns[k] == s.value.2 &&
                                 forall j :: 0 <= j < k ==> !Contains(gold.columns[j], AdjClose))
  {
    var s := Setup(gold, pricesIn, calendarIn);
    if s.Ok? {
      var k := FirstContaining(gold.columns, AdjClose).value;
      assert gold.columns[k] == s.value.2;
    }
  }

  /** Strictly ascending texts: what `sorted(... .unique())` produces. */
  ghost predicate Ascending(td: seq<string>)
  {
    forall i, j :: 0 <= i < j < |td| ==> Less(td[i], td[j])
  }

  /** Among strictly ascending trading days, a day's index is its position. */
  lemma AscendingIndex(td: seq<string>, j: nat)
    requires Ascending(td) && j < |td|
    ensures DateIndex(td, td[j]) == Some(j)
  {
    var x := td[j];
    assert x in td;
    var m := DateIndex(td, x).value;
    assert j < m ==> x != x;
    assert m < j ==> Less(td[m], x);
    LessIrreflexive(x);
  }

  /** One horizon's label: a clipped return and `label_na = 0` exactly when day `idx + h`
      exists, the row's close is non-zero and a numeric price is listed that day. */
  lemma HorizonMeaning(prices: seq<Row>, td: seq<string>, t: Cell, idx: nat, pt: real, h: nat)
    ensures var l := HorizonOf(prices, td, t, idx, pt, h);
            && (l.labelNa == 0 || l.labelNa == 1)
            && (l.labelNa == 0 <==> l.returnBps.Some?)
            && (l.returnBps.Some? <==> idx + h < |td| && pt != 0.0 && Numeric(PriceAt(prices, t, td[idx + h])).Some?)
            && (l.returnBps.Some? ==>
                  && -2000.0 <= l.returnBps.value <= 2000.0
                  && l.returnBps.value == ReturnBps(pt, Numeric(PriceAt(prices, t, td[idx + h])).value))
  {
  }

  /** Horizon `h` is computable for a row at trading day `j`: its date is day `j`, day
      `j + h` exists, its adjusted close is a non-zero number and a numeric price is listed
      for its ticker on day `j + h`. */
  ghost predicate Reportable(row: Row, adj: Column, td: seq<string>, prices: seq<Row>, h: nat, j: int)
  {
    && 0 <= j && j + h < |td| && Get(row, "date") == Some(Str(td[j]))
    && Numeric(Get(row, adj)).Some? && Numeric(Get(row, adj)).value != 0.0
    && Numeric(PriceAt(prices, Get(row, "ticker"), td[j + h])).Some?
  }

  /** The horizon-`h` return, in clipped basis points, of a reportable row at day `j`. */
  ghost function ReturnOn(row: Row, adj: Column, td: seq<string>, prices: seq<Row>, h: nat, j: int): real
    requires Reportable(row, adj, td, prices, h, j)
  {
    ReturnBps(Numeric(Get(row, adj)).value, Numeric(PriceAt(prices, Get(row, "ticker"), td[j + h])).value)
  }

  /** The label of one row for horizon `k`, over strictly ascending trading days. */
  lemma RowLabelMeaning(row: Row, adj: Column, td: seq<string>, prices: seq<Row>, k: nat)
    requires Ascending(td) && k < |Horizons|
    ensures var l := RowLabel(row, adj, td, prices).horizons[k];
            && (l.labelNa == 0 || l.labelNa == 1)
            && (l.labelNa == 0 <==> l.returnBps.Some?)
            && (l.returnBps.Some? ==> -2000.0 <= l.returnBps.value <= 2000.0)
            && (l.returnBps.Some? <==> exists j :: Reportable(row, adj, td, prices, Horizons[k], j))
            && (forall j :: Reportable(row, adj, td, prices, Horizons[k], j) ==>
                  Less(td[j], td[j + Horizons[k]]) && l.returnBps == Some(ReturnOn(row, adj, td, prices, Horizons[k], j)))
  {
    var h := Horizons[k];
    var idx := RowIndex(row, td);
    var pt := Numeric(Get(row, adj));
    if idx.None? || pt.None? {
      UnindexedRowMeaning(row, adj, td, prices, k);
    } else {
      IndexedRowMeaning(row, adj, td, prices, k, idx.value, pt.value);
    }
  }

  /** A row reportable at day `j` has trading-day index `j` and a numeric close. */
  lemma ReportableIndex(row: Row, adj: Column, td: seq<string>, prices: seq<Row>, h: nat, j: int)
    requires Ascending(td)
    ensures Reportable(row, adj, td, prices, h, j) ==>
              RowIndex(row, td) == Some(j as nat) && Numeric(Get(row, adj)).Some?
  {
    if Reportable(row, adj, td, prices, h, j) {
      AscendingIndex(td, j);
    }
  }

  /** A row off the calendar or without a numeric close gets NA labels and is reportable nowhere. */
  lemma UnindexedRowMeaning(row: Row, adj: Column, td: seq<string>, prices: seq<Row>, k: nat)
    requires Ascending(td) && k < |Horizons|
    requires RowIndex(row, td).None? || Numeric(Get(row, adj)).None?
    ensures RowLabel(row, adj, td, prices).horizons[k] == HorizonLabel(None, 1)
    ensures forall j :: !Reportable(row, adj, td, prices, Horizons[k], j)
  {
    forall j ensures !Reportable(row, adj, td, prices, Horizons[k], j) {
      ReportableIndex(row, adj, td, prices, Horizons[k], j);
    }
  }

  /** A row at trading day `j` with a numeric close is reportable at `j` alone, and its label
      is the horizon label from day `j`. */
  lemma IndexedRowMeaning(row: Row, adj: Column, td: seq<string>, prices: seq<Row>, k: nat, j: nat, pt: real)
    requires Ascending(td) && k < |Horizons|
    requires RowIndex(row, td) == Some(j) && Numeric(Get(row, adj)) == Some(pt)
    ensures var l := RowLabel(row, adj, td, prices).horizons[k];
            && (l.labelNa == 0 || l.labelNa == 1)
            && (l.labelNa == 0 <==> l.returnBps.Some?)
            && (l.returnBps.Some? ==> -2000.0 <= l.returnBps.value <= 2000.0)
            && (l.returnBps.Some? <==> exists j :: Reportable(row, adj, td, prices, Horizons[k], j))
            && (forall j :: Reportable(row, adj, td, prices, Horizons[k], j) ==>
                  Less(td[j], td[j + Horizons[k]]) && l.returnBps == Some(ReturnOn(row, adj, td, prices, Horizons[k], j)))
  {
    RowLabelAt(row, adj, td, prices, j, pt, k);
    HorizonAtDay(row, adj, td, prices, Horizons[k], j, pt);
  }

  /** The horizon-`h` label from day `j` of a row dated day `j` with close `pt`. */
  lemma HorizonAtDay(row: Row, adj: Column, td: seq<string>, prices: seq<Row>, h: nat, j: nat, pt: real)
    requires Ascending(td) && h > 0
    requires RowIndex(row, td) == Some(j) && Numeric(Get(row, adj)) == Some(pt)
    ensures var l := HorizonOf(prices, td, Get(row, "ticker"), j, pt, h);
            && (l.labelNa == 0 || l.labelNa == 1)
            && (l.labelNa == 0 <==> l.returnBps.Some?)
            && (l.returnBps.Some? ==> -2000.0 <= l.returnBps.value <= 2000.0)
            && (l.returnBps.Some? <==> exists j :: Reportable(row, adj, td, prices, h, j))
            && (forall j :: Reportable(row, adj, td, prices, h, j) ==>
                  Less(td[j], td[j + h]) && l.returnBps == Some(ReturnOn(row, adj, td, prices, h, j)))
  {
    var l := HorizonOf(prices, td, Get(row, "ticker"), j, pt, h);
    HorizonMeaning(prices, td, Get(row, "ticker"), j, pt, h);
    RowIndexDate(row, td, j);
    OnlyDay(row, adj, td, prices, h, j);
    assert l.returnBps.Some? <==> Reportable(row, adj, td, prices, h, j);
    assert j + h < |td| ==> Less(td[j], td[j + h]);
  }

  /** A row with trading-day index `j` is reportable at no other day. */
  lemma OnlyDay(row: Row, adj: Column, td: seq<string>, prices: seq<Row>, h: nat, j: nat)
    requires Ascending(td) && RowIndex(row, td) == Some(j)
    ensures forall j' :: Reportable(row, adj, td, prices, h, j') ==> j' == j
  {
    forall j' ensures Reportable(row, adj, td, prices, h, j') ==> j' == j {
      ReportableIndex(row, adj, td, prices, h, j');
    }
  }

  /** A row with trading-day index `j` is dated day `j`. */
  lemma RowIndexDate(row: Row, td: seq<string>, j: nat)
    requires RowIndex(row, td) == Some(j)
    ensures j < |td| && Get(row, "date") == Some(Str(td[j]))
  {
  }

  /** Among strictly ascending trading days, a row dated on day `j` has index `j`. */
  lemma DatedRowIndex(row: Row, td: seq<string>, j: nat, d: string)
    requires Ascending(td) && j < |td| && td[j] == d && Get(row, "date") == Some(Str(d))
    ensures RowIndex(row, td) == Some(j)
  {
    AscendingIndex(td, j);
  }

  /** What a label means: `label_na` is 0 or 1, and 0 exactly when a return is reported; a
      return is reported exactly when the row is reportable at some trading day, and it is
      then the clipped return from that day's close to the price `h` trading days (strictly
      later dates) on. */
  lemma LabelMeaning(gold: Frame, pricesIn: Frame, calendarIn: Frame, i: nat, k: nat)
    requires Labels(gold, pricesIn, calendarIn).Ok? && i < |gold.rows| && k < |Horizons|
    ensures var s := Setup(gold, pricesIn, calendarIn).value;
            var l := Labels(gold, pricesIn, calendarIn).value[i].horizons[k];
            && Ascending(s.1)
            && (l.labelNa == 0 || l.labelNa == 1)
            && (l.labelNa == 0 <==> l.returnBps.Some?)
            && (l.returnBps.Some? ==> -2000.0 <= l.returnBps.value <= 2000.0)
            && (l.returnBps.Some? <==> exists j :: Reportable(gold.rows[i], s.2, s.1, s.0, Horizons[k], j))
            && (forall j :: Reportable(gold.rows[i], s.2, s.1, s.0, Horizons[k], j) ==>
                  Less(s.1[j], s.1[j + Horizons[k]]) &&
                  l.returnBps == Some(ReturnOn(gold.rows[i], s.2, s.1, s.0, Horizons[k], j)))
  {
    var s := Setup(gold, pricesIn, calendarIn).value;
    assert s.1 == TradeDates(DateTexts(PrepareCalendar(calendarIn).rows).value);
    TradeDatesSpec(DateTexts(PrepareCalendar(calendarIn).rows).value);
    assert Labels(gold, pricesIn, calendarIn).value[i] == RowLabel(gold.rows[i], s.2, s.1, s.0);
    RowLabelMeaning(gold.rows[i], s.2, s.1, s.0, k);
  }

  /** Strictly ascending distinct dates are their own trading calendar. */
  lemma TradeDatesOfAscending(texts: seq<string>)
    requires Ascending(texts)
    ensures TradeDates(texts) == texts
  {
    assert NoDup(texts) by {
      forall i, j | 0 <= i < j < |texts| ensures texts[i] != texts[j] {
        LessIrreflexive(texts[i]);
      }
    }
    AppendNewFresh([], texts);
    assert [] + texts == texts;
    SortBySpec(texts, TextKey);
    SortedUnique(SortBy(texts, TextKey), texts, TextKey);
  }

  // ---------------------------------------------------------------------------------------
  // The labeler's test case: one ticker over three trading days
  // ---------------------------------------------------------------------------------------

  function ExampleDays(): seq<string>
  {
    ["2024-01-02", "2024-01-03", "2024-01-04"]
  }

  /** A row of the example's gold and price tables. */
  function ExampleRow(d: string, close: real): Row
  {
    map["ticker" := Some(Str("TICKER_A")), "date" := Some(Str(d)), AdjClose := Some(Num(close))]
  }

  function ExampleGold(): Frame
  {
    Frame(["ticker", "date", AdjClose], [ExampleRow("2024-01-02", 100.0), ExampleRow("2024-01-03", 102.0)])
  }

  function ExamplePrices(): Frame
  {
    Frame(["ticker", "date", AdjClose],
          [ExampleRow("2024-01-02", 100.0), ExampleRow("2024-01-03", 102.0), ExampleRow("2024-01-04", 99.96)])
  }

  function ExampleCalendar(): Frame
  {
    Frame(["trade_date"], [map["trade_date" := Some(Str("2024-01-02"))],
                           map["trade_date" := Some(Str("2024-01-03"))],
                           map["trade_date" := Some(Str("2024-01-04"))]])
  }

  lemma ExampleDaysAscending()
    ensures Ascending(ExampleDays())
  {
    var td := ExampleDays();
    Dates2024.Jan02BeforeJan03();
    Dates2024.Jan03BeforeJan04();
    Dates2024.Jan02BeforeJan04();
    forall i, j | 0 <= i < j < |td| ensures Less(td[i], td[j]) {
      assert (i == 0 && j == 1) || (i == 0 && j == 2) || (i == 1 && j == 2);
    }
  }

  /** The example passes every check; its trading days are the three calendar dates. */
  lemma ExampleSetup()
    ensures Setup(ExampleGold(), ExamplePrices(), ExampleCalendar()) == Ok((ExamplePrices().rows, ExampleDays(), AdjClose))
  {
    var prices := ExamplePrices();
    NotInByLength("effective_date", prices.columns);
    ExampleCalendarTexts();
    ExampleTradeDays();
    assert PreparePrices(prices) == prices;
    assert "ticker" in prices.columns && "date" in prices.columns && AdjClose in prices.columns;
    assert "date" in ExampleGold().columns && "ticker" in ExampleGold().columns && ExampleGold().columns[2] == AdjClose;
    ExampleAdjColumn();
    SetupPasses(ExampleGold(), prices, ExampleCalendar(), 2);
  }

  /** Tables that pass every check give the prepared prices, the sorted calendar days and the
      first adjusted-close column. */
  lemma SetupPasses(gold: Frame, pricesIn: Frame, calendarIn: Frame, k: nat)
    requires var prices := PreparePrices(pricesIn);
             var calendar := PrepareCalendar(calendarIn);
             && "ticker" in prices.columns && "date" in prices.columns && AdjClose in prices.columns
             && "date" in calendar.columns && DateTexts(calendar.rows).Some?
             && "date" in gold.columns && "ticker" in gold.columns
             && FirstContaining(gold.columns, AdjClose) == Some(k)
    ensures k < |gold.columns|
    ensures Setup(gold, pricesIn, calendarIn) ==
            Ok((PreparePrices(pricesIn).rows, TradeDates(DateTexts(PrepareCalendar(calendarIn).rows).value), gold.columns[k]))
  {
  }

  /** The example's days are already sorted and distinct. */
  lemma ExampleTradeDays()
    ensures TradeDates(ExampleDays()) == ExampleDays()
  {
    ExampleDaysAscending();
    TradeDatesOfAscending(ExampleDays());
  }

  /** The prepared example calendar keys on `date` and lists the example's three days. */
  lemma ExampleCalendarTexts()
    ensures var g := PrepareCalendar(ExampleCalendar());
            "date" in g.columns && DateTexts(g.rows) == Some(ExampleDays())
  {
    var cal := ExampleCalendar();
    var g := PrepareCalendar(cal);
    NotInByLength("effective_date", cal.columns);
    NotInByLength("date", cal.columns);
    assert "trade_date" in cal.columns;
    PrepareCalendarSpec(cal);
    assert |g.rows| == 3;
    forall i | 0 <= i < |g.rows| ensures Get(g.rows[i], "date") == Some(Str(ExampleDays()[i])) {
      assert Get(g.rows[i], "date") == Get(cal.rows[i], "trade_date");
    }
    DateTextsOf(g.rows, ExampleDays());
  }

  /** Rows dated with the texts `days`, in order, have exactly those date texts. */
  lemma DateTextsOf(rows: seq<Row>, days: seq<string>)
    requires |rows| == |days| && forall i :: 0 <= i < |rows| ==> Get(rows[i], "date") == Some(Str(days[i]))
    ensures DateTexts(rows) == Some(days)
  {
    var texts := DateTexts(rows);
    assert texts.Some?;
    forall i | 0 <= i < |days| ensures texts.value[i] == days[i] {
      assert Get(rows[i], "date") == Some(Str(texts.value[i]));
    }
    assert texts.value == days;
  }

  /** The first column containing `sub` is the one at `k` when that one contains it and no
      earlier one does. */
  lemma FirstContainingIs(cols: seq<Column>, sub: string, k: nat)
    requires k < |cols| && Contains(cols[k], sub)
    requires forall j :: 0 <= j < k ==> !Contains(cols[j], sub)
    ensures FirstContaining(cols, sub) == Some(k)
  {
    assert cols[k] in cols;
  }

  /** The example's adjusted close is its third column. */
  lemma ExampleAdjColumn()
    ensures FirstContaining(ExampleGold().columns, AdjClose) == Some(2)
  {
    var cols := ExampleGold().columns;
    ContainsLength(cols[0], AdjClose);
    ContainsLength(cols[1], AdjClose);
    ContainsLength(cols[2], AdjClose);
    FirstContainingIs(cols, AdjClose, 2);
  }

  /** A row dated on trading day `j` with a numeric close `pt` gets, for each horizon, its
      `HorizonOf` label. */
  lemma RowLabelAt(row: Row, adj: Column, td: seq<string>, prices: seq<Row>, j: nat, pt: real, k: nat)
    requires RowIndex(row, td) == Some(j) && Numeric(Get(row, adj)) == Some(pt) && k < |Horizons|
    ensures RowLabel(row, adj, td, prices).horizons[k] == HorizonOf(prices, td, Get(row, "ticker"), j, pt, Horizons[k])
  {
  }

  /** The example's price lookups: each day's row is the last listed under its date. */
  lemma ExampleLookups()
    ensures LastPriceRow(ExamplePrices().rows, Some(Str("TICKER_A")), ExampleDays()[1]) == Some(1)
    ensures LastPriceRow(ExamplePrices().rows, Some(Str("TICKER_A")), ExampleDays()[2]) == Some(2)
  {
    var p := ExamplePrices().rows;
    var t := Some(Str("TICKER_A"));
    var td := ExampleDays();
    ExampleRowCells("2024-01-03", 102.0);
    ExampleRowCells("2024-01-04", 99.96);
    assert PriceKey(p[2], t, td[2]);
    assert !PriceKey(p[2], t, td[1]) by {
      assert td[1][9] != td[2][9];
    }
    assert p[..2][1] == p[1];
    assert PriceKey(p[..2][1], t, td[1]);
  }

  lemma ExampleRowCells(d: string, close: real)
    ensures Get(ExampleRow(d, close), "ticker") == Some(Str("TICKER_A"))
    ensures Get(ExampleRow(d, close), "date") == Some(Str(d))
    ensures Numeric(Get(ExampleRow(d, close), AdjClose)) == Some(close)
  {
    assert "ticker" != "date" by { assert "ticker"[0] != "date"[0]; }
    assert AdjClose != "date" && AdjClose != "ticker" by {
      assert AdjClose[0] != "date"[0] && AdjClose[0] != "ticker"[0];
    }
  }

  /** The first gold row (day 0, close 100.0): the next day's close 102.0 is +200 bps. */
  lemma ExampleFirstRow()
    ensures RowLabel(ExampleGold().rows[0], AdjClose, ExampleDays(), ExamplePrices().rows).horizons[0] ==
            HorizonLabel(Some(200.0), 0)
  {
    var td := ExampleDays();
    var prices := ExamplePrices().rows;
    var t := Some(Str("TICKER_A"));
    var row := ExampleGold().rows[0];
    ExampleDaysAscending();
    assert Get(row, "date") == Some(Str("2024-01-02"));
    DatedRowIndex(row, td, 0, "2024-01-02");
    assert Numeric(Get(row, AdjClose)) == Some(100.0);
    assert Get(row, "ticker") == t;
    RowLabelAt(row, AdjClose, td, prices, 0, 100.0, 0);
    ExampleNextDay();
  }

  /** From 100.0 to the next day's 102.0 is +200 bps. */
  lemma ExampleNextDay()
    ensures HorizonOf(ExamplePrices().rows, ExampleDays(), Some(Str("TICKER_A")), 0, 100.0, 1) == HorizonLabel(Some(200.0), 0)
  {
    ExampleLookups();
    assert PriceAt(ExamplePrices().rows, Some(Str("TICKER_A")), ExampleDays()[1]) == Some(Num(102.0));
    assert ReturnBps(100.0, 102.0) == 200.0;
  }

  /** The second gold row (day 1, close 102.0) gets `HorizonOf` labels. */
  lemma ExampleSecondRowAt(k: nat)
    requires k < |Horizons|
    ensures RowLabel(ExampleGold().rows[1], AdjClose, ExampleDays(), ExamplePrices().rows).horizons[k] ==
            HorizonOf(ExamplePrices().rows, ExampleDays(), Some(Str("TICKER_A")), 1, 102.0, Horizons[k])
  {
    var td := ExampleDays();
    var row := ExampleGold().rows[1];
    assert row == ExampleRow("2024-01-03", 102.0);
    ExampleRowCells("2024-01-03", 102.0);
    ExampleDaysAscending();
    DatedRowIndex(row, td, 1, "2024-01-03");
    RowLabelAt(row, AdjClose, td, ExamplePrices().rows, 1, 102.0, k);
  }

  /** The second gold row: the next day's 99.96 is -200 bps, and there are no trading days
      5 or 20 days on. */
  lemma ExampleSecondRow()
    ensures var l := RowLabel(ExampleGold().rows[1], AdjClose, ExampleDays(), ExamplePrices().rows);
            && l.horizons[0] == HorizonLabel(Some(-200.0), 0)
            && l.horizons[1] == HorizonLabel(None, 1)
            && l.horizons[2] == HorizonLabel(None, 1)
  {
    var td := ExampleDays();
    var prices := ExamplePrices().rows;
    var t := Some(Str("TICKER_A"));
    ExampleSecondRowAt(0);
    ExampleSecondRowAt(1);
    ExampleSecondRowAt(2);
    assert HorizonOf(prices, td, t, 1, 102.0, 1) == HorizonLabel(Some(-200.0), 0) by {
      ExampleLookups();
      assert PriceAt(prices, t, td[2]) == Some(Num(99.96));
    }
    assert HorizonOf(prices, td, t, 1, 102.0, 5) == HorizonLabel(None, 1);
    assert HorizonOf(prices, td, t, 1, 102.0, 20) == HorizonLabel(None, 1);
  }

  /** The expected labels: +200 bps and -200 bps over one day, and no 5- or 20-day label for
      the second date. */
  lemma LabelerExample()
    ensures var r := Labels(ExampleGold(), ExamplePrices(), ExampleCalendar());
            && r.Ok? && |r.value| == 2
            && r.value[0].horizons[0] == HorizonLabel(Some(200.0), 0)
            && r.value[1].horizons[0] == HorizonLabel(Some(-200.0), 0)
            && r.value[1].horizons[1] == HorizonLabel(None, 1)
            && r.value[1].horizons[2] == HorizonLabel(None, 1)
  {
    ExampleSetup();
    ExampleFirstRow();
    ExampleSecondRow();
  }
}
