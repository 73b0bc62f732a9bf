/** The auditor: the features/labels join it audits, the lookahead check (no effective date
    after the observation date), the per-column null counts and the label-NA totals. */
module Audit {
  import opened Wrappers
  import opened Strings
  import opened Frames
  import Label
  import Dates2024

  /** The columns the gold tables are joined on. */
  const JoinKeys: seq<Column> := ["ticker", "date"]

  /** The `KeyError` `pd.merge` raises when a table lacks a join key. */
  datatype AuditError = MissingJoinKey

  /** What one audit run reports: the audited columns, the lookahead violation total, the
      `(column, missing_count)` report and the `(label_horizon, na_label_count)` totals. */
  datatype AuditReport = AuditReport(
    audited: seq<Column>,
    violations: nat,
    missing: seq<(Column, nat)>,
    naTotals: seq<(Column, real)>)

  // ---------------------------------------------------------------------------------------
  // The audited table
  // ---------------------------------------------------------------------------------------

  /** `_load_gold_data`: `pd.merge(features, labels, on=['ticker', 'date'])`, an inner join. */
  function GoldTable(features: Frame, labels: Frame): (r: Result<Frame, AuditError>)
    ensures r.Err? <==> exists k :: k in JoinKeys && (k !in features.columns || k !in labels.columns)
    ensures r.Ok? ==> r.value.columns == features.columns + NonKeyColumns(labels.columns, JoinKeys)
  {
    if forall k :: k in JoinKeys ==> k in features.columns && k in labels.columns
    then Ok(Merge(features, labels, JoinKeys, false))
    else Err(MissingJoinKey)
  }

  /** Two rows with the same ticker and the same date. */
  predicate SameKey(l: Row, m: Row)
  {
    Get(l, "ticker") == Get(m, "ticker") && Get(l, "date") == Get(m, "date")
  }

  /** The audited rows are exactly the feature rows joined to the label rows with the same
      ticker and date, each extended with the label row's cells: every audited row is such a
      pair, and every such pair is an audited row. */
  lemma GoldTableRows(features: Frame, labels: Frame)
    requires GoldTable(features, labels).Ok?
    ensures forall o :: o in GoldTable(features, labels).value.rows ==>
              exists l, m :: l in features.rows && m in labels.rows && SameKey(l, m) &&
                             o == Attach(l, m, NonKeyColumns(labels.columns, JoinKeys))
    ensures forall l, m :: l in features.rows && m in labels.rows && SameKey(l, m) ==>
              Attach(l, m, NonKeyColumns(labels.columns, JoinKeys)) in GoldTable(features, labels).value.rows
  {
    var newCols := NonKeyColumns(labels.columns, JoinKeys);
    var out := MergeRows(features.rows, labels.rows, JoinKeys, newCols, false);
    assert GoldTable(features, labels).value.rows == out;
    InnerMergeRows(features.rows, labels.rows, JoinKeys, newCols);
    SameKeyIsKeysMatch();
  }

  /** Matching on the join keys is having the same ticker and date. */
  lemma SameKeyIsKeysMatch()
    ensures forall l, m :: KeysMatch(l, m, JoinKeys) <==> SameKey(l, m)
  {
    assert JoinKeys[0] == "ticker" && JoinKeys[1] == "date" && |JoinKeys| == 2;
    forall l, m | SameKey(l, m) ensures KeysMatch(l, m, JoinKeys) {
      forall k | k in JoinKeys ensures Get(l, k) == Get(m, k) {
      }
    }
  }

  // ---------------------------------------------------------------------------------------
  // Lookahead audit
  // ---------------------------------------------------------------------------------------

  /** The marker that names the columns the lookahead audit checks. */
  const EffectiveDateMarker: string := "effective_date"

  /** The marker that names the label-NA count columns. */
  const LabelNaMarker: string := "label_na"

  /** The columns of `df`, in order, whose name contains `marker`: the lookahead audit selects
      its columns with `EffectiveDateMarker`, the NA sums theirs with `LabelNaMarker`. */
  function MarkedColumns(df: Frame, marker: string): (r: seq<Column>)
    ensures forall c :: c in r <==> c in df.columns && Contains(c, marker)
  {
    ColumnsContaining(df.columns, marker)
  }

  /** `to_datetime(row[ed]) > to_datetime(row['date'])` on ISO date texts, whose text order is
      their date order; a null date on either side (NaT) compares false. */
  predicate Violates(r: Row, ed: Column)
  {
    match (Get(r, ed), Get(r, "date"))
    case (Some(Str(e)), Some(Str(d))) => Less(d, e)
    case _ => false
  }

  /** `len(df[to_datetime(df[ed]) > to_datetime(df['date'])])`. */
  function ViolationCount(rows: seq<Row>, ed: Column): (n: nat)
    ensures n <= |rows|
    decreases |rows|
  {
    if rows == [] then 0
    else ViolationCount(rows[..|rows| - 1], ed) + (if Violates(rows[|rows| - 1], ed) then 1 else 0)
  }

  /** The violations summed over the audited columns `cols`. */
  function TotalViolations(rows: seq<Row>, cols: seq<Column>): nat
    decreases |cols|
  {
    if cols == [] then 0
    else TotalViolations(rows, cols[..|cols| - 1]) + ViolationCount(rows, cols[|cols| - 1])
  }

  /** Each violating row adds one to its column's count; a row whose effective date is not
      after its date adds nothing. */
  lemma ViolationCountAppend(rows: seq<Row>, r: Row, ed: Column)
    ensures ViolationCount(rows + [r], ed) == ViolationCount(rows, ed) + (if Violates(r, ed) then 1 else 0)
  {
    assert (rows + [r])[..|rows|] == rows;
  }

  /** A column's count is zero exactly when none of its rows violates. */
  lemma {:induction false} ViolationCountZero(rows: seq<Row>, ed: Column)
    ensures ViolationCount(rows, ed) == 0 <==> forall i :: 0 <= i < |rows| ==> !Violates(rows[i], ed)
    decreases |rows|
  {
    if rows != [] {
      var init := rows[..|rows| - 1];
      ViolationCountZero(init, ed);
      assert forall i :: 0 <= i < |init| ==> init[i] == rows[i];
    }
  }

  /** The audit passes (zero violations) exactly when no audited column has a row whose
      effective date is after its date; with no audited columns it always passes. */
  lemma {:induction false} TotalViolationsZero(rows: seq<Row>, cols: seq<Column>)
    ensures TotalViolations(rows, cols) == 0 <==>
            forall c, i :: c in cols && 0 <= i < |rows| ==> !Violates(rows[i], c)
    ensures cols == [] ==> TotalViolations(rows, cols) == 0
    decreases |cols|
  {
    if cols != [] {
      var init := cols[..|cols| - 1];
      var last := cols[|cols| - 1];
      TotalViolationsZero(rows, init);
      ViolationCountZero(rows, last);
      if TotalViolations(rows, cols) == 0 {
        forall c, i | c in cols && 0 <= i < |rows| ensures !Violates(rows[i], c) {
          var j :| 0 <= j < |cols| && cols[j] == c;
          if j < |cols| - 1 {
            assert c in init;
          }
        }
      } else if TotalViolations(rows, init) > 0 {
        var c, i :| c in init && 0 <= i < |rows| && Violates(rows[i], c);
        var j :| 0 <= j < |init| && init[j] == c;
        assert cols[j] == c;
        assert c in cols && !(forall c', i' :: c' in cols && 0 <= i' < |rows| ==> !Violates(rows[i'], c'));
      } else {
        var i :| 0 <= i < |rows| && Violates(rows[i], last);
        assert last in cols;
      }
    }
  }

  /** The lookahead loop: one pass over the audited columns, adding each column's count. */
  method LookaheadAudit(df: Frame) returns (audited: seq<Column>, violations: nat)
    ensures audited == MarkedColumns(df, EffectiveDateMarker)
    ensures violations == TotalViolations(df.rows, audited)
  {
    audited := MarkedColumns(df, EffectiveDateMarker);
    violations := 0;
    var i := 0;
    while i < |audited|
      invariant 0 <= i <= |audited|
      invariant violations == TotalViolations(df.rows, audited[..i])
    {
      assert audited[..i + 1][..i] == audited[..i];
      violations := violations + ViolationCount(df.rows, audited[i]);
      i := i + 1;
    }
    assert audited[..i] == audited;
  }

  // ---------------------------------------------------------------------------------------
  // Missing values and label NA totals
  // ---------------------------------------------------------------------------------------

  /** The number of null cells in column `c`. */
  function MissingCount(rows: seq<Row>, c: Column): (n: nat)
    ensures n <= |rows|
    decreases |rows|
  {
    if rows == [] then 0
    else MissingCount(rows[..|rows| - 1], c) + (if Get(rows[|rows| - 1], c).None? then 1 else 0)
  }

  /** A column's missing count is 0 exactly when it has no null cell, and the row count exactly
      when every cell is null. */
  lemma {:induction false} MissingCountBounds(rows: seq<Row>, c: Column)
    ensures MissingCount(rows, c) == 0 <==> forall i :: 0 <= i < |rows| ==> Get(rows[i], c).Some?
    ensures MissingCount(rows, c) == |rows| <==> forall i :: 0 <= i < |rows| ==> Get(rows[i], c).None?
    decreases |rows|
  {
    if rows != [] {
      var init := rows[..|rows| - 1];
      MissingCountBounds(init, c);
      assert forall i :: 0 <= i < |init| ==> init[i] == rows[i];
    }
  }

  /** `df.isnull().sum()`: one `(column, missing_count)` entry per column, in column order. */
  function MissingReport(df: Frame): (r: seq<(Column, nat)>)
    ensures |r| == |df.columns|
    ensures forall k :: 0 <= k < |r| ==> r[k].0 == df.columns[k] && r[k].1 <= |df.rows|
  {
    seq(|df.columns|, k requires 0 <= k < |df.columns| => (df.columns[k], MissingCount(df.rows, df.columns[k])))
  }

  /** `df[c].sum()`: the sum of the column's numbers, nulls skipped. */
  function ColumnSum(rows: seq<Row>, c: Column): real
    decreases |rows|
  {
    if rows == [] then 0.0
    else
      ColumnSum(rows[..|rows| - 1], c) +
      (match Get(rows[|rows| - 1], c) case Some(Num(x)) => x case _ => 0.0)
  }

  /** `df[label_na_cols].sum()`: one `(label_horizon, na_label_count)` entry per column. */
  function NaTotals(df: Frame): (r: seq<(Column, real)>)
    ensures |r| == |MarkedColumns(df, LabelNaMarker)|
    ensures forall k :: 0 <= k < |r| ==> Contains(r[k].0, LabelNaMarker) && r[k].0 in df.columns
  {
    var cols := MarkedColumns(df, LabelNaMarker);
    seq(|cols|, k requires 0 <= k < |cols| => (cols[k], ColumnSum(df.rows, cols[k])))
  }

  // ---------------------------------------------------------------------------------------
  // The audit run
  // ---------------------------------------------------------------------------------------

  /** `run_all_audits`: the join, the lookahead loop, then the two reports. */
  method RunAllAudits(features: Frame, labels: Frame) returns (r: Result<AuditReport, AuditError>)
    ensures GoldTable(features, labels).Err? <==> r == Err(MissingJoinKey)
    ensures r.Ok? ==>
              var df := GoldTable(features, labels).value;
              && r.value.audited == MarkedColumns(df, EffectiveDateMarker)
              && r.value.violations == TotalViolations(df.rows, r.value.audited)
              && (r.value.violations == 0 <==>
                    forall c, i :: c in MarkedColumns(df, EffectiveDateMarker) && 0 <= i < |df.rows| ==> !Violates(df.rows[i], c))
              && r.value.missing == MissingReport(df)
              && r.value.naTotals == NaTotals(df)
  {
    var gold := GoldTable(features, labels);
    if gold.Err? {
      return Err(gold.error);
    }
    var df := gold.value;
    var audited, violations := LookaheadAudit(df);
    TotalViolationsZero(df.rows, audited);
    r := Ok(AuditReport(audited, violations, MissingReport(df), NaTotals(df)));
  }

  // ---------------------------------------------------------------------------------------
  // The NA totals of a labels table
  // ---------------------------------------------------------------------------------------

  /** The number of label rows whose label for horizon `k` is missing. */
  function MissingLabels(results: seq<Label.LabelRow>, k: nat): (n: nat)
    ensures n <= |results|
    decreases |results|
  {
    if results == [] then 0
    else MissingLabels(results[..|results| - 1], k) +
         (if k < |results[|results| - 1].horizons| && results[|results| - 1].horizons[k].labelNa == 1 then 1 else 0)
  }

  lemma HorizonNames()
    ensures Label.NaColumn(1) == "label_na_1d" && Label.NaColumn(5) == "label_na_5d" && Label.NaColumn(20) == "label_na_20d"
    ensures Label.ReturnColumn(1) == "r_1d" && Label.ReturnColumn(5) == "r_5d" && Label.ReturnColumn(20) == "r_20d"
  {
    assert NatToString(20) == "20" by {
      assert NatToString(2) == "2" && Digit(0) == '0';
    }
  }

  /** In a labels row, the `label_na` cell of horizon `k` holds that horizon's flag. */
  lemma LabelsRowFlag(lr: Label.LabelRow, k: nat)
    requires |lr.horizons| == |Label.Horizons| && k < |Label.Horizons|
    ensures var row := Label.HorizonCells(lr.horizons, Label.Horizons)["ticker" := lr.ticker]["date" := lr.date];
            Get(row, Label.NaColumn(Label.Horizons[k])) == Some(Num(lr.horizons[k].labelNa as real))
  {
    HorizonNames();
    var hs := lr.horizons;
    var hz := Label.Horizons;
    assert hz[1..] == [5, 20] && hz[1..][1..] == [20] && hz[1..][1..][1..] == [];
    var cell := (l: Label.HorizonLabel) => Some(Num(l.labelNa as real));
    var m2 := Label.HorizonCells(hs[1..][1..], hz[1..][1..]);
    assert m2 == Label.HorizonCells(hs[1..][1..][1..], [])[Label.ReturnColumn(20) := Label.ReturnCell(hs[2])][Label.NaColumn(20) := cell(hs[2])];
    var m1 := Label.HorizonCells(hs[1..], hz[1..]);
    assert m1 == m2[Label.ReturnColumn(5) := Label.ReturnCell(hs[1])][Label.NaColumn(5) := cell(hs[1])];
    var m0 := Label.HorizonCells(hs, hz);
    assert m0 == m1[Label.ReturnColumn(1) := Label.ReturnCell(hs[0])][Label.NaColumn(1) := cell(hs[0])];
  }

  /** The NA total of a label flag column counts the rows whose label is missing. */
  lemma {:induction false} NaSumCountsMissing(results: seq<Label.LabelRow>, k: nat)
    requires k < |Label.Horizons|
    requires forall i :: 0 <= i < |results| ==> |results[i].horizons| == |Label.Horizons|
    requires forall i :: 0 <= i < |results| ==> results[i].horizons[k].labelNa in {0, 1}
    ensures ColumnSum(Label.LabelsFrame(results).rows, Label.NaColumn(Label.Horizons[k])) == MissingLabels(results, k) as real
    decreases |results|
  {
    if results != [] {
      var init := results[..|results| - 1];
      var last := results[|results| - 1];
      var c := Label.NaColumn(Label.Horizons[k]);
      NaSumCountsMissing(init, k);
      LabelsFrameLast(results);
      LabelsRowFlag(last, k);
      ColumnSumLast(Label.LabelsFrame(results).rows, c);
    }
  }

  /** The label table of all results but the last is the label table's rows but the last. */
  lemma LabelsFrameLast(results: seq<Label.LabelRow>)
    requires results != []
    requires forall i :: 0 <= i < |results| ==> |results[i].horizons| == |Label.Horizons|
    ensures var rows := Label.LabelsFrame(results).rows;
            var last := results[|results| - 1];
            && |rows| == |results|
            && rows[..|rows| - 1] == Label.LabelsFrame(results[..|results| - 1]).rows
            && rows[|rows| - 1] == Label.HorizonCells(last.horizons, Label.Horizons)["ticker" := last.ticker]["date" := last.date]
  {
    var rows := Label.LabelsFrame(results).rows;
    if |results| == 1 {
      assert rows[..|rows| - 1] == [];
    } else {
      assert rows[..|rows| - 1] == Label.LabelsFrame(results[..|results| - 1]).rows;
    }
  }

  /** A column's total is the total without the last row plus the last row's number. */
  lemma ColumnSumLast(rows: seq<Row>, c: Column)
    requires rows != []
    ensures ColumnSum(rows, c) ==
            ColumnSum(rows[..|rows| - 1], c) + (match Get(rows[|rows| - 1], c) case Some(Num(x)) => x case _ => 0.0)
  {
  }

  /** For the labels the labeler produces, each `label_na` total is the number of rows whose
      label for that horizon could not be computed. */
  lemma LabelNaTotals(gold: Frame, pricesIn: Frame, calendarIn: Frame, k: nat)
    requires Label.Labels(gold, pricesIn, calendarIn).Ok? && k < |Label.Horizons|
    ensures var results := Label.Labels(gold, pricesIn, calendarIn).value;
            ColumnSum(Label.LabelTable(gold, pricesIn, calendarIn).value.rows, Label.NaColumn(Label.Horizons[k])) ==
            MissingLabels(results, k) as real
  {
    var results := Label.Labels(gold, pricesIn, calendarIn).value;
    Label.LabelsShape(gold, pricesIn, calendarIn);
    forall i | 0 <= i < |results| ensures results[i].horizons[k].labelNa in {0, 1} {
      Label.LabelMeaning(gold, pricesIn, calendarIn, i, k);
    }
    NaSumCountsMissing(results, k);
  }

  // ---------------------------------------------------------------------------------------
  // An example: one row whose effective date is a day after its date
  // ---------------------------------------------------------------------------------------

  function ExampleTable(): Frame
  {
    Frame(["ticker", "date", "effective_date"],
          [map["ticker" := Some(Str("000001.SZ")), "date" := Some(Str("2024-01-02")), "effective_date" := Some(Str("2024-01-03"))],
           map["ticker" := Some(Str("000001.SZ")), "date" := Some(Str("2024-01-03")), "effective_date" := Some(Str("2024-01-03"))]])
  }

  lemma ExampleAudited()
    ensures MarkedColumns(ExampleTable(), EffectiveDateMarker) == ["effective_date"]
  {
    ContainsLength("ticker", "effective_date");
    ContainsLength("date", "effective_date");
    ContainsLength("effective_date", "effective_date");
  }

  lemma ExampleRowsViolate()
    ensures Violates(ExampleTable().rows[0], "effective_date")
    ensures !Violates(ExampleTable().rows[1], "effective_date")
  {
    var rows := ExampleTable().rows;
    assert Get(rows[0], "date") == Some(Str("2024-01-02")) && Get(rows[0], "effective_date") == Some(Str("2024-01-03"));
    assert Get(rows[1], "date") == Some(Str("2024-01-03")) && Get(rows[1], "effective_date") == Some(Str("2024-01-03"));
    Dates2024.Jan02BeforeJan03();
    LessIrreflexive("2024-01-03");
  }

  /** The example table has one audited column and one violation. */
  lemma ExampleOneViolation()
    ensures MarkedColumns(ExampleTable(), EffectiveDateMarker) == ["effective_date"]
    ensures TotalViolations(ExampleTable().rows, MarkedColumns(ExampleTable(), EffectiveDateMarker)) == 1
  {
    ExampleAudited();
    ExampleViolationCount();
    TotalOneColumn(ExampleTable().rows, "effective_date");
  }

  /** Over a single audited column the total is that column's count. */
  lemma TotalOneColumn(rows: seq<Row>, c: Column)
    ensures TotalViolations(rows, [c]) == ViolationCount(rows, c)
  {
    assert [c][..0] == [];
  }

  /** Only the first example row violates. */
  lemma ExampleViolationCount()
    ensures ViolationCount(ExampleTable().rows, "effective_date") == 1
  {
    var rows := ExampleTable().rows;
    ExampleRowsViolate();
    ViolationCountTwo(rows[0], rows[1], "effective_date");
    assert rows == [rows[0], rows[1]];
  }

  /** Two rows of which only the first violates count one violation. */
  lemma ViolationCountTwo(r0: Row, r1: Row, ed: Column)
    requires Violates(r0, ed) && !Violates(r1, ed)
    ensures ViolationCount([r0, r1], ed) == 1
  {
    assert [r0, r1][..1] == [r0];
    assert [r0][..0] == [];
  }
}
