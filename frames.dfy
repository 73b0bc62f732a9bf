/** In-memory tables standing for the pandas DataFrames the pipeline passes between stages:
    an ordered list of column names and a sequence of rows, each row a map from column name
    to a cell that may be null. */
module Frames {
  import opened Wrappers
  import opened Strings
  import opened Seqs

  type Column = string

  /** A non-null cell: text (identifiers and ISO dates) or a number. */
  datatype Value = Str(s: string) | Num(x: real)

  /** A cell; `None` is pandas' NaN / None / NaT. */
  type Cell = Option<Value>

  type Row = map<Column, Cell>

  datatype Frame = Frame(columns: seq<Column>, rows: seq<Row>)

  /** The cell of `r` in column `c`; a column the row does not carry reads as null. */
  function Get(r: Row, c: Column): Cell
  {
    if c in r then r[c] else None
  }

  /** `DataFrame.empty`: no rows or no columns. */
  predicate IsEmpty(f: Frame)
  {
    |f.rows| == 0 || |f.columns| == 0
  }

  /** The columns of `cols` other than `c`, in order. */
  function Without(cols: seq<Column>, c: Column): (r: seq<Column>)
    ensures forall d :: d in r <==> d in cols && d != c
    ensures |r| <= |cols|
  {
    if cols == [] then []
    else (if cols[0] == c then [] else [cols[0]]) + Without(cols[1..], c)
  }

  /** The columns of `cols` whose name contains `sub`, in order (`[c for c in cols if sub in c]`). */
  function ColumnsContaining(cols: seq<Column>, sub: string): (r: seq<Column>)
    ensures forall d :: d in r <==> d in cols && Contains(d, sub)
    ensures |r| <= |cols|
  {
    if cols == [] then []
    else (if Contains(cols[0], sub) then [cols[0]] else []) + ColumnsContaining(cols[1..], sub)
  }

  /** `df.drop(columns=[c], errors='ignore')`. */
  function DropColumn(f: Frame, c: Column): (r: Frame)
    ensures c !in r.columns && |r.rows| == |f.rows|
    ensures forall d :: d in r.columns <==> d in f.columns && d != c
    ensures forall i, d :: 0 <= i < |f.rows| && d != c ==> Get(r.rows[i], d) == Get(f.rows[i], d)
    ensures forall i :: 0 <= i < |f.rows| ==> Get(r.rows[i], c) == None
  {
    Frame(Without(f.columns, c), seq(|f.rows|, i requires 0 <= i < |f.rows| => f.rows[i] - {c}))
  }

  /** `df[c] = cells`: replaces column `c` in place, or appends it when absent. */
  function SetColumn(f: Frame, c: Column, cells: seq<Cell>): (r: Frame)
    requires |cells| == |f.rows|
    ensures c in r.columns && |r.rows| == |f.rows|
    ensures forall d :: d in f.columns ==> d in r.columns
    ensures forall i :: 0 <= i < |f.rows| ==> Get(r.rows[i], c) == cells[i]
    ensures forall i, d :: 0 <= i < |f.rows| && d != c ==> Get(r.rows[i], d) == Get(f.rows[i], d)
  {
    Frame(if c in f.columns then f.columns else f.columns + [c],
          seq(|f.rows|, i requires 0 <= i < |f.rows| => f.rows[i][c := cells[i]]))
  }

  /** The new name of column `c` under `df.rename(columns=m)`. */
  function Renamed(m: map<Column, Column>, c: Column): Column
  {
    if c in m then m[c] else c
  }

  function RenameColumns(cols: seq<Column>, m: map<Column, Column>): (r: seq<Column>)
    ensures |r| == |cols|
    ensures forall k :: 0 <= k < |cols| ==> r[k] == Renamed(m, cols[k])
  {
    if cols == [] then [] else [Renamed(m, cols[0])] + RenameColumns(cols[1..], m)
  }

  /** One row under `rename(columns=m)`: each column's cell moves to its new name; when two
      columns receive the same name the later column's cell is kept. */
  function RenameRow(r: Row, cols: seq<Column>, m: map<Column, Column>): Row
    decreases |cols|
  {
    if cols == [] then map[]
    else RenameRow(r, cols[..|cols| - 1], m)[Renamed(m, cols[|cols| - 1]) := Get(r, cols[|cols| - 1])]
  }

  /** Every row of a table with columns `cols` under `rename(columns=m)`. */
  function RenameRows(rows: seq<Row>, cols: seq<Column>, m: map<Column, Column>): (r: seq<Row>)
    ensures |r| == |rows| && forall i :: 0 <= i < |rows| ==> r[i] == RenameRow(rows[i], cols, m)
  {
    if rows == [] then [] else [RenameRow(rows[0], cols, m)] + RenameRows(rows[1..], cols, m)
  }

  /** `df.rename(columns=m)`. */
  function Rename(f: Frame, m: map<Column, Column>): (r: Frame)
    ensures |r.rows| == |f.rows|
  {
    Frame(RenameColumns(f.columns, m), RenameRows(f.rows, f.columns, m))
  }

  /** The renaming keeps cells apart: distinct columns land on distinct names. */
  ghost predicate InjectiveOn(m: map<Column, Column>, cols: seq<Column>)
  {
    forall i, j :: 0 <= i < |cols| && 0 <= j < |cols| && cols[i] != cols[j] ==>
      Renamed(m, cols[i]) != Renamed(m, cols[j])
  }

  /** The renamed row carries exactly the new names of the columns. */
  lemma {:induction false} RenameRowKeys(r: Row, cols: seq<Column>, m: map<Column, Column>)
    ensures RenameRow(r, cols, m).Keys == set c | c in cols :: Renamed(m, c)
    decreases |cols|
  {
    if cols != [] {
      var front := cols[..|cols| - 1];
      RenameRowKeys(r, front, m);
      assert cols == front + [cols[|cols| - 1]];
    }
  }

  /** Renaming moves every cell to its column's new name and changes no value, provided the
      renaming sends distinct columns to distinct names. */
  lemma {:induction false} RenameRowKeepsCells(r: Row, cols: seq<Column>, m: map<Column, Column>, k: nat)
    requires InjectiveOn(m, cols) && k < |cols|
    ensures Get(RenameRow(r, cols, m), Renamed(m, cols[k])) == Get(r, cols[k])
    decreases |cols|
  {
    var front := cols[..|cols| - 1];
    var last := cols[|cols| - 1];
    if k < |cols| - 1 && cols[k] != last {
      assert InjectiveOn(m, front) by {
        forall i, j | 0 <= i < |front| && 0 <= j < |front| && front[i] != front[j]
          ensures Renamed(m, front[i]) != Renamed(m, front[j])
        {
          assert front[i] == cols[i] && front[j] == cols[j];
        }
      }
      RenameRowKeepsCells(r, front, m, k);
      assert front[k] == cols[k];
      assert Renamed(m, cols[k]) != Renamed(m, last);
    }
  }

  /** A single-column renaming onto a name the table lacks keeps cells apart. */
  lemma SingleRenameInjective(cols: seq<Column>, src: Column, dst: Column)
    requires dst !in cols
    ensures InjectiveOn(map[src := dst], cols)
  {
  }

  /** After a single-column renaming the old name is gone from the header. */
  lemma SingleRenameDropsSource(cols: seq<Column>, src: Column, dst: Column)
    requires src != dst
    ensures src !in RenameColumns(cols, map[src := dst])
  {
    var r := RenameColumns(cols, map[src := dst]);
    forall j | 0 <= j < |cols| ensures r[j] != src {
    }
  }

  /** Renaming one present column onto a name the table lacks moves that column's cells to the
      new name and drops the old one. */
  lemma RenameOneColumn(f: Frame, src: Column, dst: Column)
    requires src in f.columns && dst !in f.columns
    ensures var g := Rename(f, map[src := dst]);
            && dst in g.columns && src !in g.columns && |g.rows| == |f.rows|
            && forall i :: 0 <= i < |f.rows| ==> Get(g.rows[i], dst) == Get(f.rows[i], src)
  {
    var m := map[src := dst];
    var g := Rename(f, m);
    SingleRenameInjective(f.columns, src, dst);
    var k := IndexOf(f.columns, src);
    assert g.columns[k] == dst;
    SingleRenameDropsSource(f.columns, src, dst);
    forall i | 0 <= i < |f.rows| ensures Get(g.rows[i], dst) == Get(f.rows[i], src) {
      RenameRowKeepsCells(f.rows[i], f.columns, m, k);
    }
  }

  /** Renaming with an empty map changes nothing a reader can observe. */
  lemma {:induction false} RenameEmptyMap(r: Row, cols: seq<Column>, c: Column)
    requires c in cols
    ensures Get(RenameRow(r, cols, map[]), c) == Get(r, c)
    decreases |cols|
  {
    var front := cols[..|cols| - 1];
    if cols[|cols| - 1] != c {
      assert cols == front + [cols[|cols| - 1]];
      RenameEmptyMap(r, front, c);
    }
  }

  // ---------------------------------------------------------------------------------------
  // pd.merge(left, right, on=keys, how='left' | 'inner')
  // ---------------------------------------------------------------------------------------

  /** The two rows agree on every join key (a null key equals a null key, as in pandas). */
  predicate KeysMatch(l: Row, r: Row, keys: seq<Column>)
  {
    forall k :: k in keys ==> Get(l, k) == Get(r, k)
  }

  /** The rows of `rs` whose keys match `l`, in their order in `rs`. */
  function Matches(l: Row, rs: seq<Row>, keys: seq<Column>): (ms: seq<Row>)
    ensures |ms| <= |rs|
    ensures forall k :: 0 <= k < |ms| ==> ms[k] in rs && KeysMatch(l, ms[k], keys)
    ensures forall r :: r in rs && KeysMatch(l, r, keys) ==> r in ms
  {
    if rs == [] then []
    else (if KeysMatch(l, rs[0], keys) then [rs[0]] else []) + Matches(l, rs[1..], keys)
  }

  /** Each matching right row appears in the matches as often as in `rs`, and no other row
      appears: a right row that matches twice is joined twice. */
  lemma {:induction false} MatchesCount(l: Row, rs: seq<Row>, keys: seq<Column>)
    ensures forall r :: multiset(Matches(l, rs, keys))[r] ==
                        if KeysMatch(l, r, keys) then multiset(rs)[r] else 0
  {
    if rs != [] {
      MatchesCount(l, rs[1..], keys);
      var h := if KeysMatch(l, rs[0], keys) then [rs[0]] else [];
      var m := Matches(l, rs[1..], keys);
      assert Matches(l, rs, keys) == h + m;
      assert rs == [rs[0]] + rs[1..];
      FilterCountStep(rs[0], rs[1..], h, m, r => KeysMatch(l, r, keys));
    }
  }

  /** One step of a filter's count: keeping `x` exactly when `p` holds extends a filter of
      `rest` to a filter of `[x] + rest`. */
  lemma FilterCountStep<T(!new)>(x: T, rest: seq<T>, h: seq<T>, m: seq<T>, p: T -> bool)
    requires h == if p(x) then [x] else []
    requires forall r :: multiset(m)[r] == if p(r) then multiset(rest)[r] else 0
    ensures forall r :: multiset(h + m)[r] == if p(r) then multiset([x] + rest)[r] else 0
  {
    assert multiset(h + m) == multiset(h) + multiset(m);
    assert multiset([x] + rest) == multiset([x]) + multiset(rest);
  }

  /** Matching against two joined tables matches against each: the matches keep their order in
      the right table. */
  lemma {:induction false} MatchesAppend(l: Row, a: seq<Row>, b: seq<Row>, keys: seq<Column>)
    ensures Matches(l, a + b, keys) == Matches(l, a, keys) + Matches(l, b, keys)
  {
    if a == [] {
      assert a + b == b;
      assert Matches(l, a, keys) == [];
    } else {
      MatchesAppend(l, a[1..], b, keys);
      var h := if KeysMatch(l, a[0], keys) then [a[0]] else [];
      var x, y := Matches(l, a[1..], keys), Matches(l, b, keys);
      assert (a + b)[0] == a[0] && (a + b)[1..] == a[1..] + b;
      assert Matches(l, a + b, keys) == h + Matches(l, a[1..] + b, keys);
      assert Matches(l, a[1..] + b, keys) == x + y;
      assert Matches(l, a, keys) == h + x;
      JoinAssociates(h, x, y);
    }
  }

  /** Joining sequences associates. */
  lemma JoinAssociates<T>(h: seq<T>, x: seq<T>, y: seq<T>)
    ensures h + (x + y) == (h + x) + y
  {
  }

  /** The right table's columns that are not join keys, in order. */
  function NonKeyColumns(cols: seq<Column>, keys: seq<Column>): (r: seq<Column>)
    ensures forall c :: c in r <==> c in cols && c !in keys
  {
    if cols == [] then []
    else (if cols[0] in keys then [] else [cols[0]]) + NonKeyColumns(cols[1..], keys)
  }

  /** Row `l` extended with the cells of `r` in columns `newCols` (all null when `r` is empty). */
  function Attach(l: Row, r: Row, newCols: seq<Column>): (o: Row)
    ensures forall c :: c in newCols ==> Get(o, c) == Get(r, c)
    ensures forall c :: c !in newCols ==> Get(o, c) == Get(l, c)
  {
    l + map c | c in newCols :: Get(r, c)
  }

  /** The output rows one left row produces: one per matching right row, or, when nothing
      matches, the row itself with null feature cells (left join) or nothing (inner join). */
  function JoinBlock(l: Row, rs: seq<Row>, keys: seq<Column>, newCols: seq<Column>, keepUnmatched: bool): (b: seq<Row>)
    ensures var ms := Matches(l, rs, keys);
            && |b| == (if ms == [] then (if keepUnmatched then 1 else 0) else |ms|)
            && (ms == [] && keepUnmatched ==> b[0] == Attach(l, map[], newCols))
            && (forall k :: 0 <= k < |ms| ==> b[k] == Attach(l, ms[k], newCols))
  {
    var ms := Matches(l, rs, keys);
    if ms == [] then (if keepUnmatched then [Attach(l, map[], newCols)] else [])
    else seq(|ms|, k requires 0 <= k < |ms| => Attach(l, ms[k], newCols))
  }

  function MergeRows(ls: seq<Row>, rs: seq<Row>, keys: seq<Column>, newCols: seq<Column>, keepUnmatched: bool): seq<Row>
  {
    if ls == [] then []
    else JoinBlock(ls[0], rs, keys, newCols, keepUnmatched) + MergeRows(ls[1..], rs, keys, newCols, keepUnmatched)
  }

  /** `pd.merge(left, right, on=keys, how='left')` when `keepUnmatched`, else `how='inner'`:
      left rows in order, each followed by its matching right rows in right order. */
  function Merge(left: Frame, right: Frame, keys: seq<Column>, keepUnmatched: bool): Frame
  {
    var newCols := NonKeyColumns(right.columns, keys);
    Frame(left.columns + newCols, MergeRows(left.rows, right.rows, keys, newCols, keepUnmatched))
  }

  /** A left join keeps every left row: it yields at least as many rows as the left table. */
  lemma {:induction false} LeftMergeKeepsRows(ls: seq<Row>, rs: seq<Row>, keys: seq<Column>, newCols: seq<Column>)
    ensures |MergeRows(ls, rs, keys, newCols, true)| >= |ls|
  {
    if ls != [] {
      LeftMergeKeepsRows(ls[1..], rs, keys, newCols);
    }
  }

  /** The row a left join gives `l` when at most one right row matches: `l` extended with the
      match's cells, or with nulls. */
  function AlignedRow(l: Row, rs: seq<Row>, keys: seq<Column>, newCols: seq<Column>): Row
  {
    var ms := Matches(l, rs, keys);
    Attach(l, if ms == [] then map[] else ms[0], newCols)
  }

  lemma SingleBlock(l: Row, rs: seq<Row>, keys: seq<Column>, newCols: seq<Column>)
    requires |Matches(l, rs, keys)| <= 1
    ensures JoinBlock(l, rs, keys, newCols, true) == [AlignedRow(l, rs, keys, newCols)]
  {
  }

  /** When every left row matches at most one right row, a left merge is row-aligned with the
      left table: row `i` is left row `i` extended with its match's cells, or with nulls. */
  lemma {:induction false} LeftMergeAligned(ls: seq<Row>, rs: seq<Row>, keys: seq<Column>, newCols: seq<Column>)
    requires forall i :: 0 <= i < |ls| ==> |Matches(ls[i], rs, keys)| <= 1
    ensures var out := MergeRows(ls, rs, keys, newCols, true);
            && |out| == |ls|
            && forall i :: 0 <= i < |ls| ==> out[i] == AlignedRow(ls[i], rs, keys, newCols)
  {
    if ls != [] {
      var out := MergeRows(ls, rs, keys, newCols, true);
      var tail := MergeRows(ls[1..], rs, keys, newCols, true);
      assert forall i :: 0 <= i < |ls[1..]| ==> ls[1..][i] == ls[i + 1];
      LeftMergeAligned(ls[1..], rs, keys, newCols);
      SingleBlock(ls[0], rs, keys, newCols);
      assert out == [AlignedRow(ls[0], rs, keys, newCols)] + tail;
      forall i | 0 < i < |ls|
        ensures out[i] == AlignedRow(ls[i], rs, keys, newCols)
      {
        assert out[i] == tail[i - 1] && ls[1..][i - 1] == ls[i];
      }
    }
  }

  /** An inner merge yields exactly the left rows extended with the cells of the right rows
      that match them on the keys: every output row is such a pair, and every such pair is an
      output row. */
  lemma {:induction false} InnerMergeRows(ls: seq<Row>, rs: seq<Row>, keys: seq<Column>, newCols: seq<Column>)
    ensures forall o :: o in MergeRows(ls, rs, keys, newCols, false) ==>
              exists l, r :: l in ls && r in rs && KeysMatch(l, r, keys) && o == Attach(l, r, newCols)
    ensures forall l, r :: l in ls && r in rs && KeysMatch(l, r, keys) ==>
              Attach(l, r, newCols) in MergeRows(ls, rs, keys, newCols, false)
  {
    InnerMergeComplete(ls, rs, keys, newCols);
    if ls != [] {
      InnerMergeRows(ls[1..], rs, keys, newCols);
      var b := JoinBlock(ls[0], rs, keys, newCols, false);
      forall o | o in b
        ensures exists l, r :: l in ls && r in rs && KeysMatch(l, r, keys) && o == Attach(l, r, newCols)
      {
        var k :| 0 <= k < |b| && b[k] == o;
        var ms := Matches(ls[0], rs, keys);
        assert ms[k] in rs && KeysMatch(ls[0], ms[k], keys);
      }
    }
  }

  /** Every left row joined to every right row that matches it is in the inner merge. */
  lemma {:induction false} InnerMergeComplete(ls: seq<Row>, rs: seq<Row>, keys: seq<Column>, newCols: seq<Column>)
    ensures forall l, r :: l in ls && r in rs && KeysMatch(l, r, keys) ==>
              Attach(l, r, newCols) in MergeRows(ls, rs, keys, newCols, false)
  {
    if ls != [] {
      InnerMergeComplete(ls[1..], rs, keys, newCols);
      var b := JoinBlock(ls[0], rs, keys, newCols, false);
      var tail := MergeRows(ls[1..], rs, keys, newCols, false);
      assert MergeRows(ls, rs, keys, newCols, false) == b + tail;
      forall l, r | l in ls && r in rs && KeysMatch(l, r, keys)
        ensures Attach(l, r, newCols) in b + tail
      {
        if l == ls[0] {
          var ms := Matches(ls[0], rs, keys);
          var k := IndexOf(ms, r);
          assert b[k] == Attach(l, r, newCols);
        } else {
          assert l in ls[1..];
          assert Attach(l, r, newCols) in tail;
        }
      }
    }
  }

  // ---------------------------------------------------------------------------------------
  // pd.concat(frames, ignore_index=True)
  // ---------------------------------------------------------------------------------------

  /** A row padded with nulls (and trimmed) to the given columns. */
  function Reshape(r: Row, cols: seq<Column>): (o: Row)
    ensures forall c :: c in cols ==> Get(o, c) == Get(r, c)
    ensures o.Keys == set c | c in cols
  {
    map c | c in cols :: Get(r, c)
  }

  function AllColumns(fs: seq<Frame>, acc: seq<Column>): seq<Column>
  {
    if fs == [] then acc else AllColumns(fs[1..], AppendNew(acc, fs[0].columns))
  }

  function AllRows(fs: seq<Frame>): seq<Row>
  {
    if fs == [] then [] else fs[0].rows + AllRows(fs[1..])
  }

  function TotalRows(fs: seq<Frame>): nat
  {
    if fs == [] then 0 else |fs[0].rows| + TotalRows(fs[1..])
  }

  /** `pd.concat(fs, ignore_index=True)`: the rows of every frame in order, under the union
      of their columns, missing cells null. */
  function Concat(fs: seq<Frame>): Frame
  {
    var cols := AllColumns(fs, []);
    var rows := AllRows(fs);
    Frame(cols, seq(|rows|, i requires 0 <= i < |rows| => Reshape(rows[i], cols)))
  }

  lemma {:induction false} AllColumnsSpec(fs: seq<Frame>, acc: seq<Column>)
    ensures forall c :: c in AllColumns(fs, acc) <==> c in acc || exists k :: 0 <= k < |fs| && c in fs[k].columns
  {
    if fs != [] {
      AllColumnsSpec(fs[1..], AppendNew(acc, fs[0].columns));
      forall c ensures (exists k :: 0 <= k < |fs| && c in fs[k].columns) <==>
                       c in fs[0].columns || exists k :: 0 <= k < |fs[1..]| && c in fs[1..][k].columns
      {
        if exists k :: 0 <= k < |fs| && c in fs[k].columns {
          var k :| 0 <= k < |fs| && c in fs[k].columns;
          if k > 0 {
            assert c in fs[1..][k - 1].columns;
          }
        }
        if exists k :: 0 <= k < |fs[1..]| && c in fs[1..][k].columns {
          var k :| 0 <= k < |fs[1..]| && c in fs[1..][k].columns;
          assert c in fs[k + 1].columns;
        }
      }
    }
  }

  lemma {:induction false} AllRowsCount(fs: seq<Frame>)
    ensures |AllRows(fs)| == TotalRows(fs)
  {
    if fs != [] {
      AllRowsCount(fs[1..]);
    }
  }

  /** Concatenation keeps every row of every part, in order, and every part's columns: its row
      count is the sum of the parts' row counts, and each cell of a part is found unchanged. */
  lemma ConcatSpec(fs: seq<Frame>)
    ensures |Concat(fs).rows| == TotalRows(fs)
    ensures forall c :: c in Concat(fs).columns <==> exists k :: 0 <= k < |fs| && c in fs[k].columns
    ensures forall i, c :: 0 <= i < |AllRows(fs)| && c in Concat(fs).columns ==>
              Get(Concat(fs).rows[i], c) == Get(AllRows(fs)[i], c)
  {
    AllRowsCount(fs);
    AllColumnsSpec(fs, []);
  }
}
