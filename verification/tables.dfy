/** A data frame as the report handles it: an ordered header and a sequence
    of rows, each row a map from column name to cell. The column operations
    here are the list comprehensions the collector, the writer and the
    dashboard share. */
module Tables {
  import opened Seqs
  import opened Cells

  type Row = map<string, Cell>

  datatype Table = Table(header: seq<string>, rows: seq<Row>)

  /** `DataFrame.empty`: no columns or no rows. */
  predicate IsEmpty(t: Table) {
    |t.header| == 0 || |t.rows| == 0
  }

  /** A cell, or pandas' missing value when the row has no such column. */
  function Get(r: Row, column: string): Cell {
    if column in r then r[column] else NaN
  }

  /** The row holding `cells[i]` under `columns[i]`. */
  function RowOf(columns: seq<string>, cells: seq<Cell>): (r: Row)
    requires |columns| == |cells| && Distinct(columns)
    ensures forall i :: 0 <= i < |columns| ==> Get(r, columns[i]) == cells[i]
  {
    forall i | 0 <= i < |columns| ensures Position(columns, columns[i]) == i {
      PositionOfDistinct(columns, i);
    }
    map c | c in columns :: cells[Position(columns, c)]
  }

  /** A row built from three runs of columns holds each run's cells. */
  lemma RowOfParts(a: seq<string>, b: seq<string>, c: seq<string>, x: seq<Cell>, y: seq<Cell>, z: seq<Cell>)
    requires |a| == |x| && |b| == |y| && |c| == |z| && Distinct(a + b + c)
    ensures forall i :: 0 <= i < |a| ==> Get(RowOf(a + b + c, x + y + z), a[i]) == x[i]
    ensures forall i :: 0 <= i < |b| ==> Get(RowOf(a + b + c, x + y + z), b[i]) == y[i]
    ensures forall i :: 0 <= i < |c| ==> Get(RowOf(a + b + c, x + y + z), c[i]) == z[i]
  {
    var columns, cells := a + b + c, x + y + z;
    forall i | 0 <= i < |a| ensures Get(RowOf(columns, cells), a[i]) == x[i] {
      assert columns[i] == a[i] && cells[i] == x[i];
    }
    forall i | 0 <= i < |b| ensures Get(RowOf(columns, cells), b[i]) == y[i] {
      assert columns[|a| + i] == b[i] && cells[|a| + i] == y[i];
    }
    forall i | 0 <= i < |c| ensures Get(RowOf(columns, cells), c[i]) == z[i] {
      assert columns[|a| + |b| + i] == c[i] && cells[|a| + |b| + i] == z[i];
    }
  }

  /** The row has exactly the given columns. */
  lemma RowOfKeys(columns: seq<string>, cells: seq<Cell>)
    requires |columns| == |cells| && Distinct(columns)
    ensures RowOf(columns, cells).Keys == set c | c in columns
  {
  }

  /** `[c for c in columns if c in df.columns]`: the requested columns the
      table has, in requested order. */
  function Present(t: Table, columns: seq<string>): (r: seq<string>)
    ensures forall c :: c in r <==> c in columns && c in t.header
    ensures IsSubsequence(r, columns)
    ensures Distinct(columns) ==> Distinct(r)
  {
    FilterDistinct(columns, c => c in t.header);
    FilterSubsequence(columns, c => c in t.header);
    Filter(columns, c => c in t.header)
  }

  /** The canonical column order: the configured columns that occur in
      `columns`, in configured order, followed by every other column in its
      original order. */
  function OrderColumns(order: seq<string>, columns: seq<string>): (r: seq<string>)
    ensures forall c :: c in r <==> c in columns
    ensures exists k :: 0 <= k <= |r|
              && IsSubsequence(r[..k], order)
              && IsSubsequence(r[k..], columns)
              && (forall i :: k <= i < |r| ==> r[i] !in order)
              && (forall i :: 0 <= i < k ==> r[i] in order)
  {
    var ordered := Filter(order, c => c in columns);
    var extra := Filter(columns, c => c !in ordered);
    FilterSubsequence(order, c => c in columns);
    FilterSubsequence(columns, c => c !in ordered);
    var r := ordered + extra;
    assert r[..|ordered|] == ordered && r[|ordered|..] == extra;
    r
  }

  /** Reordering keeps every column exactly once: the result is a
      permutation of the input columns and has no duplicates. */
  lemma OrderColumnsPermutes(order: seq<string>, columns: seq<string>)
    requires Distinct(order) && Distinct(columns)
    ensures multiset(OrderColumns(order, columns)) == multiset(columns)
    ensures Distinct(OrderColumns(order, columns))
  {
    var r := OrderColumns(order, columns);
    forall x ensures multiset(r)[x] == multiset(columns)[x] {
      OrderColumnsCount(order, columns, x);
    }
    assert multiset(r) == multiset(columns);
    DistinctMultiplicity(columns);
    DistinctMultiplicity(r);
  }

  lemma OrderColumnsCount(order: seq<string>, columns: seq<string>, x: string)
    requires Distinct(order) && Distinct(columns)
    ensures multiset(OrderColumns(order, columns))[x] == multiset(columns)[x]
  {
    var ordered := Filter(order, c => c in columns);
    var extra := Filter(columns, c => c !in ordered);
    assert OrderColumns(order, columns) == ordered + extra;
    FilterMultiset(order, c => c in columns);
    FilterMultiset(columns, c => c !in ordered);
    DistinctMultiplicity(order);
    DistinctMultiplicity(columns);
    assert multiset(ordered + extra)[x] == multiset(ordered)[x] + multiset(extra)[x];
    if x in columns && x in order {
      assert x in ordered;
    }
  }

  /** Columns that are exactly the configured ones come out in configured
      order. */
  lemma OrderColumnsSameSet(order: seq<string>, columns: seq<string>)
    requires forall c :: c in columns <==> c in order
    ensures OrderColumns(order, columns) == order
  {
    var ordered := Filter(order, c => c in columns);
    FilterAll(order, c => c in columns);
    FilterNone(columns, c => c !in ordered);
  }

  /** The rows satisfying `keep`, every copy of each, in order (boolean
      mask indexing); the header is unchanged. */
  function FilterRows(t: Table, keep: Row -> bool): (r: Table)
    ensures r.header == t.header
    ensures forall row :: row in r.rows <==> row in t.rows && keep(row)
    ensures forall row :: multiset(r.rows)[row] == if keep(row) then multiset(t.rows)[row] else 0
    ensures IsSubsequence(r.rows, t.rows)
  {
    FilterSubsequence(t.rows, keep);
    FilterMultiset(t.rows, keep);
    Table(t.header, Filter(t.rows, keep))
  }
}
