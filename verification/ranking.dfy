/** `DataFrame.nlargest(n, column)` as the writer's ranking sheets use it:
    the rows with a value are ordered from the largest value down (rows
    with equal values keep their table order) and the first `n` are kept;
    when fewer than `n` rows have a value, the rows whose value is missing
    follow in table order. A column holding text cannot be ranked and
    raises, modelled as `None`. */
module Ranking {
  import opened Options
  import opened Seqs
  import opened Numbers
  import opened Cells
  import opened Tables

  /** A value `nlargest` can order: a number that is not missing. */
  predicate Rankable(c: Cell) {
    IsNumber(c) && !c.NaN?
  }

  predicate AllRankable(rows: seq<Row>, column: string) {
    forall row :: row in rows ==> Rankable(Get(row, column))
  }

  /** Every row's value is at least that of each row after it. */
  predicate Descending(rows: seq<Row>, column: string)
    requires AllRankable(rows, column)
  {
    forall i, j :: 0 <= i < j < |rows| ==> NumLe(Get(rows[j], column), Get(rows[i], column))
  }

  /** Places `x` before the first row of `s` whose value is not above
      its own. */
  function Insert(x: Row, s: seq<Row>, column: string): (r: seq<Row>)
    requires Rankable(Get(x, column)) && AllRankable(s, column)
    ensures |r| == |s| + 1
    ensures multiset(r) == multiset(s) + multiset{x}
    ensures forall y :: y in r <==> y == x || y in s
    ensures AllRankable(r, column)
    decreases |s|
  {
    if |s| == 0 then [x]
    else if NumLe(Get(s[0], column), Get(x, column)) then [x] + s
    else
      assert s == [s[0]] + s[1..];
      [s[0]] + Insert(x, s[1..], column)
  }

  /** Stable insertion sort from the largest value down. */
  function SortDescending(s: seq<Row>, column: string): (r: seq<Row>)
    requires AllRankable(s, column)
    ensures |r| == |s|
    ensures multiset(r) == multiset(s)
    ensures forall y :: y in r <==> y in s
    ensures AllRankable(r, column)
    decreases |s|
  {
    if |s| == 0 then []
    else
      assert s == [s[0]] + s[1..];
      Insert(s[0], SortDescending(s[1..], column), column)
  }

  lemma {:induction false} InsertDescending(x: Row, s: seq<Row>, column: string)
    requires Rankable(Get(x, column)) && AllRankable(s, column)
    requires Descending(s, column)
    ensures Descending(Insert(x, s, column), column)
    decreases |s|
  {
    if |s| == 0 {
    } else if NumLe(Get(s[0], column), Get(x, column)) {
      PrependDescending(x, s, column);
    } else {
      var tail := s[1..];
      InsertDescending(x, tail, column);
      NumLeTotal(Get(s[0], column), Get(x, column));
      var rest := Insert(x, tail, column);
      forall y | y in rest ensures NumLe(Get(y, column), Get(s[0], column)) {
        if y != x {
          var k :| 0 <= k < |tail| && tail[k] == y;
          assert s[k + 1] == y;
        }
      }
      PrependDescending(s[0], rest, column);
    }
  }

  /** A row at least as large as the first of a descending run can go in
      front of it. */
  lemma PrependDescending(x: Row, s: seq<Row>, column: string)
    requires Rankable(Get(x, column)) && AllRankable(s, column)
    requires Descending(s, column)
    requires forall y :: y in s ==> NumLe(Get(y, column), Get(x, column))
    ensures AllRankable([x] + s, column)
    ensures Descending([x] + s, column)
  {
    var r := [x] + s;
    forall i, j | 0 <= i < j < |r| ensures NumLe(Get(r[j], column), Get(r[i], column)) {
      assert r[j] == s[j - 1];
      if i > 0 {
        assert r[i] == s[i - 1];
      }
    }
  }

  lemma {:induction false} SortDescendingSorted(s: seq<Row>, column: string)
    requires AllRankable(s, column)
    ensures Descending(SortDescending(s, column), column)
    decreases |s|
  {
    if |s| > 0 {
      SortDescendingSorted(s[1..], column);
      InsertDescending(s[0], SortDescending(s[1..], column), column);
    }
  }

  /** The rows whose value under `column` equals that of `x`. */
  function Ties(column: string, x: Row): Row -> bool {
    row => Rankable(Get(row, column)) && Rankable(Get(x, column))
           && NumLe(Get(row, column), Get(x, column)) && NumLe(Get(x, column), Get(row, column))
  }

  /** Inserting keeps rows of equal value in the order they would have
      if `x` were simply put in front. */
  lemma {:induction false} InsertStable(x: Row, s: seq<Row>, column: string, v: Row)
    requires Rankable(Get(x, column)) && AllRankable(s, column)
    ensures Filter(Insert(x, s, column), Ties(column, v)) == Filter([x] + s, Ties(column, v))
    decreases |s|
  {
    if |s| > 0 && !NumLe(Get(s[0], column), Get(x, column)) {
      var p := Ties(column, v);
      var tail := s[1..];
      InsertStable(x, tail, column, v);
      assert s == [s[0]] + tail;
      assert Insert(x, s, column) == [s[0]] + Insert(x, tail, column);
      FilterCons(s[0], Insert(x, tail, column), p);
      FilterCons(x, tail, p);
      FilterCons(x, s, p);
      FilterCons(s[0], tail, p);
      TiesExclusive(x, s[0], column, v);
      var a := Filter(tail, p);
      if p(x) {
        assert Filter(Insert(x, s, column), p) == [x] + a;
      } else if p(s[0]) {
        assert Filter(Insert(x, s, column), p) == [s[0]] + a;
      } else {
        assert Filter(Insert(x, s, column), p) == a;
      }
    }
  }

  /** Two rows of different value cannot both tie with `v`. */
  lemma TiesExclusive(x: Row, y: Row, column: string, v: Row)
    requires Rankable(Get(x, column)) && Rankable(Get(y, column))
    requires !NumLe(Get(y, column), Get(x, column))
    ensures !(Ties(column, v)(x) && Ties(column, v)(y))
  {
    if Ties(column, v)(x) && Ties(column, v)(y) {
      NumLeTransitive(Get(y, column), Get(v, column), Get(x, column));
    }
  }

  /** The sort is stable: rows of equal value keep their table order. */
  lemma {:induction false} SortDescendingStable(s: seq<Row>, column: string, v: Row)
    requires AllRankable(s, column)
    ensures Filter(SortDescending(s, column), Ties(column, v)) == Filter(s, Ties(column, v))
    decreases |s|
  {
    if |s| > 0 {
      var p := Ties(column, v);
      var tail := s[1..];
      SortDescendingStable(tail, column, v);
      InsertStable(s[0], SortDescending(tail, column), column, v);
      FilterCons(s[0], SortDescending(tail, column), p);
      FilterCons(s[0], tail, p);
      assert s == [s[0]] + tail;
    }
  }

  /** Whether a row has a value under `column`. */
  function HasValue(column: string): Row -> bool {
    row => !Get(row, column).NaN?
  }

  /** Whether a row's value under `column` is missing. */
  function IsMissing(column: string): Row -> bool {
    row => Get(row, column).NaN?
  }

  /** Whether some row holds text under `column`, making it an object
      column that `nlargest` refuses. */
  predicate HoldsText(rows: seq<Row>, column: string) {
    exists row :: row in rows && Get(row, column).Text?
  }

  /** The rows `nlargest` orders: those with a value under `column`. */
  function Candidates(rows: seq<Row>, column: string): (r: seq<Row>)
    requires !HoldsText(rows, column)
    ensures AllRankable(r, column)
    ensures forall y :: y in r <==> y in rows && !Get(y, column).NaN?
  {
    Filter(rows, HasValue(column))
  }

  /** The rows whose value under `column` is missing, in table order. */
  function Missing(rows: seq<Row>, column: string): (r: seq<Row>)
    ensures forall y :: y in r <==> y in rows && Get(y, column).NaN?
    ensures |r| + |Filter(rows, HasValue(column))| == |rows|
  {
    FilterSplit(rows, HasValue(column), IsMissing(column));
    Filter(rows, IsMissing(column))
  }

  /** The ranked part of `nlargest`: the first `n` rows with a value, from
      the largest value down. */
  function TopValued(rows: seq<Row>, column: string, n: nat): (r: seq<Row>)
    requires !HoldsText(rows, column)
    ensures |r| == Min(n, |Candidates(rows, column)|)
    ensures AllRankable(r, column)
  {
    var sorted := SortDescending(Candidates(rows, column), column);
    sorted[..Min(n, |sorted|)]
  }

  /** `rows.nlargest(n, column)`: the ranked rows, then, when fewer than
      `n` rows have a value, the rows whose value is missing in table
      order, `n` rows in all at most. A text column raises (`None`). */
  function NLargest(rows: seq<Row>, column: string, n: nat): (r: Option<seq<Row>>)
    ensures r.None? <==> HoldsText(rows, column)
    ensures r.Some? ==> |r.value| == Min(n, |rows|)
    ensures r.Some? ==> forall y :: y in r.value ==> y in rows
    ensures r.Some? ==> r.value[..Min(n, |Candidates(rows, column)|)] == TopValued(rows, column, n)
    ensures r.Some? ==> r.value[Min(n, |Candidates(rows, column)|)..]
                        == Missing(rows, column)[..|r.value| - Min(n, |Candidates(rows, column)|)]
  {
    if HoldsText(rows, column) then None
    else
      var top := TopValued(rows, column, n);
      var missing := Missing(rows, column);
      var r := top + missing[..Min(n - |top|, |missing|)];
      assert r[..|top|] == top && r[|top|..] == missing[..Min(n - |top|, |missing|)];
      Some(r)
  }

  /** The kept rows past the ranked ones all have a missing value, and
      such rows are kept only when fewer than `n` rows have a value. */
  lemma NLargestMissingLast(rows: seq<Row>, column: string, n: nat)
    requires !HoldsText(rows, column)
    ensures var r := NLargest(rows, column, n).value;
            forall i :: 0 <= i < |r| ==>
              (Get(r[i], column).NaN? <==> i >= |Candidates(rows, column)|)
  {
    var r := NLargest(rows, column, n).value;
    var c := |Candidates(rows, column)|;
    var k := Min(n, c);
    var top := TopValued(rows, column, n);
    var missing := Missing(rows, column);
    forall i | 0 <= i < |r| ensures Get(r[i], column).NaN? <==> i >= c {
      if i < k {
        assert r[i] == r[..k][i] == top[i];
        assert top[i] in top;
      } else {
        assert r[i] == r[k..][i - k] == missing[i - k];
        assert missing[i - k] in missing;
      }
    }
  }

  /** The ranked rows are ordered from the largest value down, are drawn
      from the rows with a value without repetition beyond the table's own,
      and no row with a value left out is larger than any ranked row. */
  lemma NLargestIsTop(rows: seq<Row>, column: string, n: nat)
    requires !HoldsText(rows, column)
    ensures Descending(TopValued(rows, column, n), column)
    ensures multiset(TopValued(rows, column, n)) <= multiset(Candidates(rows, column))
    ensures forall y, i :: y in multiset(Candidates(rows, column)) - multiset(TopValued(rows, column, n))
                           && 0 <= i < |TopValued(rows, column, n)|
                           ==> NumLe(Get(y, column), Get(TopValued(rows, column, n)[i], column))
  {
    var c := Candidates(rows, column);
    var sorted := SortDescending(c, column);
    SortDescendingSorted(c, column);
    PrefixIsTop(sorted, Min(n, |sorted|), column);
  }

  /** In a descending run, the first `k` rows are each at least as large
      as every row after them. */
  lemma PrefixIsTop(sorted: seq<Row>, k: nat, column: string)
    requires k <= |sorted| && AllRankable(sorted, column) && Descending(sorted, column)
    ensures AllRankable(sorted[..k], column) && Descending(sorted[..k], column)
    ensures multiset(sorted) - multiset(sorted[..k]) == multiset(sorted[k..])
    ensures multiset(sorted[..k]) <= multiset(sorted)
    ensures forall y, i :: y in multiset(sorted) - multiset(sorted[..k]) && 0 <= i < k
                           ==> NumLe(Get(y, column), Get(sorted[..k][i], column))
  {
    var top, bottom := sorted[..k], sorted[k..];
    assert sorted == top + bottom;
    assert multiset(sorted) == multiset(top) + multiset(bottom);
    forall y, i | y in multiset(bottom) && 0 <= i < k
      ensures NumLe(Get(y, column), Get(top[i], column))
    {
      var j :| 0 <= j < |bottom| && bottom[j] == y;
      assert sorted[k + j] == y && sorted[i] == top[i];
    }
  }

  /** Among rows of equal value, the kept ones are the first in table
      order (pandas' `keep="first"`). */
  lemma NLargestKeepsFirst(rows: seq<Row>, column: string, n: nat, v: Row)
    requires !HoldsText(rows, column)
    ensures var kept := Filter(TopValued(rows, column, n), Ties(column, v));
            |kept| <= |Filter(Candidates(rows, column), Ties(column, v))|
            && kept == Filter(Candidates(rows, column), Ties(column, v))[..|kept|]
  {
    var c := Candidates(rows, column);
    var sorted := SortDescending(c, column);
    SortDescendingStable(c, column, v);
    FilterPrefix(sorted, Min(n, |sorted|), Ties(column, v));
  }

  /** Filtering a prefix gives a prefix of the filtered sequence. */
  lemma FilterPrefix(s: seq<Row>, k: nat, p: Row -> bool)
    requires k <= |s|
    ensures |Filter(s[..k], p)| <= |Filter(s, p)|
    ensures Filter(s[..k], p) == Filter(s, p)[..|Filter(s[..k], p)|]
  {
    assert s == s[..k] + s[k..];
    FilterConcat(s[..k], s[k..], p);
  }

  /** When no more than `n` rows have a value, all of them are ranked. */
  lemma NLargestKeepsAll(rows: seq<Row>, column: string, n: nat)
    requires !HoldsText(rows, column)
    requires |Candidates(rows, column)| <= n
    ensures multiset(TopValued(rows, column, n)) == multiset(Candidates(rows, column))
  {
    var sorted := SortDescending(Candidates(rows, column), column);
    assert sorted[..|sorted|] == sorted;
  }
}
