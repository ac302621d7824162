/** The spreadsheet writer: how each cell of the report is turned into text
    (money in units of 억 = 10^8 won, comma grouping, zero-padded tickers),
    which columns each sheet gets, the top-50 ranking sheets, and the
    colour and width rules applied after writing. A Python exception raised
    while formatting is modelled as `None`. */
module Writer {
  import opened Options
  import opened Seqs
  import opened Numbers
  import opened Strings
  import opened Cells
  import opened Tables
  import opened Config
  import opened Ranking

  /** The number of whole 억 in a finite amount of won: the quotient by
      10^8, rounded half to even. */
  function EokAmount(c: Cell): (q: int)
    requires IsFinite(c)
    ensures NearestEven(FiniteValue(c) / Eok as real, q)
  {
    match c
    case Int(i) =>
      RoundsHalfEvenIsNearest(i, Eok, RoundHalfEven(i, Eok));
      RoundHalfEven(i, Eok)
    case Float(m, e) =>
      var d := Pow10(e + 8);
      EokScale(m, e);
      RoundsHalfEvenIsNearest(m, d, RoundHalfEven(m, d));
      RoundHalfEven(m, d)
  }

  /** Dividing the float `m / 10^e` by 10^8 gives `m / 10^(e+8)`. */
  lemma EokScale(m: int, e: nat)
    ensures DecimalValue(Decimal(m, e)) / Eok as real == m as real / Pow10(e + 8) as real
  {
    Pow10Add(e, 8);
    EokIsPow10();
    CastMul(Pow10(e), Eok);
    DivDiv(m as real, Pow10(e) as real, Eok as real);
  }

  /** `_format_억(value)`: "" for a value that is not a number or is
      missing, the comma form of the rounded number of 억 for a finite
      number, and an exception (`None`) for an infinity, which `round`
      cannot convert. */
  function FormatEok(c: Cell): (r: Option<string>)
    ensures r.None? <==> c.Inf?
    ensures c.Text? || c.NaN? ==> r == Some("")
    ensures IsFinite(c) ==>
              r.Some? && CommaForm(r.value) && StripCommas(r.value) == IntToString(EokAmount(c))
  {
    match c
    case Text(_) => Some("")
    case NaN => Some("")
    case Inf(_) => None
    case _ => Some(FormatThousands(EokAmount(c)))
  }

  /** `_format_comma(value)`: "" for a value that is not a number or is
      missing; the comma form of the integer for an int or an integral
      float; Python's grouped float text otherwise; and an exception for
      an infinity, which `int(value)` cannot convert. */
  function FormatComma(c: Cell): (r: Option<string>)
    ensures r.None? <==> c.Inf?
    ensures c.Text? || c.NaN? ==> r == Some("")
    ensures c.Int? ==> r.Some? && CommaForm(r.value) && StripCommas(r.value) == IntToString(c.i)
    ensures IsIntegralFloat(c) ==>
              r.Some? && CommaForm(r.value) && StripCommas(r.value) == IntToString(IntegralPart(c))
    ensures c.Float? && !IsIntegralFloat(c) ==> r.Some? && '.' in r.value
  {
    match c
    case Text(_) => Some("")
    case NaN => Some("")
    case Inf(_) => None
    case Int(i) => Some(FormatThousands(i))
    case Float(m, e) =>
      if IsIntegralFloat(c) then Some(FormatThousands(IntegralPart(c)))
      else Some(DecimalText(m, e, true))
  }

  /** `str(value).zfill(6)`: the ticker text padded with zeros to six
      characters. */
  function TickerText(c: Cell): (s: string)
    ensures |s| == Max(|Repr(c)|, 6)
    ensures |Repr(c)| >= 6 ==> s == Repr(c)
    ensures |Repr(c)| < 6 && !HasSign(Repr(c)) ==>
              s[6 - |Repr(c)|..] == Repr(c) && AllZeros(s[..6 - |Repr(c)|])
  {
    ZFill(Repr(c), 6)
  }

  /** How `_write_sheet` formats a column: in 억, with commas only, as a
      zero-padded ticker, or as stored. */
  datatype Rule = InEok | WithCommas | AsTicker | AsStored

  function RuleOf(column: string): Rule {
    if column in Investors || column == MarketCap || column == TradingValue then InEok
    else if column == Close || column == Volume then WithCommas
    else if column == Ticker then AsTicker
    else AsStored
  }

  /** The investors' columns are written in 억. */
  lemma RuleOfInvestors(column: string)
    requires column in Investors
    ensures RuleOf(column) == InEok
  {
  }

  /** The price change is written as stored. */
  lemma RuleOfChange()
    ensures RuleOf(Change) == AsStored
  {
    BaseColumnsAreNotInvestors();
    BaseColumnsDistinct();
    assert BaseColumns[4] == Change;
  }

  /** How pandas stores a value in the workbook: a missing value as an
      empty string and an infinity as the text "inf" or "-inf". */
  function Store(c: Cell): (s: Cell)
    ensures IsFinite(c) || c.Text? ==> s == c
    ensures c.NaN? ==> s == Text("")
    ensures c.Inf? ==> s == Text(if c.negative then "-inf" else "inf")
    ensures !s.NaN? && !s.Inf?
  {
    match c
    case NaN => Text("")
    case Inf(neg) => Text(if neg then "-inf" else "inf")
    case _ => c
  }

  /** The value written for one cell of `column`, or `None` when
      formatting it raises: only an infinity in a column formatted in 억
      or with commas does. */
  function WriteCell(column: string, c: Cell): (r: Option<Cell>)
    ensures r.None? <==> c.Inf? && (RuleOf(column) == InEok || RuleOf(column) == WithCommas)
    ensures RuleOf(column) == InEok && r.Some? ==> r.value == Text(FormatEok(c).value)
    ensures RuleOf(column) == WithCommas && r.Some? ==> r.value == Text(FormatComma(c).value)
    ensures RuleOf(column) == AsTicker ==> r == Some(Text(TickerText(c)))
    ensures RuleOf(column) == AsStored ==> r == Some(Store(c))
    ensures r.Some? ==> !r.value.NaN? && !r.value.Inf?
  {
    match RuleOf(column)
    case InEok => if c.Inf? then None else Some(Text(FormatEok(c).value))
    case WithCommas => if c.Inf? then None else Some(Text(FormatComma(c).value))
    case AsTicker => Some(Text(TickerText(c)))
    case AsStored => Some(Store(c))
  }

  /** One written worksheet: its name, the title in its first row, the
      header in its second and the formatted rows below. */
  datatype Sheet = Sheet(name: string, title: string, header: seq<string>, rows: seq<seq<Cell>>)

  /** One row of the output frame: the written value of each column, or
      `None` when one of them raises. */
  function WriteRow(columns: seq<string>, row: Row): Option<seq<Cell>> {
    MapAll(columns, (column: string) => WriteCell(column, Get(row, column)))
  }

  /** Whether writing some cell of `columns` in `rows` raises. */
  predicate WriteFails(columns: seq<string>, rows: seq<Row>) {
    exists row, column :: row in rows && column in columns && WriteCell(column, Get(row, column)).None?
  }

  /** The output frame's rows, or `None` when a cell raises. */
  function WriteRows(columns: seq<string>, rows: seq<Row>): Option<seq<seq<Cell>>> {
    MapAll(rows, (row: Row) => WriteRow(columns, row))
  }

  /** `_write_sheet(writer, df, name, title, columns)`: the requested
      columns the table has, in requested order, with each cell formatted
      by its column's rule; `None` when a cell raises. */
  function WriteSheet(t: Table, name: string, title: string, columns: seq<string>): (r: Option<Sheet>)
    ensures r.Some? ==> r.value.name == name && r.value.title == title
    ensures r.Some? ==> r.value.header == Present(t, columns)
  {
    var header := Present(t, columns);
    match WriteRows(header, t.rows)
    case None => None
    case Some(rows) => Some(Sheet(name, title, header, rows))
  }

  /** Writing raises exactly when some cell under a written column does. */
  lemma WriteSheetFails(t: Table, name: string, title: string, columns: seq<string>)
    ensures WriteSheet(t, name, title, columns).None? <==> WriteFails(Present(t, columns), t.rows)
  {
    var header := Present(t, columns);
    if WriteRows(header, t.rows).None? {
      var i :| 0 <= i < |t.rows| && WriteRow(header, t.rows[i]).None?;
      var k :| 0 <= k < |header| && WriteCell(header[k], Get(t.rows[i], header[k])).None?;
      assert t.rows[i] in t.rows && header[k] in header;
    } else {
      forall row, column | row in t.rows && column in header
        ensures WriteCell(column, Get(row, column)).Some?
      {
        var i :| 0 <= i < |t.rows| && t.rows[i] == row;
        var k :| 0 <= k < |header| && header[k] == column;
        assert WriteRow(header, t.rows[i]).Some?;
      }
    }
  }

  /** A written sheet has one row per table row, and the cell under each
      written column is that row's value formatted by the column's rule. */
  lemma WriteSheetCells(t: Table, name: string, title: string, columns: seq<string>)
    requires WriteSheet(t, name, title, columns).Some?
    ensures var s := WriteSheet(t, name, title, columns).value;
            |s.rows| == |t.rows| &&
            forall i, k :: 0 <= i < |t.rows| && 0 <= k < |s.header| ==>
              |s.rows[i]| == |s.header| &&
              Some(s.rows[i][k]) == WriteCell(s.header[k], Get(t.rows[i], s.header[k]))
  {
    var header := Present(t, columns);
    var rows := WriteRows(header, t.rows).value;
    forall i | 0 <= i < |t.rows| ensures Some(rows[i]) == WriteRow(header, t.rows[i]) {
    }
  }

  /** The note appended to every sheet title. */
  const UnitNote := "(단위: 억원)"

  /** Rows on a ranking sheet. */
  const TopCount: nat := 50

  function FullTitle(date: string): string {
    "투자자별 수급 현황 — " + date + " " + UnitNote
  }

  function RankingTitle(investor: string, date: string): string {
    investor + " 순매수 TOP 50 — " + date + " " + UnitNote
  }

  /** Whether the table holds the investor column of a ranking sheet. */
  function InHeader(t: Table): ((string, string)) -> bool {
    (p: (string, string)) => p.0 in t.header
  }

  /** The ranking sheets the table can have: those whose investor column
      it holds, in configured order. */
  function RankedInvestors(t: Table): (r: seq<(string, string)>)
    ensures forall p :: p in r <==> p in RankingInvestors && p.0 in t.header
  {
    Filter(RankingInvestors, InHeader(t))
  }

  /** One ranking sheet: the top rows by the investor's net purchase,
      showing the ranking columns and then the investor's. */
  function RankingSheet(t: Table, date: string, investor: string, name: string): (r: Option<Sheet>)
    ensures r.Some? ==> r.value.name == name && r.value.title == RankingTitle(investor, date)
    ensures r.Some? ==> r.value.header == Present(t, RankingColumnOrder + [investor])
  {
    match NLargest(t.rows, investor, TopCount)
    case None => None
    case Some(top) =>
      WriteSheet(Table(t.header, top), name, RankingTitle(investor, date), RankingColumnOrder + [investor])
  }

  /** A ranking sheet holds the top rows, fifty or the whole table when
      it is smaller, each formatted as its column requires; it cannot be
      made when the investor's column holds text. */
  lemma RankingSheetRows(t: Table, date: string, investor: string, name: string)
    ensures HoldsText(t.rows, investor) ==> RankingSheet(t, date, investor, name).None?
    ensures RankingSheet(t, date, investor, name).Some? ==>
              var top := NLargest(t.rows, investor, TopCount).value;
              var s := RankingSheet(t, date, investor, name).value;
              |s.rows| == |top| == Min(TopCount, |t.rows|) &&
              forall i, k :: 0 <= i < |top| && 0 <= k < |s.header| ==>
                Some(s.rows[i][k]) == WriteCell(s.header[k], Get(top[i], s.header[k]))
  {
    if !HoldsText(t.rows, investor) {
      var top := NLargest(t.rows, investor, TopCount).value;
      var columns := RankingColumnOrder + [investor];
      if WriteSheet(Table(t.header, top), name, RankingTitle(investor, date), columns).Some? {
        WriteSheetCells(Table(t.header, top), name, RankingTitle(investor, date), columns);
      }
    }
  }

  /** The sheets for `ranked`, in order; `None` when one of them raises. */
  function RankingSheets(t: Table, date: string, ranked: seq<(string, string)>): Option<seq<Sheet>> {
    MapAll(ranked, (p: (string, string)) => RankingSheet(t, date, p.0, p.1))
  }

  /** The ranking sheets for `ranked` made before the first one that
      raises: those the file holds when the writer closes on the error. */
  function RankingSheetsBefore(t: Table, date: string, ranked: seq<(string, string)>): seq<Sheet> {
    MapUntil(ranked, (p: (string, string)) => RankingSheet(t, date, p.0, p.1))
  }

  /** What `save_to_excel` leaves behind: no file for an empty table, the
      sheets written before an exception (the writer still closes, so they
      are saved, but no styles are applied), or the styled workbook. */
  datatype Workbook = NoFile | Raised(written: seq<Sheet>) | Saved(sheets: seq<Sheet>)

  /** `save_to_excel(df, date)`: nothing for an empty table; otherwise the
      whole table on the first sheet, then the top-50 sheet of each
      ranking investor the table holds, skipping the others. */
  function SaveToExcel(t: Table, date: string): (r: Workbook)
    ensures r.NoFile? <==> IsEmpty(t)
    ensures r.Saved? ==> |r.sheets| == 1 + |RankedInvestors(t)|
    ensures r.Saved? ==> Some(r.sheets[0]) == WriteSheet(t, FullSheet, FullTitle(date), ColumnOrder)
    ensures r.Saved? ==> Some(r.sheets[1..]) == RankingSheets(t, date, RankedInvestors(t))
    ensures r.Raised? ==> (|r.written| == 0 <==> WriteSheet(t, FullSheet, FullTitle(date), ColumnOrder).None?)
    ensures r.Raised? && |r.written| > 0 ==>
              Some(r.written[0]) == WriteSheet(t, FullSheet, FullTitle(date), ColumnOrder)
              && r.written[1..] == RankingSheetsBefore(t, date, RankedInvestors(t))
              && |r.written| <= |RankedInvestors(t)|
  {
    if IsEmpty(t) then NoFile
    else
      match WriteSheet(t, FullSheet, FullTitle(date), ColumnOrder)
      case None => Raised([])
      case Some(full) =>
        match RankingSheets(t, date, RankedInvestors(t))
        case None =>
          var ranked := RankedInvestors(t);
          var f := (p: (string, string)) => RankingSheet(t, date, p.0, p.1);
          MapUntilStops(ranked, f);
          var r := [full] + RankingSheetsBefore(t, date, ranked);
          assert r[1..] == RankingSheetsBefore(t, date, ranked);
          Raised(r)
        case Some(ranking) =>
          var r := [full] + ranking;
          assert r[1..] == ranking;
          Saved(r)
  }

  /** The first sheet is "전체", holding every row under the configured
      columns the table has; each later sheet is the ranking sheet of the
      next investor the table holds, in configured order, with at most
      fifty rows. */
  lemma SavedSheets(t: Table, date: string)
    requires SaveToExcel(t, date).Saved?
    ensures var sheets := SaveToExcel(t, date).sheets;
            sheets[0].name == FullSheet && sheets[0].header == Present(t, ColumnOrder)
            && |sheets[0].rows| == |t.rows|
    ensures var sheets := SaveToExcel(t, date).sheets;
            forall k :: 1 <= k < |sheets| ==>
              var p := RankedInvestors(t)[k - 1];
              sheets[k].name == p.1 && sheets[k].header == Present(t, RankingColumnOrder + [p.0])
              && |sheets[k].rows| <= TopCount
  {
    var sheets := SaveToExcel(t, date).sheets;
    WriteSheetCells(t, FullSheet, FullTitle(date), ColumnOrder);
    var ranked := RankedInvestors(t);
    forall k | 1 <= k < |sheets|
      ensures sheets[k].name == ranked[k - 1].1
      ensures sheets[k].header == Present(t, RankingColumnOrder + [ranked[k - 1].0])
      ensures |sheets[k].rows| <= TopCount
    {
      assert sheets[k] == sheets[1..][k - 1];
      RankingSheetRows(t, date, ranked[k - 1].0, ranked[k - 1].1);
    }
  }

  /** When saving raises after the whole-table sheet was written, the file
      keeps that sheet and the ranking sheets of the investors before the
      one that raised, in order, and the next investor's sheet is the one
      that raised. */
  lemma RaisedSheets(t: Table, date: string)
    requires SaveToExcel(t, date).Raised? && |SaveToExcel(t, date).written| > 0
    ensures var written := SaveToExcel(t, date).written;
            var ranked := RankedInvestors(t);
            |written| <= |ranked|
            && (forall k :: 1 <= k < |written| ==>
                  Some(written[k]) == RankingSheet(t, date, ranked[k - 1].0, ranked[k - 1].1))
            && RankingSheet(t, date, ranked[|written| - 1].0, ranked[|written| - 1].1).None?
  {
    var written := SaveToExcel(t, date).written;
    var ranked := RankedInvestors(t);
    var before := RankingSheetsBefore(t, date, ranked);
    assert written[1..] == before;
    forall k | 1 <= k < |written|
      ensures Some(written[k]) == RankingSheet(t, date, ranked[k - 1].0, ranked[k - 1].1)
    {
      assert written[k] == before[k - 1];
    }
  }

  /** No two sheets of a saved workbook share a name. */
  lemma SheetNamesDistinct(t: Table, date: string)
    requires SaveToExcel(t, date).Saved?
    ensures var sheets := SaveToExcel(t, date).sheets;
            forall i, j :: 0 <= i < j < |sheets| ==> sheets[i].name != sheets[j].name
  {
    var sheets := SaveToExcel(t, date).sheets;
    var ranked := RankedInvestors(t);
    SavedSheets(t, date);
    RankingSheetsWellFormed();
    assert Distinct(RankingInvestors) by {
      forall k, l | 0 <= k < l < |RankingInvestors| ensures RankingInvestors[k] != RankingInvestors[l] {
        assert RankingInvestors[k].1 != RankingInvestors[l].1;
      }
    }
    FilterDistinct(RankingInvestors, InHeader(t));
    forall k | 0 <= k < |ranked| ensures sheets[k + 1].name == ranked[k].1 {
      assert 1 <= k + 1 < |sheets|;
    }
    NamesDistinct(sheets, FullSheet, RankingInvestors, ranked);
  }

  /** A first sheet named apart from every configured ranking sheet,
      followed by one sheet for each of a repetition-free list of
      configured pairs with distinct names, gives distinct names
      throughout. */
  lemma NamesDistinct(sheets: seq<Sheet>, first: string, pairs: seq<(string, string)>,
                      ranked: seq<(string, string)>)
    requires forall k :: 0 <= k < |pairs| ==> pairs[k].1 != first
    requires forall k, l :: 0 <= k < l < |pairs| ==> pairs[k].1 != pairs[l].1
    requires Distinct(ranked) && forall p :: p in ranked ==> p in pairs
    requires |sheets| == |ranked| + 1 && sheets[0].name == first
    requires forall k :: 0 <= k < |ranked| ==> sheets[k + 1].name == ranked[k].1
    ensures forall i, j :: 0 <= i < j < |sheets| ==> sheets[i].name != sheets[j].name
  {
    forall i, j | 0 <= i < j < |sheets| ensures sheets[i].name != sheets[j].name {
      var q := ranked[j - 1];
      assert sheets[j].name == q.1;
      assert q in pairs;
      var l :| 0 <= l < |pairs| && pairs[l] == q;
      if i > 0 {
        var p := ranked[i - 1];
        assert sheets[i].name == p.1;
        assert p in pairs;
        var k :| 0 <= k < |pairs| && pairs[k] == p;
        assert p != q;
        if k > l {
          assert pairs[l].1 != pairs[k].1;
        }
      }
    }
  }


  /** Every column of a ranking sheet is one of the configured columns. */
  lemma RankingColumnsConfigured(investor: string)
    requires investor in Investors
    ensures forall c :: c in RankingColumnOrder + [investor] ==> c in ColumnOrder
  {
    ColumnOrderShape();
    RankingColumnsArePrefix();
    forall c | c in RankingColumnOrder + [investor] ensures c in ColumnOrder {
      if c in RankingColumnOrder {
        var i :| 0 <= i < 9 && ColumnOrder[..9][i] == c;
        assert ColumnOrder[i] == c;
      } else {
        var i :| 0 <= i < |Investors| && ColumnOrder[9..][i] == investor;
        assert ColumnOrder[9 + i] == investor;
      }
    }
  }

  /** A ranking sheet fails only when its investor's column holds text or
      when the whole-table sheet fails too: its rows are table rows and its
      columns are configured ones. */
  lemma RankingSheetFails(t: Table, date: string, investor: string, name: string)
    requires investor in Investors
    ensures HoldsText(t.rows, investor) ==> RankingSheet(t, date, investor, name).None?
    ensures RankingSheet(t, date, investor, name).None? ==>
              HoldsText(t.rows, investor) || WriteFails(Present(t, ColumnOrder), t.rows)
  {
    if !HoldsText(t.rows, investor) {
      var top := NLargest(t.rows, investor, TopCount).value;
      var columns := RankingColumnOrder + [investor];
      var title := RankingTitle(investor, date);
      WriteSheetFails(Table(t.header, top), name, title, columns);
      if WriteSheet(Table(t.header, top), name, title, columns).None? {
        var row, column :| row in top && column in Present(Table(t.header, top), columns)
                           && WriteCell(column, Get(row, column)).None?;
        RankingColumnsConfigured(investor);
        assert row in t.rows && column in Present(t, ColumnOrder);
      }
    }
  }

  /** Every ranked investor is one of the twelve categories. */
  lemma RankedAreInvestors(t: Table)
    ensures forall k :: 0 <= k < |RankedInvestors(t)| ==> RankedInvestors(t)[k].0 in Investors
  {
    RankingSheetsWellFormed();
    var ranked := RankedInvestors(t);
    forall k | 0 <= k < |ranked| ensures ranked[k].0 in Investors {
      var l :| 0 <= l < |RankingInvestors| && RankingInvestors[l] == ranked[k];
    }
  }

  /** Whether a ranking investor the table holds has text in its column. */
  predicate RankingFails(t: Table) {
    exists k :: 0 <= k < |RankedInvestors(t)| && HoldsText(t.rows, RankedInvestors(t)[k].0)
  }

  /** A non-empty table fails to save exactly when formatting a cell of
      the whole-table sheet raises or a ranking column cannot be ranked. */
  lemma SaveRaises(t: Table, date: string)
    requires !IsEmpty(t)
    ensures SaveToExcel(t, date).Raised? <==> WriteFails(Present(t, ColumnOrder), t.rows) || RankingFails(t)
  {
    if SaveToExcel(t, date).Raised? {
      SaveRaisesOnlyWhen(t, date);
    }
    if WriteFails(Present(t, ColumnOrder), t.rows) || RankingFails(t) {
      SaveRaisesWhen(t, date);
    }
  }

  lemma SaveRaisesOnlyWhen(t: Table, date: string)
    requires !IsEmpty(t) && SaveToExcel(t, date).Raised?
    ensures WriteFails(Present(t, ColumnOrder), t.rows) || RankingFails(t)
  {
    WriteSheetFails(t, FullSheet, FullTitle(date), ColumnOrder);
    var ranked := RankedInvestors(t);
    RankedAreInvestors(t);
    if RankingSheets(t, date, ranked).None? {
      var k :| 0 <= k < |ranked| && RankingSheet(t, date, ranked[k].0, ranked[k].1).None?;
      RankingSheetFails(t, date, ranked[k].0, ranked[k].1);
    }
  }

  lemma SaveRaisesWhen(t: Table, date: string)
    requires !IsEmpty(t)
    requires WriteFails(Present(t, ColumnOrder), t.rows) || RankingFails(t)
    ensures SaveToExcel(t, date).Raised?
  {
    if WriteFails(Present(t, ColumnOrder), t.rows) {
      SaveRaisesOnWrite(t, date);
    } else {
      SaveRaisesOnRanking(t, date);
    }
  }

  lemma SaveRaisesOnWrite(t: Table, date: string)
    requires !IsEmpty(t) && WriteFails(Present(t, ColumnOrder), t.rows)
    ensures SaveToExcel(t, date).Raised?
  {
    WriteSheetFails(t, FullSheet, FullTitle(date), ColumnOrder);
    SaveRaisedBy(t, date);
  }

  lemma SaveRaisesOnRanking(t: Table, date: string)
    requires !IsEmpty(t) && RankingFails(t)
    ensures SaveToExcel(t, date).Raised?
  {
    var ranked := RankedInvestors(t);
    var k :| 0 <= k < |ranked| && HoldsText(t.rows, ranked[k].0);
    RankedAreInvestors(t);
    RankingSheetFails(t, date, ranked[k].0, ranked[k].1);
    RankingSheetsFail(t, date, ranked, k);
    SaveRaisedBy(t, date);
  }

  lemma RankingSheetsFail(t: Table, date: string, ranked: seq<(string, string)>, k: nat)
    requires k < |ranked| && RankingSheet(t, date, ranked[k].0, ranked[k].1).None?
    ensures RankingSheets(t, date, ranked).None?
  {
  }

  lemma SaveRaisedBy(t: Table, date: string)
    requires !IsEmpty(t)
    requires WriteSheet(t, FullSheet, FullTitle(date), ColumnOrder).None?
             || RankingSheets(t, date, RankedInvestors(t)).None?
    ensures SaveToExcel(t, date).Raised?
  {
  }
}
