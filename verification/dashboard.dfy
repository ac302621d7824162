/** The dashboard's data helpers: the cache-first load decision, the market
    and name/ticker filters, the column ordering of the heatmap, the
    formatting of totals, and the conversion that turns the writer's 억
    strings back into won. */
module Dashboard {
  import opened Options
  import opened Seqs
  import opened Numbers
  import opened Strings
  import opened Cells
  import opened Tables
  import opened Config
  import opened Writer
  import opened Collector

  /** What `_load_from_excel` finds for the day's report file: no file,
      a file that cannot be read as a workbook with a "전체" sheet, or
      the table read from that sheet. */
  datatype SavedFile = Missing | Unreadable | Readable(table: Table)

  /** The loaded table and whether it came from a live collection. */
  datatype Loaded = Loaded(table: Table, live: bool)

  /** `load_data(date)`: the saved table whenever it was read and is not
      empty; otherwise the result of collecting live, passed in as
      `collected`. */
  function LoadData(file: SavedFile, collected: Table): (r: Loaded)
    ensures !r.live <==> file.Readable? && !IsEmpty(file.table)
    ensures !r.live ==> r.table == file.table
    ensures r.live ==> r.table == collected
  {
    var fromFile := if file.Readable? then file.table else Table([], []);
    if !IsEmpty(fromFile) then Loaded(fromFile, false) else Loaded(collected, true)
  }

  /** The market-selector choice that keeps every market. */
  const AllMarkets := "전체"

  /** The market filter: every row for "전체" or when the table has no
      market column, otherwise the rows whose market is the selection. */
  function FilterMarket(t: Table, selection: string): (r: Table)
    ensures r.header == t.header
    ensures selection == AllMarkets || Market !in t.header ==> r == t
    ensures selection != AllMarkets && Market in t.header ==>
              forall row :: row in r.rows <==> row in t.rows && Get(row, Market) == Text(selection)
    ensures selection != AllMarkets && Market in t.header ==>
              forall row :: multiset(r.rows)[row] ==
                             if Get(row, Market) == Text(selection) then multiset(t.rows)[row] else 0
    ensures IsSubsequence(r.rows, t.rows)
  {
    if selection != AllMarkets && Market in t.header then FilterRows(t, InMarket(selection))
    else
      FilterAll(t.rows, (row: Row) => true);
      FilterSubsequence(t.rows, (row: Row) => true);
      t
  }

  /** `series.str.contains(query, case=False, na=False)` on one cell, for a
      query without pattern characters: text containing the query, letters
      compared without case; any other value never matches. */
  predicate Matches(c: Cell, query: string) {
    c.Text? && Contains(Lower(c.s), Lower(query))
  }

  /** Whether a row matches the query by name or by ticker. */
  function MatchesRow(t: Table, query: string): Row -> bool {
    row => (Name in t.header && Matches(Get(row, Name), query))
           || (Ticker in t.header && Matches(Get(row, Ticker), query))
  }

  /** The search box: every row for an empty query, otherwise the rows
      whose name or ticker contains the query, ignoring letter case. */
  function Search(t: Table, query: string): (r: Table)
    ensures r.header == t.header
    ensures query == "" ==> r == t
    ensures query != "" ==> forall row :: row in r.rows <==>
              (row in t.rows &&
               exists column, i :: column in [Name, Ticker] && column in t.header && Get(row, column).Text?
                                   && OccursAt(Lower(Get(row, column).s), Lower(query), i))
    ensures query != "" ==>
              forall row :: multiset(r.rows)[row] ==
                             if MatchesRow(t, query)(row) then multiset(t.rows)[row] else 0
    ensures IsSubsequence(r.rows, t.rows)
  {
    if query == "" then
      FilterAll(t.rows, (row: Row) => true);
      FilterSubsequence(t.rows, (row: Row) => true);
      t
    else
      var r := FilterRows(t, MatchesRow(t, query));
      forall row ensures MatchesRow(t, query)(row) <==>
          exists column, i :: column in [Name, Ticker] && column in t.header && Get(row, column).Text?
                              && OccursAt(Lower(Get(row, column).s), Lower(query), i)
      {
        MatchesAt(Get(row, Name), query);
        MatchesAt(Get(row, Ticker), query);
      }
      r
  }

  /** A cell matches exactly when the lower-cased query occurs somewhere in
      its lower-cased text. */
  lemma MatchesAt(c: Cell, query: string)
    ensures Matches(c, query) <==> c.Text? && exists i :: OccursAt(Lower(c.s), Lower(query), i)
  {
    if c.Text? {
      ContainsIff(Lower(c.s), Lower(query));
    }
  }

  /** The market filter and the search keep the same rows whichever runs
      first. */
  lemma FiltersCommute(t: Table, selection: string, query: string)
    ensures Search(FilterMarket(t, selection), query) == FilterMarket(Search(t, query), selection)
  {
    if query != "" && selection != AllMarkets && Market in t.header {
      FilterCommute(t.rows, InMarket(selection), MatchesRow(t, query));
    }
  }

  /** The heatmap's investor columns: the selected investors the table
      has, with the major investors first in configured order and the rest
      in selection order. */
  function HeatmapColumns(t: Table, selected: seq<string>): (r: seq<string>)
    ensures forall c :: c in r <==> c in selected && c in t.header
    ensures exists k :: 0 <= k <= |r|
              && IsSubsequence(r[..k], MajorInvestors)
              && IsSubsequence(r[k..], Present(t, selected))
              && (forall i :: 0 <= i < k ==> r[i] in MajorInvestors)
              && (forall i :: k <= i < |r| ==> r[i] !in MajorInvestors)
  {
    OrderColumns(MajorInvestors, Present(t, selected))
  }

  /** With distinct selections, the heatmap shows each selected column the
      table has exactly once. */
  lemma HeatmapColumnsPermute(t: Table, selected: seq<string>)
    requires Distinct(selected)
    ensures multiset(HeatmapColumns(t, selected)) == multiset(Present(t, selected))
    ensures Distinct(HeatmapColumns(t, selected))
  {
    MajorInvestorsArePrefix();
    OrderColumnsPermutes(MajorInvestors, Present(t, selected));
  }

  /** The side a bar is coloured for: a net purchase or a net sale. */
  datatype Side = Buy | Sell

  /** `"매수" if x >= 0 else "매도"` for the total shown in 억; NaN compares
      false and so counts as a sale. */
  function BarSide(total: Cell): (s: Side)
    requires !total.Text?
    ensures IsFinite(total) ==> (s == Buy <==> FiniteValue(total) >= 0.0)
    ensures total.Inf? ==> (s == Buy <==> !total.negative)
    ensures total.NaN? ==> s == Sell
  {
    if total.NaN? then Sell
    else if total.Inf? then (if total.negative then Sell else Buy)
    else
      ScaleKeepsSign(FiniteValue(total));
      if FiniteValue(total) / Eok as real >= 0.0 then Buy else Sell
  }

  lemma ScaleKeepsSign(x: real)
    ensures x / Eok as real >= 0.0 <==> x >= 0.0
  {
  }

  /** The dashboard's `format_억(value)`: "0억" for a missing value or zero,
      an exception for an infinity, and otherwise the writer's comma form
      of the rounded number of 억 followed by "억". Text goes through
      `float()`, so a plain decimal literal is read as that number and any
      other text raises. */
  function DashFormatEok(c: Cell): (r: Option<string>)
    ensures c.NaN? ==> r == Some("0억")
    ensures c.Inf? ==> r.None?
    ensures IsFinite(c) ==> r == Some(FormatEok(c).value + "억")
    ensures c.Text? ==> (r.Some? <==> ParseNumber(c.s).Some?)
  {
    match c
    case NaN => Some("0억")
    case Inf(_) => None
    case Text(s) =>
      (match ParseNumber(s)
       case None => None
       case Some(d) => Some(FormatThousands(EokAmount(Float(d.mantissa, d.exp))) + "억"))
    case _ =>
      if FiniteValue(c) == 0.0 then
        ZeroEok(c);
        assert FormatEok(c).value + "억" == "0억";
        Some("0억")
      else Some(FormatThousands(EokAmount(c)) + "억")
  }

  /** Zero is zero 억. */
  lemma ZeroEok(c: Cell)
    requires IsFinite(c) && FiniteValue(c) == 0.0
    ensures EokAmount(c) == 0 && FormatThousands(EokAmount(c)) == "0"
  {
    var q := EokAmount(c);
    assert NearestEven(0.0, q);
  }

  /** The dashboard's `format_comma(value)`: the writer's rule for numbers
      and missing values, and the text itself for a string. */
  function DashFormatComma(c: Cell): (r: Option<string>)
    ensures !c.Text? ==> r == FormatComma(c)
    ensures c.Text? ==> r == Some(c.s)
  {
    match c
    case Text(s) => Some(s)
    case NaN => Some("")
    case Inf(_) => None
    case Int(i) => Some(FormatThousands(i))
    case Float(m, e) =>
      if IsIntegralFloat(c) then Some(FormatThousands(IntegralPart(c)))
      else Some(DecimalText(m, e, true))
  }

  /** The float `d * 10^8`. */
  function ScaleToWon(d: Decimal): (c: Cell)
    ensures c.Float? && FiniteValue(c) == DecimalValue(d) * Eok as real
  {
    EokIsPow10();
    if d.exp <= 8 then
      var k: nat := 8 - d.exp;
      Pow10Add(d.exp, k);
      MulScale(d.mantissa, Pow10(d.exp), Pow10(k));
      Float(d.mantissa * Pow10(k), 0)
    else
      var k: nat := d.exp - 8;
      Pow10Add(k, 8);
      DivScale(d.mantissa, Pow10(k), Eok);
      Float(d.mantissa, k)
  }

  lemma MulScale(m: int, p: nat, k: nat)
    requires p >= 1 && k >= 1
    ensures (m * k) as real / 1.0 == m as real / p as real * (p * k) as real
  {
    var pr, kr := p as real, k as real;
    assert (p * k) as real == pr * kr;
    assert (m * k) as real == m as real * kr;
    assert m as real / pr * (pr * kr) == m as real * kr;
  }

  lemma DivScale(m: int, p: nat, e: nat)
    requires p >= 1 && e >= 1
    ensures m as real / p as real == m as real / (p * e) as real * e as real
  {
    var pr, er := p as real, e as real;
    assert (p * e) as real == pr * er;
    assert m as real / (pr * er) * er == m as real / pr;
  }

  /** One entry of an object investor column as `to_numeric_investor`
      converts it: `str()`, commas removed, parsed as a number of 억 and
      scaled to won; an infinity's text reads back as that infinity, and
      anything unparsable becomes 0 (`errors="coerce"` then `fillna(0)`). */
  function ReloadCell(c: Cell): (r: Cell)
    ensures IsNumber(r) && !r.NaN?
    ensures c.Inf? ==> r == c
  {
    assert c.Inf? ==> StripCommas(Repr(c)) == Repr(c) && InfSpelling(Repr(c)) == Some(c.negative) by {
      if c.Inf? {
        var s := Repr(c);
        assert forall i :: 0 <= i < |s| ==> s[i] != ',';
        StripCommasNoComma(s);
        assert Lower(s) == s;
      }
    }
    ReloadText(StripCommas(Repr(c)))
  }

  /** The infinity spellings pandas' number parser accepts, in any ASCII
      case: "inf", "+inf", "infinity" and "+infinity" read as positive
      infinity, "-inf" and "-infinity" as negative infinity. The result is
      whether the infinity is negative. */
  function InfSpelling(s: string): Option<bool> {
    var l := Lower(s);
    if l == "inf" || l == "+inf" || l == "infinity" || l == "+infinity" then Some(false)
    else if l == "-inf" || l == "-infinity" then Some(true)
    else None
  }

  /** `pd.to_numeric(text, errors="coerce")`, then `fillna(0)`, then `* 1e8`:
      a decimal literal scales to won, an infinity spelling reads as that
      infinity, and anything else becomes 0. */
  function ReloadText(s: string): (r: Cell)
    ensures IsNumber(r) && !r.NaN?
    ensures ParseNumber(s).Some? ==> r.Float? && FiniteValue(r) == DecimalValue(ParseNumber(s).value) * Eok as real
    ensures InfSpelling(s).Some? ==> r == Inf(InfSpelling(s).value)
    ensures ParseNumber(s).None? && InfSpelling(s).None? ==> r == Float(0, 0)
  {
    match ParseNumber(s)
    case Some(d) =>
      InfIsNotANumber(s);
      ScaleToWon(d)
    case None =>
      match InfSpelling(s)
      case Some(negative) => Inf(negative)
      case None => Float(0, 0)
  }

  /** An infinity spelling holds no digit, so it is not a decimal literal. */
  lemma InfIsNotANumber(s: string)
    ensures InfSpelling(s).Some? ==> ParseNumber(s).None?
  {
    if InfSpelling(s).Some? {
      var l := Lower(s);
      assert forall i :: 0 <= i < |l| ==> !IsDigit(l[i]);
      forall i | 0 <= i < |s| ensures !IsDigit(s[i]) {
        assert l[i] == LowerChar(s[i]);
      }
    }
  }

  /** Some of the spellings pandas reads as infinities. */
  lemma InfSpellings()
    ensures InfSpelling("INF") == Some(false) && InfSpelling("+inf") == Some(false)
    ensures InfSpelling("Infinity") == Some(false) && InfSpelling("-Infinity") == Some(true)
    ensures InfSpelling("nan") == None
  {
    assert Lower("nan")[0] == 'n';
    assert Lower("INF") == "inf";
    assert Lower("Infinity") == "infinity";
    assert Lower("-Infinity") == "-infinity";
  }

  /** Whether pandas holds the column as numbers (int64 or float64): no
      entry is text. */
  predicate NumericColumn(t: Table, column: string) {
    forall row :: row in t.rows ==> !Get(row, column).Text?
  }

  /** `to_numeric_investor(df, column)`: zeros when the column is absent,
      the column itself when it is numeric, and otherwise each entry
      reloaded from its 억 text. */
  function ToNumericInvestor(t: Table, column: string): (r: seq<Cell>)
    ensures |r| == |t.rows|
    ensures column !in t.header ==> forall i :: 0 <= i < |r| ==> r[i] == Int(0)
    ensures column in t.header && NumericColumn(t, column) ==>
              forall i :: 0 <= i < |r| ==> r[i] == Get(t.rows[i], column)
    ensures column in t.header && !NumericColumn(t, column) ==>
              forall i :: 0 <= i < |r| ==> IsNumber(r[i]) && !r[i].NaN?
  {
    if column !in t.header then seq(|t.rows|, _ => Int(0))
    else if NumericColumn(t, column) then seq(|t.rows|, i requires 0 <= i < |t.rows| => Get(t.rows[i], column))
    else seq(|t.rows|, i requires 0 <= i < |t.rows| => ReloadCell(Get(t.rows[i], column)))
  }

  /** The round trip between the writer and the dashboard: the text the
      writer stores for a finite amount of won reloads as its rounded
      number of 억 times 10^8, which is within half of one 억 of the
      original amount. */
  lemma ReloadWrittenEok(c: Cell)
    requires IsFinite(c)
    ensures var back := ReloadCell(Text(FormatEok(c).value));
            back.Float? && FiniteValue(back) == (EokAmount(c) * Eok) as real
            && 2.0 * RAbs(FiniteValue(c) - FiniteValue(back)) <= Eok as real
  {
    var q := EokAmount(c);
    assert FormatEok(c).value == FormatThousands(q);
    ReloadThousands(q);
    WithinHalf(FiniteValue(c), q);
  }

  /** The comma form of `n` reloads as `n * 10^8`. */
  lemma ReloadThousands(n: int)
    ensures ReloadCell(Text(FormatThousands(n))).Float?
    ensures FiniteValue(ReloadCell(Text(FormatThousands(n)))) == (n * Eok) as real
  {
    var s := FormatThousands(n);
    ParseFormatThousands(n);
    ReloadOfText(s);
    ScaleWhole(n);
  }

  /** A whole number of 억 scales to that many times 10^8 won. */
  lemma ScaleWhole(n: int)
    ensures DecimalValue(Decimal(n, 0)) * Eok as real == (n * Eok) as real
  {
    assert Pow10(0) == 1;
    assert DecimalValue(Decimal(n, 0)) == n as real;
    CastMul(n, Eok);
  }

  lemma ReloadOfText(s: string)
    ensures ReloadCell(Text(s)) == ReloadText(StripCommas(s))
  {
  }

  lemma WithinHalf(x: real, q: int)
    requires NearestEven(x / Eok as real, q)
    ensures 2.0 * RAbs(x - (q * Eok) as real) <= Eok as real
  {
    var e := Eok as real;
    assert (q * Eok) as real == q as real * e;
    assert x - q as real * e == (x / e - q as real) * e;
    assert RAbs(x - q as real * e) == RAbs(x / e - q as real) * e;
  }

  /** A whole investor column written by the writer and read back as text
      converts, row by row, to the rounded amounts in won. */
  lemma ReloadWrittenColumn(t: Table, column: string, original: seq<Cell>)
    requires column in t.header && |original| == |t.rows|
    requires forall i :: 0 <= i < |original| ==> IsFinite(original[i])
    requires forall i :: 0 <= i < |t.rows| ==> Get(t.rows[i], column) == Text(FormatEok(original[i]).value)
    requires |t.rows| > 0
    ensures forall i :: 0 <= i < |t.rows| ==>
              (ToNumericInvestor(t, column)[i].Float? &&
               FiniteValue(ToNumericInvestor(t, column)[i]) == (EokAmount(original[i]) * Eok) as real)
  {
    assert !NumericColumn(t, column) by {
      assert t.rows[0] in t.rows && Get(t.rows[0], column).Text?;
    }
    forall i | 0 <= i < |t.rows|
      ensures ToNumericInvestor(t, column)[i].Float? &&
              FiniteValue(ToNumericInvestor(t, column)[i]) == (EokAmount(original[i]) * Eok) as real
    {
      ReloadWrittenEok(original[i]);
    }
  }

  /** The text the writer stores for a column of finite amounts. */
  function WrittenColumn(original: seq<Cell>): (w: seq<Cell>)
    requires forall i :: 0 <= i < |original| ==> IsFinite(original[i])
    ensures |w| == |original|
    ensures forall i :: 0 <= i < |w| ==> w[i] == Text(FormatThousands(EokAmount(original[i])))
  {
    seq(|original|, i requires 0 <= i < |original| => Text(FormatEok(original[i]).value))
  }

  /** Text pandas' parser reads as an int64 value: an optional sign and
      digits, with no comma and no point. */
  predicate IntegerLiteral(s: string) {
    ParseNumber(s).Some? && ',' !in s && '.' !in s
  }

  /** The column `pd.read_excel` gives back for cells stored as text, with
      no dtype requested: when every entry is an integer literal pandas
      infers int64 and the column comes back as those integers, otherwise
      it stays text. */
  function ReadBackColumn(col: seq<Cell>): (r: seq<Cell>)
    ensures |r| == |col|
    ensures (forall i :: 0 <= i < |col| ==> col[i].Text? && IntegerLiteral(col[i].s)) ==>
              forall i :: 0 <= i < |col| ==> r[i] == Int(ParseNumber(col[i].s).value.mantissa)
    ensures !(forall i :: 0 <= i < |col| ==> col[i].Text? && IntegerLiteral(col[i].s)) ==> r == col
  {
    if forall i :: 0 <= i < |col| ==> col[i].Text? && IntegerLiteral(col[i].s) then
      seq(|col|, i requires 0 <= i < |col| && col[i].Text? && IntegerLiteral(col[i].s) =>
                   Int(ParseNumber(col[i].s).value.mantissa))
    else col
  }

  /** `str(n)` holds only a sign and digits. */
  lemma IntToStringChars(n: int)
    ensures forall i :: 0 <= i < |IntToString(n)| ==> IntToString(n)[i] != ',' && IntToString(n)[i] != '.'
  {
    var s := IntToString(n);
    if n < 0 {
      var ds := NatToString(-n);
      assert forall i :: 1 <= i < |s| ==> s[i] == ds[i - 1];
    }
  }

  /** Below 1,000 the writer's comma form has no comma: it is `str(n)`. */
  lemma SmallThousands(n: int)
    requires -1000 < n < 1000
    ensures FormatThousands(n) == IntToString(n)
  {
    var k := Abs(n);
    if k > 0 {
      assert Pow10(3) == 1000;
      DigitsFit(k, 3);
    }
  }

  /** The comma form of `n`, read as an integer literal, denotes `n`. */
  lemma LiteralOfThousands(n: int)
    requires IntegerLiteral(FormatThousands(n))
    ensures ParseNumber(FormatThousands(n)) == Some(Decimal(n, 0))
  {
    StripCommasNoComma(FormatThousands(n));
    ParseFormatThousands(n);
  }

  /** A written column whose amounts are all under 1,000 억 holds only
      integer literals, so it comes back from the workbook as the rounded
      amounts in 억, as integers. */
  lemma SmallAmountsReadBackAsIntegers(original: seq<Cell>)
    requires forall i :: 0 <= i < |original| ==> IsFinite(original[i])
    requires forall i :: 0 <= i < |original| ==> -1000 < EokAmount(original[i]) < 1000
    ensures forall i :: 0 <= i < |original| ==>
              ReadBackColumn(WrittenColumn(original))[i] == Int(EokAmount(original[i]))
  {
    var w := WrittenColumn(original);
    forall i | 0 <= i < |w| ensures w[i].Text? && IntegerLiteral(w[i].s) {
      var q := EokAmount(original[i]);
      SmallThousands(q);
      IntToStringChars(q);
      ParseIntToString(q);
    }
    forall i | 0 <= i < |w| ensures ParseNumber(w[i].s).value.mantissa == EokAmount(original[i]) {
      LiteralOfThousands(EokAmount(original[i]));
    }
  }

  /** As written, `to_numeric_investor` returns such a column unchanged:
      the amounts stay in 억 where the dashboard expects won. */
  lemma SmallWorkbookColumnUnscaled(t: Table, column: string, original: seq<Cell>)
    requires column in t.header && |original| == |t.rows|
    requires forall i :: 0 <= i < |original| ==> IsFinite(original[i])
    requires forall i :: 0 <= i < |original| ==> -1000 < EokAmount(original[i]) < 1000
    requires forall i :: 0 <= i < |t.rows| ==>
               Get(t.rows[i], column) == ReadBackColumn(WrittenColumn(original))[i]
    ensures forall i :: 0 <= i < |t.rows| ==> ToNumericInvestor(t, column)[i] == Int(EokAmount(original[i]))
  {
    SmallAmountsReadBackAsIntegers(original);
    IntegersAreNumeric(t, column);
  }

  /** A column of integers is numeric. */
  lemma IntegersAreNumeric(t: Table, column: string)
    requires forall i :: 0 <= i < |t.rows| ==> Get(t.rows[i], column).Int?
    ensures NumericColumn(t, column)
  {
    forall row | row in t.rows ensures !Get(row, column).Text? {
      var i :| 0 <= i < |t.rows| && t.rows[i] == row;
    }
  }

  /** One net purchase of 1,200,000,000 won is written as "12", comes back
      as the integer 12, and the dashboard takes it for 12 won. */
  lemma UnscaledExample()
    ensures var t := Table(["외국인"], [map["외국인" := Int(12)]]);
            var original := [Int(1_200_000_000)];
            && EokAmount(original[0]) == 12
            && ReadBackColumn(WrittenColumn(original))[0] == Int(12)
            && ToNumericInvestor(t, "외국인")[0] == Int(12)
            && FiniteValue(ToNumericInvestor(t, "외국인")[0]) != FiniteValue(original[0])
  {
    TwelveEok();
    ExampleReadBack();
    ExampleConversion();
  }

  lemma ExampleReadBack()
    ensures ReadBackColumn(WrittenColumn([Int(1_200_000_000)]))[0] == Int(12)
  {
    TwelveEok();
    SmallAmountsReadBackAsIntegers([Int(1_200_000_000)]);
  }

  lemma ExampleConversion()
    ensures var t := Table(["외국인"], [map["외국인" := Int(12)]]);
            ToNumericInvestor(t, "외국인")[0] == Int(12)
  {
    var t := Table(["외국인"], [map["외국인" := Int(12)]]);
    assert Get(t.rows[0], "외국인") == Int(12);
    IntegersAreNumeric(t, "외국인");
  }

  lemma TwelveEok()
    ensures EokAmount(Int(1_200_000_000)) == 12
  {
    assert RoundsHalfEven(1_200_000_000, Eok, 12);
    RoundHalfEvenUnique(1_200_000_000, Eok, 12);
  }

  /** `to_numeric_investor` as its comment intends for a table read from
      the workbook: every entry is an amount in 억 whatever dtype pandas
      inferred, so the text conversion applies to integer columns too. */
  function ToNumericWorkbook(t: Table, column: string): (r: seq<Cell>)
    ensures |r| == |t.rows|
    ensures column !in t.header ==> forall i :: 0 <= i < |r| ==> r[i] == Int(0)
    ensures column in t.header ==> forall i :: 0 <= i < |r| ==> IsNumber(r[i]) && !r[i].NaN?
    ensures column in t.header ==> forall i :: 0 <= i < |r| ==>
              (Get(t.rows[i], column).Text? || Get(t.rows[i], column).Inf? ==> r[i] == ToNumericInvestor(t, column)[i])
  {
    if column !in t.header then seq(|t.rows|, _ => Int(0))
    else seq(|t.rows|, i requires 0 <= i < |t.rows| => ReloadCell(Get(t.rows[i], column)))
  }

  lemma ReloadOfInt(n: int)
    ensures ReloadCell(Int(n)) == ReloadText(StripCommas(IntToString(n)))
  {
  }

  /** An integer number of 억 reloads as that many times 10^8 won. */
  lemma ReloadInt(n: int)
    ensures ReloadCell(Int(n)).Float?
    ensures FiniteValue(ReloadCell(Int(n))) == (n * Eok) as real
  {
    IntToStringChars(n);
    StripCommasNoComma(IntToString(n));
    ParseIntToString(n);
    ReloadOfInt(n);
    ScaleWhole(n);
  }

  /** With the intended conversion, a written investor column comes back
      from the workbook as the rounded amounts in won, whether pandas read
      it as text or as integers. */
  lemma ReloadWorkbookColumn(t: Table, column: string, original: seq<Cell>)
    requires column in t.header && |original| == |t.rows|
    requires forall i :: 0 <= i < |original| ==> IsFinite(original[i])
    requires forall i :: 0 <= i < |t.rows| ==>
               Get(t.rows[i], column) == ReadBackColumn(WrittenColumn(original))[i]
    ensures forall i :: 0 <= i < |t.rows| ==>
              (ToNumericWorkbook(t, column)[i].Float? &&
               FiniteValue(ToNumericWorkbook(t, column)[i]) == (EokAmount(original[i]) * Eok) as real)
  {
    var w := WrittenColumn(original);
    var back := ReadBackColumn(w);
    forall i | 0 <= i < |t.rows|
      ensures ToNumericWorkbook(t, column)[i].Float? &&
              FiniteValue(ToNumericWorkbook(t, column)[i]) == (EokAmount(original[i]) * Eok) as real
    {
      var q := EokAmount(original[i]);
      assert ToNumericWorkbook(t, column)[i] == ReloadCell(back[i]);
      if back[i].Text? {
        assert back[i] == w[i];
        assert FormatEok(original[i]).value == FormatThousands(q);
        ReloadWrittenEok(original[i]);
      } else {
        assert IntegerLiteral(w[i].s);
        LiteralOfThousands(q);
        ReloadInt(q);
      }
    }
  }
}
