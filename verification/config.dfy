/** The static configuration: markets, investor categories, column orders,
    ranking sheets and retry parameters, with the structural facts the rest
    of the model relies on. */
module Config {
  import opened Seqs

  const Markets: seq<string> := ["KOSPI", "KOSDAQ"]

  /** The twelve investor categories the market-data service reports. */
  const Investors: seq<string> := [
    "개인", "외국인", "기관합계",
    "금융투자", "보험", "투신", "사모",
    "은행", "기타금융", "연기금",
    "기타법인", "기타외국인"
  ]

  /** The investors summarised first on the dashboard. */
  const MajorInvestors: seq<string> := ["개인", "외국인", "기관합계"]

  /** Attempts per market-data call. */
  const MaxRetries: nat := 2

  /** Seconds waited before the first retry; each later wait doubles. */
  const RetryBaseDelay: real := 0.5

  // Column names of the assembled table.
  const Ticker := "티커"
  const Name := "종목명"
  const Market := "시장"
  const Close := "종가"
  const Change := "등락률"
  const MarketCap := "시가총액"
  const TradingValue := "거래대금"
  const Volume := "거래량"
  const Turnover := "회전율"

  /** The nine columns every report row has besides the investors'. */
  const BaseColumns: seq<string> := [
    Ticker, Name, Market, Close, Change,
    MarketCap, TradingValue, Volume, Turnover
  ]

  /** Report column order: the base columns, then every investor. */
  const ColumnOrder: seq<string> := BaseColumns + Investors

  /** Investors that get a ranking sheet, with the sheet's name, in the
      order the sheets are written. */
  const RankingInvestors: seq<(string, string)> := [
    ("외국인", "외국인_TOP50"),
    ("기관합계", "기관_TOP50"),
    ("개인", "개인_TOP50")
  ]

  /** Columns of a ranking sheet before its investor column. */
  const RankingColumnOrder: seq<string> := [
    Ticker, Name, Market, Close, Change,
    MarketCap, TradingValue, Volume, Turnover
  ]

  /** Name of the sheet that holds the whole table. */
  const FullSheet := "전체"

  /** Number of progress reports one collection makes. */
  const TotalSteps: nat := |Markets| * (|Investors| + 2)

  lemma MarketsAndInvestors()
    ensures |Markets| == 2 && Distinct(Markets)
    ensures |Investors| == 12 && Distinct(Investors)
    ensures TotalSteps == 28
  {
  }

  lemma BaseColumnsDistinct()
    ensures |BaseColumns| == 9 && Distinct(BaseColumns)
  {
  }

  lemma BaseColumnsAreNotInvestors()
    ensures forall i :: 0 <= i < |BaseColumns| ==> BaseColumns[i] !in Investors
  {
  }

  lemma ColumnOrderShape()
    ensures |ColumnOrder| == 21
    ensures ColumnOrder[..9] == BaseColumns && ColumnOrder[9..] == Investors
    ensures Distinct(ColumnOrder)
  {
    MarketsAndInvestors();
    BaseColumnsDistinct();
    BaseColumnsAreNotInvestors();
    DistinctConcat(BaseColumns, Investors);
  }

  lemma RankingColumnsArePrefix()
    ensures RankingColumnOrder == ColumnOrder[..9]
    ensures forall inv :: inv in Investors ==> Distinct(RankingColumnOrder + [inv])
  {
    ColumnOrderShape();
    forall inv | inv in Investors
      ensures Distinct(RankingColumnOrder + [inv])
    {
      var s := RankingColumnOrder + [inv];
      assert s == ColumnOrder[..9] + [inv];
      forall i, j | 0 <= i < j < |s| ensures s[i] != s[j] {
        var k :| 9 <= k < 21 && ColumnOrder[k] == inv;
        if j == 9 {
          assert s[i] == ColumnOrder[i] && s[j] == ColumnOrder[k];
        } else {
          assert s[i] == ColumnOrder[i] && s[j] == ColumnOrder[j];
        }
      }
    }
  }

  lemma MajorInvestorsArePrefix()
    ensures MajorInvestors == Investors[..3]
    ensures Distinct(MajorInvestors)
  {
  }

  lemma RankingSheetsWellFormed()
    ensures forall k :: 0 <= k < |RankingInvestors| ==> RankingInvestors[k].0 in Investors
    ensures forall k :: 0 <= k < |RankingInvestors| ==> RankingInvestors[k].1 != FullSheet
    ensures forall k, l :: 0 <= k < l < |RankingInvestors| ==>
              RankingInvestors[k].0 != RankingInvestors[l].0 &&
              RankingInvestors[k].1 != RankingInvestors[l].1
  {
  }

  lemma RetriesAttempted()
    ensures MaxRetries >= 1
  {
  }
}
