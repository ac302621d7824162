/** The collection pipeline: for each market, fetch the capitalisation table,
    the price-change table and one net-purchase table per investor (each
    through the retry wrapper), assemble one row per ticker, then
    concatenate the markets, drop inactive rows and put the columns in the
    configured order. The market-data service is an oracle. */
module Collector {
  import opened Options
  import opened Seqs
  import opened Numbers
  import opened Cells
  import opened Tables
  import opened Config
  import opened Retrying

  /** One row of the capitalisation response, with the columns the collector
      reads by position: close, market cap, volume, trading value and listed
      shares. */
  datatype CapRow = CapRow(
    ticker: string,
    close: int,
    marketCap: int,
    volume: nat,
    tradingValue: int,
    listedShares: nat)

  /** One row of a net-purchase response: the display name (first column)
      and the net purchase amount in won (last column). */
  datatype NetRow = NetRow(name: string, netPurchase: int)

  /** The market-data service for the collection date. Each fetch takes the
      attempt number and returns `None` when that attempt raises. The
      price-change and net-purchase responses are keyed by ticker, as their
      data-frame index is. */
  datatype MarketData = MarketData(
    capByTicker: (string, nat) -> Option<seq<CapRow>>,
    changeByTicker: (string, nat) -> Option<map<string, Cell>>,
    netPurchases: (string, string, nat) -> Option<map<string, NetRow>>,
    tickerName: string -> Option<string>)

  function CapTable(api: MarketData, market: string): seq<CapRow> {
    Retry(k => api.capByTicker(market, k), MaxRetries, []).result
  }

  function ChangeTable(api: MarketData, market: string): map<string, Cell> {
    Retry(k => api.changeByTicker(market, k), MaxRetries, map[]).result
  }

  function NetTable(api: MarketData, market: string, investor: string): map<string, NetRow> {
    Retry(k => api.netPurchases(market, investor, k), MaxRetries, map[]).result
  }

  /** A market whose capitalisation or price-change table is empty (after
      retries) contributes nothing and its investor fetches are skipped. */
  predicate Skipped(api: MarketData, market: string) {
    |CapTable(api, market)| == 0 || |ChangeTable(api, market)| == 0
  }

  /** The columns of one market's table, in the order they are added. */
  const MarketColumns: seq<string> := FrontColumns + Investors + [Name]

  /** The columns added before the investors'. */
  const FrontColumns: seq<string> :=
    [Ticker, Market, Close, MarketCap, Volume, TradingValue, Change, Turnover]

  /** The price change of a ticker, 0.0 when it is missing or NaN. */
  function ChangeCell(changes: map<string, Cell>, ticker: string): (c: Cell)
    ensures ticker !in changes ==> c == Float(0, 0)
    ensures ticker in changes && !changes[ticker].NaN? ==> c == changes[ticker]
    ensures ticker in changes && changes[ticker].NaN? ==> c == Float(0, 0)
    ensures !c.NaN?
  {
    if ticker in changes && !changes[ticker].NaN? then changes[ticker] else Float(0, 0)
  }

  /** Turnover `round(volume / listedShares * 100, 4)` with NaN replaced by
      0: a ticker with no listed shares has turnover 0 when it did not trade
      and infinity when it did. */
  function TurnoverCell(volume: nat, listedShares: nat): (c: Cell)
    ensures listedShares > 0 ==>
              c.Float? && c.exp == 4 && RoundsHalfEven(volume * 1_000_000, listedShares, c.mantissa)
    ensures listedShares == 0 && volume == 0 ==> c == Float(0, 0)
    ensures listedShares == 0 && volume > 0 ==> c == Inf(false)
  {
    if listedShares == 0 then (if volume == 0 then Float(0, 0) else Inf(false))
    else Float(RoundHalfEven(volume * 1_000_000, listedShares), 4)
  }

  /** A ticker's net purchase for one investor: 0 when the response does not
      list it, which covers an empty response. */
  function InvestorCell(net: map<string, NetRow>, ticker: string): (c: Cell)
    ensures |net| == 0 || ticker !in net ==> c == Int(0)
    ensures ticker in net ==> c == Int(net[ticker].netPurchase)
  {
    if ticker in net then Int(net[ticker].netPurchase) else Int(0)
  }

  function NamesOf(net: map<string, NetRow>): map<string, string> {
    map t | t in net :: net[t].name
  }

  /** The net-purchase responses of one market, in investor order. */
  function NetResponses(api: MarketData, market: string): (rs: seq<map<string, NetRow>>)
    ensures |rs| == |Investors|
    ensures forall k :: 0 <= k < |Investors| ==> rs[k] == NetTable(api, market, Investors[k])
  {
    seq(|Investors|, k requires 0 <= k < |Investors| => NetTable(api, market, Investors[k]))
  }

  /** Display names come from the first non-empty response only; when every
      response is empty there are none. */
  function NameMap(responses: seq<map<string, NetRow>>): (names: map<string, string>)
    ensures (forall k :: 0 <= k < |responses| ==> |responses[k]| == 0) ==> names == map[]
    ensures forall k :: 0 <= k < |responses| && |responses[k]| > 0 &&
                        (forall j :: 0 <= j < k ==> |responses[j]| == 0) ==>
                          names == NamesOf(responses[k])
    decreases |responses|
  {
    if |responses| == 0 then map[]
    else if |responses[0]| > 0 then NamesOf(responses[0])
    else
      var rest := NameMap(responses[1..]);
      assert forall k :: 1 <= k < |responses| ==> responses[k] == responses[1..][k - 1];
      rest
  }

  /** The name a ticker gets: the harvested one when it is non-empty,
      otherwise the individual lookup, and "" when that lookup fails. */
  function DisplayName(api: MarketData, market: string, ticker: string): (name: string)
    ensures var names := NameMap(NetResponses(api, market));
            ticker in names && names[ticker] != "" ==> name == names[ticker]
    ensures var names := NameMap(NetResponses(api, market));
            !(ticker in names && names[ticker] != "") ==> name == api.tickerName(ticker).GetOr("")
  {
    var names := NameMap(NetResponses(api, market));
    var harvested := if ticker in names then names[ticker] else "";
    if harvested != "" then harvested else api.tickerName(ticker).GetOr("")
  }

  /** The values fetched for one ticker besides its capitalisation row: the
      price change, the display name and the net purchase of each investor,
      in investor order. */
  datatype Fetched = Fetched(change: Cell, name: string, net: seq<Cell>)

  function FetchedFor(api: MarketData, market: string, ticker: string): (f: Fetched)
    ensures |f.net| == |Investors|
    ensures forall k :: 0 <= k < |Investors| ==> f.net[k] == InvestorCell(NetTable(api, market, Investors[k]), ticker)
  {
    Fetched(
      ChangeCell(ChangeTable(api, market), ticker),
      DisplayName(api, market, ticker),
      seq(|Investors|, k requires 0 <= k < |Investors| => InvestorCell(NetTable(api, market, Investors[k]), ticker)))
  }

  lemma MarketColumnsDistinct()
    ensures |MarketColumns| == 21 && Distinct(MarketColumns)
  {
    MarketsAndInvestors();
    FrontColumnsDistinct();
    DistinctConcat(FrontColumns, Investors);
    assert Name !in FrontColumns + Investors by {
      BaseColumnsAreNotInvestors();
      assert BaseColumns[1] == Name;
    }
    DistinctConcat(FrontColumns + Investors, [Name]);
  }

  lemma FrontColumnsDistinct()
    ensures Distinct(FrontColumns)
    ensures forall i :: 0 <= i < |FrontColumns| ==> FrontColumns[i] !in Investors
  {
  }

  /** The cells of a ticker's row under `FrontColumns`. */
  function FrontCells(market: string, c: CapRow, f: Fetched): seq<Cell> {
    [Text(c.ticker), Text(market), Int(c.close), Int(c.marketCap), Int(c.volume),
     Int(c.tradingValue), f.change, TurnoverCell(c.volume, c.listedShares)]
  }

  /** The assembled row of one ticker: the front columns hold their cells,
      each investor column that investor's net purchase, and the name
      column the display name. */
  function AssembleRow(market: string, c: CapRow, f: Fetched): (r: Row)
    requires |f.net| == |Investors|
    ensures forall i :: 0 <= i < |FrontColumns| ==> Get(r, FrontColumns[i]) == FrontCells(market, c, f)[i]
    ensures forall k :: 0 <= k < |Investors| ==> Get(r, Investors[k]) == f.net[k]
    ensures Get(r, Name) == Text(f.name)
  {
    MarketColumnsDistinct();
    var front := FrontCells(market, c, f);
    RowOfParts(FrontColumns, Investors, [Name], front, f.net, [Text(f.name)]);
    RowOf(MarketColumns, front + f.net + [Text(f.name)])
  }

  /** The assembled row holds the ticker, its market and the figures of its
      capitalisation row, its price change and its turnover. */
  lemma AssembleRowFront(market: string, c: CapRow, f: Fetched)
    requires |f.net| == |Investors|
    ensures var r := AssembleRow(market, c, f);
            && Get(r, Ticker) == Text(c.ticker) && Get(r, Market) == Text(market)
            && Get(r, Close) == Int(c.close) && Get(r, MarketCap) == Int(c.marketCap)
            && Get(r, Volume) == Int(c.volume) && Get(r, TradingValue) == Int(c.tradingValue)
            && Get(r, Change) == f.change && Get(r, Turnover) == TurnoverCell(c.volume, c.listedShares)
  {
    var r := AssembleRow(market, c, f);
    var front := FrontCells(market, c, f);
    assert Get(r, FrontColumns[0]) == front[0] && Get(r, FrontColumns[1]) == front[1];
    assert Get(r, FrontColumns[2]) == front[2] && Get(r, FrontColumns[3]) == front[3];
    assert Get(r, FrontColumns[4]) == front[4] && Get(r, FrontColumns[5]) == front[5];
    assert Get(r, FrontColumns[6]) == front[6] && Get(r, FrontColumns[7]) == front[7];
  }

  /** The row of one ticker of a non-skipped market, with everything fetched
      for it. */
  function MarketRow(api: MarketData, market: string, c: CapRow): (r: Row)
    ensures Get(r, Ticker) == Text(c.ticker)
    ensures Get(r, Market) == Text(market) && Get(r, Volume) == Int(c.volume)
  {
    var f := FetchedFor(api, market, c.ticker);
    AssembleRowFront(market, c, f);
    AssembleRow(market, c, f)
  }

  /** A ticker's row shows its own ticker, the harvested or looked-up name,
      its price change, and for each investor the net purchase that
      investor's response lists for it, 0 when it lists none. */
  lemma MarketRowContents(api: MarketData, market: string, c: CapRow)
    ensures var r := MarketRow(api, market, c);
            && Get(r, Ticker) == Text(c.ticker)
            && Get(r, Name) == Text(DisplayName(api, market, c.ticker))
            && Get(r, Change) == ChangeCell(ChangeTable(api, market), c.ticker)
            && Get(r, Turnover) == TurnoverCell(c.volume, c.listedShares)
    ensures forall k :: 0 <= k < |Investors| && c.ticker in NetTable(api, market, Investors[k]) ==>
              Get(MarketRow(api, market, c), Investors[k]) == Int(NetTable(api, market, Investors[k])[c.ticker].netPurchase)
    ensures forall k :: 0 <= k < |Investors| && c.ticker !in NetTable(api, market, Investors[k]) ==>
              Get(MarketRow(api, market, c), Investors[k]) == Int(0)
  {
    AssembleRowFront(market, c, FetchedFor(api, market, c.ticker));
  }

  /** The rows one market contributes, one per row of its capitalisation
      table and in that order, each showing that row's ticker and volume;
      none when the market is skipped. */
  function MarketRows(api: MarketData, market: string): (rows: seq<Row>)
    ensures Skipped(api, market) ==> rows == []
    ensures !Skipped(api, market) ==> |rows| == |CapTable(api, market)|
    ensures forall i :: 0 <= i < |rows| ==> Get(rows[i], Market) == Text(market)
    ensures !Skipped(api, market) ==>
              forall i :: 0 <= i < |rows| ==>
                Get(rows[i], Ticker) == Text(CapTable(api, market)[i].ticker)
                && Get(rows[i], Volume) == Int(CapTable(api, market)[i].volume)
  {
    if Skipped(api, market) then []
    else
      var cap := CapTable(api, market);
      seq(|cap|, i requires 0 <= i < |cap| => MarketRow(api, market, cap[i]))
  }

  /** One progress report's message. */
  datatype Step =
    | FetchCap(market: string)
    | FetchChange(market: string)
    | FetchNet(market: string, investor: string)
    | SkipInvestor(market: string, investor: string)

  /** The progress reports of one market: two base fetches, then one report
      per investor whether or not the market is skipped. */
  function MarketSteps(api: MarketData, market: string): (steps: seq<Step>)
    ensures |steps| == |Investors| + 2
  {
    [FetchCap(market), FetchChange(market)] +
    if Skipped(api, market) then
      seq(|Investors|, k requires 0 <= k < |Investors| => SkipInvestor(market, Investors[k]))
    else
      seq(|Investors|, k requires 0 <= k < |Investors| => FetchNet(market, Investors[k]))
  }

  function CollectSteps(api: MarketData, markets: seq<string>): (steps: seq<Step>)
    ensures |steps| == |markets| * (|Investors| + 2)
    decreases |markets|
  {
    if |markets| == 0 then []
    else
      var rest := CollectSteps(api, markets[1..]);
      assert |markets| * (|Investors| + 2) == (|Investors| + 2) + (|markets| - 1) * (|Investors| + 2);
      MarketSteps(api, markets[0]) + rest
  }

  /** The per-market tables appended to the result list, skipped markets
      left out. */
  function Frames(api: MarketData, markets: seq<string>): (frames: seq<seq<Row>>)
    ensures |frames| == 0 <==> forall m :: m in markets ==> Skipped(api, m)
    decreases |markets|
  {
    if |markets| == 0 then []
    else
      var rest := Frames(api, markets[1..]);
      assert forall m :: m in markets ==> m == markets[0] || m in markets[1..];
      if Skipped(api, markets[0]) then rest
      else
        assert |MarketRows(api, markets[0])| > 0;
        [MarketRows(api, markets[0])] + rest
  }

  function Concat(frames: seq<seq<Row>>): seq<Row>
    decreases |frames|
  {
    if |frames| == 0 then [] else frames[0] + Concat(frames[1..])
  }

  /** The trading-volume filter: a row stays iff its volume is positive. */
  predicate Active(r: Row) {
    Get(r, Volume).Int? && Get(r, Volume).i > 0
  }

  predicate AllSkipped(api: MarketData) {
    forall m :: m in Markets ==> Skipped(api, m)
  }

  /** The result of one collection and the progress reports it made. */
  datatype Collection = Collection(table: Table, steps: seq<Step>)

  /** `collect(date)`. It reports exactly `TotalSteps` progress steps,
      returns the empty table when every market is skipped, and otherwise a
      table in the configured column order whose every row traded. */
  function Collect(api: MarketData): (r: Collection)
    ensures |r.steps| == TotalSteps
    ensures AllSkipped(api) ==> r.table == Table([], [])
    ensures !AllSkipped(api) ==> r.table.header == ColumnOrder
    ensures forall row :: row in r.table.rows ==> Get(row, Volume).Int? && Get(row, Volume).i > 0
  {
    var steps := CollectSteps(api, Markets);
    var frames := Frames(api, Markets);
    if |frames| == 0 then Collection(Table([], []), steps)
    else
      var active := FilterRows(Table(MarketColumns, Concat(frames)), Active);
      MarketColumnsAreConfigured();
      Collection(Table(OrderColumns(ColumnOrder, active.header), active.rows), steps)
  }

  /** The ratio `_progress` reports with its `k`-th message (counting from
      1): `k / TotalSteps`. */
  function ProgressRatio(k: nat): real {
    k as real / TotalSteps as real
  }

  /** The reports of one collection, each ratio with its message: the
      messages in the order of the steps, and a ratio that is the share of
      the 28 steps done so far, rising strictly from report to report. */
  function Progress(c: Collection): (p: seq<(real, Step)>)
    ensures |p| == |c.steps|
    ensures forall i :: 0 <= i < |p| ==> p[i].1 == c.steps[i] && p[i].0 * 28.0 == (i + 1) as real
    ensures forall i, j :: 0 <= i < j < |p| ==> 0.0 < p[i].0 < p[j].0
  {
    MarketsAndInvestors();
    seq(|c.steps|, i requires 0 <= i < |c.steps| => (ProgressRatio(i + 1), c.steps[i]))
  }

  /** Later reports carry larger ratios, and the last step's ratio is 1. */
  lemma ProgressRatioRises(j: nat, k: nat)
    requires j < k
    ensures ProgressRatio(j) < ProgressRatio(k)
    ensures k <= TotalSteps ==> 0.0 < ProgressRatio(k) <= 1.0
    ensures ProgressRatio(TotalSteps) == 1.0
  {
    MarketsAndInvestors();
  }

  /** A collection's reports (every collection makes `TotalSteps` of them,
      whichever markets are skipped) carry a ratio that rises strictly,
      stays in (0, 1] and ends at exactly 1. */
  lemma ProgressRisesToOne(c: Collection)
    requires |c.steps| == TotalSteps
    ensures var p := Progress(c);
            && |p| == 28
            && p[|p| - 1].0 == 1.0
            && (forall i :: 0 <= i < |p| ==> 0.0 < p[i].0 <= 1.0)
            && (forall i, j :: 0 <= i < j < |p| ==> p[i].0 < p[j].0)
  {
    MarketsAndInvestors();
    var p := Progress(c);
    forall i, j | 0 <= i < j < |p| ensures p[i].0 < p[j].0 && 0.0 < p[j].0 <= 1.0 {
      ProgressRatioRises(i + 1, j + 1);
    }
    ProgressRatioRises(0, 1);
    ProgressRatioRises(27, 28);
  }

  /** The rows of a table that belong to `market`. */
  function InMarket(market: string): Row -> bool {
    r => Get(r, Market) == Text(market)
  }

  lemma ConcatCons(frame: seq<Row>, frames: seq<seq<Row>>)
    ensures Concat([frame] + frames) == frame + Concat(frames)
  {
    assert ([frame] + frames)[1..] == frames;
  }

  /** A market's own rows all belong to it, and none belongs to another
      market. */
  lemma RowsOfMarket(api: MarketData, m: string, market: string)
    ensures Filter(MarketRows(api, m), InMarket(market)) == if m == market then MarketRows(api, m) else []
  {
    if m == market {
      FilterAll(MarketRows(api, m), InMarket(market));
    } else {
      assert Text(m) != Text(market);
      FilterNone(MarketRows(api, m), InMarket(market));
    }
  }

  /** Among the appended frames, the rows of `market` are exactly the rows
      that market contributed. */
  lemma {:induction false} FramesOfMarket(api: MarketData, markets: seq<string>, market: string)
    requires Distinct(markets)
    ensures Filter(Concat(Frames(api, markets)), InMarket(market)) ==
            if market in markets then MarketRows(api, market) else []
    decreases |markets|
  {
    if |markets| > 0 {
      var m0, rest := markets[0], markets[1..];
      DistinctTail(markets);
      MemberCons(markets, market);
      FramesOfMarket(api, rest, market);
      RowsOfMarket(api, m0, market);
      if !Skipped(api, m0) {
        ConcatCons(MarketRows(api, m0), Frames(api, rest));
        FilterConcat(MarketRows(api, m0), Concat(Frames(api, rest)), InMarket(market));
      }
    }
  }

  /** The rows a collection reports for one market are that market's active
      rows, in their original order: nothing another market returns, or
      fails to return, changes them, and a skipped market has none. */
  lemma MarketsAreIndependent(api: MarketData, market: string)
    requires market in Markets
    ensures Filter(Collect(api).table.rows, InMarket(market)) == Filter(MarketRows(api, market), Active)
    ensures Skipped(api, market) ==> Filter(Collect(api).table.rows, InMarket(market)) == []
  {
    MarketsAndInvestors();
    var frames := Frames(api, Markets);
    FramesOfMarket(api, Markets, market);
    if |frames| > 0 {
      FilterCommute(Concat(frames), Active, InMarket(market));
    }
  }

  /** The assembled columns are exactly the configured ones, so reordering
      them yields the configured order. */
  lemma MarketColumnsAreConfigured()
    ensures OrderColumns(ColumnOrder, MarketColumns) == ColumnOrder
  {
    assert MarketColumns[..8] == [ColumnOrder[0], ColumnOrder[2], ColumnOrder[3], ColumnOrder[5],
                                  ColumnOrder[7], ColumnOrder[6], ColumnOrder[4], ColumnOrder[8]];
    assert MarketColumns[8..20] == ColumnOrder[9..];
    assert MarketColumns[20] == ColumnOrder[1];
    forall c | c in MarketColumns ensures c in ColumnOrder {
      var i :| 0 <= i < |MarketColumns| && MarketColumns[i] == c;
      if i < 8 {
        assert c in MarketColumns[..8];
      } else if i < 20 {
        assert c == MarketColumns[8..20][i - 8];
      }
    }
    forall c | c in ColumnOrder ensures c in MarketColumns {
      var i :| 0 <= i < |ColumnOrder| && ColumnOrder[i] == c;
      if i == 1 {
        assert c == MarketColumns[20];
      } else if i < 9 {
        assert c in MarketColumns[..8];
      } else {
        assert c == MarketColumns[8..20][i - 9];
      }
    }
    OrderColumnsSameSet(ColumnOrder, MarketColumns);
  }
}
