# kr-stock-flow in Dafny

A model of the data path of kr-stock-flow, a tool that collects the daily
net purchases of twelve investor categories for every KOSPI and KOSDAQ
stock. It covers three stages:

- **Collector.** Fetches market data through a retry wrapper and builds one row per ticker.
- **Excel writer.** Saves the table as a workbook: a full sheet, plus top-50 ranking
  sheets for foreigners, institutions and individuals. It formats money in
  억 (10^8 won) with thousands separators and colours the signs.
- **Dashboard.** Loads the day's table, filters it by market and by name or
  ticker, and turns the writer's 억 strings back into won.

Cells are modelled as `Int`, `Float(m, e)` (the float whose shortest decimal
form is m / 10^e), `NaN`, `Inf` or `Text`.
A Python exception (`round(inf)`, `nlargest` on a text column) is modelled as
`None` or `Raised`.
The market-data service, the ticker-name lookup and the saved file are
parameters:

- **Market data:** a record of functions indexed by attempt number, `None` meaning
  that attempt raised.
- **Saved file:** `Missing`, `Unreadable` or `Readable(table)`.

The modules follow the program:

- **`Config`:** the constants.
- **`Retrying`:** `_retry`.
- **`Collector`:** `collect`.
- **`Ranking`:** `DataFrame.nlargest`.
- **`Writer`:** `_format_억`, `_format_comma`, `_write_sheet`, `save_to_excel`.
- **`Styles`:** `_apply_styles`.
- **`Dashboard`:** the dashboard's helpers.
- **Shared modules:**
  - `Cells`: the cell values.
  - `Tables`: the data frame.
  - `Numbers`, `Strings`, `Seqs`, `Options`: support code.

## Model

| member | source | states |
|---|---|---|
| Config.MarketsAndInvestors | config.py:10-18 | Two distinct markets and twelve distinct investor categories, so a collection makes 2 * (12 + 2) = 28 progress reports |
| Config.BaseColumnsDistinct | config.py:31-33 | The nine base report columns are nine different names |
| Config.BaseColumnsAreNotInvestors | config.py:31-34 | No base column is also an investor category, so the 21 report columns never collide |
| Config.ColumnOrderShape | config.py:31-34 | The report column order is the nine base columns followed by the twelve investors, 21 distinct names |
| Config.RankingColumnsArePrefix | config.py:43-47 | The ranking-sheet columns are exactly the first nine report columns, and adding any investor keeps them distinct |
| Config.MajorInvestorsArePrefix | config.py:20-21 | The dashboard's major investors are the first three investor categories, without repetition |
| Config.RankingSheetsWellFormed | config.py:36-41 | Every ranking investor is a real category, no ranking sheet is named like the full sheet, and investors and sheet names are pairwise distinct |
| Config.RetriesAttempted | config.py:26-28 | The retry bound allows at least one attempt |
| Retrying.Retry | collector.py:11-23 | Never raises. It returns the first successful attempt's result, or the empty frame after max_retries failed attempts (at once when the bound is 0). Every attempt before the last failed; the wait before attempt k+1 is 0.5 * 2^k seconds; there is no wait after a success or after the last failure |
| Retrying.RetryFrom | collector.py:13-22 | The loop from a given attempt on: it stops at the first success or after the last allowed attempt, waiting once between consecutive attempts |
| Retrying.RetrySucceedsAfterFailures | collector.py:13-15 | A call failing n times and then succeeding, with n below the bound, yields that success after n + 1 calls and n waits |
| Retrying.RetryAllFail | collector.py:16-19 | A call that always fails yields the empty frame after exactly max_retries attempts |
| Retrying.BackoffDoubles | collector.py:20 | Each retry waits twice as long as the previous one |
| Collector.ChangeCell | collector.py:77-78 | A ticker's price change is the one the price-change table lists for it; a ticker missing from it, or with a missing change, gets 0.0 |
| Collector.TurnoverCell | collector.py:80-82 | Turnover is volume / listed shares * 100 rounded half-even to 4 places. With no listed shares it is 0 for an untraded ticker and infinity for a traded one; it is never missing |
| Collector.InvestorCell | collector.py:96-107 | A ticker's net purchase for an investor is the amount that investor's response lists for it, and 0 when the response is empty or does not list it |
| Collector.NameMap | collector.py:100-103 | Names are harvested from the first non-empty net-purchase response only; with every response empty there are none |
| Collector.DisplayName | collector.py:109-117 | A ticker's name is the harvested one when non-empty, else the individual lookup's, else "" when that lookup fails |
| Collector.AssembleRow | collector.py:66-110 | A ticker's row holds each front column's value, each investor's net purchase under that investor's column, and the display name |
| Collector.AssembleRowFront | collector.py:66-82 | The row holds the ticker, the market, close, market cap, volume and trading value from the capitalisation row (by position), the price change and the turnover |
| Collector.MarketRow | collector.py:66-123 | The row of a ticker of a collected market is tagged with that market and keeps its traded volume |
| Collector.MarketRowContents | collector.py:66-121 | A ticker's row shows its own ticker, its display name, its price change, its turnover and, for every investor, the net purchase that investor's response lists for it, or 0 when it lists none |
| Collector.MarketRows | collector.py:50-123 | A market whose capitalisation or price-change table is empty contributes no rows; otherwise one row per capitalisation row, in that order, each tagged with the market and showing that row's ticker and volume |
| Collector.MarketSteps | collector.py:50-64 | Each market makes exactly 14 progress reports, two base fetches and one per investor, whether it is skipped or not |
| Collector.CollectSteps | collector.py:36-64 | The markets together make markets * (investors + 2) progress reports |
| Collector.Frames | collector.py:123-127 | No frame is appended exactly when every market is skipped |
| Collector.Collect | collector.py:26-137 | Exactly 28 progress reports; the empty table when every market is skipped; otherwise the configured column order, and every row kept has positive volume |
| Collector.Progress | collector.py:39-46 | Each report carries its step's message, in step order, and the share of the 28 steps done so far; the ratio rises strictly and stays above 0 |
| Collector.ProgressRatioRises | collector.py:42 | Later reports carry strictly larger ratios, within (0, 1], and the last is exactly 1 |
| Collector.ProgressRisesToOne | collector.py:36-46 | Over one collection the 28 ratios rise strictly, stay in (0, 1] and end at 1 |
| Collector.MarketColumnsDistinct | collector.py:66-110 | The 21 columns a market's table is built with are pairwise distinct |
| Collector.RowsOfMarket | collector.py:68 | All of a market's rows carry that market's name and none carries another's |
| Collector.FramesOfMarket | collector.py:123-129 | After concatenation the rows of one market are exactly the rows that market contributed, in order |
| Collector.MarketsAreIndependent | collector.py:50-132 | A market's rows in the result are its own rows with positive volume, in order, whatever any other market returns; a skipped market has none |
| Collector.MarketColumnsAreConfigured | collector.py:134-137 | The assembled columns are exactly the configured ones, so reordering yields the configured order with no extra columns |
| Tables.Present | excel_writer.py:75 | The written columns are the requested ones the table has, in requested order, without repetition when the request has none |
| Tables.OrderColumns | collector.py:134-137 | The configured columns present come first, in configured order, then every other column in table order; the column set is unchanged |
| Tables.OrderColumnsPermutes | collector.py:134-137 | Reordering is a permutation: each column appears exactly once |
| Tables.OrderColumnsSameSet | collector.py:135-137 | A table with exactly the configured columns comes out in exactly the configured order |
| Tables.FilterRows | collector.py:132 | Row filtering keeps exactly the rows satisfying the condition, every copy of each, in their order, and leaves the header alone |
| Cells.IntegralPartValue | excel_writer.py:24-25 | `int(value)` of a float equal to an integer is that same number |
| Numbers.RoundHalfEven | excel_writer.py:17 | `round()` returns an integer within half a unit of the quotient, taking the even one on a tie |
| Numbers.RoundHalfEvenUnique | excel_writer.py:17 | No other integer satisfies that rounding rule, so the result is determined by it |
| Numbers.RoundsHalfEvenIsNearest | excel_writer.py:17 | The integer rounding rule agrees with rounding the exact real quotient to the nearest integer, ties to even |
| Strings.FormatThousands | excel_writer.py:17 | `f"{n:,}"` starts with '-' exactly for negatives, groups digits in threes, reads "0" exactly for 0, and gives `str(n)` back once commas are removed |
| Strings.ParseNumber | dashboard.py:129-131 | Empty text is unparsable; a plain digit string parses to its value; any parsed text contains a digit |
| Strings.ParseFormatThousands | dashboard.py:128-131 | The writer's comma form of n, with commas removed, parses back to exactly n |
| Strings.ZFill | excel_writer.py:91 | `zfill(w)` pads with zeros on the left to w characters, keeping a sign in front, and leaves longer text unchanged |
| Strings.ContainsIff | dashboard.py:91-93 | The substring search succeeds exactly when the needle occurs at some position |
| Ranking.Candidates | excel_writer.py:56 | `nlargest` ranks exactly the rows whose value is not missing |
| Ranking.TopValued | excel_writer.py:56 | The ranked part of `nlargest` keeps min(n, rows with a value) rows, all with a value |
| Ranking.Missing | excel_writer.py:56 | The rows with a missing value, in table order; with the rows that have one they account for the whole table |
| Ranking.NLargest | excel_writer.py:56 | `nlargest(n, column)` raises exactly when the column holds text. Otherwise it keeps min(n, table rows) rows from the table: first the ranked part, then the rows with a missing value in table order |
| Ranking.NLargestMissingLast | excel_writer.py:56 | A kept row has a missing value exactly when it comes after every row with a value, so missing rows are kept only when fewer than n rows have a value |
| Ranking.NLargestIsTop | excel_writer.py:56 | The ranked rows run from the largest value down, are drawn from the rows with a value, and no row with a value left out is larger than any ranked row |
| Ranking.NLargestKeepsFirst | excel_writer.py:56 | Among rows of equal value, the ranked ones are the first in table order (`keep="first"`) |
| Ranking.NLargestKeepsAll | excel_writer.py:56 | With at most n rows with a value, every one of them is ranked |
| Ranking.SortDescendingSorted | excel_writer.py:56 | The ranking order is from the largest value down |
| Ranking.SortDescendingStable | excel_writer.py:56 | The ranking order keeps rows of equal value in table order |
| Writer.EokAmount | excel_writer.py:17 | `round(value / 1e8)` is the integer nearest to the amount in 억, ties to even |
| Writer.FormatEok | excel_writer.py:13-17 | `_format_억` gives "" for text and missing values, raises exactly for infinities, and for finite amounts gives a comma form whose digits are the rounded number of 억 |
| Writer.FormatComma | excel_writer.py:20-26 | `_format_comma` gives "" for text and missing values, raises exactly for infinities, groups integers and integral floats as integers, and keeps the point of other floats |
| Writer.TickerText | excel_writer.py:89-91 | A ticker is written as its text zero-padded to six characters, unchanged when already six or longer |
| Writer.RuleOfInvestors | excel_writer.py:79-82 | Every investor column is written in 억 |
| Writer.RuleOfChange | excel_writer.py:78-91 | The price-change column is written as stored |
| Writer.Store | excel_writer.py:93 | Numbers and text are stored as they are; a missing value becomes empty text and an infinity becomes "inf" or "-inf" |
| Cells.Repr | excel_writer.py:149 | `str(value)`: the digits of an int, a float's text with a point and its sign, "nan", "inf" or "-inf", and a string itself |
| Cells.DecimalText | excel_writer.py:26 | A float's text starts with '-' exactly for a negative value and always has a point |
| Cells.DecimalTextParts | excel_writer.py:26 | A float's text is the sign, then the digits of the whole part (grouped in threes for `:,`), then the point, then the fraction digits of the remainder |
| Cells.FractionDigitsValue | excel_writer.py:26 | The fraction digits are "0" exactly for a zero remainder; otherwise at most e digits without a trailing zero that, padded back to e places, denote the remainder |
| Writer.WriteCell | excel_writer.py:78-93 | A cell raises exactly when it holds an infinity in a column written in 억 or with commas. Otherwise it is formatted by its column's rule: 억 text, comma text, the padded ticker, or the stored value. It is never missing or infinite |
| Writer.WriteSheet | excel_writer.py:72-97 | A written sheet has the given name and title and, as header, the requested columns the table has, in requested order |
| Writer.WriteSheetFails | excel_writer.py:75-91 | Writing a sheet raises exactly when some cell of some row under a written column raises |
| Writer.WriteSheetCells | excel_writer.py:75-93 | A written sheet has one row per table row, each cell its row's value formatted by its column's rule |
| Writer.RankedInvestors | excel_writer.py:53-55 | A ranking sheet is made exactly for each configured ranking investor whose column the table has |
| Writer.RankedAreInvestors | excel_writer.py:53-55 | Every ranking sheet is about one of the twelve investor categories |
| Writer.RankingColumnsConfigured | excel_writer.py:57-58 | Every column of a ranking sheet is one of the report's configured columns |
| Writer.RankingSheet | excel_writer.py:56-61 | A ranking sheet has its configured name, the TOP-50 title, and the ranking columns followed by the investor's, as far as the table has them |
| Writer.RankingSheetRows | excel_writer.py:56-61 | A ranking sheet cannot be made when the investor's column holds text. Otherwise it has fifty rows, or every row of a smaller table, formatted cell by cell |
| Writer.RankingSheetFails | excel_writer.py:53-61 | A ranking sheet fails when its investor's column holds text, and otherwise only when some cell it shares with the full sheet raises there too |
| Writer.SaveToExcel | excel_writer.py:29-61 | `save_to_excel` writes nothing for an empty table. Otherwise it writes the full sheet first, then one sheet per ranked investor. When it raises, the file keeps the sheets written before the error: none if the full sheet failed, else the full sheet and the ranking sheets before the one that failed |
| Writer.RaisedSheets | excel_writer.py:44-61 | After an error past the full sheet, the kept ranking sheets are those of the ranked investors in order, and the next investor's sheet is the one that raised |
| Writer.SavedSheets | excel_writer.py:44-61 | The first sheet is "전체" with every row under the configured columns present; sheet k is the k-th ranked investor's, with at most fifty rows |
| Writer.SheetNamesDistinct | excel_writer.py:48-61 | No two sheets of a saved workbook share a name |
| Writer.SaveRaises | excel_writer.py:38-61 | A non-empty table fails to save exactly when a full-sheet cell raises or a ranking investor's column holds text |
| Styles.InvestorFont | excel_writer.py:147-153 | An investor cell is red exactly when its text starts with '-', blue when it is any other non-empty truthy text but "0", and unchanged otherwise |
| Styles.ChangeFont | excel_writer.py:155-164 | A price-change cell is blue exactly for a number above 0 and red exactly for one below 0 |
| Styles.InvestorFontFollowsSign | excel_writer.py:132-153 | A finite net purchase is blue exactly when it rounds to a positive number of 억 and red exactly when it rounds to a negative one; a missing one stays plain |
| Styles.ChangeFontFollowsSign | excel_writer.py:155-164 | A finite price change is blue exactly when positive and red exactly when negative |
| Styles.Longest | excel_writer.py:168-172 | The running maximum is the least upper bound of the header length and the cell lengths |
| Styles.ColumnWidth | excel_writer.py:166-173 | A column's width is between 3 and 25. Below 25 it is 3 more than its longest text, header included. It is always attained by the cap, the header or some cell, and it is 25 only when some text is at least 22 long |
| Dashboard.LoadData | dashboard.py:20-43 | The saved table is used exactly when it was read and is not empty; otherwise the live collection's result is used |
| Dashboard.FilterMarket | dashboard.py:83-85 | "전체", or a table without a market column, keeps every row; otherwise exactly the rows of the selected market, every copy of each, in order |
| Dashboard.Search | dashboard.py:87-94 | An empty query keeps every row; otherwise exactly the rows whose name or ticker text contains the query, ignoring case, every copy of each, in order |
| Dashboard.MatchesAt | dashboard.py:91-93 | A cell matches exactly when it is text and the lower-cased query occurs in its lower-cased text |
| Dashboard.FiltersCommute | dashboard.py:83-94 | The market filter and the search give the same table in either order |
| Dashboard.HeatmapColumns | dashboard.py:229-234 | The heatmap shows exactly the selected investors the table has: the major ones first in configured order, then the rest in selection order |
| Dashboard.HeatmapColumnsPermute | dashboard.py:229-234 | With a repetition-free selection, the heatmap columns are a permutation of the selected columns present |
| Dashboard.BarSide | dashboard.py:165-167 | A bar is a purchase exactly when its total is at least 0 (a missing total counts as a sale) |
| Dashboard.DashFormatEok | dashboard.py:103-107 | The dashboard's `format_억` gives "0억" for missing, raises for infinities, and for finite amounts gives the writer's comma form followed by "억"; text is formatted exactly when it parses as a number |
| Dashboard.ZeroEok | dashboard.py:105-107 | An amount of zero is zero 억, written "0" |
| Dashboard.DashFormatComma | dashboard.py:110-118 | The dashboard's `format_comma` agrees with the writer's on every number and missing value, and gives text back unchanged |
| Dashboard.ScaleToWon | dashboard.py:132 | Multiplying an amount in 억 by 1e8 gives the float of its value in won |
| Dashboard.ReloadText | dashboard.py:129-132 | A decimal literal reloads as its value times 10^8; an infinity spelling pandas accepts ("inf", "+inf", "-inf", "infinity", "+infinity", "-infinity", in any letter case) as that infinity; anything else as 0 |
| Dashboard.ReloadCell | dashboard.py:128-132 | A reloaded cell is always a number that is not missing, and an infinity reloads as itself |
| Dashboard.ToNumericInvestor | dashboard.py:121-132 | `to_numeric_investor` gives zeros for an absent column, the column itself when numeric, and never a missing value otherwise |
| Dashboard.ReloadThousands | dashboard.py:128-132 | The writer's comma form of n reloads as exactly n * 10^8 won |
| Dashboard.ReloadWrittenEok | dashboard.py:121-132 | Written by `_format_억` and read back as text, a finite amount becomes its rounded number of 억 times 10^8, within half of one 억 of the original |
| Dashboard.ReloadWrittenColumn | dashboard.py:121-132 | A whole investor column written by the writer and read back as text converts, row by row, to the rounded amounts in won |
| Dashboard.WrittenColumn | excel_writer.py:13-17 | The writer stores each finite amount of a column as the comma form of its rounded number of 억 |
| Dashboard.ReadBackColumn | dashboard.py:26 | `pd.read_excel` gives back a text column as integers when every entry is an integer literal, and as the text itself otherwise |
| Dashboard.SmallAmountsReadBackAsIntegers | dashboard.py:26 | A written column whose amounts are all under 1,000억 comes back as the rounded amounts in 억, as integers |
| Dashboard.SmallWorkbookColumnUnscaled | dashboard.py:121-126 | As written, `to_numeric_investor` returns such a column unchanged, so its amounts stay in 억 |
| Dashboard.UnscaledExample | dashboard.py:121-132 | 1,200,000,000 won is written as "12", read back as the integer 12, and converted to 12 rather than to won |
| Dashboard.ToNumericWorkbook | dashboard.py:121-132 | The intended conversion of a workbook column: zeros when absent, never missing, and the same as `to_numeric_investor` on text and infinities |
| Dashboard.ReloadInt | dashboard.py:128-132 | An integer number of 억 converts through the text path to that many times 10^8 won |
| Dashboard.ReloadWorkbookColumn | dashboard.py:121-132 | With the intended conversion, a written investor column read back as text or as integers converts, row by row, to the rounded amounts in won |

## Left out

- Floats are modelled as exact decimals, so binary float inexactness is not modelled: `round(value / 1e8)` is computed on the exact quotient. Neither is the exponent form of `repr` for very large or very small floats.
- `str.contains` is modelled as a case-insensitive ASCII substring search. Regular-expression metacharacters in the query and non-ASCII case folding are not modelled.
- Strings.ParseNumber: only plain decimal literals are modelled (sign, digits, one point). `pandas.to_numeric` also accepts surrounding whitespace and exponents ("1e3"), which the model reloads as 0. Its infinity spellings are modelled by Dashboard.InfSpelling.
- Writer.FormatComma: for a float that is not integral it states only that the text keeps its decimal point, not the grouped digits.
- Dashboard.DashFormatComma: the same as the writer's rule for floats that are not integral.
- Dashboard.DashFormatEok: for text it states only when formatting succeeds, not the text produced. Text is read as a plain decimal literal only. Python's `float()` also reads surrounding whitespace, exponents ("1e3") and underscores between digits ("1_000"), so for such text the model raises where the code formats a number. Infinity and NaN spellings raise in both, since `round` rejects them.
- Dashboard.ToNumericInvestor: for a text column it states only that every entry becomes a non-missing number. The exact value is stated for text the writer produced (ReloadWrittenEok, ReloadWrittenColumn).
- File I/O is not modelled: directories, reading and writing the workbook, and reloading it with openpyxl. The saved file is a parameter of LoadData.
- `pd.read_excel`'s dtype inference is modelled only for one case, by Dashboard.ReadBackColumn: a column whose entries are all integer literals comes back as integers. A column of decimal literals, which pandas reads as float64, and empty cells, which it reads as missing, are not modelled. The consequence for investor columns is the finding below. The zero-padded 티커 column ("005930") also comes back as integers, and `.str.contains` on it raises. The model's search does not raise there: its `.str` test simply does not match a value that is not text.
- Sleeps between requests (`REQUEST_DELAY`), console output and `main.py` are left out. They change no data.
- Visual-only formatting is not modelled: fonts, fills, bold headers, alignment, merged title cells, the auto-filter, frozen panes and the "@" number format of the ticker column.
- The Streamlit user interface is not modelled: the sidebar widgets, metrics, charts and display table.
- The sums that feed `format_억` and the bar colour are not modelled. BarSide and DashFormatEok take the total as input.
- The dashboard's display-table conversion to 억 (dashboard.py:192-217) is not modelled. Neither is its top-30 heatmap ranking, beyond the column order.
- The Streamlit cache around the live collection is not modelled. The collection's result is a parameter of LoadData.
- pandas dtype dispatch is not modelled. A column is "numeric" when no entry is text, and `.str` on a non-text value never matches, where pandas would raise on a numeric column.
- Python `bool` values, which are also `int`, are not distinguished.
- The market-data service is an oracle. Which tickers it returns, and their order, are inputs. The `iloc` positions are fixed by the CapRow and NetRow records.
- The individual ticker-name lookups are not capped, as in the code.
- Writer.SaveToExcel: when the whole-table sheet fails no sheet was written, and what openpyxl then leaves on disk is not modelled (`Raised([])`). After any error the styles are not applied, as in the code.
- Ranking.NLargestKeepsFirst: ties keep table order. When the table has no more rows than n, pandas sorts with `sort_values`, whose default sort is not stable, so ties there may come in another order.
- Column widths use `str()` of the stored value. The float forms a reloaded workbook would show are modelled by Cells.Repr only for the exact decimal form.

## Findings

| source | as written | input that shows it | evidently intended | confidence | as-written member | corrected member |
|---|---|---|---|---|---|---|
| dashboard.py:26, dashboard.py:125-127 | `to_numeric_investor` returns an int64 or float64 column unchanged, taking it to be in won already. A workbook investor column whose amounts are all under 1,000억 holds only comma-free integer text such as "-12", "0" and "345", and `pd.read_excel` reads it back as int64 | A net purchase of 1,200,000,000 won, written as "12", becomes 12 won on the dashboard | Every amount read from the workbook is in 억 and is scaled to won, as the comment at dashboard.py:127 says | medium, not executed; rests on pandas' documented dtype inference for `read_excel` | Dashboard.SmallWorkbookColumnUnscaled, Dashboard.UnscaledExample | Dashboard.ToNumericWorkbook, Dashboard.ReloadWorkbookColumn |
