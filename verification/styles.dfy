/** The styling pass `_apply_styles` makes over each saved sheet: the font
    colour of investor and price-change cells and the width of each column.
    It reads the values back as they were stored, so an investor cell holds
    the text written in 억. Fills, bold headers, alignment, merging, the
    auto-filter and frozen panes carry no data and are not modelled. */
module Styles {
  import opened Options
  import opened Numbers
  import opened Strings
  import opened Cells
  import opened Config
  import opened Writer

  /** The data-cell fonts: the default one, blue for a rise or a net
      purchase, red for a fall or a net sale. */
  datatype Font = Plain | Blue | Red

  /** An investor cell: red when its text starts with a minus sign, blue
      when it is any other non-empty text besides "0", and unchanged when
      it is empty or falsy. */
  function InvestorFont(c: Cell): (f: Font)
    ensures f == Red ==> Truthy(c) && |Repr(c)| > 0 && Repr(c)[0] == '-'
    ensures f == Blue ==> Truthy(c) && Repr(c) != "0" && Repr(c) != "" && Repr(c)[0] != '-'
    ensures f == Plain ==> !Truthy(c) || Repr(c) == "0" || Repr(c) == ""
  {
    if !Truthy(c) then Plain
    else if |Repr(c)| > 0 && Repr(c)[0] == '-' then Red
    else if Repr(c) != "0" && Repr(c) != "" then Blue
    else Plain
  }

  /** A price-change cell: blue above zero, red below, unchanged for text
      and for values that compare false both ways. */
  function ChangeFont(c: Cell): (f: Font)
    ensures f == Blue <==> IsNumber(c) && Sign(c) > 0
    ensures f == Red <==> IsNumber(c) && Sign(c) < 0
  {
    if !IsNumber(c) then Plain
    else if Sign(c) > 0 then Blue
    else if Sign(c) < 0 then Red
    else Plain
  }

  /** The font of a data cell under the header `column`. */
  function CellFont(column: string, c: Cell): Font {
    if column in Investors then InvestorFont(c)
    else if column == Change then ChangeFont(c)
    else Plain
  }

  /** A finite net purchase is shown blue exactly when it rounds to a
      positive number of 억, red exactly when it rounds to a negative one,
      and in the default font when it rounds to zero; a missing one is
      shown in the default font. */
  lemma InvestorFontFollowsSign(column: string, c: Cell)
    requires column in Investors && !c.Inf? && !c.Text?
    ensures IsFinite(c) ==> (CellFont(column, WriteCell(column, c).value) == Blue <==> EokAmount(c) > 0)
    ensures IsFinite(c) ==> (CellFont(column, WriteCell(column, c).value) == Red <==> EokAmount(c) < 0)
    ensures c.NaN? ==> CellFont(column, WriteCell(column, c).value) == Plain
  {
    RuleOfInvestors(column);
    if IsFinite(c) {
      var s := FormatEok(c).value;
      assert WriteCell(column, c).value == Text(s);
      assert s == FormatThousands(EokAmount(c));
      assert Repr(Text(s)) == s;
    }
  }

  /** A finite price change is shown blue exactly when it is positive and
      red exactly when it is negative. */
  lemma ChangeFontFollowsSign(c: Cell)
    requires IsFinite(c)
    ensures CellFont(Change, WriteCell(Change, c).value) == Blue <==> FiniteValue(c) > 0.0
    ensures CellFont(Change, WriteCell(Change, c).value) == Red <==> FiniteValue(c) < 0.0
  {
    RuleOfChange();
    assert Change !in Investors by {
      BaseColumnsAreNotInvestors();
      assert BaseColumns[4] == Change;
    }
    SignOfFinite(c);
  }

  /** The length of each cell's text. */
  function TextLengths(cells: seq<Cell>): (r: seq<nat>)
    ensures |r| == |cells| && forall i :: 0 <= i < |cells| ==> r[i] == |Repr(cells[i])|
  {
    seq(|cells|, i requires 0 <= i < |cells| => |Repr(cells[i])|)
  }

  /** The largest of `first` and the `lengths`. */
  function Longest(first: nat, lengths: seq<nat>): (m: nat)
    ensures m >= first && forall i :: 0 <= i < |lengths| ==> lengths[i] <= m
    ensures m == first || exists i :: 0 <= i < |lengths| && m == lengths[i]
    decreases |lengths|
  {
    if |lengths| == 0 then first
    else
      var rest := Longest(first, lengths[1..]);
      assert forall i :: 1 <= i < |lengths| ==> lengths[i] == lengths[1..][i - 1];
      Max(lengths[0], rest)
  }

  /** The most characters a column is widened for. */
  const WidthCap: nat := 25

  /** The width of a column: three more than its longest text, header
      included, but never more than 25. */
  function ColumnWidth(header: string, cells: seq<Cell>): (w: nat)
    ensures 3 <= w <= WidthCap
    ensures w < WidthCap ==> |header| + 3 <= w && forall i :: 0 <= i < |cells| ==> |Repr(cells[i])| + 3 <= w
    ensures w == WidthCap || w == |header| + 3 || exists i :: 0 <= i < |cells| && w == |Repr(cells[i])| + 3
    ensures w == WidthCap ==>
              |header| + 3 >= WidthCap || exists i :: 0 <= i < |cells| && |Repr(cells[i])| + 3 >= WidthCap
  {
    Min(Longest(|header|, TextLengths(cells)) + 3, WidthCap)
  }
}
