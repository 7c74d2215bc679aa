/** Conditional formatting of the summary table: the sign colour of metric
    cells and the highlight of clicked merchants. */
module Styling {
  import opened Wrappers
  import opened Numerals
  import opened Cells
  import opened Clicks
  import opened Table

  const NoStyle: string := ""
  const Green: string := "color: green"
  const Red: string := "color: red"
  const Highlight: string := "background-color: yellow; font-weight: bold"

  /** `color_top_bottom`: no style for an empty cell, otherwise green for a
      positive and red for a negative value, none for zero. */
  function ColorTopBottom(val: string): (style: string)
    requires Displayable(val)
    ensures style == NoStyle || style == Green || style == Red
    ensures val == "" ==> style == NoStyle
  {
    if val == "" then NoStyle
    else
      var num := Hundredths(val);
      if num > 0 then Green else if num < 0 then Red else NoStyle
  }

  /** The sign rule stated on the metric before it is formatted. */
  function SignStyle(v: Option<Decimal>): string {
    match v
    case None => NoStyle
    case Some(d) => if Value(d) > 0 then Green else if Value(d) < 0 then Red else NoStyle
  }

  /** Styling the formatted text of a metric follows the sign of the metric
      itself; a missing metric and a (negative) zero get no style. */
  lemma ColorOfMetric(v: Option<Decimal>)
    ensures Displayable(FormatMetric(v))
    ensures ColorTopBottom(FormatMetric(v)) == SignStyle(v)
  {
    if v.Some? {
      ParseRender(v.value);
    }
  }

  /** `highlight_click`: the highlight exactly for a clicked merchant. */
  function HighlightClick(clicked: seq<string>, merchantId: string): (style: string)
    ensures style == Highlight <==> merchantId in clicked
    ensures style == NoStyle <==> merchantId !in clicked
  {
    if merchantId in clicked then Highlight else NoStyle
  }

  /** A merchant is highlighted exactly when a point of the current click
      batch carries its id; an empty or missing batch highlights nobody. */
  lemma HighlightFollowsClicks(selected: Option<seq<ClickPoint>>, m: string)
    ensures HighlightClick(ClickedMerchants(selected), m) == Highlight
        <==> selected.Some? && exists i :: 0 <= i < |selected.value| && selected.value[i].x == m
    ensures selected.None? || selected.value == [] ==> HighlightClick(ClickedMerchants(selected), m) == NoStyle
  {
  }

  /** A row style_table can be applied to: all cells are text, and every
      cell outside the merchant id column is empty or a percentage. */
  predicate Styleable(row: Row) {
    forall i :: 0 <= i < |row| ==>
      row[i].1.Text? && (row[i].0 != MerchantId ==> Displayable(row[i].1.text))
  }

  predicate DistinctColumns(row: Row) {
    forall i, j :: 0 <= i < j < |row| ==> row[i].0 != row[j].0
  }

  /** `row[col]`: the cell of the first column named col, if there is one. */
  function Lookup(row: Row, col: string): (cell: Option<Cell>)
    ensures cell.None? <==> forall i :: 0 <= i < |row| ==> row[i].0 != col
  {
    if row == [] then None
    else if row[0].0 == col then Some(row[0].1)
    else Lookup(row[1..], col)
  }

  lemma {:induction false} LookupDistinct(row: Row, i: nat)
    requires DistinctColumns(row)
    requires i < |row|
    ensures Lookup(row, row[i].0) == Some(row[i].1)
  {
    if i > 0 {
      assert row[0].0 != row[i].0;
      assert row[1..][i - 1] == row[i];
      LookupDistinct(row[1..], i - 1);
    }
  }

  /** The style of one cell: the highlight rule in the merchant id column,
      the sign rule everywhere else. */
  function CellStyle(col: string, text: string, clicked: seq<string>): (style: string)
    requires col == MerchantId || Displayable(text)
    ensures col != MerchantId ==> style == NoStyle || style == Green || style == Red
    ensures col == MerchantId ==> (style == Highlight <==> text in clicked)
    ensures col == MerchantId ==> (style == NoStyle <==> text !in clicked)
  {
    if col != MerchantId then ColorTopBottom(text) else HighlightClick(clicked, text)
  }

  /** The styles of a row, one per column, in column order. */
  function RowStyles(row: Row, clicked: seq<string>): (styles: seq<string>)
    requires Styleable(row)
    ensures |styles| == |row|
    ensures forall i :: 0 <= i < |row| ==> styles[i] == CellStyle(row[i].0, row[i].1.text, clicked)
  {
    if row == [] then [] else RowStyles(row[..|row| - 1], clicked) + [CellStyle(row[|row| - 1].0, row[|row| - 1].1.text, clicked)]
  }

  /** `style_table`: walk the columns and append one style per column. */
  method StyleTable(row: Row, clicked: seq<string>) returns (styles: seq<string>)
    requires Styleable(row) && DistinctColumns(row)
    ensures styles == RowStyles(row, clicked)
  {
    styles := [];
    var i := 0;
    while i < |row|
      invariant 0 <= i <= |row|
      invariant styles == RowStyles(row[..i], clicked)
    {
      var col := row[i].0;
      LookupDistinct(row, i);
      if col != MerchantId {
        styles := styles + [ColorTopBottom(Lookup(row, col).value.text)];
      } else {
        styles := styles + [HighlightClick(clicked, Lookup(row, MerchantId).value.text)];
      }
      assert row[..i + 1][..i] == row[..i];
      i := i + 1;
    }
    assert row[..|row|] == row;
  }

  /** Clicks only ever change the style of the merchant id cell. */
  lemma ClicksOnlyTouchIdCell(row: Row, before: seq<string>, after: seq<string>, i: nat)
    requires Styleable(row)
    requires i < |row| && row[i].0 != MerchantId
    ensures RowStyles(row, before)[i] == RowStyles(row, after)[i]
  {
  }

  /** End to end, for one merchant: its displayed row gets the highlight
      rule on its id and the sign rule of each of its four metrics. */
  lemma DisplayRowStyles(p: PlotRow, clicked: seq<string>)
    ensures Styleable(DisplayRow(p))
    ensures RowStyles(DisplayRow(p), clicked)
         == [HighlightClick(clicked, p.merchantId),
             SignStyle(p.avgMoM), SignStyle(p.avgQoQ), SignStyle(p.avgYoY), SignStyle(p.cagr)]
  {
    var row := DisplayRow(p);
    var expected := [HighlightClick(clicked, p.merchantId),
                     SignStyle(p.avgMoM), SignStyle(p.avgQoQ), SignStyle(p.avgYoY), SignStyle(p.cagr)];
    assert |row| == 5;
    forall i | 1 <= i < 5
      ensures row[i].0 != MerchantId
      ensures row[i].1 == Text(FormatMetric(MetricOf(p, i - 1)))
      ensures Displayable(row[i].1.text)
      ensures ColorTopBottom(row[i].1.text) == expected[i]
    {
      ColorOfMetric(MetricOf(p, i - 1));
    }
    assert row[0] == (MerchantId, Text(p.merchantId));
    assert Styleable(row);
    var styles := RowStyles(row, clicked);
    forall i | 0 <= i < 5
      ensures styles[i] == expected[i]
    {
    }
  }

  /** Every display row has distinct column names, so style_table can be
      applied to it. */
  lemma DisplayDistinct(p: PlotRow)
    ensures DistinctColumns(DisplayRow(p))
  {
  }

  /** `display_df.style.apply(style_table, axis=1)`: style_table on every
      display row, each row getting its id's highlight and the sign styles
      of its four metrics. */
  method StyleDisplay(results: seq<PlotRow>, clicked: seq<string>) returns (styles: seq<seq<string>>)
    ensures |styles| == |results|
    ensures forall i :: 0 <= i < |results| ==>
              styles[i] == [HighlightClick(clicked, results[i].merchantId),
                            SignStyle(results[i].avgMoM), SignStyle(results[i].avgQoQ),
                            SignStyle(results[i].avgYoY), SignStyle(results[i].cagr)]
  {
    var display := FormatDisplay(results);
    styles := [];
    for i := 0 to |display|
      invariant |styles| == i
      invariant forall k :: 0 <= k < i ==>
                  styles[k] == [HighlightClick(clicked, results[k].merchantId),
                                SignStyle(results[k].avgMoM), SignStyle(results[k].avgQoQ),
                                SignStyle(results[k].avgYoY), SignStyle(results[k].cagr)]
    {
      DisplayRowStyles(results[i], clicked);
      DisplayDistinct(results[i]);
      var rowStyles := StyleTable(display[i], clicked);
      styles := styles + [rowStyles];
    }
  }

  /** Worked examples of the styling rules. */
  lemma PositiveExample()
    ensures ColorTopBottom("5.00%") == Green
  {
  }

  lemma NegativeExample()
    ensures ColorTopBottom("-3.00%") == Red
  {
  }

  lemma NegativeZeroExample()
    ensures ColorTopBottom("-0.00%") == NoStyle
  {
    var d := Decimal(true, 0);
    ParseRender(d);
    assert NatToDigits(0) == "0";
    assert Render(d) == "-0.00%";
  }

  lemma HighlightExample()
    ensures HighlightClick(ClickedMerchants(Some([ClickPoint("M1")])), "M1") == Highlight
    ensures HighlightClick(ClickedMerchants(Some([ClickPoint("M2")])), "M1") == NoStyle
    ensures HighlightClick(ClickedMerchants(Some([])), "M1") == NoStyle
  {
  }
}
