/** The summary table as displayed: the five columns taken from the
    per-merchant results and the metric columns rewritten as text. */
module Table {
  import opened Wrappers
  import opened Cells

  /** A table cell: text (the merchant id, or a formatted metric) or a raw
      metric that may be missing. */
  datatype Cell = Text(text: string) | Metric(value: Option<Decimal>)

  /** One table row as (column, cell) pairs, in column order. */
  type Row = seq<(string, Cell)>

  const MerchantId: string := "merchant_id"
  const MetricColumns: seq<string> := ["avg_MoM_txn", "avg_QoQ_txn", "avg_YoY_txn", "CAGR_num"]
  const DisplayColumns: seq<string> := [MerchantId] + MetricColumns

  /** The columns of a per-merchant result that the display reads. The
      results themselves are computed elsewhere and are not part of this model. */
  datatype PlotRow = PlotRow(
    merchantId: string,
    avgMoM: Option<Decimal>,
    avgQoQ: Option<Decimal>,
    avgYoY: Option<Decimal>,
    cagr: Option<Decimal>)

  /** The metric shown in column MetricColumns[j]. */
  function MetricOf(p: PlotRow, j: nat): Option<Decimal>
    requires j < 4
  {
    if j == 0 then p.avgMoM else if j == 1 then p.avgQoQ else if j == 2 then p.avgYoY else p.cagr
  }

  function Columns(row: Row): (cols: seq<string>)
    ensures |cols| == |row|
    ensures forall i :: 0 <= i < |row| ==> cols[i] == row[i].0
  {
    if row == [] then [] else [row[0].0] + Columns(row[1..])
  }

  /** The display row of p once the first k metric columns are formatted;
      k = 0 is the selection of the five columns, k = 4 the finished row. */
  function PartlyFormatted(p: PlotRow, k: nat): (row: Row)
    ensures Columns(row) == DisplayColumns
    ensures row[0].1 == Text(p.merchantId)
  {
    [(MerchantId, Text(p.merchantId))]
      + seq(4, j requires 0 <= j < 4 =>
              (MetricColumns[j], if j < k then Text(FormatMetric(MetricOf(p, j))) else Metric(MetricOf(p, j))))
  }

  /** The row as the table displays it. */
  function DisplayRow(p: PlotRow): Row {
    PartlyFormatted(p, 4)
  }

  /** Every cell of column col in row is still a raw metric. */
  predicate RawIn(row: Row, col: string) {
    forall j :: 0 <= j < |row| && row[j].0 == col ==> row[j].1.Metric?
  }

  /** `display_df[col].map(...)` on one row: the cell of column col becomes
      its text, every other cell is kept. */
  function FormatColumnIn(row: Row, col: string): (r: Row)
    requires RawIn(row, col)
    ensures Columns(r) == Columns(row)
    ensures forall j :: 0 <= j < |row| && row[j].0 != col ==> r[j] == row[j]
    ensures forall j :: 0 <= j < |row| && row[j].0 == col ==> r[j].1 == Text(FormatMetric(row[j].1.value))
  {
    seq(|row|, j requires 0 <= j < |row| =>
          if row[j].0 == col then (col, Text(FormatMetric(row[j].1.value))) else row[j])
  }

  /** `display_df[col] = display_df[col].map(...)` on the whole table. */
  function FormatColumn(table: seq<Row>, col: string): (r: seq<Row>)
    requires forall i :: 0 <= i < |table| ==> RawIn(table[i], col)
    ensures |r| == |table|
    ensures forall i :: 0 <= i < |table| ==> |r[i]| == |table[i]| && Columns(r[i]) == Columns(table[i])
    ensures forall i, j :: 0 <= i < |table| && 0 <= j < |table[i]| && table[i][j].0 != col ==> r[i][j] == table[i][j]
    ensures forall i :: 0 <= i < |table| && RawIn(table[i], col) ==> forall j :: 0 <= j < |table[i]| && table[i][j].0 == col ==>
              r[i][j].1 == Text(FormatMetric(table[i][j].1.value))
  {
    seq(|table|, i requires 0 <= i < |table| => FormatColumnIn(table[i], col))
  }

  /** Formatting the next metric column of a partly formatted row formats
      exactly that column. */
  lemma FormatStep(p: PlotRow, k: nat)
    requires k < 4
    ensures RawIn(PartlyFormatted(p, k), MetricColumns[k])
    ensures FormatColumnIn(PartlyFormatted(p, k), MetricColumns[k]) == PartlyFormatted(p, k + 1)
  {
    var row, col := PartlyFormatted(p, k), MetricColumns[k];
    assert forall j :: 0 <= j < 5 && j != k + 1 ==> row[j].0 != col;
    var next, want := FormatColumnIn(row, col), PartlyFormatted(p, k + 1);
    assert |next| == |want| == 5;
    forall j | 0 <= j < 5
      ensures next[j] == want[j]
    {
    }
  }

  /** Lines 12-14: select the five display columns of every result row,
      then format each metric column in turn. Missing metrics become "",
      defined ones their two-decimal percentage; merchant ids are kept. */
  method FormatDisplay(results: seq<PlotRow>) returns (display: seq<Row>)
    ensures |display| == |results|
    ensures forall i :: 0 <= i < |results| ==> display[i] == DisplayRow(results[i])
    ensures forall i :: 0 <= i < |results| ==>
              && Columns(display[i]) == DisplayColumns
              && display[i][0].1 == Text(results[i].merchantId)
              && forall j :: 0 <= j < 4 ==> display[i][j + 1].1 == Text(FormatMetric(MetricOf(results[i], j)))
  {
    display := seq(|results|, i requires 0 <= i < |results| => PartlyFormatted(results[i], 0));
    for k := 0 to |MetricColumns|
      invariant |display| == |results|
      invariant forall i :: 0 <= i < |results| ==> display[i] == PartlyFormatted(results[i], k)
    {
      forall i | 0 <= i < |results|
        ensures RawIn(display[i], MetricColumns[k])
        ensures FormatColumnIn(display[i], MetricColumns[k]) == PartlyFormatted(results[i], k + 1)
      {
        FormatStep(results[i], k);
      }
      display := FormatColumn(display, MetricColumns[k]);
    }
    forall i | 0 <= i < |results|
      ensures Columns(display[i]) == DisplayColumns
    {
      assert Columns(display[i]) == DisplayColumns by {
        assert |Columns(display[i])| == 5;
      }
    }
  }
}
