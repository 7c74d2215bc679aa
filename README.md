# Merchant summary table: click selection and conditional formatting

This project models the part of the merchant growth dashboard (`App2.py`) that
links the growth chart to the summary table:

- the merchant ids selected by the current batch of chart clicks (`clicked_merchants`);
- the display table: five columns taken from the per-merchant results, with
  each metric column rewritten as a two-decimal percentage text, `""` when the
  metric is missing;
- the styling of each table row: green or red by the sign of a metric cell,
  yellow bold highlight on the id of a clicked merchant.

Floating point is avoided. A metric value is a `Cells.Decimal`: the value after the
`.2f` format has rounded it, as a sign flag and a count of hundredths. The sign
flag is the sign character that Python writes, so `-0.00` exists and reads back
as zero. `Cells.Render` writes the text (`[-]digits.dd%`). `Cells.Hundredths` reads it
back the way `float(val.strip('%'))` does. `Cells.ParseRender` proves that the
two agree. Rows are sequences of (column, cell) pairs in column order.

Modules: `Wrappers` (Option), `Numerals` (digit strings), `Cells` (metric text),
`Clicks` (line 6), `Table` (lines 12-14), `Styling` (lines 16-36).

The global `clicked_merchants` that `highlight_click` reads becomes a parameter.
The chart component's output becomes a parameter `Option<seq<ClickPoint>>`.

Points worth knowing about the program:
- `clicked_merchants` is a list in click order, duplicates included. Only
  membership is read from it.
- `float` raises on a malformed cell, so `Styling.ColorTopBottom` requires an
  empty or well-formed cell. `Cells.FormattedIsDisplayable` shows that every
  formatted cell qualifies.
- Styles are the CSS strings the code returns.

## Model

| member | source | states |
|---|---|---|
| `Clicks.XsOf` | App2.py:6 | the list comprehension: one id per point, same length, element i is the `x` of point i |
| `Clicks.ClickedMerchants` | App2.py:6 | no batch gives no ids; otherwise one id per point, same length, in point order |
| `Clicks.SelectedIff` | App2.py:6 | an id is in the selection exactly when some point of the current batch carries it (both directions) |
| `Numerals.NatToDigits` | App2.py:14 | the integer part the format writes is a non-empty digit string with no leading zero |
| `Numerals.DigitsRoundTrip` | App2.py:19 | reading back the written integer part gives the integer |
| `Cells.Render` | App2.py:14 | the text `f"{x:.2f}%"` writes ends in `.dd%` and starts with `-` exactly for a negative sign; `Cells.ParseRender` proves it is well formed and reads back to the value |
| `Cells.FormatMetric` | App2.py:14 | a cell is `""` exactly when the metric is missing |
| `Cells.Hundredths` | App2.py:19 | `float(val.strip('%'))` in hundredths: negative only for a cell that starts with `-`, never positive for one that does; its agreement with the written value is `Cells.ParseRender` |
| `Cells.ParseRender` | App2.py:14-19 | the formatted text is well formed, and parsing it gives the signed rounded value; `-0.00%` parses to zero |
| `Cells.FormattedIsDisplayable` | App2.py:14-19 | every cell the formatter writes is one that `color_top_bottom` accepts |
| `Table.PartlyFormatted` | App2.py:12-14 | at k = 0 the selection of the five display columns, in order, with the merchant id cell; at k the row after k metric columns are mapped (`Table.FormatStep`) |
| `Table.FormatColumnIn` | App2.py:14 | `.map` of one column on one row: same columns, the cell of that column becomes its formatted text, every other cell is kept; `Table.FormatStep` carries it through the loop |
| `Table.FormatColumn` | App2.py:13-14 | `display_df[col] = display_df[col].map(...)` on the whole table: same number of rows and columns, every cell of `col` becomes its formatted text, no other column changed |
| `Table.FormatStep` | App2.py:13-14 | mapping the next metric column formats that column of the row and leaves every other cell unchanged |
| `Table.FormatDisplay` | App2.py:12-14 | each display row has the five columns in order; the merchant id is kept; each metric becomes `""` if missing, else its percentage text |
| `Styling.ColorTopBottom` | App2.py:16-22 | the result is always `''`, `'color: green'` or `'color: red'`; an empty cell gets `''` |
| `Styling.ColorOfMetric` | App2.py:14-22 | the style of a formatted metric is the sign rule on the metric: green if positive, red if negative, none if zero (including `-0.00`) or missing |
| `Styling.HighlightClick` | App2.py:24-27 | the highlight style exactly when the id is among the clicked ids, `''` exactly otherwise |
| `Styling.HighlightFollowsClicks` | App2.py:24-27 | with the ids taken from a click batch (line 6): highlighted exactly when a point of this batch carries the id; an empty or missing batch highlights nobody |
| `Styling.Lookup` | App2.py:33-35 | `row[col]` finds a cell exactly when some column has that name |
| `Styling.LookupDistinct` | App2.py:33-35 | with distinct column names, `row[col]` is the cell at that column's position |
| `Styling.CellStyle` | App2.py:32-35 | the branch on `col != 'merchant_id'`: a metric column only ever gets no style, green or red; the id column gets the highlight exactly when the id is clicked; `Styling.RowStyles` applies it per column |
| `Styling.RowStyles` | App2.py:29-36 | one style per column, in column order: highlight rule at the id column, sign rule elsewhere |
| `Styling.StyleTable` | App2.py:29-36 | the loop that appends styles returns exactly the row's styles |
| `Styling.ClicksOnlyTouchIdCell` | App2.py:31-35 | changing the clicked ids never changes the style of a non-id cell |
| `Styling.DisplayRowStyles` | App2.py:12-36 | for one merchant, the styles of its displayed row are its id's highlight and the sign styles of its four metrics; a missing metric gets no style |
| `Styling.DisplayDistinct` | App2.py:12 | every display row has distinct column names, so `Styling.StyleTable`'s requirement holds for it |
| `Styling.StyleDisplay` | App2.py:38 | `style_table` applied to every formatted row gives, per merchant, its id's highlight and the sign styles of its four metrics |
| `Styling.PositiveExample` | App2.py:19-20 | `"5.00%"` is green |
| `Styling.NegativeExample` | App2.py:19-21 | `"-3.00%"` is red |
| `Styling.NegativeZeroExample` | App2.py:19-22 | `"-0.00%"` gets no style |
| `Styling.HighlightExample` | App2.py:24-27 | a click on M1 highlights M1; a click on M2 or an empty batch does not |

## Left out

- Streamlit rendering (`st.subheader`, `st.dataframe`, lines 4, 11 and 38) is presentation. Only the row-by-row application of `style_table` in line 38 is modelled, by `Styling.StyleDisplay`.
- `plotly_events` (line 5) is a call into a plotting library. Its result is the parameter of `Clicks.ClickedMerchants`. Points without an `x` key (a `KeyError` in Python) and the other fields of a point are not modelled.
- Float rounding by `.2f` is not modelled. A metric is given already rounded, as a `Cells.Decimal`. Infinite metrics (written `inf%`) are not representable.
- Styling.ColorTopBottom: requires an empty or well-formed two-decimal cell. Python's `float` raises on malformed text and also accepts many other spellings (`+`, exponents, spaces, `inf`). Cells produced by the formatter always qualify.
- The per-merchant results (`df_plot`) and the chart (`fig`) are computed in code that is not part of this model. That code does time bucketing, the lagged growth series, CAGR and the ranking. `Table.PlotRow` holds only the five columns the display reads.
- pandas mechanics (`.copy()`, column selection by a name list, `.map`) are modelled on values. The `.copy()` aliasing is not modelled. A table is a sequence of rows, a row a sequence of (column, cell) pairs.
- Styling.StyleTable: requires distinct column names. `Styling.DisplayDistinct` proves every display row has them. With duplicates, `row['merchant_id']` would be a pandas Series rather than one cell.
- `style_table` iterates the global `display_df.columns` (line 31); `Styling.StyleTable` iterates the row's own column names. They agree because `.style.apply(axis=1)` passes each row indexed by `display_df.columns`, and `Styling.StyleDisplay` only passes rows built by `Table.FormatDisplay`.
- The merchant id cell is a string. The model does not follow pandas' other id types.
