/** The chart's click events and the merchant ids they select. */
module Clicks {
  import opened Wrappers

  /** One clicked point as the chart component reports it; only its x
      coordinate, the merchant id of the bar or marker, is read. */
  datatype ClickPoint = ClickPoint(x: string)

  /** The x of every point, in the order the points were reported. */
  function XsOf(points: seq<ClickPoint>): (ids: seq<string>)
    ensures |ids| == |points|
    ensures forall i :: 0 <= i < |points| ==> ids[i] == points[i].x
  {
    if points == [] then [] else [points[0].x] + XsOf(points[1..])
  }

  /** `clicked_merchants`: the ids of the current batch of clicks. A batch
      that is missing or empty selects nothing; nothing carries over from
      an earlier batch, since only the current one is an argument. */
  function ClickedMerchants(selected: Option<seq<ClickPoint>>): (ids: seq<string>)
    ensures selected.None? ==> ids == []
    ensures selected.Some? ==> |ids| == |selected.value|
    ensures selected.Some? ==> forall i :: 0 <= i < |ids| ==> ids[i] == selected.value[i].x
  {
    match selected
    case None => []
    case Some(points) => if points == [] then [] else XsOf(points)
  }

  /** An id is selected exactly when some point of the batch carries it. */
  lemma SelectedIff(selected: Option<seq<ClickPoint>>, m: string)
    ensures m in ClickedMerchants(selected)
        <==> selected.Some? && exists i :: 0 <= i < |selected.value| && selected.value[i].x == m
  {
  }
}
