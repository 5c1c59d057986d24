/**
 * The text of a calendar cell. Month labels are kept in view: a month cell
 * inside the visible part of the chart centres its label on that part, but
 * never lets it leave the cell; any other month label is centred on its
 * cell. Labels of the other bands are not moved.
 */
module RowText {
  import opened Base
  import opened Charts
  import opened Calendar

  /** The gap kept between a pinned month label and its cell's edges. */
  const Gap: real := 2.0

  /**
   * The label's x while the cell is in view: centred on the visible part
   * (shifted by the gap), then pinned to the right edge when it would cross
   * it, or else to the left edge when it would cross that one.
   */
  function PinnedX(item: CalendarItem, left: real, right: real): (x: real)
    ensures x == item.x + item.width - item.textWidth - Gap ||
            x == item.x + Gap ||
            (x == left + (right - left) / 2.0 - item.textWidth / 2.0 + Gap &&
             item.x <= x && x + item.textWidth + Gap <= item.x + item.width)
  {
    var x := left + (right - left) / 2.0 - item.textWidth / 2.0 + Gap;
    if x + item.textWidth + Gap > item.x + item.width then item.x + item.width - item.textWidth - Gap
    else if x < item.x then item.x + Gap
    else x
  }

  /**
   * The `left` of a label's style, relative to its cell: only month labels
   * get one; a month cell outside the visible part [left, right] (with no
   * margin) has its label centred on the cell.
   */
  function TextLeft(which: string, item: CalendarItem, left: real, right: real): (r: Option<real>)
    ensures r.Some? <==> which == "month"
    ensures which == "month" && !IsInsideViewPort(left, right, item.x, item.width, 0.0) ==>
      r == Some(item.width / 2.0 - item.textWidth / 2.0)
    ensures which == "month" && IsInsideViewPort(left, right, item.x, item.width, 0.0) ==>
      r == Some(PinnedX(item, left, right) - item.x)
  {
    if which != "month" then None
    else
      var x := if IsInsideViewPort(left, right, item.x, item.width, 0.0) then PinnedX(item, left, right)
               else item.x + item.width / 2.0 - item.textWidth / 2.0;
      Some(x - item.x)
  }

  /**
   * A month label that fits in its cell with the gap on both sides stays
   * inside the cell while the cell is in view, never closer to the right
   * edge than the gap.
   */
  lemma PinnedLabelInsideCell(item: CalendarItem, left: real, right: real)
    requires IsInsideViewPort(left, right, item.x, item.width, 0.0)
    requires item.textWidth + 2.0 * Gap <= item.width
    ensures var l := TextLeft("month", item, left, right).value;
      0.0 <= l && l + item.textWidth + Gap <= item.width
  {
  }

  /** A label wider than the visible part's centre allows is pinned to the cell's right edge. */
  lemma PinnedToRightEdge(item: CalendarItem, left: real, right: real)
    requires IsInsideViewPort(left, right, item.x, item.width, 0.0)
    requires left + (right - left) / 2.0 + item.textWidth / 2.0 + 2.0 * Gap > item.x + item.width
    ensures TextLeft("month", item, left, right) == Some(item.width - item.textWidth - Gap)
  {
  }

  /** A month cell out of view keeps its label centred: the same space on both sides. */
  lemma OutOfViewCentred(item: CalendarItem, left: real, right: real)
    requires !IsInsideViewPort(left, right, item.x, item.width, 0.0)
    ensures var l := TextLeft("month", item, left, right).value;
      l == item.width - (l + item.textWidth)
  {
  }
}
