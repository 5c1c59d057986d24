/**
 * The chart's grid: a vertical line at every step near the visible part of
 * the chart, a horizontal line under every visible row, and the line that
 * marks the current time.
 */
module Grid {
  import opened Base
  import opened Times
  import opened Charts

  /** A vertical grid line at x from y1 to y2. */
  datatype VerticalLine = VerticalLine(x: real, y1: real, y2: real)

  /** The height of a vertical line: every task's row, hidden ones included, plus one stroke. */
  function GridHeight(allTaskCount: nat, rowHeight: real, gap: real, strokeWidth: int): real
  {
    (allTaskCount as real) * (rowHeight + gap * 2.0) + (strokeWidth as real)
  }

  /** A step gets a line when its offset, one pixel wide, is within the default margin of the visible part. */
  predicate LineShown(s: Step, left: real, right: real)
  {
    IsInsideViewPort(left, right, s.offsetPx, 1.0, DefaultBuffer)
  }

  /** The vertical lines, in step order, one per step near the visible part. */
  function VerticalLines(steps: seq<Step>, left: real, right: real, height: real): (r: seq<VerticalLine>)
    ensures |r| <= |steps|
  {
    if steps == [] then []
    else
      var rest := VerticalLines(steps[..|steps| - 1], left, right, height);
      var s := steps[|steps| - 1];
      if LineShown(s, left, right) then rest + [VerticalLine(s.offsetPx, 0.0, height)] else rest
  }

  /** The widget's loop: a line pushed for each step that passes the viewport test. */
  method RenderVerticalLines(steps: seq<Step>, left: real, right: real, allTaskCount: nat, rowHeight: real,
                             gap: real, strokeWidth: int) returns (lines: seq<VerticalLine>)
    ensures lines == VerticalLines(steps, left, right, GridHeight(allTaskCount, rowHeight, gap, strokeWidth))
  {
    var height := GridHeight(allTaskCount, rowHeight, gap, strokeWidth);
    lines := [];
    for i := 0 to |steps|
      invariant lines == VerticalLines(steps[..i], left, right, height)
    {
      assert steps[..i + 1][..i] == steps[..i];
      var step := steps[i];
      if IsInsideViewPort(left, right, step.offsetPx, 1.0, DefaultBuffer) {
        lines := lines + [VerticalLine(step.offsetPx, 0.0, height)];
      }
    }
    assert steps[..|steps|] == steps;
  }

  /**
   * Every vertical line stands at the offset of a step near the visible
   * part, from the top to the given height; and every such step has one.
   */
  lemma {:induction false} VerticalLinesAtSteps(steps: seq<Step>, left: real, right: real, height: real)
    ensures var r := VerticalLines(steps, left, right, height);
      (forall i :: 0 <= i < |r| ==> r[i].y1 == 0.0 && r[i].y2 == height) &&
      (forall i :: 0 <= i < |r| ==>
         exists j :: 0 <= j < |steps| && LineShown(steps[j], left, right) && r[i].x == steps[j].offsetPx) &&
      (forall j :: 0 <= j < |steps| && LineShown(steps[j], left, right) ==>
         VerticalLine(steps[j].offsetPx, 0.0, height) in r)
  {
    if steps != [] {
      var init := steps[..|steps| - 1];
      VerticalLinesAtSteps(init, left, right, height);
      var rest := VerticalLines(init, left, right, height);
      var r := VerticalLines(steps, left, right, height);
      assert forall j :: 0 <= j < |init| ==> init[j] == steps[j];
      forall i | 0 <= i < |r|
        ensures exists j :: 0 <= j < |steps| && LineShown(steps[j], left, right) && r[i].x == steps[j].offsetPx
      {
        if i < |rest| {
          assert r[i] == rest[i];
          var j :| 0 <= j < |init| && LineShown(init[j], left, right) && rest[i].x == init[j].offsetPx;
          assert steps[j] == init[j];
        } else {
          assert r[i].x == steps[|steps| - 1].offsetPx;
        }
      }
    }
  }

  /** The heights of the horizontal lines: one per visible task, a row plus two gaps apart. */
  function HorizontalLines(visibleCount: nat, rowHeight: real, gap: real, strokeWidth: int): (r: seq<real>)
    ensures |r| == visibleCount
    ensures visibleCount > 0 ==> r[0] == (strokeWidth as real) / 2.0
  {
    seq(visibleCount, i requires 0 <= i < visibleCount =>
      (i as real) * (rowHeight + gap * 2.0) + (strokeWidth as real) / 2.0)
  }

  /** Neighbouring horizontal lines lie a row and two gaps apart. */
  lemma HorizontalLinesSpaced(visibleCount: nat, rowHeight: real, gap: real, strokeWidth: int)
    ensures var r := HorizontalLines(visibleCount, rowHeight, gap, strokeWidth);
      forall i, j :: 0 <= i < |r| && 0 <= j < |r| && j == i + 1 ==> r[j] - r[i] == rowHeight + gap * 2.0
  {
    var r := HorizontalLines(visibleCount, rowHeight, gap, strokeWidth);
    forall i, j | 0 <= i < |r| && 0 <= j < |r| && j == i + 1
      ensures r[j] - r[i] == rowHeight + gap * 2.0
    {
      RowsApart(i, j, rowHeight + gap * 2.0);
    }
  }

  lemma RowsApart(i: nat, j: nat, pitch: real)
    requires j == i + 1
    ensures (j as real) * pitch - (i as real) * pitch == pitch
  {
  }

  /** The current-time line: at the pixel offset of the current instant, which is a parameter here. */
  function TimeLineX(now: int, firstTime: int, tpp: real): (x: real)
    requires tpp != 0.0
    ensures now == firstTime ==> x == 0.0
    ensures tpp > 0.0 && now >= firstTime ==> x >= 0.0
  {
    TimeLineAfterStart(now, firstTime, tpp);
    TimeToPixelOffsetX(now as real, firstTime, tpp)
  }

  lemma TimeLineAfterStart(now: int, firstTime: int, tpp: real)
    requires tpp != 0.0
    ensures tpp > 0.0 && now >= firstTime ==> TimeToPixelOffsetX(now as real, firstTime, tpp) >= 0.0
  {
    if tpp > 0.0 && now >= firstTime {
      TimeToPixelMonotone(firstTime as real, now as real, firstTime, tpp);
    }
  }
}
