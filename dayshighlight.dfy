/**
 * The highlight of non-working days: a rectangle over every step whose
 * weekday is not a working day, drawn only when working days are given.
 */
module DaysHighlight {
  import opened Base
  import opened Dates
  import opened Times
  import opened Charts

  /** Highlights are drawn only for a defined, non-empty list of working days. */
  predicate ShowWorkingDays(workingDays: Option<seq<int>>)
  {
    workingDays.Some? && |workingDays.value| > 0
  }

  /** A highlight rectangle: at x from the top, as wide as its step; it spans the whole height. */
  datatype Highlight = Highlight(x: real, y: real, width: real)

  /** The rectangles, in step order, one per non-working step, when highlights are shown. */
  function Highlights(c: Clock, steps: seq<Step>, workingDays: seq<int>): (r: seq<Highlight>)
    ensures !ShowWorkingDays(Some(workingDays)) ==> r == []
    ensures ShowWorkingDays(Some(workingDays)) ==> |r| == |WorkingDays(c, steps, workingDays)|
    ensures ShowWorkingDays(Some(workingDays)) ==> forall i :: 0 <= i < |r| ==>
      var s := WorkingDays(c, steps, workingDays)[i];
      r[i] == Highlight(s.offsetPx, 0.0, s.widthPx)
  {
    var workingSteps := WorkingDays(c, steps, workingDays);
    if !ShowWorkingDays(Some(workingDays)) then []
    else
      seq(|workingSteps|, i requires 0 <= i < |workingSteps| =>
            Highlight(workingSteps[i].offsetPx, 0.0, workingSteps[i].widthPx))
  }

  /** With no working days every step would pass the filter, yet nothing is drawn. */
  lemma {:induction false} NoWorkingDaysNothingDrawn(c: Clock, steps: seq<Step>)
    ensures WorkingDays(c, steps, []) == steps
    ensures Highlights(c, steps, []) == []
  {
    if steps != [] {
      NoWorkingDaysNothingDrawn(c, steps[1..]);
    }
  }

  /** Each rectangle covers a non-working step of the grid, and each non-working step has one. */
  lemma HighlightsCover(c: Clock, steps: seq<Step>, workingDays: seq<int>)
    requires |workingDays| > 0
    ensures var r := Highlights(c, steps, workingDays);
      (forall i :: 0 <= i < |r| ==>
         exists s :: s in steps && c.weekday(s.time) !in workingDays && r[i] == Highlight(s.offsetPx, 0.0, s.widthPx)) &&
      (forall s :: s in steps && c.weekday(s.time) !in workingDays ==> Highlight(s.offsetPx, 0.0, s.widthPx) in r)
  {
    var r := Highlights(c, steps, workingDays);
    var ws := WorkingDays(c, steps, workingDays);
    WorkingDaysKeepsAll(c, steps, workingDays);
    forall s | s in steps && c.weekday(s.time) !in workingDays
      ensures Highlight(s.offsetPx, 0.0, s.widthPx) in r
    {
      var i :| 0 <= i < |ws| && ws[i] == s;
      assert r[i] == Highlight(s.offsetPx, 0.0, s.widthPx);
    }
    forall i | 0 <= i < |r|
      ensures exists s :: s in steps && c.weekday(s.time) !in workingDays && r[i] == Highlight(s.offsetPx, 0.0, s.widthPx)
    {
      assert ws[i] in steps;
    }
  }
}
