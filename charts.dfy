/**
 * Chart helpers: the viewport test used to skip off-screen items, the
 * weekday filter of the step grid, and the time-to-pixel conversion.
 */
module Charts {
  import opened Dates
  import opened Times

  /** The default margin, in pixels, around the viewport. */
  const DefaultBuffer: real := 5000.0

  /**
   * An item [x, x + width] is inside the viewport [left, right] widened by
   * `buffer`: it overlaps the viewport, or it contains it.
   */
  function IsInsideViewPort(left: real, right: real, x: real, width: real, buffer: real): (r: bool)
    ensures r && left <= right ==> x - buffer <= right && x + width + buffer >= left
    ensures width >= 0.0 && buffer >= 0.0 && left <= x <= right ==> r
  {
    (x + width + buffer >= left && x - buffer <= right) ||
    (x - buffer <= left && x + width + buffer >= right)
  }

  /** For a proper viewport the "contains" case is an instance of the "overlaps" case. */
  lemma ContainingOverlaps(left: real, right: real, x: real, width: real, buffer: real)
    requires left <= right
    ensures IsInsideViewPort(left, right, x, width, buffer) <==>
      (x + width + buffer >= left && x - buffer <= right)
  {
  }

  /** A wider buffer never hides an item that a narrower one shows. */
  lemma BufferMonotone(left: real, right: real, x: real, width: real, buffer: real, wider: real)
    requires buffer <= wider
    ensures IsInsideViewPort(left, right, x, width, buffer) ==> IsInsideViewPort(left, right, x, width, wider)
  {
  }

  /**
   * The steps whose weekday is not one of `workingDays`, in step order (the
   * name is the widget's: it yields the days to highlight).
   */
  function WorkingDays(c: Clock, steps: seq<Step>, workingDays: seq<int>): (r: seq<Step>)
    ensures |r| <= |steps|
    ensures forall i :: 0 <= i < |r| ==> r[i] in steps && c.weekday(r[i].time) !in workingDays
  {
    if steps == [] then []
    else
      var rest := WorkingDays(c, steps[1..], workingDays);
      if c.weekday(steps[0].time) !in workingDays then [steps[0]] + rest else rest
  }

  /** Every non-working step is kept. */
  lemma {:induction false} WorkingDaysKeepsAll(c: Clock, steps: seq<Step>, workingDays: seq<int>)
    ensures forall s :: s in steps && c.weekday(s.time) !in workingDays ==> s in WorkingDays(c, steps, workingDays)
  {
    if steps != [] {
      WorkingDaysKeepsAll(c, steps[1..], workingDays);
      forall s | s in steps && c.weekday(s.time) !in workingDays
        ensures s in WorkingDays(c, steps, workingDays)
      {
        if s != steps[0] {
          assert s in steps[1..];
        }
      }
    }
  }

  /** The filter distributes over concatenation, so it keeps the steps' order. */
  lemma {:induction false} WorkingDaysAppend(c: Clock, a: seq<Step>, b: seq<Step>, workingDays: seq<int>)
    ensures WorkingDays(c, a + b, workingDays) == WorkingDays(c, a, workingDays) + WorkingDays(c, b, workingDays)
  {
    if a == [] {
      assert a + b == b;
    } else {
      assert (a + b)[1..] == a[1..] + b;
      WorkingDaysAppend(c, a[1..], b, workingDays);
    }
  }

  /**
   * Pixel offset of instant `ms` from the window start. A zero difference is
   * returned as is, without dividing.
   */
  function TimeToPixelOffsetX(ms: real, firstTime: int, tpp: real): (r: real)
    requires tpp != 0.0
    ensures ms == firstTime as real ==> r == 0.0
    ensures r * tpp == ms - firstTime as real
  {
    var x := ms - firstTime as real;
    if x != 0.0 then x / tpp else 0.0
  }

  /** With a positive scale, later instants lie further right. */
  lemma TimeToPixelMonotone(a: real, b: real, firstTime: int, tpp: real)
    requires tpp > 0.0 && a <= b
    ensures TimeToPixelOffsetX(a, firstTime, tpp) <= TimeToPixelOffsetX(b, firstTime, tpp)
  {
    var ra := TimeToPixelOffsetX(a, firstTime, tpp);
    var rb := TimeToPixelOffsetX(b, firstTime, tpp);
    assert (rb - ra) * tpp == b - a;
    if rb < ra {
      assert (ra - rb) * tpp > 0.0;
    }
  }
}
