/**
 * Time-axis arithmetic of the chart: the scale (milliseconds per pixel), the
 * step grid that tiles the visible window, the month count, the text-width
 * tables of the calendar bands and the "how many labels fit" searches.
 */
module Times {
  import opened Base
  import opened Dates

  // ---------------------------------------------------------------------
  // Scale and extent

  /** 2 to the power z, for any integer z (Math.pow(2, z)). */
  function Pow2(z: int): (r: real)
    ensures r > 0.0
    ensures z >= 0 ==> r >= 1.0
    decreases if z >= 0 then z else -z
  {
    if z == 0 then 1.0
    else if z > 0 then 2.0 * Pow2(z - 1)
    else Pow2(z + 1) / 2.0
  }

  /**
   * Milliseconds represented by one horizontal pixel. The widget divides the
   * scale by itself (steps = 60 once simplified), so a zero scale is outside
   * the model (it would give NaN).
   */
  function TimePerPixel(timeScale: real, timeZoom: int): (r: real)
    requires timeScale != 0.0
    ensures r == 60.0 * timeScale * (timeZoom as real) / 100.0 + Pow2(timeZoom)
    ensures timeScale > 0.0 && timeZoom >= 0 ==> r >= 1.0
  {
    var max := timeScale * 60.0;
    var min := timeScale;
    assert (timeScale * 60.0) / timeScale == 60.0;
    var steps := max / min;
    var percent := (timeZoom as real) / 100.0;
    assert timeScale > 0.0 && timeZoom >= 0 ==> timeScale * steps * percent >= 0.0;
    timeScale * steps * percent + Pow2(timeZoom)
  }

  /** Length of the visible window in milliseconds. */
  function TotalViewDurationMs(firstTime: int, lastTime: int): (r: int)
    ensures firstTime + r == lastTime
  {
    lastTime - firstTime
  }

  /** Length of the visible window in pixels. */
  function TotalViewDurationPx(totalMs: int, tpp: real): (r: real)
    requires tpp != 0.0
    ensures r * tpp == totalMs as real
    ensures tpp > 0.0 && totalMs >= 0 ==> r >= 0.0
  {
    (totalMs as real) / tpp
  }

  /** The chart's width: the window's pixels plus one grid stroke. */
  function ChartWidth(totalPx: real, strokeWidth: real): (r: real)
    ensures r - strokeWidth == totalPx
  {
    totalPx + strokeWidth
  }

  // ---------------------------------------------------------------------
  // Steps

  /** One slot of the step grid: start time, offset and width in ms and px. */
  datatype Step = Step(time: int, offsetMs: int, offsetPx: real, widthMs: int, widthPx: real)

  /**
   * Start times of the steps after `t`: one unit later, truncated to the day
   * start, for as long as that is not past `lastTime`.
   */
  function StepTimesAfter(c: Clock, u: Unit, t: int, lastTime: int): (r: seq<int>)
    requires StepAdvances(c, u)
    decreases lastTime - t
  {
    var n := c.startOfDay(c.add(t, 1, u));
    if n <= lastTime then [n] + StepTimesAfter(c, u, n, lastTime) else []
  }

  lemma {:induction false} StepTimesAscending(c: Clock, u: Unit, t: int, lastTime: int)
    requires StepAdvances(c, u)
    ensures forall i :: 0 <= i < |StepTimesAfter(c, u, t, lastTime)| ==>
      t < StepTimesAfter(c, u, t, lastTime)[i] <= lastTime
    ensures forall i, j :: 0 <= i < j < |StepTimesAfter(c, u, t, lastTime)| ==>
      StepTimesAfter(c, u, t, lastTime)[i] < StepTimesAfter(c, u, t, lastTime)[j]
    decreases lastTime - t
  {
    var n := c.startOfDay(c.add(t, 1, u));
    if n <= lastTime {
      StepTimesAscending(c, u, n, lastTime);
    }
  }

  /** Offsets are measured from the first step; pixel offsets use the scale. */
  ghost predicate StepOffsets(steps: seq<Step>, firstTime: int, tpp: real)
    requires tpp != 0.0
  {
    forall i :: 0 <= i < |steps| ==>
      steps[i].offsetMs == steps[i].time - firstTime &&
      steps[i].offsetPx == (steps[i].offsetMs as real) / tpp
  }

  /** Each step reaches the next one; the last reaches the end of the window. */
  ghost predicate StepWidths(steps: seq<Step>, totalMs: int, totalPx: real)
  {
    |steps| >= 1 &&
    (forall i :: 0 <= i < |steps| - 1 ==>
      steps[i].widthMs == steps[i + 1].offsetMs - steps[i].offsetMs &&
      steps[i].widthPx == steps[i + 1].offsetPx - steps[i].offsetPx) &&
    steps[|steps| - 1].widthMs == totalMs - steps[|steps| - 1].offsetMs &&
    steps[|steps| - 1].widthPx == totalPx - steps[|steps| - 1].offsetPx
  }

  function WidthMsTotal(steps: seq<Step>): int
  {
    if steps == [] then 0 else WidthMsTotal(steps[..|steps| - 1]) + steps[|steps| - 1].widthMs
  }

  function WidthPx(steps: seq<Step>): (r: seq<real>)
    ensures |r| == |steps|
    ensures forall i :: 0 <= i < |steps| ==> r[i] == steps[i].widthPx
  {
    seq(|steps|, i requires 0 <= i < |steps| => steps[i].widthPx)
  }

  /** Widths of a prefix add up to the offset where the next step begins. */
  lemma {:induction false} PrefixWidths(steps: seq<Step>, totalMs: int, totalPx: real, k: nat)
    requires StepWidths(steps, totalMs, totalPx)
    requires steps[0].offsetMs == 0 && steps[0].offsetPx == 0.0
    requires k < |steps|
    ensures WidthMsTotal(steps[..k]) == steps[k].offsetMs
    ensures Sum(WidthPx(steps[..k])) == steps[k].offsetPx
  {
    if k > 0 {
      PrefixWidths(steps, totalMs, totalPx, k - 1);
      assert steps[..k][..k - 1] == steps[..k - 1];
      assert WidthPx(steps[..k])[..k - 1] == WidthPx(steps[..k - 1]);
    }
  }

  /** The step widths tile the whole window, in milliseconds and in pixels. */
  lemma StepsTileWindow(steps: seq<Step>, totalMs: int, totalPx: real)
    requires StepWidths(steps, totalMs, totalPx)
    requires steps[0].offsetMs == 0 && steps[0].offsetPx == 0.0
    ensures WidthMsTotal(steps) == totalMs
    ensures Sum(WidthPx(steps)) == totalPx
  {
    var k := |steps| - 1;
    PrefixWidths(steps, totalMs, totalPx, k);
    assert steps[..k + 1] == steps;
    assert steps[..k + 1][..k] == steps[..k];
    assert WidthPx(steps)[..k] == WidthPx(steps[..k]);
  }

  /** A grid under construction: first step, step times from `all`, offsets, chained widths. */
  ghost predicate StepsSoFar(steps: seq<Step>, firstTime: int, tpp: real, all: seq<int>)
    requires tpp != 0.0
  {
    1 <= |steps| <= |all| + 1 &&
    steps[0].time == firstTime &&
    (forall i :: 1 <= i < |steps| ==> steps[i].time == all[i - 1]) &&
    StepOffsets(steps, firstTime, tpp) &&
    forall i :: 0 <= i < |steps| - 1 ==>
      steps[i].widthMs == steps[i + 1].offsetMs - steps[i].offsetMs &&
      steps[i].widthPx == steps[i + 1].offsetPx - steps[i].offsetPx
  }

  /** Closing the last step's width at the next step and appending that step keeps the grid well formed. */
  lemma PushStep(steps: seq<Step>, firstTime: int, tpp: real, all: seq<int>, step: Step)
    requires tpp != 0.0
    requires StepsSoFar(steps, firstTime, tpp, all) && |steps| <= |all|
    requires step.time == all[|steps| - 1] && step.offsetMs == step.time - firstTime
    requires step.offsetPx == (step.offsetMs as real) / tpp
    ensures var previous := steps[|steps| - 1];
      StepsSoFar(steps[|steps| - 1 := previous.(widthMs := step.offsetMs - previous.offsetMs,
                                                widthPx := step.offsetPx - previous.offsetPx)] + [step],
                 firstTime, tpp, all)
  {
  }

  /**
   * The state of the step loop: the grid so far follows `all`, the step
   * times still to come are the rest of `all`, and `current` is the next
   * candidate time after the last step.
   */
  ghost predicate Building(c: Clock, u: Unit, firstTime: int, lastTime: int, tpp: real,
                           all: seq<int>, steps: seq<Step>, current: int)
    requires tpp != 0.0 && StepAdvances(c, u)
  {
    StepsSoFar(steps, firstTime, tpp, all) &&
    StepTimesAfter(c, u, steps[|steps| - 1].time, lastTime) == all[|steps| - 1..] &&
    current == c.startOfDay(c.add(steps[|steps| - 1].time, 1, u))
  }

  /** One iteration of the step loop keeps its state and advances the last step's time. */
  lemma AdvanceStep(c: Clock, u: Unit, firstTime: int, lastTime: int, tpp: real, all: seq<int>,
                    steps: seq<Step>, current: int, next: seq<Step>)
    requires tpp != 0.0 && StepAdvances(c, u)
    requires Building(c, u, firstTime, lastTime, tpp, all, steps, current) && current <= lastTime
    requires next == steps[|steps| - 1 := steps[|steps| - 1].(widthMs := (current - firstTime) - steps[|steps| - 1].offsetMs,
                                                             widthPx := ((current - firstTime) as real) / tpp - steps[|steps| - 1].offsetPx)]
                     + [Step(current, current - firstTime, ((current - firstTime) as real) / tpp, 0, 0.0)]
    ensures Building(c, u, firstTime, lastTime, tpp, all, next, c.startOfDay(c.add(current, 1, u)))
    ensures next[|next| - 1].time == current > steps[|steps| - 1].time
  {
    assert all[|steps| - 1..] == [current] + all[|steps|..];
    var step := Step(current, current - firstTime, ((current - firstTime) as real) / tpp, 0, 0.0);
    PushStep(steps, firstTime, tpp, all, step);
  }

  /** When the next candidate is past the window, every step time of `all` has been used. */
  lemma StepsExhausted(c: Clock, u: Unit, firstTime: int, lastTime: int, tpp: real, all: seq<int>,
                       steps: seq<Step>, current: int)
    requires tpp != 0.0 && StepAdvances(c, u)
    requires Building(c, u, firstTime, lastTime, tpp, all, steps, current) && current > lastTime
    ensures |steps| == |all| + 1
  {
    assert StepTimesAfter(c, u, steps[|steps| - 1].time, lastTime) == [];
  }

  /** Closing the last step at the end of the window completes the grid. */
  lemma CloseLastStep(steps: seq<Step>, done: seq<Step>, firstTime: int, tpp: real, all: seq<int>,
                      totalMs: int, totalPx: real)
    requires tpp != 0.0
    requires StepsSoFar(steps, firstTime, tpp, all) && |steps| == |all| + 1
    requires done == steps[|steps| - 1 := steps[|steps| - 1].(widthMs := totalMs - steps[|steps| - 1].offsetMs,
                                                             widthPx := totalPx - steps[|steps| - 1].offsetPx)]
    ensures |done| == |all| + 1 && done[0].time == firstTime
    ensures forall i :: 1 <= i < |done| ==> done[i].time == all[i - 1]
    ensures StepOffsets(done, firstTime, tpp) && StepWidths(done, totalMs, totalPx)
    ensures WidthMsTotal(done) == totalMs && Sum(WidthPx(done)) == totalPx
  {
    assert StepWidths(done, totalMs, totalPx);
    StepsTileWindow(done, totalMs, totalPx);
  }

  /**
   * The step grid of the window [firstTime, lastTime]: a first step at
   * firstTime, then one per unit (truncated to the day start) while not past
   * lastTime. Requires the unit to advance ("hour" does not: see
   * Dates.UtcHourStepStalls).
   */
  method CalculateSteps(c: Clock, firstTime: int, lastTime: int, tpp: real,
                        totalMs: int, totalPx: real, u: Unit) returns (steps: seq<Step>)
    requires tpp != 0.0
    requires StepAdvances(c, u)
    ensures |steps| == 1 + |StepTimesAfter(c, u, firstTime, lastTime)|
    ensures steps[0].time == firstTime
    ensures forall i :: 1 <= i < |steps| ==> steps[i].time == StepTimesAfter(c, u, firstTime, lastTime)[i - 1]
    ensures StepOffsets(steps, firstTime, tpp)
    ensures StepWidths(steps, totalMs, totalPx)
    ensures WidthMsTotal(steps) == totalMs && Sum(WidthPx(steps)) == totalPx
  {
    ghost var all := StepTimesAfter(c, u, firstTime, lastTime);
    steps := [Step(firstTime, 0, 0.0, 0, 0.0)];
    var current := c.startOfDay(c.add(firstTime, 1, u));
    while current <= lastTime
      invariant Building(c, u, firstTime, lastTime, tpp, all, steps, current)
      decreases lastTime - steps[|steps| - 1].time
    {
      var offsetMs := current - firstTime;
      var offsetPx := (offsetMs as real) / tpp;
      var previous := steps[|steps| - 1];
      previous := previous.(widthMs := offsetMs - previous.offsetMs, widthPx := offsetPx - previous.offsetPx);
      var next := steps[|steps| - 1 := previous] + [Step(current, offsetMs, offsetPx, 0, 0.0)];
      AdvanceStep(c, u, firstTime, lastTime, tpp, all, steps, current, next);
      steps := next;
      current := c.startOfDay(c.add(current, 1, u));
    }
    StepsExhausted(c, u, firstTime, lastTime, tpp, all, steps, current);
    ghost var unclosed := steps;
    var last := steps[|steps| - 1];
    steps := steps[|steps| - 1 := last.(widthMs := totalMs - last.offsetMs, widthPx := totalPx - last.offsetPx)];
    CloseLastStep(unclosed, steps, firstTime, tpp, all, totalMs, totalPx);
  }

  // ---------------------------------------------------------------------
  // Months

  /**
   * Month changes met while walking day by day from `current` while not past
   * `to`: each day is compared with the one after it.
   */
  function MonthChanges(c: Clock, current: int, to: int): (r: nat)
    requires DayAdvances(c)
    decreases if current <= to then to - current + 1 else 0
  {
    if current > to then 0
    else
      var next := c.add(current, 1, Day);
      (if c.month(current) != c.month(next) then 1 else 0) + MonthChanges(c, next, to)
  }

  /** Number of different months in [fromTime, toTime], as the widget counts them. */
  method GetMonthsCount(c: Clock, fromTime: int, toTime: int) returns (count: nat)
    requires DayAdvances(c)
    ensures fromTime > toTime ==> count == 0
    ensures fromTime <= toTime ==> count == 1 + MonthChanges(c, fromTime, toTime)
  {
    var current := fromTime;
    if current > toTime {
      return 0;
    }
    var previous := current;
    count := 1;
    while current <= toTime
      invariant previous == current
      invariant count + MonthChanges(c, current, toTime) == 1 + MonthChanges(c, fromTime, toTime)
      decreases if current <= toTime then toTime - current + 1 else 0
    {
      current := c.add(current, 1, Day);
      if c.month(previous) != c.month(current) {
        count := count + 1;
      }
      previous := current;
    }
  }

  /**
   * The walk compares the last day with the day after the range, so a range
   * of a single instant on a month's last day counts two months.
   */
  lemma LastDayOfMonthCountsTwo(c: Clock, t: int)
    requires DayAdvances(c)
    requires c.month(t) != c.month(c.add(t, 1, Day))
    ensures 1 + MonthChanges(c, t, t) == 2
  {
    var next := c.add(t, 1, Day);
    assert next > t;
    assert MonthChanges(c, next, t) == 0;
  }

  /** Within one month (including the day after the range) the count is one. */
  lemma {:induction false} SameMonthCountsOne(c: Clock, current: int, to: int)
    requires DayAdvances(c)
    requires forall t :: current <= t <= to ==> c.month(c.add(t, 1, Day)) == c.month(t)
    ensures MonthChanges(c, current, to) == 0
    decreases if current <= to then to - current + 1 else 0
  {
    if current <= to {
      var next := c.add(current, 1, Day);
      assert c.month(next) == c.month(current);
      SameMonthCountsOne(c, next, to);
    }
  }

  // ---------------------------------------------------------------------
  // Text widths of the calendar bands

  /** A running maximum raised to w when w is larger. */
  function Raise(current: real, w: real): real
  {
    if w > current then w else current
  }

  /** The largest measured width of format f over items 0..n-1, starting from 0. */
  function MaxMeasured<K>(render: (nat, K) -> string, measureText: string -> real, f: K, n: nat): real
  {
    if n == 0 then 0.0 else Raise(MaxMeasured(render, measureText, f, n - 1), measureText(render(n - 1, f)))
  }

  lemma {:induction false} MaxMeasuredIsMaximum<K>(render: (nat, K) -> string, measureText: string -> real, f: K, n: nat)
    ensures MaxMeasured(render, measureText, f, n) >= 0.0
    ensures forall i: nat :: i < n ==> measureText(render(i, f)) <= MaxMeasured(render, measureText, f, n)
    ensures MaxMeasured(render, measureText, f, n) == 0.0 ||
      exists i: nat :: i < n && measureText(render(i, f)) == MaxMeasured(render, measureText, f, n)
  {
    if n > 0 {
      MaxMeasuredIsMaximum(render, measureText, f, n - 1);
    }
  }

  /** The running maxima start at 0 for every format. */
  method InitMaxWidths<K(==)>(formats: seq<K>) returns (maxWidths: map<K, real>)
    ensures forall f :: f in maxWidths <==> f in formats
    ensures forall f :: f in maxWidths ==> maxWidths[f] == 0.0
  {
    maxWidths := map[];
    var k := 0;
    while k < |formats|
      invariant 0 <= k <= |formats|
      invariant forall f :: f in maxWidths <==> f in formats[..k]
      invariant forall f :: f in maxWidths ==> maxWidths[f] == 0.0
    {
      maxWidths := maxWidths[formats[k] := 0.0];
      assert formats[..k + 1] == formats[..k] + [formats[k]];
      k := k + 1;
    }
    assert formats[..k] == formats;
  }

  /**
   * One item's row of the width table: each format's label width, and the
   * running maxima raised to it where it is larger.
   */
  method MeasureItem<K(==)>(item: nat, formats: seq<K>, render: (nat, K) -> string,
                     measureText: string -> real, maxWidths: map<K, real>)
    returns (width: map<K, real>, raised: map<K, real>)
    requires forall f :: f in formats ==> f in maxWidths
    ensures forall f :: f in width <==> f in formats
    ensures forall f :: f in width ==> width[f] == measureText(render(item, f))
    ensures forall f :: f in raised <==> f in maxWidths
    ensures forall f :: f in formats ==> raised[f] == Raise(maxWidths[f], measureText(render(item, f)))
    ensures forall f :: f in maxWidths && f !in formats ==> raised[f] == maxWidths[f]
  {
    width := map[];
    raised := maxWidths;
    var j := 0;
    while j < |formats|
      invariant 0 <= j <= |formats|
      invariant forall f :: f in width <==> f in formats[..j]
      invariant forall f :: f in width ==> width[f] == measureText(render(item, f))
      invariant forall f :: f in raised <==> f in maxWidths
      invariant forall f :: f in formats[..j] ==> raised[f] == Raise(maxWidths[f], measureText(render(item, f)))
      invariant forall f :: f in maxWidths && f !in formats[..j] ==> raised[f] == maxWidths[f]
    {
      var name := formats[j];
      width := width[name := measureText(render(item, name))];
      if width[name] > raised[name] {
        raised := raised[name := width[name]];
      }
      assert formats[..j + 1] == formats[..j] + [name];
      j := j + 1;
    }
    assert formats[..j] == formats;
  }

  /** Rows 0..|widths|-1 of a width table: each row measures every format's label. */
  ghost predicate WidthRows<K(!new)>(widths: seq<map<K, real>>, formats: seq<K>,
                               render: (nat, K) -> string, measureText: string -> real)
  {
    (forall i, f :: 0 <= i < |widths| ==> (f in widths[i] <==> f in formats)) &&
    (forall i, f :: 0 <= i < |widths| && f in formats ==> widths[i][f] == measureText(render(i, f)))
  }

  /** The running maxima after n items. */
  ghost predicate MaxSoFar<K(!new)>(maxWidths: map<K, real>, formats: seq<K>,
                              render: (nat, K) -> string, measureText: string -> real, n: nat)
  {
    (forall f :: f in maxWidths <==> f in formats) &&
    (forall f :: f in formats ==> maxWidths[f] == MaxMeasured(render, measureText, f, n))
  }

  /** Appending one measured row, and raising the maxima by it, extends the table by one item. */
  lemma AppendRow<K(!new)>(widths: seq<map<K, real>>, maxWidths: map<K, real>, formats: seq<K>,
                     render: (nat, K) -> string, measureText: string -> real,
                     width: map<K, real>, raised: map<K, real>)
    requires WidthRows(widths, formats, render, measureText)
    requires MaxSoFar(maxWidths, formats, render, measureText, |widths|)
    requires forall f :: f in width <==> f in formats
    requires forall f :: f in width ==> width[f] == measureText(render(|widths|, f))
    requires forall f :: f in raised <==> f in maxWidths
    requires forall f :: f in formats ==> raised[f] == Raise(maxWidths[f], measureText(render(|widths|, f)))
    ensures WidthRows(widths + [width], formats, render, measureText)
    ensures MaxSoFar(raised, formats, render, measureText, |widths| + 1)
  {
    var next := widths + [width];
    assert forall i :: 0 <= i < |widths| ==> next[i] == widths[i];
  }

  /**
   * Width table of a calendar band: for each of `count` items and each
   * format, the measured width of the item's label, plus the per-format
   * maximum. Without a canvas context both are empty. `render(i, f)` is the
   * i-th item's date rendered with format f.
   */
  method ComputeWidths<K(==,!new)>(hasContext: bool, formats: seq<K>, count: int,
                       render: (nat, K) -> string, measureText: string -> real)
    returns (widths: seq<map<K, real>>, maxWidths: map<K, real>)
    ensures !hasContext ==> widths == [] && maxWidths == map[]
    ensures hasContext ==> |widths| == (if count < 0 then 0 else count)
    ensures hasContext ==> forall f :: f in maxWidths <==> f in formats
    ensures forall i, f :: 0 <= i < |widths| ==> (f in widths[i] <==> f in formats)
    ensures forall i, f :: 0 <= i < |widths| && f in formats ==> widths[i][f] == measureText(render(i, f))
    ensures hasContext ==> forall f :: f in formats ==> maxWidths[f] == MaxMeasured(render, measureText, f, |widths|)
  {
    widths := [];
    maxWidths := map[];
    if !hasContext {
      return;
    }
    maxWidths := InitMaxWidths(formats);
    var item := 0;
    while item < count
      invariant 0 <= item && |widths| == item
      invariant count >= 0 ==> item <= count
      invariant count < 0 ==> item == 0
      invariant WidthRows(widths, formats, render, measureText)
      invariant MaxSoFar(maxWidths, formats, render, measureText, item)
    {
      var width, raised := MeasureItem(item, formats, render, measureText, maxWidths);
      AppendRow(widths, maxWidths, formats, render, measureText, width, raised);
      widths := widths + [width];
      maxWidths := raised;
      item := item + 1;
    }
  }

  /**
   * One hour's row of the width table, with each format's label appended to
   * that format's label list.
   */
  method MeasureHour<K(==)>(hour: nat, formats: seq<K>, render: (nat, K) -> string,
                     measureText: string -> real, maxWidths: map<K, real>,
                     formatted: map<K, seq<string>>)
    returns (width: map<K, real>, raised: map<K, real>, appended: map<K, seq<string>>)
    requires forall f :: f in formats ==> f in maxWidths && f in formatted
    requires forall i, j :: 0 <= i < j < |formats| ==> formats[i] != formats[j]
    ensures forall f :: f in width <==> f in formats
    ensures forall f :: f in width ==> width[f] == measureText(render(hour, f))
    ensures forall f :: f in raised <==> f in maxWidths
    ensures forall f :: f in formats ==> raised[f] == Raise(maxWidths[f], measureText(render(hour, f)))
    ensures forall f :: f in maxWidths && f !in formats ==> raised[f] == maxWidths[f]
    ensures appended.Keys == formatted.Keys
    ensures forall f :: f in formats ==> appended[f] == formatted[f] + [render(hour, f)]
    ensures forall f :: f in formatted && f !in formats ==> appended[f] == formatted[f]
  {
    width := map[];
    raised := maxWidths;
    appended := formatted;
    var j := 0;
    while j < |formats|
      invariant 0 <= j <= |formats|
      invariant forall f :: f in width <==> f in formats[..j]
      invariant forall f :: f in width ==> width[f] == measureText(render(hour, f))
      invariant forall f :: f in raised <==> f in maxWidths
      invariant forall f :: f in formats[..j] ==> raised[f] == Raise(maxWidths[f], measureText(render(hour, f)))
      invariant forall f :: f in maxWidths && f !in formats[..j] ==> raised[f] == maxWidths[f]
      invariant appended.Keys == formatted.Keys
      invariant forall f :: f in formats[..j] ==> appended[f] == formatted[f] + [render(hour, f)]
      invariant forall f :: f in formatted && f !in formats[..j] ==> appended[f] == formatted[f]
    {
      var name := formats[j];
      assert name !in formats[..j];
      var text := render(hour, name);
      width := width[name := measureText(text)];
      appended := appended[name := appended[name] + [text]];
      if width[name] > raised[name] {
        raised := raised[name := width[name]];
      }
      assert formats[..j + 1] == formats[..j] + [name];
      j := j + 1;
    }
    assert formats[..j] == formats;
  }

  /** The label lists after n hours: one label per hour for each format, none for other keys. */
  ghost predicate HourLabels<K(!new)>(formatted: map<K, seq<string>>, formats: seq<K>, labelKeys: set<K>,
                                render: (nat, K) -> string, n: nat)
  {
    formatted.Keys == labelKeys &&
    (forall f :: f in formatted && f !in formats ==> formatted[f] == []) &&
    (forall f :: f in formats ==>
       f in formatted && |formatted[f]| == n && forall h :: 0 <= h < n ==> formatted[f][h] == render(h, f))
  }

  /** Appending hour n's label to each format's list extends the lists by one hour. */
  lemma AppendHourLabels<K(!new)>(formatted: map<K, seq<string>>, appended: map<K, seq<string>>, formats: seq<K>,
                            labelKeys: set<K>, render: (nat, K) -> string, n: nat)
    requires HourLabels(formatted, formats, labelKeys, render, n)
    requires appended.Keys == formatted.Keys
    requires forall f :: f in formats ==> appended[f] == formatted[f] + [render(n, f)]
    requires forall f :: f in formatted && f !in formats ==> appended[f] == formatted[f]
    ensures HourLabels(appended, formats, labelKeys, render, n + 1)
  {
    forall f | f in formats
      ensures forall h :: 0 <= h < n + 1 ==> appended[f][h] == render(h, f)
    {
      assert appended[f] == formatted[f] + [render(n, f)];
    }
  }

  /**
   * The hour band's width table over the 24 hours of a day, which also records
   * every hour's rendered label per format. The widget pre-creates label lists
   * only for the keys `labelKeys` (in the widget "long", "medium" and "short")
   * and pushes into them, so other format names are outside its domain; format
   * names are distinct, being object keys.
   */
  method ComputeHourWidths<K(==,!new)>(hasContext: bool, formats: seq<K>,
                           render: (nat, K) -> string, measureText: string -> real, labelKeys: set<K>)
    returns (widths: seq<map<K, real>>, maxWidths: map<K, real>, formatted: map<K, seq<string>>)
    requires forall f :: f in formats ==> f in labelKeys
    requires forall i, j :: 0 <= i < j < |formats| ==> formats[i] != formats[j]
    ensures formatted.Keys == labelKeys
    ensures !hasContext ==> widths == [] && maxWidths == map[] && forall f :: f in formatted ==> formatted[f] == []
    ensures hasContext ==> |widths| == 24 && forall f :: f in maxWidths <==> f in formats
    ensures forall i, f :: 0 <= i < |widths| ==> (f in widths[i] <==> f in formats)
    ensures forall i, f :: 0 <= i < |widths| && f in formats ==> widths[i][f] == measureText(render(i, f))
    ensures hasContext ==> forall f :: f in formats ==> maxWidths[f] == MaxMeasured(render, measureText, f, 24)
    ensures hasContext ==> forall f :: f in formats ==>
      |formatted[f]| == 24 && forall h :: 0 <= h < 24 ==> formatted[f][h] == render(h, f)
    ensures forall f :: f in formatted && f !in formats ==> formatted[f] == []
  {
    widths := [];
    maxWidths := map[];
    formatted := map k | k in labelKeys :: [];
    if !hasContext {
      return;
    }
    maxWidths := InitMaxWidths(formats);
    var hour := 0;
    while hour < 24
      invariant 0 <= hour <= 24 && |widths| == hour
      invariant WidthRows(widths, formats, render, measureText)
      invariant MaxSoFar(maxWidths, formats, render, measureText, hour)
      invariant HourLabels(formatted, formats, labelKeys, render, hour)
    {
      var width, raised, appended := MeasureHour(hour, formats, render, measureText, maxWidths, formatted);
      AppendRow(widths, maxWidths, formats, render, measureText, width, raised);
      AppendHourLabels(formatted, appended, formats, labelKeys, render, hour);
      widths := widths + [width];
      maxWidths := raised;
      formatted := appended;
      hour := hour + 1;
    }
  }

  // ---------------------------------------------------------------------
  // How many labels fit

  /** A label count and the format chosen for it. */
  datatype DateCount = DateCount(count: int, kind: string)

  /** Room a label needs besides its text: one stroke plus two pixels. */
  const AdditionalSpace: real := 3.0

  /** Candidate counts: n, then ceil(n / 2) repeatedly, while greater than 1. */
  function Halvings(n: int): (r: seq<int>)
    ensures forall i :: 0 <= i < |r| ==> 2 <= r[i] <= n
    ensures forall i, j :: 0 <= i < j < |r| ==> r[i] > r[j]
    ensures n > 1 ==> |r| > 0 && r[0] == n
    decreases n
  {
    if n > 1 then [n] + Halvings((n + 1) / 2) else []
  }

  /**
   * n labels in format f fit in `width`. A format without a measured maximum
   * compares as NaN in the widget, which never fits.
   */
  predicate Fits(maxWidths: map<string, real>, f: string, n: int, width: real)
  {
    f in maxWidths && (maxWidths[f] + AdditionalSpace) * (n as real) <= width
  }

  /** The first format (in declaration order) in which n labels fit. */
  function FirstFitting(formats: seq<string>, maxWidths: map<string, real>, n: int, width: real): (r: Option<string>)
    ensures r.Some? ==> r.value in formats && Fits(maxWidths, r.value, n, width)
    ensures r.None? <==> forall f :: f in formats ==> !Fits(maxWidths, f, n, width)
  {
    if formats == [] then None
    else if Fits(maxWidths, formats[0], n, width) then Some(formats[0])
    else FirstFitting(formats[1..], maxWidths, n, width)
  }

  /** The first candidate count for which some format fits, with that format. */
  function FirstFit(formats: seq<string>, maxWidths: map<string, real>, counts: seq<int>, width: real): (r: Option<DateCount>)
  {
    if counts == [] then None
    else match FirstFitting(formats, maxWidths, counts[0], width)
      case Some(f) => Some(DateCount(counts[0], f))
      case None => FirstFit(formats, maxWidths, counts[1..], width)
  }

  /**
   * The chosen count is a candidate, its format fits, and no earlier (larger)
   * candidate fits in any format; no answer means no candidate fits at all.
   */
  lemma {:induction false} FirstFitIsFirst(formats: seq<string>, maxWidths: map<string, real>, counts: seq<int>, width: real)
    ensures FirstFit(formats, maxWidths, counts, width).None? <==>
      forall i, f :: 0 <= i < |counts| && f in formats ==> !Fits(maxWidths, f, counts[i], width)
    ensures FirstFit(formats, maxWidths, counts, width).Some? ==>
      var r := FirstFit(formats, maxWidths, counts, width).value;
      r.kind in formats && Fits(maxWidths, r.kind, r.count, width) &&
      exists k :: 0 <= k < |counts| && counts[k] == r.count &&
        forall i, f :: 0 <= i < k && f in formats ==> !Fits(maxWidths, f, counts[i], width)
  {
    if counts != [] {
      FirstFitIsFirst(formats, maxWidths, counts[1..], width);
      match FirstFitting(formats, maxWidths, counts[0], width) {
      case Some(f) =>
      case None =>
        if FirstFit(formats, maxWidths, counts, width).Some? {
          var r := FirstFit(formats, maxWidths, counts, width).value;
          var k :| 0 <= k < |counts[1..]| && counts[1..][k] == r.count &&
            forall i, f :: 0 <= i < k && f in formats ==> !Fits(maxWidths, f, counts[1..][i], width);
          assert counts[k + 1] == r.count;
          forall i, f | 0 <= i < k + 1 && f in formats
            ensures !Fits(maxWidths, f, counts[i], width)
          {
            if i > 0 { assert counts[i] == counts[1..][i - 1]; }
          }
        }
      }
    }
  }

  /** A wider cell never yields fewer labels (candidates are decreasing). */
  lemma {:induction false} FirstFitMonotone(formats: seq<string>, maxWidths: map<string, real>, counts: seq<int>,
                                            width: real, wider: real)
    requires forall i, j :: 0 <= i < j < |counts| ==> counts[i] > counts[j]
    requires forall i :: 0 <= i < |counts| ==> counts[i] >= 0
    requires width <= wider
    ensures FirstFit(formats, maxWidths, counts, width).Some? ==>
      FirstFit(formats, maxWidths, counts, wider).Some? &&
      FirstFit(formats, maxWidths, counts, wider).value.count >= FirstFit(formats, maxWidths, counts, width).value.count
  {
    if counts != [] {
      var n := counts[0];
      var narrow := FirstFitting(formats, maxWidths, n, width);
      if narrow.Some? {
        assert Fits(maxWidths, narrow.value, n, wider);
        assert FirstFitting(formats, maxWidths, n, wider).Some?;
      } else {
        FirstFitMonotone(formats, maxWidths, counts[1..], width, wider);
        if FirstFit(formats, maxWidths, counts, width).Some? {
          var r := FirstFit(formats, maxWidths, counts[1..], width).value;
          FirstFitIsFirst(formats, maxWidths, counts[1..], width);
          var k :| 0 <= k < |counts[1..]| && counts[1..][k] == r.count;
          assert r.count < n;
        }
      }
    }
  }

  /**
   * The search shared by the hour and day bands: halve the candidate count
   * from `start`, and for each candidate try the formats in order.
   */
  method HalvingSearch(formats: seq<string>, width: real, maxWidths: map<string, real>, start: int)
    returns (r: Option<DateCount>)
    ensures r == FirstFit(formats, maxWidths, Halvings(start), width)
  {
    var n := start;
    while n > 1
      invariant FirstFit(formats, maxWidths, Halvings(start), width) == FirstFit(formats, maxWidths, Halvings(n), width)
      decreases n
    {
      var j := 0;
      while j < |formats|
        invariant 0 <= j <= |formats|
        invariant FirstFitting(formats, maxWidths, n, width) == FirstFitting(formats[j..], maxWidths, n, width)
      {
        if Fits(maxWidths, formats[j], n, width) && n > 1 {
          return Some(DateCount(n, formats[j]));
        }
        assert formats[j..][1..] == formats[j + 1..];
        j := j + 1;
      }
      assert Halvings(n)[1..] == Halvings((n + 1) / 2);
      n := (n + 1) / 2;
    }
    r := None;
  }

  /** How many hour labels fit in one step's width, and in which format. */
  method HowManyHoursFit(formats: seq<string>, cellWidth: real, maxWidths: map<string, real>) returns (r: DateCount)
    ensures r == FirstFit(formats, maxWidths, Halvings(24), cellWidth).GetOr(DateCount(0, ""))
  {
    var found := HalvingSearch(formats, cellWidth, maxWidths, 24);
    r := found.GetOr(DateCount(0, ""));
  }

  /** How many day labels fit in the chart's width, and in which format. */
  method HowManyDaysFit(formats: seq<string>, fullWidth: real, maxWidths: map<string, real>, stepLength: int)
    returns (r: DateCount)
    ensures r == FirstFit(formats, maxWidths, Halvings(stepLength), fullWidth).GetOr(DateCount(0, ""))
  {
    var found := HalvingSearch(formats, fullWidth, maxWidths, stepLength);
    r := found.GetOr(DateCount(0, ""));
  }

  /**
   * The month band's answer: a single month takes the first format whose one
   * label fits; otherwise the halving search. When nothing fits the format is
   * the first declared one ("" when there is none, where the widget yields
   * undefined).
   */
  function MonthsFit(formats: seq<string>, fullWidth: real, maxWidths: map<string, real>, monthsCount: int): (r: DateCount)
  {
    var single := if monthsCount == 1 then FirstFitting(formats, maxWidths, 1, fullWidth) else None;
    if single.Some? then DateCount(1, single.value)
    else
      var none := DateCount(0, if |formats| > 0 then formats[0] else "");
      FirstFit(formats, maxWidths, Halvings(monthsCount), fullWidth).GetOr(none)
  }

  method HowManyMonthsFit(formats: seq<string>, fullWidth: real, maxWidths: map<string, real>, monthsCount: int)
    returns (r: DateCount)
    ensures r == MonthsFit(formats, fullWidth, maxWidths, monthsCount)
  {
    if monthsCount == 1 {
      var j := 0;
      while j < |formats|
        invariant 0 <= j <= |formats|
        invariant FirstFitting(formats, maxWidths, 1, fullWidth) == FirstFitting(formats[j..], maxWidths, 1, fullWidth)
      {
        if Fits(maxWidths, formats[j], 1, fullWidth) {
          return DateCount(1, formats[j]);
        }
        assert formats[j..][1..] == formats[j + 1..];
        j := j + 1;
      }
    }
    var found := HalvingSearch(formats, fullWidth, maxWidths, monthsCount);
    r := found.GetOr(DateCount(0, if |formats| > 0 then formats[0] else ""));
  }

  /** Every answer of a halving search is 0 or a candidate between 2 and the start. */
  lemma HalvingAnswerRange(formats: seq<string>, maxWidths: map<string, real>, start: int, width: real)
    ensures var r := FirstFit(formats, maxWidths, Halvings(start), width).GetOr(DateCount(0, ""));
      r.count == 0 || (2 <= r.count <= start && r.count in Halvings(start) && r.kind in formats &&
        Fits(maxWidths, r.kind, r.count, width))
  {
    FirstFitIsFirst(formats, maxWidths, Halvings(start), width);
  }

  /** The candidate hour counts: 24 halved while more than one label is left. */
  lemma HourHalvings()
    ensures Halvings(24) == [24, 12, 6, 3, 2]
  {
    assert Halvings(1) == [];
    assert Halvings(2) == [2];
    assert Halvings(3) == [3, 2];
    assert Halvings(6) == [6, 3, 2];
    assert Halvings(12) == [12, 6, 3, 2];
  }

  /** The hour band shows 24, 12, 6, 3 or 2 labels per step, or none. */
  lemma HourCounts(formats: seq<string>, maxWidths: map<string, real>, width: real)
    ensures FirstFit(formats, maxWidths, Halvings(24), width).GetOr(DateCount(0, "")).count in {0, 24, 12, 6, 3, 2}
  {
    HourHalvings();
    HalvingAnswerRange(formats, maxWidths, 24, width);
  }

  /**
   * The month band fits 1 label only when there is exactly one month, never
   * more labels than months, and when nothing fits it names the first format.
   */
  lemma MonthsFitRange(formats: seq<string>, fullWidth: real, maxWidths: map<string, real>, monthsCount: int)
    ensures var r := MonthsFit(formats, fullWidth, maxWidths, monthsCount);
      (r.count == 1 <==> monthsCount == 1 && FirstFitting(formats, maxWidths, 1, fullWidth).Some?) &&
      (r.count == 0 || 1 <= r.count <= monthsCount) &&
      (r.count == 0 && |formats| > 0 ==> r.kind == formats[0])
  {
    HalvingAnswerRange(formats, maxWidths, monthsCount, fullWidth);
    FirstFitIsFirst(formats, maxWidths, Halvings(monthsCount), fullWidth);
  }

  // ---------------------------------------------------------------------
  // Calendar height

  /** A calendar band's display switch and height. */
  datatype BandOptions = BandOptions(display: bool, height: real)

  /** A band occupies height when it is displayed and has at least one item. */
  predicate Occupies(band: BandOptions, items: nat)
  {
    band.display && items > 0
  }

  /** The heights of the bands, in order, that are displayed and hold an item. */
  function OccupiedHeights(bands: seq<(BandOptions, nat)>): (r: seq<real>)
    ensures |r| <= |bands|
  {
    if bands == [] then []
    else
      var (band, items) := bands[|bands| - 1];
      OccupiedHeights(bands[..|bands| - 1]) + (if Occupies(band, items) then [band.height] else [])
  }

  /** For three bands, the sum of the occupied heights is each band's height if it occupies, added in order. */
  lemma OccupiedThree(a: (BandOptions, nat), b: (BandOptions, nat), c: (BandOptions, nat))
    ensures Sum(OccupiedHeights([a, b, c])) ==
      (if Occupies(a.0, a.1) then a.0.height else 0.0) + (if Occupies(b.0, b.1) then b.0.height else 0.0) +
      (if Occupies(c.0, c.1) then c.0.height else 0.0)
  {
    var one := if Occupies(a.0, a.1) then [a.0.height] else [];
    var two := if Occupies(b.0, b.1) then [b.0.height] else [];
    var three := if Occupies(c.0, c.1) then [c.0.height] else [];
    assert [a, b, c][..2] == [a, b] && [a, b][..1] == [a] && [a][..0] == [];
    assert OccupiedHeights([a]) == one by { assert OccupiedHeights([]) == []; }
    assert OccupiedHeights([a, b]) == one + two;
    assert OccupiedHeights([a, b, c]) == one + two + three;
    SumAppend(one + two, three);
    SumAppend(one, two);
  }

  /** Sum of the heights of the calendar bands that are displayed and non-empty. */
  function CalculateCalendarDimensions(hours: nat, days: nat, months: nat,
                                       hour: BandOptions, day: BandOptions, month: BandOptions): (r: real)
    ensures r == Sum(OccupiedHeights([(hour, hours), (day, days), (month, months)]))
    ensures !Occupies(hour, hours) && !Occupies(day, days) && !Occupies(month, months) ==> r == 0.0
    ensures hour.height >= 0.0 && day.height >= 0.0 && month.height >= 0.0 ==>
      0.0 <= r <= hour.height + day.height + month.height
    ensures Occupies(hour, hours) && Occupies(day, days) && Occupies(month, months) ==>
      r == hour.height + day.height + month.height
  {
    var height := 0.0;
    var height := if Occupies(hour, hours) then height + hour.height else height;
    var height := if Occupies(day, days) then height + day.height else height;
    var height := if Occupies(month, months) then height + month.height else height;
    OccupiedThree((hour, hours), (day, days), (month, months));
    height
  }

  /**
   * Each band adds exactly its own height when it is displayed and holds an
   * item, and nothing otherwise, whatever the other two bands are.
   */
  lemma CalendarBandAdds(hours: nat, days: nat, months: nat, hour: BandOptions, day: BandOptions, month: BandOptions)
    ensures CalculateCalendarDimensions(hours, days, months, hour, day, month) ==
      CalculateCalendarDimensions(0, days, months, hour, day, month) + (if Occupies(hour, hours) then hour.height else 0.0)
    ensures CalculateCalendarDimensions(hours, days, months, hour, day, month) ==
      CalculateCalendarDimensions(hours, 0, months, hour, day, month) + (if Occupies(day, days) then day.height else 0.0)
    ensures CalculateCalendarDimensions(hours, days, months, hour, day, month) ==
      CalculateCalendarDimensions(hours, days, 0, hour, day, month) + (if Occupies(month, months) then month.height else 0.0)
  {
  }
}
