/**
 * The calendar above the chart: three bands of cells built from the step
 * grid. The hour band splits every step into as many hour cells as fit; the
 * day band groups the steps by a stride; the month band sums the steps that
 * fall in each month. The calendar's height follows from which bands are
 * shown and non-empty and is written to the state when it changes.
 */
module Calendar {
  import opened Base
  import opened Dates
  import opened Times
  import opened Store

  /** One cell of a band; `text` is its label; `chosenFormat` is the month band's `choosenFormatName`, None elsewhere. */
  datatype CalendarItem = CalendarItem(index: int, key: string, x: real, y: real, width: real, textWidth: real,
                                       height: real, text: string, chosenFormat: Option<string>)

  /** A group of cells rendered under one key. */
  datatype CalendarGroup = CalendarGroup(key: string, children: seq<CalendarItem>)

  /**
   * A band's options and measurements: whether it is shown, its row height,
   * its format names in declaration order, the widest label of each format,
   * and the label widths of each item, by format.
   */
  datatype Band = Band(display: bool, height: real, formats: seq<string>, maxWidths: map<string, real>,
                       widths: seq<map<string, real>>)

  /** The measured width of an item's label, 0 when the item was not measured. */
  function TextWidth(widths: seq<map<string, real>>, index: nat, kind: string): real
  {
    if index < |widths| && kind in widths[index] then widths[index][kind] else 0.0
  }

  /** JavaScript's String(n) of an integer millisecond time. */
  function IntToString(n: int): string
  {
    if n < 0 then "-" + NatToString(-n) else NatToString(n)
  }

  /** The sum of the pixel widths of steps[lo..hi]. */
  function SpanWidth(steps: seq<Step>, lo: nat, hi: nat): real
    requires lo <= hi <= |steps|
    decreases hi
  {
    if lo == hi then 0.0 else SpanWidth(steps, lo, hi - 1) + steps[hi - 1].widthPx
  }

  lemma {:induction false} SpanWidthSplit(steps: seq<Step>, a: nat, b: nat, c: nat)
    requires a <= b <= c <= |steps|
    ensures SpanWidth(steps, a, c) == SpanWidth(steps, a, b) + SpanWidth(steps, b, c)
    decreases c
  {
    if b < c {
      SpanWidthSplit(steps, a, b, c - 1);
    }
  }

  /** All the steps together are as wide as the step widths add up to. */
  lemma {:induction false} SpanWidthIsSum(steps: seq<Step>)
    ensures SpanWidth(steps, 0, |steps|) == Sum(WidthPx(steps))
    decreases |steps|
  {
    if steps != [] {
      var init := steps[..|steps| - 1];
      SpanWidthIsSum(init);
      SpanWidthPrefix(steps, |steps| - 1);
      assert WidthPx(steps)[..|steps| - 1] == WidthPx(init);
    }
  }

  lemma {:induction false} SpanWidthPrefix(steps: seq<Step>, n: nat)
    requires n <= |steps|
    ensures SpanWidth(steps, 0, n) == SpanWidth(steps[..n], 0, n)
    decreases n
  {
    if n > 0 {
      SpanWidthPrefix(steps, n - 1);
      SpanWidthPrefix(steps[..n], n - 1);
      assert steps[..n][..n - 1] == steps[..n - 1];
    }
  }

  function ItemWidths(items: seq<CalendarItem>): (r: seq<real>)
    ensures |r| == |items| && forall i :: 0 <= i < |items| ==> r[i] == items[i].width
  {
    seq(|items|, i requires 0 <= i < |items| => items[i].width)
  }

  // ---------------------------------------------------------------------
  // Hours

  /** How many hour labels fit in a step, and in which format. */
  function HoursFit(hour: Band, width: real): DateCount
  {
    FirstFit(hour.formats, hour.maxWidths, Halvings(24), width).GetOr(DateCount(0, ""))
  }

  /** The pre-rendered label of an hour in a format; "" where there is none. */
  function HourLabel(formatted: map<string, seq<string>>, kind: string, hour: int): string
  {
    if kind in formatted && 0 <= hour < |formatted[kind]| then formatted[kind][hour] else ""
  }

  /** The hour band shows 24, 12, 6, 3 or 2 labels per step, or none. */
  lemma HoursFitCount(hour: Band, width: real)
    ensures HoursFit(hour, width).count in {0, 24, 12, 6, 3, 2}
  {
    HourCounts(hour.formats, hour.maxWidths, width);
  }

  /** The hour cells' common vertical placement and labels. */
  datatype HourRow = HourRow(hour: Band, formatted: map<string, seq<string>>, dayHeight: real, monthHeight: real)

  /** Cell i of the hour group of step `hourIndex`, when `hc` labels fit in it. */
  function HourCell(o: HourRow, step: Step, hourIndex: nat, hc: DateCount, i: nat): CalendarItem
    requires hc.count > 0
  {
    var w := step.widthPx / (hc.count as real);
    CalendarItem(hourIndex, "h" + NatToString(i), step.offsetPx + w * (i as real), o.dayHeight + o.monthHeight, w,
                 TextWidth(o.hour.widths, hourIndex % 24, hc.kind), o.hour.height,
                 HourLabel(o.formatted, hc.kind, i * (24 / hc.count)), None)
  }

  /** The first n cells of the hour group of step `hourIndex`. */
  function HourCells(o: HourRow, step: Step, hourIndex: nat, hc: DateCount, n: nat): (r: seq<CalendarItem>)
    requires hc.count > 0
    ensures |r| == n && forall i :: 0 <= i < n ==> r[i] == HourCell(o, step, hourIndex, hc, i)
  {
    seq(n, i requires 0 <= i < n => HourCell(o, step, hourIndex, hc, i))
  }

  lemma HourCellsSnoc(o: HourRow, step: Step, hourIndex: nat, hc: DateCount, n: nat)
    requires hc.count > 0
    ensures HourCells(o, step, hourIndex, hc, n) + [HourCell(o, step, hourIndex, hc, n)] ==
            HourCells(o, step, hourIndex, hc, n + 1)
  {
  }

  /** The hour group of a step: none when no hour label fits in it. */
  function HourGroupAt(o: HourRow, steps: seq<Step>, k: nat): Option<CalendarGroup>
    requires k < |steps|
  {
    var hc := HoursFit(o.hour, steps[k].widthPx);
    if hc.count == 0 then None
    else
      HoursFitCount(o.hour, steps[k].widthPx);
      Some(CalendarGroup(NatToString(k) + "step", HourCells(o, steps[k], k, hc, hc.count)))
  }

  /** The hour groups of the first n steps, in step order. */
  function HourBand(o: HourRow, steps: seq<Step>, n: nat): seq<CalendarGroup>
    requires n <= |steps|
  {
    if n == 0 then []
    else
      var g := HourGroupAt(o, steps, n - 1);
      HourBand(o, steps, n - 1) + (if g.Some? then [g.value] else [])
  }

  /** The hour band: every step in which labels fit gets a group of hour cells. */
  method Hours(o: HourRow, steps: seq<Step>) returns (allHours: seq<CalendarGroup>)
    ensures allHours == if o.hour.display then HourBand(o, steps, |steps|) else []
  {
    allHours := [];
    if o.hour.display {
      for hourIndex := 0 to |steps|
        invariant allHours == HourBand(o, steps, hourIndex)
      {
        var hoursCount := HowManyHoursFit(o.hour.formats, steps[hourIndex].widthPx, o.hour.maxWidths);
        HoursFitCount(o.hour, steps[hourIndex].widthPx);
        if hoursCount.count == 0 {
          continue;
        }
        var children := HourGroupCells(o, steps[hourIndex], hourIndex, hoursCount);
        allHours := allHours + [CalendarGroup(NatToString(hourIndex) + "step", children)];
      }
    }
  }

  /** The inner loop of `Hours`: the cells of one step, one per fitted part. */
  method HourGroupCells(o: HourRow, step: Step, hourIndex: nat, hoursCount: DateCount)
    returns (children: seq<CalendarItem>)
    requires hoursCount.count > 0
    ensures children == HourCells(o, step, hourIndex, hoursCount, hoursCount.count)
  {
    var hourStep := 24 / hoursCount.count;
    var hourWidthPx := step.widthPx / (hoursCount.count as real);
    children := [];
    for i := 0 to hoursCount.count
      invariant children == HourCells(o, step, hourIndex, hoursCount, i)
    {
      var hour := i * hourStep;
      var index := hourIndex;
      if hourIndex > 0 {
        index := hourIndex - (hourIndex / 24) * 24;
      }
      var textWidth := 0.0;
      if index < |o.hour.widths| && hoursCount.kind in o.hour.widths[index] {
        textWidth := o.hour.widths[index][hoursCount.kind];
      }
      var x := step.offsetPx + hourWidthPx * (i as real);
      var cell := CalendarItem(hourIndex, "h" + NatToString(i), x, o.dayHeight + o.monthHeight,
                               hourWidthPx, textWidth, o.hour.height,
                               HourLabel(o.formatted, hoursCount.kind, hour), None);
      HourCellIs(o, step, hourIndex, hoursCount, i, index, textWidth, hourWidthPx, x);
      HourCellsSnoc(o, step, hourIndex, hoursCount, i);
      children := children + [cell];
    }
  }

  /** The loop's wrap-around of the step index and its text-width lookup are the cell's. */
  lemma HourCellIs(o: HourRow, step: Step, hourIndex: nat, hc: DateCount, i: nat, index: nat, textWidth: real,
                   w: real, x: real)
    requires hc.count > 0
    requires index == if hourIndex > 0 then hourIndex - (hourIndex / 24) * 24 else hourIndex
    requires textWidth == if index < |o.hour.widths| && hc.kind in o.hour.widths[index]
                          then o.hour.widths[index][hc.kind] else 0.0
    requires w == step.widthPx / (hc.count as real) && x == step.offsetPx + w * (i as real)
    ensures HourCell(o, step, hourIndex, hc, i) ==
      CalendarItem(hourIndex, "h" + NatToString(i), x, o.dayHeight + o.monthHeight, w, textWidth, o.hour.height,
                   HourLabel(o.formatted, hc.kind, i * (24 / hc.count)), None)
  {
    assert index == hourIndex % 24;
  }

  lemma HourCellPlace(o: HourRow, step: Step, hourIndex: nat, hc: DateCount, i: nat)
    requires hc.count > 0
    ensures var c := HourCell(o, step, hourIndex, hc, i);
      var w := step.widthPx / (hc.count as real);
      c.width == w && c.x == step.offsetPx + w * (i as real) && c.y == o.dayHeight + o.monthHeight && c.index == hourIndex
  {
  }

  lemma CellsAdjoin(offset: real, w: real, i: nat, j: nat)
    requires j == i + 1
    ensures offset + w * (i as real) + w == offset + w * (j as real)
  {
  }

  lemma PartsMakeWhole(offset: real, width: real, n: nat)
    requires n > 0
    ensures offset + (width / (n as real)) * (n as real) == offset + width
  {
  }

  /** The cells of one hour group tile its step. */
  lemma HourCellsTileStep(o: HourRow, step: Step, k: nat, hc: DateCount)
    requires hc.count > 0
    ensures var cs := HourCells(o, step, k, hc, hc.count);
      cs[0].x == step.offsetPx &&
      (forall i, j :: 0 <= i < |cs| && 0 <= j < |cs| && j == i + 1 ==> cs[i].x + cs[i].width == cs[j].x) &&
      cs[|cs| - 1].x + cs[|cs| - 1].width == step.offsetPx + step.widthPx &&
      (forall i :: 0 <= i < |cs| ==> cs[i].y == o.dayHeight + o.monthHeight && cs[i].index == k)
  {
    var cs := HourCells(o, step, k, hc, hc.count);
    forall i, j | 0 <= i < |cs| && 0 <= j < |cs| && j == i + 1
      ensures cs[i].x + cs[i].width == cs[j].x
    {
      HourCellsAdjoin(o, step, k, hc, i, j);
    }
    forall i | 0 <= i < |cs|
      ensures cs[i].y == o.dayHeight + o.monthHeight && cs[i].index == k
    {
      HourCellPlace(o, step, k, hc, i);
    }
    HourCellPlace(o, step, k, hc, 0);
    HourCellEnds(o, step, k, hc);
  }

  lemma HourCellsAdjoin(o: HourRow, step: Step, k: nat, hc: DateCount, i: nat, j: nat)
    requires hc.count > 0 && j == i + 1
    ensures HourCell(o, step, k, hc, i).x + HourCell(o, step, k, hc, i).width == HourCell(o, step, k, hc, j).x
  {
    HourCellPlace(o, step, k, hc, i);
    HourCellPlace(o, step, k, hc, j);
    CellsAdjoin(step.offsetPx, step.widthPx / (hc.count as real), i, j);
  }

  lemma HourCellEnds(o: HourRow, step: Step, k: nat, hc: DateCount)
    requires hc.count > 0
    ensures var c := HourCell(o, step, k, hc, hc.count - 1);
      c.x + c.width == step.offsetPx + step.widthPx
  {
    HourCellPlace(o, step, k, hc, hc.count - 1);
    CellsAdjoin(step.offsetPx, step.widthPx / (hc.count as real), hc.count - 1, hc.count);
    PartsMakeWhole(step.offsetPx, step.widthPx, hc.count);
  }

  /**
   * A step gets an hour group exactly when some count fits it; the group has
   * 24, 12, 6, 3 or 2 cells that tile the step: the first starts at the
   * step's offset, each ends where the next begins, and the last ends where
   * the step does. All sit below the month and day bands.
   */
  lemma HourCellsTile(o: HourRow, steps: seq<Step>, k: nat)
    requires k < |steps|
    ensures var hc := HoursFit(o.hour, steps[k].widthPx);
      var g := HourGroupAt(o, steps, k);
      (g.None? <==> hc.count == 0) &&
      (g.Some? ==>
        var cs := g.value.children;
        |cs| == hc.count && hc.count in {24, 12, 6, 3, 2} &&
        cs[0].x == steps[k].offsetPx &&
        (forall i, j :: 0 <= i < |cs| && 0 <= j < |cs| && j == i + 1 ==> cs[i].x + cs[i].width == cs[j].x) &&
        cs[|cs| - 1].x + cs[|cs| - 1].width == steps[k].offsetPx + steps[k].widthPx &&
        (forall i :: 0 <= i < |cs| ==> cs[i].y == o.dayHeight + o.monthHeight && cs[i].index == k))
  {
    var hc := HoursFit(o.hour, steps[k].widthPx);
    HoursFitCount(o.hour, steps[k].widthPx);
    if hc.count != 0 {
      HourCellsTileStep(o, steps[k], k, hc);
    }
  }

  /**
   * The label of hour cell i is the i-th multiple of 24 / count, which is a
   * whole hour of the day because the count divides 24.
   */
  lemma HourLabelIndex(hour: Band, width: real, i: nat)
    requires HoursFit(hour, width).count > 0 && i < HoursFit(hour, width).count
    ensures var n := HoursFit(hour, width).count;
      0 <= i * (24 / n) < 24 && ((i * (24 / n)) as real) == (i as real) * (24.0 / (n as real))
  {
    var n := HoursFit(hour, width).count;
    HoursFitCount(hour, width);
    if n == 24 {
    } else if n == 12 {
    } else if n == 6 {
    } else if n == 3 {
    } else {
      assert n == 2;
    }
  }

  /** The band holds one group per step that fits some hours, in step order, and nothing else. */
  lemma {:induction false} HourBandGroups(o: HourRow, steps: seq<Step>, n: nat)
    requires n <= |steps|
    ensures forall k :: 0 <= k < n && HourGroupAt(o, steps, k).Some? ==>
      HourGroupAt(o, steps, k).value in HourBand(o, steps, n)
    ensures forall g :: g in HourBand(o, steps, n) ==> exists k :: 0 <= k < n && HourGroupAt(o, steps, k) == Some(g)
    ensures |HourBand(o, steps, n)| <= n
  {
    if n > 0 {
      HourBandGroups(o, steps, n - 1);
    }
  }

  // ---------------------------------------------------------------------
  // Days

  /** How many day labels fit in the chart, and in which format. */
  function DaysFit(day: Band, chartWidth: real, stepCount: nat): DateCount
  {
    FirstFit(day.formats, day.maxWidths, Halvings(stepCount), chartWidth).GetOr(DateCount(0, ""))
  }

  /** A fitting count of day labels is at least 2 and at most one per step. */
  lemma DaysFitCount(day: Band, chartWidth: real, stepCount: nat)
    ensures var n := DaysFit(day, chartWidth, stepCount).count;
      n == 0 || 2 <= n <= stepCount
  {
    HalvingAnswerRange(day.formats, day.maxWidths, stepCount, chartWidth);
  }

  /** Math.ceil(a / b) for whole a and positive b. */
  function CeilDiv(a: nat, b: nat): (r: nat)
    requires b > 0
    ensures r * b >= a && (r == 0 || (r - 1) * b < a)
    ensures a > 0 ==> r > 0
  {
    (a + b - 1) / b
  }

  /** The options the day cells take besides their band's. */
  datatype DayRow = DayRow(day: Band, render: (string, int) -> string, monthHeight: real)

  /** The day cell that starts at step s: as wide as the steps of its stride that exist. */
  function DayCell(o: DayRow, steps: seq<Step>, dc: DateCount, stride: nat, s: nat): CalendarItem
    requires s < |steps|
  {
    var end := if s + stride <= |steps| then s + stride else |steps|;
    CalendarItem(s, IntToString(steps[s].time) + "d", steps[s].offsetPx, o.monthHeight, SpanWidth(steps, s, end),
                 TextWidth(o.day.widths, s, dc.kind), o.day.height, o.render(dc.kind, steps[s].time), None)
  }

  /** The steps the day cells start at: s, s + stride, s + 2·stride, … while a step is there. */
  function DayStarts(n: nat, stride: nat, s: nat): seq<nat>
    requires stride > 0
    decreases n - s
  {
    if s >= n then [] else [s] + DayStarts(n, stride, s + stride)
  }

  /**
   * The starts begin at s (when a step is there), lie before the end, lie a
   * stride apart, and one more stride after the last would pass the end.
   */
  lemma {:induction false} DayStartsShape(n: nat, stride: nat, s: nat)
    requires stride > 0
    ensures var ds := DayStarts(n, stride, s);
      (s < n <==> |ds| > 0) && (|ds| > 0 ==> ds[0] == s && ds[|ds| - 1] + stride >= n) &&
      (forall k :: 0 <= k < |ds| ==> s <= ds[k] < n) &&
      (forall i, j :: 0 <= i < |ds| && 0 <= j < |ds| && j == i + 1 ==> ds[j] == ds[i] + stride)
    decreases n - s
  {
    if s < n {
      DayStartsShape(n, stride, s + stride);
      var ds := DayStarts(n, stride, s);
      var rest := DayStarts(n, stride, s + stride);
      assert ds == [s] + rest;
      forall i, j | 0 <= i < |ds| && 0 <= j < |ds| && j == i + 1
        ensures ds[j] == ds[i] + stride
      {
        assert ds[j] == rest[i];
        if i > 0 {
          assert ds[i] == rest[i - 1];
        }
      }
    }
  }

  /** The widths of the strides that start at the given steps, each cut at the last step. */
  function StrideWidths(steps: seq<Step>, stride: nat, starts: seq<nat>): (r: seq<real>)
    requires forall k :: 0 <= k < |starts| ==> starts[k] < |steps|
    ensures |r| == |starts|
  {
    if starts == [] then []
    else
      var s := starts[0];
      [SpanWidth(steps, s, if s + stride <= |steps| then s + stride else |steps|)] + StrideWidths(steps, stride, starts[1..])
  }

  /** The strides from step s on are together as wide as the steps from s on. */
  lemma {:induction false} StrideWidthsCover(steps: seq<Step>, stride: nat, s: nat)
    requires stride > 0 && s <= |steps|
    ensures var ds := DayStarts(|steps|, stride, s);
      (forall k :: 0 <= k < |ds| ==> ds[k] < |steps|) &&
      Sum(StrideWidths(steps, stride, ds)) == SpanWidth(steps, s, |steps|)
    decreases |steps| - s
  {
    DayStartsShape(|steps|, stride, s);
    var ds := DayStarts(|steps|, stride, s);
    if s < |steps| {
      var next := if s + stride <= |steps| then s + stride else |steps|;
      assert ds[1..] == DayStarts(|steps|, stride, s + stride);
      StrideWidthsCover(steps, stride, next);
      if s + stride > |steps| {
        assert DayStarts(|steps|, stride, s + stride) == [];
      }
      SumCons(SpanWidth(steps, s, next), StrideWidths(steps, stride, ds[1..]));
      SpanWidthSplit(steps, s, next, |steps|);
    }
  }

  /** The stride of the day band: the steps divided by the labels that fit, rounded up. */
  function DayStride(o: DayRow, steps: seq<Step>, chartWidth: real): (r: nat)
    requires DaysFit(o.day, chartWidth, |steps|).count != 0
    ensures r >= 1
  {
    var dc := DaysFit(o.day, chartWidth, |steps|);
    DaysFitCount(o.day, chartWidth, |steps|);
    CeilDiv(|steps|, dc.count)
  }

  /** Each cell becomes a group of its own, under the cell's key. */
  function Singletons(cells: seq<CalendarItem>): (r: seq<CalendarGroup>)
    ensures |r| == |cells| && forall j :: 0 <= j < |cells| ==> r[j] == CalendarGroup(cells[j].key, [cells[j]])
  {
    seq(|cells|, j requires 0 <= j < |cells| => CalendarGroup(cells[j].key, [cells[j]]))
  }

  /** The day cells: none when the band is hidden or no count fits, else one per stride. */
  function DayCells(o: DayRow, steps: seq<Step>, chartWidth: real): (r: seq<CalendarItem>)
  {
    var dc := DaysFit(o.day, chartWidth, |steps|);
    if !o.day.display || dc.count == 0 then []
    else
      var stride := DayStride(o, steps, chartWidth);
      var ds := DayStarts(|steps|, stride, 0);
      DayStartsShape(|steps|, stride, 0);
      seq(|ds|, j requires 0 <= j < |ds| => DayCell(o, steps, dc, stride, ds[j]))
  }

  /** The day cells built so far: one per start taken. */
  ghost predicate DaysSoFar(o: DayRow, steps: seq<Step>, dc: DateCount, stride: nat, days: seq<CalendarItem>,
                            taken: seq<nat>, dayIndex: nat)
  {
    stride > 0 && taken + DayStarts(|steps|, stride, dayIndex) == DayStarts(|steps|, stride, 0) &&
    |days| == |taken| && forall j :: 0 <= j < |taken| ==> taken[j] < |steps| && days[j] == DayCell(o, steps, dc, stride, taken[j])
  }

  lemma DaysStep(o: DayRow, steps: seq<Step>, dc: DateCount, stride: nat, days: seq<CalendarItem>,
                 taken: seq<nat>, dayIndex: nat)
    requires DaysSoFar(o, steps, dc, stride, days, taken, dayIndex) && dayIndex < |steps|
    ensures DaysSoFar(o, steps, dc, stride, days + [DayCell(o, steps, dc, stride, dayIndex)], taken + [dayIndex],
                      dayIndex + stride)
  {
    var rest := DayStarts(|steps|, stride, dayIndex + stride);
    assert DayStarts(|steps|, stride, dayIndex) == [dayIndex] + rest;
    assert taken + ([dayIndex] + rest) == (taken + [dayIndex]) + rest;
  }

  /** The day band: the steps are grouped by a stride and each group becomes one cell. */
  method Days(o: DayRow, steps: seq<Step>, chartWidth: real) returns (allDays: seq<CalendarGroup>)
    ensures allDays == Singletons(DayCells(o, steps, chartWidth))
  {
    allDays := [];
    if o.day.display {
      var days: seq<CalendarItem> := [];
      var daysCount := HowManyDaysFit(o.day.formats, chartWidth, o.day.maxWidths, |steps|);
      if daysCount.count == 0 {
        return allDays;
      }
      DaysFitCount(o.day, chartWidth, |steps|);
      var dayStep := CeilDiv(|steps|, daysCount.count);
      var dayIndex := 0;
      ghost var taken: seq<nat> := [];
      while dayIndex < |steps|
        invariant DaysSoFar(o, steps, daysCount, dayStep, days, taken, dayIndex)
        decreases |steps| - dayIndex
      {
        var dayWidthPx := 0.0;
        for currentStep := 0 to dayStep
          invariant dayWidthPx == SpanWidth(steps, dayIndex, if dayIndex + currentStep <= |steps| then dayIndex + currentStep else |steps|)
        {
          if dayIndex + currentStep < |steps| {
            dayWidthPx := dayWidthPx + steps[dayIndex + currentStep].widthPx;
          }
        }
        var textWidth := 0.0;
        if dayIndex < |o.day.widths| && daysCount.kind in o.day.widths[dayIndex] {
          textWidth := o.day.widths[dayIndex][daysCount.kind];
        }
        var cell := CalendarItem(dayIndex, IntToString(steps[dayIndex].time) + "d", steps[dayIndex].offsetPx,
                                 o.monthHeight, dayWidthPx, textWidth, o.day.height,
                                 o.render(daysCount.kind, steps[dayIndex].time), None);
        assert cell == DayCell(o, steps, daysCount, dayStep, dayIndex);
        DaysStep(o, steps, daysCount, dayStep, days, taken, dayIndex);
        days := days + [cell];
        taken := taken + [dayIndex];
        dayIndex := dayIndex + dayStep;
      }
      assert DayStarts(|steps|, dayStep, dayIndex) == [];
      assert taken == DayStarts(|steps|, dayStep, 0);
      allDays := Singletons(days);
    }
  }

  lemma {:induction false} SumCons(x: real, xs: seq<real>)
    ensures Sum([x] + xs) == x + Sum(xs)
  {
    SumAppend([x], xs);
    assert [x][..0] == [];
  }

  /**
   * The day band has one cell per stride, the stride being at least 1: the
   * cells start at step 0 and then a stride apart, each at its step's offset,
   * and one more stride after the last would pass the end.
   */
  lemma DayCellsPlaced(o: DayRow, steps: seq<Step>, chartWidth: real)
    requires o.day.display && DaysFit(o.day, chartWidth, |steps|).count != 0
    ensures var cs := DayCells(o, steps, chartWidth);
      var stride := DayStride(o, steps, chartWidth);
      stride >= 1 && |cs| > 0 && cs[0].index == 0 &&
      (forall k :: 0 <= k < |cs| ==> 0 <= cs[k].index < |steps| && cs[k].x == steps[cs[k].index].offsetPx) &&
      (forall i, j :: 0 <= i < |cs| && 0 <= j < |cs| && j == i + 1 ==> cs[j].index == cs[i].index + stride) &&
      cs[|cs| - 1].index + stride >= |steps|
  {
    DaysFitCount(o.day, chartWidth, |steps|);
    DayStartsShape(|steps|, DayStride(o, steps, chartWidth), 0);
  }

  /** The day cells' widths add up to the width of all the steps. */
  lemma DayCellsCoverSteps(o: DayRow, steps: seq<Step>, chartWidth: real)
    requires o.day.display && DaysFit(o.day, chartWidth, |steps|).count != 0
    ensures Sum(ItemWidths(DayCells(o, steps, chartWidth))) == Sum(WidthPx(steps))
  {
    DaysFitCount(o.day, chartWidth, |steps|);
    var stride := DayStride(o, steps, chartWidth);
    var ds := DayStarts(|steps|, stride, 0);
    DayStartsShape(|steps|, stride, 0);
    StrideWidthsCover(steps, stride, 0);
    var cs := DayCells(o, steps, chartWidth);
    var dc := DaysFit(o.day, chartWidth, |steps|);
    var ws := StrideWidths(steps, stride, ds);
    StrideWidthsAt(steps, stride, ds);
    forall k | 0 <= k < |cs|
      ensures ItemWidths(cs)[k] == ws[k]
    {
      DayCellWidth(o, steps, dc, stride, ds[k]);
    }
    assert ItemWidths(cs) == ws;
    SpanWidthIsSum(steps);
  }

  lemma DayCellWidth(o: DayRow, steps: seq<Step>, dc: DateCount, stride: nat, s: nat)
    requires s < |steps|
    ensures DayCell(o, steps, dc, stride, s).width == SpanWidth(steps, s, if s + stride <= |steps| then s + stride else |steps|)
  {
  }

  lemma {:induction false} StrideWidthsAt(steps: seq<Step>, stride: nat, starts: seq<nat>)
    requires forall k :: 0 <= k < |starts| ==> starts[k] < |steps|
    ensures forall k :: 0 <= k < |starts| ==>
      StrideWidths(steps, stride, starts)[k] ==
        SpanWidth(steps, starts[k], if starts[k] + stride <= |steps| then starts[k] + stride else |steps|)
  {
    if starts != [] {
      StrideWidthsAt(steps, stride, starts[1..]);
      forall k | 1 <= k < |starts|
        ensures StrideWidths(steps, stride, starts)[k] == StrideWidths(steps, stride, starts[1..])[k - 1]
      {
      }
    }
  }

  /** Nothing is shown in the day band when no count of day labels fits. */
  lemma DayBandEmpty(o: DayRow, steps: seq<Step>, chartWidth: real)
    ensures DaysFit(o.day, chartWidth, |steps|).count == 0 || !o.day.display <==> DayCells(o, steps, chartWidth) == []
  {
    if o.day.display && DaysFit(o.day, chartWidth, |steps|).count != 0 {
      DaysFitCount(o.day, chartWidth, |steps|);
    }
  }

  // ---------------------------------------------------------------------
  // Months

  /** The options the month cells take besides their band's: the label of a format at an instant. */
  datatype MonthRow = MonthRow(month: Band, render: (string, int) -> string)

  /** Where the month that holds `current` ends: the start of the next month, but not past `last`. */
  function MonthEnd(c: Clock, current: int, last: int): (r: int)
    ensures r <= last
  {
    var next := c.startOfMonth(c.add(current, 1, Month));
    if next > last then last else next
  }

  /** The instant month k starts at: the first time, then each month's end. */
  function MonthStart(c: Clock, first: int, last: int, k: nat): int
  {
    if k == 0 then first else MonthEnd(c, MonthStart(c, first, last, k - 1), last)
  }

  /** A step lies in the window [lo, hi) by its time. */
  predicate InWindow(s: Step, lo: int, hi: int)
  {
    lo <= s.time < hi
  }

  /** The width of the steps that lie in the window. */
  function MonthWidth(steps: seq<Step>, lo: int, hi: int): real
  {
    if steps == [] then 0.0
    else
      var s := steps[|steps| - 1];
      MonthWidth(steps[..|steps| - 1], lo, hi) + (if InWindow(s, lo, hi) then s.widthPx else 0.0)
  }

  /**
   * The leftmost offset of the steps that lie in the window, starting from
   * the largest safe integer: it is that number when no step lies there, and
   * otherwise the offset of one of them and no more than any of theirs.
   */
  function MonthOffset(steps: seq<Step>, lo: int, hi: int): (r: real)
    ensures forall k :: 0 <= k < |steps| && InWindow(steps[k], lo, hi) ==> r <= steps[k].offsetPx
    ensures (forall k :: 0 <= k < |steps| ==> !InWindow(steps[k], lo, hi)) ==> r == MaxSafeInteger as real
    ensures r == MaxSafeInteger as real ||
      exists k :: 0 <= k < |steps| && InWindow(steps[k], lo, hi) && r == steps[k].offsetPx
  {
    if steps == [] then MaxSafeInteger as real
    else
      var s := steps[|steps| - 1];
      var m := MonthOffset(steps[..|steps| - 1], lo, hi);
      if InWindow(s, lo, hi) && s.offsetPx < m then s.offsetPx else m
  }

  /** A format whose widest label, with two pixels to spare, fits in the width. */
  predicate LabelFits(maxWidths: map<string, real>, f: string, width: real)
  {
    f in maxWidths && maxWidths[f] + 2.0 <= width
  }

  /** The index of the last format, in declaration order, that fits; -1 when none does. */
  function LastFitting(formats: seq<string>, maxWidths: map<string, real>, width: real): (r: int)
    ensures -1 <= r < |formats|
    ensures r >= 0 ==> LabelFits(maxWidths, formats[r], width)
    ensures forall j :: r < j < |formats| ==> !LabelFits(maxWidths, formats[j], width)
  {
    if formats == [] then -1
    else if LabelFits(maxWidths, formats[|formats| - 1], width) then |formats| - 1
    else LastFitting(formats[..|formats| - 1], maxWidths, width)
  }

  /** The format a month is labelled in: the last one that fits, if any. */
  function ChosenFormat(formats: seq<string>, maxWidths: map<string, real>, width: real): Option<string>
  {
    var i := LastFitting(formats, maxWidths, width);
    if i < 0 then None else Some(formats[i])
  }

  /** The measured width of a month label: only for a chosen format with a non-empty name. */
  function MonthTextWidth(widths: seq<map<string, real>>, k: nat, chosen: Option<string>): real
  {
    if k < |widths| && chosen.Some? && chosen.value != "" then TextWidth(widths, k, chosen.value) else 0.0
  }

  /** The cell of month k: the steps of its window, labelled in the chosen format. */
  function MonthCell(o: MonthRow, c: Clock, steps: seq<Step>, first: int, last: int, k: nat): CalendarItem
  {
    var current := MonthStart(c, first, last, k);
    var final := MonthEnd(c, current, last);
    var width := MonthWidth(steps, current, final);
    var chosen := ChosenFormat(o.month.formats, o.month.maxWidths, width);
    CalendarItem(k, NatToString(k) + "m", MonthOffset(steps, current, final), 0.0, width,
                 MonthTextWidth(o.month.widths, k, chosen), o.month.height,
                 if chosen.Some? then o.render(chosen.value, current) else "", chosen)
  }

  /** The months the widget counts between the first and the last time. */
  function MonthsInRange(c: Clock, first: int, last: int): nat
    requires DayAdvances(c)
  {
    if first > last then 0 else 1 + MonthChanges(c, first, last)
  }

  /** The number of month cells: how many month labels fit across the chart. */
  function MonthCount(o: MonthRow, c: Clock, first: int, last: int, chartWidth: real): (r: nat)
    requires DayAdvances(c)
    ensures r <= MonthsInRange(c, first, last)
  {
    var mc := MonthsFit(o.month.formats, chartWidth, o.month.maxWidths, MonthsInRange(c, first, last));
    MonthsFitRange(o.month.formats, chartWidth, o.month.maxWidths, MonthsInRange(c, first, last));
    if mc.count <= 0 then 0 else mc.count
  }

  /** The month cells: none when the band is hidden, else one per fitted month. */
  function MonthCells(o: MonthRow, c: Clock, steps: seq<Step>, first: int, last: int, chartWidth: real)
    : (r: seq<CalendarItem>)
    requires DayAdvances(c)
    ensures |r| == if o.month.display then MonthCount(o, c, first, last, chartWidth) else 0
    ensures forall k :: 0 <= k < |r| ==> r[k] == MonthCell(o, c, steps, first, last, k)
  {
    if !o.month.display then []
    else
      MonthCellsUpTo(o, c, steps, first, last, MonthCount(o, c, first, last, chartWidth))
  }

  /** The cells of the first n months. */
  function MonthCellsUpTo(o: MonthRow, c: Clock, steps: seq<Step>, first: int, last: int, n: nat): (r: seq<CalendarItem>)
    ensures |r| == n && forall k :: 0 <= k < n ==> r[k] == MonthCell(o, c, steps, first, last, k)
  {
    seq(n, k requires 0 <= k < n => MonthCell(o, c, steps, first, last, k))
  }

  lemma MonthCellsSnoc(o: MonthRow, c: Clock, steps: seq<Step>, first: int, last: int, n: nat)
    ensures MonthCellsUpTo(o, c, steps, first, last, n) + [MonthCell(o, c, steps, first, last, n)] ==
            MonthCellsUpTo(o, c, steps, first, last, n + 1)
  {
    assert MonthCellsUpTo(o, c, steps, first, last, n) + [MonthCell(o, c, steps, first, last, n)] ==
           MonthCellsUpTo(o, c, steps, first, last, n + 1);
  }

  /** The inner loop over the steps: the width and leftmost offset of those in the window. */
  method MonthExtent(steps: seq<Step>, lo: int, hi: int) returns (monthWidth: real, monthOffset: real)
    ensures monthWidth == MonthWidth(steps, lo, hi) && monthOffset == MonthOffset(steps, lo, hi)
  {
    monthWidth := 0.0;
    monthOffset := MaxSafeInteger as real;
    for step := 0 to |steps|
      invariant monthWidth == MonthWidth(steps[..step], lo, hi)
      invariant monthOffset == MonthOffset(steps[..step], lo, hi)
    {
      assert steps[..step + 1][..step] == steps[..step];
      var currentStep := steps[step];
      if currentStep.time >= lo && currentStep.time < hi {
        monthWidth := monthWidth + currentStep.widthPx;
        if currentStep.offsetPx < monthOffset {
          monthOffset := currentStep.offsetPx;
        }
      }
    }
    assert steps[..|steps|] == steps;
  }

  /** The loop over the formats: the last one that fits, and the label it gives. */
  method ChooseFormat(o: MonthRow, width: real, current: int) returns (text: string, chosen: Option<string>)
    ensures chosen == ChosenFormat(o.month.formats, o.month.maxWidths, width)
    ensures text == if chosen.Some? then o.render(chosen.value, current) else ""
  {
    var formats := o.month.formats;
    text := "";
    chosen := None;
    for j := 0 to |formats|
      invariant chosen == ChosenFormat(formats[..j], o.month.maxWidths, width)
      invariant text == if chosen.Some? then o.render(chosen.value, current) else ""
    {
      assert formats[..j + 1][..j] == formats[..j];
      var formatName := formats[j];
      if formatName in o.month.maxWidths && o.month.maxWidths[formatName] + 2.0 <= width {
        text := o.render(formatName, current);
        chosen := Some(formatName);
      }
    }
    assert formats[..|formats|] == formats;
  }

  /** What the loop computes for month k is that month's cell. */
  lemma MonthCellIs(o: MonthRow, c: Clock, steps: seq<Step>, first: int, last: int, k: nat, current: int, final: int,
                    width: real, offset: real, text: string, chosen: Option<string>, textWidth: real)
    requires current == MonthStart(c, first, last, k)
    requires final == MonthEnd(c, current, last)
    requires width == MonthWidth(steps, current, final) && offset == MonthOffset(steps, current, final)
    requires chosen == ChosenFormat(o.month.formats, o.month.maxWidths, width)
    requires text == if chosen.Some? then o.render(chosen.value, current) else ""
    requires textWidth == MonthTextWidth(o.month.widths, k, chosen)
    ensures MonthCell(o, c, steps, first, last, k) ==
      CalendarItem(k, NatToString(k) + "m", offset, 0.0, width, textWidth, o.month.height, text, chosen)
  {
  }

  /** The body of the month loop: the cell of month k, and the instant month k + 1 starts at. */
  method MonthItem(o: MonthRow, c: Clock, steps: seq<Step>, first: int, last: int, monthIndex: nat, currentDate: int)
    returns (cell: CalendarItem, nextDate: int)
    requires currentDate == MonthStart(c, first, last, monthIndex)
    ensures cell == MonthCell(o, c, steps, first, last, monthIndex)
    ensures nextDate == MonthStart(c, first, last, monthIndex + 1)
  {
    var finalDate := c.startOfMonth(c.add(currentDate, 1, Month));
    if finalDate > last {
      finalDate := last;
    }
    var monthWidth, monthOffset := MonthExtent(steps, currentDate, finalDate);
    var text, chosen := ChooseFormat(o, monthWidth, currentDate);
    var textWidth := 0.0;
    if monthIndex < |o.month.widths| && chosen.Some? && chosen.value != "" {
      textWidth := TextWidth(o.month.widths, monthIndex, chosen.value);
    }
    cell := CalendarItem(monthIndex, NatToString(monthIndex) + "m", monthOffset, 0.0, monthWidth, textWidth,
                         o.month.height, text, chosen);
    MonthCellIs(o, c, steps, first, last, monthIndex, currentDate, finalDate, monthWidth, monthOffset, text, chosen,
                textWidth);
    nextDate := c.startOfMonth(c.add(currentDate, 1, Month));
    if nextDate > last {
      nextDate := last;
    }
  }

  /** The month band: one group per fitted month, each holding that month's cell. */
  method Months(o: MonthRow, c: Clock, steps: seq<Step>, first: int, last: int, chartWidth: real)
    returns (allMonths: seq<CalendarGroup>)
    requires DayAdvances(c)
    ensures allMonths == Singletons(MonthCells(o, c, steps, first, last, chartWidth))
  {
    allMonths := [];
    if o.month.display {
      var count := GetMonthsCount(c, first, last);
      var monthsCount := HowManyMonthsFit(o.month.formats, chartWidth, o.month.maxWidths, count);
      MonthsFitRange(o.month.formats, chartWidth, o.month.maxWidths, count);
      if monthsCount.count == 0 {
        assert MonthCells(o, c, steps, first, last, chartWidth) == [];
        return allMonths;
      }
      var months: seq<CalendarItem> := [];
      var currentDate := first;
      for monthIndex := 0 to monthsCount.count
        invariant currentDate == MonthStart(c, first, last, monthIndex)
        invariant months == MonthCellsUpTo(o, c, steps, first, last, monthIndex)
      {
        var cell;
        cell, currentDate := MonthItem(o, c, steps, first, last, monthIndex, currentDate);
        MonthCellsSnoc(o, c, steps, first, last, monthIndex);
        months := months + [cell];
      }
      assert months == MonthCells(o, c, steps, first, last, chartWidth);
      allMonths := Singletons(months);
    }
  }

  /** A window that ends where it starts, or before, holds no width. */
  lemma {:induction false} MonthWidthEmpty(steps: seq<Step>, lo: int, hi: int)
    requires hi <= lo
    ensures MonthWidth(steps, lo, hi) == 0.0
  {
    if steps != [] {
      MonthWidthEmpty(steps[..|steps| - 1], lo, hi);
    }
  }

  /** Two adjacent windows together hold the width of the window they make up. */
  lemma {:induction false} MonthWidthSplit(steps: seq<Step>, a: int, b: int, c: int)
    requires a <= b <= c
    ensures MonthWidth(steps, a, b) + MonthWidth(steps, b, c) == MonthWidth(steps, a, c)
  {
    if steps != [] {
      MonthWidthSplit(steps[..|steps| - 1], a, b, c);
    }
  }

  /** A window that holds every step holds the width of them all. */
  lemma {:induction false} MonthWidthAll(steps: seq<Step>, lo: int, hi: int)
    requires forall k :: 0 <= k < |steps| ==> InWindow(steps[k], lo, hi)
    ensures MonthWidth(steps, lo, hi) == Sum(WidthPx(steps))
  {
    if steps != [] {
      var init := steps[..|steps| - 1];
      assert forall k :: 0 <= k < |init| ==> init[k] == steps[k];
      MonthWidthAll(init, lo, hi);
      assert WidthPx(steps)[..|steps| - 1] == WidthPx(init);
    }
  }

  /**
   * From a first time not after the last, the month starts never go back and
   * never pass the last time: once they reach it they stay there.
   */
  lemma {:induction false} MonthStartsOrdered(c: Clock, first: int, last: int, k: nat)
    requires MonthAdvances(c) && first <= last
    ensures first <= MonthStart(c, first, last, k) <= MonthStart(c, first, last, k + 1) <= last
  {
    if k > 0 {
      MonthStartsOrdered(c, first, last, k - 1);
    }
    var current := MonthStart(c, first, last, k);
    assert c.startOfMonth(c.add(current, 1, Month)) > current;
  }

  /** The first n month cells are together as wide as the steps from the first time to month n's start. */
  lemma {:induction false} MonthCellsCover(o: MonthRow, c: Clock, steps: seq<Step>, first: int, last: int, n: nat)
    requires MonthAdvances(c) && first <= last
    ensures Sum(ItemWidths(MonthCellsUpTo(o, c, steps, first, last, n))) ==
            MonthWidth(steps, first, MonthStart(c, first, last, n))
  {
    if n == 0 {
      MonthWidthEmpty(steps, first, first);
    } else {
      MonthCellsCover(o, c, steps, first, last, n - 1);
      var before := MonthCellsUpTo(o, c, steps, first, last, n - 1);
      var cell := MonthCell(o, c, steps, first, last, n - 1);
      MonthCellsSnoc(o, c, steps, first, last, n - 1);
      assert ItemWidths(before + [cell]) == ItemWidths(before) + [cell.width];
      SumAppend(ItemWidths(before), [cell.width]);
      assert Sum([cell.width]) == cell.width by {
        assert [cell.width][..0] == [];
      }
      MonthStartsOrdered(c, first, last, n - 1);
      MonthWidthSplit(steps, first, MonthStart(c, first, last, n - 1), MonthStart(c, first, last, n));
    }
  }

  /**
   * A month that starts at the last time is empty: it has no width and, as
   * no step lies in it, its cell sits at the largest safe integer.
   */
  lemma MonthPastLastEmpty(o: MonthRow, c: Clock, steps: seq<Step>, first: int, last: int, k: nat)
    requires MonthStart(c, first, last, k) == last
    ensures MonthCell(o, c, steps, first, last, k).width == 0.0
    ensures MonthCell(o, c, steps, first, last, k).x == MaxSafeInteger as real
  {
    var final := MonthEnd(c, last, last);
    MonthWidthEmpty(steps, last, final);
  }

  // ---------------------------------------------------------------------
  // Calendar height

  /** The calendar's height: the heights of the bands that are shown and hold a group. */
  function CalendarHeight(hours: seq<CalendarGroup>, days: seq<CalendarGroup>, months: seq<CalendarGroup>,
                          hour: Band, day: Band, month: Band): (r: real)
    ensures r == Sum(OccupiedHeights([(BandOptions(hour.display, hour.height), |hours|),
                                      (BandOptions(day.display, day.height), |days|),
                                      (BandOptions(month.display, month.height), |months|)]))
    ensures hour.display && day.display && month.display && |hours| > 0 && |days| > 0 && |months| > 0 ==>
      r == hour.height + day.height + month.height
    ensures (!hour.display || hours == []) && (!day.display || days == []) && (!month.display || months == []) ==>
      r == 0.0
  {
    CalculateCalendarDimensions(|hours|, |days|, |months|, BandOptions(hour.display, hour.height),
                                BandOptions(day.display, day.height), BandOptions(month.display, month.height))
  }

  /**
   * The layout effect: when the stored calendar height differs from the
   * computed one, "update-calendar-height" is dispatched with it.
   */
  function UpdateCalendarHeight(state: Json, height: real): (r: Json)
    ensures GetIn(r, ["calendar", "height"]) == Some(JNumber(height))
    ensures GetIn(state, ["calendar", "height"]) == Some(JNumber(height)) ==> r == state
    ensures forall q :: Diverge(["calendar", "height"], q) ==> GetIn(r, q) == GetIn(state, q)
  {
    if GetIn(state, ["calendar", "height"]) == Some(JNumber(height)) then state
    else
      var r := Reduce(state, Action("update-calendar-height", JNumber(height)));
      CalendarHeightReads(state, height);
      r
  }

  lemma CalendarHeightReads(state: Json, height: real)
    ensures var r := Reduce(state, Action("update-calendar-height", JNumber(height)));
      GetIn(r, ["calendar", "height"]) == Some(JNumber(height)) &&
      forall q :: Diverge(["calendar", "height"], q) ==> GetIn(r, q) == GetIn(state, q)
  {
    forall q | Diverge(["calendar", "height"], q)
      ensures GetIn(Reduce(state, Action("update-calendar-height", JNumber(height))), q) == GetIn(state, q)
    {
      CalendarHeightSetsHeight(state, JNumber(height), q);
    }
    CalendarHeightSetsHeight(state, JNumber(height), []);
  }

  /** After one update the effect has nothing left to do: a second run changes nothing. */
  lemma CalendarHeightSettles(state: Json, height: real)
    ensures UpdateCalendarHeight(UpdateCalendarHeight(state, height), height) == UpdateCalendarHeight(state, height)
  {
  }
}
