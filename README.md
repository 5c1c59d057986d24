# Layout and geometry of react-gantt-elastic

This project models the layout engine of the react-gantt-elastic Gantt chart
widget. It turns a flat list of user tasks and a time scale into the data
that is drawn. It covers:

- **Time grid** (`Times`): milliseconds per pixel, the window's length in
  milliseconds and pixels, and the chart width. The day steps tile the window.
- **Date labels** (`Times`): the tables of label widths. The halving search
  decides how many hour, day and month labels fit.
- **Calendar bands** (`Calendar`) built from the grid:
  - hour cells that subdivide a step;
  - day cells that group steps by a stride;
  - month cells that add up the steps of each month.

  Also the calendar height and its store update.
- **Task record** (`Tasks`): normalisation of a user task and the row
  geometry of the displayed tasks, with the height formulas.
- **Task tree** (`TaskTree`): the recursive builder that gives every task its
  ancestors, its children and the pre-order list of its descendants.
- **Widget state** (`Gantt`, `Store`):
  - the extent of the tasks;
  - the lookup and visibility of tasks;
  - the visible rows and their heights;
  - the reducer over the JSON-like state;
  - the scroll, scroll-to-time and wheel handlers.
- **Task-list columns** (`Columns`), **connector routing between dependent
  tasks** (`Dependencies`), and the **expander** (`Expander`).
- **Month-label pinning** (`RowText`), the **milestone polygon**
  (`Milestone`), the **grid lines** (`Grid`) and the **weekend highlight**
  (`DaysHighlight`).

## Modelling conventions

- **Units:** pixels are `real` and exact; instants are `int` epoch
  milliseconds.
- **The `Clock` datatype** (`Dates`) stands in for dayjs, as its add and
  truncation functions. Facts the layout relies on are separate ghost
  predicates, required only where used:
  - a day step advances;
  - a day encloses its instant;
  - the next month starts after an instant.

  `Dates.Utc` is one concrete clock that meets all three
  (`Dates.UtcMeetsDayFacts`, `Dates.UtcMonthAdvances`).
- **Code form:**
  - Loops in the source are methods with loop invariants, proved equal to a
    specification function.
  - The in-place column update works on an `array`.
  - The in-place recursive tree builder works on an `array` of tasks.
- **Objects and keys:** JavaScript objects keyed by format name are
  `map<string, real>`. A format list is a `seq` in declaration order.
- **Missing values:** `undefined` is `Option`. lodash's `isEmpty` is modelled
  with its documented semantics: every number is empty.

### Where the code behaves as written, not as one might expect

These quirks are modelled faithfully and stated as lemmas.

- **The step grid does not advance with `"hour"`.**
  - `calculateSteps` truncates every candidate step to the start of its day.
  - With `"hour"` the grid therefore never advances.
  - `Dates.UtcHourStepStalls` shows it, and `Times.CalculateSteps` requires
    a unit that advances.
- **`getMonthsCount` can count two months for a single instant.** It compares
  the last day with the day after the range, so a single instant on a
  month's last day counts two months (`Times.LastDayOfMonthCountsTwo`).
- **`howManyMonthsFit` reports a format even when nothing fits.** Its
  nothing-fits answer names the first format, not `""`.
- **No task carrying a dependency list is ever selected for connectors.**
  - The connector selection keeps the tasks whose `dependentOn` is falsy.
  - Normalisation always sets `dependentOn` to a list, so no normalised task
    is selected (`Dependencies.FilledTasksSelectNothing`).
- **`scrollToTime` has only an upper clamp.**
  - The source replaces the centred position only when it is larger than
    the chart width.
  - It then uses the chart width less the container width.
  - There is no lower clamp, and a position up to the chart width is kept
    unchanged.
  - The result can be negative, or can show space past the chart's right
    edge (`Gantt.ScrollToTimeUnclamped`).
- **The wheel handler's vertical limit parses as `?? (0 - rowsHeight)`.**
  - The source writes `element?.scrollHeight ?? 0 - rowsHeight`, which parses
    as `?? (0 - rowsHeight)`.
  - The vertical limit is therefore the whole scroll height when the element
    exists.
- **Month labels pin at the edges.**
  - A month label is centred on the visible part of its cell.
  - It is pinned 2 pixels inside the right edge, or else the left edge, when
    it would cross them.

## Model

| member | source | states |
|---|---|---|
| Base.NatToString | src/components/Chart/Calendar/Calendar.tsx:97 | the decimal rendering of a cell index is a non-empty string of digits |
| Base.NatToStringInjective | src/components/Chart/Calendar/Calendar.tsx:97 | different indices give different keys |
| Base.SumAppend | src/components/Chart/Calendar/Calendar.tsx:154-160 | the sum of a concatenation is the sum of the sums |
| Dates.ValueOf | src/components/utils/tasks.ts:40-44 | dayjs(v).valueOf(): milliseconds are kept, a date string is parsed |
| Dates.UtcMeetsDayFacts | src/components/utils/times.ts:113-118 | the UTC clock meets the facts the layout requires: adding a day advances, a day encloses its instants, and day and week grid steps advance |
| Dates.UtcMonthAdvances | src/components/Chart/Calendar/Calendar.tsx:228-233 | the UTC clock meets the month fact the month band requires: one month on from any instant, truncated to its month's start, lies after that instant |
| Dates.UtcHourStepStalls | src/components/utils/times.ts:113-118 | an hour step truncated to the day start does not advance: at midnight it returns to the same instant |
| Times.Pow2 | src/components/utils/times.ts:44 | 2 to an integer power is positive, and at least 1 for a non-negative power |
| Times.TimePerPixel | src/components/utils/times.ts:36-45 | milliseconds per pixel are 60·scale·zoom/100 + 2^zoom, and at least 1 for a positive scale and non-negative zoom |
| Times.TotalViewDurationMs | src/components/utils/times.ts:54-62 | the window's length added to its first instant gives its last |
| Times.TotalViewDurationPx | src/components/utils/times.ts:72-77 | the window's pixel length times the scale is its length in milliseconds, non-negative for a positive scale |
| Times.ChartWidth | src/components/utils/times.ts:22-27 | the chart is one grid stroke wider than the window |
| Times.StepTimesAscending | src/components/utils/times.ts:113-118 | the step times after the first lie after it, not past the last time, and strictly increase |
| Times.WidthPx | src/components/utils/times.ts:131-141 | the pixel widths of the steps, in order |
| Times.PrefixWidths | src/components/utils/times.ts:130-135 | the widths of the steps before step k add up to step k's offset, in milliseconds and pixels |
| Times.StepsTileWindow | src/components/utils/times.ts:130-141 | the step widths add up to the window's length, in milliseconds and pixels |
| Times.CalculateSteps | src/components/utils/times.ts:85-143 | the grid is a first step at the first time, then one step per advanced and day-truncated time not past the last; offsets are measured from the first time, each width runs to the next step's offset, and the widths tile the window exactly |
| Times.GetMonthsCount | src/components/utils/times.ts:266-285 | 0 for an empty range, otherwise 1 plus the month changes of the day-by-day walk |
| Times.LastDayOfMonthCountsTwo | src/components/utils/times.ts:277-283 | a single instant on a month's last day counts two months |
| Times.SameMonthCountsOne | src/components/utils/times.ts:277-283 | a walk that never changes month counts no change |
| Times.MaxMeasuredIsMaximum | src/components/utils/times.ts:180-194 | the running maximum of the label widths is at least every width, is one of them or 0, and is never negative |
| Times.InitMaxWidths | src/components/utils/times.ts:180-182 | every format starts with a maximum of 0, and no other key is present |
| Times.MeasureItem | src/components/utils/times.ts:238-249 | one item's row holds each format's label width, and the maxima are raised to it where it is larger |
| Times.ComputeWidths | src/components/utils/times.ts:211-254 | without a canvas context both tables are empty; otherwise one row per item with every format's measured width, and each format's maximum over the rows |
| Times.MeasureHour | src/components/utils/times.ts:184-196 | one hour's row, the raised maxima, and its label appended to each format's list |
| Times.ComputeHourWidths | src/components/utils/times.ts:152-200 | label lists exist for the long, medium and short keys; with a context there are 24 rows, each format's maximum, and the 24 rendered labels per format; without one the lists stay empty |
| Times.Halvings | src/components/utils/times.ts:355 | the candidate counts start at n when n > 1, strictly decrease, and stay between 2 and n |
| Times.FirstFitting | src/components/utils/times.ts:356-366 | the first format in which n labels fit, or none exactly when none fits |
| Times.FirstFitIsFirst | src/components/utils/times.ts:355-371 | an answer is a candidate whose format fits, after candidates that did not fit in any format; no answer exactly when no candidate fits |
| Times.FirstFitMonotone | src/components/utils/times.ts:355-366 | a wider space never yields fewer labels |
| Times.HalvingSearch | src/components/utils/times.ts:355-366 | the halving loop with its early return computes the first fit |
| Times.HowManyHoursFit | src/components/utils/times.ts:348-372 | the first fit of the 24-hour halving, or count 0 with format "" |
| Times.HowManyDaysFit | src/components/utils/times.ts:382-408 | the first fit of the step-count halving across the chart, or count 0 with format "" |
| Times.HowManyMonthsFit | src/components/utils/times.ts:418-454 | a single month takes the first format whose label fits; otherwise the halving search; nothing fitting gives count 0 with the first format |
| Times.HalvingAnswerRange | src/components/utils/times.ts:355-371 | an answer is 0, or a candidate between 2 and the start whose format fits, so never 1 |
| Times.HourHalvings | src/components/utils/times.ts:355 | the hour band tries 24, 12, 6, 3 and 2 labels, in that order |
| Times.HourCounts | src/components/utils/times.ts:348-372 | the hour band shows 24, 12, 6, 3 or 2 labels per step, or none |
| Times.MonthsFitRange | src/components/utils/times.ts:418-454 | count 1 exactly for a single month whose label fits; never more labels than months; nothing fitting names the first format |
| Times.CalculateCalendarDimensions | src/components/utils/times.ts:464-481 | the calendar height is the sum of the heights of the bands that are displayed and have an item, for any mix of bands: 0 for none, all three heights for all, and between the two for non-negative heights |
| Times.CalendarBandAdds | src/components/utils/times.ts:471-479 | each band adds exactly its own height when it is displayed and has an item, and nothing otherwise, whatever the other two bands are |
| Charts.IsInsideViewPort | src/components/utils/charts.ts:14-25 | an item shown for a proper viewport meets the viewport widened by the margin, and an item starting inside the viewport is shown |
| Charts.ContainingOverlaps | src/components/utils/charts.ts:14-25 | for a proper viewport, an item that contains the viewport also overlaps it |
| Charts.BufferMonotone | src/components/utils/charts.ts:14-25 | a wider margin never hides an item a narrower one shows |
| Charts.WorkingDays | src/components/utils/charts.ts:33-40 | the steps kept are steps of the grid whose weekday is not a working day |
| Charts.WorkingDaysKeepsAll | src/components/utils/charts.ts:33-40 | every non-working step is kept |
| Charts.WorkingDaysAppend | src/components/utils/charts.ts:33-40 | the filter distributes over concatenation, so the order of the steps is kept |
| Charts.TimeToPixelOffsetX | src/components/utils/charts.ts:49-59 | the offset is 0 at the first time, and otherwise the time difference divided by the scale |
| Charts.TimeToPixelMonotone | src/components/utils/charts.ts:49-59 | later instants lie further right for a positive scale |
| Tasks.FillTask | src/components/utils/tasks.ts:9-52 | the normalised task: defaults for what is missing; the parent id set to 0 when lodash finds it empty; start time from `start`; end time from `end`, else from the duration; duration from the end time when there is one |
| Tasks.FilledUnique | src/components/utils/tasks.ts:9-52 | normalisation depends on the user task alone |
| Tasks.TaskWidth | src/components/utils/tasks.ts:120-123 | the bar width is the duration in pixels less one stroke, clamped at 0 |
| Tasks.RecalculateTasks | src/components/utils/tasks.ts:111-134 | the rows keep their number, order and other fields; each gets its bar width, the row height, the x of its start time and the y of its row |
| Tasks.RowsStack | src/components/utils/tasks.ts:119-133 | the first bar is one gap from the top, consecutive rows are a row plus two gaps apart, and no bar has negative width |
| Tasks.FirstTimeAtOrigin | src/components/utils/tasks.ts:89-99 | a bar starting at the first time has x 0 |
| Tasks.MaxParentCountIsMaximum | src/components/utils/tasks.ts:141-149 | the largest ancestor count bounds every task's, and belongs to one of them or is 0 |
| Tasks.GetMaximalLevel | src/components/utils/tasks.ts:141-149 | the deepest level is the largest ancestor count less one, so -1 for no task and for only top-level tasks |
| Tasks.GetMaximalExpanderWidth | src/components/utils/tasks.ts:157-163 | one padding per level, plus the margin |
| Tasks.TaskHeight | src/components/utils/tasks.ts:172-185 | a row with its stroke is one stroke higher than a row without it |
| Tasks.TasksHeight | src/components/utils/tasks.ts:195-202 | the rows' height is one bar plus two gaps per task, the stroke width not counted, and 0 for no task |
| Tasks.TasksHeightAppend | src/components/utils/tasks.ts:195-202 | the height of the rows of two lists is the sum of their heights |
| Tasks.GetHeight | src/components/utils/tasks.ts:215-234 | the rows without stroke, the calendar, its stroke and its gap, plus the scroll bar only for the outer height |
| TaskTree.Links | src/components/utils/tasks.ts:64 | each task's id and parent id, in array order |
| TaskTree.ChildIdx | src/components/utils/tasks.ts:61-64 | exactly the indices of the tasks whose parent id is the node's, in array order |
| TaskTree.ChainUnique | src/components/utils/tasks.ts:60-83 | with well-formed links, the chain of parent ids that reaches a task is unique |
| TaskTree.ChildEntry | src/components/utils/tasks.ts:64-75 | a child of a normal node inherits its ancestors and the node as last ancestor and parent; a child of the root has none |
| TaskTree.ChildExit | src/components/utils/tasks.ts:76 | the child returned by the recursive call is the finished task at its path |
| TaskTree.MakeTaskTree | src/components/utils/tasks.ts:60-83 | the node's subtree is built in place: every task below it gets its ancestors, parent, children and pre-order, the rest of the array is untouched, and the node lists its children and then the pre-order of its descendants |
| TaskTree.AttachChild | src/components/utils/tasks.ts:64-79 | attaching child i appends its id to the node's children, and its id followed by its descendants' ids to the node's pre-order |
| TaskTree.PreorderOfMembers | src/components/utils/tasks.ts:77-79 | the pre-order of a node holds exactly the ids of its descendants |
| TaskTree.PreorderListMembers | src/components/utils/tasks.ts:77-79 | the pre-order of some children holds exactly their ids and their descendants' ids |
| TaskTree.NotOwnDescendant | src/components/utils/tasks.ts:77-79 | a task is never listed among its own descendants, nor is the root |
| TaskTree.SubtreesDisjoint | src/components/utils/tasks.ts:77-79 | the subtrees of two different children share no id |
| TaskTree.PreorderOfDistinct | src/components/utils/tasks.ts:77-79 | every descendant appears once in a node's pre-order |
| TaskTree.PreorderListDistinct | src/components/utils/tasks.ts:77-79 | every descendant of distinct children appears once in their pre-order |
| TaskTree.BuildTaskTree | src/GanttElastic.tsx:172-201 | under the synthetic root the tree is built in place; the root lists the top-level tasks and every task whose parent chain reaches it once, in pre-order; the tasks reached are finished and all others are left as they were |
| Columns.ColumnKeyInjective | src/components/utils/columns.ts:22 | the index and label can be read back from a column's key |
| Columns.InitializeColumns | src/components/utils/columns.ts:10-25 | one initialised column per configured column, in order |
| Columns.InitializeColumnsKeeps | src/components/utils/columns.ts:13-24 | each column keeps its id, label and width; the expander flag is set only when given as true; the given style or an empty one; threshold 100; zero dimensions; and a key different from every other column's |
| Columns.CalculateTaskListColumnsDimensions | src/components/utils/columns.ts:39-80 | every column's dimensions are computed in place, with nothing added, removed or reordered; the results add up the shares, the final widths and the configured widths |
| Columns.DimensionedHeight | src/components/utils/columns.ts:70 | every column is a row plus two gaps high, less one stroke |
| Columns.DimensionedKeeps | src/components/utils/columns.ts:58-70 | the computation changes only the height and the two computed widths |
| Columns.FullThresholdTotals | src/components/utils/columns.ts:66-69 | under a 100 percent threshold the final widths add up to the shares |
| Columns.InitializedFinalIsShare | src/components/utils/columns.ts:13-24 | columns just initialised get a final width equal to their share, in total too |
| Columns.TotalAppend | src/components/utils/columns.ts:66-71 | the sums add up column by column |
| Calendar.SpanWidthSplit | src/components/Chart/Calendar/Calendar.tsx:154-160 | the width of a run of steps splits at any step between its ends |
| Calendar.SpanWidthIsSum | src/components/Chart/Calendar/Calendar.tsx:154-160 | all the steps together are as wide as their widths add up to |
| Calendar.ItemWidths | src/components/Chart/Calendar/Calendar.tsx:172 | the widths of the cells, in order |
| Calendar.HoursFitCount | src/components/Chart/Calendar/Calendar.tsx:69-76 | a step shows 24, 12, 6, 3 or 2 hour labels, or none |
| Calendar.HourCells | src/components/Chart/Calendar/Calendar.tsx:83-105 | a step's first n hour cells, in order |
| Calendar.Hours | src/components/Chart/Calendar/Calendar.tsx:54-109 | nothing when the band is hidden, otherwise one group per step that fits some hour labels, in step order |
| Calendar.HourGroupCells | src/components/Chart/Calendar/Calendar.tsx:81-105 | the inner loop gives one cell per fitted part of the step |
| Calendar.HourCellPlace | src/components/Chart/Calendar/Calendar.tsx:82-99 | an hour cell is a count-th of its step wide, starts i widths past the step's offset, and sits below the day and month bands |
| Calendar.HourCellsTileStep | src/components/Chart/Calendar/Calendar.tsx:82-105 | a step's hour cells tile it exactly: the first starts at its offset, each ends where the next begins, and the last ends where the step does |
| Calendar.HourCellsTile | src/components/Chart/Calendar/Calendar.tsx:69-105 | a step gets a group exactly when some count fits; the group has 24, 12, 6, 3 or 2 cells that tile the step below the day and month bands |
| Calendar.HourLabelIndex | src/components/Chart/Calendar/Calendar.tsx:81-84 | the label index i·(24/count) is a whole hour in [0, 24) and equals i·24/count |
| Calendar.HourBandGroups | src/components/Chart/Calendar/Calendar.tsx:64-107 | the band holds the group of every step that fits hours and nothing else, at most one per step |
| Calendar.DaysFitCount | src/components/Chart/Calendar/Calendar.tsx:138-146 | the day count is 0, or between 2 and the number of steps |
| Calendar.CeilDiv | src/components/Chart/Calendar/Calendar.tsx:148 | the rounded-up quotient is the least multiple count covering the dividend, positive for a positive dividend |
| Calendar.DayStartsShape | src/components/Chart/Calendar/Calendar.tsx:149-153 | the stride starts begin at the first step, lie a stride apart before the end, and one more stride passes the end |
| Calendar.StrideWidths | src/components/Chart/Calendar/Calendar.tsx:154-160 | one width per stride start |
| Calendar.StrideWidthsCover | src/components/Chart/Calendar/Calendar.tsx:154-160 | the strides' widths, each cut at the last step, add up to the steps they cover |
| Calendar.DayStride | src/components/Chart/Calendar/Calendar.tsx:148 | the stride is at least 1 |
| Calendar.Singletons | src/components/Chart/Calendar/Calendar.tsx:178-181 | each cell becomes a group of its own under its key |
| Calendar.Days | src/components/Chart/Calendar/Calendar.tsx:125-183 | the day band is the day cells, each in its own group |
| Calendar.DayCellsPlaced | src/components/Chart/Calendar/Calendar.tsx:148-177 | a stride of at least 1; cells at steps 0, stride, 2·stride, …, each at its step's offset, with one more stride passing the end |
| Calendar.DayCellsCoverSteps | src/components/Chart/Calendar/Calendar.tsx:154-172 | the day cells' widths add up to the width of all the steps |
| Calendar.DayCellWidth | src/components/Chart/Calendar/Calendar.tsx:154-160 | a day cell is as wide as the existing steps of its stride |
| Calendar.DayBandEmpty | src/components/Chart/Calendar/Calendar.tsx:128-146 | the day band is empty exactly when it is hidden or no count fits |
| Calendar.MonthEnd | src/components/Chart/Calendar/Calendar.tsx:228-233 | a month's window never ends past the last time |
| Calendar.MonthOffset | src/components/Chart/Calendar/Calendar.tsx:227-246 | the month's x is the least offset of the steps in its window, the largest safe integer when there is none |
| Calendar.LastFitting | src/components/Chart/Calendar/Calendar.tsx:249-254 | the last format whose widest label plus 2 fits, with nothing after it fitting; -1 when none does |
| Calendar.MonthCount | src/components/Chart/Calendar/Calendar.tsx:213-225 | the fitted number of month cells, never more than the months in range |
| Calendar.MonthCells | src/components/Chart/Calendar/Calendar.tsx:200-275 | none when the band is hidden, otherwise exactly the fitted count of month cells, cell k being month k's |
| Calendar.MonthCellsUpTo | src/components/Chart/Calendar/Calendar.tsx:225-275 | the first n month cells, in order |
| Calendar.MonthExtent | src/components/Chart/Calendar/Calendar.tsx:235-246 | the step loop computes the width and the least offset of the steps in the window |
| Calendar.ChooseFormat | src/components/Chart/Calendar/Calendar.tsx:247-254 | the format loop keeps the last fitting format and its label, or "" when none fits |
| Calendar.MonthItem | src/components/Chart/Calendar/Calendar.tsx:226-274 | one iteration gives month k's cell and the start of month k + 1, clamped to the last time |
| Calendar.Months | src/components/Chart/Calendar/Calendar.tsx:200-281 | the month band is the month cells, each in its own group |
| Calendar.MonthWidthEmpty | src/components/Chart/Calendar/Calendar.tsx:237-241 | a window that ends where it starts, or earlier, holds no width |
| Calendar.MonthWidthSplit | src/components/Chart/Calendar/Calendar.tsx:237-241 | adjacent windows together hold the width of their union |
| Calendar.MonthWidthAll | src/components/Chart/Calendar/Calendar.tsx:237-241 | a window holding every step holds all their width |
| Calendar.MonthStartsOrdered | src/components/Chart/Calendar/Calendar.tsx:271-274 | month starts never go back and never pass the last time |
| Calendar.MonthCellsCover | src/components/Chart/Calendar/Calendar.tsx:226-274 | the first n month cells are together as wide as the steps from the first time to month n's start |
| Calendar.MonthPastLastEmpty | src/components/Chart/Calendar/Calendar.tsx:227-246 | a month starting at the last time has no width and sits at the largest safe integer |
| Calendar.CalendarHeight | src/components/Chart/Calendar/Calendar.tsx:295-300 | the sum of the heights of the bands that are displayed and hold a group, for any mix of bands; all three give the sum of their heights, none gives 0 |
| Calendar.UpdateCalendarHeight | src/components/Chart/Calendar/Calendar.tsx:294-309 | afterwards the state holds the height; a state that already held it is unchanged; no other path changes |
| Calendar.CalendarHeightReads | src/components/Chart/Calendar/Calendar.tsx:304-307 | the dispatched action stores the height and changes no diverging path |
| Calendar.CalendarHeightSettles | src/components/Chart/Calendar/Calendar.tsx:301 | a second run of the effect changes nothing |
| Dependencies.VerticalOf | src/components/Chart/DependencyLines.tsx:31-38 | a non-negative distance and a direction of ±1 lead from the start height to the stop height; the direction is down exactly when the stop is not above |
| Dependencies.GetPoints | src/components/Chart/DependencyLines.tsx:9-81 | no path without the lookups, for an unknown task or for a hidden one; a path starts at the source's right edge, runs the offset right and ends in the target's left edge; 10 segments when the target is at most 14 to the right, 7 otherwise |
| Dependencies.ForwardRouteWithin | src/components/Chart/DependencyLines.tsx:69-78 | the forward route's vertical leg stands halfway across, and every point, control points included, lies between the two tasks |
| Dependencies.BeforeRouteHeights | src/components/Chart/DependencyLines.tsx:44-68 | the route that doubles back crosses at the middle height and its legs start and end at the tasks' heights |
| Dependencies.LinesInto | src/components/Chart/DependencyLines.tsx:99-102 | one connector per id depended on, in order, none for a missing list |
| Dependencies.DependencyTasks | src/components/Chart/DependencyLines.tsx:96-106 | only tasks without a dependency list are selected, their connector lists being empty |
| Dependencies.DependencyTasksSelects | src/components/Chart/DependencyLines.tsx:96-106 | a task is selected exactly when it has no dependency list |
| Dependencies.FilledTasksSelectNothing | src/components/Chart/DependencyLines.tsx:97 | among normalised tasks none is selected |
| Gantt.FirstTaskTimeIsMinimum | src/GanttElastic.tsx:156-166 | the first task time is at most every start and is one of them, or the largest safe integer for no task |
| Gantt.LastTaskTimeIsMaximum | src/GanttElastic.tsx:157-169 | the last task time is at least every end and is one of them, or 0 for no task |
| Gantt.TasksById | src/GanttElastic.tsx:154-161 | the lookup has exactly the tasks' ids as keys |
| Gantt.TasksByIdFinds | src/GanttElastic.tsx:160 | with unique ids every task is found under its id |
| Gantt.Lookup | src/GanttElastic.tsx:223 | the tasks of the ids, in the ids' order |
| Gantt.NormaliseTasks | src/GanttElastic.tsx:159-170 | each user task normalised into a new array, with the earliest start and the latest end |
| Gantt.FilledArena | src/GanttElastic.tsx:159-201 | normalised tasks with usable ids form well-formed links with unique ids |
| Gantt.Extent | src/GanttElastic.tsx:153-234 | the window runs from the start of the day `before` days ahead of the first time to the end of the day `after` days past the last, a truthy given time replacing the one found; the rows are exactly the tasks whose chain reaches the root, each once, in pre-order, with their geometry |
| Gantt.RowsFound | src/GanttElastic.tsx:223 | every id of the pre-order finds its task |
| Gantt.UniqueIds | src/GanttElastic.tsx:160 | well-formed links have unique ids |
| Gantt.GetTask | src/GanttElastic.tsx:403-413 | a task exactly for a truthy known id, nothing otherwise |
| Gantt.GetTaskFinds | src/GanttElastic.tsx:403-413 | with unique ids every task with a truthy id is found by it, and a task with a falsy id never is |
| Gantt.IsTaskVisible | src/GanttElastic.tsx:418-431 | nothing when the task or id does not resolve; otherwise whether the task is visible, that is, none of its ancestors is found collapsed |
| Gantt.VisibleInherited | src/GanttElastic.tsx:424-428 | a visible task's ancestors are visible |
| Gantt.CollapsedHidesDescendants | src/GanttElastic.tsx:424-428 | collapsing a task hides every task built below it |
| Gantt.CollapseAll | src/GanttElastic.tsx:424-428 | the lookup with the given tasks collapsed and the others as they were |
| Gantt.CollapsingKeepsHidden | src/GanttElastic.tsx:424-428 | collapsing more tasks never shows a hidden task |
| Gantt.VisibleTasks | src/GanttElastic.tsx:445 | the shown tasks are visible tasks of the list |
| Gantt.VisibleTasksAppend | src/GanttElastic.tsx:445 | the filter distributes over concatenation, so order is kept |
| Gantt.VisibleTasksKeepsAll | src/GanttElastic.tsx:445 | every visible task is kept |
| Gantt.SliceTo | src/GanttElastic.tsx:446 | Array.slice(0, n), a negative end counting from the back |
| Gantt.ComputeHeights | src/GanttElastic.tsx:434-485 | the visible tasks, the first maxRows of them as rows, and the height of all visible rows |
| Gantt.HeightsAgree | src/GanttElastic.tsx:446-485 | the rows' height is capped at a truthy maximum; the client height is the rows' height plus the calendar; the outer height adds the scroll bar; the rows are at most maxRows |
| Gantt.PixelOffsetXToTime | src/GanttElastic.tsx:554-565 | the time since the first time, divided by the scale, is the pixel offset plus half a grid stroke; the middle of the first grid line is the first time |
| Gantt.PixelTimeRoundTrip | src/GanttElastic.tsx:554-565 | a pixel offset converted to a time and back moves by half a grid stroke |
| Gantt.PixelToTimeMonotone | src/GanttElastic.tsx:554-565 | a later pixel offset is a later time |
| Gantt.TruncateMs | src/GanttElastic.tsx:655-658 | a fractional instant keeps its integral part, toward zero |
| Gantt.ScrollPayloadReads | src/GanttElastic.tsx:638-654 | the payload holds the left, top, time, right and percent of the new position |
| Gantt.OnScrollChart | src/GanttElastic.tsx:635-667 | nothing at the recorded position; otherwise the derived scroll fields are merged into the state and the browser is asked to scroll both axes there |
| Gantt.OnScrollChartSettles | src/GanttElastic.tsx:635-661 | afterwards the state records the position, time and right edge, and a second call does nothing |
| Gantt.ScrollToTime | src/GanttElastic.tsx:688-708 | a position is asked for exactly when there is a container; the instant may be fractional, as a stored centre is |
| Gantt.ScrollToTimeCentres | src/GanttElastic.tsx:692-701 | the instant is centred unless that lies past the chart width, then the chart width less the container's is used; never past the chart width |
| Gantt.FixScrollPos | src/GanttElastic.tsx:712-714 | scrolls to the centre instant stored in the state, centred in the container unless past the chart width; nothing while no number is stored or there is no container |
| Gantt.FixScrollPosKeepsCentre | src/GanttElastic.tsx:654-661 | after the scroll handler stored a centre, re-centring under any new scale puts that instant back in the middle of the container (half a grid stroke off, as the two conversions measure from different origins), unless the chart-width clamp applies |
| Gantt.ScrollToTimeUnclamped | src/GanttElastic.tsx:697-700 | an instant at the window start asks for a negative position, and one near the end for a position past the chart width less the container's |
| Gantt.ClampLowFirst | src/GanttElastic.tsx:734-738 | values inside [0, max] are kept; the result lies in [0, max] when max is not negative, and is 0 or max otherwise |
| Gantt.OnWheelChart | src/GanttElastic.tsx:719-756 | a plain wheel scrolls the rows up to the graph's scroll height; a shifted wheel scrolls sideways by the vertical delta; a horizontal delta scrolls sideways by itself; sideways stops at scroll width less client width |
| Gantt.WheelScrollsOneAxis | src/GanttElastic.tsx:719-756 | exactly one axis is scrolled, within [0, extent] whenever the extent is not negative |
| Store.Reduce | src/GanttElastic.tsx:75-91 | "update-calendar-height" stores its payload at calendar.height, "resize" at clientWidth; every other action, "scroll" included, merges its payload into an object state, keeping the keys of both |
| Store.Merge | src/GanttElastic.tsx:90 | the deep merge keeps the keys of both objects; any other value of the payload replaces the old one |
| Store.MergeIdempotent | src/GanttElastic.tsx:90 | merging the same payload twice is merging it once |
| Store.MergeSelf | src/GanttElastic.tsx:90 | a value merged into itself is itself |
| Store.MergeEmpty | src/GanttElastic.tsx:90 | merging an empty object changes nothing |
| Store.MergeReadsPayload | src/GanttElastic.tsx:90 | each leaf of the payload is read back after the merge |
| Store.MergeKeepsOthers | src/GanttElastic.tsx:90 | a field the payload does not name keeps its value |
| Store.SetInGetIn | src/GanttElastic.tsx:86-88 | what was set is read back |
| Store.SetInKeepsOthers | src/GanttElastic.tsx:86-88 | every path that parts from the set one keeps its value |
| Store.EmptyHasNothing | src/GanttElastic.tsx:86-88 | an object made only to hold a set value holds nothing else |
| Store.ScrollMerges | src/GanttElastic.tsx:82-84 | "scroll", whose branch is empty, merges like an action of no known kind |
| Store.ResizeSetsWidth | src/GanttElastic.tsx:87-88 | "resize" sets the client width and nothing else |
| Store.CalendarHeightSetsHeight | src/GanttElastic.tsx:85-86 | "update-calendar-height" sets the calendar's height and nothing else |
| Store.ReduceMergeIdempotent | src/GanttElastic.tsx:75-90 | dispatching a merging action twice is dispatching it once |
| Expander.CollapsedCount | src/components/Expander.tsx:16-21 | the collapsed count is at most the number of tasks |
| Expander.CollapsedCountAll | src/components/Expander.tsx:16-22 | all tasks are counted exactly when all are collapsed |
| Expander.IsCollapsed | src/components/Expander.tsx:12-23 | collapsed exactly when there are tasks and all of them are collapsed |
| Expander.CollapseState | src/components/Expander.tsx:12-23 | the counting loop computes that state |
| Expander.Toggle | src/components/Expander.tsx:62-75 | nothing for no tasks; otherwise the request for these tasks with the opposite state |
| Expander.Apply | src/components/Expander.tsx:74 | carrying out a request sets every one of its tasks to the requested state |
| Expander.ToggleFlips | src/components/Expander.tsx:62-75 | once the request is carried out the expander shows the other state |
| Expander.AllChildren | src/components/Expander.tsx:79-84 | the nested loops produce each task's descendants in turn |
| Expander.AllChildrenOfHas | src/components/Expander.tsx:79-84 | an id is aggregated exactly when it is some task's descendant |
| Expander.AllChildrenOfAppend | src/components/Expander.tsx:79-84 | the aggregation of two lists is the first's followed by the second's |
| Expander.TaskListStyle | src/components/Expander.tsx:93-102 | no style unless in the task list; there, the first task's depth in paddings plus the margin, not a number without tasks |
| Expander.GlyphOf | src/components/Expander.tsx:111-149 | a glyph exactly when there are descendants; the border inset by 0.5; a horizontal line always, a vertical one exactly when collapsed |
| Expander.GlyphPlusCentred | src/components/Expander.tsx:132-148 | the plus's lines cross at the centre and are equally long |
| RowText.PinnedX | src/components/Chart/Calendar/RowText.tsx:42-48 | the label is pinned to the right edge, the left edge, or stays centred on the visible part and inside the cell |
| RowText.TextLeft | src/components/Chart/Calendar/RowText.tsx:24-52 | only month labels get a left offset: centred on the cell when out of view, pinned when in view |
| RowText.PinnedLabelInsideCell | src/components/Chart/Calendar/RowText.tsx:42-50 | a label that fits with the gaps stays inside its cell while in view |
| RowText.PinnedToRightEdge | src/components/Chart/Calendar/RowText.tsx:44-45 | a label crossing the right edge is pinned 2 inside it |
| RowText.OutOfViewCentred | src/components/Chart/Calendar/RowText.tsx:31-50 | a cell out of view keeps its label centred |
| Milestone.Inset | src/components/Chart/Row/Milestone.tsx:41-45 | the inset is the smaller of half the height and half the width |
| Milestone.Points | src/components/Chart/Row/Milestone.tsx:46-51 | the polygon has six vertices |
| Milestone.PointsSymmetric | src/components/Chart/Row/Milestone.tsx:42-51 | the polygon mirrors itself about the box's vertical centre |
| Milestone.PointsInBox | src/components/Chart/Row/Milestone.tsx:40-52 | for a box of non-negative size the top edge runs left to right and every vertex lies in the box |
| Milestone.ZeroWidthFlat | src/components/Chart/Row/Milestone.tsx:40-52 | a milestone without width collapses to its left edge |
| Grid.VerticalLines | src/components/Chart/Grid.tsx:37-65 | at most one vertical line per step |
| Grid.RenderVerticalLines | src/components/Chart/Grid.tsx:37-65 | the loop pushes the line of each step near the viewport, as high as all tasks' rows plus a stroke |
| Grid.VerticalLinesAtSteps | src/components/Chart/Grid.tsx:39-61 | every line stands at the offset of a step near the viewport, from the top to the given height, and every such step has one |
| Grid.HorizontalLines | src/components/Chart/Grid.tsx:83-87 | one horizontal line per visible task, the first half a stroke down |
| Grid.HorizontalLinesSpaced | src/components/Chart/Grid.tsx:83-87 | neighbouring lines are a row and two gaps apart |
| Grid.TimeLineX | src/components/Chart/Grid.tsx:116-134 | the current-time line is at 0 for the first time and not left of it after |
| Grid.TimeLineAfterStart | src/components/Chart/Grid.tsx:119-123 | an instant not before the first time lies not left of the origin, for a positive scale |
| DaysHighlight.Highlights | src/components/Chart/DaysHighlight.tsx:46-68 | no rectangle unless there are working days; otherwise one per non-working step, in order, at its offset and width, from the top |
| DaysHighlight.NoWorkingDaysNothingDrawn | src/components/Chart/DaysHighlight.tsx:46-55 | with no working days every step passes the filter, yet nothing is drawn |
| DaysHighlight.HighlightsCover | src/components/Chart/DaysHighlight.tsx:46-62 | each rectangle covers a non-working step, and each non-working step has one |

## Left out

- Rendering: JSX, SVG and DOM output are not modelled. This covers styles and class names, the expander's border and line styles, the calendar cell's rectangle style and the React keys.
- Browser measurements are parameters: container and scroll widths, the scroll bar height and canvas text measurement.
- DOM plumbing is not modelled: `getScrollBarHeight`, `getSVG`/`getImage`, the `scrollTo`/`syncScrollTop` writes, the event emitter wiring and the ResizeObserver.
- Gantt.FixScrollPos: a stored centre that is not a number is not followed into JavaScript's NaN arithmetic; the model asks for no scroll then. The widget defines `fixScrollPos` but calls it nowhere in the modelled files.
- Grid.TimeLineX: the current instant (`new Date()`) is a parameter, and its locale date string is not modelled.
- dayjs is not reproduced: locale, daylight saving time and month lengths are abstract functions of the `Clock`, with the facts the layout needs as predicates. `Dates.Utc` is one concrete instance, the Gregorian calendar in UTC, whose month starts are found by counting month lengths from January 1970; its internals (`Dates.MonthStartDay`, `Dates.MonthOf`, `Dates.AddMonths`) witness the predicates and model no code of the widget.
- Times.CalculateSteps: requires a step unit that advances (day or coarser), because with "hour" the source's loop does not terminate.
- Times.ComputeWidths: each width row also carries an item index under a "day" or "hour" key. The model leaves it out, because nothing reads it.
- Times.ComputeHourWidths: the labels are given as a rendering function of the hour and format, not through dayjs formatting. The member requires every format name to be "long", "medium" or "short": for any other name the widget's `formatted[formatName].push` throws a TypeError, and that error path is not modelled.
- Calendar.HourLabelIndex: 24 / count is whole because the count divides 24; counts that do not divide 24 cannot arise.
- Pixel arithmetic is exact `real`. Floating-point rounding, NaN and Infinity are not modelled. A zero time-per-pixel is excluded by a precondition wherever the source divides by it.
- Calendar.MonthOffset: `Number.MAX_SAFE_INTEGER` is used as the real x of an empty month.
- Expander.TaskListStyle: the NaN padding of an empty task list is `None`.
- Grid.RenderVerticalLines: the stroke width obtained by `parseInt` is an integer parameter.
- TaskTree.MakeTaskTree: task objects are entries of an array, with the parent-id chain as a ghost path. Aliasing between a task object and its array slot is not modelled.
- TaskTree.BuildTaskTree: requires unique ids and no user task with the root id 0. A chain of parent ids that leads back into itself, such as a task with id 0 under a top-level parent, makes the widget's recursion run forever, and that case is left out. What the widget does with duplicate ids is not modelled. With two tasks sharing an id, a child of that id is visited once from each of them, so: its `parents` list and those of its descendants repeat ancestors; the maximal level and so the expander width grow past the true depth; and its own `children` list names each of its children twice.
- Times.HowManyMonthsFit: with an empty format list the nothing-fits answer carries the format "", where the widget's `Object.keys(dateFormats)[0]` is undefined; an undefined format name is not modelled.
- Dependencies.DependencyTasks: the in-place overwrite of `dependencyLines` is modelled on values, as a new list of updated tasks.
- Dependencies.GetPoints: `hasLookups` stands for the presence of both the lookup and the visibility functions.
- JavaScript key coercion is not modelled: ids are numbers or strings, compared as given.
- Store.Reduce: requires an object payload for every merging action. Immutable's merge throws on anything else, and that error path is not modelled.
- Widget state: the state is untyped JSON. Immutable's merge is modelled for plain objects, numbers, strings and booleans; arrays count as leaves.
- Calendar.UpdateCalendarHeight: `dispatch` is assumed present.
- Gantt.OnScrollChart: the chart element's client width is a number; the NaN of a missing element is not modelled.
- Gantt.CollapseAll: collapsing is a function on the lookup map. The event that carries it out belongs to the widget's event wiring, which is not modelled.
