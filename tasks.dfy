/**
 * The task record: normalisation of a user task, the row geometry computed
 * for every task in display order, and the height formulas of the rows.
 */
module Tasks {
  import opened Base
  import opened Dates
  import opened Charts

  /**
   * A task as given by the user: every field may be absent. Only the fields
   * the user-facing task type declares are listed; the tree and geometry
   * fields are never supplied.
   */
  datatype TaskInput = TaskInput(
    id: Option<Id>,
    parentId: Option<Id>,
    dependentOn: Option<seq<Id>>,
    start: Option<TimeValue>,
    startTime: Option<int>,
    end: Option<TimeValue>,
    endTime: Option<int>,
    title: Option<string>,
    duration: Option<int>,
    progress: Option<real>,
    kind: Option<string>,
    collapsed: Option<bool>)

  /**
   * A normalised task (`title` is the widget's `label`). `parentId` and
   * `parent` are None where the widget has null; `dependentOn` is None where
   * it is missing; `root` marks the synthetic root task, which carries an own
   * `__root` property.
   */
  datatype Task = Task(
    id: Id,
    kind: string,
    startTime: int,
    endTime: int,
    start: TimeValue,
    title: string,
    progress: real,
    end: TimeValue,
    duration: int,
    children: seq<Id>,
    allChildren: seq<Id>,
    parents: seq<Id>,
    parent: Option<Id>,
    dependentOn: Option<seq<Id>>,
    dependencyLines: seq<DependencyLine>,
    parentId: Option<Id>,
    collapsed: bool,
    mouseOver: bool,
    height: real,
    width: real,
    y: real,
    x: real,
    root: bool)

  /**
   * lodash's isEmpty on a parent id: null, every number and the empty
   * string are empty; a non-empty string is not.
   */
  predicate ParentIdEmpty(parentId: Option<Id>)
  {
    match parentId
    case None => true
    case Some(Num(_)) => true
    case Some(Str(s)) => s == ""
  }

  /**
   * What normalisation makes of a user task: the missing fields take their
   * defaults, then the times are derived. Under lodash's isEmpty every number
   * is empty, so the start time is always recomputed from `start`, a numeric
   * parent id becomes 0, and the end time and duration are recomputed
   * whenever the inputs allow.
   */
  ghost predicate Filled(c: Clock, input: TaskInput, task: Task)
  {
    task.id == input.id.GetOr(Num(0)) && task.kind == input.kind.GetOr("task") &&
    task.title == input.title.GetOr("task") && task.progress == input.progress.GetOr(0.0) &&
    task.start == input.start.GetOr(Millis(0)) && task.end == input.end.GetOr(Millis(0)) &&
    task.collapsed == input.collapsed.GetOr(false) && !task.mouseOver && !task.root &&
    task.dependentOn == Some(input.dependentOn.GetOr([])) && task.dependencyLines == [] &&
    task.children == [] && task.allChildren == [] && task.parents == [] && task.parent == None &&
    task.height == 0.0 && task.width == 0.0 && task.x == 0.0 && task.y == 0.0 &&
    (ParentIdEmpty(input.parentId) ==> task.parentId == Some(RootId)) &&
    (!ParentIdEmpty(input.parentId) ==> task.parentId == input.parentId) &&
    task.startTime == ValueOf(c, task.start) &&
    (TimeTruthy(task.end) ==> task.endTime == ValueOf(c, task.end)) &&
    (!TimeTruthy(task.end) && input.duration.GetOr(0) != 0 ==> task.endTime == task.startTime + input.duration.GetOr(0)) &&
    (!TimeTruthy(task.end) && input.duration.GetOr(0) == 0 ==> task.endTime == input.endTime.GetOr(0)) &&
    (task.endTime != 0 ==> task.duration == task.endTime - task.startTime) &&
    (task.endTime == 0 ==> task.duration == input.duration.GetOr(0))
  }

  /** Normalisation is determined by the user task: two normalised forms of one task are equal. */
  lemma FilledUnique(c: Clock, input: TaskInput, a: Task, b: Task)
    requires Filled(c, input, a) && Filled(c, input, b)
    ensures a == b
  {
  }

  /** Fills the missing fields of a user task with their defaults, then derives the times. */
  method FillTask(c: Clock, input: TaskInput) returns (task: Task)
    ensures Filled(c, input, task)
  {
    task := Task(
      input.id.GetOr(Num(0)), input.kind.GetOr("task"), input.startTime.GetOr(0), input.endTime.GetOr(0),
      input.start.GetOr(Millis(0)), input.title.GetOr("task"), input.progress.GetOr(0.0),
      input.end.GetOr(Millis(0)), input.duration.GetOr(0), [], [], [], None,
      Some(input.dependentOn.GetOr([])), [], match input.parentId case None => None case Some(p) => Some(p),
      input.collapsed.GetOr(false), false, 0.0, 0.0, 0.0, 0.0, false);
    if ParentIdEmpty(task.parentId) {
      task := task.(parentId := Some(RootId));
    }
    // startTime is a number, hence empty
    task := task.(startTime := ValueOf(c, task.start));
    // endTime is a number, hence empty
    if TimeTruthy(task.end) {
      task := task.(endTime := ValueOf(c, task.end));
    } else if task.duration != 0 {
      task := task.(endTime := task.startTime + task.duration);
    }
    // duration is a number, hence empty
    if task.endTime != 0 {
      task := task.(duration := task.endTime - task.startTime);
    }
  }

  /** Bar width of a task: its duration in pixels less one stroke, never negative. */
  function TaskWidth(duration: int, tpp: real, strokeWidth: real): (r: real)
    requires tpp != 0.0
    ensures r >= 0.0 && r >= (duration as real) / tpp - strokeWidth
    ensures r == 0.0 || r == (duration as real) / tpp - strokeWidth
  {
    var width := (duration as real) / tpp - strokeWidth;
    if width < 0.0 then 0.0 else width
  }

  /** Top of the task in row `index`: rows of height plus two gaps, the bar one gap in. */
  function RowY(index: nat, rowHeight: real, gap: real): real
  {
    (rowHeight + gap * 2.0) * (index as real) + gap
  }

  /**
   * Row geometry of the displayed tasks: each keeps its fields and position
   * and gets a bar width, the row height, an x offset from its start time and
   * the y of its row.
   */
  function RecalculateTasks(tasks: seq<Task>, firstTime: int, tpp: real, rowHeight: real,
                            gap: real, strokeWidth: real): (r: seq<Task>)
    requires tpp != 0.0
    ensures |r| == |tasks|
    ensures forall i :: 0 <= i < |r| ==>
      r[i] == tasks[i].(width := TaskWidth(tasks[i].duration, tpp, strokeWidth), height := rowHeight,
                        x := TimeToPixelOffsetX(tasks[i].startTime as real, firstTime, tpp), y := RowY(i, rowHeight, gap))
  {
    seq(|tasks|, i requires 0 <= i < |tasks| =>
      tasks[i].(width := TaskWidth(tasks[i].duration, tpp, strokeWidth), height := rowHeight,
                x := TimeToPixelOffsetX(tasks[i].startTime as real, firstTime, tpp), y := RowY(i, rowHeight, gap)))
  }

  /**
   * Consecutive rows are one row height plus two gaps apart, the first bar
   * sits one gap below the top, and every bar is as high as a row.
   */
  lemma RowsStack(tasks: seq<Task>, firstTime: int, tpp: real, rowHeight: real, gap: real, strokeWidth: real)
    requires tpp != 0.0
    ensures var r := RecalculateTasks(tasks, firstTime, tpp, rowHeight, gap, strokeWidth);
      (|r| > 0 ==> r[0].y == gap) &&
      (forall i :: 0 <= i < |r| - 1 ==> r[i + 1].y - r[i].y == rowHeight + 2.0 * gap) &&
      (forall i :: 0 <= i < |r| ==> r[i].height == rowHeight && r[i].width >= 0.0)
  {
    var r := RecalculateTasks(tasks, firstTime, tpp, rowHeight, gap, strokeWidth);
    forall i | 0 <= i < |r| - 1
      ensures r[i + 1].y - r[i].y == rowHeight + 2.0 * gap
    {
      assert r[i + 1].y == (rowHeight + gap * 2.0) * (i as real) + (rowHeight + gap * 2.0) + gap;
    }
  }

  /** A bar starting at the window start sits at x = 0. */
  lemma FirstTimeAtOrigin(tasks: seq<Task>, firstTime: int, tpp: real, rowHeight: real, gap: real,
                          strokeWidth: real, i: nat)
    requires tpp != 0.0 && i < |tasks| && tasks[i].startTime == firstTime
    ensures RecalculateTasks(tasks, firstTime, tpp, rowHeight, gap, strokeWidth)[i].x == 0.0
  {
  }

  /** The largest number of ancestors among the tasks, 0 for none. */
  function MaxParentCount(tasks: seq<Task>): nat
  {
    if tasks == [] then 0
    else
      var rest := MaxParentCount(tasks[..|tasks| - 1]);
      if |tasks[|tasks| - 1].parents| > rest then |tasks[|tasks| - 1].parents| else rest
  }

  lemma {:induction false} MaxParentCountIsMaximum(tasks: seq<Task>)
    ensures forall i :: 0 <= i < |tasks| ==> |tasks[i].parents| <= MaxParentCount(tasks)
    ensures MaxParentCount(tasks) == 0 || exists i :: 0 <= i < |tasks| && |tasks[i].parents| == MaxParentCount(tasks)
  {
    if tasks != [] {
      var init := tasks[..|tasks| - 1];
      MaxParentCountIsMaximum(init);
      assert forall i :: 0 <= i < |init| ==> init[i] == tasks[i];
    }
  }

  /**
   * The deepest nesting level: the largest ancestor count less one, so -1
   * for an empty list or one of top-level tasks only.
   */
  method GetMaximalLevel(tasks: seq<Task>) returns (level: int)
    ensures level == MaxParentCount(tasks) - 1
    ensures forall i :: 0 <= i < |tasks| ==> |tasks[i].parents| <= level + 1
    ensures level == -1 || exists i :: 0 <= i < |tasks| && |tasks[i].parents| == level + 1
  {
    var maximalLevel := 0;
    var i := 0;
    while i < |tasks|
      invariant 0 <= i <= |tasks|
      invariant maximalLevel == MaxParentCount(tasks[..i])
    {
      assert tasks[..i + 1][..i] == tasks[..i];
      if |tasks[i].parents| > maximalLevel {
        maximalLevel := |tasks[i].parents|;
      }
      i := i + 1;
    }
    assert tasks[..i] == tasks;
    MaxParentCountIsMaximum(tasks);
    level := maximalLevel - 1;
  }

  /** Width of the task list's expander column content: one padding per level plus a margin. */
  method GetMaximalExpanderWidth(tasks: seq<Task>, padding: real, margin: real) returns (width: real)
    ensures width == ((MaxParentCount(tasks) - 1) as real) * padding + margin
  {
    var level := GetMaximalLevel(tasks);
    width := (level as real) * padding + margin;
  }

  /** Height of one row: the bar plus two gaps, and one stroke when asked for. */
  function TaskHeight(height: real, gap: real, strokeWidth: real, withStroke: bool): (r: real)
    ensures r - (if withStroke then strokeWidth else 0.0) == TaskHeight(height, gap, strokeWidth, false)
  {
    if withStroke then height + gap * 2.0 + strokeWidth else height + gap * 2.0
  }

  /** Height of the rows of the given tasks: each row is a bar and two gaps, the stroke not counted. */
  function TasksHeight(tasks: seq<Task>, height: real, gap: real, strokeWidth: real): (r: real)
    ensures r == (|tasks| as real) * (height + 2.0 * gap)
    ensures tasks == [] ==> r == 0.0
  {
    (|tasks| as real) * TaskHeight(height, gap, strokeWidth, false)
  }

  /** The rows of two lists stacked make the rows of their concatenation. */
  lemma TasksHeightAppend(a: seq<Task>, b: seq<Task>, height: real, gap: real, strokeWidth: real)
    ensures TasksHeight(a + b, height, gap, strokeWidth) ==
      TasksHeight(a, height, gap, strokeWidth) + TasksHeight(b, height, gap, strokeWidth)
  {
  }

  /** Height of the whole widget: rows, calendar, its stroke and gap, and the scroll bar for the outer box. */
  function GetHeight(tasks: seq<Task>, rowHeight: real, gap: real, calendarGap: real, calendarStrokeWidth: real,
                     calendarHeight: real, scrollBarHeight: real, outer: bool): (r: real)
    ensures r == TasksHeight(tasks, rowHeight, gap, 0.0) + calendarHeight + calendarStrokeWidth + calendarGap +
      (if outer then scrollBarHeight else 0.0)
  {
    var height := (|tasks| as real) * (rowHeight + gap * 2.0) + calendarHeight + calendarStrokeWidth + calendarGap;
    if outer then height + scrollBarHeight else height
  }
}
