/**
 * The top-level widget: the extent of the tasks and the rows they are shown
 * in, task lookup and visibility, the heights of the visible part, and the
 * scroll arithmetic of the chart.
 */
module Gantt {
  import opened Base
  import opened Dates
  import opened Charts
  import opened Tasks
  import opened TaskTree
  import opened Store

  // ---------------------------------------------------------------------
  // Task extent and the rows in display order.

  /** The earliest start of the tasks, starting from Number.MAX_SAFE_INTEGER. */
  function FirstTaskTime(ts: seq<Task>): int
  {
    if ts == [] then MaxSafeInteger
    else
      var rest := FirstTaskTime(ts[..|ts| - 1]);
      if ts[|ts| - 1].startTime < rest then ts[|ts| - 1].startTime else rest
  }

  /** The latest end (start plus duration) of the tasks, starting from 0. */
  function LastTaskTime(ts: seq<Task>): int
  {
    if ts == [] then 0
    else
      var rest := LastTaskTime(ts[..|ts| - 1]);
      var end := ts[|ts| - 1].startTime + ts[|ts| - 1].duration;
      if end > rest then end else rest
  }

  /** The first task time is below every start and is one of them unless it is the sentinel. */
  lemma {:induction false} FirstTaskTimeIsMinimum(ts: seq<Task>)
    ensures FirstTaskTime(ts) <= MaxSafeInteger
    ensures forall i :: 0 <= i < |ts| ==> FirstTaskTime(ts) <= ts[i].startTime
    ensures FirstTaskTime(ts) == MaxSafeInteger || exists i :: 0 <= i < |ts| && ts[i].startTime == FirstTaskTime(ts)
  {
    if ts != [] {
      var init := ts[..|ts| - 1];
      FirstTaskTimeIsMinimum(init);
      assert forall i :: 0 <= i < |init| ==> init[i] == ts[i];
    }
  }

  /** The last task time is above every end and is one of them unless it is 0. */
  lemma {:induction false} LastTaskTimeIsMaximum(ts: seq<Task>)
    ensures LastTaskTime(ts) >= 0
    ensures forall i :: 0 <= i < |ts| ==> ts[i].startTime + ts[i].duration <= LastTaskTime(ts)
    ensures LastTaskTime(ts) == 0 || exists i :: 0 <= i < |ts| && ts[i].startTime + ts[i].duration == LastTaskTime(ts)
  {
    if ts != [] {
      var init := ts[..|ts| - 1];
      LastTaskTimeIsMaximum(init);
      assert forall i :: 0 <= i < |init| ==> init[i] == ts[i];
    }
  }

  /** The tasks by id; a later task replaces an earlier one of the same id. */
  function TasksById(ts: seq<Task>): (r: map<Id, Task>)
    ensures forall x :: x in r <==> exists j :: 0 <= j < |ts| && ts[j].id == x
  {
    if ts == [] then map[]
    else
      var init := ts[..|ts| - 1];
      assert forall j :: 0 <= j < |init| ==> init[j] == ts[j];
      TasksById(init)[ts[|ts| - 1].id := ts[|ts| - 1]]
  }

  /** With unique ids, every task is found under its own id. */
  lemma {:induction false} TasksByIdFinds(ts: seq<Task>, j: nat)
    requires j < |ts| && forall a, b :: 0 <= a < |ts| && 0 <= b < |ts| && ts[a].id == ts[b].id ==> a == b
    ensures ts[j].id in TasksById(ts) && TasksById(ts)[ts[j].id] == ts[j]
  {
    var init := ts[..|ts| - 1];
    if j < |ts| - 1 {
      assert init[j] == ts[j];
      assert ts[j].id != ts[|ts| - 1].id;
      TasksByIdFinds(init, j);
    }
  }

  /** The user tasks' ids, defaulted as normalisation does, are unique and none is the root's. */
  predicate IdsUsable(userTasks: seq<TaskInput>)
  {
    (forall i, j ::
       0 <= i < |userTasks| && 0 <= j < |userTasks| && userTasks[i].id.GetOr(Num(0)) == userTasks[j].id.GetOr(Num(0))
       ==> i == j) &&
    (forall i :: 0 <= i < |userTasks| ==> userTasks[i].id.GetOr(Num(0)) != RootId)
  }

  /** A user-supplied window boundary, when truthy, or the one found from the tasks. */
  function OrTaskTime(given: Option<int>, fromTasks: int): int
  {
    if given.Some? && given.value != 0 then given.value else fromTasks
  }

  /** The tasks looked up, in the order of their ids. */
  function Lookup(byId: map<Id, Task>, ids: seq<Id>): (r: seq<Task>)
    requires forall k :: 0 <= k < |ids| ==> ids[k] in byId
    ensures |r| == |ids| && forall k :: 0 <= k < |ids| ==> r[k] == byId[ids[k]]
  {
    seq(|ids|, k requires 0 <= k < |ids| => byId[ids[k]])
  }

  /** The state of the loop that normalises the user tasks. */
  ghost predicate Normalising(c: Clock, userTasks: seq<TaskInput>, filled: seq<Task>, i: nat,
                              firstTaskTime: int, lastTaskTime: int)
  {
    i <= |userTasks| && |filled| == |userTasks| &&
    (forall j :: 0 <= j < i ==> Filled(c, userTasks[j], filled[j])) &&
    firstTaskTime == FirstTaskTime(filled[..i]) && lastTaskTime == LastTaskTime(filled[..i])
  }

  lemma NormalisingStep(c: Clock, userTasks: seq<TaskInput>, filled: seq<Task>, i: nat,
                        firstTaskTime: int, lastTaskTime: int, t: Task)
    requires Normalising(c, userTasks, filled, i, firstTaskTime, lastTaskTime) && i < |userTasks|
    requires Filled(c, userTasks[i], t)
    ensures Normalising(c, userTasks, filled[i := t], i + 1,
                        if t.startTime < firstTaskTime then t.startTime else firstTaskTime,
                        if t.startTime + t.duration > lastTaskTime then t.startTime + t.duration else lastTaskTime)
  {
    var next := filled[i := t];
    assert next[..i + 1][..i] == filled[..i];
  }

  /** Normalises the user tasks into a new array and finds their earliest start and latest end. */
  method NormaliseTasks(c: Clock, userTasks: seq<TaskInput>) returns (tasks: array<Task>, firstTaskTime: int, lastTaskTime: int)
    ensures fresh(tasks) && tasks.Length == |userTasks|
    ensures forall j :: 0 <= j < |userTasks| ==> Filled(c, userTasks[j], tasks[j])
    ensures firstTaskTime == FirstTaskTime(tasks[..]) && lastTaskTime == LastTaskTime(tasks[..])
  {
    tasks := new Task[|userTasks|](_ => RootTask);
    firstTaskTime, lastTaskTime := MaxSafeInteger, 0;
    var i := 0;
    while i < |userTasks|
      invariant Normalising(c, userTasks, tasks[..], i, firstTaskTime, lastTaskTime)
    {
      var newTask := FillTask(c, userTasks[i]);
      NormalisingStep(c, userTasks, tasks[..], i, firstTaskTime, lastTaskTime, newTask);
      tasks[i] := newTask;
      if newTask.startTime < firstTaskTime {
        firstTaskTime := newTask.startTime;
      }
      if newTask.startTime + newTask.duration > lastTaskTime {
        lastTaskTime := newTask.startTime + newTask.duration;
      }
      i := i + 1;
    }
    assert tasks[..][..i] == tasks[..];
  }

  /** Normalised tasks with usable ids make a well-formed arena with no tree fields yet. */
  lemma FilledArena(c: Clock, userTasks: seq<TaskInput>, filled: seq<Task>)
    requires IdsUsable(userTasks) && |filled| == |userTasks|
    requires forall j :: 0 <= j < |userTasks| ==> Filled(c, userTasks[j], filled[j])
    ensures Normalised(filled) && WellFormed(Links(filled))
    ensures forall a, b :: 0 <= a < |filled| && 0 <= b < |filled| && filled[a].id == filled[b].id ==> a == b
  {
  }

  /**
   * The extent of the tasks and the rows in display order. The user tasks
   * are normalised and their earliest start and latest end found; the tree is
   * built under the synthetic root; the window runs from the start of the day
   * `before` days ahead of the first time to the end of the day `after` days
   * past the last (a truthy user-supplied time replaces the one found); and
   * the rows are the tasks under the root, in pre-order, with their geometry.
   */
  method Extent(c: Clock, userTasks: seq<TaskInput>, givenFirst: Option<int>, givenLast: Option<int>,
                before: int, after: int, tpp: real, rowHeight: real, gap: real, strokeWidth: real)
    returns (allTasks: seq<Task>, tasksById: map<Id, Task>, firstTime: int, lastTime: int,
             ghost filled: seq<Task>, ghost built: seq<Task>)
    requires IdsUsable(userTasks) && tpp != 0.0
    ensures |filled| == |userTasks| && forall j :: 0 <= j < |userTasks| ==> Filled(c, userTasks[j], filled[j])
    ensures firstTime == c.startOfDay(c.add(OrTaskTime(givenFirst, FirstTaskTime(filled)), -before, Day))
    ensures lastTime == c.endOfDay(c.add(OrTaskTime(givenLast, LastTaskTime(filled)), after, Day))
    ensures Links(built) == Links(filled) && tasksById == TasksById(built)
    ensures BuiltBelow(Links(filled), filled, built, [], |filled|) && UntouchedBelow(Links(filled), filled, built, [], |filled|)
    ensures forall k :: 0 <= k < |PreorderOf(Links(filled), [])| ==> PreorderOf(Links(filled), [])[k] in tasksById
    ensures allTasks == RecalculateTasks(Lookup(tasksById, PreorderOf(Links(filled), [])), firstTime, tpp,
                                         rowHeight, gap, strokeWidth)
    ensures forall x :: (exists k :: 0 <= k < |allTasks| && allTasks[k].id == x) <==> Descends(Links(filled), [], x)
    ensures forall a, b :: 0 <= a < b < |allTasks| ==> allTasks[a].id != allTasks[b].id
  {
    var tasks, firstTaskTime, lastTaskTime := NormaliseTasks(c, userTasks);
    filled := tasks[..];
    FilledArena(c, userTasks, filled);
    ghost var links := Links(filled);
    var root := BuildTaskTree(tasks);
    built := tasks[..];
    firstTime := c.startOfDay(c.add(OrTaskTime(givenFirst, firstTaskTime), -before, Day));
    lastTime := c.endOfDay(c.add(OrTaskTime(givenLast, lastTaskTime), after, Day));
    tasksById := TasksById(tasks[..]);
    ghost var order := root.allChildren;
    RowsFound(links, filled, built, order);
    allTasks := RecalculateTasks(Lookup(tasksById, root.allChildren), firstTime, tpp, rowHeight, gap, strokeWidth);
  }

  /** Every id of the pre-order under the root names a task, and the rows are these tasks, each once. */
  lemma RowsFound(links: seq<Link>, filled: seq<Task>, built: seq<Task>, order: seq<Id>)
    requires Links(built) == links && Links(filled) == links && WellFormed(links) && Distinct(order)
    requires forall x :: x in order <==> Descends(links, [], x)
    ensures forall k :: 0 <= k < |order| ==> order[k] in TasksById(built)
    ensures forall k :: 0 <= k < |order| ==> TasksById(built)[order[k]].id == order[k]
  {
    var byId := TasksById(built);
    forall k | 0 <= k < |order|
      ensures order[k] in byId && byId[order[k]].id == order[k]
    {
      assert order[k] in order;
      var q :| Below(links, [], |links|, q) && links[q[|q| - 1]].id == order[k];
      var j := q[|q| - 1];
      assert built[j].id == links[j].id;
      UniqueIds(links, built);
      TasksByIdFinds(built, j);
    }
  }

  /** Array ids are unique when the links are well formed. */
  lemma UniqueIds(links: seq<Link>, ts: seq<Task>)
    requires Links(ts) == links && WellFormed(links)
    ensures forall a, b :: 0 <= a < |ts| && 0 <= b < |ts| && ts[a].id == ts[b].id ==> a == b
  {
    forall a, b | 0 <= a < |ts| && 0 <= b < |ts| && ts[a].id == ts[b].id
      ensures a == b
    {
      assert links[a].id == ts[a].id && links[b].id == ts[b].id;
    }
  }

  // ---------------------------------------------------------------------
  // Lookup and visibility.

  /** The task with a truthy id that is known, nothing otherwise. */
  function GetTask(byId: map<Id, Task>, id: Option<Id>): (r: Option<Task>)
    ensures r.Some? <==> id.Some? && Truthy(id.value) && id.value in byId
    ensures r.Some? ==> r.value == byId[id.value]
  {
    if id.Some? && Truthy(id.value) && id.value in byId then Some(byId[id.value]) else None
  }

  /** Every task of an arena with unique ids is found by its id, unless the id is falsy. */
  lemma GetTaskFinds(ts: seq<Task>, j: nat)
    requires j < |ts| && forall a, b :: 0 <= a < |ts| && 0 <= b < |ts| && ts[a].id == ts[b].id ==> a == b
    ensures Truthy(ts[j].id) ==> GetTask(TasksById(ts), Some(ts[j].id)) == Some(ts[j])
    ensures !Truthy(ts[j].id) ==> GetTask(TasksById(ts), Some(ts[j].id)) == None
  {
    TasksByIdFinds(ts, j);
  }

  /** The ancestor with this id is found and is collapsed. */
  predicate CollapsedIn(byId: map<Id, Task>, id: Id)
  {
    var t := GetTask(byId, Some(id));
    t.Some? && t.value.collapsed
  }

  /** A task is shown when none of its ancestors is found collapsed. */
  predicate Visible(byId: map<Id, Task>, t: Task)
  {
    forall i :: 0 <= i < |t.parents| ==> !CollapsedIn(byId, t.parents[i])
  }

  /** What visibility is asked of: a task, or the id of one. */
  datatype TaskRef = ById(id: Id) | Direct(task: Task)

  /** The task asked about; None where the id finds nothing and reading its parents would fail. */
  function Resolve(byId: map<Id, Task>, ref: TaskRef): Option<Task>
  {
    match ref
    case Direct(t) => Some(t)
    case ById(id) => GetTask(byId, Some(id))
  }

  /**
   * Visibility of a task or of the task with an id: false at the first
   * ancestor found collapsed. None where an id finds no task.
   */
  method IsTaskVisible(byId: map<Id, Task>, ref: TaskRef) returns (r: Option<bool>)
    ensures Resolve(byId, ref).None? ==> r.None?
    ensures Resolve(byId, ref).Some? ==> r == Some(Visible(byId, Resolve(byId, ref).value))
  {
    var found := Resolve(byId, ref);
    if found.None? {
      return None;
    }
    var task := found.value;
    var i := 0;
    while i < |task.parents|
      invariant i <= |task.parents|
      invariant forall k :: 0 <= k < i ==> !CollapsedIn(byId, task.parents[k])
    {
      var parent := GetTask(byId, Some(task.parents[i]));
      if parent.Some? && parent.value.collapsed {
        return Some(false);
      }
      i := i + 1;
    }
    return Some(true);
  }

  /** A task whose ancestors include all of another's, and which is shown, shows the other too. */
  lemma VisibleInherited(byId: map<Id, Task>, ancestor: Task, descendant: Task)
    requires forall x :: x in ancestor.parents ==> x in descendant.parents
    requires Visible(byId, descendant)
    ensures Visible(byId, ancestor)
  {
    forall i | 0 <= i < |ancestor.parents|
      ensures !CollapsedIn(byId, ancestor.parents[i])
    {
      var x := ancestor.parents[i];
      assert x in descendant.parents;
      var k :| 0 <= k < |descendant.parents| && descendant.parents[k] == x;
    }
  }

  /** Collapsing a task hides every task built below it. */
  lemma CollapsedHidesDescendants(links: seq<Link>, ts: seq<Task>, out: seq<Task>, byId: map<Id, Task>,
                                  q: seq<nat>, r: seq<nat>)
    requires BuiltBelow(links, ts, out, [], |links|) && Below(links, [], |links|, r)
    requires 0 < |q| < |r| && r[..|q|] == q
    requires CollapsedIn(byId, links[q[|q| - 1]].id)
    ensures !Visible(byId, out[r[|r| - 1]])
  {
    assert r[..0] == [];
    var u := out[r[|r| - 1]];
    assert u.parents == IdsOf(links, r[..|r| - 1]);
    assert r[|q| - 1] == q[|q| - 1];
    assert u.parents[|q| - 1] == links[q[|q| - 1]].id;
  }

  /** The lookup after the tasks with the given ids are set collapsed. */
  function CollapseAll(byId: map<Id, Task>, ids: set<Id>): (r: map<Id, Task>)
    ensures r.Keys == byId.Keys
    ensures forall x :: x in byId ==> r[x] == if x in ids then byId[x].(collapsed := true) else byId[x]
  {
    map x | x in byId :: if x in ids then byId[x].(collapsed := true) else byId[x]
  }

  /** Collapsing more tasks never shows a task that was hidden. */
  lemma CollapsingKeepsHidden(byId: map<Id, Task>, ids: set<Id>, t: Task)
    requires !Visible(byId, t)
    ensures !Visible(CollapseAll(byId, ids), t)
  {
    var i :| 0 <= i < |t.parents| && CollapsedIn(byId, t.parents[i]);
    assert CollapsedIn(CollapseAll(byId, ids), t.parents[i]);
  }

  /** The shown tasks, in order: lodash's filter by visibility. */
  function VisibleTasks(byId: map<Id, Task>, tasks: seq<Task>): (r: seq<Task>)
    ensures |r| <= |tasks|
    ensures forall k :: 0 <= k < |r| ==> r[k] in tasks && Visible(byId, r[k])
  {
    if tasks == [] then []
    else
      var rest := VisibleTasks(byId, tasks[..|tasks| - 1]);
      assert forall k :: 0 <= k < |rest| ==> rest[k] in tasks[..|tasks| - 1];
      if Visible(byId, tasks[|tasks| - 1]) then rest + [tasks[|tasks| - 1]] else rest
  }

  /** The filter distributes over concatenation, so order is kept. */
  lemma {:induction false} VisibleTasksAppend(byId: map<Id, Task>, a: seq<Task>, b: seq<Task>)
    ensures VisibleTasks(byId, a + b) == VisibleTasks(byId, a) + VisibleTasks(byId, b)
    decreases |b|
  {
    if b == [] {
      assert a + b == a;
    } else {
      assert (a + b)[..|a + b| - 1] == a + b[..|b| - 1];
      VisibleTasksAppend(byId, a, b[..|b| - 1]);
    }
  }

  /** Every shown task is kept. */
  lemma {:induction false} VisibleTasksKeepsAll(byId: map<Id, Task>, tasks: seq<Task>)
    ensures forall t :: t in tasks && Visible(byId, t) ==> t in VisibleTasks(byId, tasks)
  {
    if tasks != [] {
      var init := tasks[..|tasks| - 1];
      VisibleTasksKeepsAll(byId, init);
      forall t | t in tasks && Visible(byId, t)
        ensures t in VisibleTasks(byId, tasks)
      {
        if t != tasks[|tasks| - 1] {
          var k :| 0 <= k < |tasks| && tasks[k] == t;
          assert init[k] == t;
        }
      }
    }
  }

  // ---------------------------------------------------------------------
  // Heights of the visible part.

  /** Array.prototype.slice(0, n) on a list: a negative end counts from the back. */
  function SliceTo<T>(s: seq<T>, n: int): (r: seq<T>)
    ensures r == s[..if n < 0 then (if |s| + n < 0 then 0 else |s| + n) else (if n > |s| then |s| else n)]
  {
    var end := if n < 0 then (if |s| + n < 0 then 0 else |s| + n) else (if n > |s| then |s| else n);
    s[..end]
  }

  /** The heights derived from the visible tasks. */
  datatype Heights = Heights(visibleTasks: seq<Task>, rows: seq<Task>, rowsHeight: real, clientHeight: real,
                             allVisibleTasksHeight: real, outerHeight: real, scrollBarHeight: real)

  /** The option values the heights are computed from. */
  datatype HeightOptions = HeightOptions(maxRows: int, maxHeight: real, rowHeight: real, gap: real,
                                         calendarGap: real, calendarStrokeWidth: real, strokeWidth: real)

  /**
   * The visible tasks, the first `maxRows` of them as rows, and the heights:
   * the rows' height is capped at a truthy `maxHeight`, and the client and
   * outer heights lose what the cap took off.
   */
  function ComputeHeights(byId: map<Id, Task>, allTasks: seq<Task>, o: HeightOptions, calendarHeight: real,
                          scrollBarHeight: real): (r: Heights)
    ensures r.visibleTasks == VisibleTasks(byId, allTasks) && r.rows == SliceTo(r.visibleTasks, o.maxRows)
    ensures r.allVisibleTasksHeight == TasksHeight(r.visibleTasks, o.rowHeight, o.gap, o.strokeWidth)
    ensures r.scrollBarHeight == scrollBarHeight
  {
    var visibleTasks := VisibleTasks(byId, allTasks);
    var rows := SliceTo(visibleTasks, o.maxRows);
    var rowsHeight := TasksHeight(rows, o.rowHeight, o.gap, o.strokeWidth);
    var compensation := if o.maxHeight != 0.0 && rowsHeight > o.maxHeight then rowsHeight - o.maxHeight else 0.0;
    var rowsHeight' := if o.maxHeight != 0.0 && rowsHeight > o.maxHeight then o.maxHeight else rowsHeight;
    var clientHeight := GetHeight(rows, o.rowHeight, o.gap, o.calendarGap, o.calendarStrokeWidth, calendarHeight,
                                  scrollBarHeight, false) - compensation;
    var outerHeight := GetHeight(rows, o.rowHeight, o.gap, o.calendarGap, o.calendarStrokeWidth, calendarHeight,
                                 scrollBarHeight, true) - compensation;
    Heights(visibleTasks, rows, rowsHeight', clientHeight, TasksHeight(visibleTasks, o.rowHeight, o.gap, o.strokeWidth),
            outerHeight, scrollBarHeight)
  }

  /**
   * The rows' height is theirs, capped at a truthy maximum; the client height
   * is the rows' height plus the calendar, its stroke and its gap, whether
   * capped or not; the outer height adds the scroll bar.
   */
  lemma HeightsAgree(byId: map<Id, Task>, allTasks: seq<Task>, o: HeightOptions, calendarHeight: real,
                     scrollBarHeight: real)
    ensures var h := ComputeHeights(byId, allTasks, o, calendarHeight, scrollBarHeight);
      var natural := TasksHeight(h.rows, o.rowHeight, o.gap, o.strokeWidth);
      (o.maxHeight != 0.0 && natural > o.maxHeight ==> h.rowsHeight == o.maxHeight) &&
      (o.maxHeight == 0.0 || natural <= o.maxHeight ==> h.rowsHeight == natural) &&
      h.clientHeight == h.rowsHeight + calendarHeight + o.calendarStrokeWidth + o.calendarGap &&
      h.outerHeight == h.clientHeight + scrollBarHeight &&
      |h.rows| <= |h.visibleTasks| && (0 <= o.maxRows ==> |h.rows| <= o.maxRows)
  {
  }

  // ---------------------------------------------------------------------
  // Pixels, times and scrolling.

  /** The instant at a pixel offset of the chart, measured from the middle of a vertical grid line. */
  function PixelOffsetXToTime(px: real, strokeWidth: int, tpp: real, firstTime: int): (r: real)
    ensures tpp != 0.0 ==> (r - firstTime as real) / tpp == px + (strokeWidth as real) / 2.0
    ensures px == -(strokeWidth as real) / 2.0 ==> r == firstTime as real
  {
    (px + (strokeWidth as real) / 2.0) * tpp + (firstTime as real)
  }

  /**
   * Converting a pixel offset to a time and back gives the offset moved by
   * half a grid line, the two conversions being measured from different
   * origins.
   */
  lemma PixelTimeRoundTrip(px: real, strokeWidth: int, tpp: real, firstTime: int, ms: real)
    requires tpp != 0.0 && PixelOffsetXToTime(px, strokeWidth, tpp, firstTime) == ms
    ensures TimeToPixelOffsetX(ms, firstTime, tpp) == px + (strokeWidth as real) / 2.0
  {
    var r := TimeToPixelOffsetX(ms, firstTime, tpp);
    assert r * tpp == (px + (strokeWidth as real) / 2.0) * tpp;
  }

  /** A later pixel offset is a later time when the scale is positive. */
  lemma PixelToTimeMonotone(a: real, b: real, strokeWidth: int, tpp: real, firstTime: int)
    requires tpp > 0.0 && a <= b
    ensures PixelOffsetXToTime(a, strokeWidth, tpp, firstTime) <= PixelOffsetXToTime(b, strokeWidth, tpp, firstTime)
  {
    assert (b - a) * tpp >= 0.0;
  }

  /** dayjs(t).valueOf() of a fractional instant: Date keeps the integral part, toward zero. */
  function TruncateMs(t: real): (r: int)
    ensures t >= 0.0 ==> r as real <= t < r as real + 1.0
    ensures t < 0.0 ==> r as real - 1.0 < t <= r as real
  {
    if t >= 0.0 then t.Floor else -((-t).Floor)
  }

  /** What the chart asks the browser to scroll to; an absent axis is left alone. */
  datatype ScrollRequest = ScrollRequest(left: Option<real>, top: Option<real>)

  /** The measurements the chart scroll handler reads from the page. */
  datatype ScrollView = ScrollView(containerWidth: Option<real>, chartClientWidth: real, totalViewDurationPx: real,
                                   strokeWidth: int, tpp: real, firstTime: int)

  /** The scroll payload the chart scroll handler dispatches for a new position. */
  function ScrollPayload(left: real, top: real, v: ScrollView): Json
    requires v.totalViewDurationPx != 0.0
  {
    var w := v.containerWidth.GetOr(0.0);
    var time := PixelOffsetXToTime(left, v.strokeWidth, v.tpp, v.firstTime);
    var dateTime := JObject(map[
      "left" := JNumber(TruncateMs(time) as real),
      "right" := JNumber(TruncateMs(PixelOffsetXToTime(left + v.chartClientWidth, v.strokeWidth, v.tpp, v.firstTime)) as real)]);
    var chart := JObject(map[
      "left" := JNumber(left), "right" := JNumber(left + w), "percent" := JNumber(left / v.totalViewDurationPx * 100.0),
      "top" := JNumber(top), "time" := JNumber(time),
      "timeCenter" := JNumber(PixelOffsetXToTime(left + w / 2.0, v.strokeWidth, v.tpp, v.firstTime)),
      "dateTime" := dateTime]);
    JObject(map["scroll" := JObject(map["top" := JNumber(top), "left" := JNumber(left), "chart" := chart])])
  }

  /** A path of three keys reads three nested objects. */
  lemma GetInThree(a: Json, x: string, y: string, z: string)
    requires a.JObject? && x in a.fields && a.fields[x].JObject? && y in a.fields[x].fields
    requires a.fields[x].fields[y].JObject? && z in a.fields[x].fields[y].fields
    ensures GetIn(a, [x, y, z]) == Some(a.fields[x].fields[y].fields[z])
  {
    assert [x, y, z][1..] == [y, z];
    assert [y, z][1..] == [z];
    assert [z][1..] == [];
    var b, c := a.fields[x], a.fields[x].fields[y];
    assert GetIn(c, [z]) == GetIn(c.fields[z], []);
    assert GetIn(b, [y, z]) == GetIn(c, [z]);
    assert GetIn(a, [x, y, z]) == GetIn(b, [y, z]);
  }

  /** The payload holds the position and the derived fields at their paths. */
  lemma ScrollPayloadReads(left: real, top: real, v: ScrollView)
    requires v.totalViewDurationPx != 0.0
    ensures var p := ScrollPayload(left, top, v);
      GetIn(p, ["scroll", "chart", "left"]) == Some(JNumber(left)) &&
      GetIn(p, ["scroll", "chart", "top"]) == Some(JNumber(top)) &&
      GetIn(p, ["scroll", "chart", "time"]) == Some(JNumber(PixelOffsetXToTime(left, v.strokeWidth, v.tpp, v.firstTime))) &&
      GetIn(p, ["scroll", "chart", "right"]) == Some(JNumber(left + v.containerWidth.GetOr(0.0))) &&
      GetIn(p, ["scroll", "chart", "percent"]) == Some(JNumber(left / v.totalViewDurationPx * 100.0))
  {
    var p := ScrollPayload(left, top, v);
    GetInThree(p, "scroll", "chart", "percent");
    GetInThree(p, "scroll", "chart", "left");
    GetInThree(p, "scroll", "chart", "top");
    GetInThree(p, "scroll", "chart", "time");
    GetInThree(p, "scroll", "chart", "right");
  }

  /** The chart's recorded position is exactly this one. */
  predicate AtPosition(state: Json, left: real, top: real)
  {
    GetIn(state, ["scroll", "chart", "left"]) == Some(JNumber(left)) &&
    GetIn(state, ["scroll", "chart", "top"]) == Some(JNumber(top))
  }

  /**
   * The chart scroll handler: nothing when the position is the recorded one;
   * otherwise the derived scroll fields are dispatched and the browser is
   * asked to scroll both axes there.
   */
  function OnScrollChart(state: Json, left: real, top: real, v: ScrollView): (r: (Json, Option<ScrollRequest>))
    requires v.totalViewDurationPx != 0.0
    ensures AtPosition(state, left, top) ==> r == (state, None)
    ensures !AtPosition(state, left, top) ==>
      r == (Reduce(state, Action("", ScrollPayload(left, top, v))), Some(ScrollRequest(Some(left), Some(top))))
  {
    if AtPosition(state, left, top) then (state, None)
    else (Reduce(state, Action("", ScrollPayload(left, top, v))), Some(ScrollRequest(Some(left), Some(top))))
  }

  /**
   * After the handler the state records the new position and its derived
   * fields, so a second call with the same position does nothing.
   */
  lemma OnScrollChartSettles(state: Json, left: real, top: real, v: ScrollView)
    requires v.totalViewDurationPx != 0.0
    ensures var s := OnScrollChart(state, left, top, v).0;
      AtPosition(s, left, top) &&
      (!AtPosition(state, left, top) ==>
        GetIn(s, ["scroll", "chart", "time"]) == Some(JNumber(PixelOffsetXToTime(left, v.strokeWidth, v.tpp, v.firstTime))) &&
        GetIn(s, ["scroll", "chart", "right"]) == Some(JNumber(left + v.containerWidth.GetOr(0.0)))) &&
      OnScrollChart(s, left, top, v) == (s, None)
  {
    if !AtPosition(state, left, top) {
      var p := ScrollPayload(left, top, v);
      ScrollPayloadReads(left, top, v);
      MergeReadsPayload(state, p, ["scroll", "chart", "left"], JNumber(left));
      MergeReadsPayload(state, p, ["scroll", "chart", "top"], JNumber(top));
      MergeReadsPayload(state, p, ["scroll", "chart", "time"],
                        JNumber(PixelOffsetXToTime(left, v.strokeWidth, v.tpp, v.firstTime)));
      MergeReadsPayload(state, p, ["scroll", "chart", "right"], JNumber(left + v.containerWidth.GetOr(0.0)));
    }
  }

  /**
   * Scroll to an instant: centre it in the container, but when that lies past
   * the chart's width jump to the chart's width less the container's. Nothing
   * happens without a container. The instant may be fractional, as the
   * centre the scroll handler stores is.
   */
  function ScrollToTime(time: real, containerWidth: Option<real>, chartWidth: real, firstTime: int, tpp: real): (r: Option<real>)
    requires tpp != 0.0
    ensures containerWidth.None? <==> r.None?
  {
    if containerWidth.None? then None
    else
      var pos := TimeToPixelOffsetX(time, firstTime, tpp) - containerWidth.value / 2.0;
      Some(if pos > chartWidth then chartWidth - containerWidth.value else pos)
  }

  /**
   * The instant is centred unless its centred position lies past the chart's
   * width, and the position asked for never lies past the chart's width.
   */
  lemma ScrollToTimeCentres(time: real, w: real, chartWidth: real, firstTime: int, tpp: real)
    requires tpp != 0.0 && w >= 0.0
    ensures var r := ScrollToTime(time, Some(w), chartWidth, firstTime, tpp).value;
      var centred := TimeToPixelOffsetX(time, firstTime, tpp) - w / 2.0;
      r <= chartWidth && (centred <= chartWidth ==> r == centred) && (centred > chartWidth ==> r == chartWidth - w)
  {
  }

  /**
   * There is no lower bound and the upper one is the chart's width, not the
   * chart's width less the container's: an instant at the window start asks
   * for a negative position, and one near the end for a position that shows
   * space past the chart's right edge.
   */
  lemma ScrollToTimeUnclamped()
    ensures ScrollToTime(0.0, Some(100.0), 1000.0, 0, 1.0) == Some(-50.0)
    ensures ScrollToTime(1000.0, Some(100.0), 1000.0, 0, 1.0) == Some(950.0) && 950.0 > 1000.0 - 100.0
  {
  }

  /**
   * Re-centring after the scale changed: scroll to the instant the scroll
   * handler stored as the centre of the container. Nothing happens while the
   * state holds no number there.
   */
  function FixScrollPos(state: Json, containerWidth: Option<real>, chartWidth: real, firstTime: int, tpp: real)
    : (r: Option<real>)
    requires tpp != 0.0
    ensures (GetIn(state, ["scroll", "chart", "timeCenter"]).Some? &&
             GetIn(state, ["scroll", "chart", "timeCenter"]).value.JNumber? && containerWidth.Some?) <==> r.Some?
    ensures r.Some? ==>
      var c := GetIn(state, ["scroll", "chart", "timeCenter"]).value.n;
      var centred := TimeToPixelOffsetX(c, firstTime, tpp) - containerWidth.value / 2.0;
      r.value == (if centred > chartWidth then chartWidth - containerWidth.value else centred)
  {
    match GetIn(state, ["scroll", "chart", "timeCenter"])
    case Some(JNumber(c)) => ScrollToTime(c, containerWidth, chartWidth, firstTime, tpp)
    case _ => None
  }

  /**
   * After the scroll handler has recorded a position, re-centring under any
   * new scale puts the recorded centre instant back in the middle of the
   * container, unless the chart-width clamp applies; the instant read there
   * is half a grid stroke later, as in `PixelTimeRoundTrip`.
   */
  lemma FixScrollPosKeepsCentre(state: Json, left: real, top: real, v: ScrollView, chartWidth: real, tpp': real)
    requires v.totalViewDurationPx != 0.0 && v.containerWidth.Some? && tpp' != 0.0
    requires !AtPosition(state, left, top)
    ensures var s := OnScrollChart(state, left, top, v).0;
      var w := v.containerWidth.value;
      var c := PixelOffsetXToTime(left + w / 2.0, v.strokeWidth, v.tpp, v.firstTime);
      var pos := FixScrollPos(s, v.containerWidth, chartWidth, v.firstTime, tpp');
      pos.Some? &&
      (TimeToPixelOffsetX(c, v.firstTime, tpp') - w / 2.0 <= chartWidth ==>
         PixelOffsetXToTime(pos.value + w / 2.0, v.strokeWidth, tpp', v.firstTime) ==
           c + (v.strokeWidth as real) / 2.0 * tpp')
  {
    var w := v.containerWidth.value;
    var c := PixelOffsetXToTime(left + w / 2.0, v.strokeWidth, v.tpp, v.firstTime);
    var p := ScrollPayload(left, top, v);
    GetInThree(p, "scroll", "chart", "timeCenter");
    MergeReadsPayload(state, p, ["scroll", "chart", "timeCenter"], JNumber(c));
    var x := TimeToPixelOffsetX(c, v.firstTime, tpp');
    assert x * tpp' == c - v.firstTime as real;
    calc {
      PixelOffsetXToTime(x - w / 2.0 + w / 2.0, v.strokeWidth, tpp', v.firstTime);
      (x + (v.strokeWidth as real) / 2.0) * tpp' + v.firstTime as real;
      x * tpp' + (v.strokeWidth as real) / 2.0 * tpp' + v.firstTime as real;
      c + (v.strokeWidth as real) / 2.0 * tpp';
    }
  }

  /** A wheel event: the shift key and the two deltas. */
  datatype Wheel = Wheel(shiftKey: bool, deltaX: real, deltaY: real)

  /** The clamp of the wheel handler: below 0 gives 0, otherwise above `max` gives `max`. */
  function ClampLowFirst(x: real, max: real): (r: real)
    ensures max >= 0.0 ==> 0.0 <= r <= max
    ensures max < 0.0 ==> r == 0.0 || r == max
    ensures 0.0 <= x <= max ==> r == x
  {
    if x < 0.0 then 0.0 else if x > max then max else x
  }

  /** The page measurements the wheel handler reads; absent elements are None. */
  datatype WheelView = WheelView(scrollTop: real, scrollLeft: real, rowsHeight: real, graphScrollHeight: Option<real>,
                                 horizontalClientWidth: Option<real>, horizontalScrollWidth: Option<real>)

  /**
   * The wheel handler. A plain vertical wheel scrolls the rows, up to the
   * graph's scroll height (or, without the graph, to minus the rows' height:
   * the widget's `a ?? 0 - b` groups as `a ?? (0 - b)`); a shifted vertical
   * wheel scrolls sideways by the vertical delta; any horizontal delta
   * scrolls sideways by itself. Sideways scrolling stops at the scroll width
   * less the client width.
   */
  function OnWheelChart(ev: Wheel, v: WheelView): (r: ScrollRequest)
    ensures !ev.shiftKey && ev.deltaX == 0.0 ==>
      r == ScrollRequest(None, Some(ClampLowFirst(v.scrollTop + ev.deltaY, v.graphScrollHeight.GetOr(0.0 - v.rowsHeight))))
    ensures ev.shiftKey && ev.deltaX == 0.0 ==>
      r == ScrollRequest(Some(ClampLowFirst(v.scrollLeft + ev.deltaY,
                                            v.horizontalScrollWidth.GetOr(0.0) - v.horizontalClientWidth.GetOr(0.0))), None)
    ensures ev.deltaX != 0.0 ==>
      r == ScrollRequest(Some(ClampLowFirst(v.scrollLeft + ev.deltaX,
                                            v.horizontalScrollWidth.GetOr(0.0) - v.horizontalClientWidth.GetOr(0.0))), None)
  {
    var clientWidth := v.horizontalClientWidth.GetOr(0.0);
    var scrollWidth := v.horizontalScrollWidth.GetOr(0.0);
    if !ev.shiftKey && ev.deltaX == 0.0 then
      var top := v.scrollTop + ev.deltaY;
      var scrollHeight := v.graphScrollHeight.GetOr(0.0 - v.rowsHeight);
      ScrollRequest(None, Some(if top < 0.0 then 0.0 else if top > scrollHeight then scrollHeight else top))
    else if ev.shiftKey && ev.deltaX == 0.0 then
      var left := v.scrollLeft + ev.deltaY;
      var max := scrollWidth - clientWidth;
      ScrollRequest(Some(if left < 0.0 then 0.0 else if left > max then max else left), None)
    else
      var left := v.scrollLeft + ev.deltaX;
      var max := scrollWidth - clientWidth;
      ScrollRequest(Some(if left < 0.0 then 0.0 else if left > max then max else left), None)
  }

  /**
   * Each wheel event scrolls exactly one axis, within [0, extent] whenever
   * the extent is not negative; without the graph element the vertical
   * extent is negative for any rows and the position asked for is 0 or below.
   */
  lemma WheelScrollsOneAxis(ev: Wheel, v: WheelView)
    ensures var r := OnWheelChart(ev, v);
      (r.left.Some? <==> r.top.None?) &&
      (r.top.Some? && v.graphScrollHeight.Some? && v.graphScrollHeight.value >= 0.0 ==>
         0.0 <= r.top.value <= v.graphScrollHeight.value) &&
      (r.top.Some? && v.graphScrollHeight.None? && v.rowsHeight > 0.0 ==> r.top.value <= 0.0) &&
      (r.left.Some? && v.horizontalScrollWidth.GetOr(0.0) >= v.horizontalClientWidth.GetOr(0.0) ==>
         0.0 <= r.left.value <= v.horizontalScrollWidth.GetOr(0.0) - v.horizontalClientWidth.GetOr(0.0))
  {
  }
}
