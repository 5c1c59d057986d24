/**
 * Dependency connectors: the SVG path drawn from the right edge of a task to
 * the left edge of a task that depends on it, and the choice of the tasks
 * whose connectors are computed.
 */
module Dependencies {
  import opened Base
  import opened Tasks
  import opened Gantt

  /** The horizontal run out of the source task before the path turns. */
  const Offset: real := 10.0

  /** The size of every rounded corner. */
  const Roundness: real := 4.0

  /** How far the path goes up or down, and in which direction: 1 down, -1 up. */
  datatype Vertical = Vertical(distanceY: real, yMultiplier: real)

  function VerticalOf(startY: real, stopY: real): (r: Vertical)
    ensures r.distanceY >= 0.0 && (r.yMultiplier == 1.0 || r.yMultiplier == -1.0)
    ensures startY + r.distanceY * r.yMultiplier == stopY
    ensures r.yMultiplier == 1.0 <==> stopY >= startY
  {
    if stopY >= startY then Vertical(stopY - startY, 1.0) else Vertical(startY - stopY, -1.0)
  }

  /** A target at most offset plus roundness to the right is reached by a path that doubles back. */
  predicate IsBefore(distanceX: real)
  {
    distanceX <= Offset + Roundness
  }

  /**
   * The path that doubles back: out of the source, down (or up) to half the
   * vertical distance, back to the left of the target, then down (or up)
   * again and into the target.
   */
  function BeforeRoute(startX: real, startY: real, stopX: real, stopY: real, v: Vertical): seq<Segment>
  {
    var distanceX := stopX - startX;
    var ym := v.yMultiplier;
    var midY := startY + (v.distanceY * ym) / 2.0;
    var outX := startX + Offset + Roundness;
    var backX := startX - Offset + distanceX;
    [Move(Point(startX, startY)),
     Line(Point(startX + Offset, startY)),
     Quad(Point(outX, startY), Point(outX, startY + Roundness * ym)),
     Line(Point(outX, midY - Roundness * ym)),
     Quad(Point(outX, midY), Point(startX + Offset, midY)),
     Line(Point(backX, midY)),
     Quad(Point(backX - Roundness, midY), Point(backX - Roundness, midY + Roundness * ym)),
     Line(Point(backX - Roundness, stopY - Roundness * ym)),
     Quad(Point(backX - Roundness, stopY), Point(backX, stopY)),
     Line(Point(stopX, stopY))]
  }

  /** The path forward: out of the source, down (or up) halfway across, and into the target. */
  function ForwardRoute(startX: real, startY: real, stopX: real, stopY: real, v: Vertical): seq<Segment>
  {
    var distanceX := stopX - startX;
    var ym := v.yMultiplier;
    var midX := startX + distanceX / 2.0;
    [Move(Point(startX, startY)),
     Line(Point(startX + Offset, startY)),
     Line(Point(midX - Roundness, startY)),
     Quad(Point(midX, startY), Point(midX, startY + Roundness * ym)),
     Line(Point(midX, stopY - Roundness * ym)),
     Quad(Point(midX, stopY), Point(midX + Roundness, stopY)),
     Line(Point(stopX, stopY))]
  }

  /** Where a connector leaves a task: the middle of its right edge. */
  function StartOf(t: Task): Point
  {
    Point(t.x + t.width, t.y + t.height / 2.0)
  }

  /** Where a connector enters a task: the middle of its left edge. */
  function StopOf(t: Task): Point
  {
    Point(t.x, t.y + t.height / 2.0)
  }

  /**
   * The connector from one task to another: none when the lookups are not
   * provided, when either id names no task, or when either task is hidden.
   * A drawn connector starts at the source's right edge, runs the offset to
   * the right, and ends with a line into the target's left edge; it doubles
   * back (ten segments) exactly when the target starts at most offset plus
   * roundness to the right, and goes forward (seven segments) otherwise.
   */
  function GetPoints(byId: map<Id, Task>, fromTaskId: Id, toTaskId: Id, hasLookups: bool): (r: Option<seq<Segment>>)
    ensures r.None? <==>
      !hasLookups || GetTask(byId, Some(fromTaskId)).None? || GetTask(byId, Some(toTaskId)).None? ||
      !Visible(byId, byId[toTaskId]) || !Visible(byId, byId[fromTaskId])
    ensures r.Some? ==>
      var start := StartOf(byId[fromTaskId]);
      var stop := StopOf(byId[toTaskId]);
      var segs := r.value;
      |segs| >= 3 && segs[0] == Move(start) && segs[1] == Line(Point(start.x + Offset, start.y)) &&
      segs[|segs| - 1] == Line(stop) &&
      (|segs| == 10 <==> stop.x - start.x <= 14.0) && (|segs| == 7 <==> stop.x - start.x > 14.0)
  {
    if !hasLookups then None
    else
      var fromTask := GetTask(byId, Some(fromTaskId));
      var toTask := GetTask(byId, Some(toTaskId));
      if fromTask.None? || toTask.None? || !Visible(byId, toTask.value) || !Visible(byId, fromTask.value) then None
      else
        var start := StartOf(fromTask.value);
        var stop := StopOf(toTask.value);
        var v := VerticalOf(start.y, stop.y);
        if IsBefore(stop.x - start.x) then Some(BeforeRoute(start.x, start.y, stop.x, stop.y, v))
        else Some(ForwardRoute(start.x, start.y, stop.x, stop.y, v))
  }

  /** The end point of a segment. */
  function EndOf(s: Segment): Point
  {
    match s
    case Move(p) => p
    case Line(p) => p
    case Quad(_, p) => p
  }

  /** Every point a segment names, its control point included, lies between lo and hi horizontally. */
  predicate WithinX(s: Segment, lo: real, hi: real)
  {
    match s
    case Move(p) => lo <= p.x <= hi
    case Line(p) => lo <= p.x <= hi
    case Quad(c, p) => lo <= c.x <= hi && lo <= p.x <= hi
  }

  /**
   * The forward path turns at half the horizontal distance, and every point
   * of it, control points included, lies between the source's right edge
   * and the target's left edge.
   */
  lemma ForwardRouteWithin(startX: real, startY: real, stopX: real, stopY: real)
    requires !IsBefore(stopX - startX)
    ensures var r := ForwardRoute(startX, startY, stopX, stopY, VerticalOf(startY, stopY));
      EndOf(r[3]).x == startX + (stopX - startX) / 2.0 && EndOf(r[4]).x == startX + (stopX - startX) / 2.0 &&
      forall i :: 0 <= i < |r| ==> WithinX(r[i], startX, stopX)
  {
    var r := ForwardRoute(startX, startY, stopX, stopY, VerticalOf(startY, stopY));
    var midX := startX + (stopX - startX) / 2.0;
    assert startX + Offset <= stopX;
    assert startX <= midX - Roundness && midX + Roundness <= stopX;
    forall i | 0 <= i < |r|
      ensures WithinX(r[i], startX, stopX)
    {
    }
  }

  /**
   * The path that doubles back reaches the middle height between the tasks
   * on its horizontal run, and its vertical legs run from the start's height
   * and into the stop's height.
   */
  lemma BeforeRouteHeights(startX: real, startY: real, stopX: real, stopY: real)
    ensures var v := VerticalOf(startY, stopY);
      var r := BeforeRoute(startX, startY, stopX, stopY, v);
      var midY := (startY + stopY) / 2.0;
      EndOf(r[4]).y == midY && EndOf(r[5]).y == midY &&
      EndOf(r[2]).y == startY + Roundness * v.yMultiplier && EndOf(r[7]).y == stopY - Roundness * v.yMultiplier &&
      EndOf(r[8]) == Point(stopX - Offset, stopY)
  {
    var v := VerticalOf(startY, stopY);
    assert startY + (v.distanceY * v.yMultiplier) / 2.0 == (startY + stopY) / 2.0;
  }

  // ---------------------------------------------------------------------
  // Tasks whose connectors are computed

  /** JavaScript truthiness of a dependency list: any array, even an empty one, is truthy. */
  predicate DependentOnTruthy(t: Task)
  {
    t.dependentOn.Some?
  }

  /** The connectors into a task, one per id it depends on; lodash's map of a missing list is empty. */
  function LinesInto(byId: map<Id, Task>, t: Task, hasLookups: bool): (r: seq<DependencyLine>)
    ensures t.dependentOn.None? ==> r == []
    ensures t.dependentOn.Some? ==> |r| == |t.dependentOn.value|
    ensures t.dependentOn.Some? ==> forall i :: 0 <= i < |r| ==>
      r[i] == DependencyLine(GetPoints(byId, t.dependentOn.value[i], t.id, hasLookups), t.dependentOn.value[i])
  {
    match t.dependentOn
    case None => []
    case Some(ids) =>
      seq(|ids|, i requires 0 <= i < |ids| => DependencyLine(GetPoints(byId, ids[i], t.id, hasLookups), ids[i]))
  }

  /**
   * The tasks without a dependency list, in order, each given its connectors;
   * the final filter on the connector list keeps every task, as every array
   * is truthy.
   */
  function DependencyTasks(byId: map<Id, Task>, allTasks: seq<Task>, hasLookups: bool): (r: seq<Task>)
    ensures |r| <= |allTasks|
    ensures forall i :: 0 <= i < |r| ==> !DependentOnTruthy(r[i]) && r[i].dependencyLines == []
  {
    if allTasks == [] then []
    else
      var rest := DependencyTasks(byId, allTasks[..|allTasks| - 1], hasLookups);
      var t := allTasks[|allTasks| - 1];
      if DependentOnTruthy(t) then rest else rest + [t.(dependencyLines := LinesInto(byId, t, hasLookups))]
  }

  /**
   * The selection keeps exactly the tasks without a dependency list: a task
   * is selected, with its connectors cleared, if and only if it has none.
   */
  lemma {:induction false} DependencyTasksSelects(byId: map<Id, Task>, allTasks: seq<Task>, hasLookups: bool)
    ensures var r := DependencyTasks(byId, allTasks, hasLookups);
      (forall i :: 0 <= i < |r| ==> exists j :: 0 <= j < |allTasks| && r[i] == allTasks[j].(dependencyLines := [])) &&
      (forall j :: 0 <= j < |allTasks| && !DependentOnTruthy(allTasks[j]) ==> allTasks[j].(dependencyLines := []) in r)
  {
    if allTasks != [] {
      var init := allTasks[..|allTasks| - 1];
      DependencyTasksSelects(byId, init, hasLookups);
      assert forall j :: 0 <= j < |init| ==> init[j] == allTasks[j];
    }
  }

  /**
   * Every normalised task carries a dependency list (empty by default), so
   * among normalised tasks none is selected and no connector is ever drawn.
   */
  lemma {:induction false} FilledTasksSelectNothing(byId: map<Id, Task>, allTasks: seq<Task>, hasLookups: bool)
    requires forall j :: 0 <= j < |allTasks| ==> allTasks[j].dependentOn.Some?
    ensures DependencyTasks(byId, allTasks, hasLookups) == []
  {
    if allTasks != [] {
      FilledTasksSelectNothing(byId, allTasks[..|allTasks| - 1], hasLookups);
    }
  }
}
