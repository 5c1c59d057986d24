/**
 * The expander: the box with a minus (or a plus, when collapsed) drawn
 * before a task in the task list and in the chart. It shows whether all of
 * its tasks are collapsed, asks for the opposite when clicked, and indents
 * the task list by the depth of its first task.
 */
module Expander {
  import opened Base
  import opened Tasks

  /** How many of the tasks are collapsed. */
  function CollapsedCount(tasks: seq<Task>): (r: nat)
    ensures r <= |tasks|
  {
    if tasks == [] then 0
    else CollapsedCount(tasks[..|tasks| - 1]) + (if tasks[|tasks| - 1].collapsed then 1 else 0)
  }

  /** All tasks counted as collapsed are all the tasks exactly when every one is collapsed. */
  lemma {:induction false} CollapsedCountAll(tasks: seq<Task>)
    ensures CollapsedCount(tasks) == |tasks| <==> forall i :: 0 <= i < |tasks| ==> tasks[i].collapsed
  {
    if tasks != [] {
      var init := tasks[..|tasks| - 1];
      CollapsedCountAll(init);
      assert forall i :: 0 <= i < |init| ==> init[i] == tasks[i];
    }
  }

  /** The expander's state: collapsed when there are tasks and all of them are. */
  function IsCollapsed(tasks: seq<Task>): (r: bool)
    ensures r <==> |tasks| > 0 && forall i :: 0 <= i < |tasks| ==> tasks[i].collapsed
  {
    CollapsedCountAll(tasks);
    |tasks| > 0 && CollapsedCount(tasks) == |tasks|
  }

  /** The widget's `collapseState`: counts the collapsed tasks and compares with their number. */
  method CollapseState(tasks: seq<Task>) returns (collapsed: bool)
    ensures collapsed == IsCollapsed(tasks)
  {
    if |tasks| == 0 {
      return false;
    }
    var count := 0;
    for i := 0 to |tasks|
      invariant count == CollapsedCount(tasks[..i])
    {
      assert tasks[..i + 1][..i] == tasks[..i];
      if tasks[i].collapsed {
        count := count + 1;
      }
    }
    assert tasks[..|tasks|] == tasks;
    collapsed := count == |tasks|;
  }

  /** The request a click emits: these tasks should become collapsed, or expanded. */
  datatype CollapseRequest = CollapseRequest(tasks: seq<Task>, collapsed: bool)

  /** A click emits nothing without tasks, and otherwise asks for the opposite of the current state. */
  function Toggle(tasks: seq<Task>): (r: Option<CollapseRequest>)
    ensures r.None? <==> tasks == []
    ensures r.Some? ==> r.value.tasks == tasks && r.value.collapsed == !IsCollapsed(tasks)
  {
    if |tasks| == 0 then None else Some(CollapseRequest(tasks, !IsCollapsed(tasks)))
  }

  /** What the request asks for: every one of its tasks with the requested flag. */
  function Apply(req: CollapseRequest): (r: seq<Task>)
    ensures |r| == |req.tasks|
    ensures forall i :: 0 <= i < |r| ==> r[i] == req.tasks[i].(collapsed := req.collapsed)
  {
    seq(|req.tasks|, i requires 0 <= i < |req.tasks| => req.tasks[i].(collapsed := req.collapsed))
  }

  /** Once the request a click emits is carried out, the expander shows the other state. */
  lemma ToggleFlips(tasks: seq<Task>)
    requires tasks != []
    ensures IsCollapsed(Apply(Toggle(tasks).value)) == !IsCollapsed(tasks)
  {
    var r := Apply(Toggle(tasks).value);
    assert r[0].collapsed == !IsCollapsed(tasks);
  }

  /** The descendants of all the tasks, task by task, each task's in its own order. */
  function AllChildrenOf(tasks: seq<Task>): seq<Id>
  {
    if tasks == [] then [] else AllChildrenOf(tasks[..|tasks| - 1]) + tasks[|tasks| - 1].allChildren
  }

  /** The widget's aggregation: every descendant id of every task pushed in turn. */
  method AllChildren(tasks: seq<Task>) returns (allChildren: seq<Id>)
    ensures allChildren == AllChildrenOf(tasks)
  {
    allChildren := [];
    for i := 0 to |tasks|
      invariant allChildren == AllChildrenOf(tasks[..i])
    {
      assert tasks[..i + 1][..i] == tasks[..i];
      var children := tasks[i].allChildren;
      for j := 0 to |children|
        invariant allChildren == AllChildrenOf(tasks[..i]) + children[..j]
      {
        assert children[..j + 1] == children[..j] + [children[j]];
        allChildren := allChildren + [children[j]];
      }
      assert children[..|children|] == children;
    }
    assert tasks[..|tasks|] == tasks;
  }

  /** An id is aggregated exactly when it is a descendant of one of the tasks. */
  lemma {:induction false} AllChildrenOfHas(tasks: seq<Task>, id: Id)
    ensures id in AllChildrenOf(tasks) <==> exists i :: 0 <= i < |tasks| && id in tasks[i].allChildren
  {
    if tasks != [] {
      var init := tasks[..|tasks| - 1];
      AllChildrenOfHas(init, id);
      assert forall i :: 0 <= i < |init| ==> init[i] == tasks[i];
    }
  }

  /** The aggregation of two lists of tasks is the aggregation of the first followed by that of the second. */
  lemma {:induction false} AllChildrenOfAppend(a: seq<Task>, b: seq<Task>)
    ensures AllChildrenOf(a + b) == AllChildrenOf(a) + AllChildrenOf(b)
  {
    if b == [] {
      assert a + b == a;
    } else {
      assert (a + b)[..|a + b| - 1] == a + b[..|b| - 1];
      AllChildrenOfAppend(a, b[..|b| - 1]);
    }
  }

  /**
   * The wrapper's style: none outside the task list; in the task list a
   * left padding of the first task's depth in paddings plus the margin,
   * which is not a number (None) when there is no task.
   */
  datatype WrapperStyle = Unstyled | Padded(paddingLeft: Option<real>)

  function TaskListStyle(kind: string, tasks: seq<Task>, padding: real, margin: real): (r: WrapperStyle)
    ensures kind != "taskList" <==> r == Unstyled
    ensures kind == "taskList" && tasks != [] ==> r == Padded(Some((|tasks[0].parents| as real) * padding + margin))
    ensures kind == "taskList" && tasks == [] ==> r == Padded(None)
  {
    if kind != "taskList" then Unstyled
    else if tasks == [] then Padded(None)
    else Padded(Some((|tasks[0].parents| as real) * padding + margin))
  }

  /** A line of the glyph, from (x1, y1) to (x2, y2). */
  datatype GlyphLine = GlyphLine(x1: real, y1: real, x2: real, y2: real)

  /** The glyph: its border square's corner and side, and its lines. */
  datatype Glyph = Glyph(border: real, side: real, lines: seq<GlyphLine>)

  /** The glyph's inset of the border and of the lines. */
  const Border: real := 0.5
  const LineOffset: real := 5.0

  /**
   * The glyph of an expander of the given size: drawn only when the tasks
   * have descendants; a horizontal line always, and a vertical one too when
   * collapsed.
   */
  function GlyphOf(size: real, allChildren: seq<Id>, collapsed: bool): (r: Option<Glyph>)
    ensures r.Some? <==> |allChildren| > 0
    ensures r.Some? ==> r.value.side == size - 2.0 * Border && (|r.value.lines| == 2 <==> collapsed)
    ensures r.Some? ==> 1 <= |r.value.lines| <= 2
    ensures r.Some? ==> r.value.lines[0] == GlyphLine(LineOffset, size / 2.0, size - LineOffset, size / 2.0)
  {
    if |allChildren| == 0 then None
    else
      var horizontal := GlyphLine(LineOffset, size / 2.0, size - LineOffset, size / 2.0);
      var vertical := GlyphLine(size / 2.0, LineOffset, size / 2.0, size - LineOffset);
      Some(Glyph(Border, size - 2.0 * Border, if collapsed then [horizontal, vertical] else [horizontal]))
  }

  /** The two lines of a plus cross at the centre of the box and are equally long. */
  lemma GlyphPlusCentred(size: real, allChildren: seq<Id>)
    requires |allChildren| > 0
    ensures var g := GlyphOf(size, allChildren, true).value;
      var h, v := g.lines[0], g.lines[1];
      h.y1 == h.y2 == v.x1 == v.x2 == size / 2.0 && (h.x1 + h.x2) / 2.0 == size / 2.0 &&
      (v.y1 + v.y2) / 2.0 == size / 2.0 && h.x2 - h.x1 == v.y2 - v.y1
  {
  }
}
