/**
 * The widget's state store: an immutable JSON-like tree updated by a reducer.
 * Three kinds of action are recognised by name; every other action, and the
 * "scroll" action, deep-merges its payload into the state.
 */
module Store {
  import opened Base

  /** A value of the state tree. */
  datatype Json = JNumber(n: real) | JBool(b: bool) | JString(s: string) | JArray(items: seq<Json>)
                | JObject(fields: map<string, Json>)

  /** The fields of an object, none for any other value. */
  function FieldsOf(a: Json): map<string, Json>
  {
    if a.JObject? then a.fields else map[]
  }

  /**
   * Immutable's deep merge of `b` into `a`: where both are objects, keys of
   * either are kept and a key of both is merged again; any other value of
   * `b` replaces what was there.
   */
  function Merge(a: Json, b: Json): (r: Json)
    ensures !(a.JObject? && b.JObject?) ==> r == b
    ensures a.JObject? && b.JObject? ==> r.JObject? && r.fields.Keys == a.fields.Keys + b.fields.Keys
    decreases b
  {
    if a.JObject? && b.JObject? then
      JObject(map k | k in a.fields.Keys + b.fields.Keys ::
        if k in b.fields then (if k in a.fields then Merge(a.fields[k], b.fields[k]) else b.fields[k])
        else a.fields[k])
    else b
  }

  /** The value at a path of keys, if every key on the way names a field. */
  function GetIn(a: Json, path: seq<string>): Option<Json>
  {
    if path == [] then Some(a)
    else if a.JObject? && path[0] in a.fields then GetIn(a.fields[path[0]], path[1..])
    else None
  }

  /** Immutable's setIn: the value placed at the path, objects made on the way where a key is missing. */
  function SetIn(a: Json, path: seq<string>, v: Json): Json
    decreases |path|
  {
    if path == [] then v
    else
      var child := if a.JObject? && path[0] in a.fields then a.fields[path[0]] else JObject(map[]);
      JObject(FieldsOf(a)[path[0] := SetIn(child, path[1..], v)])
  }

  /** Two paths part at some key: neither is a prefix of the other. */
  predicate Diverge(p: seq<string>, q: seq<string>)
  {
    p != [] && q != [] && (p[0] != q[0] || Diverge(p[1..], q[1..]))
  }

  /** A dispatched action: its `type` and its payload. */
  datatype Action = Action(kind: string, payload: Json)

  /** The payload a reducer branch works with: a value to set, or an object to merge. */
  predicate WellTyped(action: Action)
  {
    action.kind == "update-calendar-height" || action.kind == "resize" || action.payload.JObject?
  }

  /**
   * The reducer. "scroll" does nothing of its own and falls through to the
   * merge; "update-calendar-height" sets calendar.height; "resize" sets
   * clientWidth; any other action deep-merges its payload.
   */
  function Reduce(state: Json, action: Action): (r: Json)
    requires WellTyped(action)
    ensures action.kind == "update-calendar-height" ==> GetIn(r, ["calendar", "height"]) == Some(action.payload)
    ensures action.kind == "resize" ==> GetIn(r, ["clientWidth"]) == Some(action.payload)
    ensures action.kind != "update-calendar-height" && action.kind != "resize" && state.JObject? ==>
      r.JObject? && r.fields.Keys == state.fields.Keys + action.payload.fields.Keys
  {
    SetInGetIn(state, ["calendar", "height"], action.payload);
    SetInGetIn(state, ["clientWidth"], action.payload);
    if action.kind == "scroll" then Merge(state, action.payload)
    else if action.kind == "update-calendar-height" then SetIn(state, ["calendar", "height"], action.payload)
    else if action.kind == "resize" then SetIn(state, ["clientWidth"], action.payload)
    else Merge(state, action.payload)
  }

  // ---------------------------------------------------------------------
  // Properties of the updates.

  /** Merging the same payload twice changes nothing the first merge did not. */
  lemma {:induction false} MergeIdempotent(a: Json, b: Json)
    ensures Merge(Merge(a, b), b) == Merge(a, b)
    decreases b
  {
    if a.JObject? && b.JObject? {
      var m := Merge(a, b);
      forall k | k in b.fields && k in a.fields
        ensures Merge(m.fields[k], b.fields[k]) == m.fields[k]
      {
        MergeIdempotent(a.fields[k], b.fields[k]);
      }
      forall k | k in b.fields && k !in a.fields
        ensures Merge(m.fields[k], b.fields[k]) == m.fields[k]
      {
        MergeSelf(b.fields[k]);
      }
      assert Merge(m, b).fields == m.fields;
    } else {
      MergeSelf(b);
    }
  }

  /** A value merged into itself is itself. */
  lemma {:induction false} MergeSelf(b: Json)
    ensures Merge(b, b) == b
    decreases b
  {
    if b.JObject? {
      forall k | k in b.fields
        ensures Merge(b.fields[k], b.fields[k]) == b.fields[k]
      {
        MergeSelf(b.fields[k]);
      }
      assert Merge(b, b).fields == b.fields;
    }
  }

  /** Merging an empty object leaves an object as it was. */
  lemma MergeEmpty(a: Json)
    requires a.JObject?
    ensures Merge(a, JObject(map[])) == a
  {
    assert Merge(a, JObject(map[])).fields == a.fields;
  }

  /** A leaf of the payload is found at its path after the merge, whatever the state held there. */
  lemma {:induction false} MergeReadsPayload(a: Json, b: Json, path: seq<string>, v: Json)
    requires GetIn(b, path) == Some(v) && !v.JObject?
    ensures GetIn(Merge(a, b), path) == Some(v)
    decreases |path|
  {
    if path != [] && a.JObject? && b.JObject? {
      var k := path[0];
      if k in a.fields {
        MergeReadsPayload(a.fields[k], b.fields[k], path[1..], v);
      } else {
        assert Merge(a, b).fields[k] == b.fields[k];
      }
    }
  }

  /** A top-level field the payload does not name keeps its value. */
  lemma MergeKeepsOthers(a: Json, b: Json, k: string)
    requires a.JObject? && b.JObject? && k in a.fields && k !in b.fields
    ensures GetIn(Merge(a, b), [k]) == GetIn(a, [k])
  {
  }

  /** What was set is read back. */
  lemma {:induction false} SetInGetIn(a: Json, path: seq<string>, v: Json)
    ensures GetIn(SetIn(a, path, v), path) == Some(v)
    decreases |path|
  {
    if path != [] {
      var child := if a.JObject? && path[0] in a.fields then a.fields[path[0]] else JObject(map[]);
      SetInGetIn(child, path[1..], v);
    }
  }

  /** Setting one path leaves every path that parts from it as it was. */
  lemma {:induction false} SetInKeepsOthers(a: Json, path: seq<string>, v: Json, q: seq<string>)
    requires Diverge(path, q)
    ensures GetIn(SetIn(a, path, v), q) == GetIn(a, q)
    decreases |path|
  {
    var child := if a.JObject? && path[0] in a.fields then a.fields[path[0]] else JObject(map[]);
    if path[0] == q[0] {
      SetInKeepsOthers(child, path[1..], v, q[1..]);
      if !(a.JObject? && path[0] in a.fields) {
        EmptyHasNothing(path[1..], v, q[1..]);
      }
    }
  }

  /** In an object made only to hold a set value, every other path is missing. */
  lemma {:induction false} EmptyHasNothing(path: seq<string>, v: Json, q: seq<string>)
    requires Diverge(path, q)
    ensures GetIn(SetIn(JObject(map[]), path, v), q) == None
    decreases |path|
  {
    if path[0] == q[0] {
      EmptyHasNothing(path[1..], v, q[1..]);
    }
  }

  /** "scroll" has no branch of its own: it merges like an action of no known kind. */
  lemma ScrollMerges(state: Json, payload: Json)
    requires payload.JObject?
    ensures Reduce(state, Action("scroll", payload)) == Reduce(state, Action("", payload)) == Merge(state, payload)
  {
  }

  /** "resize" sets the client width and nothing else. */
  lemma ResizeSetsWidth(state: Json, width: Json, q: seq<string>)
    ensures GetIn(Reduce(state, Action("resize", width)), ["clientWidth"]) == Some(width)
    ensures Diverge(["clientWidth"], q) ==> GetIn(Reduce(state, Action("resize", width)), q) == GetIn(state, q)
  {
    SetInGetIn(state, ["clientWidth"], width);
    if Diverge(["clientWidth"], q) {
      SetInKeepsOthers(state, ["clientWidth"], width, q);
    }
  }

  /** "update-calendar-height" sets the calendar's height and nothing else. */
  lemma CalendarHeightSetsHeight(state: Json, height: Json, q: seq<string>)
    ensures GetIn(Reduce(state, Action("update-calendar-height", height)), ["calendar", "height"]) == Some(height)
    ensures Diverge(["calendar", "height"], q) ==>
      GetIn(Reduce(state, Action("update-calendar-height", height)), q) == GetIn(state, q)
  {
    SetInGetIn(state, ["calendar", "height"], height);
    if Diverge(["calendar", "height"], q) {
      SetInKeepsOthers(state, ["calendar", "height"], height, q);
    }
  }

  /** Dispatching the same merging action twice is the same as dispatching it once. */
  lemma ReduceMergeIdempotent(state: Json, action: Action)
    requires action.kind != "update-calendar-height" && action.kind != "resize" && action.payload.JObject?
    ensures Reduce(Reduce(state, action), action) == Reduce(state, action)
  {
    MergeIdempotent(state, action.payload);
  }
}
