/**
 * The task tree. Every normalised task names its parent by id; the tree
 * builder walks down from the synthetic root and writes, in place, each
 * task's ancestor ids, its parent, its direct children and the pre-order
 * list of all its descendants.
 *
 * The tasks live in an array, as in the widget's code. A node of the tree is
 * named by its path: the sequence of array indices from a child of the
 * root down to it (the root is the empty path).
 */
module TaskTree {
  import opened Base
  import opened Dates
  import opened Tasks

  /** What the tree is built from: a task's id and the id of its parent. */
  datatype Link = Link(id: Id, parentId: Option<Id>)

  function Links(ts: seq<Task>): (r: seq<Link>)
    ensures |r| == |ts|
    ensures forall j :: 0 <= j < |ts| ==> r[j] == Link(ts[j].id, ts[j].parentId)
  {
    seq(|ts|, j requires 0 <= j < |ts| => Link(ts[j].id, ts[j].parentId))
  }

  /**
   * What the builder needs to terminate: the ids are unique and none of them
   * is the root's id 0.
   */
  ghost predicate WellFormed(links: seq<Link>)
  {
    (forall j, k :: 0 <= j < |links| && 0 <= k < |links| && links[j].id == links[k].id ==> j == k) &&
    (forall j :: 0 <= j < |links| ==> links[j].id != RootId)
  }

  predicate InRange(links: seq<Link>, p: seq<nat>)
  {
    forall k :: 0 <= k < |p| ==> p[k] < |links|
  }

  /** Id of the node a path leads to. */
  function NodeId(links: seq<Link>, p: seq<nat>): Id
    requires InRange(links, p)
  {
    if p == [] then RootId else links[p[|p| - 1]].id
  }

  /** The task at position `k` of the path names the one before it (the root for the first) as parent. */
  ghost predicate LinkedAt(links: seq<Link>, p: seq<nat>, k: nat)
    requires InRange(links, p) && k < |p|
  {
    links[p[k]].parentId == Some(if k == 0 then RootId else links[p[k - 1]].id)
  }

  /** A path from the root: every index is a child of the one before it, and none repeats. */
  ghost predicate Chain(links: seq<Link>, p: seq<nat>)
  {
    InRange(links, p) &&
    (forall k: nat :: k < |p| ==> LinkedAt(links, p, k)) &&
    (forall k, l :: 0 <= k < l < |p| ==> p[k] != p[l])
  }

  /** Array index `c` holds a child of the node at path `p`. */
  ghost predicate IsChild(links: seq<Link>, p: seq<nat>, c: nat)
    requires InRange(links, p)
  {
    c < |links| && links[c].parentId == Some(NodeId(links, p))
  }

  /** The array indices a path has not passed through yet. */
  ghost function Unvisited(links: seq<Link>, p: seq<nat>): set<nat>
  {
    set j: nat | j < |links| && j !in p
  }

  /** Indices below `i` of the children of the node with id `id`, in array order. */
  function ChildIdx(links: seq<Link>, id: Id, i: nat): (r: seq<nat>)
    requires i <= |links|
    ensures forall x :: x in r ==> x < i && links[x].parentId == Some(id)
    ensures InRange(links, r)
    ensures forall x: nat :: x < i && links[x].parentId == Some(id) ==> x in r
    ensures forall a, b :: 0 <= a < b < |r| ==> r[a] < r[b]
  {
    if i == 0 then []
    else
      var prev := ChildIdx(links, id, i - 1);
      assert forall a :: 0 <= a < |prev| ==> prev[a] in prev;
      prev + (if links[i - 1].parentId == Some(id) then [i - 1] else [])
  }

  /** The ids at the given indices. */
  function IdsOf(links: seq<Link>, q: seq<nat>): (r: seq<Id>)
    requires InRange(links, q)
    ensures |r| == |q| && forall k :: 0 <= k < |q| ==> r[k] == links[q[k]].id
  {
    seq(|q|, k requires 0 <= k < |q| => links[q[k]].id)
  }

  /** No index on a path is a child of the path's last node. */
  lemma ParentsDiffer(links: seq<Link>, p: seq<nat>, k: nat)
    requires WellFormed(links) && Chain(links, p) && k < |p|
    ensures links[p[k]].parentId != Some(NodeId(links, p))
  {
    assert LinkedAt(links, p, k);
    assert NodeId(links, p) == links[p[|p| - 1]].id;
    if k == 0 {
      assert links[p[|p| - 1]].id != RootId;
    } else {
      assert p[k - 1] != p[|p| - 1];
      assert links[p[k - 1]].id != links[p[|p| - 1]].id;
    }
  }

  /** A child extends the path without repeating an index, so fewer indices stay unvisited. */
  lemma ChildExtends(links: seq<Link>, p: seq<nat>, c: nat)
    requires WellFormed(links) && Chain(links, p) && IsChild(links, p, c)
    ensures c !in p && Chain(links, p + [c])
    ensures Unvisited(links, p + [c]) < Unvisited(links, p)
  {
    forall k | 0 <= k < |p|
      ensures p[k] != c
    {
      ParentsDiffer(links, p, k);
    }
    var q := p + [c];
    assert forall k :: 0 <= k < |p| ==> q[k] == p[k];
    forall k: nat | k < |q|
      ensures LinkedAt(links, q, k)
    {
      if k < |p| {
        assert LinkedAt(links, p, k);
        if k > 0 {
          assert q[k - 1] == p[k - 1];
        }
      }
    }
    assert c in Unvisited(links, p) && c !in Unvisited(links, q);
  }

  /**
   * Pre-order ids of the descendants of the node at path `p`: for each child
   * in array order, its id followed by its own descendants.
   */
  ghost function PreorderOf(links: seq<Link>, p: seq<nat>): seq<Id>
    requires WellFormed(links) && Chain(links, p)
    decreases Unvisited(links, p), 1, 0
  {
    PreorderList(links, p, ChildIdx(links, NodeId(links, p), |links|))
  }

  /** Pre-order ids of the given children of the node at `p` and of their descendants. */
  ghost function PreorderList(links: seq<Link>, p: seq<nat>, cs: seq<nat>): seq<Id>
    requires WellFormed(links) && Chain(links, p)
    requires forall x :: x in cs ==> IsChild(links, p, x)
    decreases Unvisited(links, p), 0, |cs|
  {
    if cs == [] then []
    else
      var c := cs[|cs| - 1];
      assert forall x :: x in cs[..|cs| - 1] ==> x in cs;
      ChildExtends(links, p, c);
      PreorderList(links, p, cs[..|cs| - 1]) + [links[c].id] + PreorderOf(links, p + [c])
  }

  /** Path `q` goes through `p` and leaves it through a child with index below `i`. */
  ghost predicate Below(links: seq<Link>, p: seq<nat>, i: nat, q: seq<nat>)
  {
    Chain(links, q) && |p| < |q| && q[..|p|] == p && q[|p|] < i
  }

  /** The task at index `j` is a descendant of `p` reached through a child below `i`. */
  ghost predicate ReachedBelow(links: seq<Link>, p: seq<nat>, i: nat, j: nat)
  {
    exists q :: Below(links, p, i, q) && q[|q| - 1] == j
  }

  /** The finished task at the end of path `q`, built from its normalised form `t`. */
  ghost function Built(links: seq<Link>, t: Task, q: seq<nat>): Task
    requires WellFormed(links) && Chain(links, q) && q != []
  {
    t.(parents := IdsOf(links, q[..|q| - 1]),
       parent := if |q| == 1 then None else Some(links[q[|q| - 2]].id),
       children := IdsOf(links, ChildIdx(links, links[q[|q| - 1]].id, |links|)),
       allChildren := PreorderOf(links, q))
  }

  /** Every descendant of `p` still has the empty lists normalisation gave it. */
  ghost predicate Unbuilt(links: seq<Link>, ts: seq<Task>, p: seq<nat>)
  {
    |ts| == |links| &&
    forall q {:trigger Below(links, p, |links|, q)} :: Below(links, p, |links|, q) ==>
      ts[q[|q| - 1]].parents == [] && ts[q[|q| - 1]].children == [] && ts[q[|q| - 1]].allChildren == []
  }

  /** Every descendant of `p` reached through a child below `i` is finished. */
  ghost predicate BuiltBelow(links: seq<Link>, ts: seq<Task>, out: seq<Task>, p: seq<nat>, i: nat)
  {
    WellFormed(links) && |ts| == |links| && |out| == |links| &&
    forall q {:trigger Below(links, p, i, q)} :: Below(links, p, i, q) ==> out[q[|q| - 1]] == Built(links, ts[q[|q| - 1]], q)
  }

  /** Every other task is as it was. */
  ghost predicate UntouchedBelow(links: seq<Link>, ts: seq<Task>, out: seq<Task>, p: seq<nat>, i: nat)
  {
    |ts| == |links| && |out| == |links| &&
    forall j {:trigger ReachedBelow(links, p, i, j)} :: 0 <= j < |ts| && !ReachedBelow(links, p, i, j) ==> out[j] == ts[j]
  }

  /** No task in the array is the root. */
  predicate NoRoot(ts: seq<Task>)
  {
    forall j :: 0 <= j < |ts| ==> !ts[j].root
  }

  /** The node being built, once the children below index `i` are done. */
  ghost function Partial(links: seq<Link>, node: Task, p: seq<nat>, i: nat): Task
    requires WellFormed(links) && Chain(links, p) && i <= |links|
  {
    var cs := ChildIdx(links, NodeId(links, p), i);
    node.(children := IdsOf(links, cs), allChildren := PreorderList(links, p, cs))
  }

  // ---------------------------------------------------------------------
  // Facts about paths.

  lemma ChainPrefix(links: seq<Link>, q: seq<nat>, n: nat)
    requires Chain(links, q) && n <= |q|
    ensures Chain(links, q[..n])
  {
    var r := q[..n];
    assert forall k :: 0 <= k < n ==> r[k] == q[k];
    forall k: nat | k < n
      ensures LinkedAt(links, r, k)
    {
      assert LinkedAt(links, q, k);
      assert r[k] == q[k];
      if k > 0 {
        assert r[k - 1] == q[k - 1];
      }
    }
    assert forall k, l :: 0 <= k < l < n ==> r[k] != r[l];
  }

  /** The last task of a path names the one before it, or the root, as its parent. */
  lemma ParentOfLast(links: seq<Link>, q: seq<nat>)
    requires WellFormed(links) && Chain(links, q) && q != []
    ensures links[q[|q| - 1]].parentId == Some(if |q| == 1 then RootId else links[q[|q| - 2]].id)
    ensures |q| > 1 ==> links[q[|q| - 2]].id != RootId
  {
    assert LinkedAt(links, q, |q| - 1);
  }

  /** Two paths ending at the same index are the same path. */
  lemma {:induction false} ChainUnique(links: seq<Link>, q1: seq<nat>, q2: seq<nat>)
    requires WellFormed(links) && Chain(links, q1) && Chain(links, q2)
    requires q1 != [] && q2 != [] && q1[|q1| - 1] == q2[|q2| - 1]
    ensures q1 == q2
    decreases |q1|
  {
    var n, m := |q1|, |q2|;
    ParentOfLast(links, q1);
    ParentOfLast(links, q2);
    if n > 1 && m > 1 {
      var a, b := q1[..n - 1], q2[..m - 1];
      assert links[a[n - 2]].id == links[b[m - 2]].id;
      ChainPrefix(links, q1, n - 1);
      ChainPrefix(links, q2, m - 1);
      ChainUnique(links, a, b);
      assert q1 == a + [q1[n - 1]];
      assert q2 == b + [q2[m - 1]];
    } else if n == 1 && m == 1 {
      assert q1 == [q1[0]];
      assert q2 == [q2[0]];
    } else {
      assert false;
    }
  }

  /** The index a path leaves `p` through is a child of `p`. */
  lemma BelowChild(links: seq<Link>, p: seq<nat>, i: nat, q: seq<nat>)
    requires Below(links, p, i, q)
    ensures InRange(links, p) && IsChild(links, p, q[|p|])
  {
    assert forall k :: 0 <= k < |p| ==> p[k] == q[k];
    assert LinkedAt(links, q, |p|);
    if |p| > 0 {
      assert q[|p| - 1] == p[|p| - 1];
    }
  }

  /** A path below `p` through child `c` is `p + [c]` itself or goes on below it. */
  lemma BelowSplit(links: seq<Link>, p: seq<nat>, i: nat, q: seq<nat>)
    requires Below(links, p, i, q)
    ensures q == p + [q[|p|]] || Below(links, p + [q[|p|]], |links|, q)
  {
    var c := q[|p|];
    assert q[..|p| + 1] == p + [c];
    if |q| > |p| + 1 {
      assert q[|p| + 1] < |links|;
    } else {
      assert q == q[..|p| + 1];
    }
  }

  /** A path below `p + [c]` is a path below `p` through `c`. */
  lemma BelowJoin(links: seq<Link>, p: seq<nat>, c: nat, n: nat, q: seq<nat>)
    requires Below(links, p + [c], n, q)
    ensures Below(links, p, c + 1, q) && q[|p|] == c
  {
    assert q[..|p| + 1] == p + [c];
    assert q[..|p|] == (p + [c])[..|p|] == p;
  }

  /** The descendants of `p` through child `i` end at indices other than through smaller children. */
  lemma ReachedThrough(links: seq<Link>, p: seq<nat>, i: nat, j: nat)
    requires WellFormed(links) && Chain(links, p) && IsChild(links, p, i)
    requires j == i || ReachedBelow(links, p + [i], |links|, j)
    ensures !ReachedBelow(links, p, i, j)
  {
    ChildExtends(links, p, i);
    if ReachedBelow(links, p, i, j) {
      var q :| Below(links, p, i, q) && q[|q| - 1] == j;
      if j == i {
        ChainUnique(links, q, p + [i]);
      } else {
        var q2 :| Below(links, p + [i], |links|, q2) && q2[|q2| - 1] == j;
        BelowJoin(links, p, i, |links|, q2);
        ChainUnique(links, q, q2);
      }
      assert false;
    }
  }

  // ---------------------------------------------------------------------
  // One step of the loop over the array.

  /** The child at index `i` is still in its normalised state, and so is everything below it. */
  lemma ChildFresh(links: seq<Link>, ts: seq<Task>, out: seq<Task>, p: seq<nat>, i: nat)
    requires WellFormed(links) && Chain(links, p) && IsChild(links, p, i)
    requires Unbuilt(links, ts, p) && UntouchedBelow(links, ts, out, p, i)
    ensures out[i] == ts[i] && out[i].parents == [] && out[i].children == [] && out[i].allChildren == []
    ensures Unbuilt(links, out, p + [i])
  {
    ChildExtends(links, p, i);
    var q := p + [i];
    assert q[..|p|] == p;
    assert Below(links, p, |links|, q);
    ReachedThrough(links, p, i, i);
    forall q2 | Below(links, q, |links|, q2)
      ensures out[q2[|q2| - 1]] == ts[q2[|q2| - 1]]
      ensures Below(links, p, |links|, q2)
    {
      BelowJoin(links, p, i, |links|, q2);
      assert ReachedBelow(links, q, |links|, q2[|q2| - 1]);
      ReachedThrough(links, p, i, q2[|q2| - 1]);
    }
  }

  /** A task that is not a child of `p` adds nothing to the node or to the finished set. */
  lemma SkipStep(links: seq<Link>, node: Task, ts: seq<Task>, out: seq<Task>, p: seq<nat>, i: nat)
    requires WellFormed(links) && Chain(links, p) && i < |links| && !IsChild(links, p, i)
    requires BuiltBelow(links, ts, out, p, i) && UntouchedBelow(links, ts, out, p, i)
    ensures Partial(links, node, p, i + 1) == Partial(links, node, p, i)
    ensures BuiltBelow(links, ts, out, p, i + 1) && UntouchedBelow(links, ts, out, p, i + 1)
  {
    SkipNoChild(links, p, i);
    forall q | Below(links, p, i + 1, q)
      ensures out[q[|q| - 1]] == Built(links, ts[q[|q| - 1]], q)
    {
      BelowChild(links, p, i + 1, q);
      assert Below(links, p, i, q);
    }
    forall j | 0 <= j < |ts| && !ReachedBelow(links, p, i + 1, j)
      ensures out[j] == ts[j]
    {
      SkipReached(links, p, i, j);
      assert !ReachedBelow(links, p, i, j);
    }
  }

  lemma SkipNoChild(links: seq<Link>, p: seq<nat>, i: nat)
    requires InRange(links, p) && i < |links| && !IsChild(links, p, i)
    ensures ChildIdx(links, NodeId(links, p), i + 1) == ChildIdx(links, NodeId(links, p), i)
  {
  }

  lemma SkipReached(links: seq<Link>, p: seq<nat>, i: nat, j: nat)
    requires InRange(links, p) && i < |links| && !IsChild(links, p, i)
    ensures ReachedBelow(links, p, i + 1, j) ==> ReachedBelow(links, p, i, j)
  {
    if ReachedBelow(links, p, i + 1, j) {
      var q :| Below(links, p, i + 1, q) && q[|q| - 1] == j;
      BelowChild(links, p, i + 1, q);
      assert Below(links, p, i, q);
    }
  }

  /** Finishing child `i` and recording it in the node keeps the loop's state. */
  lemma ChildStep(links: seq<Link>, node: Task, ts: seq<Task>, out: seq<Task>, after: seq<Task>,
                  child: Task, p: seq<nat>, i: nat)
    requires WellFormed(links) && Chain(links, p) && IsChild(links, p, i)
    requires BuiltBelow(links, ts, out, p, i) && UntouchedBelow(links, ts, out, p, i)
    requires BuiltBelow(links, out, after, p + [i], |links|) && UntouchedBelow(links, out, after, p + [i], |links|)
    requires Chain(links, p + [i]) && child == Built(links, ts[i], p + [i]) && child.id == links[i].id
    ensures BuiltBelow(links, ts, after[i := child], p, i + 1)
    ensures UntouchedBelow(links, ts, after[i := child], p, i + 1)
    ensures Partial(links, node, p, i + 1) ==
      Partial(links, node, p, i).(children := Partial(links, node, p, i).children + [child.id],
                                  allChildren := Partial(links, node, p, i).allChildren + [child.id] + child.allChildren)
  {
    forall q | Below(links, p, i + 1, q)
      ensures after[i := child][q[|q| - 1]] == Built(links, ts[q[|q| - 1]], q)
    {
      StepBuilt(links, ts, out, after, child, p, i, q);
    }
    forall j | 0 <= j < |ts| && !ReachedBelow(links, p, i + 1, j)
      ensures after[i := child][j] == ts[j]
    {
      StepUntouched(links, ts, out, after, p, i, j);
    }
    StepPartial(links, node, p, i);
  }

  /** A finished descendant stays finished: through an earlier child, child `i` itself, or below it. */
  lemma StepBuilt(links: seq<Link>, ts: seq<Task>, out: seq<Task>, after: seq<Task>,
                  child: Task, p: seq<nat>, i: nat, q: seq<nat>)
    requires WellFormed(links) && Chain(links, p) && IsChild(links, p, i)
    requires BuiltBelow(links, ts, out, p, i) && UntouchedBelow(links, ts, out, p, i)
    requires BuiltBelow(links, out, after, p + [i], |links|) && UntouchedBelow(links, out, after, p + [i], |links|)
    requires Chain(links, p + [i]) && child == Built(links, ts[i], p + [i])
    requires Below(links, p, i + 1, q)
    ensures after[i := child][q[|q| - 1]] == Built(links, ts[q[|q| - 1]], q)
  {
    BelowChild(links, p, i + 1, q);
    BelowSplit(links, p, i + 1, q);
    if q[|p|] < i {
      StepBuiltEarlier(links, ts, out, after, p, i, q);
    } else if q != p + [i] {
      StepBuiltInside(links, ts, out, after, p, i, q);
    }
  }

  /** A descendant through an earlier child was finished before and child `i` does not touch it. */
  lemma StepBuiltEarlier(links: seq<Link>, ts: seq<Task>, out: seq<Task>, after: seq<Task>,
                         p: seq<nat>, i: nat, q: seq<nat>)
    requires WellFormed(links) && Chain(links, p) && IsChild(links, p, i)
    requires BuiltBelow(links, ts, out, p, i)
    requires UntouchedBelow(links, out, after, p + [i], |links|)
    requires Below(links, p, i, q)
    ensures q[|q| - 1] != i && after[q[|q| - 1]] == Built(links, ts[q[|q| - 1]], q)
  {
    ReachedThroughOther(links, p, i, q);
  }

  /** A descendant below child `i` is finished by the recursive call, from a task nothing had touched. */
  lemma StepBuiltInside(links: seq<Link>, ts: seq<Task>, out: seq<Task>, after: seq<Task>,
                        p: seq<nat>, i: nat, q: seq<nat>)
    requires WellFormed(links) && Chain(links, p) && IsChild(links, p, i)
    requires UntouchedBelow(links, ts, out, p, i)
    requires BuiltBelow(links, out, after, p + [i], |links|)
    requires Below(links, p + [i], |links|, q)
    ensures q[|q| - 1] != i && after[q[|q| - 1]] == Built(links, ts[q[|q| - 1]], q)
  {
    var j := q[|q| - 1];
    assert ReachedBelow(links, p + [i], |links|, j);
    ReachedThrough(links, p, i, j);
    JAvoidsChild(links, p, i, q);
  }

  /** A descendant through an earlier child is neither child `i` nor below it. */
  lemma ReachedThroughOther(links: seq<Link>, p: seq<nat>, i: nat, q: seq<nat>)
    requires WellFormed(links) && Chain(links, p) && IsChild(links, p, i)
    requires Below(links, p, i, q)
    ensures q[|q| - 1] != i && !ReachedBelow(links, p + [i], |links|, q[|q| - 1])
  {
    var j := q[|q| - 1];
    assert ReachedBelow(links, p, i, j);
    if j == i || ReachedBelow(links, p + [i], |links|, j) {
      ReachedThrough(links, p, i, j);
    }
  }

  /** A path that goes on below child `i` does not end at `i`. */
  lemma JAvoidsChild(links: seq<Link>, p: seq<nat>, i: nat, q: seq<nat>)
    requires WellFormed(links) && Chain(links, p) && IsChild(links, p, i)
    requires Below(links, p + [i], |links|, q)
    ensures q[|q| - 1] != i
  {
    ChildExtends(links, p, i);
    if q[|q| - 1] == i {
      ChainUnique(links, q, p + [i]);
    }
  }

  /** A task no finished path reaches was touched neither by earlier children nor by child `i`. */
  lemma StepUntouched(links: seq<Link>, ts: seq<Task>, out: seq<Task>, after: seq<Task>,
                      p: seq<nat>, i: nat, j: nat)
    requires WellFormed(links) && Chain(links, p) && IsChild(links, p, i)
    requires UntouchedBelow(links, ts, out, p, i)
    requires UntouchedBelow(links, out, after, p + [i], |links|)
    requires j < |ts| && !ReachedBelow(links, p, i + 1, j)
    ensures j != i && after[j] == ts[j]
  {
    ReachedGrows(links, p, i, j);
  }

  /** What is reached through the children below `i`, through child `i` or below it, is reached below `i + 1`. */
  lemma ReachedGrows(links: seq<Link>, p: seq<nat>, i: nat, j: nat)
    requires WellFormed(links) && Chain(links, p) && IsChild(links, p, i)
    ensures ReachedBelow(links, p, i, j) ==> ReachedBelow(links, p, i + 1, j)
    ensures ReachedBelow(links, p + [i], |links|, j) ==> ReachedBelow(links, p, i + 1, j)
    ensures ReachedBelow(links, p, i + 1, i)
  {
    var c := p + [i];
    ChildExtends(links, p, i);
    assert c[..|p|] == p;
    assert Below(links, p, i + 1, c);
    forall q | Below(links, p, i, q)
      ensures Below(links, p, i + 1, q)
    {
    }
    forall q | Below(links, c, |links|, q)
      ensures Below(links, p, i + 1, q)
    {
      BelowJoin(links, p, i, |links|, q);
    }
  }

  /** Child `i` appends its id to the children and its id and descendants to the pre-order. */
  lemma StepPartial(links: seq<Link>, node: Task, p: seq<nat>, i: nat)
    requires WellFormed(links) && Chain(links, p) && IsChild(links, p, i)
    ensures Chain(links, p + [i])
    ensures Partial(links, node, p, i + 1) ==
      Partial(links, node, p, i).(children := Partial(links, node, p, i).children + [links[i].id],
                                  allChildren := Partial(links, node, p, i).allChildren + [links[i].id] +
                                                 PreorderOf(links, p + [i]))
  {
    ChildExtends(links, p, i);
    var cs := ChildIdx(links, NodeId(links, p), i);
    assert ChildIdx(links, NodeId(links, p), i + 1) == cs + [i];
    PreorderListSnoc(links, p, cs, i);
    assert IdsOf(links, cs + [i]) == IdsOf(links, cs) + [links[i].id];
  }

  /** One more child at the end adds its id and its subtree's pre-order at the end. */
  lemma PreorderListSnoc(links: seq<Link>, p: seq<nat>, cs: seq<nat>, c: nat)
    requires WellFormed(links) && Chain(links, p) && IsChild(links, p, c)
    requires forall x :: x in cs ==> IsChild(links, p, x)
    ensures Chain(links, p + [c])
    ensures PreorderList(links, p, cs + [c]) == PreorderList(links, p, cs) + [links[c].id] + PreorderOf(links, p + [c])
  {
    ChildExtends(links, p, c);
    assert (cs + [c])[..|cs|] == cs;
  }

  /** The child as the builder hands it down: the node's ancestors and, unless it is the root, the node. */
  lemma ChildEntry(links: seq<Link>, node: Task, done: Task, p: seq<nat>, i: nat, t: Task, cur: Task)
    requires WellFormed(links) && Chain(links, p) && IsChild(links, p, i)
    requires node.id == NodeId(links, p) && node.root == (p == [])
    requires p != [] ==> node.parents == IdsOf(links, p[..|p| - 1])
    requires done.id == node.id && done.root == node.root && done.parents == node.parents
    requires t.parents == [] && t.id == links[i].id && !t.root && t.children == [] && t.allChildren == []
    requires cur == if !done.root then t.(parents := t.parents + done.parents + [done.id], parent := Some(done.id))
                    else t.(parents := [], parent := None)
    ensures Chain(links, p + [i])
    ensures cur == t.(parents := IdsOf(links, p), parent := if p == [] then None else Some(NodeId(links, p)))
    ensures cur.id == NodeId(links, p + [i]) && cur.root == (p + [i] == []) && cur.children == [] && cur.allChildren == []
    ensures cur.parents == IdsOf(links, (p + [i])[..|p + [i]| - 1])
  {
    ChildExtends(links, p, i);
    assert (p + [i])[..|p|] == p;
    if p != [] {
      assert p == p[..|p| - 1] + [p[|p| - 1]];
      assert IdsOf(links, p) == IdsOf(links, p[..|p| - 1]) + [done.id];
    }
  }

  /** The child as the recursive call returns it is the finished task at its path. */
  lemma ChildExit(links: seq<Link>, t: Task, p: seq<nat>, i: nat, child: Task)
    requires WellFormed(links) && Chain(links, p) && Chain(links, p + [i]) && t.id == links[i].id && !t.root
    requires child == t.(parents := IdsOf(links, p), parent := if p == [] then None else Some(NodeId(links, p)))
                       .(children := IdsOf(links, ChildIdx(links, t.id, |links|)), allChildren := PreorderOf(links, p + [i]))
    ensures child == Built(links, t, p + [i]) && child.id == links[i].id && !child.root
  {
    assert (p + [i])[..|p|] == p;
  }

  /** Writing back a non-root task with the same id and parent id keeps the links and the absence of roots. */
  lemma WriteBack(links: seq<Link>, ts: seq<Task>, i: nat, t: Task)
    requires Links(ts) == links && NoRoot(ts) && i < |ts| && !t.root
    requires t.id == links[i].id && t.parentId == links[i].parentId
    ensures Links(ts[i := t]) == links && NoRoot(ts[i := t])
  {
    var fin := ts[i := t];
    assert Links(fin) == Links(ts);
    forall j | 0 <= j < |fin|
      ensures !fin[j].root
    {
      if j != i {
        assert fin[j] == ts[j];
      }
    }
  }

  // ---------------------------------------------------------------------
  // The builder.

  /**
   * What the builder of the node at path `p` is entitled to: the arena `ts`
   * is well formed and holds no root, and below the node nothing is built.
   * The node carries its own id, is the root exactly at the empty path,
   * already has its ancestors, and has no children yet.
   */
  ghost predicate Entry(links: seq<Link>, ts: seq<Task>, node: Task, p: seq<nat>)
  {
    Links(ts) == links && WellFormed(links) && Chain(links, p) && NoRoot(ts) &&
    node.id == NodeId(links, p) && node.root == (p == []) &&
    (p != [] ==> node.parents == IdsOf(links, p[..|p| - 1])) &&
    node.children == [] && node.allChildren == [] &&
    Unbuilt(links, ts, p)
  }

  /**
   * What the builder of the node at `p` delivers: the node with its direct
   * children in array order and the pre-order of its descendants; every task
   * below it finished, every other task as it was.
   */
  ghost predicate Exit(links: seq<Link>, ts: seq<Task>, out: seq<Task>, node: Task, p: seq<nat>, done: Task)
  {
    WellFormed(links) && Chain(links, p) && Links(out) == links && NoRoot(out) &&
    done == node.(children := IdsOf(links, ChildIdx(links, node.id, |links|)), allChildren := PreorderOf(links, p)) &&
    BuiltBelow(links, ts, out, p, |links|) && UntouchedBelow(links, ts, out, p, |links|)
  }

  /**
   * The state of the loop over the array in the builder of the node at `p`:
   * `done` holds the children below `i` and the pre-order of their subtrees,
   * and exactly the tasks of those subtrees are finished in `cur`.
   */
  ghost predicate Building(links: seq<Link>, node: Task, ts: seq<Task>, cur: seq<Task>, p: seq<nat>, i: nat, done: Task)
  {
    WellFormed(links) && Chain(links, p) && i <= |links| && Links(cur) == links && NoRoot(cur) &&
    done == Partial(links, node, p, i) &&
    BuiltBelow(links, ts, cur, p, i) && UntouchedBelow(links, ts, cur, p, i)
  }

  /** A child handed down: its normalised task with the ancestors and parent the builder gave it. */
  ghost predicate Given(links: seq<Link>, ts: seq<Task>, p: seq<nat>, i: nat, child: Task)
  {
    WellFormed(links) && Chain(links, p) && IsChild(links, p, i) && Chain(links, p + [i]) && |ts| == |links| &&
    child == ts[i].(parents := IdsOf(links, p), parent := if p == [] then None else Some(NodeId(links, p))) &&
    child.id == links[i].id && child.parentId == links[i].parentId && !child.root
  }

  /** The loop starts with no child done. */
  lemma BuildStart(links: seq<Link>, ts: seq<Task>, node: Task, p: seq<nat>)
    requires Entry(links, ts, node, p)
    ensures Building(links, node, ts, ts, p, 0, node)
  {
  }

  /** The task at index `i` is not a child: nothing changes. */
  lemma BuildSkip(links: seq<Link>, node: Task, ts: seq<Task>, cur: seq<Task>, p: seq<nat>, i: nat, done: Task)
    requires Entry(links, ts, node, p) && Building(links, node, ts, cur, p, i, done) && i < |links|
    requires cur[i].parentId != Some(done.id)
    ensures Building(links, node, ts, cur, p, i + 1, done)
  {
    SkipStep(links, node, ts, cur, p, i);
  }

  /** The task at index `i` is a child: the recursive call may be made on it. */
  lemma BuildDescend(links: seq<Link>, node: Task, ts: seq<Task>, cur: seq<Task>, p: seq<nat>, i: nat,
                     done: Task, child: Task)
    requires Entry(links, ts, node, p) && Building(links, node, ts, cur, p, i, done) && i < |links|
    requires cur[i].parentId == Some(done.id)
    requires child == if !done.root then cur[i].(parents := cur[i].parents + done.parents + [done.id], parent := Some(done.id))
                      else cur[i].(parents := [], parent := None)
    ensures Given(links, ts, p, i, child) && Entry(links, cur, child, p + [i])
    ensures Unvisited(links, p + [i]) < Unvisited(links, p)
  {
    assert cur[i].parentId == links[i].parentId && cur[i].id == links[i].id;
    ChildFresh(links, ts, cur, p, i);
    ChildExtends(links, p, i);
    ChildEntry(links, node, done, p, i, cur[i], child);
  }

  /** The subtree of child `i` is finished: record it in the node and write the child back. */
  lemma BuildAscend(links: seq<Link>, node: Task, ts: seq<Task>, cur: seq<Task>, after: seq<Task>, p: seq<nat>,
                    i: nat, done: Task, given: Task, child: Task)
    requires Building(links, node, ts, cur, p, i, done) && i < |links|
    requires Given(links, ts, p, i, given) && Exit(links, cur, after, given, p + [i], child)
    ensures Building(links, node, ts, after[i := child], p, i + 1,
                     done.(children := done.children + [child.id], allChildren := done.allChildren + [child.id] + child.allChildren))
  {
    ChildExit(links, given, p, i, child);
    ChildStep(links, node, ts, cur, after, child, p, i);
    WriteBack(links, after, i, child);
  }

  /** After the last index the node and its subtree are complete. */
  lemma BuildFinish(links: seq<Link>, node: Task, ts: seq<Task>, cur: seq<Task>, p: seq<nat>, done: Task)
    requires Entry(links, ts, node, p) && Building(links, node, ts, cur, p, |links|, done)
    ensures Exit(links, ts, cur, node, p, done)
  {
  }

  /**
   * Builds the subtree of `node`, the task at path `p` (the root for the
   * empty path). Every task whose parent id is the node's id becomes a child
   * and is attached to the node, in array order.
   */
  method MakeTaskTree(node: Task, tasks: array<Task>, ghost links: seq<Link>, ghost p: seq<nat>)
    returns (done: Task)
    modifies tasks
    requires Entry(links, tasks[..], node, p)
    ensures Exit(links, old(tasks[..]), tasks[..], node, p, done)
    decreases Unvisited(links, p), 1
  {
    ghost var ts := tasks[..];
    BuildStart(links, ts, node, p);
    done := node;
    var i: nat := 0;
    while i < tasks.Length
      invariant i <= tasks.Length
      invariant Building(links, node, ts, tasks[..], p, i, done)
    {
      if tasks[i].parentId == Some(done.id) {
        done := AttachChild(node, done, tasks, i, links, p, ts);
      } else {
        BuildSkip(links, node, ts, tasks[..], p, i, done);
      }
      i := i + 1;
    }
    BuildFinish(links, node, ts, tasks[..], p, done);
  }

  /**
   * Attaches the child at index `i` to the node at `p`: the child inherits
   * the node's ancestors and, unless the node is the root, the node itself as
   * ancestor and parent; its own subtree is built; then its id, followed by
   * its descendants' ids, is appended to the node's lists.
   */
  method AttachChild(node: Task, done: Task, tasks: array<Task>, i: nat, ghost links: seq<Link>, ghost p: seq<nat>,
                     ghost ts: seq<Task>)
    returns (next: Task)
    modifies tasks
    requires Entry(links, ts, node, p) && Building(links, node, ts, tasks[..], p, i, done) && i < tasks.Length
    requires tasks[i].parentId == Some(done.id)
    ensures Building(links, node, ts, tasks[..], p, i + 1, next)
    decreases Unvisited(links, p), 0
  {
    var current := tasks[i];
    ghost var before := tasks[..];
    if !done.root {
      current := current.(parents := current.parents + done.parents + [done.id], parent := Some(done.id));
    } else {
      current := current.(parents := [], parent := None);
    }
    BuildDescend(links, node, ts, before, p, i, done, current);
    ghost var given := current;
    current := MakeTaskTree(current, tasks, links, p + [i]);
    ghost var after := tasks[..];
    BuildAscend(links, node, ts, before, after, p, i, done, given, current);
    tasks[i] := current;
    assert tasks[..] == after[i := current];
    next := done.(children := done.children + [current.id],
                  allChildren := done.allChildren + [current.id] + current.allChildren);
  }

  // ---------------------------------------------------------------------
  // What the pre-order holds.

  /** The id `x` is the id of a task on a path that goes on below `p`. */
  ghost predicate Descends(links: seq<Link>, p: seq<nat>, x: Id)
  {
    exists q :: Below(links, p, |links|, q) && links[q[|q| - 1]].id == x
  }

  /** The id `x` is child `c`'s own id or the id of one of its descendants. */
  ghost predicate ThroughChild(links: seq<Link>, p: seq<nat>, c: nat, x: Id)
  {
    c < |links| && (x == links[c].id || Descends(links, p + [c], x))
  }

  /** The pre-order of a node holds exactly the ids of its descendants. */
  lemma {:induction false} PreorderOfMembers(links: seq<Link>, p: seq<nat>, x: Id)
    requires WellFormed(links) && Chain(links, p)
    ensures x in PreorderOf(links, p) <==> Descends(links, p, x)
    decreases Unvisited(links, p), 1
  {
    var cs := ChildIdx(links, NodeId(links, p), |links|);
    PreorderListMembers(links, p, cs, x);
    if x in PreorderOf(links, p) {
      var k :| 0 <= k < |cs| && ThroughChild(links, p, cs[k], x);
      var _ := DescendsThrough(links, p, cs[k], x);
    }
    if Descends(links, p, x) {
      var c := DescendsVia(links, p, x);
      assert c in cs;
      var k :| 0 <= k < |cs| && cs[k] == c;
    }
  }

  /** An id reached through a child is a descendant, on a path through that child. */
  lemma DescendsThrough(links: seq<Link>, p: seq<nat>, c: nat, x: Id) returns (q: seq<nat>)
    requires WellFormed(links) && Chain(links, p) && IsChild(links, p, c) && ThroughChild(links, p, c, x)
    ensures Below(links, p, |links|, q) && q[|p|] == c && links[q[|q| - 1]].id == x
    ensures Descends(links, p, x)
  {
    ChildExtends(links, p, c);
    if x == links[c].id {
      q := p + [c];
      assert q[..|p|] == p;
    } else {
      q :| Below(links, p + [c], |links|, q) && links[q[|q| - 1]].id == x;
      BelowJoin(links, p, c, |links|, q);
    }
    assert Below(links, p, |links|, q);
  }

  /** A descendant is reached through some child. */
  lemma DescendsVia(links: seq<Link>, p: seq<nat>, x: Id) returns (c: nat)
    requires WellFormed(links) && Chain(links, p) && Descends(links, p, x)
    ensures IsChild(links, p, c) && ThroughChild(links, p, c, x)
  {
    var q :| Below(links, p, |links|, q) && links[q[|q| - 1]].id == x;
    BelowChild(links, p, |links|, q);
    c := q[|p|];
    BelowSplit(links, p, |links|, q);
    if q != p + [c] {
      assert Below(links, p + [c], |links|, q);
    }
  }

  /** The pre-order of some children holds their ids and the ids of their descendants. */
  lemma {:induction false} PreorderListMembers(links: seq<Link>, p: seq<nat>, cs: seq<nat>, x: Id)
    requires WellFormed(links) && Chain(links, p)
    requires forall y :: y in cs ==> IsChild(links, p, y)
    ensures x in PreorderList(links, p, cs) <==> exists k :: 0 <= k < |cs| && ThroughChild(links, p, cs[k], x)
    decreases Unvisited(links, p), 0, |cs|
  {
    if cs != [] {
      var n := |cs| - 1;
      var c, init := cs[n], cs[..n];
      assert cs == init + [c];
      assert forall y :: y in init ==> y in cs;
      assert c in cs;
      ChildExtends(links, p, c);
      PreorderListSnoc(links, p, init, c);
      PreorderListMembers(links, p, init, x);
      PreorderOfMembers(links, p + [c], x);
      assert x in PreorderList(links, p, cs) <==>
        x in PreorderList(links, p, init) || ThroughChild(links, p, c, x);
      SomeChildSnoc(links, p, init, c, x);
    }
  }

  /** Some child of `cs + [c]` leads to `x` when some child of `cs` does or `c` does. */
  lemma SomeChildSnoc(links: seq<Link>, p: seq<nat>, cs: seq<nat>, c: nat, x: Id)
    ensures (exists k :: 0 <= k < |cs + [c]| && ThroughChild(links, p, (cs + [c])[k], x)) <==>
      (exists k :: 0 <= k < |cs| && ThroughChild(links, p, cs[k], x)) || ThroughChild(links, p, c, x)
  {
    var ds := cs + [c];
    if exists k :: 0 <= k < |ds| && ThroughChild(links, p, ds[k], x) {
      var k :| 0 <= k < |ds| && ThroughChild(links, p, ds[k], x);
      if k < |cs| {
        assert ds[k] == cs[k];
      }
    }
    if exists k :: 0 <= k < |cs| && ThroughChild(links, p, cs[k], x) {
      var k :| 0 <= k < |cs| && ThroughChild(links, p, cs[k], x);
      assert ds[k] == cs[k];
    }
    if ThroughChild(links, p, c, x) {
      assert ds[|cs|] == c;
    }
  }

  /** A task is never among its own descendants, and the root's id is in no pre-order. */
  lemma NotOwnDescendant(links: seq<Link>, p: seq<nat>)
    requires WellFormed(links) && Chain(links, p)
    ensures NodeId(links, p) !in PreorderOf(links, p) && RootId !in PreorderOf(links, p)
  {
    PreorderOfMembers(links, p, NodeId(links, p));
    PreorderOfMembers(links, p, RootId);
    forall q | Below(links, p, |links|, q)
      ensures links[q[|q| - 1]].id != NodeId(links, p) && links[q[|q| - 1]].id != RootId
    {
      if p != [] && q[|q| - 1] == p[|p| - 1] {
        ChainUnique(links, q, p);
        assert false;
      }
    }
  }

  /** No element occurs twice. */
  predicate Distinct<T(==)>(s: seq<T>)
  {
    forall a, b :: 0 <= a < b < |s| ==> s[a] != s[b]
  }

  lemma DistinctAppend<T>(s: seq<T>, t: seq<T>)
    requires Distinct(s) && Distinct(t) && forall x :: x in s ==> x !in t
    ensures Distinct(s + t)
  {
    var u := s + t;
    forall a, b | 0 <= a < b < |u|
      ensures u[a] != u[b]
    {
      if a < |s| && b >= |s| {
        assert u[a] in s && u[b] == t[b - |s|];
      } else if a >= |s| {
        assert u[a] == t[a - |s|] && u[b] == t[b - |s|];
      }
    }
  }

  lemma DistinctJoin<T>(s: seq<T>, x: T, t: seq<T>)
    requires Distinct(s) && Distinct(t) && x !in s && x !in t && forall y :: y in s ==> y !in t
    ensures Distinct(s + [x] + t)
  {
    DistinctAppend(s, [x]);
    DistinctAppend(s + [x], t);
  }

  /** The subtrees of two different children share no id. */
  lemma SubtreesDisjoint(links: seq<Link>, p: seq<nat>, c: nat, d: nat, x: Id)
    requires WellFormed(links) && Chain(links, p) && IsChild(links, p, c) && IsChild(links, p, d) && c != d
    ensures !(ThroughChild(links, p, c, x) && ThroughChild(links, p, d, x))
  {
    if ThroughChild(links, p, c, x) && ThroughChild(links, p, d, x) {
      var qc := DescendsThrough(links, p, c, x);
      var qd := DescendsThrough(links, p, d, x);
      assert qc[|qc| - 1] == qd[|qd| - 1];
      ChainUnique(links, qc, qd);
      assert false;
    }
  }

  /** Every descendant appears once in the pre-order of a node. */
  lemma {:induction false} PreorderOfDistinct(links: seq<Link>, p: seq<nat>)
    requires WellFormed(links) && Chain(links, p)
    ensures Distinct(PreorderOf(links, p))
    decreases Unvisited(links, p), 1
  {
    var cs := ChildIdx(links, NodeId(links, p), |links|);
    PreorderListDistinct(links, p, cs);
  }

  /** Every descendant of the given distinct children appears once in their pre-order. */
  lemma {:induction false} PreorderListDistinct(links: seq<Link>, p: seq<nat>, cs: seq<nat>)
    requires WellFormed(links) && Chain(links, p) && Distinct(cs)
    requires forall y :: y in cs ==> IsChild(links, p, y)
    ensures Distinct(PreorderList(links, p, cs))
    decreases Unvisited(links, p), 0, |cs|
  {
    if cs != [] {
      var n := |cs| - 1;
      var c, init := cs[n], cs[..n];
      assert cs == init + [c];
      assert forall y :: y in init ==> y in cs;
      forall k | 0 <= k < n
        ensures init[k] != c
      {
        assert init[k] == cs[k];
      }
      assert c in cs;
      ChildExtends(links, p, c);
      PreorderListDistinct(links, p, init);
      PreorderOfDistinct(links, p + [c]);
      DistinctSnoc(links, p, init, c);
    }
  }

  /** A later child whose subtree is listed once keeps the pre-order free of repeats. */
  lemma DistinctSnoc(links: seq<Link>, p: seq<nat>, cs: seq<nat>, c: nat)
    requires WellFormed(links) && Chain(links, p) && IsChild(links, p, c) && c !in cs
    requires forall y :: y in cs ==> IsChild(links, p, y)
    requires Chain(links, p + [c]) && Distinct(PreorderList(links, p, cs)) && Distinct(PreorderOf(links, p + [c]))
    ensures Distinct(PreorderList(links, p, cs + [c]))
  {
    PreorderListSnoc(links, p, cs, c);
    var left, sub := PreorderList(links, p, cs), PreorderOf(links, p + [c]);
    NotOwnDescendant(links, p + [c]);
    forall x | x in left
      ensures x != links[c].id && x !in sub
    {
      EarlierSubtreesAvoid(links, p, cs, c, x);
    }
    DistinctJoin(left, links[c].id, sub);
  }

  /** An id in the pre-order of some children is not a later child's id nor one of its descendants. */
  lemma EarlierSubtreesAvoid(links: seq<Link>, p: seq<nat>, cs: seq<nat>, c: nat, x: Id)
    requires WellFormed(links) && Chain(links, p) && IsChild(links, p, c) && c !in cs
    requires forall y :: y in cs ==> IsChild(links, p, y)
    requires x in PreorderList(links, p, cs)
    ensures Chain(links, p + [c])
    ensures x != links[c].id && x !in PreorderOf(links, p + [c])
  {
    ChildExtends(links, p, c);
    PreorderListMembers(links, p, cs, x);
    PreorderOfMembers(links, p + [c], x);
    var k :| 0 <= k < |cs| && ThroughChild(links, p, cs[k], x);
    assert cs[k] in cs;
    SubtreesDisjoint(links, p, cs[k], c, x);
  }

  // ---------------------------------------------------------------------
  // The tree under the synthetic root.

  /** The synthetic root: id 0, labelled "root", of kind "rootTask", zero times and the own `__root` mark. */
  const RootTask: Task := Task(RootId, "rootTask", 0, 0, Millis(0), "root", 0.0, Millis(0), 0, [], [], [], None,
                               Some([]), [], None, false, false, 0.0, 0.0, 0.0, 0.0, true)

  /** Tasks as normalisation leaves them: no tree fields yet, and none is the root. */
  predicate Normalised(ts: seq<Task>)
  {
    forall j :: 0 <= j < |ts| ==> ts[j].parents == [] && ts[j].children == [] && ts[j].allChildren == [] && !ts[j].root
  }

  /**
   * Builds the whole tree under the synthetic root. The root lists the ids of
   * the top-level tasks and, in pre-order, of every task whose chain of parent
   * ids leads to the root, each once; those tasks are finished in place and
   * every other task is left as it was.
   */
  method BuildTaskTree(tasks: array<Task>) returns (root: Task)
    modifies tasks
    requires Normalised(tasks[..]) && WellFormed(Links(tasks[..]))
    ensures Links(tasks[..]) == Links(old(tasks[..]))
    ensures root == RootTask.(children := IdsOf(Links(tasks[..]), ChildIdx(Links(tasks[..]), RootId, tasks.Length)),
                              allChildren := PreorderOf(Links(tasks[..]), []))
    ensures BuiltBelow(Links(tasks[..]), old(tasks[..]), tasks[..], [], tasks.Length)
    ensures UntouchedBelow(Links(tasks[..]), old(tasks[..]), tasks[..], [], tasks.Length)
    ensures Distinct(root.allChildren)
    ensures forall x :: x in root.allChildren <==> Descends(Links(tasks[..]), [], x)
  {
    ghost var ts := tasks[..];
    ghost var links := Links(ts);
    forall q | Below(links, [], |links|, q)
      ensures ts[q[|q| - 1]].parents == [] && ts[q[|q| - 1]].children == [] && ts[q[|q| - 1]].allChildren == []
    {
      assert q[|q| - 1] < |ts|;
    }
    assert Unbuilt(links, ts, []);
    root := MakeTaskTree(RootTask, tasks, links, []);
    PreorderOfDistinct(links, []);
    forall x
      ensures x in root.allChildren <==> Descends(links, [], x)
    {
      PreorderOfMembers(links, [], x);
    }
  }
}
