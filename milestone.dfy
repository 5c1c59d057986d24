/**
 * A milestone is drawn as a six-sided polygon in its task's box: a diamond
 * with its top and bottom cut flat, the cut inset by half the height, or by
 * half the width when that is smaller.
 */
module Milestone {
  import opened Base

  /** The inset of the flat top and bottom: half the height, but no more than half the width. */
  function Inset(width: real, height: real): (o: real)
    ensures o <= height / 2.0 && o <= width / 2.0
    ensures o == height / 2.0 || o == width / 2.0
  {
    var fifty := height / 2.0;
    if width / 2.0 - fifty < 0.0 then width / 2.0 else fifty
  }

  /** The polygon's vertices: left tip, top left, top right, right tip, bottom right, bottom left. */
  function Points(width: real, height: real): (r: seq<Point>)
    ensures |r| == 6
  {
    var fifty := height / 2.0;
    var o := Inset(width, height);
    [Point(0.0, fifty), Point(o, 0.0), Point(width - o, 0.0), Point(width, fifty), Point(width - o, height),
     Point(o, height)]
  }

  /** The polygon is its own mirror image about the box's vertical centre line. */
  lemma PointsSymmetric(width: real, height: real)
    ensures var p := Points(width, height);
      p[3] == Point(width - p[0].x, p[0].y) && p[2] == Point(width - p[1].x, p[1].y) &&
      p[4] == Point(width - p[5].x, p[5].y)
  {
  }

  /** For a box of non-negative size, the top edge runs left to right and every vertex is in the box. */
  lemma PointsInBox(width: real, height: real)
    requires width >= 0.0 && height >= 0.0
    ensures var p := Points(width, height);
      p[1].x <= p[2].x && forall i :: 0 <= i < 6 ==> 0.0 <= p[i].x <= width && 0.0 <= p[i].y <= height
  {
    var p := Points(width, height);
    var o := Inset(width, height);
    assert 0.0 <= o <= width / 2.0;
    forall i | 0 <= i < 6
      ensures 0.0 <= p[i].x <= width && 0.0 <= p[i].y <= height
    {
    }
  }

  /** A milestone of no width collapses to its left edge. */
  lemma ZeroWidthFlat(height: real)
    requires height >= 0.0
    ensures forall i :: 0 <= i < 6 ==> Points(0.0, height)[i].x == 0.0
  {
    assert Inset(0.0, height) == 0.0;
  }
}
