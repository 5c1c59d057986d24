/**
 * Shared vocabulary: optional values, task identifiers with JavaScript
 * truthiness, and sums over sequences of pixel quantities.
 */
module Base {

  datatype Option<T> = None | Some(value: T) {
    function GetOr(default: T): (r: T)
      ensures Some? ==> r == value
      ensures None? ==> r == default
    {
      match this
      case None => default
      case Some(v) => v
    }
  }

  /** A task identifier: the widget accepts numbers and strings. */
  datatype Id = Num(n: int) | Str(s: string)

  /** JavaScript truthiness of an identifier: 0 and "" are falsy. */
  predicate Truthy(id: Id)
  {
    match id
    case Num(n) => n != 0
    case Str(s) => s != ""
  }

  /** The identifier of the synthetic root task. */
  const RootId: Id := Num(0)

  /** Number.MAX_SAFE_INTEGER, the sentinel several minimum searches start from. */
  const MaxSafeInteger: int := 9007199254740991

  function Sum(xs: seq<real>): real
  {
    if xs == [] then 0.0 else Sum(xs[..|xs| - 1]) + xs[|xs| - 1]
  }

  lemma {:induction false} SumAppend(a: seq<real>, b: seq<real>)
    ensures Sum(a + b) == Sum(a) + Sum(b)
    decreases |b|
  {
    if b == [] {
      assert a + b == a;
    } else {
      assert (a + b)[..|a + b| - 1] == a + b[..|b| - 1];
      SumAppend(a, b[..|b| - 1]);
    }
  }

  /** A point of an SVG path, in chart pixels. */
  datatype Point = Point(x: real, y: real)

  /** One command of an SVG path: move to, line to, quadratic curve to. */
  datatype Segment = Move(to: Point) | Line(to: Point) | Quad(control: Point, to: Point)

  /** A connector drawn from a dependency to the task that depends on it. */
  datatype DependencyLine = DependencyLine(points: Option<seq<Segment>>, taskId: Id)

  /** Decimal rendering of a natural number, as JavaScript's String(n). */
  function NatToString(n: nat): (r: string)
    ensures |r| >= 1
    ensures forall i :: 0 <= i < |r| ==> '0' <= r[i] <= '9'
    decreases n
  {
    if n < 10 then [Digit(n)] else NatToString(n / 10) + [Digit(n % 10)]
  }

  function Digit(d: nat): (c: char)
    requires d < 10
    ensures '0' <= c <= '9' && c as int - '0' as int == d
  {
    ('0' as int + d) as char
  }

  /** Different numbers render differently. */
  lemma {:induction false} NatToStringInjective(a: nat, b: nat)
    requires NatToString(a) == NatToString(b)
    ensures a == b
    decreases a
  {
    var s := NatToString(a);
    if a >= 10 && b >= 10 {
      assert s[|s| - 1] == Digit(a % 10) == Digit(b % 10);
      assert s[..|s| - 1] == NatToString(a / 10) == NatToString(b / 10);
      NatToStringInjective(a / 10, b / 10);
    } else if a < 10 && b < 10 {
      assert Digit(a) == s[0] == Digit(b);
    } else {
      assert false;
    }
  }
}
