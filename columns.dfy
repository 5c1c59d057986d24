/**
 * The task list's columns: the defaults every configured column receives,
 * and the widths and heights computed for them from the percentage the task
 * list takes and the depth of the task tree.
 */
module Columns {
  import opened Base
  import opened Tasks

  /** Inline style of a column: property names to values. */
  type Style = map<string, string>

  /**
   * A column as configured (`title` is the widget's `label`). Its value
   * accessor and event handlers are carried through unchanged by the widget
   * and are not modelled.
   */
  datatype ColumnInput = ColumnInput(id: int, title: string, width: real, style: Option<Style>, expander: Option<bool>)

  /** A column with its computed dimensions; `key` is the widget's `_key`. */
  datatype Column = Column(
    id: int,
    title: string,
    width: real,
    style: Style,
    expander: bool,
    height: real,
    finalWidth: real,
    thresholdPercent: real,
    widthFromPercentage: real,
    key: string)

  /** The rendering key of the column at `index`: the index, a dash, the label. */
  function ColumnKey(index: nat, title: string): string
  {
    NatToString(index) + "-" + title
  }

  /** The index and the label can be read back from a key. */
  lemma ColumnKeyInjective(i: nat, a: string, j: nat, b: string)
    requires ColumnKey(i, a) == ColumnKey(j, b)
    ensures i == j && a == b
  {
    var di, dj := NatToString(i), NatToString(j);
    var k := ColumnKey(i, a);
    assert k[|di|] == '-' && ColumnKey(j, b)[|dj|] == '-';
    if |di| < |dj| {
      assert false;
    } else if |dj| < |di| {
      assert false;
    }
    assert di == k[..|di|] == dj;
    NatToStringInjective(i, j);
    assert a == k[|di| + 1..] == b;
  }

  /** The column at `index` with the defaults filled in and no dimensions yet. */
  function InitialColumn(index: nat, c: ColumnInput): Column
  {
    Column(c.id, c.title, c.width, c.style.GetOr(map[]), c.expander.GetOr(false), 0.0, 0.0, 100.0, 0.0,
           ColumnKey(index, c.title))
  }

  /**
   * The configured columns, in order, each with a threshold of 100 percent,
   * no dimensions yet, an own expander flag, a style, and its key.
   */
  function InitializeColumns(columns: seq<ColumnInput>): (r: seq<Column>)
    ensures |r| == |columns|
    ensures forall i :: 0 <= i < |r| ==> r[i] == InitialColumn(i, columns[i])
  {
    seq(|columns|, i requires 0 <= i < |columns| => InitialColumn(i, columns[i]))
  }

  /**
   * Initialisation keeps each column's id, label, width and the flags given,
   * defaults what is missing, and gives every column a different key.
   */
  lemma InitializeColumnsKeeps(columns: seq<ColumnInput>)
    ensures var r := InitializeColumns(columns);
      (forall i :: 0 <= i < |r| ==>
        r[i].id == columns[i].id && r[i].title == columns[i].title && r[i].width == columns[i].width &&
        r[i].expander == (columns[i].expander == Some(true)) &&
        (columns[i].style.None? ==> r[i].style == map[]) &&
        (columns[i].style.Some? ==> r[i].style == columns[i].style.value) &&
        r[i].thresholdPercent == 100.0 && r[i].height == 0.0 && r[i].finalWidth == 0.0 &&
        r[i].widthFromPercentage == 0.0) &&
      (forall i, j :: 0 <= i < j < |r| ==> r[i].key != r[j].key)
  {
    var r := InitializeColumns(columns);
    forall i, j | 0 <= i < j < |r|
      ensures r[i].key != r[j].key
    {
      if r[i].key == r[j].key {
        ColumnKeyInjective(i, columns[i].title, j, columns[j].title);
      }
    }
  }

  /**
   * The share of the task list a column takes: `percent` of its width; the
   * expander column also makes room for the indentation of the deepest task.
   */
  function WidthFromPercentage(c: Column, tasks: seq<Task>, percent: real, padding: real, margin: real): real
  {
    if c.expander then ((((MaxParentCount(tasks) - 1) as real) * padding + margin + c.width) / 100.0) * percent
    else (c.width / 100.0) * percent
  }

  /** A column once its dimensions are computed. */
  function Dimensioned(c: Column, tasks: seq<Task>, percent: real, padding: real, margin: real, height: real,
                       gap: real, strokeWidth: real): Column
  {
    var w := WidthFromPercentage(c, tasks, percent, padding, margin);
    c.(widthFromPercentage := w, finalWidth := c.thresholdPercent * w / 100.0,
       height := TaskHeight(height, gap, strokeWidth, false) - strokeWidth)
  }

  /** Which of a column's widths to add up. */
  datatype Measure = Configured | FromPercentage | Final

  function MeasureOf(c: Column, m: Measure): real
  {
    match m
    case Configured => c.width
    case FromPercentage => c.widthFromPercentage
    case Final => c.finalWidth
  }

  /** The sum of one of the widths over the columns. */
  function Total(cs: seq<Column>, m: Measure): real
  {
    if cs == [] then 0.0 else Total(cs[..|cs| - 1], m) + MeasureOf(cs[|cs| - 1], m)
  }

  /** The state of the loop after the first `i` columns. */
  ghost predicate Measured(before: seq<Column>, now: seq<Column>, i: nat, tasks: seq<Task>, percent: real,
                           padding: real, margin: real, height: real, gap: real, strokeWidth: real,
                           percentage: real, final: real, totalWidth: real)
  {
    |now| == |before| && i <= |now| &&
    (forall k :: 0 <= k < i ==> now[k] == Dimensioned(before[k], tasks, percent, padding, margin, height, gap, strokeWidth)) &&
    (forall k :: i <= k < |now| ==> now[k] == before[k]) &&
    percentage == Total(now[..i], FromPercentage) && final == Total(now[..i], Final) &&
    totalWidth == Total(now[..i], Configured)
  }

  lemma MeasuredStep(before: seq<Column>, now: seq<Column>, i: nat, tasks: seq<Task>, percent: real,
                     padding: real, margin: real, height: real, gap: real, strokeWidth: real,
                     percentage: real, final: real, totalWidth: real, c: Column)
    requires Measured(before, now, i, tasks, percent, padding, margin, height, gap, strokeWidth,
                      percentage, final, totalWidth)
    requires i < |now| && c == Dimensioned(now[i], tasks, percent, padding, margin, height, gap, strokeWidth)
    ensures Measured(before, now[i := c], i + 1, tasks, percent, padding, margin, height, gap, strokeWidth,
                     percentage + c.widthFromPercentage, final + c.finalWidth, totalWidth + c.width)
  {
    var next := now[i := c];
    assert next[..i + 1][..i] == now[..i];
    assert next[..i + 1][i] == c;
  }

  /**
   * Computes every column's dimensions in place, in order, and returns the
   * sums of the shares, of the final widths and of the configured widths.
   */
  method CalculateTaskListColumnsDimensions(columns: array<Column>, tasks: seq<Task>, percent: real, padding: real,
                                            margin: real, height: real, gap: real, strokeWidth: real)
    returns (widthFromPercentage: real, finalWidth: real, width: real)
    modifies columns
    ensures forall k :: 0 <= k < columns.Length ==>
      columns[k] == Dimensioned(old(columns[k]), tasks, percent, padding, margin, height, gap, strokeWidth)
    ensures widthFromPercentage == Total(columns[..], FromPercentage)
    ensures finalWidth == Total(columns[..], Final)
    ensures width == Total(columns[..], Configured)
  {
    ghost var before := columns[..];
    var final, percentage, totalWidth := 0.0, 0.0, 0.0;
    var i := 0;
    while i < columns.Length
      invariant Measured(before, columns[..], i, tasks, percent, padding, margin, height, gap, strokeWidth,
                         percentage, final, totalWidth)
    {
      var column := columns[i];
      if column.expander {
        var expanderWidth := GetMaximalExpanderWidth(tasks, padding, margin);
        column := column.(widthFromPercentage := ((expanderWidth + column.width) / 100.0) * percent);
      } else {
        column := column.(widthFromPercentage := (column.width / 100.0) * percent);
      }
      percentage := percentage + column.widthFromPercentage;
      column := column.(finalWidth := (column.thresholdPercent * column.widthFromPercentage) / 100.0);
      final := final + column.finalWidth;
      column := column.(height := TaskHeight(height, gap, strokeWidth, false) - strokeWidth);
      totalWidth := totalWidth + column.width;
      MeasuredStep(before, columns[..], i, tasks, percent, padding, margin, height, gap, strokeWidth,
                   percentage - column.widthFromPercentage, final - column.finalWidth, totalWidth - column.width,
                   column);
      columns[i] := column;
      i := i + 1;
    }
    assert columns[..] == columns[..i];
    widthFromPercentage, finalWidth, width := percentage, final, totalWidth;
  }

  /**
   * Every computed column is as high as a row plus its two gaps, less one
   * stroke: the row height is taken without its stroke and the stroke is
   * then subtracted.
   */
  lemma DimensionedHeight(c: Column, tasks: seq<Task>, percent: real, padding: real, margin: real, height: real,
                          gap: real, strokeWidth: real)
    ensures Dimensioned(c, tasks, percent, padding, margin, height, gap, strokeWidth).height == height + 2.0 * gap - strokeWidth
  {
  }

  /** The dimensions change only the height and the two computed widths. */
  lemma DimensionedKeeps(c: Column, tasks: seq<Task>, percent: real, padding: real, margin: real, height: real,
                         gap: real, strokeWidth: real)
    ensures var d := Dimensioned(c, tasks, percent, padding, margin, height, gap, strokeWidth);
      d.id == c.id && d.title == c.title && d.width == c.width && d.style == c.style && d.expander == c.expander &&
      d.thresholdPercent == c.thresholdPercent && d.key == c.key
  {
  }

  /** Under the full threshold of 100 percent, each final width is the column's share. */
  lemma {:induction false} FullThresholdTotals(cs: seq<Column>)
    requires forall k :: 0 <= k < |cs| ==>
      cs[k].thresholdPercent == 100.0 && cs[k].finalWidth == cs[k].thresholdPercent * cs[k].widthFromPercentage / 100.0
    ensures Total(cs, Final) == Total(cs, FromPercentage)
  {
    if cs != [] {
      FullThresholdTotals(cs[..|cs| - 1]);
    }
  }

  /** Columns just initialised, once measured, have a final width equal to their share, in total too. */
  lemma InitializedFinalIsShare(columns: seq<ColumnInput>, tasks: seq<Task>, percent: real, padding: real,
                                margin: real, height: real, gap: real, strokeWidth: real, measured: seq<Column>)
    requires var r := InitializeColumns(columns);
      |measured| == |r| &&
      forall k :: 0 <= k < |r| ==> measured[k] == Dimensioned(r[k], tasks, percent, padding, margin, height, gap, strokeWidth)
    ensures forall k :: 0 <= k < |measured| ==> measured[k].finalWidth == measured[k].widthFromPercentage
    ensures Total(measured, Final) == Total(measured, FromPercentage)
  {
    FullThresholdTotals(measured);
  }

  /** The sums add up column by column. */
  lemma {:induction false} TotalAppend(a: seq<Column>, b: seq<Column>, m: Measure)
    ensures Total(a + b, m) == Total(a, m) + Total(b, m)
    decreases |b|
  {
    if b == [] {
      assert a + b == a;
    } else {
      assert (a + b)[..|a + b| - 1] == a + b[..|b| - 1];
      TotalAppend(a, b[..|b| - 1], m);
    }
  }
}
