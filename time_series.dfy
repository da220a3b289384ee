/** The chart projector of `PatientDetailsWindow::updateCharts`: it reads the measurement
    table row by row, keeps the plottable rows as (timestamp, weight) and (timestamp, BMI)
    points while tracking the extremes, sorts both point lists by timestamp in place, and
    picks the axis ranges. */
module TimeSeries {
  import opened Common

  /** A chart point: milliseconds since the epoch, and the plotted value. */
  datatype Point = Point(x: int, y: real)

  /** The three cells of a table row the charts read: the date text parsed as a date-time
      (`None` when it does not parse), and the numbers in the weight and BMI columns. */
  datatype Cells = Cells(time: Option<int>, weight: real, bmi: real)

  /** A table row: its three cells, or `None` when one of the items is missing. */
  type Row = Option<Cells>

  /** An axis range, from `lo` to `hi`. */
  datatype Axis<T> = Axis(lo: T, hi: T)

  /** The two readings of the clock the empty chart needs: one month before now and one day
      after now, in milliseconds since the epoch. */
  datatype Clock = Clock(monthAgo: int, dayAhead: int)

  /** What the two charts end up showing. */
  datatype Chart = Chart(
    weightSeries: seq<Point>,
    bmiSeries: seq<Point>,
    timeAxis: Axis<int>,
    weightAxis: Axis<real>,
    bmiAxis: Axis<real>)

  /** 24 hours in milliseconds. */
  const DayMs: int := 86400000

  function Pow2(n: nat): (r: real)
    ensures r >= 1.0 + n as real
  {
    if n == 0 then 1.0 else 2.0 * Pow2(n - 1)
  }

  /** `std::numeric_limits<double>::max()`, the starting minimum. */
  const DoubleMax: real := (2.0 - 1.0 / Pow2(52)) * Pow2(1023)

  /** `std::numeric_limits<double>::min()`, the smallest positive normal double and the
      starting maximum. */
  const DoubleMinPositive: real := 1.0 / Pow2(1022)

  lemma DoubleLimits()
    ensures 0.0 < DoubleMinPositive < 1.0
    ensures DoubleMax >= 1024.0
  {
    var p := Pow2(52);
    assert 1.0 / p <= 1.0;
    assert 2.0 - 1.0 / p >= 1.0;
    var q := Pow2(1023);
    assert q >= 1024.0;
    assert (2.0 - 1.0 / p) * q >= q;
  }

  /** The row filter: all three items present, the date parses, and both values are positive. */
  predicate Plottable(row: Row) {
    row.Some? && row.value.time.Some? && row.value.weight > 0.0 && row.value.bmi > 0.0
  }

  function WeightPoint(c: Cells): Point
    requires c.time.Some?
  {
    Point(c.time.value, c.weight)
  }

  function BmiPoint(c: Cells): Point
    requires c.time.Some?
  {
    Point(c.time.value, c.bmi)
  }

  /** The weight points collected from `rows`, in row order. */
  function WeightPoints(rows: seq<Row>): (pts: seq<Point>)
    ensures |pts| <= |rows|
    ensures forall p | p in pts :: p.y > 0.0
  {
    if rows == [] then []
    else
      var last := rows[|rows| - 1];
      WeightPoints(rows[..|rows| - 1]) + (if Plottable(last) then [WeightPoint(last.value)] else [])
  }

  /** The BMI points collected from `rows`, in row order. */
  function BmiPoints(rows: seq<Row>): (pts: seq<Point>)
    ensures |pts| <= |rows|
    ensures forall p | p in pts :: p.y > 0.0
  {
    if rows == [] then []
    else
      var last := rows[|rows| - 1];
      BmiPoints(rows[..|rows| - 1]) + (if Plottable(last) then [BmiPoint(last.value)] else [])
  }

  function Times(pts: seq<Point>): seq<int> {
    seq(|pts|, i requires 0 <= i < |pts| => pts[i].x)
  }

  function Values(pts: seq<Point>): seq<real> {
    seq(|pts|, i requires 0 <= i < |pts| => pts[i].y)
  }

  predicate SortedByTime(pts: seq<Point>) {
    forall i, j :: 0 <= i < j < |pts| ==> pts[i].x <= pts[j].x
  }

  predicate SortedInts(s: seq<int>) {
    forall i, j :: 0 <= i < j < |s| ==> s[i] <= s[j]
  }

  /** The smallest timestamp, as the running `minDate` finds it. */
  function Earliest(pts: seq<Point>): (t: int)
    requires pts != []
    ensures t in Times(pts)
    ensures forall p | p in pts :: t <= p.x
  {
    if |pts| == 1 then
      assert Times(pts)[0] == pts[0].x;
      pts[0].x
    else
      var e := Earliest(pts[..|pts| - 1]);
      var last := pts[|pts| - 1];
      assert forall p | p in pts :: p in pts[..|pts| - 1] || p == last;
      assert Times(pts[..|pts| - 1]) == Times(pts)[..|pts| - 1];
      assert Times(pts)[|pts| - 1] == last.x;
      if last.x < e then last.x else e
  }

  /** The largest timestamp, as the running `maxDate` finds it. */
  function Latest(pts: seq<Point>): (t: int)
    requires pts != []
    ensures t in Times(pts)
    ensures forall p | p in pts :: p.x <= t
  {
    if |pts| == 1 then
      assert Times(pts)[0] == pts[0].x;
      pts[0].x
    else
      var e := Latest(pts[..|pts| - 1]);
      var last := pts[|pts| - 1];
      assert forall p | p in pts :: p in pts[..|pts| - 1] || p == last;
      assert Times(pts[..|pts| - 1]) == Times(pts)[..|pts| - 1];
      assert Times(pts)[|pts| - 1] == last.x;
      if last.x > e then last.x else e
  }

  /** The running minimum of the values, started at the largest double. */
  function Lowest(pts: seq<Point>): (v: real)
    ensures v <= DoubleMax
    ensures forall p | p in pts :: v <= p.y
    ensures v == DoubleMax || v in Values(pts)
  {
    if pts == [] then DoubleMax
    else
      var e := Lowest(pts[..|pts| - 1]);
      var last := pts[|pts| - 1];
      assert forall p | p in pts :: p in pts[..|pts| - 1] || p == last;
      assert Values(pts[..|pts| - 1]) == Values(pts)[..|pts| - 1];
      assert Values(pts)[|pts| - 1] == last.y;
      if last.y < e then last.y else e
  }

  /** The running maximum of the values, started at the smallest positive double. */
  function Highest(pts: seq<Point>): (v: real)
    ensures v >= DoubleMinPositive
    ensures forall p | p in pts :: p.y <= v
    ensures v == DoubleMinPositive || v in Values(pts)
  {
    if pts == [] then DoubleMinPositive
    else
      var e := Highest(pts[..|pts| - 1]);
      var last := pts[|pts| - 1];
      assert forall p | p in pts :: p in pts[..|pts| - 1] || p == last;
      assert Values(pts[..|pts| - 1]) == Values(pts)[..|pts| - 1];
      assert Values(pts)[|pts| - 1] == last.y;
      if last.y > e then last.y else e
  }

  /** A value range widened by 5 % below and above. */
  function PaddedRange(lowest: real, highest: real): (r: Axis<real>)
    ensures 0.0 < lowest ==> 0.0 < r.lo < lowest
    ensures 0.0 < highest ==> highest < r.hi
  {
    Axis(lowest * 0.95, highest * 1.05)
  }

  /** `m` is the margin the 5 % rule gives for `span`: 5 % of the span, truncated. */
  predicate FivePercentMargin(span: int, m: int) {
    0 <= m && 20 * m <= span < 20 * (m + 1)
  }

  /** For a non-negative span the margin is the span divided by 20, rounded down. */
  lemma FivePercentMarginIsQuotient(span: int, m: int)
    requires span >= 0
    ensures FivePercentMargin(span, m) <==> m == span / 20
  {
  }

  /** The time range policy for data between `first` and `last`: one day each side when
      they coincide, the truncated 5 % of the span each side otherwise. */
  predicate TimeAxisFor(first: int, last: int, axis: Axis<int>) {
    if first == last then axis == Axis(first - DayMs, last + DayMs)
    else first - axis.lo == axis.hi - last && FivePercentMargin(last - first, first - axis.lo)
  }

  /** Exchanges two points of the array. */
  method Swap(a: array<Point>, i: int, j: int)
    requires 0 <= i < a.Length && 0 <= j < a.Length
    modifies a
    ensures a[i] == old(a[j]) && a[j] == old(a[i])
    ensures forall k | 0 <= k < a.Length && k != i && k != j :: a[k] == old(a[k])
    ensures multiset(a[..]) == multiset(old(a[..]))
  {
    a[i], a[j] := a[j], a[i];
  }

  /** Moves `a[i]` down past every earlier point with a later timestamp, so that the
      sorted prefix `a[..i]` grows to `a[..i + 1]`. */
  method SinkLast(a: array<Point>, i: int)
    requires 0 <= i < a.Length
    requires forall k, l :: 0 <= k < l < i ==> a[k].x <= a[l].x
    modifies a
    ensures forall k, l :: 0 <= k < l <= i ==> a[k].x <= a[l].x
    ensures forall k | i < k < a.Length :: a[k] == old(a[k])
    ensures multiset(a[..]) == multiset(old(a[..]))
  {
    var j := i;
    while j > 0 && a[j - 1].x > a[j].x
      invariant 0 <= j <= i
      invariant forall k, l :: 0 <= k < l <= i && l != j ==> a[k].x <= a[l].x
      invariant forall l :: j < l <= i ==> a[j].x < a[l].x
      invariant forall k | i < k < a.Length :: a[k] == old(a[k])
      invariant multiset(a[..]) == multiset(old(a[..]))
    {
      Swap(a, j - 1, j);
      j := j - 1;
    }
  }

  /** Sorts the points by timestamp, in place. */
  method SortByTime(a: array<Point>)
    modifies a
    ensures SortedByTime(a[..])
    ensures multiset(a[..]) == multiset(old(a[..]))
  {
    var i := 0;
    while i < a.Length
      invariant 0 <= i <= a.Length
      invariant forall k, l :: 0 <= k < l < i ==> a[k].x <= a[l].x
      invariant multiset(a[..]) == multiset(old(a[..]))
    {
      SinkLast(a, i);
      i := i + 1;
    }
  }

  /** A point is collected exactly when some row is plottable and yields it: every other
      row is dropped. */
  lemma {:induction false} CollectedExactly(rows: seq<Row>)
    ensures forall p :: p in WeightPoints(rows) <==>
      exists r :: r in rows && Plottable(r) && p == WeightPoint(r.value)
    ensures forall p :: p in BmiPoints(rows) <==>
      exists r :: r in rows && Plottable(r) && p == BmiPoint(r.value)
  {
    if rows != [] {
      var init, last := rows[..|rows| - 1], rows[|rows| - 1];
      CollectedExactly(init);
      assert rows == init + [last];
      forall r ensures r in rows <==> r in init || r == last {
      }
    }
  }

  /** Every plottable row adds one point to each list, with the same timestamp: the two lists
      have the same length and the same x-values. */
  lemma {:induction false} PointsShareTimes(rows: seq<Row>)
    ensures Times(WeightPoints(rows)) == Times(BmiPoints(rows))
  {
    if rows != [] {
      var init := rows[..|rows| - 1];
      PointsShareTimes(init);
      var w, b := WeightPoints(init), BmiPoints(init);
      assert |w| == |Times(w)| == |Times(b)| == |b|;
      var last := rows[|rows| - 1];
      if Plottable(last) {
        assert Times(w + [WeightPoint(last.value)]) == Times(w) + [last.value.time.value];
        assert Times(b + [BmiPoint(last.value)]) == Times(b) + [last.value.time.value];
      } else {
        assert w + [] == w && b + [] == b;
      }
    }
  }

  /** Timestamps of a concatenation are the concatenated timestamps. */
  lemma TimesAppend(a: seq<Point>, b: seq<Point>)
    ensures Times(a + b) == Times(a) + Times(b)
  {
  }

  /** Two point lists holding the same points hold the same timestamps. */
  lemma {:induction false} TimesOfPermutation(a: seq<Point>, b: seq<Point>)
    requires multiset(a) == multiset(b)
    ensures multiset(Times(a)) == multiset(Times(b))
    decreases |a|
  {
    if a == [] {
      assert |b| == |multiset(b)| == 0;
    } else {
      assert a[0] in multiset(b);
      var k := IndexOf(b, a[0]);
      var front, back := b[..k], b[k + 1..];
      var rest := front + back;
      assert b == front + [b[k]] + back;
      assert a == [a[0]] + a[1..];
      assert multiset(b) == multiset(front) + multiset{b[k]} + multiset(back);
      assert multiset(a) == multiset{a[0]} + multiset(a[1..]);
      CancelOne(a[0], multiset(a[1..]), multiset(rest));
      TimesOfPermutation(a[1..], rest);
      TimesAppend([a[0]], a[1..]);
      TimesAppend(front + [b[k]], back);
      TimesAppend(front, [b[k]]);
      TimesAppend(front, back);
      PermutedTimes(a[0].x, Times(a[1..]), Times(front), Times(back));
    }
  }

  /** Multiset step of the permutation proof, kept apart so that it stays on plain integers. */
  lemma PermutedTimes(t: int, tail: seq<int>, front: seq<int>, back: seq<int>)
    requires multiset(tail) == multiset(front + back)
    ensures multiset([t] + tail) == multiset(front + [t] + back)
  {
  }

  /** Removing the same element from two equal multisets leaves equal multisets. */
  lemma CancelOne<T>(x: T, m: multiset<T>, n: multiset<T>)
    requires multiset{x} + m == multiset{x} + n
    ensures m == n
  {
    forall z ensures m[z] == n[z] {
      assert (multiset{x} + m)[z] == (multiset{x} + n)[z];
    }
  }

  /** The position of an element of a sequence. */
  function IndexOf<T(==)>(s: seq<T>, x: T): (k: int)
    requires x in s
    ensures 0 <= k < |s| && s[k] == x
  {
    if s[0] == x then 0 else 1 + IndexOf(s[1..], x)
  }

  /** A sorted sequence of timestamps is determined by the timestamps it holds. */
  lemma {:induction false} SortedIsUnique(a: seq<int>, b: seq<int>)
    requires SortedInts(a) && SortedInts(b) && multiset(a) == multiset(b)
    ensures a == b
    decreases |a|
  {
    assert |a| == |multiset(a)| == |multiset(b)| == |b|;
    if a != [] {
      assert a[0] in multiset(b) && b[0] in multiset(a);
      assert b[IndexOf(b, a[0])] == a[0] && a[IndexOf(a, b[0])] == b[0];
      assert a[0] == b[0];
      assert a == [a[0]] + a[1..] && b == [b[0]] + b[1..];
      assert multiset(a) == multiset{a[0]} + multiset(a[1..]);
      assert multiset(b) == multiset{b[0]} + multiset(b[1..]);
      CancelOne(a[0], multiset(a[1..]), multiset(b[1..]));
      SortedIsUnique(a[1..], b[1..]);
    }
  }

  /** After both lists are sorted, the weight series and the BMI series still carry the same
      x-values in the same order. */
  lemma SortedSeriesShareTimes(ws: seq<Point>, bs: seq<Point>, w: seq<Point>, b: seq<Point>)
    requires SortedByTime(ws) && multiset(ws) == multiset(w)
    requires SortedByTime(bs) && multiset(bs) == multiset(b)
    requires Times(w) == Times(b)
    ensures Times(ws) == Times(bs)
  {
    TimesOfPermutation(ws, w);
    TimesOfPermutation(bs, b);
    SortedIsUnique(Times(ws), Times(bs));
  }

  /** One more row adds its point to each list when it is plottable and nothing otherwise. */
  lemma PointsStep(rows: seq<Row>, i: int)
    requires 0 <= i < |rows|
    ensures WeightPoints(rows[..i + 1]) ==
      WeightPoints(rows[..i]) + (if Plottable(rows[i]) then [WeightPoint(rows[i].value)] else [])
    ensures BmiPoints(rows[..i + 1]) ==
      BmiPoints(rows[..i]) + (if Plottable(rows[i]) then [BmiPoint(rows[i].value)] else [])
  {
    assert rows[..i + 1][..i] == rows[..i];
  }

  /** The running extremes after one more point: the new point wins only when it is beyond
      the extreme so far (strictly, as in the source's comparisons). */
  lemma ExtremesAppend(pts: seq<Point>, p: Point)
    ensures Lowest(pts + [p]) == if p.y < Lowest(pts) then p.y else Lowest(pts)
    ensures Highest(pts + [p]) == if p.y > Highest(pts) then p.y else Highest(pts)
    ensures pts == [] ==> Earliest(pts + [p]) == p.x == Latest(pts + [p])
    ensures pts != [] ==> Earliest(pts + [p]) == if p.x < Earliest(pts) then p.x else Earliest(pts)
    ensures pts != [] ==> Latest(pts + [p]) == if p.x > Latest(pts) then p.x else Latest(pts)
  {
  }

  /** The collection loop: walks the rows once, appends the points of every plottable row and
      keeps the running extremes of time, weight and BMI. */
  method CollectPoints(rows: seq<Row>)
    returns (weightPts: seq<Point>, bmiPts: seq<Point>, minDate: Option<int>, maxDate: Option<int>,
             minWeight: real, maxWeight: real, minBmi: real, maxBmi: real)
    ensures weightPts == WeightPoints(rows) && bmiPts == BmiPoints(rows)
    ensures minDate == if weightPts == [] then None else Some(Earliest(weightPts))
    ensures maxDate == if weightPts == [] then None else Some(Latest(weightPts))
    ensures minWeight == Lowest(weightPts) && maxWeight == Highest(weightPts)
    ensures minBmi == Lowest(bmiPts) && maxBmi == Highest(bmiPts)
  {
    weightPts, bmiPts := [], [];
    minDate, maxDate := None, None;
    minWeight, maxWeight := DoubleMax, DoubleMinPositive;
    minBmi, maxBmi := DoubleMax, DoubleMinPositive;
    for i := 0 to |rows|
      invariant weightPts == WeightPoints(rows[..i]) && bmiPts == BmiPoints(rows[..i])
      invariant minDate == if weightPts == [] then None else Some(Earliest(weightPts))
      invariant maxDate == if weightPts == [] then None else Some(Latest(weightPts))
      invariant minWeight == Lowest(weightPts) && maxWeight == Highest(weightPts)
      invariant minBmi == Lowest(bmiPts) && maxBmi == Highest(bmiPts)
    {
      PointsStep(rows, i);
      var row := rows[i];
      if row.Some? {
        var cells := row.value;
        if cells.time.Some? && cells.weight > 0.0 && cells.bmi > 0.0 {
          var t := cells.time.value;
          ExtremesAppend(weightPts, Point(t, cells.weight));
          ExtremesAppend(bmiPts, Point(t, cells.bmi));
          weightPts := weightPts + [Point(t, cells.weight)];
          bmiPts := bmiPts + [Point(t, cells.bmi)];
          if minDate.None? || t < minDate.value {
            minDate := Some(t);
          }
          if maxDate.None? || t > maxDate.value {
            maxDate := Some(t);
          }
          if cells.weight < minWeight {
            minWeight := cells.weight;
          }
          if cells.weight > maxWeight {
            maxWeight := cells.weight;
          }
          if cells.bmi < minBmi {
            minBmi := cells.bmi;
          }
          if cells.bmi > maxBmi {
            maxBmi := cells.bmi;
          }
        }
      }
    }
    assert rows[..|rows|] == rows;
  }

  /** The time axis for data between `minMs` and `maxMs`: a day each side of a single instant,
      otherwise the span widened by its truncated 5 % each side. */
  method TimeRange(minMs: int, maxMs: int) returns (axis: Axis<int>)
    requires minMs <= maxMs
    ensures TimeAxisFor(minMs, maxMs, axis)
    ensures axis.lo <= minMs && maxMs <= axis.hi && axis.lo < axis.hi
  {
    var lo, hi := minMs, maxMs;
    if lo == hi {
      lo := lo - DayMs;
      hi := hi + DayMs;
    } else {
      var marginMs := (hi - lo) / 20;
      lo := lo - marginMs;
      hi := hi + marginMs;
    }
    axis := Axis(lo, hi);
  }

  /** Sorts a copy of a point list by timestamp, in an array as the chart code does. */
  method SortedCopy(pts: seq<Point>) returns (sorted: seq<Point>)
    ensures SortedByTime(sorted) && multiset(sorted) == multiset(pts)
  {
    var a := new Point[|pts|](k requires 0 <= k < |pts| => pts[k]);
    assert a[..] == pts;
    SortByTime(a);
    sorted := a[..];
  }

  /** Builds both series from the table rows and sets the three axis ranges. */
  method UpdateCharts(rows: seq<Row>, clock: Clock) returns (chart: Chart)
    ensures SortedByTime(chart.weightSeries) && multiset(chart.weightSeries) == multiset(WeightPoints(rows))
    ensures SortedByTime(chart.bmiSeries) && multiset(chart.bmiSeries) == multiset(BmiPoints(rows))
    ensures Times(chart.weightSeries) == Times(chart.bmiSeries)
    ensures WeightPoints(rows) == [] ==>
      && chart.weightSeries == [] && chart.bmiSeries == []
      && chart.timeAxis == Axis(clock.monthAgo, clock.dayAhead)
      && chart.weightAxis == Axis(0.0, 100.0) && chart.bmiAxis == Axis(0.0, 40.0)
    ensures WeightPoints(rows) != [] ==>
      && TimeAxisFor(Earliest(WeightPoints(rows)), Latest(WeightPoints(rows)), chart.timeAxis)
      && chart.timeAxis.lo < chart.timeAxis.hi
      && chart.weightAxis == PaddedRange(Lowest(WeightPoints(rows)), Highest(WeightPoints(rows)))
      && chart.bmiAxis == PaddedRange(Lowest(BmiPoints(rows)), Highest(BmiPoints(rows)))
    ensures forall p | p in chart.weightSeries ::
      chart.timeAxis.lo <= p.x <= chart.timeAxis.hi && chart.weightAxis.lo < p.y < chart.weightAxis.hi
    ensures forall p | p in chart.bmiSeries ::
      chart.timeAxis.lo <= p.x <= chart.timeAxis.hi && chart.bmiAxis.lo < p.y < chart.bmiAxis.hi
  {
    var weightPts, bmiPts, minDate, maxDate, minWeight, maxWeight, minBmi, maxBmi := CollectPoints(rows);
    var weightSeries := SortedCopy(weightPts);
    var bmiSeries := SortedCopy(bmiPts);
    PointsShareTimes(rows);
    SortedSeriesShareTimes(weightSeries, bmiSeries, weightPts, bmiPts);
    SameElements(weightSeries, weightPts);
    SameElements(bmiSeries, bmiPts);

    if weightPts != [] {
      var timeAxis := TimeRange(minDate.value, maxDate.value);
      chart := Chart(weightSeries, bmiSeries, timeAxis,
                     PaddedRange(minWeight, maxWeight), PaddedRange(minBmi, maxBmi));
      PlottedWithinAxes(weightPts, bmiPts, chart);
    } else {
      assert |weightSeries| == |multiset(weightSeries)| == 0;
      assert |bmiSeries| == |Times(bmiSeries)| == |Times(weightSeries)| == 0;
      chart := Chart(weightSeries, bmiSeries, Axis(clock.monthAgo, clock.dayAhead),
                     Axis(0.0, 100.0), Axis(0.0, 40.0));
    }
  }

  /** Lists holding the same points have the same members. */
  lemma SameElements(a: seq<Point>, b: seq<Point>)
    requires multiset(a) == multiset(b)
    ensures forall p :: p in a <==> p in b
  {
    forall p ensures p in a <==> p in b {
      assert p in a <==> p in multiset(a);
      assert p in b <==> p in multiset(b);
    }
  }

  /** The lowest value of a non-empty list of positive values is positive. */
  lemma LowestPositive(pts: seq<Point>)
    requires pts != [] && forall p | p in pts :: p.y > 0.0
    ensures Lowest(pts) > 0.0
  {
  }

  /** Points whose timestamps are those of `w` fall between the earliest and latest of `w`. */
  lemma SharedTimesWithin(w: seq<Point>, b: seq<Point>)
    requires w != [] && Times(w) == Times(b)
    ensures forall p | p in b :: Earliest(w) <= p.x <= Latest(w)
  {
    forall p | p in b ensures Earliest(w) <= p.x <= Latest(w) {
      var k := IndexOf(b, p);
      assert Times(b)[k] == p.x;
      assert Times(w)[k] == w[k].x;
      assert w[k] in w;
    }
  }

  /** A value axis widened by 5% on both sides strictly contains every value of the list. */
  lemma ValuesWithin(pts: seq<Point>, axis: Axis<real>)
    requires pts != [] && forall p | p in pts :: p.y > 0.0
    requires axis == PaddedRange(Lowest(pts), Highest(pts))
    ensures forall p | p in pts :: axis.lo < p.y < axis.hi
  {
    DoubleLimits();
    LowestPositive(pts);
  }

  /** With data, every collected point lies inside the axes the policy picks. */
  lemma PlottedWithinAxes(w: seq<Point>, b: seq<Point>, chart: Chart)
    requires w != [] && Times(w) == Times(b)
    requires forall p | p in w :: p.y > 0.0
    requires forall p | p in b :: p.y > 0.0
    requires TimeAxisFor(Earliest(w), Latest(w), chart.timeAxis)
    requires chart.weightAxis == PaddedRange(Lowest(w), Highest(w))
    requires chart.bmiAxis == PaddedRange(Lowest(b), Highest(b))
    ensures chart.timeAxis.lo < chart.timeAxis.hi
    ensures forall p | p in w ::
      chart.timeAxis.lo <= p.x <= chart.timeAxis.hi && chart.weightAxis.lo < p.y < chart.weightAxis.hi
    ensures forall p | p in b ::
      chart.timeAxis.lo <= p.x <= chart.timeAxis.hi && chart.bmiAxis.lo < p.y < chart.bmiAxis.hi
  {
    assert b != [] by { assert |b| == |Times(b)| == |Times(w)| == |w|; }
    ValuesWithin(w, chart.weightAxis);
    ValuesWithin(b, chart.bmiAxis);
    SharedTimesWithin(w, b);
  }

  /** The running maximum is one of the values as soon as every value is at least the smallest
      positive double, which the row filter's positivity test is there to ensure. */
  lemma HighestAttained(pts: seq<Point>)
    requires pts != [] && forall p | p in pts :: p.y >= DoubleMinPositive
    ensures Highest(pts) in Values(pts)
  {
    if Highest(pts) == DoubleMinPositive {
      assert pts[0] in pts;
      assert Values(pts)[0] == pts[0].y;
    }
  }

  /** The running minimum is one of the values when none exceeds the largest double. */
  lemma LowestAttained(pts: seq<Point>)
    requires pts != [] && forall p | p in pts :: p.y <= DoubleMax
    ensures Lowest(pts) in Values(pts)
  {
    if Lowest(pts) == DoubleMax {
      assert pts[0] in pts;
      assert Values(pts)[0] == pts[0].y;
    }
  }

  /** One measurement of 80 kg with a BMI of 25 at instant `t`: one point per series and a
      time axis one day either side. */
  lemma SinglePointExample(t: int)
    ensures var rows := [Some(Cells(Some(t), 80.0, 25.0))];
      && WeightPoints(rows) == [Point(t, 80.0)] && BmiPoints(rows) == [Point(t, 25.0)]
      && TimeAxisFor(Earliest(WeightPoints(rows)), Latest(WeightPoints(rows)), Axis(t - DayMs, t + DayMs))
  {
  }

  /** The value axes of that measurement: [76, 84] for the weight and [23.75, 26.25] for the
      BMI. */
  lemma SinglePointAxesExample(t: int)
    ensures PaddedRange(Lowest([Point(t, 80.0)]), Highest([Point(t, 80.0)])) == Axis(76.0, 84.0)
    ensures PaddedRange(Lowest([Point(t, 25.0)]), Highest([Point(t, 25.0)])) == Axis(23.75, 26.25)
  {
  }

  /** Rows with an unparsable date, a zero weight or a missing cell contribute no point. */
  lemma DroppedRowsExample(t: int)
    ensures WeightPoints([Some(Cells(None, 80.0, 25.0)), Some(Cells(Some(t), 0.0, 25.0)), None]) == []
  {
    var rows: seq<Row> := [Some(Cells(None, 80.0, 25.0)), Some(Cells(Some(t), 0.0, 25.0)), None];
    PointsStep(rows, 0);
    PointsStep(rows, 1);
    PointsStep(rows, 2);
    assert rows[..0] == [] && rows[..3] == rows;
  }

  /** Two instants ten days apart: the span is 864 000 000 ms, so each side gets 43 200 000 ms. */
  lemma MarginExample()
    ensures FivePercentMargin(864000000, 43200000)
    ensures !FivePercentMargin(864000000, 43200001)
    ensures FivePercentMargin(39, 1)
  {
  }
}
