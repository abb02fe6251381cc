/** The utilization charts: one pass over the rows (cpu_utilization_service.py) against one query per
    interval (memory_utilization_service.py). */
module Buckets {
  import opened Arithmetic

  const TOTAL_BUCKETS := 7

  datatype Row = Row(util: real, ts: int)

  // The label of a chart point is its age in minutes.
  datatype Point = Point(minutes: int, value: real)

  // The utilizations of the rows that satisfy p, in order.
  function Select(rows: seq<Row>, p: Row -> bool): seq<real> {
    if rows == [] then []
    else
      var last, rest := rows[|rows| - 1], Select(rows[..|rows| - 1], p);
      if p(last) then rest + [last.util] else rest
  }

  function Sum(values: seq<real>): real {
    if values == [] then 0.0 else Sum(values[..|values| - 1]) + values[|values| - 1]
  }

  function Average(values: seq<real>): real {
    if values == [] then 0.0 else Sum(values) / |values| as real
  }

  // The query of the one-pass form: the whole window, including its oldest instant, excluding now.
  predicate InWindow(r: Row, now: int, width: int) {
    now - width * TOTAL_BUCKETS <= r.ts < now
  }

  function Age(r: Row, now: int): int {
    now - r.ts
  }

  // Bucket i of the one-pass form, and of the form with one query per interval.
  function OnePass(now: int, width: int, i: int): Row -> bool {
    (r: Row) => InWindow(r, now, width) && width * i <= Age(r, now) < width * i + width
  }

  function PerInterval(now: int, width: int, i: int): Row -> bool {
    (r: Row) => now - width * i - width <= r.ts < now - width * i
  }

  // The points of the buckets, and the chart: the newest bucket comes first and is shown last.
  function Points(buckets: seq<seq<real>>, minutes: int): seq<Point> {
    seq(|buckets|, i requires 0 <= i < |buckets| => Point((i + 1) * minutes, Average(buckets[i])))
  }

  function Reversed(points: seq<Point>): seq<Point> {
    seq(|points|, k requires 0 <= k < |points| => points[|points| - 1 - k])
  }

  function Chart(buckets: seq<seq<real>>, minutes: int): seq<Point> {
    Reversed(Points(buckets, minutes))
  }

  function Forms(rows: seq<Row>, form: int -> Row -> bool): (buckets: seq<seq<real>>)
    ensures |buckets| == TOTAL_BUCKETS
  {
    seq(TOTAL_BUCKETS, i => Select(rows, form(i)))
  }

  // Time is counted in units of which there are unit in a minute.
  method CpuUtilization(rows: seq<Row>, now: int, minutes: int, unit: int) returns (data: seq<Point>)
    requires unit > 0
    ensures data == Chart(Forms(rows, i => OnePass(now, minutes * unit, i)), minutes) && |data| == 7
  {
    var width := minutes * unit;
    var buckets := FillBuckets(rows, now, width);
    data := [];
    for i := 0 to TOTAL_BUCKETS
      invariant data == Points(buckets[..i], minutes)
    {
      data := data + [Point((i + 1) * minutes, Average(buckets[i]))];
    }
    assert buckets[..TOTAL_BUCKETS] == buckets == Forms(rows, i => OnePass(now, minutes * unit, i));
    data := Reversed(data);
  }

  // The pass over the rows.
  method FillBuckets(rows: seq<Row>, now: int, width: int) returns (filled: seq<seq<real>>)
    ensures |filled| == TOTAL_BUCKETS
    ensures forall i :: 0 <= i < TOTAL_BUCKETS ==> filled[i] == Select(rows, OnePass(now, width, i))
  {
    var buckets := new seq<real>[TOTAL_BUCKETS](i => []);
    for n := 0 to |rows|
      invariant forall i :: 0 <= i < TOTAL_BUCKETS ==> buckets[i] == Select(rows[..n], OnePass(now, width, i))
    {
      var r := rows[n];
      assert rows[..n + 1][..n] == rows[..n];
      if InWindow(r, now, width) {
        var index := Age(r, now) / width;
        BucketIs(r, now, width, index);
        if 0 <= index < TOTAL_BUCKETS {
          buckets[index] := buckets[index] + [r.util];
        }
      }
    }
    assert rows[..|rows|] == rows;
    filled := buckets[..];
  }

  lemma BucketIs(r: Row, now: int, width: int, index: int)
    requires width > 0 && InWindow(r, now, width) && index == Age(r, now) / width
    ensures forall i :: OnePass(now, width, i)(r) <==> index == i
  {
    forall i ensures OnePass(now, width, i)(r) <==> index == i {
      QuotientIs(Age(r, now), width, i);
    }
  }

  method MemoryUtilization(rows: seq<Row>, now: int, minutes: int, unit: int) returns (data: seq<Point>)
    requires unit > 0
    ensures data == Chart(Forms(rows, i => PerInterval(now, minutes * unit, i)), minutes) && |data| == 7
  {
    var width := minutes * unit;
    data := [];
    ghost var buckets := Forms(rows, i => PerInterval(now, width, i));
    for i := 0 to TOTAL_BUCKETS
      invariant data == Points(buckets[..i], minutes)
    {
      var end := now - width * i;
      var start := end - width;
      var values := Select(rows, (r: Row) => start <= r.ts < end);
      SelectSame(rows, (r: Row) => start <= r.ts < end, PerInterval(now, width, i));
      data := data + [Point((i + 1) * minutes, Average(values))];
    }
    assert buckets[..TOTAL_BUCKETS] == buckets;
    data := Reversed(data);
  }

  // ---------------------------------------------------------------------------------------------
  // What a chart shows
  // ---------------------------------------------------------------------------------------------

  function Total(values: seq<real>): real {
    if values == [] then 0.0 else values[0] + Total(values[1..])
  }

  lemma {:induction false} SumIsTotal(values: seq<real>)
    ensures Sum(values) == Total(values)
  {
    if |values| == 1 {
      assert values[..0] == [] && values[1..] == [];
    } else if values != [] {
      var n := |values| - 1;
      SumIsTotal(values[..n]);
      SumIsTotal(values[1..]);
      SumIsTotal(values[1..][..n - 1]);
      assert values[1..][..n - 1] == values[..n][1..];
    }
  }

  // The value of a point: zero for an empty bucket, else what the bucket's values have on average.
  ghost predicate Mean(value: real, values: seq<real>) {
    if values == [] then value == 0.0 else value * |values| as real == Total(values)
  }

  lemma AverageIsMean(values: seq<real>)
    ensures Mean(Average(values), values)
  {
    SumIsTotal(values);
    if values != [] {
      QuotientTimes(Sum(values), |values| as real);
    }
  }

  lemma QuotientTimes(a: real, b: real)
    requires b != 0.0
    ensures a / b * b == a
  {
  }

  // Main result: a chart has one point per bucket, the oldest first; point k stands for the bucket as many
  // places from the end, with the age of its older boundary as its label and its mean as its value.
  lemma ChartExactly(buckets: seq<seq<real>>, minutes: int, k: nat)
    requires k < |buckets|
    ensures var chart, i := Chart(buckets, minutes), |buckets| - 1 - k;
            && |chart| == |buckets|
            && chart[k].minutes == minutes * i + minutes
            && Mean(chart[k].value, buckets[i])
  {
    AverageIsMean(buckets[|buckets| - 1 - k]);
  }

  // The selected utilizations are those of the rows that satisfy the predicate, one each, in row order.
  lemma {:induction false} SelectAppend(a: seq<Row>, b: seq<Row>, p: Row -> bool)
    ensures Select(a + b, p) == Select(a, p) + Select(b, p)
  {
    if b == [] {
      assert a + b == a;
    } else {
      assert (a + b)[..|a + b| - 1] == a + b[..|b| - 1];
      SelectAppend(a, b[..|b| - 1], p);
    }
  }

  lemma SelectOne(r: Row, p: Row -> bool)
    ensures Select([r], p) == if p(r) then [r.util] else []
  {
    assert [r][..0] == [];
  }

  // ---------------------------------------------------------------------------------------------
  // Comparing the two forms
  // ---------------------------------------------------------------------------------------------

  lemma {:induction false} SelectSame(rows: seq<Row>, p: Row -> bool, q: Row -> bool)
    requires forall r :: r in rows ==> p(r) == q(r)
    ensures Select(rows, p) == Select(rows, q)
  {
    if rows != [] {
      SelectSame(rows[..|rows| - 1], p, q);
    }
  }

  lemma {:induction false} SelectSplits(rows: seq<Row>, p: Row -> bool, q: Row -> bool, both: Row -> bool)
    requires forall r :: r in rows ==> both(r) == (p(r) || q(r)) && !(p(r) && q(r))
    ensures |Select(rows, both)| == |Select(rows, p)| + |Select(rows, q)|
  {
    if rows != [] {
      SelectSplits(rows[..|rows| - 1], p, q, both);
    }
  }

  lemma {:induction false} SelectNone(rows: seq<Row>, p: Row -> bool)
    ensures Select(rows, p) == [] <==> forall r :: r in rows ==> !p(r)
  {
    if rows != [] {
      SelectNone(rows[..|rows| - 1], p);
      assert rows == rows[..|rows| - 1] + [rows[|rows| - 1]];
    }
  }

  // The rows strictly between two boundaries, and those on a boundary.
  function Inside(now: int, width: int, i: int): Row -> bool {
    (r: Row) => width * i < Age(r, now) < width * i + width
  }

  function OnBoundary(now: int, width: int, i: int): Row -> bool {
    (r: Row) => 0 < Age(r, now) == width * i
  }

  lemma BoundaryStep(width: int, i: int)
    requires width > 0 && 0 <= i < TOTAL_BUCKETS
    ensures 0 <= width * i && width * (i + 1) == width * i + width <= width * TOTAL_BUCKETS
  {
    MulMonotone(width, 0, i);
    MulMonotone(width, i + 1, TOTAL_BUCKETS);
  }

  // A row on the older boundary of an interval belongs to it in one form, to the next one in the other.
  lemma BucketSizes(rows: seq<Row>, now: int, width: int, i: int)
    requires width > 0 && 0 <= i < TOTAL_BUCKETS
    ensures |Select(rows, OnePass(now, width, i))|
            == |Select(rows, Inside(now, width, i))| + |Select(rows, OnBoundary(now, width, i))|
    ensures |Select(rows, PerInterval(now, width, i))|
            == |Select(rows, Inside(now, width, i))| + |Select(rows, OnBoundary(now, width, i + 1))|
  {
    BoundaryStep(width, i);
    SelectSplits(rows, Inside(now, width, i), OnBoundary(now, width, i), OnePass(now, width, i));
    SelectSplits(rows, Inside(now, width, i), OnBoundary(now, width, i + 1), PerInterval(now, width, i));
  }

  ghost predicate AnyOnBoundary(rows: seq<Row>, now: int, width: int) {
    exists r, i :: r in rows && 1 <= i <= TOTAL_BUCKETS && OnBoundary(now, width, i)(r)
  }

  ghost predicate FormsAgree(rows: seq<Row>, now: int, width: int) {
    forall i :: 0 <= i < TOTAL_BUCKETS ==>
      Select(rows, OnePass(now, width, i)) == Select(rows, PerInterval(now, width, i))
  }

  // Main result: the two forms fill every bucket alike exactly when no row of the window lies on a
  // boundary between intervals.
  lemma FormsAgreeIff(rows: seq<Row>, now: int, width: int)
    requires width > 0
    ensures FormsAgree(rows, now, width) <==> !AnyOnBoundary(rows, now, width)
  {
    if !AnyOnBoundary(rows, now, width) {
      forall i | 0 <= i < TOTAL_BUCKETS
        ensures Select(rows, OnePass(now, width, i)) == Select(rows, PerInterval(now, width, i))
      {
        BoundaryStep(width, i);
        assert forall r :: r in rows ==> !OnBoundary(now, width, i + 1)(r);
        assert forall r :: r in rows && i > 0 ==> !OnBoundary(now, width, i)(r);
        SelectSame(rows, OnePass(now, width, i), PerInterval(now, width, i));
      }
    }
    if FormsAgree(rows, now, width) {
      forall i | 0 <= i <= TOTAL_BUCKETS ensures forall r :: r in rows ==> !OnBoundary(now, width, i)(r) {
        NoneOnBoundary(rows, now, width, i);
      }
    }
  }

  lemma {:induction false} NoneOnBoundary(rows: seq<Row>, now: int, width: int, i: nat)
    requires width > 0 && i <= TOTAL_BUCKETS && FormsAgree(rows, now, width)
    ensures forall r :: r in rows ==> !OnBoundary(now, width, i)(r)
  {
    if i > 0 {
      NoneOnBoundary(rows, now, width, i - 1);
      SelectNone(rows, OnBoundary(now, width, i - 1));
      BucketSizes(rows, now, width, i - 1);
      SelectNone(rows, OnBoundary(now, width, i));
    }
  }

  // A window without width has no rows in either form.
  lemma NoWidthNoRows(rows: seq<Row>, now: int, width: int)
    requires width <= 0
    ensures FormsAgree(rows, now, width)
  {
    forall i | 0 <= i < TOTAL_BUCKETS
      ensures Select(rows, OnePass(now, width, i)) == Select(rows, PerInterval(now, width, i))
    {
      SelectSame(rows, OnePass(now, width, i), PerInterval(now, width, i));
    }
  }

  // Main result: a row strictly inside the window falls into exactly one bucket of the one-pass form.
  lemma ExactlyOneBucket(r: Row, now: int, width: int)
    requires width > 0
    ensures (exists i :: 0 <= i < TOTAL_BUCKETS && OnePass(now, width, i)(r))
            <==> now - width * TOTAL_BUCKETS < r.ts < now
    ensures forall i, j :: OnePass(now, width, i)(r) && OnePass(now, width, j)(r) ==> i == j
  {
    var index := Age(r, now) / width;
    forall i ensures OnePass(now, width, i)(r) ==> i == index {
      QuotientIs(Age(r, now), width, i);
    }
    QuotientIs(Age(r, now), width, index);
    assert width * (index + 1) == width * index + width;
    if now - width * TOTAL_BUCKETS < r.ts < now {
      if index >= TOTAL_BUCKETS {
        MulMonotone(width, TOTAL_BUCKETS, index);
      } else if index < 0 {
        MulMonotone(width, index + 1, 0);
      }
      assert OnePass(now, width, index)(r);
    }
    if i :| 0 <= i < TOTAL_BUCKETS && OnePass(now, width, i)(r) {
      BoundaryStep(width, i);
    }
  }
}
