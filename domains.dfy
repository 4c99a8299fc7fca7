/**
 * The time extent and the two chart domains of
 * assets/src/scripts/components/graph/state/points.js.
 */
module Domains {
  import opened Options
  import opened Points

  /** A time interval `[lo, hi]` in milliseconds. */
  datatype Span = Span(lo: int, hi: int)

  /** A value interval `[lo, hi]`. */
  datatype Range = Range(lo: real, hi: real)

  /** 20% padding around the y-domain. */
  const PaddingRatio: real := 0.2

  /** `e` is the tight time extent of `pts`: it holds every time stamp, and both ends are time stamps of points. */
  ghost predicate IsExtent(e: Span, pts: seq<ChartPoint>)
  {
    && (forall i :: 0 <= i < |pts| ==> e.lo <= pts[i].dateTime <= e.hi)
    && (exists i :: 0 <= i < |pts| && pts[i].dateTime == e.lo)
    && (exists j :: 0 <= j < |pts| && pts[j].dateTime == e.hi)
  }

  /** The least and greatest time stamp of the points, or None when there are none. */
  function ExtentX(pts: seq<ChartPoint>): (r: Option<Span>)
    ensures r.None? <==> pts == []
    ensures r.Some? ==> r.value.lo <= r.value.hi && IsExtent(r.value, pts)
  {
    if pts == [] then None
    else
      var t := pts[0].dateTime;
      var rest := ExtentX(pts[1..]);
      assert forall i :: 1 <= i < |pts| ==> pts[i] == pts[1..][i - 1];
      match rest
      case None => Some(Span(t, t))
      case Some(e) =>
        assert exists i :: 1 <= i < |pts| && pts[i].dateTime == e.lo by {
          var i :| 0 <= i < |pts[1..]| && pts[1..][i].dateTime == e.lo;
          assert pts[i + 1].dateTime == e.lo;
        }
        assert exists i :: 1 <= i < |pts| && pts[i].dateTime == e.hi by {
          var i :| 0 <= i < |pts[1..]| && pts[1..][i].dateTime == e.hi;
          assert pts[i + 1].dateTime == e.hi;
        }
        Some(Span(if t < e.lo then t else e.lo, if e.hi < t then t else e.hi))
  }

  /** A set of points has at most one tight extent. */
  lemma ExtentUnique(a: Span, b: Span, pts: seq<ChartPoint>)
    requires IsExtent(a, pts) && IsExtent(b, pts)
    ensures a == b
  {
  }

  /** The tight extent of sorted points runs from the first point's time to the last one's. */
  lemma SortedExtent(e: Span, pts: seq<ChartPoint>)
    requires SortedByTime(pts) && IsExtent(e, pts)
    ensures pts != [] && e == Span(pts[0].dateTime, pts[|pts| - 1].dateTime)
  {
    var i :| 0 <= i < |pts| && pts[i].dateTime == e.lo;
    var j :| 0 <= j < |pts| && pts[j].dateTime == e.hi;
    SortedAt(pts, 0, i);
    SortedAt(pts, j, |pts| - 1);
  }

  /** So ExtentX of sorted points is their first and last time. */
  lemma ExtentOfSorted(pts: seq<ChartPoint>)
    requires SortedByTime(pts) && pts != []
    ensures ExtentX(pts) == Some(Span(pts[0].dateTime, pts[|pts| - 1].dateTime))
  {
    SortedExtent(ExtentX(pts).value, pts);
  }

  /**
   * The time domain: the viewport, when the chart is the main chart and a
   * viewport is set; otherwise the time extent of the points, unpadded.
   */
  function DomainX(chartType: string, pts: seq<ChartPoint>, viewport: Option<Span>): (r: Option<Span>)
    ensures chartType == "main" && viewport.Some? ==> r == viewport
    ensures chartType != "main" || viewport.None? ==>
      (r.None? <==> pts == []) && (r.Some? ==> IsExtent(r.value, pts))
  {
    if chartType == "main" && viewport.Some? then viewport
    else ExtentX(pts)
  }

  /** The value of each point, in order. */
  function Values(pts: seq<ChartPoint>): (vs: seq<real>)
    ensures |vs| == |pts|
    ensures forall i :: 0 <= i < |pts| ==> vs[i] == pts[i].value
  {
    seq(|pts|, i requires 0 <= i < |pts| => pts[i].value)
  }

  function Min(a: real, b: real): real
  {
    if a <= b then a else b
  }

  function Max(a: real, b: real): real
  {
    if a <= b then b else a
  }

  /** `Math.min(...vs)` for a non-empty `vs`. */
  function MinOf(vs: seq<real>): (m: real)
    requires vs != []
    ensures m in vs
    ensures forall i :: 0 <= i < |vs| ==> m <= vs[i]
  {
    if |vs| == 1 then vs[0]
    else
      var rest := MinOf(vs[1..]);
      assert forall i :: 1 <= i < |vs| ==> vs[i] == vs[1..][i - 1];
      Min(vs[0], rest)
  }

  /** `Math.max(...vs)` for a non-empty `vs`. */
  function MaxOf(vs: seq<real>): (m: real)
    requires vs != []
    ensures m in vs
    ensures forall i :: 0 <= i < |vs| ==> vs[i] <= m
  {
    if |vs| == 1 then vs[0]
    else
      var rest := MaxOf(vs[1..]);
      assert forall i :: 1 <= i < |vs| ==> vs[i] == vs[1..][i - 1];
      Max(vs[0], rest)
  }

  /** The charts whose value domain follows the well log instead of being padded. */
  predicate IsWellLogChart(chartType: string)
  {
    chartType == "lithology" || chartType == "construction"
  }

  /**
   * The value domain. Empty data gives `[0, 0]`. Otherwise the data range
   * is extended to zero and the well log's extent on the lithology and
   * construction charts, and padded by PaddingRatio of its width at both
   * ends on every other chart; the low end is finally raised to zero when
   * the range before padding was non-negative.
   */
  function DomainY(chartType: string, pts: seq<ChartPoint>, wellLogExtentY: Range): (r: Range)
    ensures pts == [] ==> r == Range(0.0, 0.0)
    ensures r.lo <= r.hi
    ensures forall i :: 0 <= i < |pts| ==> r.lo <= pts[i].value <= r.hi
    ensures pts != [] && IsWellLogChart(chartType) ==>
      r.lo <= 0.0 && r.lo <= wellLogExtentY.lo && wellLogExtentY.hi <= r.hi
    ensures !IsWellLogChart(chartType) && (forall i :: 0 <= i < |pts| ==> 0.0 <= pts[i].value) ==> 0.0 <= r.lo
    ensures (exists i :: 0 <= i < |pts| && pts[i].value < 0.0) ==> r.lo < 0.0
  {
    var values := Values(pts);
    if |values| == 0 then Range(0.0, 0.0)
    else
      var domain := Range(MinOf(values), MaxOf(values));
      var domain :=
        if IsWellLogChart(chartType)
        then Range(Min(0.0, Min(wellLogExtentY.lo, domain.lo)), Max(wellLogExtentY.hi, domain.hi))
        else domain;
      var isPositive := domain.lo >= 0.0 && domain.hi >= 0.0;
      var domain :=
        if !IsWellLogChart(chartType)
        then var padding := PaddingRatio * (domain.hi - domain.lo);
          Range(domain.lo - padding, domain.hi + padding)
        else domain;
      Range(if isPositive then Max(0.0, domain.lo) else domain.lo, domain.hi)
  }

  /** `m` is the least value among `pts`. */
  ghost predicate IsMinValue(m: real, pts: seq<ChartPoint>)
  {
    (exists i :: 0 <= i < |pts| && pts[i].value == m) && forall i :: 0 <= i < |pts| ==> m <= pts[i].value
  }

  /** `m` is the greatest value among `pts`. */
  ghost predicate IsMaxValue(m: real, pts: seq<ChartPoint>)
  {
    (exists i :: 0 <= i < |pts| && pts[i].value == m) && forall i :: 0 <= i < |pts| ==> pts[i].value <= m
  }

  lemma MinMaxOfValues(pts: seq<ChartPoint>, lo: real, hi: real)
    requires IsMinValue(lo, pts) && IsMaxValue(hi, pts)
    ensures pts != [] && MinOf(Values(pts)) == lo && MaxOf(Values(pts)) == hi
  {
    var vs := Values(pts);
    var i :| 0 <= i < |vs| && vs[i] == MinOf(vs);
    var j :| 0 <= j < |vs| && vs[j] == MaxOf(vs);
  }

  /**
   * On the lithology and construction charts the domain reaches from the
   * least of zero, the well log's low end and the data's least value to the
   * greater of the well log's high end and the data's greatest value, unpadded.
   */
  lemma DomainYWellLog(chartType: string, pts: seq<ChartPoint>, wellLogExtentY: Range, lo: real, hi: real)
    requires IsWellLogChart(chartType)
    requires IsMinValue(lo, pts) && IsMaxValue(hi, pts)
    ensures DomainY(chartType, pts, wellLogExtentY) ==
      Range(Min(0.0, Min(wellLogExtentY.lo, lo)), Max(wellLogExtentY.hi, hi))
  {
    MinMaxOfValues(pts, lo, hi);
  }

  /**
   * On every other chart both ends move out by 0.2 of the data's width; the
   * low end is then clamped at zero when the unpadded range was non-negative,
   * and the high end never is.
   */
  lemma DomainYPadded(chartType: string, pts: seq<ChartPoint>, wellLogExtentY: Range, lo: real, hi: real)
    requires !IsWellLogChart(chartType)
    requires IsMinValue(lo, pts) && IsMaxValue(hi, pts)
    ensures DomainY(chartType, pts, wellLogExtentY).hi == hi + 0.2 * (hi - lo)
    ensures DomainY(chartType, pts, wellLogExtentY).lo ==
      if lo >= 0.0 && hi >= 0.0 then Max(0.0, lo - 0.2 * (hi - lo)) else lo - 0.2 * (hi - lo)
  {
    MinMaxOfValues(pts, lo, hi);
  }

  /** The domain of the main chart over values 1, 2, 3 is `[0.6, 3.4]`; over -1, 1 it is `[-1.4, 1.4]`. */
  lemma DomainYMainExamples(t: int, wl: Range)
    ensures DomainY("main", [ChartPoint(t, 1.0, None), ChartPoint(t + 1, 2.0, None), ChartPoint(t + 2, 3.0, None)], wl) == Range(0.6, 3.4)
    ensures DomainY("main", [ChartPoint(t, -1.0, None), ChartPoint(t + 1, 1.0, None)], wl) == Range(-1.4, 1.4)
  {
    var a := [ChartPoint(t, 1.0, None), ChartPoint(t + 1, 2.0, None), ChartPoint(t + 2, 3.0, None)];
    assert a[0].value == 1.0 && a[2].value == 3.0;
    DomainYPadded("main", a, wl, 1.0, 3.0);
    var b := [ChartPoint(t, -1.0, None), ChartPoint(t + 1, 1.0, None)];
    assert b[0].value == -1.0 && b[1].value == 1.0;
    DomainYPadded("main", b, wl, -1.0, 1.0);
  }

  /** The lithology domain over values 5 and 10 with well-log extent `[0, 12]` is `[0, 12]`. */
  lemma DomainYLithologyExample(t: int)
    ensures DomainY("lithology", [ChartPoint(t, 5.0, None), ChartPoint(t + 1, 10.0, None)], Range(0.0, 12.0)) == Range(0.0, 12.0)
  {
    var a := [ChartPoint(t, 5.0, None), ChartPoint(t + 1, 10.0, None)];
    assert a[0].value == 5.0 && a[1].value == 10.0;
    DomainYWellLog("lithology", a, Range(0.0, 12.0), 5.0, 10.0);
  }
}
