/**
 * Line segmentation of assets/src/scripts/components/graph/state/points.js:
 * the sorted chart points are cut into runs that the chart draws as
 * separate lines, at every change of classification and at every gap
 * longer than MaxLinePointGap.
 */
module Segments {
  import opened Options
  import opened Points

  /** Lines are split where consecutive points are more than 182 days apart, in milliseconds. */
  const MaxLinePointGap: int := 182 * 24 * 60 * 60 * 1000

  /** A line of the chart: its class label and its points, in order. */
  datatype LineSegment = LineSegment(lineClass: string, points: seq<ChartPoint>)

  /** The label of a line whose points have classification `c`: the grade's name, or "unclassed". */
  function Label(c: Option<Grade>): (s: string)
    ensures c.None? ==> s == "unclassed"
    ensures c.Some? ==> s == GradeName(c.value) && s != "unclassed"
  {
    match c
    case Some(g) => GradeName(g)
    case None => "unclassed"
  }

  /** Whether point `pt`, following `prev`, starts a new line: its class differs, or the gap is too long. */
  predicate Splits(prev: ChartPoint, pt: ChartPoint)
  {
    prev.classification != pt.classification || pt.dateTime - prev.dateTime > MaxLinePointGap
  }

  function Last<T>(s: seq<T>): T
    requires s != []
  {
    s[|s| - 1]
  }

  /** The points of all lines, concatenated in order. */
  function Flatten(lines: seq<LineSegment>): seq<ChartPoint>
  {
    if lines == [] then [] else Flatten(lines[..|lines| - 1]) + Last(lines).points
  }

  predicate NoEmptyLine(lines: seq<LineSegment>)
  {
    forall k :: 0 <= k < |lines| ==> lines[k].points != []
  }

  /** `lines` after one more point: a new line if the point splits from the last one, else the last line grown. */
  function Extend(lines: seq<LineSegment>, pt: ChartPoint): (r: seq<LineSegment>)
    requires NoEmptyLine(lines)
    ensures NoEmptyLine(r) && r != [] && Last(Last(r).points) == pt
  {
    if lines == [] || Splits(Last(Last(lines).points), pt) then
      assert (lines + [LineSegment(Label(pt.classification), [pt])])[..|lines|] == lines;
      lines + [LineSegment(Label(pt.classification), [pt])]
    else
      var n := |lines| - 1;
      var r := lines[..n] + [lines[n].(points := lines[n].points + [pt])];
      assert r[..n] == lines[..n];
      r
  }

  /** The lines of `pts`, grown point by point. */
  function Segmentation(pts: seq<ChartPoint>): (r: seq<LineSegment>)
    ensures NoEmptyLine(r)
  {
    if pts == [] then []
    else
      Extend(Segmentation(pts[..|pts| - 1]), Last(pts))
  }

  /** Extend appends the point to the concatenation of the lines. */
  lemma ExtendFlattens(lines: seq<LineSegment>, pt: ChartPoint)
    requires NoEmptyLine(lines)
    ensures Flatten(Extend(lines, pt)) == Flatten(lines) + [pt]
  {
    var r := Extend(lines, pt);
    if lines == [] || Splits(Last(Last(lines).points), pt) {
      assert r[..|lines|] == lines;
    } else {
      var n := |lines| - 1;
      assert r[..n] == lines[..n];
    }
  }

  /** Segmentation loses, duplicates and reorders nothing: its lines concatenate to the points. */
  lemma {:induction false} SegmentationFlattens(pts: seq<ChartPoint>)
    ensures Flatten(Segmentation(pts)) == pts
  {
    if pts != [] {
      var prefix := pts[..|pts| - 1];
      assert prefix + [Last(pts)] == pts;
      SegmentationFlattens(prefix);
      ExtendFlattens(Segmentation(prefix), Last(pts));
    }
  }

  /** Every line is labelled by the class of its first point. */
  ghost predicate Labelled(lines: seq<LineSegment>)
    requires NoEmptyLine(lines)
  {
    forall k :: 0 <= k < |lines| ==> lines[k].lineClass == Label(lines[k].points[0].classification)
  }

  /** No point of `line` splits from the point before it. */
  ghost predicate Unbroken(line: LineSegment)
  {
    forall j :: 0 < j < |line.points| ==> !Splits(line.points[j - 1], line.points[j])
  }

  /** Every line after the first starts with a point that splits from the end of the line before it. */
  ghost predicate SplitAtBounds(lines: seq<LineSegment>)
    requires NoEmptyLine(lines)
  {
    forall k :: 0 < k < |lines| ==> Splits(Last(lines[k - 1].points), lines[k].points[0])
  }

  /**
   * The rules every line sequence the chart draws keeps: no line is empty,
   * each is labelled by the class of its first point, no two consecutive
   * points within a line split, and each line after the first starts with a
   * point that splits from the end of the line before.
   */
  ghost predicate WellFormedLines(lines: seq<LineSegment>)
  {
    && NoEmptyLine(lines)
    && Labelled(lines)
    && (forall k :: 0 <= k < |lines| ==> Unbroken(lines[k]))
    && SplitAtBounds(lines)
  }

  /** `lines` is a segmentation of `pts`: well-formed lines that concatenate to `pts`. */
  ghost predicate IsSegmentationOf(lines: seq<LineSegment>, pts: seq<ChartPoint>)
  {
    Flatten(lines) == pts && WellFormedLines(lines)
  }

  /** A line that may follow the last line of well-formed lines keeps them well-formed. */
  lemma AppendLine(lines: seq<LineSegment>, line: LineSegment)
    requires WellFormedLines(lines)
    requires line.points != [] && line.lineClass == Label(line.points[0].classification) && Unbroken(line)
    requires lines == [] || Splits(Last(Last(lines).points), line.points[0])
    ensures WellFormedLines(lines + [line])
    ensures Flatten(lines + [line]) == Flatten(lines) + line.points
  {
    var r := lines + [line];
    assert r[..|lines|] == lines;
    assert forall k :: 0 <= k < |lines| ==> r[k] == lines[k];
  }

  /** Without its last line, well-formed lines stay well-formed; the last line could follow them. */
  lemma RemoveLine(lines: seq<LineSegment>)
    requires WellFormedLines(lines) && lines != []
    ensures var init, line := lines[..|lines| - 1], lines[|lines| - 1];
      && WellFormedLines(init)
      && Flatten(lines) == Flatten(init) + line.points
      && line.points != [] && line.lineClass == Label(line.points[0].classification) && Unbroken(line)
      && (init == [] || Splits(Last(Last(init).points), line.points[0]))
  {
    var init := lines[..|lines| - 1];
    assert forall k :: 0 <= k < |init| ==> init[k] == lines[k];
  }

  /** A point appended to an unbroken line that it does not split from leaves it unbroken. */
  lemma UnbrokenSnoc(line: LineSegment, pt: ChartPoint)
    requires Unbroken(line) && line.points != [] && !Splits(Last(line.points), pt)
    ensures Unbroken(line.(points := line.points + [pt]))
  {
    var grown := line.(points := line.points + [pt]);
    forall j | 0 < j < |grown.points|
      ensures !Splits(grown.points[j - 1], grown.points[j])
    {
      if j < |grown.points| - 1 {
        assert grown.points[j - 1] == line.points[j - 1] && grown.points[j] == line.points[j];
      }
    }
  }

  /** A prefix of an unbroken line is unbroken. */
  lemma UnbrokenPrefix(line: LineSegment, m: nat)
    requires Unbroken(line) && m <= |line.points|
    ensures Unbroken(line.(points := line.points[..m]))
  {
    var cut := line.(points := line.points[..m]);
    forall j | 0 < j < |cut.points|
      ensures !Splits(cut.points[j - 1], cut.points[j])
    {
      assert cut.points[j - 1] == line.points[j - 1] && cut.points[j] == line.points[j];
    }
  }

  /** A point that splits from the last line starts a line of its own. */
  lemma ExtendWithNewLine(lines: seq<LineSegment>, pts: seq<ChartPoint>, pt: ChartPoint)
    requires IsSegmentationOf(lines, pts)
    requires lines == [] || Splits(Last(Last(lines).points), pt)
    ensures IsSegmentationOf(lines + [LineSegment(Label(pt.classification), [pt])], pts + [pt])
  {
    AppendLine(lines, LineSegment(Label(pt.classification), [pt]));
  }

  /** A point that does not split from the last line joins it. */
  lemma ExtendLastLine(lines: seq<LineSegment>, pts: seq<ChartPoint>, pt: ChartPoint)
    requires IsSegmentationOf(lines, pts)
    requires lines != [] && !Splits(Last(Last(lines).points), pt)
    ensures var n := |lines| - 1;
      IsSegmentationOf(lines[..n] + [lines[n].(points := lines[n].points + [pt])], pts + [pt])
  {
    var n := |lines| - 1;
    var init, line := lines[..n], lines[n];
    RemoveLine(lines);
    UnbrokenSnoc(line, pt);
    var grown := line.(points := line.points + [pt]);
    assert grown.points[0] == line.points[0];
    AppendLine(init, grown);
    ConcatSnoc(Flatten(init), line.points, pt);
  }

  /** Segmentation produces a segmentation in the sense of IsSegmentationOf. */
  lemma {:induction false} SegmentationSound(pts: seq<ChartPoint>)
    ensures IsSegmentationOf(Segmentation(pts), pts)
  {
    if pts == [] {
    } else {
      var prefix := pts[..|pts| - 1];
      var pt := Last(pts);
      assert prefix + [pt] == pts;
      SegmentationSound(prefix);
      var lines := Segmentation(prefix);
      if lines == [] || Splits(Last(Last(lines).points), pt) {
        ExtendWithNewLine(lines, prefix, pt);
      } else {
        ExtendLastLine(lines, prefix, pt);
      }
    }
  }

  lemma FlattenEmpty(lines: seq<LineSegment>)
    requires NoEmptyLine(lines) && Flatten(lines) == []
    ensures lines == []
  {
  }

  lemma ConcatSnoc<T>(a: seq<T>, b: seq<T>, x: T)
    ensures a + (b + [x]) == (a + b) + [x]
  {
  }

  lemma DropLastOfConcat<T>(a: seq<T>, b: seq<T>, s: seq<T>)
    requires s == a + b && b != []
    ensures s != [] && s[..|s| - 1] == a + b[..|b| - 1] && Last(s) == Last(b)
    ensures b == b[..|b| - 1] + [Last(b)]
  {
    assert s[..|s| - 1] == a + b[..|b| - 1];
  }

  /** When the last line holds one point, the lines before it segment the points before the last. */
  lemma DropLastLine(init: seq<LineSegment>, line: LineSegment, pts: seq<ChartPoint>)
    requires WellFormedLines(init) && pts == Flatten(init) + line.points
    requires |line.points| == 1 && line.lineClass == Label(line.points[0].classification)
    requires init == [] || Splits(Last(Last(init).points), line.points[0])
    ensures pts != [] && IsSegmentationOf(init, pts[..|pts| - 1])
    ensures line == LineSegment(Label(Last(pts).classification), [Last(pts)])
  {
    assert pts[..|pts| - 1] == Flatten(init);
  }

  /** When the last line holds more points, dropping its last point leaves a segmentation of the points before the last. */
  lemma DropLastPoint(init: seq<LineSegment>, line: LineSegment, pts: seq<ChartPoint>)
    requires WellFormedLines(init) && pts == Flatten(init) + line.points
    requires |line.points| > 1 && line.lineClass == Label(line.points[0].classification) && Unbroken(line)
    requires init == [] || Splits(Last(Last(init).points), line.points[0])
    ensures var m := |line.points| - 1;
      && pts != []
      && IsSegmentationOf(init + [line.(points := line.points[..m])], pts[..|pts| - 1])
      && !Splits(line.points[m - 1], Last(pts))
      && line.points == line.points[..m] + [Last(pts)]
  {
    var m := |line.points| - 1;
    UnbrokenPrefix(line, m);
    var cut := line.(points := line.points[..m]);
    assert cut.points[0] == line.points[0];
    AppendLine(init, cut);
    DropLastOfConcat(Flatten(init), line.points, pts);
    assert !Splits(line.points[m - 1], line.points[m]);
  }

  /** Any segmentation of `pts` in the sense of IsSegmentationOf is the one Segmentation builds. */
  lemma {:induction false} SegmentationUnique(lines: seq<LineSegment>, pts: seq<ChartPoint>)
    requires IsSegmentationOf(lines, pts)
    ensures lines == Segmentation(pts)
    decreases |pts|
  {
    if pts == [] {
      FlattenEmpty(lines);
    } else {
      var n := |lines| - 1;
      var prefix := pts[..|pts| - 1];
      var pt := Last(pts);
      assert Segmentation(pts) == Extend(Segmentation(prefix), pt);
      RemoveLine(lines);
      if |lines[n].points| == 1 {
        DropLastLine(lines[..n], lines[n], pts);
        SegmentationUnique(lines[..n], prefix);
        ExtendByLine(lines, pt);
      } else {
        var m := |lines[n].points| - 1;
        var shorter := lines[..n] + [lines[n].(points := lines[n].points[..m])];
        DropLastPoint(lines[..n], lines[n], pts);
        SegmentationUnique(shorter, prefix);
        ExtendByPoint(lines, pt);
      }
    }
  }

  lemma ExtendByLine(lines: seq<LineSegment>, pt: ChartPoint)
    requires NoEmptyLine(lines) && lines != []
    requires Last(lines) == LineSegment(Label(pt.classification), [pt])
    requires |lines| == 1 || Splits(Last(lines[|lines| - 2].points), pt)
    ensures Extend(lines[..|lines| - 1], pt) == lines
  {
    var n := |lines| - 1;
    assert n > 0 ==> Last(lines[..n]) == lines[n - 1];
    assert lines == lines[..n] + [lines[n]];
  }

  lemma ExtendByPoint(lines: seq<LineSegment>, pt: ChartPoint)
    requires NoEmptyLine(lines) && lines != [] && |Last(lines).points| > 1
    requires var n, m := |lines| - 1, |Last(lines).points| - 1;
      && !Splits(lines[n].points[m - 1], pt)
      && lines[n].points == lines[n].points[..m] + [pt]
    ensures var n, m := |lines| - 1, |Last(lines).points| - 1;
      Extend(lines[..n] + [lines[n].(points := lines[n].points[..m])], pt) == lines
  {
    var n, m := |lines| - 1, |Last(lines).points| - 1;
    var shorter := lines[..n] + [lines[n].(points := lines[n].points[..m])];
    assert Last(Last(shorter).points) == lines[n].points[m - 1];
    assert shorter[..n] == lines[..n];
    assert lines == lines[..n] + [lines[n]];
  }

  /** A sequence of lines satisfies IsSegmentationOf exactly when it is the one Segmentation builds. */
  lemma SegmentationCharacterised(lines: seq<LineSegment>, pts: seq<ChartPoint>)
    ensures IsSegmentationOf(lines, pts) <==> lines == Segmentation(pts)
  {
    if IsSegmentationOf(lines, pts) {
      SegmentationUnique(lines, pts);
    }
    if lines == Segmentation(pts) {
      SegmentationSound(pts);
    }
  }

  /** Within a line every point has the class of the first one, and the line's label names that class. */
  lemma {:induction false} LineHomogeneous(line: LineSegment, j: nat)
    requires line.points != [] && Unbroken(line) && j < |line.points|
    ensures line.points[j].classification == line.points[0].classification
  {
    if j > 0 {
      LineHomogeneous(line, j - 1);
      assert !Splits(line.points[j - 1], line.points[j]);
    }
  }

  /**
   * The properties of each line the chart draws: every point carries the
   * class the line is labelled with, and consecutive points are at most
   * MaxLinePointGap apart.
   */
  lemma LinesOfSegmentation(pts: seq<ChartPoint>, k: nat, j: nat)
    requires k < |Segmentation(pts)| && j < |Segmentation(pts)[k].points|
    ensures Segmentation(pts)[k].lineClass == Label(Segmentation(pts)[k].points[j].classification)
    ensures 0 < j ==> Segmentation(pts)[k].points[j].dateTime - Segmentation(pts)[k].points[j - 1].dateTime <= MaxLinePointGap
  {
    SegmentationSound(pts);
    var line := Segmentation(pts)[k];
    LineHomogeneous(line, j);
    if 0 < j {
      assert !Splits(line.points[j - 1], line.points[j]);
    }
  }

  /** Two points of one class exactly MaxLinePointGap apart share a line; one millisecond more splits them. */
  lemma GapThreshold(p: ChartPoint)
    ensures Segmentation([p, p.(dateTime := p.dateTime + MaxLinePointGap)]) ==
      [LineSegment(Label(p.classification), [p, p.(dateTime := p.dateTime + MaxLinePointGap)])]
    ensures |Segmentation([p, p.(dateTime := p.dateTime + MaxLinePointGap + 1)])| == 2
  {
    var q := p.(dateTime := p.dateTime + MaxLinePointGap);
    var first := LineSegment(Label(p.classification), [p]);
    assert [p][..0] == [];
    assert Segmentation([p]) == Extend([], p) == [first];
    assert [p, q][..1] == [p];
    assert !Splits(p, q) && [p] + [q] == [p, q];
    assert Segmentation([p, q]) == Extend([first], q) == [first.(points := [p] + [q])];
    var q' := p.(dateTime := p.dateTime + MaxLinePointGap + 1);
    assert [p, q'][..1] == [p];
    assert Splits(p, q');
    assert Segmentation([p, q']) == Extend([first], q') == [first, LineSegment(Label(p.classification), [q'])];
  }

  /** Growing a prefix of `pts` by one point extends its lines by that point. */
  lemma SegmentationStep(pts: seq<ChartPoint>, i: nat)
    requires i < |pts|
    ensures Segmentation(pts[..i + 1]) == Extend(Segmentation(pts[..i]), pts[i])
    ensures 0 < i ==> Segmentation(pts[..i]) != [] && Last(Last(Segmentation(pts[..i])).points) == pts[i - 1]
  {
    assert pts[..i + 1][..i] == pts[..i];
    if 0 < i {
      assert pts[..i][..i - 1] == pts[..i - 1];
    }
  }

  /** Opening an empty line and appending the point to it is Extend when the point splits. */
  lemma OpenLineStep(lines: seq<LineSegment>, pt: ChartPoint)
    requires NoEmptyLine(lines) && (lines == [] || Splits(Last(Last(lines).points), pt))
    ensures var withNew := lines + [LineSegment(Label(pt.classification), [])];
      withNew[|lines| := withNew[|lines|].(points := withNew[|lines|].points + [pt])] == Extend(lines, pt)
  {
    assert [] + [pt] == [pt];
  }

  /** Appending the point to the newest line is Extend when the point does not split. */
  lemma JoinLineStep(lines: seq<LineSegment>, pt: ChartPoint)
    requires NoEmptyLine(lines) && lines != [] && !Splits(Last(Last(lines).points), pt)
    ensures var n := |lines| - 1;
      lines[n := lines[n].(points := lines[n].points + [pt])] == Extend(lines, pt)
  {
  }

  /**
   * The lines of the chart: one pass over the points that opens a new line
   * at the first point, at every change of class and at every gap longer
   * than MaxLinePointGap, and appends each point to the newest line.
   */
  method LineSegments(points: seq<ChartPoint>) returns (lines: seq<LineSegment>)
    ensures lines == Segmentation(points)
  {
    lines := [];
    // The class of the point before; None stands for `undefined` before the first point.
    var lastClass: Option<Option<Grade>> := None;
    for i := 0 to |points|
      invariant lines == Segmentation(points[..i])
      invariant i == 0 ==> lastClass == None
      invariant 0 < i ==> lastClass == Some(points[i - 1].classification)
    {
      var pt := points[i];
      SegmentationStep(points, i);
      // Split lines if the gap from the previous point exceeds MaxLinePointGap.
      var splitOnGap := false;
      if |lines| > 0 {
        var lastPoints := lines[|lines| - 1].points;
        var lastPtDateTime := lastPoints[|lastPoints| - 1].dateTime;
        if pt.dateTime - lastPtDateTime > MaxLinePointGap {
          splitOnGap := true;
        }
      }
      // A point whose class differs from the last point's starts a new line.
      var opens := lastClass != Some(pt.classification) || splitOnGap;
      assert opens == (lines == [] || Splits(Last(Last(lines).points), pt));
      if opens {
        OpenLineStep(lines, pt);
        lines := lines + [LineSegment(Label(pt.classification), [])];
      } else {
        JoinLineStep(lines, pt);
      }
      // Add this point to the newest line.
      var n := |lines| - 1;
      lines := lines[n := lines[n].(points := lines[n].points + [pt])];
      lastClass := Some(pt.classification);
    }
    assert points[..|points|] == points;
  }
}
