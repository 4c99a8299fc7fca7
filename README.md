# Chart geometry of the groundwater water-level graph

This project models the chart-geometry selectors of
`assets/src/scripts/components/graph/state/points.js`. They take a site's raw
water-level samples and produce what the graph draws.

- **Chart points** (`Points`):
  - every sample becomes a point with a time, a value and a classification;
  - comment code `A` means approved, `P` provisional, and anything else null;
  - the points are sorted ascending by time, stably.
- **Active classes** (`Points`): which of the two grades occur among the points.
- **X domain** (`Domains`): the time extent of the points, or the viewport for
  the main chart when one is set.
- **Y domain** (`Domains`):
  - the value range;
  - on the lithology and construction charts, widened to zero and to the well
    log's extent;
  - on every other chart, padded by 20% on each end;
  - clamped at zero when the range before padding was non-negative.
- **Line segments** (`Segments`): the sorted points cut into separate lines.
  A cut falls at every change of classification and at every gap longer than
  182 days.

Times are integer milliseconds since the epoch, and values are exact reals.
The store entry for a site, the viewport and the well log's Y extent are
parameters of the operations.

`LineSegments` is the source's loop written as an imperative method. It is
proved equal to `Segmentation`, a point-by-point specification function.
`Segmentation` is in turn characterised declaratively: a list of lines is the
segmentation of the points exactly when
- the lines concatenate back to the points;
- every line is labelled by its points' class;
- no two consecutive points in a line are split apart;
- every line boundary falls where a split is due.

## Model

| member | source | states |
|---|---|---|
| Points.ClassOf | assets/src/scripts/components/graph/state/points.js:49-52 | The class is approved exactly for comment "A", provisional exactly for "P", and null exactly for every other comment. |
| Points.ToPoint | assets/src/scripts/components/graph/state/points.js:45-53 | A sample's point keeps the sample's time and level. Its class is the class of the sample's comment. |
| Points.MapPoints | assets/src/scripts/components/graph/state/points.js:45-53 | Mapping gives one point per sample, each at the sample's own position. |
| Points.SamplesOf | assets/src/scripts/components/graph/state/points.js:44 | A store entry without samples contributes no samples. |
| Points.Insert | assets/src/scripts/components/graph/state/points.js:54-56 | Inserting a point adds exactly that point, as a multiset. |
| Points.InsertSorted | assets/src/scripts/components/graph/state/points.js:54-56 | Inserting into a time-sorted sequence keeps it sorted. |
| Points.SortByTime | assets/src/scripts/components/graph/state/points.js:54-56 | The sort's result is ascending by time and is a permutation of its input. |
| Points.InsertAtTime | assets/src/scripts/components/graph/state/points.js:54-56 | For every time stamp, insertion keeps the points with that stamp in the order they had with the new point in front. |
| Points.SortStable | assets/src/scripts/components/graph/state/points.js:54-56 | The sort is stable: for every time stamp, the points with that stamp keep their input order. |
| Points.ChartPoints | assets/src/scripts/components/graph/state/points.js:41-58 | There is one point per sample, and no points for a missing entry. The points are sorted ascending by time and are a permutation of the mapped samples. Points sharing a time stamp keep sample order. |
| Points.PointsComeFromSamples | assets/src/scripts/components/graph/state/points.js:44-56 | A point is among the chart points exactly when some sample maps to it. |
| Points.HasGrade | assets/src/scripts/components/graph/state/points.js:168-169 | The search is true exactly when some point carries the grade. |
| Points.ActiveClasses | assets/src/scripts/components/graph/state/points.js:164-171 | The approved flag holds exactly when some point is approved, and likewise for provisional. |
| Points.GradeOccursIffCode | assets/src/scripts/components/graph/state/points.js:164-171 | A grade occurs among a site's chart points exactly when some sample carries the comment code that maps to it. |
| Points.ActiveClassesOfSamples | assets/src/scripts/components/graph/state/points.js:164-171 | On a site's chart points, approved is active exactly when some sample's comment is "A", and provisional exactly when one is "P". |
| Points.ClassAsWritten | assets/src/scripts/components/graph/state/points.js:49-52 | The lookup as written yields null only when the comment is neither "A", nor "P", nor the name of an inherited member of a plain object. |
| Points.ClassAsWrittenDiffers | assets/src/scripts/components/graph/state/points.js:49-52 | For every inherited member name, the lookup as written yields that member where the table means null. On every other comment it agrees with ClassOf. |
| Domains.ExtentX | assets/src/scripts/components/graph/state/points.js:60-65 | The extent is absent exactly when there are no points. Otherwise lo <= hi, every point's time lies within it, and both bounds are times of points. |
| Domains.ExtentOfSorted | assets/src/scripts/components/graph/state/points.js:60-65 | For a non-empty time-sorted sequence, the extent runs from the first point's time to the last point's time. |
| Domains.DomainX | assets/src/scripts/components/graph/state/points.js:67-76 | The main chart with a viewport gets exactly the viewport. Otherwise the domain is absent exactly when there are no points, and is else the points' extent. |
| Domains.Values | assets/src/scripts/components/graph/state/points.js:82 | There is one value per point, in point order. |
| Domains.MinOf | assets/src/scripts/components/graph/state/points.js:88 | The minimum is one of the values and is no greater than any of them. |
| Domains.MaxOf | assets/src/scripts/components/graph/state/points.js:89 | The maximum is one of the values and is no less than any of them. |
| Domains.DomainY | assets/src/scripts/components/graph/state/points.js:78-117 | No points give [0, 0]. Otherwise lo <= hi and every value lies within the domain. A well-log chart's domain reaches down to zero and covers the well log's extent. Any other chart with no negative value keeps lo >= 0. A negative value always makes lo negative. |
| Domains.DomainYWellLog | assets/src/scripts/components/graph/state/points.js:94-99 | On the lithology and construction charts, the domain is [min(0, well-log low, min value), max(well-log high, max value)], with no padding. |
| Domains.DomainYPadded | assets/src/scripts/components/graph/state/points.js:101-115 | On other charts both ends are padded by 0.2 of the value range. The low end is clamped at zero when the unpadded range is non-negative. |
| Domains.DomainYMainExamples | assets/src/scripts/components/graph/state/points.js:101-115 | Values [1, 2, 3] give [0.6, 3.4]. Values [-1, 1] give [-1.4, 1.4], with no clamp because the range is not non-negative. |
| Domains.DomainYLithologyExample | assets/src/scripts/components/graph/state/points.js:94-115 | Lithology values [5, 10] with well-log extent [0, 12] give [0, 12]. |
| Segments.Label | assets/src/scripts/components/graph/state/points.js:149 | A line's label is the grade's name, or "unclassed" for a point with a null class. No grade is named "unclassed". |
| Segments.Extend | assets/src/scripts/components/graph/state/points.js:136-155 | One more point leaves no line empty, and the point becomes the last point of the last line. |
| Segments.Segmentation | assets/src/scripts/components/graph/state/points.js:133-159 | The point-by-point segmentation never produces an empty line. |
| Segments.ExtendFlattens | assets/src/scripts/components/graph/state/points.js:147-155 | Adding a point appends it to the concatenation of the lines. |
| Segments.SegmentationFlattens | assets/src/scripts/components/graph/state/points.js:124-162 | Segmenting is lossless: the lines concatenate to exactly the points, in order. |
| Segments.SegmentationSound | assets/src/scripts/components/graph/state/points.js:124-162 | The segmentation of the points is well-formed and concatenates to them. |
| Segments.SegmentationUnique | assets/src/scripts/components/graph/state/points.js:124-162 | Any well-formed list of lines that concatenates to the points is their segmentation. |
| Segments.SegmentationCharacterised | assets/src/scripts/components/graph/state/points.js:124-162 | A list of lines is well-formed and concatenates to the points if and only if it is their segmentation. |
| Segments.LinesOfSegmentation | assets/src/scripts/components/graph/state/points.js:137-152 | Every point of a line has the class the line is labelled with. Consecutive points within a line are at most MaxLinePointGap apart. |
| Segments.GapThreshold | assets/src/scripts/components/graph/state/points.js:11-13 | Two points of one class exactly 182 days apart share one line. One millisecond more puts them on two lines. |
| Segments.LineSegments | assets/src/scripts/components/graph/state/points.js:124-162 | The loop's result is exactly the segmentation of its points. |

## Left out

- The memoisation (`fast-memoize`) and selector caching (`reselect`) are left out. They only cache; each operation is a plain function of its inputs.
- The store, the viewport selector and the well-log selector are not modelled. The store entry's samples, the viewport and the well log's Y extent are parameters. The lookup `waterLevels[siteKey] || {}` is modelled as an optional sample list.
- `getCurrentWaterLevels` and `getCurrentWaterLevelUnit` only read the store, so they are not modelled.
- Parsing of `new Date(datum.time)` and `parseFloat` is not modelled. Samples carry an integer millisecond time and a real value. An unparsable time or value (Invalid Date, NaN) is not represented.
- Floating-point arithmetic is not modelled. Values and padding use exact reals, so IEEE rounding, NaN and infinities are out of scope. `Math.min`/`Math.max` over a spread argument list are modelled as a minimum and a maximum, without the engine's argument-count limit.
- Domains.ExtentX: d3's `extent` returns `[undefined, undefined]` for no points, and that is modelled as an absent extent.
- Points.SortByTime: the sort is assumed stable, as ECMAScript 2019 and later require of `Array.prototype.sort`. An older engine may order points with equal times differently.
- Points.ClassOf: a sample whose comment is missing is treated like any comment other than "A" or "P".
- Segments.LineSegments: the `lines` array and each line's `points` array are values. The same point objects being shared between the input and the lines (aliasing) is not modelled. The contract is stated through `Segmentation`, and losslessness and well-formedness are proved about `Segmentation` by lemmas rather than repeated on the method.
- The user-interface test of the construction chart is not part of this model.

## Findings

| source | as written | input that shows it | evidently intended | confidence | as-written member | corrected member |
|---|---|---|---|---|---|---|
| assets/src/scripts/components/graph/state/points.js:49-52 | The class is looked up in a plain object literal. That lookup also finds the members every object inherits, such as `constructor` or `toString`, which are truthy, so `\|\| null` keeps them. | A sample whose comment is `"constructor"` gets the `Object` function as its class instead of null. Its line is then labelled with that function instead of "unclassed". | Only "A" and "P" are classified; every other comment yields null. | high; not executed | Points.ClassAsWrittenDiffers | Points.ClassOf |
