/**
 * Sample normalisation and the classification summary of
 * assets/src/scripts/components/graph/state/points.js: raw water-level
 * samples become chart points sorted by time.
 */
module Points {
  import opened Options

  /** The approval grade a sample's comment code may carry. */
  datatype Grade = Approved | Provisional

  /**
   * A raw sample whose time and value have already been parsed: `time` is
   * milliseconds since the epoch, `fromLandsurfaceValue` the water level.
   */
  datatype Sample = Sample(time: int, fromLandsurfaceValue: real, comment: string)

  /** A chart point; `classification` is None where the source has `null`. */
  datatype ChartPoint = ChartPoint(dateTime: int, value: real, classification: Option<Grade>)

  /** The name the source gives each grade. */
  function GradeName(g: Grade): string
  {
    match g
    case Approved => "approved"
    case Provisional => "provisional"
  }

  /** The two-entry lookup table from comment code to grade. */
  const ClassTable: map<string, Grade> := map["A" := Approved, "P" := Provisional]

  /** The classification of a comment code: the table entry, or None for any other code. */
  function ClassOf(comment: string): (c: Option<Grade>)
    ensures c == Some(Approved) <==> comment == "A"
    ensures c == Some(Provisional) <==> comment == "P"
    ensures c == None <==> comment != "A" && comment != "P"
  {
    if comment in ClassTable then Some(ClassTable[comment]) else None
  }

  /** One sample as a chart point. */
  function ToPoint(s: Sample): (p: ChartPoint)
    ensures p.dateTime == s.time && p.value == s.fromLandsurfaceValue
    ensures p.classification == ClassOf(s.comment)
  {
    ChartPoint(s.time, s.fromLandsurfaceValue, ClassOf(s.comment))
  }

  /** The samples mapped one by one, in their original order. */
  function MapPoints(samples: seq<Sample>): (r: seq<ChartPoint>)
    ensures |r| == |samples|
    ensures forall i :: 0 <= i < |samples| ==> r[i] == ToPoint(samples[i])
  {
    seq(|samples|, i requires 0 <= i < |samples| => ToPoint(samples[i]))
  }

  predicate SortedByTime(pts: seq<ChartPoint>)
  {
    forall i, j :: 0 <= i < j < |pts| ==> pts[i].dateTime <= pts[j].dateTime
  }

  lemma SortedAt(pts: seq<ChartPoint>, i: nat, j: nat)
    requires SortedByTime(pts) && i <= j < |pts|
    ensures pts[i].dateTime <= pts[j].dateTime
  {
  }

  /** The points stamped with time `t`, in the order they appear in `pts`. */
  function AtTime(pts: seq<ChartPoint>, t: int): (r: seq<ChartPoint>)
    ensures forall i :: 0 <= i < |r| ==> r[i].dateTime == t
  {
    if pts == [] then []
    else (if pts[0].dateTime == t then [pts[0]] else []) + AtTime(pts[1..], t)
  }

  /** A point not later than any point of sorted `s` may be put in front of it. */
  lemma SortedCons(x: ChartPoint, s: seq<ChartPoint>)
    requires SortedByTime(s)
    requires forall k :: 0 <= k < |s| ==> x.dateTime <= s[k].dateTime
    ensures SortedByTime([x] + s)
  {
    forall i, j | 0 <= i < j < |[x] + s|
      ensures ([x] + s)[i].dateTime <= ([x] + s)[j].dateTime
    {
      if i > 0 {
        assert ([x] + s)[i] == s[i - 1] && ([x] + s)[j] == s[j - 1];
      }
    }
  }

  /** Inserts `p` in front of the first point of `s` that is not earlier than it. */
  function Insert(p: ChartPoint, s: seq<ChartPoint>): (r: seq<ChartPoint>)
    ensures multiset(r) == multiset(s) + multiset{p}
  {
    if s == [] || p.dateTime <= s[0].dateTime then [p] + s
    else
      assert s == [s[0]] + s[1..];
      [s[0]] + Insert(p, s[1..])
  }

  /** Inserting into a sorted sequence keeps it sorted. */
  lemma {:induction false} InsertSorted(p: ChartPoint, s: seq<ChartPoint>)
    requires SortedByTime(s)
    ensures SortedByTime(Insert(p, s))
  {
    if s == [] || p.dateTime <= s[0].dateTime {
      SortedCons(p, s);
    } else {
      var rest := Insert(p, s[1..]);
      InsertSorted(p, s[1..]);
      assert s == [s[0]] + s[1..];
      forall k | 0 <= k < |rest|
        ensures s[0].dateTime <= rest[k].dateTime
      {
        assert rest[k] in multiset(s[1..]) + multiset{p};
        if rest[k] != p {
          var i :| 0 <= i < |s[1..]| && s[1..][i] == rest[k];
          assert s[i + 1] == rest[k];
        }
      }
      SortedCons(s[0], rest);
    }
  }

  /**
   * A stable sort ascending by `dateTime`, as Array.prototype.sort with the
   * comparator `a.dateTime - b.dateTime`: it takes the points from the back
   * and inserts each one in front of those not earlier than it.
   */
  function SortByTime(s: seq<ChartPoint>): (r: seq<ChartPoint>)
    ensures SortedByTime(r)
    ensures multiset(r) == multiset(s)
  {
    if s == [] then []
    else
      assert s == [s[0]] + s[1..];
      InsertSorted(s[0], SortByTime(s[1..]));
      Insert(s[0], SortByTime(s[1..]))
  }

  /** Inserting keeps, for every time stamp, the order the points had with `p` in front. */
  lemma {:induction false} InsertAtTime(p: ChartPoint, s: seq<ChartPoint>, t: int)
    ensures AtTime(Insert(p, s), t) == AtTime([p] + s, t)
  {
    if s == [] || p.dateTime <= s[0].dateTime {
    } else {
      var rest := s[1..];
      assert s == [s[0]] + rest;
      var a0 := if s[0].dateTime == t then [s[0]] else [];
      var ap := if p.dateTime == t then [p] else [];
      calc {
        AtTime(Insert(p, s), t);
        { AtTimeCons(s[0], Insert(p, rest), t); }
        a0 + AtTime(Insert(p, rest), t);
        { InsertAtTime(p, rest, t); AtTimeCons(p, rest, t); }
        a0 + (ap + AtTime(rest, t));
        { assert a0 == [] || ap == []; }
        ap + (a0 + AtTime(rest, t));
        { AtTimeCons(s[0], rest, t); }
        ap + AtTime(s, t);
        { AtTimeCons(p, s, t); }
        AtTime([p] + s, t);
      }
    }
  }

  lemma AtTimeCons(x: ChartPoint, s: seq<ChartPoint>, t: int)
    ensures AtTime([x] + s, t) == (if x.dateTime == t then [x] else []) + AtTime(s, t)
  {
    assert ([x] + s)[1..] == s;
  }

  /** The sort is stable: the points sharing a time stamp keep their relative order. */
  lemma {:induction false} SortStable(s: seq<ChartPoint>, t: int)
    ensures AtTime(SortByTime(s), t) == AtTime(s, t)
  {
    if s != [] {
      SortStable(s[1..], t);
      InsertAtTime(s[0], SortByTime(s[1..]), t);
      var sorted := SortByTime(s[1..]);
      assert ([s[0]] + sorted)[1..] == sorted;
    }
  }

  /** The samples a store entry holds; an entry without samples holds none. */
  function SamplesOf(samples: Option<seq<Sample>>): (r: seq<Sample>)
    ensures samples.None? ==> r == []
  {
    match samples
    case None => []
    case Some(s) => s
  }

  /**
   * The chart points of a site: one point per sample, sorted ascending by
   * time, ties kept in sample order.
   */
  function ChartPoints(samples: Option<seq<Sample>>): (r: seq<ChartPoint>)
    ensures |r| == |SamplesOf(samples)|
    ensures samples.None? ==> r == []
    ensures SortedByTime(r)
    ensures multiset(r) == multiset(MapPoints(SamplesOf(samples)))
    ensures forall t :: AtTime(r, t) == AtTime(MapPoints(SamplesOf(samples)), t)
  {
    var mapped := MapPoints(SamplesOf(samples));
    assert forall t :: AtTime(SortByTime(mapped), t) == AtTime(mapped, t) by {
      forall t ensures AtTime(SortByTime(mapped), t) == AtTime(mapped, t) {
        SortStable(mapped, t);
      }
    }
    assert |multiset(SortByTime(mapped))| == |multiset(mapped)|;
    SortByTime(mapped)
  }

  /** Every chart point comes from a sample, and every sample gives a chart point. */
  lemma PointsComeFromSamples(samples: Option<seq<Sample>>, p: ChartPoint)
    ensures p in ChartPoints(samples) <==> exists i :: 0 <= i < |SamplesOf(samples)| && ToPoint(SamplesOf(samples)[i]) == p
  {
    var mapped := MapPoints(SamplesOf(samples));
    assert p in ChartPoints(samples) <==> p in multiset(mapped);
    if p in mapped {
      var i :| 0 <= i < |mapped| && mapped[i] == p;
    }
  }

  /** Which grades occur among the points. */
  datatype ClassSummary = ClassSummary(approved: bool, provisional: bool)

  /** Whether some point carries grade `g`. */
  function HasGrade(pts: seq<ChartPoint>, g: Grade): (b: bool)
    ensures b <==> exists i :: 0 <= i < |pts| && pts[i].classification == Some(g)
  {
    if pts == [] then false
    else if pts[0].classification == Some(g) then true
    else
      var b := HasGrade(pts[1..], g);
      assert b ==> exists i :: 0 <= i < |pts| && pts[i].classification == Some(g) by {
        if b {
          var i :| 0 <= i < |pts[1..]| && pts[1..][i].classification == Some(g);
          assert pts[i + 1].classification == Some(g);
        }
      }
      b
  }

  /** The presence flags of the two grades. */
  function ActiveClasses(pts: seq<ChartPoint>): (r: ClassSummary)
    ensures r.approved <==> exists i :: 0 <= i < |pts| && pts[i].classification == Some(Approved)
    ensures r.provisional <==> exists i :: 0 <= i < |pts| && pts[i].classification == Some(Provisional)
  {
    ClassSummary(HasGrade(pts, Approved), HasGrade(pts, Provisional))
  }

  /** Over a site's chart points, grade `g` occurs exactly when some sample carries `code`, its entry in the table. */
  lemma GradeOccursIffCode(samples: Option<seq<Sample>>, g: Grade, code: string)
    requires code in ClassTable && ClassTable[code] == g
    ensures (exists i :: 0 <= i < |ChartPoints(samples)| && ChartPoints(samples)[i].classification == Some(g)) <==>
            (exists i :: 0 <= i < |SamplesOf(samples)| && SamplesOf(samples)[i].comment == code)
  {
    var raw := SamplesOf(samples);
    var pts := ChartPoints(samples);
    if i :| 0 <= i < |pts| && pts[i].classification == Some(g) {
      PointsComeFromSamples(samples, pts[i]);
    }
    if i :| 0 <= i < |raw| && raw[i].comment == code {
      PointsComeFromSamples(samples, ToPoint(raw[i]));
      var j :| 0 <= j < |pts| && pts[j] == ToPoint(raw[i]);
    }
  }

  /** Over a site's chart points, a grade is active exactly when some sample carries its code. */
  lemma ActiveClassesOfSamples(samples: Option<seq<Sample>>)
    ensures ActiveClasses(ChartPoints(samples)).approved <==>
      exists i :: 0 <= i < |SamplesOf(samples)| && SamplesOf(samples)[i].comment == "A"
    ensures ActiveClasses(ChartPoints(samples)).provisional <==>
      exists i :: 0 <= i < |SamplesOf(samples)| && SamplesOf(samples)[i].comment == "P"
  {
    GradeOccursIffCode(samples, Approved, "A");
    GradeOccursIffCode(samples, Provisional, "P");
  }

  // The lookup `{A: 'approved', P: 'provisional'}[comment] || null` as the
  // source writes it reads from an ordinary JavaScript object, so it also
  // finds the members every such object inherits from Object.prototype.

  /** The names an ordinary JavaScript object inherits from Object.prototype. */
  const InheritedKeys: set<string> := {
    "constructor", "__proto__", "toString", "toLocaleString", "valueOf",
    "hasOwnProperty", "isPrototypeOf", "propertyIsEnumerable",
    "__defineGetter__", "__defineSetter__", "__lookupGetter__", "__lookupSetter__"
  }

  /** What the source's lookup can yield: a grade name, an inherited member (a truthy function or object), or null. */
  datatype RawClass = GradeString(g: Grade) | InheritedMember(name: string) | Null

  /** The classification lookup as written, inherited members included. */
  function ClassAsWritten(comment: string): (c: RawClass)
    ensures c.Null? <==> comment != "A" && comment != "P" && comment !in InheritedKeys
  {
    if comment in ClassTable then GradeString(ClassTable[comment])
    else if comment in InheritedKeys then InheritedMember(comment)
    else Null
  }

  /**
   * The lookup as written gives a non-null class to every inherited member
   * name, where the table intends null; on every other code it agrees with ClassOf.
   */
  lemma ClassAsWrittenDiffers(comment: string)
    ensures comment in InheritedKeys ==> ClassAsWritten(comment) == InheritedMember(comment) && ClassOf(comment) == None
    ensures comment !in InheritedKeys ==>
      ClassAsWritten(comment) == (match ClassOf(comment) case Some(g) => GradeString(g) case None => Null)
  {
  }
}
