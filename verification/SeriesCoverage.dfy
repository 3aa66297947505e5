/** Coverage and gaps of a series of samples over a window, in milliseconds. */
module SeriesCoverage {
  import opened Wrappers

  datatype Reason = CollectionGap | Other(code: string)

  datatype Quality = Measured | Estimated | Unavailable

  /** A sample: whether it has a value, its quality, and why a value is missing. */
  datatype Point = Point(timeMS: int, hasValue: bool, quality: Quality, missing: Option<Reason>)

  datatype Gap = Gap(startMS: int, endMS: int, reason: Reason)

  predicate Sorted(points: seq<Point>) {
    forall i, j :: 0 <= i < j < |points| ==> points[i].timeMS <= points[j].timeMS
  }

  function Max(a: int, b: int): int {
    if a >= b then a else b
  }

  function Min(a: int, b: int): int {
    if a <= b then a else b
  }

  predicate Available(p: Point) {
    p.hasValue && p.quality != Unavailable
  }

  // ----- what an instant is -----

  /** The index of the latest of the first n points at or before an instant. */
  function Latest(points: seq<Point>, n: nat, t: int): (r: Option<nat>)
    requires n <= |points|
    ensures r.Some? ==> r.value < n
  {
    if n == 0 then None else if points[n - 1].timeMS <= t then Some(n - 1) else Latest(points, n - 1, t)
  }

  /** An instant is covered when the latest sample at or before it has a value and is still fresh. */
  predicate Covered(points: seq<Point>, freshMS: int, t: int) {
    var l := Latest(points, |points|, t);
    l.Some? && Available(points[l.value]) && t < points[l.value].timeMS + freshMS
  }

  /** Why an instant is not covered: the reason of the fresh sample that has no value, if it gives one. */
  function ReasonAt(points: seq<Point>, freshMS: int, t: int): Reason {
    var l := Latest(points, |points|, t);
    if l.Some? && t < points[l.value].timeMS + freshMS && points[l.value].missing.Some?
    then points[l.value].missing.value else CollectionGap
  }

  lemma {:induction false} LatestIs(points: seq<Point>, n: nat, i: nat, t: int)
    requires i < n <= |points| && Sorted(points)
    requires points[i].timeMS <= t && (i + 1 < n ==> t < points[i + 1].timeMS)
    ensures Latest(points, n, t) == Some(i)
  {
    if i < n - 1 {
      assert points[i + 1].timeMS <= points[n - 1].timeMS;
      LatestIs(points, n - 1, i, t);
    }
  }

  lemma {:induction false} LatestIsNone(points: seq<Point>, n: nat, t: int)
    requires n <= |points| && forall i :: 0 <= i < n ==> t < points[i].timeMS
    ensures Latest(points, n, t) == None
  {
    if n > 0 {
      LatestIsNone(points, n - 1, t);
    }
  }

  // ----- what a list of gaps says -----

  function Total(gaps: seq<Gap>): int {
    if gaps == [] then 0 else Total(gaps[..|gaps| - 1]) + (gaps[|gaps| - 1].endMS - gaps[|gaps| - 1].startMS)
  }

  predicate InSome(gaps: seq<Gap>, t: int) {
    exists i :: 0 <= i < |gaps| && gaps[i].startMS <= t < gaps[i].endMS
  }

  /** Gaps are not empty, lie in the window, follow one another, and two that touch differ in reason. */
  predicate Tidy(gaps: seq<Gap>, start: int, end: int) {
    && (forall i :: 0 <= i < |gaps| ==> start <= gaps[i].startMS < gaps[i].endMS <= end)
    && (forall i, j :: 0 <= i < j < |gaps| ==> gaps[i].endMS <= gaps[j].startMS)
    && (forall i :: 0 <= i < |gaps| - 1 ==> gaps[i].endMS < gaps[i + 1].startMS || gaps[i].reason != gaps[i + 1].reason)
  }

  /** The gaps are exactly the uncovered instants of a window. */
  ghost predicate Exact(gaps: seq<Gap>, points: seq<Point>, freshMS: int, start: int, end: int) {
    forall t :: start <= t < end ==> (InSome(gaps, t) <==> !Covered(points, freshMS, t))
  }

  ghost predicate Explains(g: Gap, points: seq<Point>, freshMS: int) {
    forall t :: g.startMS <= t < g.endMS ==> ReasonAt(points, freshMS, t) == g.reason
  }

  /** The gaps are exactly the uncovered instants of a window, each with its reason, and what is left of the
      window is the covered duration. */
  ghost predicate Describes(gaps: seq<Gap>, coveredMS: int, points: seq<Point>, freshMS: int, start: int, end: int) {
    && Tidy(gaps, start, end) && Exact(gaps, points, freshMS, start, end)
    && (forall i :: 0 <= i < |gaps| ==> Explains(gaps[i], points, freshMS))
    && coveredMS + Total(gaps) == end - start
  }

  lemma InSomeOfAppend(gaps: seq<Gap>, g: Gap, t: int)
    ensures InSome(gaps + [g], t) <==> InSome(gaps, t) || g.startMS <= t < g.endMS
  {
    var all := gaps + [g];
    assert all[|gaps|] == g;
    if InSome(gaps, t) {
      var i :| 0 <= i < |gaps| && gaps[i].startMS <= t < gaps[i].endMS;
      assert all[i] == gaps[i];
    }
  }

  /** The instants of a further stretch are uncovered for one reason. */
  ghost predicate Uncovered(points: seq<Point>, freshMS: int, from: int, to: int, reason: Reason) {
    forall t :: from <= t < to ==> !Covered(points, freshMS, t) && ReasonAt(points, freshMS, t) == reason
  }

  lemma TidyOneMore(gaps: seq<Gap>, g: Gap, start: int)
    requires Tidy(gaps, start, g.startMS) && start <= g.startMS < g.endMS
    requires gaps != [] && gaps[|gaps| - 1].endMS == g.startMS ==> gaps[|gaps| - 1].reason != g.reason
    ensures Tidy(gaps + [g], start, g.endMS)
  {
  }

  lemma TidyPrefix(gaps: seq<Gap>, start: int, end: int)
    requires Tidy(gaps, start, end) && gaps != []
    ensures Tidy(gaps[..|gaps| - 1], start, gaps[|gaps| - 1].startMS)
    ensures gaps[|gaps| - 1].startMS >= start
    ensures |gaps| > 1 && gaps[|gaps| - 2].endMS == gaps[|gaps| - 1].startMS ==> gaps[|gaps| - 2].reason != gaps[|gaps| - 1].reason
  {
  }

  lemma ExactOneMore(gaps: seq<Gap>, g: Gap, points: seq<Point>, freshMS: int, start: int)
    requires Exact(gaps, points, freshMS, start, g.startMS) && Tidy(gaps, start, g.startMS)
    requires Uncovered(points, freshMS, g.startMS, g.endMS, g.reason)
    ensures Exact(gaps + [g], points, freshMS, start, g.endMS)
  {
    hide Covered, ReasonAt;
    forall t | start <= t < g.endMS ensures InSome(gaps + [g], t) <==> !Covered(points, freshMS, t) {
      InSomeOfAppend(gaps, g, t);
    }
  }

  lemma ExactLonger(front: seq<Gap>, g: Gap, endMS: int, points: seq<Point>, freshMS: int, start: int)
    requires Exact(front + [g], points, freshMS, start, g.endMS) && Tidy(front, start, g.startMS) && g.startMS < g.endMS < endMS
    requires Uncovered(points, freshMS, g.endMS, endMS, g.reason)
    ensures Exact(front + [g.(endMS := endMS)], points, freshMS, start, endMS)
  {
    hide Covered, ReasonAt;
    forall t | start <= t < endMS ensures InSome(front + [g.(endMS := endMS)], t) <==> !Covered(points, freshMS, t) {
      InSomeOfAppend(front, g, t);
      InSomeOfAppend(front, g.(endMS := endMS), t);
    }
  }

  lemma UncoveredExplains(g: Gap, points: seq<Point>, freshMS: int)
    requires Uncovered(points, freshMS, g.startMS, g.endMS, g.reason)
    ensures Explains(g, points, freshMS)
  {
    hide Covered, ReasonAt;
  }

  lemma LongerExplains(g: Gap, endMS: int, points: seq<Point>, freshMS: int)
    requires Explains(g, points, freshMS) && Uncovered(points, freshMS, g.endMS, endMS, g.reason)
    ensures Explains(g.(endMS := endMS), points, freshMS)
  {
    hide Covered, ReasonAt;
  }

  lemma TotalOneMore(gaps: seq<Gap>, g: Gap)
    ensures Total(gaps + [g]) == Total(gaps) + (g.endMS - g.startMS)
  {
    assert (gaps + [g])[..|gaps|] == gaps;
  }

  lemma NewGap(gaps: seq<Gap>, g: Gap, coveredMS: int, points: seq<Point>, freshMS: int, start: int)
    requires Describes(gaps, coveredMS, points, freshMS, start, g.startMS) && start <= g.startMS < g.endMS
    requires Uncovered(points, freshMS, g.startMS, g.endMS, g.reason)
    requires gaps != [] && gaps[|gaps| - 1].endMS == g.startMS ==> gaps[|gaps| - 1].reason != g.reason
    ensures Describes(gaps + [g], coveredMS, points, freshMS, start, g.endMS)
  {
    hide Tidy, Exact, Uncovered, Explains, Total;
    TidyOneMore(gaps, g, start);
    ExactOneMore(gaps, g, points, freshMS, start);
    UncoveredExplains(g, points, freshMS);
    TotalOneMore(gaps, g);
  }

  /** Lengthening the last gap says the same as a gap of its own would. */
  lemma LongerGap(gaps: seq<Gap>, endMS: int, coveredMS: int, points: seq<Point>, freshMS: int, start: int)
    requires gaps != []
    requires
      var last := gaps[|gaps| - 1];
      && Describes(gaps, coveredMS, points, freshMS, start, last.endMS) && start <= last.endMS < endMS
      && Uncovered(points, freshMS, last.endMS, endMS, last.reason)
    ensures Describes(gaps[|gaps| - 1 := gaps[|gaps| - 1].(endMS := endMS)], coveredMS, points, freshMS, start, endMS)
  {
    var front, last := gaps[..|gaps| - 1], gaps[|gaps| - 1];
    var longer := last.(endMS := endMS);
    assert gaps[|gaps| - 1].startMS < gaps[|gaps| - 1].endMS;
    hide Tidy, Exact, Uncovered, Explains, Total;
    assert gaps == front + [last] && gaps[|gaps| - 1 := longer] == front + [longer];
    TidyPrefix(gaps, start, last.endMS);
    TidyOneMore(front, longer, start);
    ExactLonger(front, last, endMS, points, freshMS, start);
    LongerExplains(last, endMS, points, freshMS);
    TotalOneMore(front, last);
    TotalOneMore(front, longer);
  }

  /** appendGap: an empty gap is dropped, one that continues the last is joined to it. */
  method AppendGap(gaps: seq<Gap>, startMS: int, endMS: int, reason: Reason,
                   ghost coveredMS: int, ghost points: seq<Point>, ghost freshMS: int, ghost start: int)
    returns (r: seq<Gap>)
    requires Describes(gaps, coveredMS, points, freshMS, start, startMS) && start <= startMS
    requires Uncovered(points, freshMS, startMS, endMS, reason)
    ensures Describes(r, coveredMS, points, freshMS, start, Max(startMS, endMS))
  {
    hide Describes, Uncovered;
    if endMS <= startMS {
      return gaps;
    }
    if |gaps| > 0 && gaps[|gaps| - 1].endMS == startMS && gaps[|gaps| - 1].reason == reason {
      LongerGap(gaps, endMS, coveredMS, points, freshMS, start);
      return gaps[|gaps| - 1 := gaps[|gaps| - 1].(endMS := endMS)];
    }
    NewGap(gaps, Gap(startMS, endMS, reason), coveredMS, points, freshMS, start);
    return gaps + [Gap(startMS, endMS, reason)];
  }

  lemma CoveredStretch(gaps: seq<Gap>, coveredMS: int, points: seq<Point>, freshMS: int, start: int, from: int, to: int)
    requires Describes(gaps, coveredMS, points, freshMS, start, from) && start <= from <= to
    requires forall t :: from <= t < to ==> Covered(points, freshMS, t)
    ensures Describes(gaps, coveredMS + (to - from), points, freshMS, start, to)
  {
    hide Covered, ReasonAt, Explains, Total;
  }

  /** Where the first n points leave the walk over the window. */
  function Frontier(points: seq<Point>, n: nat, start: int, end: int): int
    requires n <= |points|
  {
    Max(start, if n < |points| then Min(end, points[n].timeMS) else end)
  }

  /** From a point's time to the next point's, that point is the latest. */
  lemma StretchOf(points: seq<Point>, freshMS: int, i: nat, to: int)
    requires i < |points| && Sorted(points) && (i + 1 < |points| ==> to <= points[i + 1].timeMS)
    ensures forall t :: points[i].timeMS <= t < to ==> Latest(points, |points|, t) == Some(i)
  {
    forall t | points[i].timeMS <= t < to ensures Latest(points, |points|, t) == Some(i) {
      LatestIs(points, |points|, i, t);
    }
  }

  lemma BeforeTheFirst(points: seq<Point>, freshMS: int, start: int)
    requires points != [] && Sorted(points)
    ensures Uncovered(points, freshMS, start, points[0].timeMS, CollectionGap)
  {
    forall t | start <= t < points[0].timeMS ensures !Covered(points, freshMS, t) && ReasonAt(points, freshMS, t) == CollectionGap {
      LatestIsNone(points, |points|, t);
    }
  }

  /** What the instants of a point's stretch within the window are. */
  lemma InStretch(points: seq<Point>, freshMS: int, i: nat, intervalEnd: int, start: int)
    requires i < |points| && forall t :: points[i].timeMS <= t < intervalEnd ==> Latest(points, |points|, t) == Some(i)
    requires points[i].timeMS <= intervalEnd && freshMS >= 0
    ensures
      var p := points[i];
      var from, validEnd := Max(start, p.timeMS), Min(intervalEnd, p.timeMS + freshMS);
      && (Available(p) ==> forall t :: from <= t < validEnd ==> Covered(points, freshMS, t))
      && (!(Available(p) && validEnd > from) ==>
            Uncovered(points, freshMS, from, validEnd, if p.missing.Some? then p.missing.value else CollectionGap))
      && Uncovered(points, freshMS, Max(start, validEnd), intervalEnd, CollectionGap)
  {
    hide Latest;
  }

  lemma {:induction false} TotalIsNotNegative(gaps: seq<Gap>)
    requires forall i :: 0 <= i < |gaps| ==> gaps[i].startMS < gaps[i].endMS
    ensures Total(gaps) >= 0
  {
    if gaps != [] {
      TotalIsNotNegative(gaps[..|gaps| - 1]);
    }
  }

  lemma NothingYet(points: seq<Point>, freshMS: int, start: int)
    ensures Describes([], 0, points, freshMS, start, start)
  {
  }

  lemma DescribedAreTidy(gaps: seq<Gap>, coveredMS: int, points: seq<Point>, freshMS: int, start: int, end: int)
    requires Describes(gaps, coveredMS, points, freshMS, start, end)
    ensures coveredMS <= end - start
  {
    TotalIsNotNegative(gaps);
  }

  /** The covered share of the window. */
  method Share(coveredMS: int, start: int, end: int) returns (ratio: real)
    requires 0 <= coveredMS <= Max(start, end) - start
    ensures ratio == if end <= start then 0.0 else coveredMS as real / (end - start) as real
  {
    if end - start <= 0 {
      return 0.0;
    }
    var share := coveredMS as real / (end - start) as real;
    assert share <= 1.0 by {
      assert coveredMS as real <= (end - start) as real;
    }
    ratio := if share > 1.0 then 1.0 else share;
  }

  /** The walk over sorted samples in the window: the covered duration and the gaps are what they are
      pointwise, and together they are the window, so the covered share never needs its upper clamp. */
  method CoverageAndGaps(points: seq<Point>, start: int, end: int, freshMS: int)
    returns (ratio: real, coveredMS: int, gaps: seq<Gap>)
    requires points != [] && Sorted(points) && freshMS >= 0
    requires forall i :: 0 <= i < |points| ==> points[i].timeMS < end
    ensures Describes(gaps, coveredMS, points, freshMS, start, Max(start, end))
    ensures 0 <= coveredMS <= Max(start, end) - start
    ensures ratio == if end <= start then 0.0 else coveredMS as real / (end - start) as real
  {
    hide Describes, Uncovered, Covered, ReasonAt, Latest;
    coveredMS, gaps := 0, [];
    NothingYet(points, freshMS, start);
    if points[0].timeMS > start {
      BeforeTheFirst(points, freshMS, start);
      gaps := AppendGap(gaps, start, points[0].timeMS, CollectionGap, coveredMS, points, freshMS, start);
    }
    for i := 0 to |points|
      invariant Describes(gaps, coveredMS, points, freshMS, start, Frontier(points, i, start, end)) && coveredMS >= 0
    {
      var p := points[i];
      var intervalEnd := if i + 1 < |points| then Min(end, points[i + 1].timeMS) else end;
      var validEnd := Min(intervalEnd, p.timeMS + freshMS);
      StretchOf(points, freshMS, i, intervalEnd);
      InStretch(points, freshMS, i, intervalEnd, start);
      var from := Max(start, p.timeMS);
      if p.hasValue && p.quality != Unavailable && validEnd > from {
        CoveredStretch(gaps, coveredMS, points, freshMS, start, from, validEnd);
        coveredMS := coveredMS + (validEnd - from);
      } else if validEnd > p.timeMS {
        var reason := if p.missing.Some? then p.missing.value else CollectionGap;
        gaps := AppendGap(gaps, from, validEnd, reason, coveredMS, points, freshMS, start);
      }
      if intervalEnd > validEnd {
        gaps := AppendGap(gaps, Max(start, validEnd), intervalEnd, CollectionGap, coveredMS, points, freshMS, start);
      }
    }
    DescribedAreTidy(gaps, coveredMS, points, freshMS, start, Max(start, end));
    ratio := Share(coveredMS, start, end);
  }
}
