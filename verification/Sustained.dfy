/** Sustained conditions in a series: an unbroken run of qualifying samples that spans a minimum. */
module Sustained {
  import opened Wrappers

  const STEP_LIMIT_MS := 15_000

  datatype Gap = Gap(startMS: int, endMS: int)

  /** A sample: its epoch, and the number it measures when it is measured and complete. */
  datatype Sample = Sample(timeMS: int, epoch: Option<string>, value: Option<real>)

  predicate Sorted(samples: seq<Sample>) {
    forall i, j :: 0 <= i < j < |samples| ==> samples[i].timeMS <= samples[j].timeMS
  }

  predicate Qualifies(s: Sample, threshold: real) {
    s.value.Some? && s.value.value >= threshold
  }

  /** gapBetween: some gap overlaps the open stretch between two times. */
  predicate Overlaps(gaps: seq<Gap>, start: int, end: int) {
    start < end && exists i :: 0 <= i < |gaps| && gaps[i].startMS < end && gaps[i].endMS > start
  }

  method GapBetween(gaps: seq<Gap>, start: int, end: int) returns (found: bool)
    ensures found <==> Overlaps(gaps, start, end)
  {
    if end <= start {
      return false;
    }
    for i := 0 to |gaps|
      invariant forall k :: 0 <= k < i ==> !(gaps[k].startMS < end && gaps[k].endMS > start)
    {
      if gaps[i].startMS < end && gaps[i].endMS > start {
        return true;
      }
    }
    return false;
  }

  /** Two neighbouring samples belong to one run. */
  predicate Joined(gaps: seq<Gap>, a: Sample, b: Sample) {
    b.timeMS - a.timeMS <= 15_000 && a.epoch == b.epoch && !Overlaps(gaps, a.timeMS, b.timeMS)
  }

  /** Samples i to j all qualify and each is joined to the next. */
  predicate Run(samples: seq<Sample>, gaps: seq<Gap>, threshold: real, i: nat, j: nat) {
    && i <= j < |samples|
    && (forall k :: i <= k <= j ==> Qualifies(samples[k], threshold))
    && (forall k :: i <= k < j ==> Joined(gaps, samples[k], samples[k + 1]))
  }

  predicate Spans(samples: seq<Sample>, i: nat, j: nat, minimumMS: int)
    requires i <= j < |samples|
  {
    samples[j].timeMS - samples[i].timeMS >= minimumMS
  }

  /** A run that ends at j and cannot be continued to the left. */
  predicate MaximalAt(samples: seq<Sample>, gaps: seq<Gap>, threshold: real, i: nat, j: nat) {
    Run(samples, gaps, threshold, i, j) && (i == 0 || !Run(samples, gaps, threshold, i - 1, j))
  }

  /** Some sustained run ends at j. */
  ghost predicate EndsAt(samples: seq<Sample>, gaps: seq<Gap>, threshold: real, minimumMS: int, j: nat) {
    exists i :: 0 <= i <= j && Run(samples, gaps, threshold, i, j) && Spans(samples, i, j, minimumMS)
  }

  /** Of all the runs that end at j the maximal one spans most. */
  lemma MaximalSpansMost(samples: seq<Sample>, gaps: seq<Gap>, threshold: real, i: nat, j: nat, other: nat)
    requires Sorted(samples) && MaximalAt(samples, gaps, threshold, i, j) && Run(samples, gaps, threshold, other, j)
    ensures i <= other && samples[i].timeMS <= samples[other].timeMS
  {
    if other < i {
      RunSuffix(samples, gaps, threshold, other, i - 1, j);
    }
  }

  lemma RunSuffix(samples: seq<Sample>, gaps: seq<Gap>, threshold: real, i: nat, m: nat, j: nat)
    requires Run(samples, gaps, threshold, i, j) && i <= m <= j
    ensures Run(samples, gaps, threshold, m, j)
  {
  }

  predicate IsPeak(samples: seq<Sample>, i: nat, j: nat, peak: real)
    requires i <= j < |samples|
  {
    && (forall k :: i <= k <= j && samples[k].value.Some? ==> samples[k].value.value <= peak)
    && (exists k :: i <= k <= j && samples[k].value == Some(peak))
  }

  /** The state of the walk while a run is open: it is the maximal one with its last sample. */
  ghost predicate Open(samples: seq<Sample>, gaps: seq<Gap>, threshold: real, i: nat, j: nat, peak: real) {
    MaximalAt(samples, gaps, threshold, i, j) && IsPeak(samples, i, j, peak)
  }

  lemma StartsRun(samples: seq<Sample>, gaps: seq<Gap>, threshold: real, n: nat)
    requires n < |samples| && Qualifies(samples[n], threshold)
    requires n > 0 && Qualifies(samples[n - 1], threshold) ==> !Joined(gaps, samples[n - 1], samples[n])
    ensures Open(samples, gaps, threshold, n, n, samples[n].value.value)
  {
    hide Joined;
  }

  lemma ContinuesRun(samples: seq<Sample>, gaps: seq<Gap>, threshold: real, i: nat, n: nat, peak: real)
    requires 0 < n < |samples| && Open(samples, gaps, threshold, i, n - 1, peak)
    requires Qualifies(samples[n], threshold) && Joined(gaps, samples[n - 1], samples[n])
    ensures Open(samples, gaps, threshold, i, n, if samples[n].value.value > peak then samples[n].value.value else peak)
  {
    hide Joined;
    if i > 0 && Run(samples, gaps, threshold, i - 1, n) {
      RunPrefix(samples, gaps, threshold, i - 1, n - 1, n);
    }
    var k :| i <= k <= n - 1 && samples[k].value == Some(peak);
    assert samples[n].value == Some(samples[n].value.value);
  }

  lemma RunPrefix(samples: seq<Sample>, gaps: seq<Gap>, threshold: real, i: nat, m: nat, j: nat)
    requires Run(samples, gaps, threshold, i, j) && i <= m <= j
    ensures Run(samples, gaps, threshold, i, m)
  {
  }

  lemma SpansAtTheEnd(samples: seq<Sample>, gaps: seq<Gap>, threshold: real, minimumMS: int, i: nat, n: nat, peak: real)
    requires Sorted(samples) && Open(samples, gaps, threshold, i, n, peak)
    ensures i <= n < |samples|
    ensures EndsAt(samples, gaps, threshold, minimumMS, n) <==> Spans(samples, i, n, minimumMS)
  {
    forall other | 0 <= other <= n && Run(samples, gaps, threshold, other, n) && Spans(samples, other, n, minimumMS)
      ensures Spans(samples, i, n, minimumMS)
    {
      MaximalSpansMost(samples, gaps, threshold, i, n, other);
    }
  }

  lemma NothingEndsAt(samples: seq<Sample>, gaps: seq<Gap>, threshold: real, minimumMS: int, n: nat)
    requires n < |samples| && !Qualifies(samples[n], threshold)
    ensures !EndsAt(samples, gaps, threshold, minimumMS, n)
  {
  }

  /** sustainedNumeric on samples in time order: it succeeds exactly when some unbroken qualifying run
      spans the minimum, and then reports the earliest end of any such run, the start of the maximal run
      with that end and its highest value. */
  method SustainedNumeric(samples: seq<Sample>, gaps: seq<Gap>, threshold: real, minimumMS: int)
    returns (start: int, last: int, peak: real, found: bool, ghost i: nat, ghost j: nat)
    requires Sorted(samples)
    ensures found <==> exists e :: 0 <= e < |samples| && EndsAt(samples, gaps, threshold, minimumMS, e)
    ensures found ==>
      && i <= j < |samples| && start == samples[i].timeMS && last == samples[j].timeMS
      && MaximalAt(samples, gaps, threshold, i, j) && Spans(samples, i, j, minimumMS)
      && (forall e :: 0 <= e < j ==> !EndsAt(samples, gaps, threshold, minimumMS, e))
      && IsPeak(samples, i, j, peak)
  {
    hide MaximalAt, Run, IsPeak, EndsAt, Overlaps;
    start, last, peak, found, i, j := 0, 0, 0.0, false, 0, 0;
    var active, epoch: Option<string> := false, None;
    for n := 0 to |samples|
      invariant !found
      invariant active <==> n > 0 && Qualifies(samples[n - 1], threshold)
      invariant active ==>
        && i < n && last == samples[n - 1].timeMS && epoch == samples[n - 1].epoch && start == samples[i].timeMS
        && Open(samples, gaps, threshold, i, n - 1, peak)
      invariant forall e :: 0 <= e < n ==> !EndsAt(samples, gaps, threshold, minimumMS, e)
    {
      var s := samples[n];
      if s.value.None? || s.value.value < threshold {
        NothingEndsAt(samples, gaps, threshold, minimumMS, n);
        active, epoch := false, None;
        continue;
      }
      var broken := false;
      if active {
        broken := GapBetween(gaps, last, s.timeMS);
      }
      if !active || s.timeMS - last > STEP_LIMIT_MS || epoch != s.epoch || broken {
        StartsRun(samples, gaps, threshold, n);
        start, peak, active := s.timeMS, s.value.value, true;
        i := n;
      } else {
        ContinuesRun(samples, gaps, threshold, i, n, peak);
      }
      last, epoch := s.timeMS, s.epoch;
      if s.value.value > peak {
        peak := s.value.value;
      }
      j := n;
      SpansAtTheEnd(samples, gaps, threshold, minimumMS, i, n, peak);
      if last - start >= minimumMS {
        found := true;
        return;
      }
    }
  }

  // ----- pressure states -----

  datatype Level = Warning | Critical

  /** A pressure sample; no level when it is not measured, incomplete or of another level. */
  datatype Reading = Reading(timeMS: int, epoch: Option<string>, level: Option<Level>)

  /** The warnings as a numeric series, so that their runs are the runs above. */
  function Warnings(readings: seq<Reading>): (samples: seq<Sample>)
    ensures |samples| == |readings|
    ensures forall i :: 0 <= i < |readings| ==>
      samples[i] == Sample(readings[i].timeMS, readings[i].epoch, if readings[i].level == Some(Warning) then Some(1.0) else None)
  {
    seq(|readings|, i requires 0 <= i < |readings| =>
      Sample(readings[i].timeMS, readings[i].epoch, if readings[i].level == Some(Warning) then Some(1.0) else None))
  }

  predicate InOrder(readings: seq<Reading>) {
    forall i, j :: 0 <= i < j < |readings| ==> readings[i].timeMS <= readings[j].timeMS
  }

  predicate IsCritical(readings: seq<Reading>, n: nat) {
    n < |readings| && readings[n].level == Some(Critical)
  }

  /** A reading the walk stops at. */
  ghost predicate Stops(readings: seq<Reading>, gaps: seq<Gap>, minimumMS: int, e: nat) {
    IsCritical(readings, e) || EndsAt(Warnings(readings), gaps, 1.0, minimumMS, e)
  }

  /** sustainedState on readings in time order: it stops at the first critical reading or at the earliest
      end of a warning run that spans the minimum, whichever comes first, and finds nothing otherwise. */
  method SustainedState(readings: seq<Reading>, gaps: seq<Gap>, minimumMS: int)
    returns (level: Level, start: int, last: int, found: bool, ghost i: nat, ghost j: nat)
    requires InOrder(readings)
    ensures found <==> exists e :: 0 <= e < |readings| && Stops(readings, gaps, minimumMS, e)
    ensures found ==>
      && i <= j < |readings| && start == readings[i].timeMS && last == readings[j].timeMS
      && (forall e :: 0 <= e < j ==> !Stops(readings, gaps, minimumMS, e))
      && (level == Critical <==> IsCritical(readings, j))
      && (level == Critical ==> i == j)
      && (level == Warning ==>
            MaximalAt(Warnings(readings), gaps, 1.0, i, j) && Spans(Warnings(readings), i, j, minimumMS))
  {
    ghost var samples := Warnings(readings);
    assert Sorted(samples);
    hide MaximalAt, Run, IsPeak, EndsAt, Overlaps, Warnings;
    level, start, last, found, i, j := Warning, 0, 0, false, 0, 0;
    var active, epoch: Option<string> := false, None;
    ghost var peak := 1.0;
    for n := 0 to |readings|
      invariant !found
      invariant active <==> n > 0 && Qualifies(samples[n - 1], 1.0)
      invariant active ==>
        && i < n && last == readings[n - 1].timeMS && epoch == readings[n - 1].epoch && start == readings[i].timeMS
        && Open(samples, gaps, 1.0, i, n - 1, peak)
      invariant forall e :: 0 <= e < n ==> !Stops(readings, gaps, minimumMS, e)
    {
      var s := readings[n];
      if s.level.None? {
        NothingEndsAt(samples, gaps, 1.0, minimumMS, n);
        active, epoch := false, None;
        continue;
      }
      if s.level.value == Critical {
        i, j := n, n;
        assert Stops(readings, gaps, minimumMS, n);
        return Critical, s.timeMS, s.timeMS, true, n, n;
      }
      var broken := false;
      if active {
        broken := GapBetween(gaps, last, s.timeMS);
      }
      if !active || s.timeMS - last > STEP_LIMIT_MS || epoch != s.epoch || broken {
        StartsRun(samples, gaps, 1.0, n);
        start, active := s.timeMS, true;
        i, peak := n, 1.0;
      } else {
        ContinuesRun(samples, gaps, 1.0, i, n, peak);
        peak := if 1.0 > peak then 1.0 else peak;
      }
      last, epoch := s.timeMS, s.epoch;
      j := n;
      SpansAtTheEnd(samples, gaps, 1.0, minimumMS, i, n, peak);
      if last - start >= minimumMS {
        assert Stops(readings, gaps, minimumMS, n);
        return Warning, start, last, true, i, n;
      }
    }
  }
}
