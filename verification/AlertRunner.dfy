/** The pass scheduler, and what its timing guarantees about whole runs of one rule. */
module AlertRunner {
  import opened Wrappers
  import opened AlertTypes
  import opened AlertReducer
  import opened AlertEvaluators
  import opened AlertInstances
  import opened AlertWrites
  import Int64

  // Monotonic nanoseconds.
  const CADENCE := 5_000_000_000
  const PASS_TIMEOUT := 2_000_000_000

  /** One received tick: its scheduled time, the clock at both ends of the pass, the wall clock
      at the start, and whether the evaluator returned without error. */
  datatype Tick = Tick(scheduled: int, started: int, completed: int, wallMS: int, ok: bool)

  datatype RunnerState = RunnerState(
    startedAt: int, lastOKAt: Option<int>, lastSuccessfulStart: Option<int>, continuity: bool)

  function Max(a: int, b: int): int {
    if a >= b then a else b
  }

  /** The wall time, elapsed time, lag and restart mark handed to the evaluator. */
  function CycleFor(st: RunnerState, t: Tick): Cycle {
    var tickerLag := Max(0, t.started - t.scheduled);
    var boundary := if st.lastOKAt.Some? then st.lastOKAt.value else st.startedAt;
    var lag := Max(tickerLag, Max(0, t.started - boundary));
    if !st.continuity || st.lastSuccessfulStart.None? then Cycle(t.wallMS, 0, lag, true)
    else
      var elapsed := t.started - st.lastSuccessfulStart.value;
      if elapsed < 0 || elapsed > CADENCE + PASS_TIMEOUT || tickerLag > PASS_TIMEOUT
      then Cycle(t.wallMS, 0, lag, true)
      else Cycle(t.wallMS, elapsed, lag, false)
  }

  function AfterTick(st: RunnerState, t: Tick): RunnerState {
    if t.ok then st.(lastSuccessfulStart := Some(t.started), continuity := true, lastOKAt := Some(t.completed))
    else st.(continuity := false)
  }

  function StateAfter(start: int, ticks: seq<Tick>, n: nat): RunnerState
    requires n <= |ticks|
  {
    if n == 0 then RunnerState(start, None, None, false)
    else AfterTick(StateAfter(start, ticks, n - 1), ticks[n - 1])
  }

  function CycleAt(start: int, ticks: seq<Tick>, i: nat): Cycle
    requires i < |ticks|
  {
    CycleFor(StateAfter(start, ticks, i), ticks[i])
  }

  /** The loop of the hub process. The ticker and clock readings, and the evaluator's results,
      are the ticks; the cycles it hands out are recorded. */
  class Runner {
    var started: bool
    var startedAt: int
    var lastOKAt: Option<int>
    var lastAttemptMS: Option<int>
    var lastPassFailed: bool

    constructor ()
      ensures !started && lastOKAt == None && lastAttemptMS == None && !lastPassFailed
    {
      started, startedAt, lastOKAt, lastAttemptMS, lastPassFailed := false, 0, None, None, false;
    }

    method Run(start: int, ticks: seq<Tick>) returns (cycles: seq<Cycle>)
      requires lastOKAt == None && !lastPassFailed
      modifies this
      ensures |cycles| == |ticks| && forall i :: 0 <= i < |ticks| ==> cycles[i] == CycleAt(start, ticks, i)
      ensures started && startedAt == start
      ensures lastOKAt == StateAfter(start, ticks, |ticks|).lastOKAt
      ensures lastPassFailed <==> ticks != [] && !ticks[|ticks| - 1].ok
    {
      startedAt, started := start, true;
      var lastSuccessfulStart: Option<int> := None;
      var continuity := false;
      cycles := [];
      for n := 0 to |ticks|
        invariant started && startedAt == start && |cycles| == n
        invariant forall i :: 0 <= i < n ==> cycles[i] == CycleAt(start, ticks, i)
        invariant StateAfter(start, ticks, n) == RunnerState(startedAt, lastOKAt, lastSuccessfulStart, continuity)
        invariant lastPassFailed <==> n > 0 && !ticks[n - 1].ok
      {
        var t := ticks[n];
        var tickerLag := t.started - t.scheduled;
        if tickerLag < 0 {
          tickerLag := 0;
        }
        var lagBoundary := if lastOKAt.Some? then lastOKAt.value else startedAt;
        var lastSuccessLag := t.started - lagBoundary;
        if lastSuccessLag < 0 {
          lastSuccessLag := 0;
        }
        var lag := if tickerLag >= lastSuccessLag then tickerLag else lastSuccessLag;
        lastAttemptMS := Some(t.wallMS);
        var restarted := !continuity || lastSuccessfulStart.None?;
        var elapsed := 0;
        if !restarted {
          elapsed := t.started - lastSuccessfulStart.value;
          if elapsed < 0 || elapsed > CADENCE + PASS_TIMEOUT || tickerLag > PASS_TIMEOUT {
            restarted := true;
            elapsed := 0;
          }
        }
        cycles := cycles + [Cycle(t.wallMS, elapsed, lag, restarted)];
        if !t.ok {
          continuity := false;
          lastPassFailed := true;
        } else {
          lastSuccessfulStart := Some(t.started);
          continuity := true;
          lastOKAt := Some(t.completed);
          lastPassFailed := false;
        }
      }
    }
  }

  /** The monotonic clock never steps back. */
  ghost predicate Ordered(start: int, ticks: seq<Tick>) {
    && (forall i :: 0 <= i < |ticks| ==> start <= ticks[i].started <= ticks[i].completed)
    && (forall i, j :: 0 <= i < j < |ticks| ==> ticks[i].completed <= ticks[j].started)
  }

  lemma {:induction false} LastSuccess(start: int, ticks: seq<Tick>, n: nat)
    requires n <= |ticks| && Ordered(start, ticks)
    ensures
      var st := StateAfter(start, ticks, n);
      && st.startedAt == start
      && (st.lastOKAt.Some? <==> st.lastSuccessfulStart.Some?)
      && (st.continuity ==> n > 0 && ticks[n - 1].ok)
      && (n > 0 && ticks[n - 1].ok ==>
            st.continuity && st.lastSuccessfulStart == Some(ticks[n - 1].started)
            && st.lastOKAt == Some(ticks[n - 1].completed))
      && (st.lastOKAt.Some? ==>
            st.lastSuccessfulStart.value <= st.lastOKAt.value
            && exists i :: 0 <= i < n && ticks[i].completed == st.lastOKAt.value)
  {
    if n > 0 {
      LastSuccess(start, ticks, n - 1);
      if ticks[n - 1].ok {
        assert ticks[n - 1].completed == StateAfter(start, ticks, n).lastOKAt.value;
      }
    }
  }

  /** A pass not marked restarted follows a successful one by at most seven seconds, and its lag
      is within the same bound: a lag over fifteen seconds is only ever seen on a restarted pass. */
  lemma UnrestartedLagIsBounded(start: int, ticks: seq<Tick>, i: nat)
    requires i < |ticks| && Ordered(start, ticks)
    requires !CycleAt(start, ticks, i).restarted
    ensures i > 0 && ticks[i - 1].ok
    ensures CycleAt(start, ticks, i).elapsedNS == ticks[i].started - ticks[i - 1].started
    ensures 0 <= CycleAt(start, ticks, i).elapsedNS <= 7_000_000_000
    ensures 0 <= CycleAt(start, ticks, i).lagNS <= 7_000_000_000
    ensures Millis(CycleAt(start, ticks, i).lagNS) <= 15_000
  {
    LastSuccess(start, ticks, i);
  }

  /** The end of the latest successful pass before pass i, or the runner's start. */
  function LastOKBefore(start: int, ticks: seq<Tick>, i: nat): int
    requires i <= |ticks|
  {
    if i == 0 then start else if ticks[i - 1].ok then ticks[i - 1].completed else LastOKBefore(start, ticks, i - 1)
  }

  lemma {:induction false} BoundaryIsLastOK(start: int, ticks: seq<Tick>, i: nat)
    requires i <= |ticks|
    ensures
      var st := StateAfter(start, ticks, i);
      st.startedAt == start && LastOKBefore(start, ticks, i) == if st.lastOKAt.Some? then st.lastOKAt.value else start
  {
    if i > 0 {
      BoundaryIsLastOK(start, ticks, i - 1);
    }
  }

  /** Every cycle told from the ticks alone: when a pass is marked restarted, the time since the pass before
      it, and the lag behind the schedule or the last success, whichever is greater. */
  lemma CycleExactly(start: int, ticks: seq<Tick>, i: nat)
    requires i < |ticks| && Ordered(start, ticks)
    ensures
      var c := CycleAt(start, ticks, i);
      var late := Max(0, ticks[i].started - ticks[i].scheduled);
      && c.eventMS == ticks[i].wallMS
      && (c.restarted <==>
            || i == 0 || !ticks[i - 1].ok || late > 2_000_000_000
            || ticks[i].started - ticks[i - 1].started > 7_000_000_000)
      && c.elapsedNS == (if c.restarted then 0 else ticks[i].started - ticks[i - 1].started)
      && c.lagNS == Max(late, ticks[i].started - LastOKBefore(start, ticks, i))
  {
    LastSuccess(start, ticks, i);
    BoundaryIsLastOK(start, ticks, i);
  }

  // ----- whole runs of one rule -----

  /** A pass as one rule sees it: the tick, whether the rule's write was committed in it, the decision and
      digest of that write, and the operator controls committed before the next pass. */
  datatype Pass = Pass(tick: Tick, wrote: bool, decision: Decision, hash: string, controls: seq<Event>)

  /** One process's passes over one revision of a rule: the rows it finds when it starts, and the first pass
      whose plan holds the revision. A run ends before the revision is replaced. */
  datatype Run = Run(spec: Spec, start: int, before: seq<Lineage>, planned: nat, passes: seq<Pass>)

  function Ticks(passes: seq<Pass>): (ticks: seq<Tick>)
    ensures |ticks| == |passes| && forall i :: 0 <= i < |passes| ==> ticks[i] == passes[i].tick
  {
    seq(|passes|, i requires 0 <= i < |passes| => passes[i].tick)
  }

  predicate IsControl(e: Event) {
    (e.Acknowledged? || e.MuteChanged?) && ValidEvent(e)
  }

  predicate ValidPass(p: Pass) {
    && (p.wrote ==> ValidDecision(p.decision) && IsHash(p.hash) && 0 <= p.tick.wallMS < Int64.MAX)
    && forall e :: e in p.controls ==> IsControl(e)
  }

  /** Rows found at the start belong to a revision that every plan holds. A successful pass commits every
      planned write; a failed one may have committed some. */
  ghost predicate ValidRun(run: Run) {
    && ValidSpec(run.spec) && WellFormed(run.spec, run.before)
    && (run.before != [] ==> run.planned == 0)
    && Ordered(run.start, Ticks(run.passes))
    && forall i :: 0 <= i < |run.passes| ==>
         && ValidPass(run.passes[i])
         && (i < run.planned ==> !run.passes[i].wrote)
         && (i >= run.planned && run.passes[i].tick.ok ==> run.passes[i].wrote)
  }

  function RunCycle(run: Run, i: nat): Cycle
    requires i < |run.passes|
  {
    CycleAt(run.start, Ticks(run.passes), i)
  }

  function EvaluationAt(run: Run, i: nat): Evaluation
    requires i < |run.passes|
  {
    var c := RunCycle(run, i);
    Evaluation(c.eventMS, if c.elapsedNS >= 0 then Millis(c.elapsedNS) else 0, c.restarted,
               run.passes[i].decision, run.passes[i].hash)
  }

  function Controlled(spec: Spec, h: seq<Lineage>, controls: seq<Event>): seq<Lineage> {
    if controls == [] then h
    else Step(spec, Controlled(spec, h, controls[..|controls| - 1]), controls[|controls| - 1])
  }

  /** The rule's rows when pass n reads them. */
  function RowsAfter(run: Run, n: nat): seq<Lineage>
    requires n <= |run.passes|
  {
    if n == 0 then run.before
    else
      var h := RowsAfter(run, n - 1);
      var p := run.passes[n - 1];
      Controlled(run.spec, if p.wrote then Step(run.spec, h, Evaluated(n, EvaluationAt(run, n - 1))) else h, p.controls)
  }

  /** The row the next write acts on. */
  function RowAfter(run: Run, n: nat): Snapshot
    requires n <= |run.passes|
  {
    Current(run.spec, RowsAfter(run, n)).snapshot
  }

  /** What the reducer makes of pass n's write. */
  function OutcomeOf(run: Run, n: nat): Outcome
    requires n < |run.passes|
  {
    Reduce(run.spec, RowAfter(run, n), EvaluationAt(run, n))
  }

  /** Rows that differ in operator columns at most. */
  predicate Alike(s: Snapshot, t: Snapshot) {
    t.(ackBy := s.ackBy, ackMS := s.ackMS, mutedUntilMS := s.mutedUntilMS) == s
  }

  lemma ControlKeepsCurrent(spec: Spec, h: seq<Lineage>, e: Event)
    requires IsControl(e)
    ensures Alike(Current(spec, h).snapshot, Current(spec, Step(spec, h, e)).snapshot)
  {
    hide ValidEvent, NewSnapshot;
    var i := e.index;
    if i < |h| - 1 {
      assert Step(spec, h, e)[|h| - 1] == h[|h| - 1];
    }
  }

  lemma ControlKeepsRow(spec: Spec, h: seq<Lineage>, e: Event)
    requires ValidSpec(spec) && WellFormed(spec, h) && IsControl(e)
    ensures WellFormed(spec, Step(spec, h, e))
    ensures Alike(Current(spec, h).snapshot, Current(spec, Step(spec, h, e)).snapshot)
  {
    hide Step, Current, ValidSpec, WellFormed, ValidEvent;
    StepKeepsWellFormed(spec, h, e);
    ControlKeepsCurrent(spec, h, e);
  }

  lemma {:induction false} ControlsKeepRow(spec: Spec, h: seq<Lineage>, controls: seq<Event>)
    requires ValidSpec(spec) && WellFormed(spec, h) && forall e :: e in controls ==> IsControl(e)
    ensures WellFormed(spec, Controlled(spec, h, controls))
    ensures Alike(Current(spec, h).snapshot, Current(spec, Controlled(spec, h, controls)).snapshot)
  {
    hide Step, WellFormed, Current, IsControl;
    if controls != [] {
      var rest := controls[..|controls| - 1];
      ControlsKeepRow(spec, h, rest);
      assert controls[|controls| - 1] in controls;
      ControlKeepsRow(spec, Controlled(spec, h, rest), controls[|controls| - 1]);
    }
  }

  lemma {:induction false} RowsAreWellFormed(run: Run, n: nat)
    requires n <= |run.passes| && ValidRun(run)
    ensures WellFormed(run.spec, RowsAfter(run, n))
  {
    hide Step, ValidSnapshot, Chained, EvaluationAt, CycleAt, Ordered, ValidSpec, IsControl, Current;
    if n > 0 {
      RowsAreWellFormed(run, n - 1);
      var h := RowsAfter(run, n - 1);
      if run.passes[n - 1].wrote {
        EvaluationIsValid(run, n - 1);
        StepKeepsWellFormed(run.spec, h, Evaluated(n, EvaluationAt(run, n - 1)));
        ControlsKeepRow(run.spec, Step(run.spec, h, Evaluated(n, EvaluationAt(run, n - 1))), run.passes[n - 1].controls);
      } else {
        ControlsKeepRow(run.spec, h, run.passes[n - 1].controls);
      }
    }
  }

  lemma ElapsedIsNotNegative(run: Run, i: nat)
    requires i < |run.passes| && ValidRun(run)
    ensures 0 <= RunCycle(run, i).elapsedNS <= 7_000_000_000
    ensures 0 <= EvaluationAt(run, i).elapsedMS <= 7_000
    ensures EvaluationAt(run, i).hubRestarted == RunCycle(run, i).restarted
    ensures EvaluationAt(run, i).decision == run.passes[i].decision
  {
    if !RunCycle(run, i).restarted {
      UnrestartedLagIsBounded(run.start, Ticks(run.passes), i);
    }
  }

  lemma EvaluationIsValid(run: Run, i: nat)
    requires i < |run.passes| && ValidRun(run) && run.passes[i].wrote
    ensures ValidEvaluation(EvaluationAt(run, i))
  {
    ElapsedIsNotNegative(run, i);
  }

  /** The predicate a dwelling state waits on. */
  function Awaited(s: State): Predicate
    requires s == Pending || s == Recovering
  {
    if s == Pending then Match else Clear
  }

  function RequiredDwell(spec: Spec, s: State): int {
    if s == Pending then spec.triggerDwellMS else spec.recoveryDwellMS
  }

  /** The state a dwelling one is entered from. */
  function Entrance(s: State): State {
    if s == Pending then OK else Firing
  }

  /** The state a dwelling one leads to. */
  function Goal(s: State): State {
    if s == Pending then Firing else Resolved
  }

  /** Passes k to m-1 are consecutive, each at most seven seconds after the one before, all but
      the last successful, and every one of them wrote an evaluable sample of the predicate. */
  ghost predicate Stretch(passes: seq<Pass>, k: nat, m: nat, p: Predicate) {
    && k < m <= |passes|
    && (forall j :: k <= j < m ==> passes[j].wrote && passes[j].decision.evaluable && passes[j].decision.predicate_ == p)
    && (forall j :: k <= j < m - 1 ==> passes[j].tick.ok)
    && (forall j :: k < j < m ==>
          0 <= passes[j].tick.started - passes[j - 1].tick.started <= 7_000_000_000)
  }

  function Span(passes: seq<Pass>, k: nat, m: nat): int
    requires k < m <= |passes|
  {
    passes[m - 1].tick.started - passes[k].tick.started
  }

  /** A held dwell is explained by a stretch; later passes failed before writing the rule. */
  ghost predicate Explained(run: Run, n: nat, s: Snapshot, k: nat, m: nat)
    requires n <= |run.passes|
  {
    && (s.state == Pending || s.state == Recovering)
    && m <= n && Stretch(run.passes, k, m, Awaited(s.state))
    && s.dwellMS * NANOS_PER_MS <= Span(run.passes, k, m)
    && (forall j :: m <= j < n ==> !run.passes[j].wrote)
  }

  /** The process has not written the rule before pass n. */
  ghost predicate Untouched(run: Run, n: nat)
    requires n <= |run.passes|
  {
    forall j :: 0 <= j < n ==> !run.passes[j].wrote
  }

  /** The row after pass n, told from the row before it. */
  lemma RowStep(run: Run, n: nat)
    requires 0 < n <= |run.passes| && ValidRun(run)
    ensures ValidSnapshot(run.spec, RowAfter(run, n - 1)) && !Terminal(RowAfter(run, n - 1).state)
    ensures !run.passes[n - 1].wrote ==> Alike(RowAfter(run, n - 1), RowAfter(run, n))
    ensures run.passes[n - 1].wrote ==>
      var r := OutcomeOf(run, n - 1);
      && r.Reduced?
      && (if Terminal(r.snapshot.state) then RowAfter(run, n).state == OK else Alike(r.snapshot, RowAfter(run, n)))
  {
    hide Reduce, EvaluationAt, CycleAt, ValidEvaluation, ValidSnapshot, ValidSpec, WellFormed, Chained, Ordered, IsControl;
    RowsAreWellFormed(run, n - 1);
    var h := RowsAfter(run, n - 1);
    CurrentIsWellFormed(run.spec, h);
    if run.passes[n - 1].wrote {
      EvaluationIsValid(run, n - 1);
      RefusedExactlyWhen(run.spec, Current(run.spec, h).snapshot, EvaluationAt(run, n - 1));
      EvaluationKeepsWellFormed(run.spec, h, n, EvaluationAt(run, n - 1));
      ControlsKeepRow(run.spec, Step(run.spec, h, Evaluated(n, EvaluationAt(run, n - 1))), run.passes[n - 1].controls);
    } else {
      ControlsKeepRow(run.spec, h, run.passes[n - 1].controls);
    }
  }

  lemma RowIsValid(run: Run, n: nat)
    requires n <= |run.passes| && ValidRun(run)
    ensures ValidSnapshot(run.spec, RowAfter(run, n)) && !Terminal(RowAfter(run, n).state)
  {
    hide WellFormed, ValidSnapshot, Chained, RowsAfter, Current, Ordered, ValidPass;
    RowsAreWellFormed(run, n);
    CurrentIsWellFormed(run.spec, RowsAfter(run, n));
  }

  /** The first write of a process on a row that was dwelling when it started is marked restarted. */
  lemma FirstWriteIsRestarted(run: Run, n: nat)
    requires n < |run.passes| && ValidRun(run) && Untouched(run, n)
    requires RowAfter(run, n).state in {Pending, Recovering}
    ensures RunCycle(run, n).restarted
  {
    hide CycleFor, Ordered, EvaluationAt, Step, ValidPass, Reduce, WellFormed;
    if run.before == [] {
      UntouchedRowsAreEmpty(run, n);
    } else if !RunCycle(run, n).restarted {
      UnrestartedLagIsBounded(run.start, Ticks(run.passes), n);
    }
  }

  lemma {:induction false} UntouchedRowsAreEmpty(run: Run, n: nat)
    requires n <= |run.passes| && ValidRun(run) && Untouched(run, n) && run.before == []
    ensures RowsAfter(run, n) == []
  {
    hide Step, EvaluationAt, WellFormed, Ordered, IsControl, ValidSpec;
    if n > 0 {
      UntouchedRowsAreEmpty(run, n - 1);
      ControlsNeedRows(run.spec, run.passes[n - 1].controls);
    }
  }

  lemma {:induction false} ControlsNeedRows(spec: Spec, controls: seq<Event>)
    requires forall e :: e in controls ==> IsControl(e)
    ensures Controlled(spec, [], controls) == []
  {
    if controls != [] {
      ControlsNeedRows(spec, controls[..|controls| - 1]);
      assert controls[|controls| - 1] in controls;
    }
  }

  /** One more sample of the awaited predicate either extends the stretch or starts a new one. */
  lemma StretchGrows(run: Run, n: nat, k: nat, m: nat) returns (k': nat)
    requires n < |run.passes| && ValidRun(run)
    requires RowAfter(run, n).state in {Pending, Recovering} && InRange(RowAfter(run, n).dwellMS)
    requires Untouched(run, n) || Explained(run, n, RowAfter(run, n), k, m)
    requires
      var p := run.passes[n];
      p.wrote && p.decision.evaluable && p.decision.predicate_ == Awaited(RowAfter(run, n).state)
    ensures Stretch(run.passes, k', n + 1, Awaited(RowAfter(run, n).state))
    ensures
      var e := EvaluationAt(run, n);
      var held := if e.hubRestarted then 0 else Int64.AddSaturating(RowAfter(run, n).dwellMS, e.elapsedMS);
      held * NANOS_PER_MS <= Span(run.passes, k', n + 1)
  {
    hide Reduce, CycleAt, Ordered, StateAfter, ValidEvaluation, ValidDecision, IsHash, RowAfter;
    ElapsedIsNotNegative(run, n);
    if RunCycle(run, n).restarted {
      k' := n;
    } else {
      UnrestartedLagIsBounded(run.start, Ticks(run.passes), n);
      if Untouched(run, n) {
        FirstWriteIsRestarted(run, n);
      }
      assert m == n;
      k' := k;
    }
  }

  /** A write that leaves the row dwelling is a sample of what the row waits on, and the row holds what was
      held with it, or nothing when it has just begun to wait. */
  lemma DwellingWrite(run: Run, n: nat)
    requires n < |run.passes| && ValidRun(run) && run.passes[n].wrote
    requires RowAfter(run, n + 1).state in {Pending, Recovering}
    ensures
      var d := run.passes[n].decision;
      d.evaluable && d.predicate_ == Awaited(RowAfter(run, n + 1).state)
    ensures
      var before, row, e := RowAfter(run, n), RowAfter(run, n + 1), EvaluationAt(run, n);
      && InRange(before.dwellMS) && InRange(e.elapsedMS)
      && row.dwellMS == if before.state != row.state || e.hubRestarted then 0
                        else Int64.AddSaturating(before.dwellMS, e.elapsedMS)
  {
    hide Reduce, RowAfter, EvaluationAt, RunCycle, Ordered, ValidEvaluation, ValidDecision, IsHash, ValidSpec, WellFormed, ValidRun;
    RowStep(run, n + 1);
    assert InRange(RowAfter(run, n).dwellMS);
    hide ValidSnapshot;
    ElapsedIsNotNegative(run, n);
    StepTable(run.spec, RowAfter(run, n), EvaluationAt(run, n));
  }

  /** The dwell a row holds never exceeds the monotonic time of the stretch that explains it, unless
      the process has not written the row yet. */
  lemma {:induction false} DwellIsExplained(run: Run, n: nat) returns (k: nat, m: nat)
    requires n <= |run.passes| && ValidRun(run)
    requires RowAfter(run, n).state in {Pending, Recovering}
    ensures Untouched(run, n) || Explained(run, n, RowAfter(run, n), k, m)
  {
    hide Reduce, RowAfter, EvaluationAt, RunCycle, ValidSpec, WellFormed, ValidRun, ValidSnapshot, OutcomeOf;
    k, m := 0, 0;
    if n > 0 {
      if !run.passes[n - 1].wrote {
        RowStep(run, n);
        k, m := DwellIsExplained(run, n - 1);
      } else {
        DwellingWrite(run, n - 1);
        m := n;
        if RowAfter(run, n - 1).state == RowAfter(run, n).state {
          var k0, m0 := DwellIsExplained(run, n - 1);
          k := StretchGrows(run, n - 1, k0, m0);
        } else {
          k := n - 1;
        }
      }
    }
  }

  /** Whole-run dwell soundness: if pass n takes a rule from PENDING to FIRING, or from RECOVERING
      to RESOLVED, without an immediate decision and with a positive dwell, then a stretch of
      consecutive matching (clear) passes of this process ends at it whose first and last starts are at
      least the dwell apart. Rows left by an earlier process and rules made while it runs are included. */
  lemma DwellIsSound(run: Run, n: nat) returns (k: nat)
    requires n < |run.passes| && ValidRun(run)
    requires run.passes[n].wrote && !run.passes[n].decision.immediate
    requires
      var s := RowAfter(run, n);
      && s.state in {Pending, Recovering} && RequiredDwell(run.spec, s.state) > 0
      && OutcomeOf(run, n).Reduced? && OutcomeOf(run, n).snapshot.state == Goal(s.state)
    ensures
      var s := RowAfter(run, n);
      && Stretch(run.passes, k, n + 1, Awaited(s.state))
      && Span(run.passes, k, n + 1) >= RequiredDwell(run.spec, s.state) * 1_000_000
    ensures Span(run.passes, k, n + 1) >= 30_000_000_000
    ensures run.spec.ruleType == HeavyCPU || (run.spec.ruleType == MemoryPressure && RowAfter(run, n).state == Recovering) ==>
      Span(run.passes, k, n + 1) >= 60_000_000_000
  {
    var s := RowAfter(run, n);
    RowIsValid(run, n);
    ElapsedIsNotNegative(run, n);
    StepTable(run.spec, s, EvaluationAt(run, n));
    ShippedRules(run.spec);
    hide Reduce, RowAfter, EvaluationAt, RunCycle, ValidRun, ValidSpec;
    var k0, m0 := DwellIsExplained(run, n);
    k := StretchGrows(run, n, k0, m0);
  }

  /** Milliseconds held after pass j of a wait entered, or taken up again, at pass k. */
  function Counted(run: Run, w: State, k: nat, j: nat): int
    requires k <= j < |run.passes|
  {
    if j > k then Counted(run, w, k, j - 1) + EvaluationAt(run, j).elapsedMS
    else if RowAfter(run, k).state == w && !RunCycle(run, k).restarted
    then RowAfter(run, k).dwellMS + EvaluationAt(run, k).elapsedMS
    else 0
  }

  /** Passes k to j write evaluable, non-immediate samples of the awaited predicate, and those after k are not
      marked restarted; before pass k the row is in the waiting state w or in the state it is entered from. */
  ghost predicate Waiting(run: Run, w: State, k: nat, j: nat) {
    && (w == Pending || w == Recovering)
    && k <= j < |run.passes|
    && RowAfter(run, k).state in {Entrance(w), w}
    && (forall i :: k <= i <= j ==>
          && run.passes[i].wrote && run.passes[i].decision.evaluable
          && run.passes[i].decision.predicate_ == Awaited(w) && !run.passes[i].decision.immediate)
    && (forall i :: k < i <= j ==> !RunCycle(run, i).restarted)
  }

  lemma DwellsAreSmall(run: Run, w: State)
    requires ValidRun(run)
    ensures 0 <= RequiredDwell(run.spec, w) <= Int64.MAX
  {
  }

  /** One pass of a wait. */
  lemma WaitStep(run: Run, w: State, j: nat)
    requires ValidRun(run) && w in {Pending, Recovering} && j < |run.passes|
    requires RowAfter(run, j).state in {Entrance(w), w}
    requires
      var p := run.passes[j];
      p.wrote && p.decision.evaluable && p.decision.predicate_ == Awaited(w) && !p.decision.immediate
    ensures OutcomeOf(run, j).Reduced?
    ensures
      var held := if RowAfter(run, j).state == w && !RunCycle(run, j).restarted
                  then RowAfter(run, j).dwellMS + EvaluationAt(run, j).elapsedMS else 0;
      && OutcomeOf(run, j).snapshot.state == (if held >= RequiredDwell(run.spec, w) then Goal(w) else w)
      && (held < RequiredDwell(run.spec, w) ==> RowAfter(run, j + 1).state == w && RowAfter(run, j + 1).dwellMS == held)
  {
    hide Reduce, RowAfter, EvaluationAt, RunCycle, ValidRun, ValidSpec;
    RowStep(run, j + 1);
    assert InRange(RowAfter(run, j).dwellMS);
    hide ValidSnapshot;
    ElapsedIsNotNegative(run, j);
    DwellsAreSmall(run, w);
    StepTable(run.spec, RowAfter(run, j), EvaluationAt(run, j));
  }

  /** Whole-run dwell completeness, for opening and for resolving: a wait that has counted less than the dwell
      after each earlier pass ends exactly with the first pass after which it has counted the dwell, and until
      then the row holds exactly what was counted. */
  lemma {:induction false} WaitEndsExactly(run: Run, w: State, k: nat, j: nat)
    requires ValidRun(run) && Waiting(run, w, k, j)
    requires forall i :: k <= i < j ==> Counted(run, w, k, i) < RequiredDwell(run.spec, w)
    ensures OutcomeOf(run, j).Reduced?
    ensures OutcomeOf(run, j).snapshot.state
            == (if Counted(run, w, k, j) >= RequiredDwell(run.spec, w) then Goal(w) else w)
    ensures Counted(run, w, k, j) < RequiredDwell(run.spec, w) ==>
              RowAfter(run, j + 1).state == w && RowAfter(run, j + 1).dwellMS == Counted(run, w, k, j)
  {
    hide Reduce, RowAfter, EvaluationAt, RunCycle, ValidRun, ValidSpec, RequiredDwell;
    if j > k {
      WaitEndsExactly(run, w, k, j - 1);
    }
    ElapsedIsNotNegative(run, j);
    DwellsAreSmall(run, w);
    WaitStep(run, w, j);
  }

  /** Counting in whole milliseconds loses less than one per pass of the monotonic time that passed. */
  lemma {:induction false} CountedIsElapsed(run: Run, w: State, k: nat, j: nat)
    requires ValidRun(run) && Waiting(run, w, k, j)
    ensures
      var held := Counted(run, w, k, j) - Counted(run, w, k, k);
      && held * 1_000_000 <= Span(run.passes, k, j + 1)
      && Span(run.passes, k, j + 1) <= held * 1_000_000 + (j - k) * 1_000_000
  {
    hide RowAfter, ValidSpec, WellFormed, ValidPass, StateAfter;
    if j > k {
      CountedIsElapsed(run, w, k, j - 1);
      assert !RunCycle(run, j).restarted;
      UnrestartedLagIsBounded(run.start, Ticks(run.passes), j);
      assert EvaluationAt(run, j).elapsedMS == Millis(RunCycle(run, j).elapsedNS);
    }
  }

  /** While no pass succeeds every write is marked restarted, and no dwell is ever served: nothing opens
      or resolves except at once. */
  lemma FailingPassesServeNoDwell(run: Run, n: nat)
    requires n < |run.passes| && ValidRun(run)
    requires run.passes[n].wrote && !run.passes[n].decision.immediate
    requires forall i :: 0 <= i < n ==> !run.passes[i].tick.ok
    ensures EvaluationAt(run, n).hubRestarted && OutcomeOf(run, n).Reduced?
    ensures
      var s := RowAfter(run, n).state;
      var t := OutcomeOf(run, n).snapshot.state;
      && (s in {OK, Pending} && RequiredDwell(run.spec, Pending) > 0 ==> t in {OK, Pending})
      && (s in {Firing, Recovering} && RequiredDwell(run.spec, Recovering) > 0 ==> t in {Firing, Recovering})
  {
    hide *;
    RowStep(run, n + 1);
    FirstWritesAreRestarted(run, n);
    OutcomeIs(run, n);
    NoDwellServed(run.spec, RowAfter(run, n), EvaluationAt(run, n));
  }

  lemma OutcomeIs(run: Run, n: nat)
    requires n < |run.passes|
    ensures OutcomeOf(run, n) == Reduce(run.spec, RowAfter(run, n), EvaluationAt(run, n))
    ensures EvaluationAt(run, n).decision == run.passes[n].decision
    ensures RequiredDwell(run.spec, Pending) == run.spec.triggerDwellMS && RequiredDwell(run.spec, Recovering) == run.spec.recoveryDwellMS
  {
    hide Reduce, RowAfter, RunCycle;
  }

  lemma FirstWritesAreRestarted(run: Run, n: nat)
    requires n < |run.passes| && ValidRun(run) && forall i :: 0 <= i < n ==> !run.passes[i].tick.ok
    ensures EvaluationAt(run, n).hubRestarted
  {
    CycleExactly(run.start, Ticks(run.passes), n);
    hide CycleAt, Ordered, ValidPass, WellFormed, ValidSpec;
  }

  /** A sample after a restart serves no dwell. */
  lemma NoDwellServed(spec: Spec, s: Snapshot, e: Evaluation)
    requires Reduce(spec, s, e).Reduced? && e.hubRestarted && !e.decision.immediate
    ensures s.state in {OK, Pending} && spec.triggerDwellMS > 0 ==> Reduce(spec, s, e).snapshot.state in {OK, Pending}
    ensures s.state in {Firing, Recovering} && spec.recoveryDwellMS > 0 ==> Reduce(spec, s, e).snapshot.state in {Firing, Recovering}
  {
    StepTable(spec, s, e);
    hide Reduce;
  }

  // ----- the monitor-health rule -----

  /** Every written decision is the monitor evaluator's answer to the facts read in that pass. */
  ghost predicate MonitorRun(run: Run, facts: seq<MonitorFacts>) {
    && |facts| == |run.passes| && run.spec.ruleType == DiskMonitorHealth
    && forall i :: 0 <= i < |run.passes| && run.passes[i].wrote ==>
         var c := RunCycle(run, i);
         && c.lagNS >= 0
         && Evaluate(run.spec, MonitorAlertInput(facts[i], c, c.eventMS).0) == Decided(run.passes[i].decision)
  }

  predicate Urgent(d: Decision) {
    d.reason == StoragePressure || d.reason == FinalDeliveryFailed
  }

  predicate LagMatch(d: Decision) {
    d.evaluable && d.predicate_ == Match && !Urgent(d)
  }

  lemma MonitorDecision(spec: Spec, m: MonitorFacts, c: Cycle)
    requires ValidSpec(spec) && spec.ruleType == DiskMonitorHealth && c.lagNS >= 0
    ensures
      var r := Evaluate(spec, MonitorAlertInput(m, c, c.eventMS).0);
      && r.Decided?
      && (LagMatch(r.decision) ==>
            r.decision.reason == EvaluatorLagOver15s && !r.decision.immediate && Millis(c.lagNS) > 15_000)
      && (Urgent(r.decision) ==> r.decision.evaluable && r.decision.predicate_ == Match && r.decision.immediate)
  {
  }

  /** What one step makes of an urgent decision and of lag seen on a restarted pass. */
  lemma FiresAfter(spec: Spec, s: Snapshot, e: Evaluation)
    requires ValidSpec(spec) && spec.ruleType == DiskMonitorHealth && Reduce(spec, s, e).Reduced?
    requires Urgent(e.decision) ==> e.decision.evaluable && e.decision.predicate_ == Match && e.decision.immediate
    requires LagMatch(e.decision) ==> e.hubRestarted && !e.decision.immediate
    ensures s.state in {OK, Pending} ==> (Reduce(spec, s, e).snapshot.state == Firing <==> Urgent(e.decision))
    ensures LagMatch(e.decision) ==>
              (Reduce(spec, s, e).snapshot.state == Firing <==> s.state in {Firing, Recovering})
  {
    StepTable(spec, s, e);
  }

  lemma MonitorStep(run: Run, facts: seq<MonitorFacts>, n: nat)
    requires n < |run.passes| && ValidRun(run) && MonitorRun(run, facts) && run.passes[n].wrote
    ensures OutcomeOf(run, n).Reduced?
    ensures RowAfter(run, n).state in {OK, Pending} ==>
              (OutcomeOf(run, n).snapshot.state == Firing <==> Urgent(run.passes[n].decision))
    ensures LagMatch(run.passes[n].decision) ==>
              (OutcomeOf(run, n).snapshot.state == Firing <==> RowAfter(run, n).state in {Firing, Recovering})
  {
    hide Reduce, RowAfter, CycleFor, Ordered, Evaluate, MonitorAlertInput, ValidSnapshot, StateAfter, ValidSpec, WellFormed,
         ValidDecision;
    RowStep(run, n + 1);
    ElapsedIsNotNegative(run, n);
    var c := RunCycle(run, n);
    MonitorDecision(run.spec, facts[n], c);
    if !c.restarted {
      UnrestartedLagIsBounded(run.start, Ticks(run.passes), n);
    }
    FiresAfter(run.spec, RowAfter(run, n), EvaluationAt(run, n));
  }

  /** Evaluator lag alone never opens a monitor-health alert: whatever takes the rule from OK or
      PENDING to FIRING in any run is storage pressure or a failed final delivery. */
  lemma LagNeverOpens(run: Run, facts: seq<MonitorFacts>, n: nat)
    requires n < |run.passes| && ValidRun(run) && MonitorRun(run, facts) && run.passes[n].wrote
    requires RowAfter(run, n).state in {OK, Pending}
    ensures OutcomeOf(run, n).Reduced?
    ensures OutcomeOf(run, n).snapshot.state == Firing <==> Urgent(run.passes[n].decision)
  {
    hide *;
    MonitorStep(run, facts, n);
  }

  /** A run that starts quiet and sees neither storage pressure nor a failed delivery never leaves OK and
      PENDING, however long the evaluator lags. */
  lemma {:induction false} LagAloneStaysQuiet(run: Run, facts: seq<MonitorFacts>, n: nat)
    requires n <= |run.passes| && ValidRun(run) && MonitorRun(run, facts)
    requires RowAfter(run, 0).state in {OK, Pending}
    requires forall i :: 0 <= i < n ==> !Urgent(run.passes[i].decision)
    ensures RowAfter(run, n).state in {OK, Pending}
  {
    hide Reduce, RowAfter, EvaluationAt, CycleAt, Ordered, ValidRun, MonitorRun;
    if n > 0 {
      LagAloneStaysQuiet(run, facts, n - 1);
      RowStep(run, n);
      if run.passes[n - 1].wrote {
        LagNeverOpens(run, facts, n - 1);
        StepTable(run.spec, RowAfter(run, n - 1), EvaluationAt(run, n - 1));
      }
    }
  }

  /** An alert that is already open is different: a lag match leaves the rule FIRING exactly when it was
      FIRING or RECOVERING, so lag keeps an alert alive but does not make one. */
  lemma LagCanRevive(run: Run, facts: seq<MonitorFacts>, n: nat)
    requires n < |run.passes| && ValidRun(run) && MonitorRun(run, facts) && run.passes[n].wrote
    requires LagMatch(run.passes[n].decision)
    ensures OutcomeOf(run, n).Reduced?
    ensures OutcomeOf(run, n).snapshot.state == Firing <==> RowAfter(run, n).state in {Firing, Recovering}
    ensures RowAfter(run, n + 1).state == Firing <==> RowAfter(run, n).state in {Firing, Recovering}
  {
    hide Reduce, RowAfter, EvaluationAt, RunCycle, ValidRun, MonitorRun, ValidSnapshot;
    MonitorStep(run, facts, n);
    RowStep(run, n + 1);
  }
}
