/** What the parts of the alert engine guarantee together. */
module AlertGuarantees {
  import opened Wrappers
  import opened AlertTypes
  import opened AlertReducer
  import opened AlertInstances
  import opened AlertTables
  import opened AlertStore
  import opened AlertRunner
  import opened AlertPasses
  import Rules = AlertEvaluators
  import Writes = AlertWrites
  import Outbox = AlertOutbox
  import Capacity = AlertCapacity
  import Int64

  predicate IsRow(revisions: map<Key, Revision>, k: Key, i: nat) {
    k in revisions && i < |revisions[k].insts|
  }

  predicate IsLive(revisions: map<Key, Revision>, k: Key, i: nat) {
    IsRow(revisions, k, i) && !Terminal(revisions[k].insts[i].lineage.snapshot.state)
  }

  /** Whatever transactions led to consistent tables: every row is valid for the reducer, its generation
      counts up from 1 within its revision, its transitions are dense from 1 and chained from OK, and its
      incidents are the ones its state calls for. */
  lemma EveryRow(
    current: map<string, int>, revisions: map<Key, Revision>, cursors: map<string, Cursor>, log: map<Key, seq<Event>>,
    k: Key, i: nat)
    requires Consistent(current, revisions, cursors, log) && IsRow(revisions, k, i)
    ensures
      var inst := revisions[k].insts[i];
      var s := inst.lineage.snapshot;
      && ValidSnapshot(revisions[k].spec, s)
      && 0 <= s.dwellMS <= Int64.MAX && (s.dwellMS > 0 ==> s.state in {Pending, Recovering})
      && (s.state in {Firing, Recovering, Resolved} ==> s.openedMS.Some?) && (s.resolvedMS.Some? <==> s.state == Resolved)
      && (s.ackBy.Some? <==> s.ackMS.Some?)
      && s.generation == i + 1
      && |inst.lineage.transitions| == s.transitionSeq && Dense(inst.lineage.transitions)
      && s.state == StateAt(inst.lineage.transitions, s.transitionSeq)
      && IncidentsFit(s, inst.incidents)
    ensures k in log && revisions[k].insts[i].lineage == Fold(revisions[k].spec, log[k])[i]
  {
    FactsOfKey(current, revisions, cursors, log, k);
    RowsOK(current, revisions, cursors, log, k);
    GenerationsCount(revisions[k].spec, revisions[k].insts, log[k]);
    hide Consistent, Rules.ValidSpec, IncidentsFit;
    assert Lineages(revisions[k].insts)[i] == revisions[k].insts[i].lineage;
    assert InstanceOK(revisions[k].spec, revisions[k].insts[i]);
  }

  /** At most one row of a rule is live, over all its revisions and scopes, and it is the newest row of
      the current revision. */
  lemma OneLiveRowPerRule(
    current: map<string, int>, revisions: map<Key, Revision>, cursors: map<string, Cursor>, log: map<Key, seq<Event>>,
    k: Key, i: nat, l: Key, j: nat)
    requires Consistent(current, revisions, cursors, log)
    requires IsLive(revisions, k, i) && IsLive(revisions, l, j) && k.ruleID == l.ruleID
    ensures k == l && i == j && k.ruleID in current && k.version == current[k.ruleID] && i == |revisions[k].insts| - 1
  {
    hide Consistent, RevisionOK, WellFormed, LastOrdinal;
    FactsOfKey(current, revisions, cursors, log, k);
    FactsOfKey(current, revisions, cursors, log, l);
    LiveIsLast(revisions[k], log[k], i);
    LiveIsLast(revisions[l], log[l], j);
  }

  lemma LiveIsLast(r: Revision, events: seq<Event>, i: nat)
    requires RevisionOK(r.spec, r.insts, events) && i < |r.insts| && !Terminal(r.insts[i].lineage.snapshot.state)
    ensures i == |r.insts| - 1
  {
    GenerationsCount(r.spec, r.insts, events);
    assert Lineages(r.insts)[i] == r.insts[i].lineage;
  }

  /** Accepted ordinals of a revision strictly increase, and its rule's cursor is at or past them. */
  lemma AcceptedOrdinalsIncrease(
    current: map<string, int>, revisions: map<Key, Revision>, cursors: map<string, Cursor>, log: map<Key, seq<Event>>,
    k: Key, i: nat, j: nat)
    requires Consistent(current, revisions, cursors, log) && k in log && i < j < |log[k]|
    requires log[k][i].Evaluated? && log[k][j].Evaluated?
    ensures 1 <= log[k][i].ordinal < log[k][j].ordinal
    ensures k.ruleID in cursors &&
      (cursors[k.ruleID].version > k.version
       || (cursors[k.ruleID].version == k.version && cursors[k.ruleID].ordinal >= log[k][j].ordinal))
  {
    FactsOfKey(current, revisions, cursors, log, k);
    OrdinalFacts(revisions[k].spec, revisions[k].insts, log[k], i);
    OrdinalFacts(revisions[k].spec, revisions[k].insts, log[k], j);
    hide Consistent, RevisionOK, LastOrdinal;
  }

  lemma OrdinalFacts(spec: Spec, insts: seq<Instance>, events: seq<Event>, i: nat)
    requires RevisionOK(spec, insts, events) && i < |events| && events[i].Evaluated?
    ensures OrdinalsIncrease(events) && 1 <= events[i].ordinal <= LastOrdinal(events)
  {
    LastOrdinalIsMaximal(events);
    assert ValidEvent(events[i]);
  }

  /** A write that the query side built on the newest row and that opens FIRING is turned away by the
      store only for the capsule's opaque checks, the incident cap or the destination limit: never for
      missing evidence, a value that does not match or either dwell check. */
  lemma BuiltWriteOpens(spec: Spec, insts: seq<Instance>, p: Writes.Planned, f: Writes.Facts, cycle: Writes.Cycle,
                        hash: string, env: Environment, dests: seq<Outbox.Destination>)
    requires Rules.ValidSpec(spec) && p.ruleType == spec.ruleType && p.ruleID == spec.ruleID && p.version == spec.version
    requires p.newest == Newest(Lineages(insts)) && (p.newest.Some? ==> ValidSnapshot(spec, p.newest.value))
    requires CurrentInstance(spec, insts).lineage.snapshot == Load(spec, p.newest)
    requires Writes.ValidCycle(cycle) && Writes.SoundFacts(f, cycle.eventMS)
    requires Writes.BuildAlertWrite(p, f, cycle, hash).Some?
    requires Rules.Evaluate(spec, Writes.BuildAlertWrite(p, f, cycle, hash).value.input).Decided?
    requires
      var w := Writes.BuildAlertWrite(p, f, cycle, hash).value;
      var before := CurrentInstance(spec, insts);
      var r := Reduce(spec, before.lineage.snapshot, Writes.EvaluationOf(w, Rules.Evaluate(spec, w.input).decision));
      r.Reduced? && EnvelopeOf(before.lineage.snapshot.state, r.transition) == Capacity.Firing
    ensures
      var w := Writes.BuildAlertWrite(p, f, cycle, hash).value;
      var d := Rules.Evaluate(spec, w.input).decision;
      var before := CurrentInstance(spec, insts);
      var r := Reduce(spec, before.lineage.snapshot, Writes.EvaluationOf(w, d));
      && InRange(before.lineage.snapshot.dwellMS) && InRange(w.elapsedMS)
      && (RowFits(spec, before, r, w, d, env, dests) <==>
            env.capsuleValid && env.incidentSlotFree
            && Opened(before.(lineage := Extend(before.lineage, r)), w.eventMS, dests).Some?)
  {
    var w := Writes.BuildAlertWrite(p, f, cycle, hash).value;
    var d := Rules.Evaluate(spec, w.input).decision;
    var s := Load(spec, p.newest);
    LoadIsLive(spec, p.newest);
    Writes.DwellAccountsAgree(spec, p, f, cycle, hash);
    StepTable(spec, s, Writes.EvaluationOf(w, d));
    StepFacts(spec, s, Writes.EvaluationOf(w, d));
    hide Reduce, Rules.Evaluate, Writes.BuildAlertWrite, Writes.CapsuleMatches, Writes.DwellAccepted, Opened, Closed,
         ValidSnapshot, Rules.ValidSpec, CurrentInstance, Load;
  }

  /** The evidence is of the rule's own bad condition and of the very input that was decided on. */
  predicate Shows(ruleType: RuleType, input: Rules.Input, e: Writes.Evidence) {
    && e.windowStartMS <= e.observedMS < e.windowEndMS
    && (e.fromStatus <==> ruleType in {HostNotReporting, SourceMissing})
    && match ruleType
       case HeavyCPU => e.value.NumberValue? && 0.90 <= e.value.number <= 1.0 && input.cpuBusyRatio == Some(e.value.number)
       case MemoryPressure =>
         && e.value.TextValue? && e.value.text in {"warning", "critical"}
         && input.pressure.Some? && input.pressure.value.level == e.value.text
       case HostNotReporting =>
         && e.value.NumberValue? && e.value.number >= 60_000.0
         && input.heartbeatAgeMS.Some? && input.heartbeatAgeMS.value as real == e.value.number
       case OllamaUnreachable => e.value == Writes.FlagValue(false)
       case SourceMissing =>
         && input.source.Some?
         && (e.value == Writes.FlagValue(false)
             || (e.value == Writes.FlagValue(true) && (input.source.value.incompatible || input.dataState == DataIncompatible)))
       case DiskMonitorHealth => e.metric in {Writes.MonitorStorage, Writes.MonitorLag, Writes.MonitorDelivery}
       case ObservedRequestDuration => false
  }

  /** Whoever built the write: the store opens an alert only with evidence of the rule's own bad condition. */
  lemma OpeningIsShown(spec: Spec, before: Instance, r: Outcome, w: Writes.Write, d: Decision, env: Environment,
                       dests: seq<Outbox.Destination>)
    requires Rules.Evaluate(spec, w.input) == Rules.Decided(d)
    requires r.Reduced? && InRange(before.lineage.snapshot.dwellMS) && InRange(w.elapsedMS)
    requires EnvelopeOf(before.lineage.snapshot.state, r.transition) == Capacity.Firing
    requires RowFits(spec, before, r, w, d, env, dests)
    ensures w.evidence.Some? && Shows(spec.ruleType, w.input, w.evidence.value)
  {
    hide Reduce, Opened, Closed, Rules.ValidSpec;
  }

  /** And unless the decision is immediate or about a heartbeat, only after thirty seconds, for a busy processor
      sixty, that the row and the pass account for. */
  lemma OpeningHasWaited(spec: Spec, before: Instance, r: Outcome, w: Writes.Write, d: Decision, env: Environment,
                         dests: seq<Outbox.Destination>)
    requires Rules.Evaluate(spec, w.input) == Rules.Decided(d)
    requires r.Reduced? && InRange(before.lineage.snapshot.dwellMS) && InRange(w.elapsedMS)
    requires EnvelopeOf(before.lineage.snapshot.state, r.transition) == Capacity.Firing
    requires RowFits(spec, before, r, w, d, env, dests)
    ensures !d.immediate && spec.ruleType != HostNotReporting ==>
      && w.observedDwellMS >= (if spec.ruleType == HeavyCPU then 60_000 else 30_000)
      && w.observedDwellMS <= before.lineage.snapshot.dwellMS + (if w.hubRestarted then 0 else w.elapsedMS)
  {
    Rules.ShippedRules(spec);
    Rules.ImmediateExactly(spec, w.input);
    hide Reduce, Opened, Closed, Rules.ValidSpec, Writes.CapsuleMatches, Rules.EvaluateReachability, Rules.EvaluateSource,
         Rules.EvaluatePressure, Rules.EvaluateHeartbeat, Rules.EvaluateCPU, Rules.EvaluateMonitor;
  }

  /** A write of a pass that opens FIRING on a revision still as it was planned is turned away only for the capsule's
      opaque checks, the incident cap or more enabled destinations than the limit. */
  lemma PlannedWriteOpens(current: map<string, int>, planned: Tables, now: Tables, k: Key, w: Writes.Write, seen: Seen,
                          cycle: Writes.Cycle, dests: seq<Outbox.Destination>)
    requires Consistent(current, planned.revisions, planned.cursors, planned.log) && Same(planned, now, k)
    requires IsBuilt(w, planned, k, seen, cycle) && Writes.SoundFacts(seen.facts, cycle.eventMS)
    requires Rules.Evaluate(now.revisions[k].spec, w.input).Decided?
    requires
      var before := CurrentInstance(now.revisions[k].spec, now.revisions[k].insts).lineage.snapshot;
      var r := Reduce(now.revisions[k].spec, before, Writes.EvaluationOf(w, Rules.Evaluate(now.revisions[k].spec, w.input).decision));
      r.Reduced? && before.state in {OK, Pending} && r.snapshot.state == Firing
    ensures
      var spec := now.revisions[k].spec;
      var before := CurrentInstance(spec, now.revisions[k].insts);
      var d := Rules.Evaluate(spec, w.input).decision;
      var r := Reduce(spec, before.lineage.snapshot, Writes.EvaluationOf(w, d));
      && InRange(before.lineage.snapshot.dwellMS) && InRange(w.elapsedMS)
      && (RowFits(spec, before, r, w, d, seen.env, dests) <==>
            seen.env.capsuleValid && seen.env.incidentSlotFree && Outbox.EnabledCount(dests) <= 16)
  {
    hide Consistent, Rules.ValidSpec, Rules.Evaluate, Reduce, RowFits, CurrentInstance, Load, Lineages, InstanceOK, ValidSnapshot, PlannedOf,
         Writes.BuildAlertWrite, Writes.ValidCycle, Writes.ValidPlan, Writes.SoundFacts, Opened, EnvelopeOf, Extend, Outbox.EnabledCount, Newest;
    PlannedFacts(current, planned, k);
    var spec, insts := planned.revisions[k].spec, planned.revisions[k].insts;
    var p := PlannedOf(planned.revisions, planned.cursors, k);
    var built := Writes.BuildAlertWrite(p, seen.facts, cycle, seen.hash).value;
    var d := Rules.Evaluate(spec, w.input).decision;
    EpisodeDoesNotCount(spec, CurrentInstance(spec, insts), w, built, d, seen.env, dests);
    OpeningFacts(spec, CurrentInstance(spec, insts), Writes.EvaluationOf(built, d), built.eventMS, dests);
    BuiltWriteOpens(spec, insts, p, seen.facts, cycle, seen.hash, seen.env, dests);
  }

  /** What the plan says of a revision. */
  lemma PlannedFacts(current: map<string, int>, planned: Tables, k: Key)
    requires Consistent(current, planned.revisions, planned.cursors, planned.log) && k in planned.revisions
    ensures PlannedSoundly(planned.revisions[k].spec, planned.revisions[k].insts, PlannedOf(planned.revisions, planned.cursors, k))
  {
    hide *;
    RowsOK(current, planned.revisions, planned.cursors, planned.log, k);
    FactsOfKey(current, planned.revisions, planned.cursors, planned.log, k);
    FreshInstanceOK(planned.revisions[k].spec, planned.revisions[k].insts, planned.log[k]);
    EntryIsSound(planned.revisions, planned.cursors, k);
  }

  /** The entry is of the revision and its newest row, and the row acted on is the one loaded for it. */
  predicate PlannedSoundly(spec: Spec, insts: seq<Instance>, p: Writes.Planned) {
    && Rules.ValidSpec(spec) && p.ruleType == spec.ruleType && p.ruleID == spec.ruleID && p.version == spec.version
    && p.newest == Newest(Lineages(insts)) && (p.newest.Some? ==> ValidSnapshot(spec, p.newest.value))
    && CurrentInstance(spec, insts).lineage.snapshot == Load(spec, p.newest) && InstanceOK(spec, CurrentInstance(spec, insts))
  }

  lemma EntryIsSound(revisions: map<Key, Revision>, cursors: map<string, Cursor>, k: Key)
    requires k in revisions && Rules.ValidSpec(revisions[k].spec)
    requires revisions[k].spec.ruleID == k.ruleID && revisions[k].spec.version == k.version
    requires forall i :: 0 <= i < |revisions[k].insts| ==> InstanceOK(revisions[k].spec, revisions[k].insts[i])
    requires
      var spec, insts := revisions[k].spec, revisions[k].insts;
      && CurrentInstance(spec, insts).lineage.snapshot == Load(spec, Newest(Lineages(insts)))
      && InstanceOK(spec, CurrentInstance(spec, insts))
    ensures PlannedSoundly(revisions[k].spec, revisions[k].insts, PlannedOf(revisions, cursors, k))
  {
    hide Rules.ValidSpec, CurrentInstance, Load, Lineages, IncidentsFit, ValidSnapshot;
    var insts := revisions[k].insts;
    if insts != [] {
      assert InstanceOK(revisions[k].spec, insts[|insts| - 1]);
      assert Lineages(insts)[|insts| - 1] == insts[|insts| - 1].lineage;
    }
  }

  /** The checks of an opening do not look at the episode. */
  lemma EpisodeDoesNotCount(spec: Spec, before: Instance, w: Writes.Write, built: Writes.Write, d: Decision, env: Environment,
                            dests: seq<Outbox.Destination>)
    requires w == built.(episode := w.episode)
    ensures Writes.EvaluationOf(w, d) == Writes.EvaluationOf(built, d) && w.input == built.input && w.elapsedMS == built.elapsedMS
    ensures
      var r := Reduce(spec, before.lineage.snapshot, Writes.EvaluationOf(w, d));
      r.Reduced? && InRange(before.lineage.snapshot.dwellMS) && InRange(w.elapsedMS) ==>
        (RowFits(spec, before, r, w, d, env, dests) <==> RowFits(spec, before, r, built, d, env, dests))
  {
    hide Reduce, Opened, Closed, Writes.CapsuleMatches;
  }

  /** An opening step asks for a trigger capsule, and its notifications fail only over the limit. */
  lemma OpeningFacts(spec: Spec, before: Instance, e: Evaluation, eventMS: int, dests: seq<Outbox.Destination>)
    requires InstanceOK(spec, before) && Reduce(spec, before.lineage.snapshot, e).Reduced?
    requires before.lineage.snapshot.state in {OK, Pending} && Reduce(spec, before.lineage.snapshot, e).snapshot.state == Firing
    ensures
      var r := Reduce(spec, before.lineage.snapshot, e);
      && EnvelopeOf(before.lineage.snapshot.state, r.transition) == Capacity.Firing
      && (Opened(before.(lineage := Extend(before.lineage, r)), eventMS, dests).Some? <==>
            Outbox.EnabledCount(dests) <= 16)
  {
    StepFacts(spec, before.lineage.snapshot, e);
    hide Reduce, ValidSnapshot, IncidentsFit;
  }

  /** The write of a pass carries the cycle its runner handed out, so the run-level dwell results are
      about the writes themselves. */
  lemma WriteCarriesTheCycle(p: Writes.Planned, f: Writes.Facts, run: Run, i: nat)
    requires i < |run.passes| && ValidRun(run) && Writes.ValidPlan(p)
    requires Writes.ValidCycle(RunCycle(run, i))
    requires Writes.BuildAlertWrite(p, f, RunCycle(run, i), run.passes[i].hash).Some?
    ensures
      Writes.EvaluationOf(Writes.BuildAlertWrite(p, f, RunCycle(run, i), run.passes[i].hash).value, run.passes[i].decision)
      == EvaluationAt(run, i)
  {
    hide ValidRun, Writes.InputFor, Writes.ObservedDwell, Writes.Fenced, Writes.Windowed, RunCycle;
  }

  /** Resolving never finds the incident missing: it fails only over the destination limit, or when the
      end of the incident is too late for its retention to be represented. */
  lemma ResolutionCloses(spec: Spec, before: Instance, e: Evaluation, dests: seq<Outbox.Destination>)
    requires InstanceOK(spec, before) && Reduce(spec, before.lineage.snapshot, e).Reduced?
    requires Reduce(spec, before.lineage.snapshot, e).snapshot.state == Resolved
    ensures
      var moved := before.(lineage := Extend(before.lineage, Reduce(spec, before.lineage.snapshot, e)));
      Closed(moved, e.eventMS, dests).Some? <==>
        && before.incidents[0].startMS + 1 <= Int64.MAX - 7_776_000_000
        && e.eventMS <= Int64.MAX - 7_776_000_000
        && Outbox.EnabledCount(dests) <= 16
  {
    var s := before.lineage.snapshot;
    StepTable(spec, s, e);
    StepFacts(spec, s, e);
    RefusedExactlyWhen(spec, s, e);
    hide Reduce, Rules.ValidSpec;
    assert InRange(before.incidents[0].startMS) by {
      assert ValidSnapshot(spec, s);
    }
    hide ValidSnapshot, ValidEvaluation;
    var rows := Outbox.MoveAll(before.outbox, {Outbox.Pending, Outbox.Failed, Outbox.Muted}, Outbox.Superseded);
    assert forall i :: 0 <= i < |rows| && rows[i].key.TransitionKey? ==> rows[i].key.sequence <= s.transitionSeq;
    assert OpenIncident(before.incidents) == Some(0);
  }

  /** The instance an evaluation acted on, before and after. */
  predicate IsStep(pre: Tables, post: Tables, w: Writes.Write, r: Applied, before: Instance, next: Instance)
    requires r.Accepted?
  {
    var k := Key(w.ruleID, w.version);
    && k in pre.revisions && k in post.revisions && r.index < |post.revisions[k].insts|
    && before == CurrentInstance(pre.revisions[k].spec, pre.revisions[k].insts) && next == post.revisions[k].insts[r.index]
  }

  predicate Opens(before: Instance, next: Instance) {
    next.lineage.snapshot.state == Firing && before.lineage.snapshot.state in {OK, Pending}
  }

  predicate Resolves(next: Instance) {
    next.lineage.snapshot.state == Resolved
  }

  predicate IsEnabledNow(dests: seq<Outbox.Destination>, id: string, revision: int) {
    exists d :: 0 <= d < |dests| && dests[d].id == id && dests[d].revision == revision && dests[d].enabled
  }

  /** Who is told. If the event opens or resolves the alert, one notification of the new sequence goes to every
      enabled destination, silently exactly while the row's mute runs past the event; resolving withdraws what was
      not yet delivered; and no other notification changes. */
  predicate Notified(before: Instance, next: Instance, dests: seq<Outbox.Destination>, eventMS: int) {
    var muted := before.lineage.snapshot.mutedUntilMS;
    && |next.outbox| == |before.outbox| + (if Opens(before, next) || Resolves(next) then Outbox.EnabledCount(dests) else 0)
    && (forall i :: |before.outbox| <= i < |next.outbox| ==>
          && IsEnabledNow(dests, next.outbox[i].destination, next.outbox[i].revision)
          && next.outbox[i].sequence == next.lineage.snapshot.transitionSeq)
    && (muted.None? || muted.value <= eventMS ==>
          forall i :: |before.outbox| <= i < |next.outbox| ==> next.outbox[i].state == Outbox.Pending)
    && (muted.Some? && muted.value > eventMS ==>
          forall i :: |before.outbox| <= i < |next.outbox| ==> next.outbox[i].state == Outbox.Muted)
    && (forall i :: 0 <= i < |before.outbox| ==>
          next.outbox[i] ==
            if Resolves(next) && before.outbox[i].state in {Outbox.Pending, Outbox.Failed, Outbox.Muted}
            then before.outbox[i].(state := Outbox.Superseded) else before.outbox[i])
  }

  /** The incident: opened at the event, ended at the event or a millisecond after its start, or left alone. */
  predicate Recorded(before: Instance, next: Instance, eventMS: int) {
    && (Opens(before, next) ==> next.incidents == [Incident(eventMS, None, true)])
    && (Resolves(next) ==> |before.incidents| == 1)
    && (Resolves(next) ==>
          next.incidents == [Incident(before.incidents[0].startMS,
                                      Some(if eventMS <= before.incidents[0].startMS
                                           then before.incidents[0].startMS + 1 else eventMS), false)])
    && (!Opens(before, next) && !Resolves(next) ==> next.incidents == before.incidents)
  }

  /** What an accepted evaluation writes beside its row. */
  lemma EvaluationRows(
    current: map<string, int>, pre: Tables, post: Tables, w: Writes.Write, env: Environment, dests: seq<Outbox.Destination>, r: Applied,
    before: Instance, next: Instance)
    requires Consistent(current, pre.revisions, pre.cursors, pre.log)
    requires r.Accepted? && Committed(pre, post, w, env, dests, r) && IsStep(pre, post, w, r, before, next)
    ensures Notified(before, next, dests, w.eventMS) && Recorded(before, next, w.eventMS)
  {
    hide *;
    var e := StepOf(current, pre, post, w, env, dests, r, before, next);
    RowsNow(pre.revisions[Key(w.ruleID, w.version)].spec, before, e, next, dests);
  }

  /** The capacity an accepted evaluation is charged: for a trigger capsule, a resolution or a bare transition. */
  lemma EvaluationCharges(
    current: map<string, int>, pre: Tables, post: Tables, w: Writes.Write, env: Environment, dests: seq<Outbox.Destination>, r: Applied,
    before: Instance, next: Instance)
    requires Consistent(current, pre.revisions, pre.cursors, pre.log)
    requires r.Accepted? && Committed(pre, post, w, env, dests, r) && IsStep(pre, post, w, r, before, next)
    ensures
      Charges(pre.ledger.pending, post.ledger.pending, if Opens(before, next) then 69_632 else 4_096,
              if Opens(before, next) || Resolves(next) then 1_089_536 else 24_576,
              if Opens(before, next) then 1_204_224 else if Resolves(next) then 1_093_632 else 28_672)
  {
    hide *;
    var e := StepOf(current, pre, post, w, env, dests, r, before, next);
    ChargeOfStep(pre.revisions[Key(w.ruleID, w.version)].spec, before, e, next, dests, r, pre.ledger, post.ledger, env.nowMS);
  }

  /** The step behind an accepted evaluation. */
  lemma StepOf(
    current: map<string, int>, pre: Tables, post: Tables, w: Writes.Write, env: Environment, dests: seq<Outbox.Destination>, r: Applied,
    before: Instance, next: Instance) returns (e: Evaluation)
    requires Consistent(current, pre.revisions, pre.cursors, pre.log)
    requires r.Accepted? && Committed(pre, post, w, env, dests, r) && IsStep(pre, post, w, r, before, next)
    ensures Key(w.ruleID, w.version) in pre.revisions && Capacity.Stored(pre.ledger) && e.eventMS == w.eventMS
    ensures
      var spec := pre.revisions[Key(w.ruleID, w.version)].spec;
      && InstanceOK(spec, before) && Evolves(spec, before, e, next, dests)
      && r.transition == Reduce(spec, before.lineage.snapshot, e).transition
      && Some(post.ledger) == Capacity.Admitted(pre.ledger, EnvelopeOf(before.lineage.snapshot.state, r.transition), env.nowMS)
  {
    var k := Key(w.ruleID, w.version);
    e := Writes.EvaluationOf(w, Rules.Evaluate(pre.revisions[k].spec, w.input).decision);
    hide Consistent, RevisionOK, Rules.Evaluate, CurrentInstance, InstanceOK, Evolves, Reduce, EnvelopeOf, Capacity.Admitted,
         Capacity.Stored, LastOrdinal, StoreInstance;
    FactsOfKey(current, pre.revisions, pre.cursors, pre.log, k);
    FreshInstanceOK(pre.revisions[k].spec, pre.revisions[k].insts, pre.log[k]);
  }

  lemma RowsNow(spec: Spec, before: Instance, e: Evaluation, next: Instance, dests: seq<Outbox.Destination>)
    requires InstanceOK(spec, before) && Evolves(spec, before, e, next, dests)
    ensures Notified(before, next, dests, e.eventMS) && Recorded(before, next, e.eventMS)
  {
    hide InstanceOK, Evolves, Outbox.EnabledCount, Outbox.IsCurrent, IsEnabledNow;
    ResolvedHadOne(spec, before, e, next, dests);
    RowsOfStep(spec, before, e, next, dests);
    forall i | |before.outbox| <= i < |next.outbox|
      ensures IsEnabledNow(dests, next.outbox[i].destination, next.outbox[i].revision)
    {
      CurrentIsEnabled(dests, next.outbox[i].destination, next.outbox[i].revision);
    }
  }

  lemma CurrentIsEnabled(dests: seq<Outbox.Destination>, id: string, revision: int)
    ensures Outbox.IsCurrent(dests, id, revision) ==> IsEnabledNow(dests, id, revision)
  {
  }

  predicate Charges(before: Capacity.Pending, after: Capacity.Pending, incident: int, metadata: int, live: int) {
    && after.incident as int == before.incident as int + incident
    && after.metadata as int == before.metadata as int + metadata
    && after.live as int == before.live as int + live
  }

  lemma ResolvedHadOne(spec: Spec, before: Instance, e: Evaluation, next: Instance, dests: seq<Outbox.Destination>)
    requires InstanceOK(spec, before) && Evolves(spec, before, e, next, dests)
    ensures next.lineage.snapshot.state == Resolved ==> |before.incidents| == 1
  {
    StepTable(spec, before.lineage.snapshot, e);
    hide Reduce, ValidSnapshot;
  }

  lemma ChargeOfStep(spec: Spec, before: Instance, e: Evaluation, next: Instance, dests: seq<Outbox.Destination>, r: Applied,
                     ledger: Capacity.Ledger, ledger': Capacity.Ledger, now: Capacity.int64)
    requires InstanceOK(spec, before) && Evolves(spec, before, e, next, dests) && Capacity.Stored(ledger) && r.Accepted?
    requires r.transition == Reduce(spec, before.lineage.snapshot, e).transition
    requires Some(ledger') == Capacity.Admitted(ledger, EnvelopeOf(before.lineage.snapshot.state, r.transition), now)
    ensures
      Charges(ledger.pending, ledger'.pending, if Opens(before, next) then 69_632 else 4_096,
              if Opens(before, next) || Resolves(next) then 1_089_536 else 24_576,
              if Opens(before, next) then 1_204_224 else if Resolves(next) then 1_093_632 else 28_672)
  {
    StepFacts(spec, before.lineage.snapshot, e);
    EvolvedSnapshot(spec, before, e, next, dests);
    hide Reduce, Evolves, InstanceOK, Capacity.Fits, Capacity.Fresh;
  }
}
