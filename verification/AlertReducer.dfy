/** The storage-independent alert state machine. */
module AlertReducer {
  import opened Wrappers
  import opened AlertTypes
  import Int64
  import Rules = AlertEvaluators

  datatype Outcome =
    | Reduced(snapshot: Snapshot, transition: Option<Transition>)
    | Refused(error: Error)

  function NewSnapshot(spec: Spec, generation: int): Snapshot {
    Snapshot(spec.ruleID, spec.version, spec.scope, spec.policy, generation, OK, DataUnknown, 0, 0,
             None, None, None, None, None, None, 0)
  }

  predicate ValidSnapshot(spec: Spec, s: Snapshot) {
    && s.ruleID == spec.ruleID && s.version == spec.version && s.scope == spec.scope && s.policy == spec.policy
    && s.generation >= 1 && InRange(s.dwellMS) && InRange(s.lastEvalMS) && s.transitionSeq >= 0
    && (s.state != Pending && s.state != Recovering ==> s.dwellMS == 0)
    && (s.state == Firing || s.state == Recovering || s.state == Resolved ==> s.openedMS.Some?)
    && (s.state == Resolved <==> s.resolvedMS.Some?)
    && (s.ackBy.None? <==> s.ackMS.None?)
    && ValidTime(s.lastValidMS) && ValidTime(s.openedMS) && ValidTime(s.resolvedMS)
    && ValidTime(s.ackMS) && ValidTime(s.mutedUntilMS)
  }

  predicate ValidEvaluation(e: Evaluation) {
    && InRange(e.eventMS) && InRange(e.elapsedMS) && IsHash(e.evidenceHash)
    && Rules.ValidDecision(e.decision)
  }

  function WithTransition(previous: Snapshot, next: Snapshot, e: Evaluation): Outcome {
    var seqNo := previous.transitionSeq + 1;
    Reduced(next.(transitionSeq := seqNo),
            Some(Transition(seqNo, previous.state, next.state, e.eventMS, e.evidenceHash)))
  }

  function OpenFiring(s: Snapshot, eventMS: int): Snapshot {
    s.(state := Firing, dwellMS := 0,
       openedMS := if s.openedMS.None? then Some(eventMS) else s.openedMS,
       resolvedMS := None)
  }

  function ResetTo(s: Snapshot, state: State): Snapshot {
    s.(state := state, dwellMS := 0)
  }

  function Resolve(s: Snapshot, eventMS: int): Snapshot {
    s.(state := Resolved, dwellMS := 0, resolvedMS := Some(eventMS))
  }

  /** The row with the new sample noted; a restart also forgets the dwell held so far. */
  function Observe(current: Snapshot, e: Evaluation): Snapshot {
    var seen := current.(
      lastEvalMS := e.eventMS,
      dataState := e.decision.dataState,
      lastValidMS := if e.decision.evaluable && e.decision.dataState == DataValid
                     then Some(e.eventMS) else current.lastValidMS);
    if e.hubRestarted && (seen.state == Pending || seen.state == Recovering) then seen.(dwellMS := 0) else seen
  }

  /** The first sample after a restart proves nothing about the interval before it. */
  function CountedElapsed(e: Evaluation): int {
    if e.hubRestarted then 0 else e.elapsedMS
  }

  function StepUnevaluable(current: Snapshot, next: Snapshot, e: Evaluation): Outcome {
    match next.state
    case Pending => WithTransition(current, ResetTo(next, OK), e)
    case Recovering => WithTransition(current, ResetTo(next, Firing), e)
    case _ => Reduced(next.(dwellMS := 0), None)
  }

  function StepOK(spec: Spec, current: Snapshot, next: Snapshot, e: Evaluation): Outcome {
    if e.decision.predicate_ != Match then Reduced(next.(dwellMS := 0), None)
    else if e.decision.immediate || spec.triggerDwellMS == 0 then
      WithTransition(current, OpenFiring(next, e.eventMS), e)
    else WithTransition(current, ResetTo(next, Pending), e)
  }

  function StepFiring(spec: Spec, current: Snapshot, next: Snapshot, e: Evaluation): Outcome {
    if e.decision.predicate_ != Clear then Reduced(next.(dwellMS := 0), None)
    else if e.decision.immediate || spec.recoveryDwellMS == 0 then
      WithTransition(current, Resolve(next, e.eventMS), e)
    else WithTransition(current, ResetTo(next, Recovering), e)
  }

  function StepPending(spec: Spec, current: Snapshot, next: Snapshot, e: Evaluation): Outcome
    requires InRange(next.dwellMS) && InRange(CountedElapsed(e))
  {
    if e.decision.predicate_ != Match then WithTransition(current, ResetTo(next, OK), e)
    else
      var held := next.(dwellMS := Int64.AddSaturating(next.dwellMS, CountedElapsed(e)));
      if e.decision.immediate || held.dwellMS >= spec.triggerDwellMS
      then WithTransition(current, OpenFiring(held, e.eventMS), e)
      else Reduced(held, None)
  }

  function StepRecovering(spec: Spec, current: Snapshot, next: Snapshot, e: Evaluation): Outcome
    requires InRange(next.dwellMS) && InRange(CountedElapsed(e))
  {
    if e.decision.predicate_ != Clear then WithTransition(current, ResetTo(next, Firing), e)
    else
      var held := next.(dwellMS := Int64.AddSaturating(next.dwellMS, CountedElapsed(e)));
      if e.decision.immediate || held.dwellMS >= spec.recoveryDwellMS
      then WithTransition(current, Resolve(held, e.eventMS), e)
      else Reduced(held, None)
  }

  function Reduce(spec: Spec, current: Snapshot, e: Evaluation): Outcome {
    if !Rules.ValidSpec(spec) then Refused(InvalidSpec)
    else if !ValidSnapshot(spec, current) then Refused(InvalidSnapshot)
    else if Terminal(current.state) then Refused(TerminalState)
    else if !ValidEvaluation(e) then Refused(InvalidInput)
    else
      var next := Observe(current, e);
      if !e.decision.evaluable then StepUnevaluable(current, next, e)
      else
        match next.state
        case OK => StepOK(spec, current, next, e)
        case Pending => StepPending(spec, current, next, e)
        case Firing => StepFiring(spec, current, next, e)
        case Recovering => StepRecovering(spec, current, next, e)
        case _ => Refused(InvalidSnapshot)
  }

  /** A rule change ends an instance without evaluating its condition. */
  function Supersede(spec: Spec, current: Snapshot, eventMS: int, evidenceHash: string): Outcome {
    var e := Evaluation(eventMS, 0, false, Rules.Known(Hold, DataValid, RuleSuperseded, true), evidenceHash);
    if !Rules.ValidSpec(spec) then Refused(InvalidSpec)
    else if !ValidSnapshot(spec, current) then Refused(InvalidSnapshot)
    else if Terminal(current.state) then Refused(TerminalState)
    else if !ValidEvaluation(e) then Refused(InvalidInput)
    else WithTransition(current, ResetTo(current, Superseded).(lastEvalMS := eventMS), e)
  }

  /** The columns an evaluation never touches. */
  predicate SameIdentity(s: Snapshot, t: Snapshot) {
    && t.ruleID == s.ruleID && t.version == s.version && t.scope == s.scope && t.policy == s.policy
    && t.generation == s.generation
    && t.ackBy == s.ackBy && t.ackMS == s.ackMS && t.mutedUntilMS == s.mutedUntilMS
  }

  /** What one accepted evaluation may do, told by outcome and not by branch. */
  predicate LegalStep(spec: Spec, s: Snapshot, e: Evaluation, t: Snapshot, tr: Option<Transition>) {
    && ValidSnapshot(spec, t) && SameIdentity(s, t)
    && t.lastEvalMS == e.eventMS && t.dataState == e.decision.dataState
    && (if t.state == s.state
        then tr.None? && t.transitionSeq == s.transitionSeq && t.openedMS == s.openedMS
        else && t.transitionSeq == s.transitionSeq + 1
             && tr == Some(Transition(s.transitionSeq + 1, s.state, t.state, e.eventMS, e.evidenceHash)))
  }

  /** A refusal has exactly one cause; with a valid spec, row and evaluation the only one left
      is a terminal row, so no valid row is ever called invalid. */
  lemma RefusedExactlyWhen(spec: Spec, s: Snapshot, e: Evaluation)
    ensures Reduce(spec, s, e).Reduced? <==>
            && Rules.ValidSpec(spec) && ValidSnapshot(spec, s) && !Terminal(s.state) && ValidEvaluation(e)
    ensures ValidEvaluation(e) <==>
            && 0 <= e.eventMS <= Int64.MAX && 0 <= e.elapsedMS <= Int64.MAX && IsHash(e.evidenceHash)
            && (if e.decision.evaluable then e.decision.dataState in {DataValid, DataIncompatible} else e.decision.predicate_ == Hold)
    ensures Rules.ValidSpec(spec) && ValidSnapshot(spec, s) && Reduce(spec, s, e).Refused? ==>
            Reduce(spec, s, e).error == if Terminal(s.state) then TerminalState else InvalidInput
  {
  }

  /** The observed row differs from the stored one in the three observation columns and the dwell. */
  ghost predicate Observed(spec: Spec, s: Snapshot, next: Snapshot, e: Evaluation) {
    && ValidSnapshot(spec, next) && SameIdentity(s, next)
    && next.state == s.state && next.transitionSeq == s.transitionSeq
    && next.openedMS == s.openedMS
    && next.lastEvalMS == e.eventMS && next.dataState == e.decision.dataState
    && ValidEvaluation(e)
  }

  lemma MovedIsLegal(spec: Spec, s: Snapshot, next: Snapshot, e: Evaluation, moved: Snapshot)
    requires Observed(spec, s, next, e)
    requires moved.state != s.state && ValidSnapshot(spec, moved) && SameIdentity(next, moved)
    requires moved.lastEvalMS == next.lastEvalMS && moved.dataState == next.dataState
    ensures LegalStep(spec, s, e, WithTransition(s, moved, e).snapshot, WithTransition(s, moved, e).transition)
  {
  }

  lemma LeavingIsLegal(spec: Spec, s: Snapshot, next: Snapshot, e: Evaluation, to: State)
    requires Observed(spec, s, next, e) && to != s.state
    requires to == OK || to == Pending || (s.openedMS.Some? && to in {Firing, Recovering})
    requires !Terminal(s.state)
    ensures var r := WithTransition(s, ResetTo(next, to), e); LegalStep(spec, s, e, r.snapshot, r.transition)
  {
    MovedIsLegal(spec, s, next, e, ResetTo(next, to));
  }

  lemma OpeningIsLegal(spec: Spec, s: Snapshot, next: Snapshot, e: Evaluation, dwellMS: int)
    requires Observed(spec, s, next, e) && s.state in {OK, Pending}
    ensures
      var r := WithTransition(s, OpenFiring(next.(dwellMS := dwellMS), e.eventMS), e);
      LegalStep(spec, s, e, r.snapshot, r.transition)
  {
    MovedIsLegal(spec, s, next, e, OpenFiring(next.(dwellMS := dwellMS), e.eventMS));
  }

  lemma ResolvingIsLegal(spec: Spec, s: Snapshot, next: Snapshot, e: Evaluation, dwellMS: int)
    requires Observed(spec, s, next, e) && s.state in {Firing, Recovering}
    ensures
      var r := WithTransition(s, Resolve(next.(dwellMS := dwellMS), e.eventMS), e);
      LegalStep(spec, s, e, r.snapshot, r.transition)
  {
    MovedIsLegal(spec, s, next, e, Resolve(next.(dwellMS := dwellMS), e.eventMS));
  }

  lemma ObserveIsObserved(spec: Spec, s: Snapshot, e: Evaluation)
    requires ValidSnapshot(spec, s) && ValidEvaluation(e)
    ensures Observed(spec, s, Observe(s, e), e)
  {
  }

  lemma LegalFromOK(spec: Spec, s: Snapshot, e: Evaluation)
    requires Reduce(spec, s, e).Reduced? && s.state == OK
    ensures LegalStep(spec, s, e, Reduce(spec, s, e).snapshot, Reduce(spec, s, e).transition)
  {
    hide IsHash, Rules.ValidDecision, Rules.ValidSpec;
    var next := Observe(s, e);
    ObserveIsObserved(spec, s, e);
    OpeningIsLegal(spec, s, next, e, next.dwellMS);
    LeavingIsLegal(spec, s, next, e, Pending);
    assert next.(dwellMS := next.dwellMS) == next;
  }

  lemma LegalFromFiring(spec: Spec, s: Snapshot, e: Evaluation)
    requires Reduce(spec, s, e).Reduced? && s.state == Firing
    ensures LegalStep(spec, s, e, Reduce(spec, s, e).snapshot, Reduce(spec, s, e).transition)
  {
    hide IsHash, Rules.ValidDecision, Rules.ValidSpec;
    var next := Observe(s, e);
    ObserveIsObserved(spec, s, e);
    ResolvingIsLegal(spec, s, next, e, next.dwellMS);
    LeavingIsLegal(spec, s, next, e, Recovering);
    assert next.(dwellMS := next.dwellMS) == next;
  }

  lemma LegalFromPending(spec: Spec, s: Snapshot, e: Evaluation)
    requires Reduce(spec, s, e).Reduced? && s.state == Pending
    ensures LegalStep(spec, s, e, Reduce(spec, s, e).snapshot, Reduce(spec, s, e).transition)
  {
    hide IsHash, Rules.ValidDecision, Rules.ValidSpec;
    var next := Observe(s, e);
    ObserveIsObserved(spec, s, e);
    LeavingIsLegal(spec, s, next, e, OK);
    OpeningIsLegal(spec, s, next, e, Int64.AddSaturating(next.dwellMS, CountedElapsed(e)));
  }

  lemma LegalFromRecovering(spec: Spec, s: Snapshot, e: Evaluation)
    requires Reduce(spec, s, e).Reduced? && s.state == Recovering
    ensures LegalStep(spec, s, e, Reduce(spec, s, e).snapshot, Reduce(spec, s, e).transition)
  {
    hide IsHash, Rules.ValidDecision, Rules.ValidSpec;
    var next := Observe(s, e);
    ObserveIsObserved(spec, s, e);
    LeavingIsLegal(spec, s, next, e, Firing);
    ResolvingIsLegal(spec, s, next, e, Int64.AddSaturating(next.dwellMS, CountedElapsed(e)));
  }

  /** Every accepted evaluation is a legal step: rows stay valid, a transition is emitted
      exactly when the state changes, and operator columns are untouched. */
  lemma ReduceIsLegal(spec: Spec, s: Snapshot, e: Evaluation)
    requires Reduce(spec, s, e).Reduced?
    ensures LegalStep(spec, s, e, Reduce(spec, s, e).snapshot, Reduce(spec, s, e).transition)
  {
    RefusedExactlyWhen(spec, s, e);
    hide Reduce, LegalStep, ValidSnapshot, ValidEvaluation, Rules.ValidSpec;
    match s.state {
      case OK => LegalFromOK(spec, s, e);
      case Pending => LegalFromPending(spec, s, e);
      case Firing => LegalFromFiring(spec, s, e);
      case Recovering => LegalFromRecovering(spec, s, e);
      case _ =>
    }
  }

  /** The arrows of the state machine, with the exact condition of each. */
  lemma StepTable(spec: Spec, s: Snapshot, e: Evaluation)
    requires Reduce(spec, s, e).Reduced?
    ensures
      var t := Reduce(spec, s, e).snapshot;
      var d := e.decision;
      var held := (if e.hubRestarted then 0 else Int64.AddSaturating(s.dwellMS, e.elapsedMS));
      var matching := d.evaluable && d.predicate_ == Match;
      var clearing := d.evaluable && d.predicate_ == Clear;
      match s.state
      case OK => t.state == (if !matching then OK else if d.immediate || spec.triggerDwellMS == 0 then Firing else Pending)
      case Pending => t.state == (if !matching then OK
                                  else if d.immediate || held >= spec.triggerDwellMS then Firing else Pending)
      case Firing => t.state == (if !clearing then Firing
                                 else if d.immediate || spec.recoveryDwellMS == 0 then Resolved else Recovering)
      case Recovering => t.state == (if !clearing then Firing
                                     else if d.immediate || held >= spec.recoveryDwellMS then Resolved else Recovering)
      case _ => false
    ensures
      var t := Reduce(spec, s, e).snapshot;
      t.dwellMS == if t.state == s.state && (s.state == Pending || s.state == Recovering)
                   then (if e.hubRestarted then 0 else Int64.AddSaturating(s.dwellMS, e.elapsedMS)) else 0
  {
  }

  /** The row with the sample noted, before the step itself. */
  predicate Noted(s: Snapshot, e: Evaluation, next: Snapshot) {
    && next.state == s.state && next.openedMS == s.openedMS && next.resolvedMS.None? && s.resolvedMS.None?
    && next.lastEvalMS == e.eventMS && next.dataState == e.decision.dataState
    && next.lastValidMS == (if e.decision.evaluable && e.decision.dataState == DataValid then Some(e.eventMS) else s.lastValidMS)
  }

  /** The last sample, the last valid one, the first opening, which is never moved, and the resolution. */
  predicate HasTimes(s: Snapshot, e: Evaluation, t: Snapshot) {
    && t.lastEvalMS == e.eventMS && t.dataState == e.decision.dataState
    && t.lastValidMS == (if e.decision.evaluable && e.decision.dataState == DataValid then Some(e.eventMS) else s.lastValidMS)
    && t.openedMS == (if t.state == Firing && s.state in {OK, Pending} && s.openedMS.None? then Some(e.eventMS) else s.openedMS)
    && t.resolvedMS == (if t.state == Resolved then Some(e.eventMS) else None)
  }

  lemma TimesWhenLow(spec: Spec, s: Snapshot, next: Snapshot, e: Evaluation)
    requires Noted(s, e, next) && InRange(next.dwellMS) && InRange(CountedElapsed(e))
    ensures s.state == OK ==> HasTimes(s, e, StepOK(spec, s, next, e).snapshot)
    ensures s.state == Pending ==> HasTimes(s, e, StepPending(spec, s, next, e).snapshot)
  {
    hide CountedElapsed;
  }

  lemma TimesWhenHigh(spec: Spec, s: Snapshot, next: Snapshot, e: Evaluation)
    requires Noted(s, e, next) && InRange(next.dwellMS) && InRange(CountedElapsed(e))
    ensures s.state == Firing ==> HasTimes(s, e, StepFiring(spec, s, next, e).snapshot)
    ensures s.state == Recovering ==> HasTimes(s, e, StepRecovering(spec, s, next, e).snapshot)
    ensures !Terminal(s.state) ==> HasTimes(s, e, StepUnevaluable(s, next, e).snapshot)
  {
    hide CountedElapsed;
  }

  lemma SampleIsNoted(spec: Spec, s: Snapshot, e: Evaluation)
    requires ValidSnapshot(spec, s) && ValidEvaluation(e) && !Terminal(s.state)
    ensures Noted(s, e, Observe(s, e)) && InRange(Observe(s, e).dwellMS) && InRange(CountedElapsed(e))
  {
  }

  /** The time columns after one step. */
  lemma StepTimes(spec: Spec, s: Snapshot, e: Evaluation)
    requires Reduce(spec, s, e).Reduced?
    ensures HasTimes(s, e, Reduce(spec, s, e).snapshot)
  {
    hide ValidSnapshot, ValidEvaluation, Rules.ValidSpec, Observe, Noted, CountedElapsed, StepOK, StepPending, StepFiring, StepRecovering,
         StepUnevaluable, HasTimes;
    SampleIsNoted(spec, s, e);
    TimesWhenLow(spec, s, Observe(s, e), e);
    TimesWhenHigh(spec, s, Observe(s, e), e);
    NotedState(s, e, Observe(s, e));
  }

  lemma NotedState(s: Snapshot, e: Evaluation, next: Snapshot)
    requires Noted(s, e, next)
    ensures next.state == s.state
  {
  }

  /** Superseding takes any live row to a valid terminal row and keeps its data quality. */
  lemma SupersedeEndsAnyLiveRow(spec: Spec, s: Snapshot, eventMS: int, hash: string)
    requires Rules.ValidSpec(spec) && ValidSnapshot(spec, s) && InRange(eventMS) && IsHash(hash)
    ensures Supersede(spec, s, eventMS, hash).Reduced? <==> !Terminal(s.state)
    ensures !Terminal(s.state) ==>
      var r := Supersede(spec, s, eventMS, hash);
      && ValidSnapshot(spec, r.snapshot) && r.snapshot.state == Superseded
      && r.snapshot.dataState == s.dataState && r.snapshot.openedMS == s.openedMS
      && r.transition == Some(Transition(s.transitionSeq + 1, s.state, Superseded, eventMS, hash))
  {
  }
}
