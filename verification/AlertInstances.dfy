/** Which row an evaluation acts on, and the history of rows that a list of events leaves. */
module AlertInstances {
  import opened Wrappers
  import opened AlertTypes
  import opened AlertReducer
  import Rules = AlertEvaluators

  /** The newest row of a rule version and scope is live, or is followed by a fresh one. */
  function Load(spec: Spec, newest: Option<Snapshot>): Snapshot {
    match newest
    case None => NewSnapshot(spec, 1)
    case Some(s) => if Terminal(s.state) then NewSnapshot(spec, s.generation + 1) else s
  }

  lemma LoadIsLive(spec: Spec, newest: Option<Snapshot>)
    requires newest.Some? ==> ValidSnapshot(spec, newest.value)
    ensures ValidSnapshot(spec, Load(spec, newest)) && !Terminal(Load(spec, newest).state)
  {
  }

  /** A fresh row knows nothing yet. */
  lemma FreshIsBlank(spec: Spec, newest: Option<Snapshot>)
    requires newest.None? || Terminal(newest.value.state)
    ensures
      var s := Load(spec, newest);
      && s.generation == (if newest.None? then 1 else newest.value.generation + 1)
      && s.ruleID == spec.ruleID && s.version == spec.version && s.scope == spec.scope && s.policy == spec.policy
      && s.state == OK && s.dataState == DataUnknown && s.dwellMS == 0 && s.lastEvalMS == 0 && s.transitionSeq == 0
      && s.lastValidMS.None? && s.openedMS.None? && s.resolvedMS.None?
      && s.ackBy.None? && s.ackMS.None? && s.mutedUntilMS.None?
  {
  }

  /** One instance: its row and the transitions it has made. */
  datatype Lineage = Lineage(snapshot: Snapshot, transitions: seq<Transition>)

  datatype Event =
    | Evaluated(ordinal: int, evaluation: Evaluation)
    | Acknowledged(index: nat, user: string, atMS: int)
    | MuteChanged(index: nat, untilMS: Option<int>)
    | RuleChanged(eventMS: int, hash: string)

  function Newest(h: seq<Lineage>): Option<Snapshot> {
    if h == [] then None else Some(h[|h| - 1].snapshot)
  }

  /** The lineage an outcome leaves behind. */
  function Extend(l: Lineage, r: Outcome): Lineage
    requires r.Reduced?
  {
    Lineage(r.snapshot, l.transitions + if r.transition.Some? then [r.transition.value] else [])
  }

  /** The lineage an evaluation starts from: the newest live one, else an empty fresh one. */
  function Current(spec: Spec, h: seq<Lineage>): Lineage {
    if h == [] || Terminal(h[|h| - 1].snapshot.state) then Lineage(Load(spec, Newest(h)), [])
    else h[|h| - 1]
  }

  predicate IsFresh(h: seq<Lineage>) {
    h == [] || Terminal(h[|h| - 1].snapshot.state)
  }

  /** Put the current lineage back: appended when fresh, replacing the newest otherwise. */
  function Store(h: seq<Lineage>, l: Lineage): seq<Lineage> {
    if IsFresh(h) then h + [l] else h[|h| - 1 := l]
  }

  function Step(spec: Spec, h: seq<Lineage>, e: Event): seq<Lineage> {
    match e
    case Evaluated(_, evaluation) =>
      var r := Reduce(spec, Current(spec, h).snapshot, evaluation);
      if r.Reduced? then Store(h, Extend(Current(spec, h), r)) else h
    case Acknowledged(i, user, at) =>
      if i < |h| then h[i := h[i].(snapshot := h[i].snapshot.(ackBy := Some(user), ackMS := Some(at)))] else h
    case MuteChanged(i, until) =>
      if i < |h| then h[i := h[i].(snapshot := h[i].snapshot.(mutedUntilMS := until))] else h
    case RuleChanged(eventMS, hash) =>
      if IsFresh(h) then h
      else
        var r := AlertReducer.Supersede(spec, h[|h| - 1].snapshot, eventMS, hash);
        if r.Reduced? then h[|h| - 1 := Extend(h[|h| - 1], r)] else h
  }

  /** The plain fold of the reducer over the accepted events. */
  function Fold(spec: Spec, events: seq<Event>): seq<Lineage> {
    if events == [] then [] else Step(spec, Fold(spec, events[..|events| - 1]), events[|events| - 1])
  }

  predicate ValidEvent(e: Event) {
    match e
    case Evaluated(ordinal, evaluation) => ordinal >= 1 && ValidEvaluation(evaluation)
    case Acknowledged(_, _, at) => InRange(at)
    case MuteChanged(_, until) => ValidTime(until)
    case RuleChanged(eventMS, hash) => InRange(eventMS) && IsHash(hash)
  }

  /** The state before the i-th transition of a list that starts at OK. */
  function StateAt(ts: seq<Transition>, i: nat): State
    requires i <= |ts|
  {
    if i == 0 then OK else ts[i - 1].next
  }

  /** Numbers are dense from 1 and every previous state is the prior new state, starting at OK. */
  predicate Dense(ts: seq<Transition>) {
    forall i :: 0 <= i < |ts| ==> ts[i].sequence == i + 1 && ts[i].previous == StateAt(ts, i)
  }

  /** The row's sequence and state are those its transitions lead to. */
  predicate Chained(l: Lineage) {
    && Dense(l.transitions)
    && |l.transitions| == l.snapshot.transitionSeq
    && l.snapshot.state == StateAt(l.transitions, |l.transitions|)
  }

  /** Generations are contiguous from 1, and only the newest row can be live. */
  predicate WellFormed(spec: Spec, h: seq<Lineage>) {
    && (forall i :: 0 <= i < |h| ==> ValidSnapshot(spec, h[i].snapshot) && Chained(h[i]))
    && (forall i :: 0 <= i < |h| ==> h[i].snapshot.generation == i + 1)
    && (forall i :: 0 <= i < |h| - 1 ==> Terminal(h[i].snapshot.state))
  }

  lemma ExtendKeepsChain(l: Lineage, r: Outcome)
    requires Chained(l) && r.Reduced?
    requires if r.transition.None?
             then r.snapshot.state == l.snapshot.state && r.snapshot.transitionSeq == l.snapshot.transitionSeq
             else r.snapshot.transitionSeq == l.snapshot.transitionSeq + 1
                  && r.transition.value.sequence == l.snapshot.transitionSeq + 1
                  && r.transition.value.previous == l.snapshot.state
                  && r.transition.value.next == r.snapshot.state
    ensures Chained(Extend(l, r))
  {
  }

  lemma ColumnsKeepChain(l: Lineage, s: Snapshot)
    requires Chained(l) && s.state == l.snapshot.state && s.transitionSeq == l.snapshot.transitionSeq
    ensures Chained(l.(snapshot := s))
  {
  }

  lemma CurrentIsWellFormed(spec: Spec, h: seq<Lineage>)
    requires Rules.ValidSpec(spec) && WellFormed(spec, h)
    ensures
      var c := Current(spec, h);
      && ValidSnapshot(spec, c.snapshot) && Chained(c) && !Terminal(c.snapshot.state)
      && c.snapshot == Load(spec, Newest(h))
      && c.snapshot.generation == if IsFresh(h) then |h| + 1 else |h|
  {
  }

  lemma ReplaceKeepsWellFormed(spec: Spec, h: seq<Lineage>, i: nat, l: Lineage)
    requires WellFormed(spec, h) && i < |h|
    requires ValidSnapshot(spec, l.snapshot) && Chained(l) && l.snapshot.generation == i + 1
    requires i == |h| - 1 || Terminal(l.snapshot.state)
    ensures WellFormed(spec, h[i := l])
  {
  }

  lemma AppendKeepsWellFormed(spec: Spec, h: seq<Lineage>, l: Lineage)
    requires WellFormed(spec, h) && IsFresh(h)
    requires ValidSnapshot(spec, l.snapshot) && Chained(l) && l.snapshot.generation == |h| + 1
    ensures WellFormed(spec, h + [l])
  {
  }

  lemma EvaluationKeepsWellFormed(spec: Spec, h: seq<Lineage>, ordinal: int, evaluation: Evaluation)
    requires Rules.ValidSpec(spec) && WellFormed(spec, h) && ValidEvaluation(evaluation)
    ensures Reduce(spec, Current(spec, h).snapshot, evaluation).Reduced?
    ensures WellFormed(spec, Step(spec, h, Evaluated(ordinal, evaluation)))
  {
    hide Reduce;
    var c := Current(spec, h);
    CurrentIsWellFormed(spec, h);
    RefusedExactlyWhen(spec, c.snapshot, evaluation);
    ReduceIsLegal(spec, c.snapshot, evaluation);
    var r := Reduce(spec, c.snapshot, evaluation);
    ExtendKeepsChain(c, r);
    if IsFresh(h) {
      AppendKeepsWellFormed(spec, h, Extend(c, r));
    } else {
      ReplaceKeepsWellFormed(spec, h, |h| - 1, Extend(c, r));
    }
  }

  lemma RuleChangeKeepsWellFormed(spec: Spec, h: seq<Lineage>, eventMS: int, hash: string)
    requires Rules.ValidSpec(spec) && WellFormed(spec, h) && InRange(eventMS) && IsHash(hash)
    ensures var h' := Step(spec, h, RuleChanged(eventMS, hash)); WellFormed(spec, h') && IsFresh(h')
  {
    if !IsFresh(h) {
      var l := h[|h| - 1];
      SupersedeEndsAnyLiveRow(spec, l.snapshot, eventMS, hash);
      var r := AlertReducer.Supersede(spec, l.snapshot, eventMS, hash);
      ExtendKeepsChain(l, r);
      assert r.snapshot.generation == l.snapshot.generation;
      ReplaceKeepsWellFormed(spec, h, |h| - 1, Extend(l, r));
    }
  }

  lemma ControlKeepsWellFormed(spec: Spec, h: seq<Lineage>, i: nat, s: Snapshot)
    requires WellFormed(spec, h) && i < |h|
    requires s.(ackBy := h[i].snapshot.ackBy, ackMS := h[i].snapshot.ackMS,
                mutedUntilMS := h[i].snapshot.mutedUntilMS) == h[i].snapshot
    requires ValidSnapshot(spec, s)
    ensures WellFormed(spec, h[i := h[i].(snapshot := s)])
  {
    ColumnsKeepChain(h[i], s);
    ReplaceKeepsWellFormed(spec, h, i, h[i].(snapshot := s));
  }

  lemma StepKeepsWellFormed(spec: Spec, h: seq<Lineage>, e: Event)
    requires Rules.ValidSpec(spec) && WellFormed(spec, h) && ValidEvent(e)
    ensures WellFormed(spec, Step(spec, h, e))
  {
    match e {
      case Evaluated(ordinal, evaluation) => EvaluationKeepsWellFormed(spec, h, ordinal, evaluation);
      case RuleChanged(eventMS, hash) => RuleChangeKeepsWellFormed(spec, h, eventMS, hash);
      case Acknowledged(i, user, at) =>
        if i < |h| {
          ControlKeepsWellFormed(spec, h, i, h[i].snapshot.(ackBy := Some(user), ackMS := Some(at)));
        }
      case MuteChanged(i, until) =>
        if i < |h| {
          ControlKeepsWellFormed(spec, h, i, h[i].snapshot.(mutedUntilMS := until));
        }
    }
  }

  /** Over any list of accepted events no row ever becomes invalid, generations count up from 1,
      at most the newest instance is live, and every instance's transitions chain densely from OK. */
  lemma {:induction false} FoldIsWellFormed(spec: Spec, events: seq<Event>)
    requires Rules.ValidSpec(spec)
    requires forall i :: 0 <= i < |events| ==> ValidEvent(events[i])
    ensures WellFormed(spec, Fold(spec, events))
  {
    if events != [] {
      var before := events[..|events| - 1];
      FoldIsWellFormed(spec, before);
      StepKeepsWellFormed(spec, Fold(spec, before), events[|events| - 1]);
    }
  }

  /** The reducer never calls a row of any reachable history invalid, so an accepted evaluation
      always lands: it extends the live instance or opens the next generation. */
  lemma NoReachableRowIsInvalid(spec: Spec, events: seq<Event>, e: Evaluation)
    requires Rules.ValidSpec(spec) && ValidEvaluation(e)
    requires forall i :: 0 <= i < |events| ==> ValidEvent(events[i])
    ensures Reduce(spec, Load(spec, Newest(Fold(spec, events))), e).Reduced?
    ensures
      var h := Fold(spec, events);
      var h' := Step(spec, h, Evaluated(1, e));
      && |h'| == |h| + (if IsFresh(h) then 1 else 0)
      && (forall i :: 0 <= i < |h| && (IsFresh(h) || i < |h| - 1) ==> h'[i] == h[i])
  {
    FoldIsWellFormed(spec, events);
    var h := Fold(spec, events);
    CurrentIsWellFormed(spec, h);
    EvaluationKeepsWellFormed(spec, h, 1, e);
  }
}
