/** The alert tables, what holds of them between transactions, and what each kind of transaction keeps. */
module AlertTables {
  import opened Wrappers
  import opened AlertTypes
  import opened AlertReducer
  import opened AlertInstances
  import Rules = AlertEvaluators
  import Writes = AlertWrites
  import Outbox = AlertOutbox
  import Capacity = AlertCapacity
  import Int64

  const RULE_LIMIT := 64
  const RETENTION_MS := 7_776_000_000

  /** A rule revision; its scope fingerprint is part of its spec. */
  datatype Key = Key(ruleID: string, version: int)

  datatype Incident = Incident(startMS: int, endMS: Option<int>, open: bool)

  /** A row of alert_instances with the rows of the three tables that refer to it. */
  datatype Instance = Instance(lineage: Lineage, incidents: seq<Incident>, outbox: seq<Outbox.Intent>)

  /** A rule revision and the instances evaluated under it. */
  datatype Revision = Revision(spec: Spec, enabled: bool, insts: seq<Instance>)

  datatype Cursor = Cursor(
    version: int, scope: string, ordinal: int, observedThroughMS: int, hash: string,
    index: nat, transitionSeq: int, transitionWritten: bool)

  datatype Failure =
    | Invalid | Fenced | RuleMissing | RuleDisabled | RuleRevision | CursorConflict
    | NoCapacity | Constraint | IncidentLimit | DestinationLimit | RuleLimit | Reducer(error: Error) | Forbidden | NotFound

  datatype Applied =
    | Accepted(index: nat, snapshot: Snapshot, transition: Option<Transition>, duplicate: bool)
    | Rejected(failure: Failure)

  function Lineages(insts: seq<Instance>): (ls: seq<Lineage>)
    ensures |ls| == |insts| && forall i :: 0 <= i < |insts| ==> ls[i] == insts[i].lineage
  {
    seq(|insts|, i requires 0 <= i < |insts| => insts[i].lineage)
  }

  predicate ClosedIncident(c: Incident) {
    !c.open && c.endMS.Some? && c.endMS.value > c.startMS
  }

  /** No incident before the alert opens, one open incident while it fires or recovers, one
      closed incident with a later end once it is resolved, none open after it is superseded. */
  predicate IncidentsFit(s: Snapshot, incidents: seq<Incident>) {
    match s.state
    case OK => incidents == [] && s.openedMS.None?
    case Pending => incidents == [] && s.openedMS.None?
    case Firing => |incidents| == 1 && incidents[0].open && incidents[0].endMS.None? && s.openedMS == Some(incidents[0].startMS)
    case Recovering => |incidents| == 1 && incidents[0].open && incidents[0].endMS.None? && s.openedMS == Some(incidents[0].startMS)
    case Resolved => |incidents| == 1 && ClosedIncident(incidents[0]) && s.openedMS == Some(incidents[0].startMS)
    case Superseded => |incidents| <= 1 && forall i :: 0 <= i < |incidents| ==> ClosedIncident(incidents[i])
  }

  predicate InstanceOK(spec: Spec, inst: Instance) {
    && ValidSnapshot(spec, inst.lineage.snapshot)
    && IncidentsFit(inst.lineage.snapshot, inst.incidents)
    && (forall i :: 0 <= i < |inst.outbox| && inst.outbox[i].key.TransitionKey? ==>
          inst.outbox[i].key.sequence <= inst.lineage.snapshot.transitionSeq)
  }

  function LastOrdinal(events: seq<Event>): int {
    if events == [] then 0
    else if events[|events| - 1].Evaluated? then events[|events| - 1].ordinal
    else LastOrdinal(events[..|events| - 1])
  }

  /** Accepted ordinals strictly increase. */
  predicate OrdinalsIncrease(events: seq<Event>) {
    forall i, j :: 0 <= i < j < |events| && events[i].Evaluated? && events[j].Evaluated? ==>
      events[i].ordinal < events[j].ordinal
  }

  lemma {:induction false} LastOrdinalIsMaximal(events: seq<Event>)
    requires OrdinalsIncrease(events) && forall i :: 0 <= i < |events| ==> ValidEvent(events[i])
    ensures forall i :: 0 <= i < |events| && events[i].Evaluated? ==> events[i].ordinal <= LastOrdinal(events)
  {
    if events != [] && !events[|events| - 1].Evaluated? {
      LastOrdinalIsMaximal(events[..|events| - 1]);
      assert forall i :: 0 <= i < |events| - 1 ==> events[i] == events[..|events| - 1][i];
    }
  }

  /** The rows of one revision refine the plain fold of the reducer over its accepted events. */
  ghost predicate RevisionOK(spec: Spec, insts: seq<Instance>, events: seq<Event>) {
    && Rules.ValidSpec(spec)
    && Lineages(insts) == Fold(spec, events)
    && (forall i :: 0 <= i < |events| ==> ValidEvent(events[i]))
    && OrdinalsIncrease(events)
    && (forall i :: 0 <= i < |insts| ==> InstanceOK(spec, insts[i]))
  }

  predicate AllTerminal(insts: seq<Instance>) {
    forall i :: 0 <= i < |insts| ==> Terminal(insts[i].lineage.snapshot.state)
  }

  /** The cursor of a rule is at the last accepted ordinal of its newest evaluated revision. */
  predicate CursorCovers(cursors: map<string, Cursor>, k: Key, last: int) {
    last > 0 ==>
      && k.ruleID in cursors
      && (cursors[k.ruleID].version > k.version
          || (cursors[k.ruleID].version == k.version && cursors[k.ruleID].ordinal == last))
  }

  /** The cursor's result can be read back. */
  predicate CursorPoints(c: Cursor, insts: seq<Instance>) {
    && c.ordinal >= 1 && c.index < |insts|
    && 0 <= c.transitionSeq <= |insts[c.index].lineage.transitions|
    && (c.transitionWritten ==> c.transitionSeq >= 1)
  }

  /** Everything about one revision: it refines its log, and superseded revisions are at rest. */
  ghost predicate KeyOK(k: Key, r: Revision, events: seq<Event>, current: map<string, int>, cursors: map<string, Cursor>) {
    && r.spec.ruleID == k.ruleID && r.spec.version == k.version
    && k.ruleID in current && k.version <= current[k.ruleID]
    && RevisionOK(r.spec, r.insts, events)
    && (k.version < current[k.ruleID] ==> AllTerminal(r.insts))
    && CursorCovers(cursors, k, LastOrdinal(events))
  }

  predicate SameScope(k: Key, r: Revision, l: Key, s: Revision) {
    k.ruleID == l.ruleID && r.spec.scope == s.spec.scope
  }

  predicate CurrentOK(current: map<string, int>, revisions: map<Key, Revision>) {
    forall id :: id in current ==> Key(id, current[id]) in revisions
  }

  ghost predicate KeysOK(
    current: map<string, int>, revisions: map<Key, Revision>, cursors: map<string, Cursor>, log: map<Key, seq<Event>>)
  {
    revisions.Keys == log.Keys
    && forall k :: k in revisions ==> KeyOK(k, revisions[k], log[k], current, cursors)
  }

  predicate CursorOK(current: map<string, int>, revisions: map<Key, Revision>, cursors: map<string, Cursor>, id: string)
    requires id in cursors
  {
    && id in current && cursors[id].version <= current[id]
    && Key(id, cursors[id].version) in revisions
    && cursors[id].scope == revisions[Key(id, cursors[id].version)].spec.scope
    && CursorPoints(cursors[id], revisions[Key(id, cursors[id].version)].insts)
  }

  predicate CursorsOK(current: map<string, int>, revisions: map<Key, Revision>, cursors: map<string, Cursor>) {
    forall id :: id in cursors ==> CursorOK(current, revisions, cursors, id)
  }

  /** Of the revisions of a rule that share a scope at most one has rows. */
  predicate ScopesOK(revisions: map<Key, Revision>) {
    forall k, l :: k in revisions && l in revisions && k != l && SameScope(k, revisions[k], l, revisions[l]) ==>
      revisions[k].insts == [] || revisions[l].insts == []
  }

  ghost predicate Consistent(
    current: map<string, int>, revisions: map<Key, Revision>, cursors: map<string, Cursor>, log: map<Key, seq<Event>>)
  {
    && CurrentOK(current, revisions)
    && KeysOK(current, revisions, cursors, log)
    && CursorsOK(current, revisions, cursors)
    && ScopesOK(revisions)
  }

  /** Another revision of the rule with the same scope already has rows; its generation 1 takes the
      unique slot (rule, scope, generation), which does not mention the version. */
  predicate Blocked(revisions: map<Key, Revision>, k: Key)
    requires k in revisions
  {
    revisions[k].insts == []
    && exists l :: l in revisions && l != k && SameScope(k, revisions[k], l, revisions[l]) && revisions[l].insts != []
  }

  predicate BlockedIn(revisions: map<Key, Revision>, k: Key) {
    k in revisions && Blocked(revisions, k)
  }

  /** Whatever is blocked before is blocked after. */
  ghost predicate StillBlocked(before: map<Key, Revision>, after: map<Key, Revision>) {
    forall k :: BlockedIn(before, k) ==> BlockedIn(after, k)
  }

  /** Some revision of the rule with this scope has rows. */
  predicate HasRowsIn(revisions: map<Key, Revision>, id: string, scope: string) {
    exists l :: l in revisions && l.ruleID == id && revisions[l].spec.scope == scope && revisions[l].insts != []
  }

  /** Rows are never removed and a blocked revision gets none, so nothing blocked comes free. */
  lemma ReplacingKeepsBlocked(revisions: map<Key, Revision>, k: Key, r: Revision)
    requires k in revisions && r.spec.scope == revisions[k].spec.scope
    requires if Blocked(revisions, k) then r.insts == [] else revisions[k].insts != [] ==> r.insts != []
    ensures StillBlocked(revisions, revisions[k := r])
  {
    var after := revisions[k := r];
    forall m | BlockedIn(revisions, m) ensures BlockedIn(after, m) {
      var l :| l in revisions && l != m && SameScope(m, revisions[m], l, revisions[l]) && revisions[l].insts != [];
      assert SameScope(m, after[m], l, after[l]) && after[l].insts != [];
    }
  }

  /** A new revision is blocked exactly when some revision of the rule with its scope has rows. */
  lemma AddingBlocksExactly(revisions: map<Key, Revision>, k: Key, r: Revision)
    requires k !in revisions && r.insts == []
    ensures StillBlocked(revisions, revisions[k := r])
    ensures Blocked(revisions[k := r], k) <==> HasRowsIn(revisions, k.ruleID, r.spec.scope)
  {
    var after := revisions[k := r];
    forall m | BlockedIn(revisions, m) ensures BlockedIn(after, m) {
      var l :| l in revisions && l != m && SameScope(m, revisions[m], l, revisions[l]) && revisions[l].insts != [];
      assert SameScope(m, after[m], l, after[l]);
    }
    if HasRowsIn(revisions, k.ruleID, r.spec.scope) {
      var l :| l in revisions && l.ruleID == k.ruleID && revisions[l].spec.scope == r.spec.scope && revisions[l].insts != [];
      assert SameScope(k, after[k], l, after[l]);
    }
    if Blocked(after, k) {
      var l :| l in after && l != k && SameScope(k, after[k], l, after[l]) && after[l].insts != [];
      assert revisions[l] == after[l];
    }
  }

  lemma SameLengthKeepsRows(revisions: map<Key, Revision>, k: Key, out: seq<Instance>, id: string, scope: string)
    requires k in revisions && |out| == |revisions[k].insts|
    ensures HasRowsIn(revisions[k := revisions[k].(insts := out)], id, scope) <==> HasRowsIn(revisions, id, scope)
  {
    var after := revisions[k := revisions[k].(insts := out)];
    if HasRowsIn(revisions, id, scope) {
      var l :| l in revisions && l.ruleID == id && revisions[l].spec.scope == scope && revisions[l].insts != [];
      assert after[l].insts != [];
    }
    if HasRowsIn(after, id, scope) {
      var l :| l in after && l.ruleID == id && after[l].spec.scope == scope && after[l].insts != [];
      assert revisions[l].insts != [];
    }
  }

  predicate HasGeneration(insts: seq<Instance>, generation: int) {
    exists i :: 0 <= i < |insts| && insts[i].lineage.snapshot.generation == generation
  }

  /** The unique index on (rule, scope fingerprint, generation) refuses the insert. */
  predicate GenerationTaken(revisions: map<Key, Revision>, k: Key, generation: int)
    requires k in revisions
  {
    exists l :: l in revisions && SameScope(k, revisions[k], l, revisions[l]) && HasGeneration(revisions[l].insts, generation)
  }

  lemma GenerationsCount(spec: Spec, insts: seq<Instance>, events: seq<Event>)
    requires RevisionOK(spec, insts, events)
    ensures WellFormed(spec, Lineages(insts))
    ensures forall i :: 0 <= i < |insts| ==> insts[i].lineage.snapshot.generation == i + 1
  {
    FoldIsWellFormed(spec, events);
    assert forall i :: 0 <= i < |insts| ==> Lineages(insts)[i] == insts[i].lineage;
  }

  lemma HasGenerationExactly(spec: Spec, insts: seq<Instance>, events: seq<Event>, g: int)
    requires RevisionOK(spec, insts, events)
    ensures HasGeneration(insts, g) <==> 1 <= g <= |insts|
  {
    GenerationsCount(spec, insts, events);
    hide RevisionOK, WellFormed;
    if 1 <= g <= |insts| {
      assert insts[g - 1].lineage.snapshot.generation == g;
    }
  }

  /** The insert of a revision's next generation is refused exactly when the revision is blocked. */
  lemma TakenExactlyWhenBlocked(
    current: map<string, int>, revisions: map<Key, Revision>, cursors: map<string, Cursor>, log: map<Key, seq<Event>>, k: Key)
    requires Consistent(current, revisions, cursors, log) && k in revisions
    ensures GenerationTaken(revisions, k, |revisions[k].insts| + 1) <==> Blocked(revisions, k)
  {
    hide RevisionOK, CursorCovers, CursorsOK, CurrentOK, HasGeneration, AllTerminal;
    forall l, g | l in revisions ensures HasGeneration(revisions[l].insts, g) <==> 1 <= g <= |revisions[l].insts| {
      assert KeyOK(l, revisions[l], log[l], current, cursors);
      HasGenerationExactly(revisions[l].spec, revisions[l].insts, log[l], g);
    }
    hide KeyOK, KeysOK;
    var n := |revisions[k].insts| + 1;
    if Blocked(revisions, k) {
      var l :| l in revisions && l != k && SameScope(k, revisions[k], l, revisions[l]) && revisions[l].insts != [];
      assert HasGeneration(revisions[l].insts, n);
    }
    if GenerationTaken(revisions, k, n) {
      var l :| l in revisions && SameScope(k, revisions[k], l, revisions[l]) && HasGeneration(revisions[l].insts, n);
      assert l != k && revisions[l].insts != [];
      assert revisions[k].insts == [];
    }
  }

  // ----- one instance -----

  /** The newest row, and the row the next evaluation acts on. */
  function CurrentInstance(spec: Spec, insts: seq<Instance>): Instance {
    if IsFresh(Lineages(insts)) then Instance(Current(spec, Lineages(insts)), [], []) else insts[|insts| - 1]
  }

  function StoreInstance(insts: seq<Instance>, inst: Instance): seq<Instance> {
    if IsFresh(Lineages(insts)) then insts + [inst] else insts[|insts| - 1 := inst]
  }

  /** Whether the instance is muted at the time of an event. */
  predicate MutedAt(s: Snapshot, eventMS: int) {
    s.mutedUntilMS.Some? && s.mutedUntilMS.value > eventMS
  }

  /** createAlertIncidentTx on the instance's own rows. */
  function Opened(inst: Instance, eventMS: int, dests: seq<Outbox.Destination>): Option<Instance> {
    var s := inst.lineage.snapshot;
    var outbox := Outbox.CreateIntents(inst.outbox, dests, s.transitionSeq, MutedAt(s, eventMS));
    if outbox.None? then None
    else Some(inst.(incidents := inst.incidents + [Incident(eventMS, None, true)], outbox := outbox.value))
  }

  /** An incident ends no earlier than one millisecond after it starts. */
  function IncidentEnd(startMS: int, eventMS: int): Option<int> {
    if startMS < 0 || eventMS < 0 || startMS == Int64.MAX then None
    else Some(if eventMS < startMS + 1 then startMS + 1 else eventMS)
  }

  /** The oldest open incident of the instance. */
  function OpenIncident(incidents: seq<Incident>): Option<nat> {
    if incidents == [] then None
    else if incidents[0].open then Some(0)
    else
      var rest := OpenIncident(incidents[1..]);
      if rest.None? then None else Some(rest.value + 1)
  }

  /** resolveAlertIncidentTx on the instance's own rows. */
  function Closed(inst: Instance, eventMS: int, dests: seq<Outbox.Destination>): Option<Instance> {
    var s := inst.lineage.snapshot;
    var i := OpenIncident(inst.incidents);
    if i.None? || i.value >= |inst.incidents| then None
    else
      var end := IncidentEnd(inst.incidents[i.value].startMS, eventMS);
      if end.None? || end.value > Int64.MAX - RETENTION_MS then None
      else
        var outbox := Outbox.ResolveRows(inst.outbox, dests, s.transitionSeq, MutedAt(s, eventMS));
        if outbox.None? then None
        else Some(inst.(incidents := inst.incidents[i.value := Incident(inst.incidents[i.value].startMS, end, false)],
                        outbox := outbox.value))
  }

  lemma NewIntentKeys(rows: seq<Outbox.Intent>, dests: seq<Outbox.Destination>, sequence: int, muted: bool)
    requires Outbox.CreateIntents(rows, dests, sequence, muted).Some?
    requires forall i :: 0 <= i < |rows| && rows[i].key.TransitionKey? ==> rows[i].key.sequence < sequence
    ensures
      var r := Outbox.CreateIntents(rows, dests, sequence, muted).value;
      forall i :: 0 <= i < |r| && r[i].key.TransitionKey? ==> r[i].key.sequence <= sequence
  {
    Outbox.NewIntentsSound(dests, sequence, if muted then Outbox.Muted else Outbox.Pending);
  }

  /** What an accepted evaluation does to the instance it acts on. */
  ghost predicate Evolves(spec: Spec, before: Instance, e: Evaluation, next: Instance, dests: seq<Outbox.Destination>) {
    var s := before.lineage.snapshot;
    var r := Reduce(spec, s, e);
    && r.Reduced?
    && var moved := before.(lineage := Extend(before.lineage, r));
       if r.snapshot.state == Firing && s.state in {OK, Pending} then Opened(moved, e.eventMS, dests) == Some(next)
       else if r.snapshot.state == Resolved then Closed(moved, e.eventMS, dests) == Some(next)
       else next == moved
  }

  lemma EvolvesKeepsInstance(spec: Spec, before: Instance, e: Evaluation, next: Instance, dests: seq<Outbox.Destination>)
    requires InstanceOK(spec, before) && Evolves(spec, before, e, next, dests)
    ensures InstanceOK(spec, next)
    ensures next.lineage == Extend(before.lineage, Reduce(spec, before.lineage.snapshot, e))
  {
    var s := before.lineage.snapshot;
    ReduceIsLegal(spec, s, e);
    RefusedExactlyWhen(spec, s, e);
    StepTable(spec, s, e);
    OpenedAtFits(spec, s, e);
    hide Reduce, ValidSnapshot;
    var r := Reduce(spec, s, e);
    var moved := before.(lineage := Extend(before.lineage, r));
    if r.snapshot.state == Firing && s.state in {OK, Pending} {
      NewIntentKeys(before.outbox, dests, r.snapshot.transitionSeq, MutedAt(r.snapshot, e.eventMS));
    } else if r.snapshot.state == Resolved {
      NewIntentKeys(Outbox.MoveAll(before.outbox, {Outbox.Pending, Outbox.Failed, Outbox.Muted}, Outbox.Superseded),
                    dests, r.snapshot.transitionSeq, MutedAt(r.snapshot, e.eventMS));
    }
  }

  /** The opening time is set by the opening event and never moved. */
  lemma OpenedAtFits(spec: Spec, s: Snapshot, e: Evaluation)
    requires Reduce(spec, s, e).Reduced?
    ensures
      var t := Reduce(spec, s, e).snapshot;
      && (s.openedMS.Some? ==> t.openedMS == s.openedMS)
      && (s.openedMS.None? && t.state == Firing && s.state in {OK, Pending} ==> t.openedMS == Some(e.eventMS))
      && (t.state in {OK, Pending} ==> t.openedMS == s.openedMS)
  {
    StepTimes(spec, s, e);
    hide Reduce;
  }

  lemma FreshInstanceOK(spec: Spec, insts: seq<Instance>, events: seq<Event>)
    requires RevisionOK(spec, insts, events)
    ensures InstanceOK(spec, CurrentInstance(spec, insts))
    ensures CurrentInstance(spec, insts).lineage == Current(spec, Fold(spec, events))
    ensures CurrentInstance(spec, insts).lineage.snapshot == Load(spec, Newest(Lineages(insts)))
    ensures IsFresh(Lineages(insts)) ==> CurrentInstance(spec, insts).lineage.snapshot.generation == |insts| + 1
    ensures !Terminal(CurrentInstance(spec, insts).lineage.snapshot.state)
  {
    hide Rules.ValidSpec, ValidSnapshot, OrdinalsIncrease, ValidEvent, Fold, Chained;
    GenerationsCount(spec, insts, events);
    CurrentIsWellFormed(spec, Lineages(insts));
    hide WellFormed;
    if !IsFresh(Lineages(insts)) {
      assert InstanceOK(spec, insts[|insts| - 1]);
    }
  }

  // ----- what each transaction keeps -----

  lemma StoringIsAStep(spec: Spec, insts: seq<Instance>, ordinal: int, e: Evaluation, next: Instance)
    requires
      var c := CurrentInstance(spec, insts).lineage;
      && c == Current(spec, Lineages(insts))
      && Reduce(spec, c.snapshot, e).Reduced? && next.lineage == Extend(c, Reduce(spec, c.snapshot, e))
    ensures Lineages(StoreInstance(insts, next)) == Step(spec, Lineages(insts), Evaluated(ordinal, e))
  {
    hide Reduce;
  }

  lemma AppendedIncrease(events: seq<Event>, ordinal: int, e: Evaluation)
    requires OrdinalsIncrease(events)
    requires forall i :: 0 <= i < |events| && events[i].Evaluated? ==> events[i].ordinal < ordinal
    ensures OrdinalsIncrease(events + [Evaluated(ordinal, e)])
  {
    var all := events + [Evaluated(ordinal, e)];
    forall i, j | 0 <= i < j < |all| && all[i].Evaluated? && all[j].Evaluated?
      ensures all[i].ordinal < all[j].ordinal
    {
      assert all[i] == events[i];
    }
  }

  lemma LastOfAppended(events: seq<Event>, ordinal: int, e: Evaluation)
    ensures LastOrdinal(events + [Evaluated(ordinal, e)]) == ordinal
    ensures (events + [Evaluated(ordinal, e)])[..|events|] == events
  {
    assert (events + [Evaluated(ordinal, e)])[|events|] == Evaluated(ordinal, e);
  }

  lemma AppendOrdinal(events: seq<Event>, ordinal: int, e: Evaluation)
    requires (forall i :: 0 <= i < |events| ==> ValidEvent(events[i])) && OrdinalsIncrease(events)
    requires ordinal > LastOrdinal(events)
    ensures OrdinalsIncrease(events + [Evaluated(ordinal, e)])
    ensures LastOrdinal(events + [Evaluated(ordinal, e)]) == ordinal
    ensures (events + [Evaluated(ordinal, e)])[..|events|] == events
  {
    LastOrdinalIsMaximal(events);
    LastOfAppended(events, ordinal, e);
    hide *;
    AppendedIncrease(events, ordinal, e);
  }

  lemma AcceptKeepsRevision(spec: Spec, insts: seq<Instance>, events: seq<Event>, ordinal: int, e: Evaluation,
                            next: Instance, dests: seq<Outbox.Destination>)
    requires RevisionOK(spec, insts, events) && ordinal > LastOrdinal(events) && ordinal >= 1
    requires Evolves(spec, CurrentInstance(spec, insts), e, next, dests)
    ensures RevisionOK(spec, StoreInstance(insts, next), events + [Evaluated(ordinal, e)])
    ensures LastOrdinal(events + [Evaluated(ordinal, e)]) == ordinal
  {
    hide Reduce, ValidSnapshot, InstanceOK, ValidEvaluation, Rules.ValidSpec, CurrentInstance, Step, OrdinalsIncrease, LastOrdinal, Opened, Closed;
    FreshInstanceOK(spec, insts, events);
    EvolvesKeepsInstance(spec, CurrentInstance(spec, insts), e, next, dests);
    RefusedExactlyWhen(spec, CurrentInstance(spec, insts).lineage.snapshot, e);
    StoringIsAStep(spec, insts, ordinal, e, next);
    AppendOrdinal(events, ordinal, e);
    hide Evolves;
    var all := events + [Evaluated(ordinal, e)];
    assert ValidEvent(all[|events|]);
  }

  lemma KeepsKeys(
    current: map<string, int>, revisions: map<Key, Revision>, cursors: map<string, Cursor>, log: map<Key, seq<Event>>,
    k: Key, r: Revision, cursors': map<string, Cursor>, events: seq<Event>)
    requires KeysOK(current, revisions, cursors, log)
    requires KeyOK(k, r, events, current, cursors')
    requires forall l :: l in revisions && l != k ==>
               CursorCovers(cursors, l, LastOrdinal(log[l])) ==> CursorCovers(cursors', l, LastOrdinal(log[l]))
    ensures KeysOK(current, revisions[k := r], cursors', log[k := events])
  {
    hide CursorCovers, RevisionOK, AllTerminal;
    var revisions' := revisions[k := r];
    var log' := log[k := events];
    forall l | l in revisions' ensures KeyOK(l, revisions'[l], log'[l], current, cursors') {
      if l != k {
        assert KeyOK(l, revisions[l], log[l], current, cursors);
      }
    }
  }

  lemma KeepsScopes(revisions: map<Key, Revision>, k: Key, insts: seq<Instance>)
    requires ScopesOK(revisions) && k in revisions && !Blocked(revisions, k)
    ensures ScopesOK(revisions[k := revisions[k].(insts := insts)])
  {
    var revisions' := revisions[k := revisions[k].(insts := insts)];
    forall l, m | l in revisions' && m in revisions' && l != m && SameScope(l, revisions'[l], m, revisions'[m])
      ensures revisions'[l].insts == [] || revisions'[m].insts == []
    {
      assert SameScope(l, revisions[l], m, revisions[m]) && SameScope(m, revisions[m], l, revisions[l]);
    }
  }

  lemma KeepsCursors(
    current: map<string, int>, revisions: map<Key, Revision>, cursors: map<string, Cursor>,
    k: Key, insts: seq<Instance>, cursors': map<string, Cursor>)
    requires CursorsOK(current, revisions, cursors) && k in revisions
    requires forall id :: id in cursors' ==>
      if id in cursors && cursors'[id] == cursors[id] && Key(id, cursors[id].version) != k then true
      else
        && Key(id, cursors'[id].version) == k && id in current && k.version <= current[id]
        && cursors'[id].scope == revisions[k].spec.scope && CursorPoints(cursors'[id], insts)
    ensures CursorsOK(current, revisions[k := revisions[k].(insts := insts)], cursors')
  {
    hide CursorPoints;
    forall id | id in cursors' ensures CursorOK(current, revisions[k := revisions[k].(insts := insts)], cursors', id) {
      if id in cursors {
        assert CursorOK(current, revisions, cursors, id);
      }
    }
  }

  lemma AcceptMovesCursor(current: map<string, int>, cursors: map<string, Cursor>, k: Key, c: Cursor, l: Key, r: Revision, events: seq<Event>)
    requires KeyOK(l, r, events, current, cursors) && l != k
    requires k.ruleID in current && k.version == current[k.ruleID] == c.version
    ensures CursorCovers(cursors[k.ruleID := c], l, LastOrdinal(events))
  {
    hide RevisionOK;
    assert l.ruleID == k.ruleID ==> l.version != k.version;
  }

  lemma RevisionFits(current: map<string, int>, cursors: map<string, Cursor>, cursors': map<string, Cursor>,
                     k: Key, r: Revision, events: seq<Event>, insts: seq<Instance>, events': seq<Event>)
    requires KeyOK(k, r, events, current, cursors)
    requires RevisionOK(r.spec, insts, events') && CursorCovers(cursors', k, LastOrdinal(events'))
    requires k.version < current[k.ruleID] ==> AllTerminal(insts)
    ensures KeyOK(k, r.(insts := insts), events', current, cursors')
  {
    hide RevisionOK, CursorCovers, AllTerminal;
  }

  /** Only the one revision changes: every other revision keeps what holds of it. */
  lemma AcceptKeepsConsistent(
    current: map<string, int>, revisions: map<Key, Revision>, cursors: map<string, Cursor>, log: map<Key, seq<Event>>,
    k: Key, insts: seq<Instance>, c: Cursor, events: seq<Event>)
    requires Consistent(current, revisions, cursors, log)
    requires k in revisions && k.ruleID in current && k.version == current[k.ruleID] == c.version
    requires RevisionOK(revisions[k].spec, insts, events) && LastOrdinal(events) == c.ordinal
    requires CursorPoints(c, insts) && c.scope == revisions[k].spec.scope && !Blocked(revisions, k)
    ensures Consistent(current, revisions[k := revisions[k].(insts := insts)], cursors[k.ruleID := c], log[k := events])
  {
    hide RevisionOK, CursorPoints, Blocked, KeyOK, ScopesOK, LastOrdinal;
    var cursors' := cursors[k.ruleID := c];
    assert CursorCovers(cursors', k, LastOrdinal(events));
    hide CursorCovers;
    RevisionFits(current, cursors, cursors', k, revisions[k], log[k], insts, events);
    forall l | l in revisions && l != k ensures CursorCovers(cursors', l, LastOrdinal(log[l])) {
      AcceptMovesCursor(current, cursors, k, c, l, revisions[l], log[l]);
    }
    KeepsKeys(current, revisions, cursors, log, k, revisions[k].(insts := insts), cursors', events);
    KeepsScopes(revisions, k, insts);
    KeepsCursors(current, revisions, cursors, k, insts, cursors');
  }

  /** A control touches one instance's operator columns and outbox. */
  lemma ControlKeepsConsistent(
    current: map<string, int>, revisions: map<Key, Revision>, cursors: map<string, Cursor>, log: map<Key, seq<Event>>,
    k: Key, insts: seq<Instance>, event: Event)
    requires Consistent(current, revisions, cursors, log) && k in revisions
    requires event.Acknowledged? || event.MuteChanged?
    requires RevisionOK(revisions[k].spec, insts, log[k] + [event])
    requires |insts| == |revisions[k].insts| && insts != []
    requires forall i :: 0 <= i < |insts| ==>
      && insts[i].lineage.transitions == revisions[k].insts[i].lineage.transitions
      && insts[i].lineage.snapshot.state == revisions[k].insts[i].lineage.snapshot.state
    ensures Consistent(current, revisions[k := revisions[k].(insts := insts)], cursors, log[k := log[k] + [event]])
  {
    var events := log[k] + [event];
    assert events[..|events| - 1] == log[k];
    assert LastOrdinal(events) == LastOrdinal(log[k]);
    hide RevisionOK, KeyOK, ScopesOK, LastOrdinal, CursorCovers;
    assert KeyOK(k, revisions[k], log[k], current, cursors);
    ControlFits(current, cursors, k, revisions[k], log[k], insts, events);
    KeepsKeys(current, revisions, cursors, log, k, revisions[k].(insts := insts), cursors, events);
    assert !Blocked(revisions, k);
    hide Blocked;
    KeepsScopes(revisions, k, insts);
    forall id | id in cursors && Key(id, cursors[id].version) == k
      ensures id in current && k.version <= current[id] && cursors[id].scope == revisions[k].spec.scope
      ensures CursorPoints(cursors[id], insts)
    {
      assert CursorOK(current, revisions, cursors, id);
    }
    hide CursorPoints;
    KeepsCursors(current, revisions, cursors, k, insts, cursors);
  }

  lemma ControlFits(current: map<string, int>, cursors: map<string, Cursor>,
                    k: Key, r: Revision, events: seq<Event>, insts: seq<Instance>, events': seq<Event>)
    requires KeyOK(k, r, events, current, cursors)
    requires RevisionOK(r.spec, insts, events') && LastOrdinal(events') == LastOrdinal(events)
    requires |insts| == |r.insts|
    requires forall i :: 0 <= i < |insts| ==> insts[i].lineage.snapshot.state == r.insts[i].lineage.snapshot.state
    ensures KeyOK(k, r.(insts := insts), events', current, cursors)
  {
    hide RevisionOK, CursorCovers, LastOrdinal;
    RevisionFits(current, cursors, cursors, k, r, events, insts, events');
  }

  lemma ControlKeepsRevision(spec: Spec, insts: seq<Instance>, events: seq<Event>, i: nat, event: Event,
                             s: Snapshot, outbox: seq<Outbox.Intent>)
    requires RevisionOK(spec, insts, events) && i < |insts| && ValidEvent(event)
    requires match event
             case Acknowledged(j, user, at) =>
               j == i && s == insts[i].lineage.snapshot.(ackBy := Some(user), ackMS := Some(at))
             case MuteChanged(j, until) => j == i && s == insts[i].lineage.snapshot.(mutedUntilMS := until)
             case _ => false
    requires forall j :: 0 <= j < |outbox| && outbox[j].key.TransitionKey? ==>
               outbox[j].key.sequence <= insts[i].lineage.snapshot.transitionSeq
    ensures RevisionOK(spec, insts[i := Instance(insts[i].lineage.(snapshot := s), insts[i].incidents, outbox)], events + [event])
  {
    hide Rules.ValidSpec;
    var all := events + [event];
    assert all[..|all| - 1] == events;
    var next := Instance(insts[i].lineage.(snapshot := s), insts[i].incidents, outbox);
    assert InstanceOK(spec, insts[i]);
    assert InstanceOK(spec, next);
    assert Lineages(insts[i := next]) == Step(spec, Lineages(insts), event);
  }

  lemma StepKeepsGeneration(spec: Spec, s: Snapshot, e: Evaluation)
    requires Reduce(spec, s, e).Reduced?
    ensures Reduce(spec, s, e).snapshot.generation == s.generation
  {
    ReduceIsLegal(spec, s, e);
  }

  lemma StepFacts(spec: Spec, s: Snapshot, e: Evaluation)
    requires Reduce(spec, s, e).Reduced?
    ensures
      var r := Reduce(spec, s, e);
      && InRange(s.dwellMS) && InRange(e.elapsedMS)
      && (r.transition.Some? <==> r.snapshot.state != s.state)
      && r.snapshot.transitionSeq == s.transitionSeq + (if r.transition.Some? then 1 else 0)
      && (r.transition.Some? ==> r.transition.value.next == r.snapshot.state)
      && (r.snapshot.state == Firing && s.state != Firing ==> s.state in {OK, Pending, Recovering})
      && s.state !in {Resolved, Superseded}
  {
    ReduceIsLegal(spec, s, e);
    RefusedExactlyWhen(spec, s, e);
    StepTable(spec, s, e);
  }

  // ----- facts of one key, for use without the definitions -----

  lemma FactsOfKey(
    current: map<string, int>, revisions: map<Key, Revision>, cursors: map<string, Cursor>, log: map<Key, seq<Event>>, k: Key)
    requires Consistent(current, revisions, cursors, log) && k in revisions
    ensures k in log && RevisionOK(revisions[k].spec, revisions[k].insts, log[k])
    ensures revisions[k].spec.ruleID == k.ruleID && revisions[k].spec.version == k.version
    ensures k.ruleID in current && k.version <= current[k.ruleID]
    ensures CursorCovers(cursors, k, LastOrdinal(log[k]))
    ensures k.version < current[k.ruleID] ==> AllTerminal(revisions[k].insts)
  {
    hide RevisionOK, CursorCovers, AllTerminal, LastOrdinal, CursorsOK, ScopesOK;
    assert KeyOK(k, revisions[k], log[k], current, cursors);
  }

  lemma BlockedIsFresh(revisions: map<Key, Revision>, k: Key)
    requires k in revisions
    ensures Blocked(revisions, k) ==> IsFresh(Lineages(revisions[k].insts))
  {
  }

  lemma NextIsLast(insts: seq<Instance>, next: Instance)
    ensures StoreInstance(insts, next) != []
    ensures StoreInstance(insts, next)[|StoreInstance(insts, next)| - 1] == next
    ensures |StoreInstance(insts, next)| == |insts| + (if IsFresh(Lineages(insts)) then 1 else 0)
  {
  }

  lemma ChainCounts(l: Lineage, r: Outcome)
    requires Chained(l) && r.Reduced? && r.snapshot.transitionSeq == l.snapshot.transitionSeq + (if r.transition.Some? then 1 else 0)
    ensures |Extend(l, r).transitions| == r.snapshot.transitionSeq
    ensures r.transition.Some? ==> r.snapshot.transitionSeq >= 1 && r.transition == Some(Extend(l, r).transitions[r.snapshot.transitionSeq - 1])
  {
  }

  /** The tables after an accepted evaluation are consistent and its result can be read back. */
  lemma CommitEvaluation(
    current: map<string, int>, revisions: map<Key, Revision>, cursors: map<string, Cursor>, log: map<Key, seq<Event>>,
    dests: seq<Outbox.Destination>, k: Key, e: Evaluation, next: Instance, cursor: Cursor)
    requires Consistent(current, revisions, cursors, log)
    requires k in revisions && k.ruleID in current && k.version == current[k.ruleID] == cursor.version
    requires cursor.scope == revisions[k].spec.scope
    requires Evolves(revisions[k].spec, CurrentInstance(revisions[k].spec, revisions[k].insts), e, next, dests)
    requires k in log && cursor.ordinal >= 1 && cursor.ordinal > LastOrdinal(log[k])
    requires !Blocked(revisions, k)
    requires
      var r := Reduce(revisions[k].spec, CurrentInstance(revisions[k].spec, revisions[k].insts).lineage.snapshot, e);
      && r.Reduced?
      && cursor.index == |StoreInstance(revisions[k].insts, next)| - 1
      && cursor.transitionSeq == r.snapshot.transitionSeq && cursor.transitionWritten == r.transition.Some?
    ensures Consistent(current, revisions[k := revisions[k].(insts := StoreInstance(revisions[k].insts, next))],
                       cursors[k.ruleID := cursor], log[k := log[k] + [Evaluated(cursor.ordinal, e)]])
    ensures
      var before := CurrentInstance(revisions[k].spec, revisions[k].insts);
      var r := Reduce(revisions[k].spec, before.lineage.snapshot, e);
      && next.lineage == Extend(before.lineage, r)
      && |next.lineage.transitions| == cursor.transitionSeq
      && (cursor.transitionWritten ==>
            cursor.transitionSeq >= 1 && r.transition == Some(next.lineage.transitions[cursor.transitionSeq - 1]))
  {
    hide *;
    var spec := revisions[k].spec;
    var insts := revisions[k].insts;
    var before := CurrentInstance(spec, insts);
    var r := Reduce(spec, before.lineage.snapshot, e);
    FactsOfKey(current, revisions, cursors, log, k);
    FreshInstanceOK(spec, insts, log[k]);
    CurrentIsChained(spec, insts, log[k]);
    EvolvesKeepsInstance(spec, before, e, next, dests);
    AcceptKeepsRevision(spec, insts, log[k], cursor.ordinal, e, next, dests);
    StepFacts(spec, before.lineage.snapshot, e);
    ChainCounts(before.lineage, r);
    NextIsLast(insts, next);
    CursorPointsThere(cursor, StoreInstance(insts, next));
    AcceptKeepsConsistent(current, revisions, cursors, log, k, StoreInstance(insts, next), cursor,
                          log[k] + [Evaluated(cursor.ordinal, e)]);
  }

  lemma CurrentIsChained(spec: Spec, insts: seq<Instance>, events: seq<Event>)
    requires RevisionOK(spec, insts, events)
    ensures InstanceOK(spec, CurrentInstance(spec, insts)) && Chained(CurrentInstance(spec, insts).lineage)
  {
    FreshInstanceOK(spec, insts, events);
    GenerationsCount(spec, insts, events);
    CurrentIsWellFormed(spec, Lineages(insts));
  }

  lemma CursorPointsThere(c: Cursor, insts: seq<Instance>)
    requires c.ordinal >= 1 && c.index < |insts|
    requires 0 <= c.transitionSeq == |insts[c.index].lineage.transitions|
    requires c.transitionWritten ==> c.transitionSeq >= 1
    ensures CursorPoints(c, insts)
  {
  }

  /** The incident and notification rows of one step. Opening adds an open incident at the time of the event;
      resolving ends it at that time, or a millisecond after its start if the clock went back; either adds one
      intent of the new sequence for every enabled destination, muted exactly while a mute runs past the event,
      and resolving first ends the earlier intents that are pending, failed or muted. Nothing else changes. */
  lemma RowsOfStep(spec: Spec, before: Instance, e: Evaluation, next: Instance, dests: seq<Outbox.Destination>)
    requires InstanceOK(spec, before) && Evolves(spec, before, e, next, dests)
    ensures
      var s, t := before.lineage.snapshot, next.lineage.snapshot;
      var opens := t.state == Firing && s.state in {OK, Pending};
      var resolves := t.state == Resolved;
      && next.incidents ==
           (if opens then [Incident(e.eventMS, None, true)]
            else if resolves then
              [Incident(before.incidents[0].startMS,
                        Some(if e.eventMS <= before.incidents[0].startMS then before.incidents[0].startMS + 1 else e.eventMS), false)]
            else before.incidents)
      && |next.outbox| == |before.outbox| + (if opens || resolves then Outbox.EnabledCount(dests) else 0)
      && (forall i :: 0 <= i < |before.outbox| ==>
            next.outbox[i] == if resolves && before.outbox[i].state in {Outbox.Pending, Outbox.Failed, Outbox.Muted}
                              then before.outbox[i].(state := Outbox.Superseded) else before.outbox[i])
      && (forall i :: |before.outbox| <= i < |next.outbox| ==>
            && Outbox.IsCurrent(dests, next.outbox[i].destination, next.outbox[i].revision)
            && next.outbox[i].sequence == t.transitionSeq
            && next.outbox[i].state ==
                 if s.mutedUntilMS.Some? && s.mutedUntilMS.value > e.eventMS then Outbox.Muted else Outbox.Pending)
  {
    var s := before.lineage.snapshot;
    var r := Reduce(spec, s, e);
    ReduceIsLegal(spec, s, e);
    StepTable(spec, s, e);
    StepFacts(spec, s, e);
    hide Reduce, ValidSnapshot, Rules.ValidSpec;
    var state := if MutedAt(s, e.eventMS) then Outbox.Muted else Outbox.Pending;
    Outbox.NewIntentsSound(dests, r.snapshot.transitionSeq, state);
  }

  // ----- deliveries -----

  lemma DispatchKeepsRevision(spec: Spec, insts: seq<Instance>, events: seq<Event>, i: nat, outbox: seq<Outbox.Intent>)
    requires RevisionOK(spec, insts, events) && i < |insts|
    requires |outbox| == |insts[i].outbox| && Outbox.Extends(insts[i].outbox, outbox)
    ensures RevisionOK(spec, insts[i := insts[i].(outbox := outbox)], events)
  {
    var next := insts[i].(outbox := outbox);
    assert InstanceOK(spec, insts[i]);
    forall j | 0 <= j < |outbox| && outbox[j].key.TransitionKey?
      ensures outbox[j].key.sequence <= next.lineage.snapshot.transitionSeq
    {
      assert outbox[j].key == insts[i].outbox[j].key;
    }
    assert InstanceOK(spec, next);
    hide InstanceOK, Rules.ValidSpec, OrdinalsIncrease;
    assert Lineages(insts[i := next]) == Lineages(insts);
  }

  lemma DispatchKeepsConsistent(
    current: map<string, int>, revisions: map<Key, Revision>, cursors: map<string, Cursor>, log: map<Key, seq<Event>>,
    k: Key, i: nat, outbox: seq<Outbox.Intent>)
    requires Consistent(current, revisions, cursors, log) && k in revisions && i < |revisions[k].insts|
    requires |outbox| == |revisions[k].insts[i].outbox| && Outbox.Extends(revisions[k].insts[i].outbox, outbox)
    ensures
      var insts := revisions[k].insts[i := revisions[k].insts[i].(outbox := outbox)];
      Consistent(current, revisions[k := revisions[k].(insts := insts)], cursors, log)
  {
    hide RevisionOK, KeyOK, ScopesOK, LastOrdinal, CursorCovers, CursorPoints, Blocked, Outbox.Extends;
    var insts := revisions[k].insts[i := revisions[k].insts[i].(outbox := outbox)];
    FactsOfKey(current, revisions, cursors, log, k);
    DispatchKeepsRevision(revisions[k].spec, revisions[k].insts, log[k], i, outbox);
    assert KeyOK(k, revisions[k], log[k], current, cursors);
    ControlFits(current, cursors, k, revisions[k], log[k], insts, log[k]);
    KeepsKeys(current, revisions, cursors, log, k, revisions[k].(insts := insts), cursors, log[k]);
    assert log[k := log[k]] == log;
    BlockedIsEmpty(revisions, k);
    KeepsScopes(revisions, k, insts);
    forall id | id in cursors && Key(id, cursors[id].version) == k
      ensures id in current && k.version <= current[id] && cursors[id].scope == revisions[k].spec.scope
      ensures CursorPoints(cursors[id], insts)
    {
      assert CursorOK(current, revisions, cursors, id);
      SamePoints(cursors[id], revisions[k].insts, insts);
    }
    KeepsCursors(current, revisions, cursors, k, insts, cursors);
  }

  lemma BlockedIsEmpty(revisions: map<Key, Revision>, k: Key)
    requires k in revisions
    ensures Blocked(revisions, k) ==> revisions[k].insts == []
  {
  }

  /** Results stay readable as transitions are added. */
  lemma SamePoints(c: Cursor, insts: seq<Instance>, out: seq<Instance>)
    requires CursorPoints(c, insts) && |out| == |insts|
    requires forall i :: 0 <= i < |out| ==> |insts[i].lineage.transitions| <= |out[i].lineage.transitions|
    ensures CursorPoints(c, out)
  {
  }
}
