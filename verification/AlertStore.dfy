/** The durable alert boundary: evaluations, operator controls and rule changes, each one transaction. */
module AlertStore {
  import opened Wrappers
  import opened AlertTypes
  import opened AlertReducer
  import opened AlertInstances
  import opened AlertTables
  import opened AlertControls
  import opened AlertRules
  import Rules = AlertEvaluators
  import Writes = AlertWrites
  import Outbox = AlertOutbox
  import Capacity = AlertCapacity
  import Int64

  /** What the transaction reads outside the alert tables, and the opaque parts of its checks. */
  datatype Environment = Environment(
    currentLive: bool, generationCurrent: bool, fenceHolds: bool, capsuleValid: bool,
    incidentSlotFree: bool, nowMS: Capacity.int64)

  predicate ClockOK(now: Capacity.int64) {
    0 <= now <= Capacity.MAX - 86_400_000
  }

  predicate ValidWrite(w: Writes.Write, env: Environment) {
    && env.currentLive && IsUUID(w.ruleID) && w.version >= 1 && w.ordinal >= 1 && w.observedThroughMS >= 0
    && IsHash(w.hash) && InRange(w.eventMS) && InRange(w.elapsedMS) && InRange(w.observedDwellMS)
  }

  /** validateAlertWrite. */
  method CheckWrite(w: Writes.Write, env: Environment) returns (ok: bool)
    ensures ok <==> ValidWrite(w, env)
  {
    hide IsUUID, IsHash;
    if !env.currentLive || !IsUUID(w.ruleID) || w.version < 1 || w.ordinal < 1 || w.observedThroughMS < 0 || !IsHash(w.hash) {
      return false;
    }
    return !(w.eventMS < 0 || w.eventMS > Int64.MAX || w.elapsedMS < 0 || w.elapsedMS > Int64.MAX
             || w.observedDwellMS < 0 || w.observedDwellMS > Int64.MAX);
  }

  function EnvelopeOf(before: State, transition: Option<Transition>): Capacity.Envelope {
    match transition
    case None => Capacity.Cursor
    case Some(t) =>
      if t.next == Firing && before != Recovering then Capacity.Firing
      else if t.next == Resolved then Capacity.Resolution
      else Capacity.TransitionOnly
  }

  /** A committed evaluation still in the transaction. */
  datatype Progress =
    | Stopped(failure: Failure)
    | Moved(next: Instance, isNew: bool, outcome: Outcome, ledger: Capacity.Ledger)

  /** The row loaded, reduced and admitted, before anything is written. */
  datatype Proposal =
    | Declined(failure: Failure)
    | Proposed(before: Instance, isNew: bool, outcome: Outcome, ledger: Capacity.Ledger)

  /** What the fences say about a write: refused, already taken, or decided and in order. */
  datatype Verdict = Refuse(failure: Failure) | Replay(applied: Applied) | Go(decision: Decision)

  /** An exact retry of the last accepted input of a rule, by ordinal, digest and time. */
  predicate IsRetry(cursors: map<string, Cursor>, w: Writes.Write, scope: string) {
    && w.ruleID in cursors
    && var c := cursors[w.ruleID];
       c.version == w.version && c.scope == scope && c.ordinal == w.ordinal
       && c.hash == w.hash && c.observedThroughMS == w.observedThroughMS
  }

  /** The write is for the enabled current revision of its rule, and its input can be decided. */
  predicate Addressed(current: map<string, int>, revisions: map<Key, Revision>, w: Writes.Write, env: Environment) {
    && ValidWrite(w, env) && env.generationCurrent
    && w.ruleID in current && current[w.ruleID] == w.version
    && Key(w.ruleID, w.version) in revisions && revisions[Key(w.ruleID, w.version)].enabled
    && Rules.Evaluate(revisions[Key(w.ruleID, w.version)].spec, w.input).Decided?
  }

  /** The write's ordinal is past everything its rule has accepted. */
  predicate InOrder(cursors: map<string, Cursor>, w: Writes.Write) {
    w.ruleID in cursors ==>
      var c := cursors[w.ruleID];
      c.version < w.version || (c.version == w.version && c.ordinal < w.ordinal)
  }

  /** What opening FIRING asks of the write beside the reducer's decision. */
  predicate MayOpen(spec: Spec, before: Instance, moved: Instance, w: Writes.Write, d: Decision, env: Environment,
                    dests: seq<Outbox.Destination>)
    requires InRange(before.lineage.snapshot.dwellMS) && InRange(w.elapsedMS)
  {
    && w.evidence.Some? && env.capsuleValid && Writes.CapsuleMatches(spec.ruleType, w.input, w.evidence.value)
    && d.predicate_ == Match && d.evaluable
    && Writes.DwellAccepted(spec, w, before.lineage.snapshot, d)
    && env.incidentSlotFree && Opened(moved, w.eventMS, dests).Some?
  }

  /** The incident and outbox part of an accepted step can be written. */
  predicate RowFits(spec: Spec, before: Instance, r: Outcome, w: Writes.Write, d: Decision, env: Environment,
                    dests: seq<Outbox.Destination>)
    requires r.Reduced? && InRange(before.lineage.snapshot.dwellMS) && InRange(w.elapsedMS)
  {
    match EnvelopeOf(before.lineage.snapshot.state, r.transition)
    case Firing => MayOpen(spec, before, before.(lineage := Extend(before.lineage, r)), w, d, env, dests)
    case Resolution => Closed(before.(lineage := Extend(before.lineage, r)), w.eventMS, dests).Some?
    case _ => true
  }

  /** The reducer takes the write and capacity admits what it makes of it. */
  ghost predicate Admissible(revisions: map<Key, Revision>, ledger: Capacity.Ledger, w: Writes.Write, d: Decision, env: Environment)
  {
    var k := Key(w.ruleID, w.version);
    && k in revisions && InRange(w.elapsedMS) && Capacity.Stored(ledger)
    && var before := CurrentInstance(revisions[k].spec, revisions[k].insts);
       var r := Reduce(revisions[k].spec, before.lineage.snapshot, Writes.EvaluationOf(w, d));
       && r.Reduced? && InRange(before.lineage.snapshot.dwellMS)
       && Capacity.Admitted(ledger, EnvelopeOf(before.lineage.snapshot.state, r.transition), env.nowMS).Some?
  }

  /** Exactly when a write that passed the fences is committed. */
  ghost predicate Commits(
    revisions: map<Key, Revision>, cursors: map<string, Cursor>, ledger: Capacity.Ledger, dests: seq<Outbox.Destination>,
    w: Writes.Write, d: Decision, env: Environment)
  {
    var k := Key(w.ruleID, w.version);
    && Admissible(revisions, ledger, w, d, env) && !Blocked(revisions, k)
    && (var before := CurrentInstance(revisions[k].spec, revisions[k].insts);
        var r := Reduce(revisions[k].spec, before.lineage.snapshot, Writes.EvaluationOf(w, d));
        RowFits(revisions[k].spec, before, r, w, d, env, dests))
    && |cursors.Keys + {w.ruleID}| <= 64
  }

  /** Reading back a retried result: what the cursor points at. */
  predicate IsStoredResult(r: Applied, c: Cursor, insts: seq<Instance>) {
    && r.Accepted? && r.duplicate && r.index == c.index < |insts|
    && r.snapshot == insts[c.index].lineage.snapshot
    && (r.transition.Some? <==> c.transitionWritten)
    && (c.transitionWritten ==>
          && 1 <= c.transitionSeq <= |insts[c.index].lineage.transitions|
          && r.transition == Some(insts[c.index].lineage.transitions[c.transitionSeq - 1]))
  }

  lemma RetryIsNotNext(cursors: map<string, Cursor>, w: Writes.Write, scope: string)
    ensures !(IsRetry(cursors, w, scope) && InOrder(cursors, w))
  {
  }

  lemma CurrentExists(
    current: map<string, int>, revisions: map<Key, Revision>, cursors: map<string, Cursor>, log: map<Key, seq<Event>>, id: string)
    requires Consistent(current, revisions, cursors, log) && id in current
    ensures Key(id, current[id]) in revisions
    ensures id in cursors && cursors[id].version == current[id] ==>
      CursorPoints(cursors[id], revisions[Key(id, current[id])].insts)
  {
    hide KeyOK, ScopesOK, CursorPoints;
    if id in cursors {
      assert CursorOK(current, revisions, cursors, id);
    }
  }

  datatype Order = Next | Again(applied: Applied) | Conflict

  /** The input cursor decides between the next input, an exact retry and a conflict. */
  method CheckCursor(cursors: map<string, Cursor>, w: Writes.Write, scope: string, insts: seq<Instance>) returns (o: Order)
    requires w.ruleID in cursors && cursors[w.ruleID].version == w.version ==> CursorPoints(cursors[w.ruleID], insts)
    ensures o.Again? <==> IsRetry(cursors, w, scope)
    ensures o.Again? ==> IsStoredResult(o.applied, cursors[w.ruleID], insts)
    ensures o.Next? <==> InOrder(cursors, w)
  {
    if w.ruleID in cursors {
      var prior := cursors[w.ruleID];
      if prior.version == w.version && prior.scope == scope && prior.ordinal == w.ordinal {
        if prior.hash != w.hash || prior.observedThroughMS != w.observedThroughMS {
          return Conflict;
        }
        var stored := insts[prior.index].lineage;
        return Again(Accepted(prior.index, stored.snapshot,
                              if prior.transitionWritten then Some(stored.transitions[prior.transitionSeq - 1]) else None,
                              true));
      }
      if prior.version > w.version || (prior.version == w.version && prior.ordinal >= w.ordinal) {
        return Conflict;
      }
    }
    return Next;
  }

  /** The row with the highest generation. */
  method NewestOf(insts: seq<Instance>) returns (newest: Option<nat>)
    requires forall i :: 0 <= i < |insts| ==> insts[i].lineage.snapshot.generation == i + 1
    ensures newest == if insts == [] then None else Some(|insts| - 1)
  {
    newest := None;
    for i := 0 to |insts|
      invariant newest == if i == 0 then None else Some(i - 1)
    {
      if newest.None? || insts[i].lineage.snapshot.generation > insts[newest.value].lineage.snapshot.generation {
        newest := Some(i);
      }
    }
  }

  /** loadAlertSnapshotTx. */
  method LoadSnapshot(spec: Spec, insts: seq<Instance>, ghost events: seq<Event>) returns (before: Instance, isNew: bool)
    requires RevisionOK(spec, insts, events)
    ensures before == CurrentInstance(spec, insts) && isNew == IsFresh(Lineages(insts))
    ensures before.lineage.snapshot == Load(spec, Newest(Lineages(insts)))
  {
    hide *;
    GenerationsCount(spec, insts, events);
    FreshInstanceOK(spec, insts, events);
    var newest := NewestOf(insts);
    LoadCases(spec, insts);
    isNew := newest.None? || Terminal(insts[newest.value].lineage.snapshot.state);
    if newest.None? {
      before := Instance(Lineage(NewSnapshot(spec, 1), []), [], []);
    } else if isNew {
      before := Instance(Lineage(NewSnapshot(spec, insts[newest.value].lineage.snapshot.generation + 1), []), [], []);
    } else {
      before := insts[newest.value];
    }
  }

  lemma LoadCases(spec: Spec, insts: seq<Instance>)
    ensures IsFresh(Lineages(insts)) <==> insts == [] || Terminal(insts[|insts| - 1].lineage.snapshot.state)
    ensures CurrentInstance(spec, insts) ==
      if insts == [] then Instance(Lineage(NewSnapshot(spec, 1), []), [], [])
      else if Terminal(insts[|insts| - 1].lineage.snapshot.state)
      then Instance(Lineage(NewSnapshot(spec, insts[|insts| - 1].lineage.snapshot.generation + 1), []), [], [])
      else insts[|insts| - 1]
  {
  }

  /** validObservedDwell. */
  method ValidateObservedDwell(spec: Spec, w: Writes.Write, previous: Snapshot, d: Decision) returns (ok: bool)
    requires InRange(previous.dwellMS) && InRange(w.elapsedMS)
    ensures ok <==> Writes.ValidObservedDwell(spec, w, previous, d)
  {
    if spec.ruleType == HostNotReporting {
      return w.input.heartbeatAgeMS.Some? && w.observedDwellMS == w.input.heartbeatAgeMS.value;
    }
    if d.immediate {
      return w.observedDwellMS == 0;
    }
    var expected := previous.dwellMS;
    if !w.hubRestarted {
      if w.elapsedMS > Int64.MAX - expected {
        expected := Int64.MAX;
      } else {
        expected := expected + w.elapsedMS;
      }
    }
    return w.observedDwellMS == expected && expected >= spec.triggerDwellMS;
  }

  /** createAlertIncidentTx and resolveAlertIncidentTx. */
  method WriteRows(spec: Spec, before: Instance, r: Outcome, w: Writes.Write, d: Decision, env: Environment,
                   dests: seq<Outbox.Destination>)
    returns (next: Option<Instance>, failure: Failure)
    requires r.Reduced? && r == Reduce(spec, before.lineage.snapshot, Writes.EvaluationOf(w, d))
    requires InRange(before.lineage.snapshot.dwellMS) && InRange(w.elapsedMS)
    ensures next.Some? <==> RowFits(spec, before, r, w, d, env, dests)
    ensures next.Some? ==> Evolves(spec, before, Writes.EvaluationOf(w, d), next.value, dests)
    ensures failure != Constraint
  {
    StepFacts(spec, before.lineage.snapshot, Writes.EvaluationOf(w, d));
    hide Reduce, Opened, Closed, Writes.CapsuleMatches, Writes.ValidObservedDwell;
    var moved := before.(lineage := Extend(before.lineage, r));
    match EnvelopeOf(before.lineage.snapshot.state, r.transition) {
      case Firing =>
        if w.evidence.None? || !env.capsuleValid || !Writes.CapsuleMatches(spec.ruleType, w.input, w.evidence.value) {
          return None, Invalid;
        }
        if d.predicate_ != Match || !d.evaluable {
          return None, Invalid;
        }
        if !d.immediate && w.observedDwellMS < spec.triggerDwellMS {
          return None, Invalid;
        }
        var served := ValidateObservedDwell(spec, w, before.lineage.snapshot, d);
        if !served {
          return None, Invalid;
        }
        if !env.incidentSlotFree {
          return None, IncidentLimit;
        }
        return Opened(moved, w.eventMS, dests), DestinationLimit;
      case Resolution =>
        return Closed(moved, w.eventMS, dests), CursorConflict;
      case _ =>
        return Some(moved), Invalid;
    }
  }

  /** The reducer's preconditions hold of every stored row, so its refusals are about the input. */
  lemma StoredRowIsInRange(spec: Spec, insts: seq<Instance>, events: seq<Event>)
    requires RevisionOK(spec, insts, events)
    ensures InRange(CurrentInstance(spec, insts).lineage.snapshot.dwellMS)
  {
    FreshInstanceOK(spec, insts, events);
  }

  lemma NothingChanges(revisions: map<Key, Revision>)
    ensures StillBlocked(revisions, revisions)
  {
  }

  lemma BlockedThrough(a: map<Key, Revision>, b: map<Key, Revision>, c: map<Key, Revision>)
    requires StillBlocked(a, b) && StillBlocked(b, c)
    ensures StillBlocked(a, c)
  {
    hide BlockedIn;
  }

  lemma NextInOrder(
    current: map<string, int>, revisions: map<Key, Revision>, cursors: map<string, Cursor>, log: map<Key, seq<Event>>,
    w: Writes.Write, env: Environment)
    requires Consistent(current, revisions, cursors, log) && Addressed(current, revisions, w, env) && InOrder(cursors, w)
    ensures Key(w.ruleID, w.version) in log && w.ordinal > LastOrdinal(log[Key(w.ruleID, w.version)]) && w.ordinal >= 1
  {
    FactsOfKey(current, revisions, cursors, log, Key(w.ruleID, w.version));
    hide Consistent, RevisionOK, LastOrdinal, Rules.Evaluate;
  }

  lemma NotBlockedWhenCommitted(
    revisions: map<Key, Revision>, cursors: map<string, Cursor>, ledger: Capacity.Ledger, dests: seq<Outbox.Destination>,
    w: Writes.Write, d: Decision, env: Environment)
    requires Commits(revisions, cursors, ledger, dests, w, d, env)
    ensures !Blocked(revisions, Key(w.ruleID, w.version))
    ensures
      var r := revisions[Key(w.ruleID, w.version)];
      Reduce(r.spec, CurrentInstance(r.spec, r.insts).lineage.snapshot, Writes.EvaluationOf(w, d)).Reduced?
  {
    hide Blocked, Reduce, RowFits, Capacity.Admitted, Capacity.Stored;
  }

  lemma StoreCases(insts: seq<Instance>, next: Instance)
    ensures StoreInstance(insts, next) == if IsFresh(Lineages(insts)) then insts + [next] else insts[|insts| - 1 := next]
    ensures !IsFresh(Lineages(insts)) ==> |insts| > 0
    ensures StoreInstance(insts, next) != [] && StoreInstance(insts, next)[|StoreInstance(insts, next)| - 1] == next
  {
  }

  lemma AdmittedIsStored(l: Capacity.Ledger, e: Capacity.Envelope, now: Capacity.int64)
    requires Capacity.Stored(l) && Capacity.Admitted(l, e, now).Some?
    ensures Capacity.Stored(Capacity.Admitted(l, e, now).value)
  {
  }

  lemma EvolvedSnapshot(spec: Spec, before: Instance, e: Evaluation, next: Instance, dests: seq<Outbox.Destination>)
    requires Evolves(spec, before, e, next, dests)
    ensures next.lineage.snapshot == Reduce(spec, before.lineage.snapshot, e).snapshot
  {
    hide Reduce, Outbox.CreateIntents, Outbox.ResolveRows;
  }

  /** The tables a transaction on an evaluation reads and writes, with the log of accepted events. */
  datatype Tables = Tables(
    revisions: map<Key, Revision>, cursors: map<string, Cursor>, ledger: Capacity.Ledger, log: map<Key, seq<Event>>)

  /** An accepted input is one more event of the fold with a larger ordinal; only the instance acted
      on changes, in all its tables as the transition demands; the cursor and the ledger move once. */
  ghost predicate Committed(pre: Tables, post: Tables, w: Writes.Write, env: Environment, dests: seq<Outbox.Destination>, r: Applied)
    requires r.Accepted?
  {
    var k := Key(w.ruleID, w.version);
    && k in pre.revisions && k in pre.log && Capacity.Stored(pre.ledger)
    && var spec := pre.revisions[k].spec;
       var insts := pre.revisions[k].insts;
       var before := CurrentInstance(spec, insts);
       && Rules.Evaluate(spec, w.input).Decided?
       && var e := Writes.EvaluationOf(w, Rules.Evaluate(spec, w.input).decision);
          && w.ordinal > LastOrdinal(pre.log[k])
          && post.log == pre.log[k := pre.log[k] + [Evaluated(w.ordinal, e)]]
          && k in post.revisions && r.index < |post.revisions[k].insts|
          && var next := post.revisions[k].insts[r.index];
             && Evolves(spec, before, e, next, dests)
             && r.transition == Reduce(spec, before.lineage.snapshot, e).transition
             && post.revisions == pre.revisions[k := pre.revisions[k].(insts := StoreInstance(insts, next))]
             && r.index == |post.revisions[k].insts| - 1 && r.snapshot == next.lineage.snapshot
             && post.cursors == pre.cursors[w.ruleID :=
                  Cursor(w.version, spec.scope, w.ordinal, w.observedThroughMS, w.hash, r.index,
                         r.snapshot.transitionSeq, r.transition.Some?)]
             && Some(post.ledger) == Capacity.Admitted(pre.ledger, EnvelopeOf(before.lineage.snapshot.state, r.transition), env.nowMS)
  }

  /** The rows of one revision with one row of one instance replaced. */
  function WithInstance(revisions: map<Key, Revision>, k: Key, i: nat, inst: Instance): map<Key, Revision>
    requires k in revisions && i < |revisions[k].insts|
  {
    revisions[k := revisions[k].(insts := revisions[k].insts[i := inst])]
  }

  lemma ChangesAreColumns(c: Control, i: nat, before: Instance, next: Instance, request: Request, nowMS: Capacity.int64,
                          dests: seq<Outbox.Destination>)
    requires Changes(c, before, next, request.user, request.idempotencyKey, nowMS as int, dests) && ClockOK(nowMS)
    ensures next.lineage.transitions == before.lineage.transitions
    ensures next.lineage.snapshot.state == before.lineage.snapshot.state
    ensures InRange(nowMS as int) && InRange(nowMS as int + MUTE_MAXIMUM_MS)
    ensures EventOf(c, i, request.user, nowMS as int).Acknowledged? || EventOf(c, i, request.user, nowMS as int).MuteChanged?
  {
  }

  /** A control is one more event of the fold, charges the resolution envelope and changes one instance. */
  ghost predicate ControlCommitted(
    pre: Tables, post: Tables, c: Control, k: Key, i: nat, request: Request, nowMS: Capacity.int64,
    dests: seq<Outbox.Destination>, result: ControlResult)
  {
    && IsIncident(pre.revisions, k, i) && IsIncident(post.revisions, k, i)
    && var next := post.revisions[k].insts[i];
       && Changes(c, pre.revisions[k].insts[i], next, request.user, request.idempotencyKey, nowMS as int, dests)
       && post.revisions == WithInstance(pre.revisions, k, i, next)
       && k in pre.log && post.log == pre.log[k := pre.log[k] + [EventOf(c, i, request.user, nowMS as int)]]
       && post.cursors == pre.cursors
       && Capacity.Stored(pre.ledger) && Some(post.ledger) == Capacity.Admitted(pre.ledger, Capacity.Resolution, nowMS)
       && result.snapshot == next.lineage.snapshot
       && (result.inFlight <==> exists j :: 0 <= j < |next.outbox| && next.outbox[j].state == Outbox.Leased)
  }

  predicate IsIncident(revisions: map<Key, Revision>, k: Key, i: nat) {
    k in revisions && i < |revisions[k].insts| && revisions[k].insts[i].incidents != []
  }

  datatype RuleResult = Revised(version: int) | RuleRefused(failure: Failure)

  lemma RowsOK(
    current: map<string, int>, revisions: map<Key, Revision>, cursors: map<string, Cursor>, log: map<Key, seq<Event>>, k: Key)
    requires Consistent(current, revisions, cursors, log) && k in revisions
    ensures Rules.ValidSpec(revisions[k].spec)
    ensures forall i :: 0 <= i < |revisions[k].insts| ==> InstanceOK(revisions[k].spec, revisions[k].insts[i])
  {
    FactsOfKey(current, revisions, cursors, log, k);
    hide Consistent, Rules.ValidSpec, InstanceOK;
  }

  /** The revision is what the administrator asked for. */
  predicate IsDefined(r: Revision, d: Definition, enabled: bool) {
    && r.enabled == enabled && r.spec.ruleType == d.ruleType && r.spec.scope == d.scope && r.spec.request == d.request
    && r.insts == []
  }

  class Store {
    var current: map<string, int>
    var revisions: map<Key, Revision>
    var cursors: map<string, Cursor>
    var ledger: Capacity.Ledger
    var destinations: seq<Outbox.Destination>
    var receipts: map<(string, string), Receipt>
    ghost var log: map<Key, seq<Event>>

    ghost predicate Valid()
      reads this
    {
      && Consistent(current, revisions, cursors, log)
      && Capacity.Stored(ledger)
      && Outbox.UniqueIDs(destinations)
    }

    lemma Parts()
      requires Valid()
      ensures Consistent(current, revisions, cursors, log) && Capacity.Stored(ledger) && Outbox.UniqueIDs(destinations)
    {
      hide Consistent, Capacity.Stored, Outbox.UniqueIDs;
    }

    lemma Whole()
      requires Consistent(current, revisions, cursors, log) && Capacity.Stored(ledger) && Outbox.UniqueIDs(destinations)
      ensures Valid()
    {
      hide Consistent, Capacity.Stored, Outbox.UniqueIDs;
    }

    constructor (ledger: Capacity.Ledger)
      requires Capacity.Stored(ledger)
      ensures Valid() && current == map[] && revisions == map[] && cursors == map[] && log == map[]
      ensures this.ledger == ledger && destinations == [] && receipts == map[]
    {
      this.current, this.revisions, this.cursors, this.log := map[], map[], map[], map[];
      this.ledger, this.destinations, this.receipts := ledger, [], map[];
    }

    /** The fences, the rule revision and the input cursor, in the order they are checked. */
    method Gate(w: Writes.Write, env: Environment) returns (g: Verdict)
      requires Valid()
      ensures g.Go? <==>
        Addressed(current, revisions, w, env) && InOrder(cursors, w) && env.fenceHolds
      ensures g.Go? ==> g.decision == Rules.Evaluate(revisions[Key(w.ruleID, w.version)].spec, w.input).decision
      ensures g.Replay? <==>
        Addressed(current, revisions, w, env) && IsRetry(cursors, w, revisions[Key(w.ruleID, w.version)].spec.scope)
      ensures g.Replay? ==> IsStoredResult(g.applied, cursors[w.ruleID], revisions[Key(w.ruleID, w.version)].insts)
      ensures g.Refuse? ==> g.failure != Constraint
    {
      Parts();
      hide Valid, ValidWrite, Rules.Evaluate, Consistent, IsRetry, InOrder, IsStoredResult, Capacity.Stored, Outbox.UniqueIDs;
      var valid := CheckWrite(w, env);
      if !valid {
        return Refuse(Invalid);
      }
      if !env.generationCurrent {
        return Refuse(Fenced);
      }
      if w.ruleID !in current {
        return Refuse(RuleMissing);
      }
      var k := Key(w.ruleID, current[w.ruleID]);
      CurrentExists(current, revisions, cursors, log, w.ruleID);
      var revision := revisions[k];
      if !revision.enabled {
        return Refuse(RuleDisabled);
      }
      if w.version != current[w.ruleID] {
        return Refuse(RuleRevision);
      }
      var decided := Rules.Evaluate(revision.spec, w.input);
      if decided.Failed? {
        return Refuse(Invalid);
      }
      var order := CheckCursor(cursors, w, revision.spec.scope, revision.insts);
      RetryIsNotNext(cursors, w, revision.spec.scope);
      match order {
        case Again(applied) => return Replay(applied);
        case Conflict => return Refuse(CursorConflict);
        case Next =>
      }
      if !env.fenceHolds {
        return Refuse(CursorConflict);
      }
      return Go(decided.decision);
    }

    /** The proposal is what the reducer and the capacity rules make of the write. */
    ghost predicate IsProposal(w: Writes.Write, d: Decision, env: Environment, q: Proposal)
      requires Admissible(revisions, ledger, w, d, env)
      reads this
    {
      var r := revisions[Key(w.ruleID, w.version)];
      && q.Proposed?
      && q.before == CurrentInstance(r.spec, r.insts) && q.isNew == IsFresh(Lineages(r.insts))
      && q.outcome == Reduce(r.spec, q.before.lineage.snapshot, Writes.EvaluationOf(w, d))
      && Some(q.ledger) == Capacity.Admitted(ledger, EnvelopeOf(q.before.lineage.snapshot.state, q.outcome.transition), env.nowMS)
    }

    /** Load, reduce and admit. */
    method Propose(w: Writes.Write, d: Decision, env: Environment) returns (q: Proposal)
      requires Valid() && ClockOK(env.nowMS) && Addressed(current, revisions, w, env)
      ensures q.Proposed? <==> Admissible(revisions, ledger, w, d, env)
      ensures q.Proposed? ==> IsProposal(w, d, env, q)
      ensures q.Declined? ==> q.failure != Constraint
    {
      Parts();
      hide Consistent, Valid, Reduce, RevisionOK, Rules.Evaluate, ValidWrite, CurrentInstance, Capacity.Admitted, Capacity.Stored,
           Capacity.Fits, Capacity.Fresh, Lineages, Load, EnvelopeOf, IsFresh, LastOrdinal, CursorCovers, AllTerminal, Outbox.UniqueIDs;
      var k := Key(w.ruleID, w.version);
      var spec, insts := revisions[k].spec, revisions[k].insts;
      FactsOfKey(current, revisions, cursors, log, k);
      StoredRowIsInRange(spec, insts, log[k]);
      WriteIsInRange(w, env);
      var before, isNew := LoadSnapshot(spec, insts, log[k]);
      var outcome := Reduce(spec, before.lineage.snapshot, Writes.EvaluationOf(w, d));
      if outcome.Refused? {
        return Declined(Reducer(outcome.error));
      }
      var admitted := Capacity.Admit(ledger, EnvelopeOf(before.lineage.snapshot.state, outcome.transition), env.nowMS);
      if admitted.None? {
        return Declined(NoCapacity);
      }
      return Proposed(before, isNew, outcome, admitted.value);
    }

    /** The unique index refuses the proposed row exactly when the revision is blocked. */
    lemma ProposedGeneration(w: Writes.Write, d: Decision, env: Environment, q: Proposal)
      requires Valid() && Addressed(current, revisions, w, env)
      requires Admissible(revisions, ledger, w, d, env) && IsProposal(w, d, env, q)
      ensures
        q.isNew && GenerationTaken(revisions, Key(w.ruleID, w.version), q.outcome.snapshot.generation)
        <==> Blocked(revisions, Key(w.ruleID, w.version))
    {
      Parts();
      var k := Key(w.ruleID, w.version);
      var spec, insts := revisions[k].spec, revisions[k].insts;
      FactsOfKey(current, revisions, cursors, log, k);
      StepKeepsGeneration(spec, q.before.lineage.snapshot, Writes.EvaluationOf(w, d));
      hide Consistent, Reduce, RevisionOK, Rules.Evaluate, ValidWrite, Capacity.Admitted, Capacity.Stored, CurrentInstance,
           Lineages, EnvelopeOf, IsFresh, LastOrdinal, CursorCovers, AllTerminal, Outbox.UniqueIDs, GenerationTaken, Blocked, InstanceOK;
      TakenExactlyWhenBlocked(current, revisions, cursors, log, k);
      BlockedIsFresh(revisions, k);
      FreshInstanceOK(spec, insts, log[k]);
    }

    /** Load, reduce, admit and write the incident and outbox rows of one instance. */
    method Advance(w: Writes.Write, d: Decision, env: Environment) returns (p: Progress)
      requires Valid() && ClockOK(env.nowMS) && Addressed(current, revisions, w, env)
      ensures p.Moved? <==> Commits(revisions, cursors, ledger, destinations, w, d, env)
      ensures p.Moved? ==>
        var spec := revisions[Key(w.ruleID, w.version)].spec;
        var insts := revisions[Key(w.ruleID, w.version)].insts;
        var before := CurrentInstance(spec, insts);
        && p.isNew == IsFresh(Lineages(insts))
        && p.outcome == Reduce(spec, before.lineage.snapshot, Writes.EvaluationOf(w, d))
        && Evolves(spec, before, Writes.EvaluationOf(w, d), p.next, destinations)
        && Capacity.Stored(ledger)
        && Some(p.ledger) == Capacity.Admitted(ledger, EnvelopeOf(before.lineage.snapshot.state, p.outcome.transition), env.nowMS)
      ensures p == Stopped(Constraint) <==>
        Admissible(revisions, ledger, w, d, env) && Blocked(revisions, Key(w.ruleID, w.version))
    {
      hide Valid, Reduce, Rules.Evaluate, ValidWrite, RowFits, Evolves, CurrentInstance, Capacity.Admitted, Capacity.Stored,
           Lineages, GenerationTaken, Blocked, EnvelopeOf, IsFresh;
      var q := Propose(w, d, env);
      if q.Declined? {
        return Stopped(q.failure);
      }
      var k := Key(w.ruleID, w.version);
      ProposedGeneration(w, d, env, q);
      if q.isNew && GenerationTaken(revisions, k, q.outcome.snapshot.generation) {
        return Stopped(Constraint);
      }
      var next, failure := WriteRows(revisions[k].spec, q.before, q.outcome, w, d, env, destinations);
      if next.None? {
        return Stopped(failure);
      }
      if |cursors.Keys + {w.ruleID}| > RULE_LIMIT {
        return Stopped(CursorConflict);
      }
      return Moved(next.value, q.isNew, q.outcome, q.ledger);
    }

    lemma WriteIsInRange(w: Writes.Write, env: Environment)
      requires ValidWrite(w, env)
      ensures InRange(w.elapsedMS)
    {
    }

    /** Write the row, the log, the cursor and the ledger of a moved instance. */
    method Commit(w: Writes.Write, d: Decision, env: Environment, p: Progress) returns (r: Applied)
      requires Valid() && Addressed(current, revisions, w, env) && InOrder(cursors, w)
      requires d == Rules.Evaluate(revisions[Key(w.ruleID, w.version)].spec, w.input).decision
      requires p.Moved? && Commits(revisions, cursors, ledger, destinations, w, d, env) && Capacity.Stored(ledger)
      requires
        var spec := revisions[Key(w.ruleID, w.version)].spec;
        var insts := revisions[Key(w.ruleID, w.version)].insts;
        var before := CurrentInstance(spec, insts);
        && p.isNew == IsFresh(Lineages(insts))
        && p.outcome == Reduce(spec, before.lineage.snapshot, Writes.EvaluationOf(w, d))
        && Evolves(spec, before, Writes.EvaluationOf(w, d), p.next, destinations)
        && Some(p.ledger) == Capacity.Admitted(ledger, EnvelopeOf(before.lineage.snapshot.state, p.outcome.transition), env.nowMS)
      modifies this
      ensures Valid() && current == old(current) && destinations == old(destinations) && receipts == old(receipts)
      ensures r.Accepted? && !r.duplicate && Committed(old(State()), State(), w, env, destinations, r)
      ensures Key(w.ruleID, w.version) in revisions && w.ruleID in cursors
      ensures IsStoredResult(r.(duplicate := true), cursors[w.ruleID], revisions[Key(w.ruleID, w.version)].insts)
      ensures StillBlocked(old(revisions), revisions)
    {
      hide StillBlocked, Valid, Consistent, Rules.Evaluate, Commits, Evolves, Reduce, ValidWrite, InOrder, RevisionOK, CurrentInstance,
           Blocked, Capacity.Stored, Capacity.Admitted, Outbox.UniqueIDs, LastOrdinal, Lineages, IsFresh, StoreInstance, Extend, EnvelopeOf;
      var k := Key(w.ruleID, w.version);
      Parts();
      FactsOfKey(current, revisions, cursors, log, k);
      NextInOrder(current, revisions, cursors, log, w, env);
      NotBlockedWhenCommitted(revisions, cursors, ledger, destinations, w, d, env);
      var insts := revisions[k].insts;
      var spec := revisions[k].spec;
      StoreCases(insts, p.next);
      var insts' := if p.isNew then insts + [p.next] else insts[|insts| - 1 := p.next];
      var cursor := Cursor(w.version, spec.scope, w.ordinal, w.observedThroughMS, w.hash, |insts'| - 1,
                           p.outcome.snapshot.transitionSeq, p.outcome.transition.Some?);
      CommitEvaluation(current, revisions, cursors, log, destinations, k, Writes.EvaluationOf(w, d), p.next, cursor);
      AdmittedIsStored(ledger, EnvelopeOf(CurrentInstance(spec, insts).lineage.snapshot.state, p.outcome.transition), env.nowMS);
      EvolvedSnapshot(spec, CurrentInstance(spec, insts), Writes.EvaluationOf(w, d), p.next, destinations);
      ReplacingKeepsBlocked(revisions, k, revisions[k].(insts := insts'));
      log := log[k := log[k] + [Evaluated(w.ordinal, Writes.EvaluationOf(w, d))]];
      revisions := revisions[k := revisions[k].(insts := insts')];
      cursors := cursors[w.ruleID := cursor];
      ledger := p.ledger;
      Whole();
      return Accepted(|insts'| - 1, p.outcome.snapshot, p.outcome.transition, false);
    }

    /** The durable evaluation boundary: an exact retry answers from the tables, an input that is
        in order and admissible is committed, everything else is refused without effect. */
    method ApplyAlertEvaluation(w: Writes.Write, env: Environment) returns (r: Applied)
      requires Valid() && ClockOK(env.nowMS)
      modifies this
      ensures Valid()
      ensures current == old(current) && destinations == old(destinations) && receipts == old(receipts)
      // a refusal and an exact retry leave every table as it was
      ensures r.Rejected? || r.duplicate ==> State() == old(State())
      // which of the three it is
      ensures r.Accepted? && r.duplicate <==>
        Addressed(current, old(revisions), w, env) && IsRetry(old(cursors), w, old(revisions)[Key(w.ruleID, w.version)].spec.scope)
      ensures r.Accepted? && !r.duplicate <==>
        && Addressed(current, old(revisions), w, env) && InOrder(old(cursors), w) && env.fenceHolds
        && Commits(old(revisions), old(cursors), old(ledger), destinations, w,
                   Rules.Evaluate(old(revisions)[Key(w.ruleID, w.version)].spec, w.input).decision, env)
      ensures r.Accepted? && !r.duplicate ==> Committed(old(State()), State(), w, env, destinations, r)
      // what is reported is what is stored, so a retry reports what was reported the first time
      ensures r.Accepted? ==> Key(w.ruleID, w.version) in revisions && w.ruleID in cursors
      ensures r.Accepted? ==>
        IsStoredResult(r.(duplicate := true), cursors[w.ruleID], revisions[Key(w.ruleID, w.version)].insts)
      // a revision whose scope is held by another revision's rows takes no input, and nothing frees it
      ensures StillBlocked(old(revisions), revisions)
      ensures Key(w.ruleID, w.version) in old(revisions) && Blocked(old(revisions), Key(w.ruleID, w.version)) ==> r.Rejected?
      ensures r == Rejected(Constraint) <==>
        && Addressed(current, old(revisions), w, env) && InOrder(old(cursors), w) && env.fenceHolds
        && Admissible(old(revisions), old(ledger), w,
                      Rules.Evaluate(old(revisions)[Key(w.ruleID, w.version)].spec, w.input).decision, env)
        && Blocked(old(revisions), Key(w.ruleID, w.version))
    {
      var g := Gate(w, env);
      NothingChanges(revisions);
      hide StillBlocked, Admissible, Valid, Consistent, Rules.Evaluate, Commits, Evolves, Reduce, ValidWrite, IsRetry, InOrder, RevisionOK, CurrentInstance,
           Blocked, Capacity.Stored, Capacity.Admitted, Outbox.UniqueIDs, LastOrdinal, Lineages, IsFresh, StoreInstance, Extend;
      var k := Key(w.ruleID, w.version);
      match g {
        case Refuse(failure) =>
          return Rejected(failure);
        case Replay(applied) =>
          BlockedIsEmpty(revisions, k);
          RetryIsNotNext(cursors, w, revisions[k].spec.scope);
          return applied;
        case Go(d) =>
          RetryIsNotNext(cursors, w, revisions[k].spec.scope);
          var p := Advance(w, d, env);
          if p.Stopped? {
            return Rejected(p.failure);
          }
          r := Commit(w, d, env, p);
          NotBlockedWhenCommitted(old(revisions), old(cursors), old(ledger), destinations, w, d, env);
      }
    }

    /** The incident exists, capacity admits the mutation and the row permits it. */
    predicate MayControl(c: Control, k: Key, i: nat, nowMS: Capacity.int64)
      reads this
    {
      && IsIncident(revisions, k, i)
      && Capacity.Stored(ledger) && Capacity.Admitted(ledger, Capacity.Resolution, nowMS).Some?
      && Permits(c, revisions[k].insts[i].lineage.snapshot, nowMS as int)
    }

    /** A receipt that still answers for the request. */
    predicate Holds(request: Request, nowMS: int)
      reads this
    {
      (request.user, request.idempotencyKey) in receipts
      && receipts[(request.user, request.idempotencyKey)].expiresMS > nowMS
    }

    /** A control on an incident that is there, under a request with no receipt. */
    method Perform(c: Control, k: Key, i: nat, request: Request, nowMS: Capacity.int64) returns (r: Controlled)
      requires Valid() && ClockOK(nowMS) && IsIncident(revisions, k, i)
      modifies `log, `revisions, `ledger, `receipts
      ensures Valid() && StillBlocked(old(revisions), revisions)
      ensures r.Denied? ==> State() == old(State()) && receipts == old(receipts)
      ensures r.Done? ==>
        && !r.replayed
        && ControlCommitted(old(State()), State(), c, k, i, request, nowMS, destinations, r.result)
        && receipts == old(receipts)[(request.user, request.idempotencyKey) :=
             Receipt(request.hash, ActionOf(c), k, i, r.result, nowMS as int + 86_400_000)]
      ensures old(MayControl(c, k, i, nowMS)) ==> r.Done? || (c.Unmute? && r == Denied(DestinationLimit))
    {
      hide Consistent, Valid, RevisionOK, Changes, Permits, RowAfter, Capacity.Stored, Capacity.Admitted, StillBlocked, Blocked,
           Capacity.Fits, Capacity.Fresh, Outbox.UniqueIDs, LastOrdinal, Lineages, ActionOf, EventOf;
      NothingChanges(revisions);
      Parts();
      var admitted := Capacity.Admit(ledger, Capacity.Resolution, nowMS);
      if admitted.None? {
        return Denied(NoCapacity);
      }
      var before := revisions[k].insts[i];
      var next, failure := Mutate(c, before, request.user, request.idempotencyKey, nowMS as int, destinations);
      if next.None? {
        return Denied(failure);
      }
      CommitControl(c, k, i, next.value, request, nowMS);
      BlockedIsEmpty(revisions, k);
      ReplacingKeepsBlocked(revisions, k, revisions[k].(insts := revisions[k].insts[i := next.value]));
      AdmittedIsStored(ledger, Capacity.Resolution, nowMS);
      var result := ControlResult(next.value.lineage.snapshot, InFlight(next.value.outbox));
      log := log[k := log[k] + [EventOf(c, i, request.user, nowMS as int)]];
      revisions := WithInstance(revisions, k, i, next.value);
      ledger := admitted.value;
      receipts := receipts[(request.user, request.idempotencyKey) :=
        Receipt(request.hash, ActionOf(c), k, i, result, nowMS as int + RECEIPT_LIFETIME_MS)];
      Whole();
      return Done(result, false);
    }

    /** One operator control: admission, receipt, mutation. A refusal changes nothing, a retry before the
        receipt expires answers the stored result, and a new request changes the one instance only. */
    method MutateControl(c: Control, k: Key, i: nat, request: Request, nowMS: Capacity.int64) returns (r: Controlled)
      requires Valid() && ClockOK(nowMS)
      modifies this
      ensures Valid()
      ensures current == old(current) && destinations == old(destinations) && cursors == old(cursors)
      ensures StillBlocked(old(revisions), revisions)
      ensures r.Denied? || r.replayed ==> State() == old(State()) && receipts == old(receipts)
      ensures r.Done? && r.replayed <==>
        request.admin && old(Holds(request, nowMS as int))
        && var receipt := old(receipts)[(request.user, request.idempotencyKey)];
           receipt.hash == request.hash && receipt.action == ActionOf(c) && receipt.key == k && receipt.index == i
      ensures r.Done? && r.replayed ==> r.result == receipts[(request.user, request.idempotencyKey)].result
      ensures r.Done? && !r.replayed ==>
        && request.admin && !old(Holds(request, nowMS as int))
        && ControlCommitted(old(State()), State(), c, k, i, request, nowMS, destinations, r.result)
        && receipts == old(receipts)[(request.user, request.idempotencyKey) :=
             Receipt(request.hash, ActionOf(c), k, i, r.result, nowMS as int + 86_400_000)]
      ensures (request.admin && !old(Holds(request, nowMS as int)) && old(MayControl(c, k, i, nowMS))) ==>
        r.Done? || (c.Unmute? && r == Denied(DestinationLimit))
    {
      NothingChanges(revisions);
      hide StillBlocked, Blocked, Consistent, Valid, RevisionOK, Changes, Permits, RowAfter, InFlight, Capacity.Stored, Capacity.Admitted,
           Capacity.Fits, Capacity.Fresh, Outbox.UniqueIDs, LastOrdinal, Lineages, ActionOf, EventOf;
      if !request.admin {
        return Denied(Forbidden);
      }
      var slot := (request.user, request.idempotencyKey);
      if slot in receipts && receipts[slot].expiresMS > nowMS as int {
        var receipt := receipts[slot];
        if receipt.hash != request.hash || receipt.action != ActionOf(c) || receipt.key != k || receipt.index != i {
          return Denied(CursorConflict);
        }
        return Done(receipt.result, true);
      }
      if k !in revisions || i >= |revisions[k].insts| || revisions[k].insts[i].incidents == [] {
        return Denied(NotFound);
      }
      r := Perform(c, k, i, request, nowMS);
    }

    lemma CommitControl(c: Control, k: Key, i: nat, next: Instance, request: Request, nowMS: Capacity.int64)
      requires Consistent(current, revisions, cursors, log) && k in revisions && i < |revisions[k].insts| && ClockOK(nowMS)
      requires Changes(c, revisions[k].insts[i], next, request.user, request.idempotencyKey, nowMS as int, destinations)
      ensures k in log
      ensures Consistent(current, revisions[k := revisions[k].(insts := revisions[k].insts[i := next])], cursors,
                         log[k := log[k] + [EventOf(c, i, request.user, nowMS as int)]])
    {
      hide *;
      FactsOfKey(current, revisions, cursors, log, k);
      ChangesAreColumns(c, i, revisions[k].insts[i], next, request, nowMS, destinations);
      ChangesKeepRevision(c, revisions[k].spec, revisions[k].insts, log[k], i, next, request.user, request.idempotencyKey,
                          nowMS as int, destinations);
      ControlKeepsConsistent(current, revisions, cursors, log, k, revisions[k].insts[i := next],
                             EventOf(c, i, request.user, nowMS as int));
    }

    /** A new rule starts at revision 1 with no rows. */
    method CreateRule(id: string, d: Definition, enabled: bool, admin: bool) returns (r: RuleResult)
      requires Valid()
      modifies this
      ensures Valid() && cursors == old(cursors) && ledger == old(ledger)
      ensures StillBlocked(old(revisions), revisions)
      ensures destinations == old(destinations) && receipts == old(receipts)
      ensures r.Revised? <==>
        admin && Rules.ValidSpec(SpecOf(d, id, 1)) && |old(current)| < 64 && id !in old(current)
      ensures r.RuleRefused? ==> current == old(current) && State() == old(State())
      ensures r.Revised? ==>
        && r.version == 1 && current == old(current)[id := 1] && Key(id, 1) !in old(revisions)
        && revisions == old(revisions)[Key(id, 1) := Revision(SpecOf(d, id, 1), enabled, [])]
        && IsDefined(revisions[Key(id, 1)], d, enabled)
        && log == old(log)[Key(id, 1) := []]
    {
      NothingChanges(revisions);
      hide StillBlocked, Consistent, Valid, Capacity.Stored, Outbox.UniqueIDs, Rules.ValidSpec;
      if !Rules.ValidSpec(SpecOf(d, id, 1)) {
        return RuleRefused(Invalid);
      }
      if !admin {
        return RuleRefused(Forbidden);
      }
      if |current| >= RULE_LIMIT {
        return RuleRefused(RuleLimit);
      }
      if id in current {
        return RuleRefused(Constraint);
      }
      Parts();
      var revision := Revision(SpecOf(d, id, 1), enabled, []);
      SucceedingKeepsConsistent(current, revisions, cursors, log, Key(id, 1), revision);
      AddingBlocksExactly(revisions, Key(id, 1), revision);
      current, revisions, log := current[id := 1], revisions[Key(id, 1) := revision], log[Key(id, 1) := []];
      Whole();
      return Revised(1);
    }

    /** The rows of a revision come to rest. */
    method EndRows(k: Key, nowMS: Capacity.int64, hash: string)
      requires Valid() && ClockOK(nowMS) && k in revisions && IsHash(hash)
      modifies this`revisions, this`log
      ensures Valid() && k in old(log) && revisions.Keys == old(revisions).Keys
      ensures revisions == old(revisions)[k := old(revisions)[k].(insts := revisions[k].insts)]
      ensures |revisions[k].insts| == |old(revisions)[k].insts| && AllTerminal(revisions[k].insts)
      ensures forall i :: 0 <= i < |revisions[k].insts| ==>
        IsEnded(revisions[k].spec, old(revisions)[k].insts[i], revisions[k].insts[i], nowMS as int, hash)
      ensures log == old(log)[k := old(log)[k] + [RuleChanged(nowMS as int, hash)]]
      ensures StillBlocked(old(revisions), revisions)
    {
      hide StillBlocked, Blocked, Consistent, Valid, Capacity.Stored, Outbox.UniqueIDs, Rules.ValidSpec, IsHash, IsEnded, RevisionOK,
           AllTerminal, LastOrdinal, InstanceOK, CursorCovers;
      Parts();
      RowsOK(current, revisions, cursors, log, k);
      var out := SupersedeInstances(revisions[k].spec, revisions[k].insts, nowMS as int, hash);
      FactsOfKey(current, revisions, cursors, log, k);
      EndingKeepsRevision(revisions[k].spec, revisions[k].insts, log[k], out, nowMS as int, hash);
      EndingKeepsConsistent(current, revisions, cursors, log, k, out, nowMS as int, hash);
      BlockedIsEmpty(revisions, k);
      ReplacingKeepsBlocked(revisions, k, revisions[k].(insts := out));
      revisions, log := revisions[k := revisions[k].(insts := out)], log[k := log[k] + [RuleChanged(nowMS as int, hash)]];
      Whole();
    }

    /** A new revision of a rule: the rows of the one before it come to rest and the new one starts empty. */
    method UpdateRule(id: string, expected: int, d: Definition, enabled: bool, admin: bool, hash: string, nowMS: Capacity.int64)
      returns (r: RuleResult)
      requires Valid() && ClockOK(nowMS)
      modifies this
      ensures Valid() && cursors == old(cursors) && ledger == old(ledger)
      ensures StillBlocked(old(revisions), revisions)
      ensures destinations == old(destinations) && receipts == old(receipts)
      ensures r.Revised? <==>
        admin && IsHash(hash) && expected >= 1 && Rules.ValidSpec(SpecOf(d, id, expected + 1))
        && id in old(current) && old(current)[id] == expected
      ensures r.RuleRefused? ==> current == old(current) && State() == old(State())
      ensures r.Revised? ==>
        var k, k' := Key(id, expected), Key(id, expected + 1);
        && r.version == expected + 1 && current == old(current)[id := expected + 1]
        && k in old(revisions) && k in revisions && k' !in old(revisions) && k in old(log)
        && revisions == old(revisions)[k := revisions[k]][k' := Revision(SpecOf(d, id, expected + 1), enabled, [])]
        && IsDefined(revisions[k'], d, enabled)
        && revisions[k].(insts := old(revisions)[k].insts) == old(revisions)[k]
        && |revisions[k].insts| == |old(revisions)[k].insts|
        && (forall i :: 0 <= i < |revisions[k].insts| ==>
              IsEnded(revisions[k].spec, old(revisions)[k].insts[i], revisions[k].insts[i], nowMS as int, hash))
        && log == old(log)[k := old(log)[k] + [RuleChanged(nowMS as int, hash)]][k' := []]
      // an edit leaves a revision that can take no evaluation exactly when its scope was evaluated before
      ensures r.Revised? ==>
        (Blocked(revisions, Key(id, expected + 1)) <==> HasRowsIn(old(revisions), id, d.scope))
    {
      NothingChanges(revisions);
      hide StillBlocked, Blocked, HasRowsIn, Consistent, Valid, Capacity.Stored, Outbox.UniqueIDs, Rules.ValidSpec, IsHash, IsEnded;
      if !IsHash(hash) || expected < 1 {
        return RuleRefused(Invalid);
      }
      if !Rules.ValidSpec(SpecOf(d, id, expected + 1)) {
        return RuleRefused(Invalid);
      }
      if !admin {
        return RuleRefused(Forbidden);
      }
      if id !in current {
        return RuleRefused(RuleMissing);
      }
      if current[id] != expected {
        return RuleRefused(RuleRevision);
      }
      Parts();
      CurrentExists(current, revisions, cursors, log, id);
      var k, k' := Key(id, expected), Key(id, expected + 1);
      var revision := Revision(SpecOf(d, id, expected + 1), enabled, []);
      EndRows(k, nowMS, hash);
      Parts();
      SameLengthKeepsRows(old(revisions), k, revisions[k].insts, id, d.scope);
      SucceedingKeepsConsistent(current, revisions, cursors, log, k', revision);
      AddingBlocksExactly(revisions, k', revision);
      BlockedThrough(old(revisions), revisions, revisions[k' := revision]);
      current, revisions, log := current[id := expected + 1], revisions[k' := revision], log[k' := []];
      Whole();
      return Revised(expected + 1);
    }

    /** Between alert transactions destinations are edited and capacity is measured. */
    method Surroundings(destinations: seq<Outbox.Destination>, ledger: Capacity.Ledger)
      requires Valid() && Outbox.UniqueIDs(destinations) && Capacity.Stored(ledger)
      modifies this`destinations, this`ledger
      ensures Valid() && this.destinations == destinations && this.ledger == ledger
    {
      Parts();
      hide *;
      this.destinations, this.ledger := destinations, ledger;
      Whole();
    }

    /** Between alert transactions the dispatcher moves intents from state to state. */
    method Dispatch(k: Key, i: nat, outbox: seq<Outbox.Intent>)
      requires Valid() && k in revisions && i < |revisions[k].insts|
      requires |outbox| == |revisions[k].insts[i].outbox| && Outbox.Extends(revisions[k].insts[i].outbox, outbox)
      modifies this
      ensures Valid() && current == old(current) && cursors == old(cursors) && ledger == old(ledger) && log == old(log)
      ensures revisions == WithInstance(old(revisions), k, i, old(revisions)[k].insts[i].(outbox := outbox))
      ensures StillBlocked(old(revisions), revisions)
    {
      hide StillBlocked, Blocked, Valid, Consistent, Capacity.Stored, Outbox.UniqueIDs, Outbox.Extends;
      Parts();
      BlockedIsEmpty(revisions, k);
      ReplacingKeepsBlocked(revisions, k, revisions[k].(insts := revisions[k].insts[i := revisions[k].insts[i].(outbox := outbox)]));
      DispatchKeepsConsistent(current, revisions, cursors, log, k, i, outbox);
      revisions := WithInstance(revisions, k, i, revisions[k].insts[i].(outbox := outbox));
      Whole();
    }

    ghost function State(): Tables
      reads this
    {
      Tables(revisions, cursors, ledger, log)
    }
  }
}
