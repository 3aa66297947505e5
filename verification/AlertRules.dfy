/** What a new revision of a rule does to the rows of the revision before it. */
module AlertRules {
  import opened Wrappers
  import opened AlertTypes
  import opened AlertReducer
  import opened AlertInstances
  import opened AlertTables
  import Rules = AlertEvaluators
  import Outbox = AlertOutbox

  const OPEN_INTENTS := {Outbox.Pending, Outbox.Failed, Outbox.Muted}

  /** An open incident ends at the change, or a millisecond after it starts if the clock went back. */
  function EndOpen(c: Incident, nowMS: int): Incident {
    if !c.open then c
    else Incident(c.startMS,
                  if c.endMS.Some? then c.endMS else Some(if c.startMS >= nowMS then c.startMS + 1 else nowMS),
                  false)
  }

  function EndAll(incidents: seq<Incident>, nowMS: int): (r: seq<Incident>)
    ensures |r| == |incidents| && forall i :: 0 <= i < |r| ==> r[i] == EndOpen(incidents[i], nowMS)
  {
    seq(|incidents|, i requires 0 <= i < |incidents| => EndOpen(incidents[i], nowMS))
  }

  /** The instance as the reducer's own Supersede would leave it, with its incident and intents ended. */
  ghost predicate IsEnded(spec: Spec, before: Instance, after: Instance, nowMS: int, hash: string) {
    var s := before.lineage.snapshot;
    && (if Terminal(s.state) then after.lineage == before.lineage
        else
          var r := AlertReducer.Supersede(spec, s, nowMS, hash);
          r.Reduced? && after.lineage == Extend(before.lineage, r))
    && after.incidents == EndAll(before.incidents, nowMS)
    && after.outbox == Outbox.MoveAll(before.outbox, OPEN_INTENTS, Outbox.Superseded)
  }

  lemma EndedIsOK(spec: Spec, before: Instance, after: Instance, nowMS: int, hash: string)
    requires Rules.ValidSpec(spec) && InstanceOK(spec, before) && InRange(nowMS) && IsHash(hash)
    requires IsEnded(spec, before, after, nowMS, hash)
    ensures InstanceOK(spec, after) && Terminal(after.lineage.snapshot.state)
    ensures forall i :: 0 <= i < |after.incidents| ==> ClosedIncident(after.incidents[i])
    ensures |after.incidents| == |before.incidents| && forall i :: 0 <= i < |before.incidents| ==>
      after.incidents[i] ==
        if !before.incidents[i].open then before.incidents[i]
        else Incident(before.incidents[i].startMS,
                      Some(if nowMS > before.incidents[i].startMS then nowMS else before.incidents[i].startMS + 1), false)
    ensures |after.outbox| == |before.outbox| && forall i :: 0 <= i < |before.outbox| ==>
      after.outbox[i] ==
        if before.outbox[i].state in {Outbox.Pending, Outbox.Failed, Outbox.Muted}
        then before.outbox[i].(state := Outbox.Superseded) else before.outbox[i]
    ensures |before.lineage.transitions| <= |after.lineage.transitions|
  {
    SupersedeEndsAnyLiveRow(spec, before.lineage.snapshot, nowMS, hash);
    hide Rules.ValidSpec, AlertReducer.Supersede, IsHash;
  }

  /** supersedeRuleInstancesTx: live rows get the terminal state and its transition, and nothing of the
      revision stays open or deliverable. */
  method SupersedeInstances(spec: Spec, insts: seq<Instance>, nowMS: int, hash: string) returns (out: seq<Instance>)
    requires Rules.ValidSpec(spec) && InRange(nowMS) && IsHash(hash)
    requires forall i :: 0 <= i < |insts| ==> InstanceOK(spec, insts[i])
    ensures |out| == |insts|
    ensures forall i :: 0 <= i < |insts| ==> IsEnded(spec, insts[i], out[i], nowMS, hash)
  {
    out := [];
    for i := 0 to |insts|
      invariant |out| == i
      invariant forall j :: 0 <= j < i ==> IsEnded(spec, insts[j], out[j], nowMS, hash)
    {
      var inst := insts[i];
      var s := inst.lineage.snapshot;
      var lineage := inst.lineage;
      if !Terminal(s.state) {
        lineage := Lineage(
          s.(state := Superseded, dwellMS := 0, lastEvalMS := nowMS, transitionSeq := s.transitionSeq + 1),
          lineage.transitions + [Transition(s.transitionSeq + 1, s.state, Superseded, nowMS, hash)]);
        SupersedeIsColumns(spec, s, nowMS, hash);
      }
      var ended := Instance(lineage, EndAll(inst.incidents, nowMS),
                            Outbox.MoveAll(inst.outbox, OPEN_INTENTS, Outbox.Superseded));
      assert IsEnded(spec, inst, ended, nowMS, hash) by {
        hide Rules.ValidSpec, AlertReducer.Supersede, IsHash, InstanceOK;
      }
      out := out + [ended];
    }
  }

  /** The columns the update sets are the ones the reducer's Supersede changes. */
  lemma SupersedeIsColumns(spec: Spec, s: Snapshot, nowMS: int, hash: string)
    requires Rules.ValidSpec(spec) && ValidSnapshot(spec, s) && InRange(nowMS) && IsHash(hash) && !Terminal(s.state)
    ensures AlertReducer.Supersede(spec, s, nowMS, hash) ==
      Reduced(s.(state := Superseded, dwellMS := 0, lastEvalMS := nowMS, transitionSeq := s.transitionSeq + 1),
              Some(Transition(s.transitionSeq + 1, s.state, Superseded, nowMS, hash)))
  {
  }

  /** Ending every instance is one event of the fold. */
  lemma EndingIsAStep(spec: Spec, insts: seq<Instance>, out: seq<Instance>, nowMS: int, hash: string)
    requires |out| == |insts| && forall i :: 0 <= i < |insts| ==> IsEnded(spec, insts[i], out[i], nowMS, hash)
    requires forall i :: 0 <= i < |insts| - 1 ==> Terminal(insts[i].lineage.snapshot.state)
    ensures Lineages(out) == Step(spec, Lineages(insts), RuleChanged(nowMS, hash))
  {
    hide Rules.ValidSpec, AlertReducer.Supersede, IsHash, ValidSnapshot, EndAll, Outbox.MoveAll;
    var h := Lineages(insts);
    var h' := Step(spec, h, RuleChanged(nowMS, hash));
    forall i | 0 <= i < |insts| ensures Lineages(out)[i] == h'[i] {
      assert IsEnded(spec, insts[i], out[i], nowMS, hash);
    }
  }

  lemma OnlyTheLastIsLive(spec: Spec, insts: seq<Instance>, events: seq<Event>)
    requires RevisionOK(spec, insts, events)
    ensures forall i :: 0 <= i < |insts| - 1 ==> Terminal(insts[i].lineage.snapshot.state)
  {
    GenerationsCount(spec, insts, events);
    assert forall i :: 0 <= i < |insts| ==> Lineages(insts)[i] == insts[i].lineage;
  }

  lemma ChangeIsNoEvaluation(events: seq<Event>, nowMS: int, hash: string)
    requires InRange(nowMS) && IsHash(hash)
    requires (forall i :: 0 <= i < |events| ==> ValidEvent(events[i])) && OrdinalsIncrease(events)
    ensures
      var all := events + [RuleChanged(nowMS, hash)];
      && all[..|all| - 1] == events && (forall i :: 0 <= i < |all| ==> ValidEvent(all[i])) && OrdinalsIncrease(all)
      && LastOrdinal(all) == LastOrdinal(events)
  {
    var all := events + [RuleChanged(nowMS, hash)];
    assert all[..|all| - 1] == events;
  }

  /** A rule change is one event of the fold, after which the revision is at rest. */
  lemma EndingKeepsRevision(spec: Spec, insts: seq<Instance>, events: seq<Event>, out: seq<Instance>, nowMS: int, hash: string)
    requires RevisionOK(spec, insts, events) && InRange(nowMS) && IsHash(hash)
    requires |out| == |insts| && forall i :: 0 <= i < |insts| ==> IsEnded(spec, insts[i], out[i], nowMS, hash)
    ensures RevisionOK(spec, out, events + [RuleChanged(nowMS, hash)]) && AllTerminal(out)
    ensures LastOrdinal(events + [RuleChanged(nowMS, hash)]) == LastOrdinal(events)
    ensures forall i :: 0 <= i < |out| ==> |insts[i].lineage.transitions| <= |out[i].lineage.transitions|
  {
    ChangeIsNoEvaluation(events, nowMS, hash);
    OnlyTheLastIsLive(spec, insts, events);
    EndingIsAStep(spec, insts, out, nowMS, hash);
    hide Rules.ValidSpec, InstanceOK, IsEnded, IsHash, Step, OrdinalsIncrease, ValidEvent, LastOrdinal, Lineages;
    forall i | 0 <= i < |insts|
      ensures InstanceOK(spec, out[i]) && Terminal(out[i].lineage.snapshot.state)
      ensures |insts[i].lineage.transitions| <= |out[i].lineage.transitions|
    {
      EndedIsOK(spec, insts[i], out[i], nowMS, hash);
    }
  }

  // ----- the tables after a new revision -----

  datatype Definition = Definition(ruleType: RuleType, scope: string, request: Option<RequestDurationSpec>)

  function SpecOf(d: Definition, ruleID: string, version: int): Spec {
    Rules.DefaultSpec(ruleID, version, d.ruleType, d.scope).(request := d.request)
  }

  lemma NewRevisionOK(spec: Spec)
    requires Rules.ValidSpec(spec)
    ensures RevisionOK(spec, [], []) && AllTerminal([]) && LastOrdinal([]) == 0
  {
    hide Rules.ValidSpec;
    assert Lineages([]) == [];
  }

  lemma NewKeyOK(current: map<string, int>, cursors: map<string, Cursor>, k: Key, r: Revision)
    requires k.ruleID in current && k.version <= current[k.ruleID]
    requires Rules.ValidSpec(r.spec) && r.spec.ruleID == k.ruleID && r.spec.version == k.version && r.insts == []
    ensures KeyOK(k, r, [], current, cursors)
  {
    NewRevisionOK(r.spec);
    hide Rules.ValidSpec, RevisionOK;
  }

  lemma OldKeyOK(current: map<string, int>, current': map<string, int>, cursors: map<string, Cursor>, k: Key, r: Revision, events: seq<Event>)
    requires KeyOK(k, r, events, current, cursors)
    requires k.ruleID in current' && current[k.ruleID] <= current'[k.ruleID]
    requires current[k.ruleID] < current'[k.ruleID] && k.version == current[k.ruleID] ==> AllTerminal(r.insts)
    ensures KeyOK(k, r, events, current', cursors)
  {
    hide RevisionOK, CursorCovers, AllTerminal, LastOrdinal;
  }

  lemma EndedKeyOK(current: map<string, int>, cursors: map<string, Cursor>, k: Key, r: Revision, events: seq<Event>,
                   out: seq<Instance>, nowMS: int, hash: string)
    requires KeyOK(k, r, events, current, cursors) && InRange(nowMS) && IsHash(hash)
    requires |out| == |r.insts| && forall i :: 0 <= i < |out| ==> IsEnded(r.spec, r.insts[i], out[i], nowMS, hash)
    ensures KeyOK(k, r.(insts := out), events + [RuleChanged(nowMS, hash)], current, cursors) && AllTerminal(out)
  {
    EndingKeepsRevision(r.spec, r.insts, events, out, nowMS, hash);
    hide RevisionOK, CursorCovers, AllTerminal, LastOrdinal, IsEnded, IsHash;
  }

  lemma SameLengthKeepsScopes(revisions: map<Key, Revision>, k: Key, out: seq<Instance>)
    requires ScopesOK(revisions) && k in revisions && |out| == |revisions[k].insts|
    ensures ScopesOK(revisions[k := revisions[k].(insts := out)])
  {
    if Blocked(revisions, k) {
      assert revisions[k := revisions[k].(insts := out)] == revisions;
    } else {
      KeepsScopes(revisions, k, out);
    }
  }

  /** Ending the rows of one revision is consistent whether or not another revision follows. */
  lemma EndingKeepsConsistent(
    current: map<string, int>, revisions: map<Key, Revision>, cursors: map<string, Cursor>, log: map<Key, seq<Event>>,
    k: Key, out: seq<Instance>, nowMS: int, hash: string)
    requires Consistent(current, revisions, cursors, log) && k in revisions && InRange(nowMS) && IsHash(hash)
    requires |out| == |revisions[k].insts|
    requires forall i :: 0 <= i < |out| ==> IsEnded(revisions[k].spec, revisions[k].insts[i], out[i], nowMS, hash)
    ensures k in log
    ensures Consistent(current, revisions[k := revisions[k].(insts := out)], cursors, log[k := log[k] + [RuleChanged(nowMS, hash)]])
  {
    hide KeyOK, RevisionOK, IsEnded, IsHash, CursorCovers, AllTerminal, LastOrdinal, ScopesOK, Blocked, CursorPoints;
    FactsOfKey(current, revisions, cursors, log, k);
    assert KeyOK(k, revisions[k], log[k], current, cursors);
    EndingKeepsRevision(revisions[k].spec, revisions[k].insts, log[k], out, nowMS, hash);
    EndedKeyOK(current, cursors, k, revisions[k], log[k], out, nowMS, hash);
    KeepsKeys(current, revisions, cursors, log, k, revisions[k].(insts := out), cursors, log[k] + [RuleChanged(nowMS, hash)]);
    SameLengthKeepsScopes(revisions, k, out);
    forall id | id in cursors && Key(id, cursors[id].version) == k
      ensures id in current && k.version <= current[id] && cursors[id].scope == revisions[k].spec.scope
      ensures CursorPoints(cursors[id], out)
    {
      assert CursorOK(current, revisions, cursors, id);
      SamePoints(cursors[id], revisions[k].insts, out);
    }
    KeepsCursors(current, revisions, cursors, k, out, cursors);
  }

  /** Making a new, empty revision current is consistent once the one before it is at rest. */
  lemma SucceedingKeepsConsistent(
    current: map<string, int>, revisions: map<Key, Revision>, cursors: map<string, Cursor>, log: map<Key, seq<Event>>,
    k: Key, r: Revision)
    requires Consistent(current, revisions, cursors, log)
    requires Rules.ValidSpec(r.spec) && r.spec.ruleID == k.ruleID && r.spec.version == k.version && r.insts == []
    requires k.ruleID in current ==>
      && k.version == current[k.ruleID] + 1 && Key(k.ruleID, current[k.ruleID]) in revisions
      && AllTerminal(revisions[Key(k.ruleID, current[k.ruleID])].insts)
    ensures k !in revisions
    ensures Consistent(current[k.ruleID := k.version], revisions[k := r], cursors, log[k := []])
  {
    hide RevisionOK, CursorCovers, AllTerminal, LastOrdinal, CursorPoints, Rules.ValidSpec;
    if k in revisions {
      FactsOfKey(current, revisions, cursors, log, k);
    }
    var current' := current[k.ruleID := k.version];
    var revisions' := revisions[k := r];
    var log' := log[k := []];
    forall l | l in revisions' ensures KeyOK(l, revisions'[l], log'[l], current', cursors) {
      if l == k {
        NewKeyOK(current', cursors, k, r);
      } else {
        assert KeyOK(l, revisions[l], log[l], current, cursors);
        assert l == Key(l.ruleID, l.version);
        OldKeyOK(current, current', cursors, l, revisions[l], log[l]);
      }
    }
    forall id | id in cursors ensures CursorOK(current', revisions', cursors, id) {
      assert CursorOK(current, revisions, cursors, id);
    }
    hide KeyOK;
    assert CurrentOK(current', revisions');
    forall l, m | l in revisions' && m in revisions' && l != m && SameScope(l, revisions'[l], m, revisions'[m])
      ensures revisions'[l].insts == [] || revisions'[m].insts == []
    {
      if l != k && m != k {
        assert SameScope(l, revisions[l], m, revisions[m]);
      }
    }
  }
}
