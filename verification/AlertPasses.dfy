/** One pass over the planned rules, and what a revision that takes no input does to all of them. */
module AlertPasses {
  import opened Wrappers
  import opened AlertTypes
  import opened AlertReducer
  import opened AlertInstances
  import opened AlertTables
  import opened AlertStore
  import opened AlertRunner
  import Rules = AlertEvaluators
  import Writes = AlertWrites
  import Outbox = AlertOutbox
  import Capacity = AlertCapacity

  /** What a pass reads about one rule beside its plan, and what its transaction reads. */
  datatype Seen = Seen(facts: Writes.Facts, hash: string, env: Environment)

  function CurrentKey(current: map<string, int>, id: string): Key
    requires id in current
  {
    Key(id, current[id])
  }

  function KeysOf(current: map<string, int>, ids: seq<string>): (keys: seq<Key>)
    requires forall i :: 0 <= i < |ids| ==> ids[i] in current
    ensures |keys| == |ids| && forall i :: 0 <= i < |ids| ==> keys[i] == CurrentKey(current, ids[i])
  {
    seq(|ids|, i requires 0 <= i < |ids| => CurrentKey(current, ids[i]))
  }

  predicate SeenAll(ids: seq<string>, seen: seq<Seen>) {
    |seen| == |ids| && forall i :: 0 <= i < |seen| ==> ClockOK(seen[i].env.nowMS)
  }

  /** The plan lists every rule whose current revision is enabled, once, in the order of its creation. */
  ghost predicate IsPlan(current: map<string, int>, revisions: map<Key, Revision>, ids: seq<string>) {
    && (forall i, j :: 0 <= i < j < |ids| ==> ids[i] != ids[j])
    && (forall i :: 0 <= i < |ids| ==> ids[i] in current && CurrentKey(current, ids[i]) in revisions)
    && (forall id :: id in current && CurrentKey(current, id) in revisions ==>
          (revisions[CurrentKey(current, id)].enabled <==> id in ids))
  }

  /** The plan entry of a revision: its cursor if it has one of its own, and its newest row. */
  function PlannedOf(revisions: map<Key, Revision>, cursors: map<string, Cursor>, k: Key): Writes.Planned
    requires k in revisions
  {
    var spec := revisions[k].spec;
    Writes.Planned(
      k.ruleID, k.version, spec.ruleType, spec.scope,
      if k.ruleID in cursors && cursors[k.ruleID].version == k.version && cursors[k.ruleID].scope == spec.scope
      then Some(cursors[k.ruleID].ordinal) else None,
      Newest(Lineages(revisions[k].insts)))
  }

  /** The entry carries the revision's own definition, its row of the highest generation, and the ordinal of the
      last evaluation it accepted. */
  predicate IsEntry(p: Writes.Planned, k: Key, r: Revision, events: seq<Event>) {
    && p.ruleID == k.ruleID && p.version == k.version && p.ruleType == r.spec.ruleType && p.scope == r.spec.scope
    && (p.newest.None? <==> r.insts == [])
    && (p.newest.Some? ==> exists i :: 0 <= i < |r.insts| && r.insts[i].lineage.snapshot == p.newest.value)
    && (p.newest.Some? ==> forall i :: 0 <= i < |r.insts| ==> r.insts[i].lineage.snapshot.generation <= p.newest.value.generation)
    && (p.newest.Some? ==> p.newest.value.generation == |r.insts|)
    && (p.cursor.None? <==> forall i :: 0 <= i < |events| ==> !events[i].Evaluated?)
    && (p.cursor.Some? ==> exists i :: 0 <= i < |events| && events[i].Evaluated? && events[i].ordinal == p.cursor.value)
    && (p.cursor.Some? ==> forall i :: 0 <= i < |events| && events[i].Evaluated? ==> events[i].ordinal <= p.cursor.value)
  }

  lemma {:induction false} NoEvaluationNoRows(spec: Spec, events: seq<Event>)
    requires forall i :: 0 <= i < |events| ==> !events[i].Evaluated?
    ensures Fold(spec, events) == []
  {
    hide Reduce;
    if events != [] {
      NoEvaluationNoRows(spec, events[..|events| - 1]);
    }
  }

  lemma {:induction false} LastOrdinalIsOne(events: seq<Event>)
    requires OrdinalsIncrease(events) && forall i :: 0 <= i < |events| ==> ValidEvent(events[i])
    ensures LastOrdinal(events) == 0 <==> forall i :: 0 <= i < |events| ==> !events[i].Evaluated?
    ensures LastOrdinal(events) != 0 ==>
      exists i :: 0 <= i < |events| && events[i].Evaluated? && events[i].ordinal == LastOrdinal(events)
    ensures LastOrdinal(events) >= 0
    ensures forall i :: 0 <= i < |events| && events[i].Evaluated? ==> events[i].ordinal <= LastOrdinal(events)
  {
    LastOrdinalIsMaximal(events);
    if events != [] {
      var last := events[|events| - 1];
      assert ValidEvent(last);
      if !last.Evaluated? {
        var rest := events[..|events| - 1];
        LastOrdinalIsOne(rest);
        assert forall i :: 0 <= i < |rest| ==> rest[i] == events[i];
      }
    }
  }

  /** The cursor of a current revision is at its last accepted ordinal. */
  lemma CursorIsLast(
    current: map<string, int>, revisions: map<Key, Revision>, cursors: map<string, Cursor>, log: map<Key, seq<Event>>, k: Key)
    requires Consistent(current, revisions, cursors, log) && k in revisions && k.ruleID in current && k.version == current[k.ruleID]
    ensures k in log
    ensures PlannedOf(revisions, cursors, k).cursor == if LastOrdinal(log[k]) <= 0 then None else Some(LastOrdinal(log[k]))
  {
    FactsOfKey(current, revisions, cursors, log, k);
    if k.ruleID in cursors {
      assert CursorOK(current, revisions, cursors, k.ruleID);
    }
    RowsNeedEvaluations(revisions[k].spec, revisions[k].insts, log[k]);
    hide Consistent, RevisionOK, LastOrdinal, Lineages, AllTerminal;
  }

  lemma RowsNeedEvaluations(spec: Spec, insts: seq<Instance>, events: seq<Event>)
    requires RevisionOK(spec, insts, events)
    ensures LastOrdinal(events) <= 0 ==> insts == []
  {
    LastOrdinalIsOne(events);
    if LastOrdinal(events) <= 0 {
      NoEvaluationNoRows(spec, events);
    }
    hide LastOrdinal, Fold, InstanceOK, Rules.ValidSpec;
  }

  /** What the plan says about a rule is what its rows and its accepted evaluations say. */
  lemma EntryIsOwn(
    current: map<string, int>, revisions: map<Key, Revision>, cursors: map<string, Cursor>, log: map<Key, seq<Event>>, k: Key)
    requires Consistent(current, revisions, cursors, log) && k in revisions && k.ruleID in current && k.version == current[k.ruleID]
    ensures k in log && IsEntry(PlannedOf(revisions, cursors, k), k, revisions[k], log[k])
  {
    hide *;
    CursorIsLast(current, revisions, cursors, log, k);
    FactsOfKey(current, revisions, cursors, log, k);
    EntryFits(revisions, cursors, k, log[k]);
  }

  lemma EntryFits(revisions: map<Key, Revision>, cursors: map<string, Cursor>, k: Key, events: seq<Event>)
    requires k in revisions && RevisionOK(revisions[k].spec, revisions[k].insts, events)
    requires PlannedOf(revisions, cursors, k).cursor == if LastOrdinal(events) <= 0 then None else Some(LastOrdinal(events))
    ensures IsEntry(PlannedOf(revisions, cursors, k), k, revisions[k], events)
  {
    hide RevisionOK, LastOrdinal, WellFormed, Lineages;
    GenerationsCount(revisions[k].spec, revisions[k].insts, events);
    LastIsOne(revisions[k].spec, revisions[k].insts, events);
    var insts := revisions[k].insts;
    if insts != [] {
      assert insts[|insts| - 1].lineage.snapshot == PlannedOf(revisions, cursors, k).newest.value;
    }
  }

  lemma LastIsOne(spec: Spec, insts: seq<Instance>, events: seq<Event>)
    requires RevisionOK(spec, insts, events)
    ensures LastOrdinal(events) <= 0 <==> forall i :: 0 <= i < |events| ==> !events[i].Evaluated?
    ensures LastOrdinal(events) > 0 ==>
      exists i :: 0 <= i < |events| && events[i].Evaluated? && events[i].ordinal == LastOrdinal(events)
    ensures forall i :: 0 <= i < |events| && events[i].Evaluated? ==> events[i].ordinal <= LastOrdinal(events)
  {
    LastOrdinalIsOne(events);
    hide LastOrdinal, Fold, InstanceOK, Rules.ValidSpec, Lineages;
  }

  lemma PlanIsValid(
    current: map<string, int>, revisions: map<Key, Revision>, cursors: map<string, Cursor>, log: map<Key, seq<Event>>, k: Key)
    requires Consistent(current, revisions, cursors, log) && k in revisions
    ensures Writes.ValidPlan(PlannedOf(revisions, cursors, k))
  {
    RowsOK(current, revisions, cursors, log, k);
    hide Consistent, Rules.ValidSpec, IncidentsFit;
    if revisions[k].insts != [] {
      assert InstanceOK(revisions[k].spec, revisions[k].insts[|revisions[k].insts| - 1]);
    }
  }

  /** Every revision keeps its definition. */
  ghost predicate SameRules(pre: map<Key, Revision>, now: map<Key, Revision>) {
    && pre.Keys == now.Keys
    && forall k :: k in pre ==> now[k].spec == pre[k].spec && now[k].enabled == pre[k].enabled
  }

  lemma PlanStays(current: map<string, int>, pre: map<Key, Revision>, now: map<Key, Revision>, ids: seq<string>)
    requires IsPlan(current, pre, ids) && SameRules(pre, now)
    ensures IsPlan(current, now, ids)
  {
  }

  /** A revision and its rule's cursor are as they were. */
  predicate Same(pre: Tables, now: Tables, k: Key) {
    && k in pre.revisions && k in now.revisions && now.revisions[k] == pre.revisions[k]
    && (k.ruleID in now.cursors <==> k.ruleID in pre.cursors)
    && (k.ruleID in pre.cursors ==> now.cursors[k.ruleID] == pre.cursors[k.ruleID])
  }

  /** One write of a pass: committed as an evaluation, or refused without effect. */
  ghost predicate Applies(pre: Tables, post: Tables, w: Writes.Write, env: Environment, dests: seq<Outbox.Destination>, r: Applied) {
    if r.Accepted? then !r.duplicate && Committed(pre, post, w, env, dests, r) else post == pre
  }

  /** Its ordinal is the one after the last its revision has accepted. */
  lemma BuiltIsNext(current: map<string, int>, planned: Tables, w: Writes.Write, k: Key, seen: Seen, cycle: Writes.Cycle)
    requires Consistent(current, planned.revisions, planned.cursors, planned.log)
    requires k.ruleID in current && k.version == current[k.ruleID] && IsBuilt(w, planned, k, seen, cycle)
    ensures k in planned.log && forall i :: 0 <= i < |planned.log[k]| && planned.log[k][i].Evaluated? ==> planned.log[k][i].ordinal < w.ordinal
    ensures w.ordinal == 1 ||
      exists i :: 0 <= i < |planned.log[k]| && planned.log[k][i].Evaluated? && planned.log[k][i].ordinal == w.ordinal - 1
  {
    hide Consistent, PlannedOf, Writes.InputFor, Writes.ObservedDwell, Writes.Fenced, Writes.Windowed;
    EntryIsOwn(current, planned.revisions, planned.cursors, planned.log, k);
  }

  /** An applied write leaves every other rule as it was. */
  lemma AppliesTouchesOne(pre: Tables, post: Tables, w: Writes.Write, env: Environment, dests: seq<Outbox.Destination>, r: Applied)
    requires Applies(pre, post, w, env, dests, r)
    ensures SameRules(pre.revisions, post.revisions)
    ensures forall k: Key :: k in pre.revisions && k.ruleID != w.ruleID ==> Same(pre, post, k)
  {
    hide Evolves, Rules.Evaluate, Capacity.Admitted, Capacity.Stored, LastOrdinal, CurrentInstance, StoreInstance;
  }

  /** The rules still to be written are as the plan read them. */
  lemma RestIsSame(planned: Tables, pre: Tables, post: Tables, keys: seq<Key>, n: nat,
                   w: Writes.Write, env: Environment, dests: seq<Outbox.Destination>, r: Applied)
    requires n < |keys| && Applies(pre, post, w, env, dests, r) && w.ruleID == keys[n].ruleID
    requires forall i, j :: 0 <= i < j < |keys| ==> keys[i].ruleID != keys[j].ruleID
    requires forall i :: n <= i < |keys| ==> Same(planned, pre, keys[i])
    ensures forall i :: n < i < |keys| ==> Same(planned, post, keys[i])
  {
    AppliesTouchesOne(pre, post, w, env, dests, r);
    hide Applies, SameRules;
    forall i | n < i < |keys| ensures Same(planned, post, keys[i]) {
      assert keys[i].ruleID != w.ruleID;
      assert Same(planned, pre, keys[i]);
      assert Same(pre, post, keys[i]);
    }
  }

  /** The write is what the plan, the facts seen and the cycle make of a revision, but for its episode. */
  ghost predicate IsBuilt(w: Writes.Write, planned: Tables, k: Key, seen: Seen, cycle: Writes.Cycle) {
    && k in planned.revisions && Writes.ValidCycle(cycle) && Writes.ValidPlan(PlannedOf(planned.revisions, planned.cursors, k))
    && var built := Writes.BuildAlertWrite(PlannedOf(planned.revisions, planned.cursors, k), seen.facts, cycle, seen.hash);
       built.Some? && Writes.SameButEpisode(w, built.value)
  }

  /** The write built for a planned revision is past its cursor, so it is never taken for a retry. */
  lemma BuiltIsNoRetry(w: Writes.Write, planned: Tables, now: Tables, k: Key, seen: Seen, cycle: Writes.Cycle)
    requires IsBuilt(w, planned, k, seen, cycle) && Same(planned, now, k)
    ensures Key(w.ruleID, w.version) == k && !IsRetry(now.cursors, w, now.revisions[k].spec.scope)
  {
    hide Writes.InputFor, Writes.ObservedDwell, Writes.Fenced, Writes.Windowed;
  }

  lemma AppliesWhen(pre: Tables, post: Tables, w: Writes.Write, env: Environment, dests: seq<Outbox.Destination>, r: Applied)
    requires r.Rejected? ==> post == pre
    requires r.Accepted? ==> !r.duplicate && Committed(pre, post, w, env, dests, r)
    ensures Applies(pre, post, w, env, dests, r)
  {
    hide Committed;
  }

  /** The writes of a pass, in plan order, for revisions of different rules. */
  ghost predicate Ready(planned: Tables, keys: seq<Key>, writes: seq<Writes.Write>, seen: seq<Seen>, cycle: Writes.Cycle) {
    && |writes| == |seen| == |keys|
    && (forall i, j :: 0 <= i < j < |keys| ==> keys[i].ruleID != keys[j].ruleID)
    && (forall i :: 0 <= i < |keys| ==> IsBuilt(writes[i], planned, keys[i], seen[i], cycle) && ClockOK(seen[i].env.nowMS))
  }

  /** The writes applied lead from one state of the tables to the other, one transaction each. */
  ghost predicate Leads(pre: Tables, now: Tables, writes: seq<Writes.Write>, seen: seq<Seen>, dests: seq<Outbox.Destination>,
                        applied: seq<Applied>)
    decreases |applied|
  {
    && |applied| <= |writes| == |seen|
    && if applied == [] then now == pre
       else
         var n := |applied| - 1;
         exists mid :: Leads(pre, mid, writes, seen, dests, applied[..n])
                       && Applies(mid, now, writes[n], seen[n].env, dests, applied[n])
  }

  /** What applying the writes of a pass up to the first refusal does: the rules after the ones written are as
      they were, and a blocked revision stops it. */
  ghost predicate Applying(pre: Tables, now: Tables, keys: seq<Key>, writes: seq<Writes.Write>, seen: seq<Seen>,
                           dests: seq<Outbox.Destination>, applied: seq<Applied>) {
    && Leads(pre, now, writes, seen, dests, applied)
    && (forall j :: 0 <= j < |applied| - 1 ==> applied[j].Accepted?)
    && SameRules(pre.revisions, now.revisions) && StillBlocked(pre.revisions, now.revisions)
    && |keys| == |writes|
    && (forall i :: |applied| <= i < |keys| ==> Same(pre, now, keys[i]))
    && (forall i :: 0 <= i < |applied| && BlockedIn(pre.revisions, keys[i]) ==> i == |applied| - 1 && applied[i].Rejected?)
  }

  lemma ApplyingParts(pre: Tables, now: Tables, keys: seq<Key>, writes: seq<Writes.Write>, seen: seq<Seen>,
                      dests: seq<Outbox.Destination>, applied: seq<Applied>)
    requires Leads(pre, now, writes, seen, dests, applied) && |keys| == |writes|
    requires forall j :: 0 <= j < |applied| - 1 ==> applied[j].Accepted?
    requires SameRules(pre.revisions, now.revisions) && StillBlocked(pre.revisions, now.revisions)
    requires forall i :: |applied| <= i < |keys| ==> Same(pre, now, keys[i])
    requires forall i :: 0 <= i < |applied| && i < |keys| && BlockedIn(pre.revisions, keys[i]) ==>
               i == |applied| - 1 && applied[i].Rejected?
    ensures Applying(pre, now, keys, writes, seen, dests, applied)
  {
    hide Leads, SameRules, StillBlocked, Same, BlockedIn;
    assert |applied| <= |writes| by {
      LeadsIsShort(pre, now, writes, seen, dests, applied);
    }
  }

  lemma LeadsIsShort(pre: Tables, now: Tables, writes: seq<Writes.Write>, seen: seq<Seen>, dests: seq<Outbox.Destination>,
                     applied: seq<Applied>)
    requires Leads(pre, now, writes, seen, dests, applied)
    ensures |applied| <= |writes| == |seen|
  {
    hide Applies;
  }

  /** All writes so far were committed. */
  predicate AllAccepted(applied: seq<Applied>) {
    forall j :: 0 <= j < |applied| ==> applied[j].Accepted?
  }

  lemma ApplyingStarts(pre: Tables, keys: seq<Key>, writes: seq<Writes.Write>, seen: seq<Seen>, cycle: Writes.Cycle,
                       dests: seq<Outbox.Destination>)
    requires Ready(pre, keys, writes, seen, cycle)
    ensures Applying(pre, pre, keys, writes, seen, dests, [])
  {
    hide Writes.ValidCycle, Writes.ValidPlan, Writes.BuildAlertWrite, BlockedIn;
    forall i | 0 <= i < |keys| ensures Same(pre, pre, keys[i]) {
      assert IsBuilt(writes[i], pre, keys[i], seen[i], cycle);
    }
  }

  lemma NextIsReady(pre: Tables, now: Tables, keys: seq<Key>, writes: seq<Writes.Write>, seen: seq<Seen>, cycle: Writes.Cycle,
                    dests: seq<Outbox.Destination>, applied: seq<Applied>)
    requires Ready(pre, keys, writes, seen, cycle) && Applying(pre, now, keys, writes, seen, dests, applied)
    requires |applied| < |writes|
    ensures
      var n := |applied|;
      && keys[n] in now.revisions && ClockOK(seen[n].env.nowMS)
      && Key(writes[n].ruleID, writes[n].version) == keys[n]
      && !IsRetry(now.cursors, writes[n], now.revisions[keys[n]].spec.scope)
  {
    hide IsBuilt, IsRetry, ClockOK, Leads, SameRules, StillBlocked, BlockedIn;
    BuiltIsNoRetry(writes[|applied|], pre, now, keys[|applied|], seen[|applied|], cycle);
  }

  lemma LeadsOn(pre: Tables, now: Tables, next: Tables, writes: seq<Writes.Write>, seen: seq<Seen>, dests: seq<Outbox.Destination>,
                applied: seq<Applied>, r: Applied)
    requires Leads(pre, now, writes, seen, dests, applied) && |applied| < |writes|
    requires Applies(now, next, writes[|applied|], seen[|applied|].env, dests, r)
    ensures Leads(pre, next, writes, seen, dests, applied + [r])
  {
    hide Applies;
    var all := applied + [r];
    assert all[..|applied|] == applied && all[|applied|] == r;
  }

  lemma StaysBlocked(a: map<Key, Revision>, b: map<Key, Revision>, k: Key)
    requires StillBlocked(a, b)
    ensures BlockedIn(a, k) ==> BlockedIn(b, k)
  {
    hide BlockedIn;
  }

  lemma RulesOn(pre: Tables, now: Tables, next: Tables, w: Writes.Write, env: Environment, dests: seq<Outbox.Destination>, r: Applied)
    requires SameRules(pre.revisions, now.revisions) && Applies(now, next, w, env, dests, r)
    ensures SameRules(pre.revisions, next.revisions)
  {
    AppliesTouchesOne(now, next, w, env, dests, r);
    hide Applies;
  }

  lemma KeysAreOfDifferentRules(planned: Tables, keys: seq<Key>, writes: seq<Writes.Write>, seen: seq<Seen>, cycle: Writes.Cycle)
    requires Ready(planned, keys, writes, seen, cycle)
    ensures forall i, j :: 0 <= i < j < |keys| ==> keys[i].ruleID != keys[j].ruleID
  {
    hide IsBuilt, ClockOK;
  }

  lemma ApplyingGoesOn(pre: Tables, now: Tables, next: Tables, keys: seq<Key>, writes: seq<Writes.Write>, seen: seq<Seen>,
                       cycle: Writes.Cycle, dests: seq<Outbox.Destination>, applied: seq<Applied>, r: Applied)
    requires Ready(pre, keys, writes, seen, cycle) && Applying(pre, now, keys, writes, seen, dests, applied)
    requires |applied| < |writes| && AllAccepted(applied)
    requires Applies(now, next, writes[|applied|], seen[|applied|].env, dests, r)
    requires StillBlocked(now.revisions, next.revisions) && (BlockedIn(now.revisions, keys[|applied|]) ==> r.Rejected?)
    ensures Applying(pre, next, keys, writes, seen, dests, applied + [r])
  {
    hide *;
    var n := |applied|;
    NextIsReady(pre, now, keys, writes, seen, cycle, dests, applied);
    BlockedSoFar(pre, now, keys, writes, seen, dests, applied, r);
    KeysAreOfDifferentRules(pre, keys, writes, seen, cycle);
    LeadsOn(pre, now, next, writes, seen, dests, applied, r);
    BlockedThrough(pre.revisions, now.revisions, next.revisions);
    RulesOn(pre, now, next, writes[n], seen[n].env, dests, r);
    RestIsSame(pre, now, next, keys, n, writes[n], seen[n].env, dests, r);
    ApplyingParts(pre, next, keys, writes, seen, dests, applied + [r]);
  }

  lemma BlockedSoFar(pre: Tables, now: Tables, keys: seq<Key>, writes: seq<Writes.Write>, seen: seq<Seen>,
                     dests: seq<Outbox.Destination>, applied: seq<Applied>, r: Applied)
    requires Applying(pre, now, keys, writes, seen, dests, applied) && |applied| < |writes| && AllAccepted(applied)
    requires BlockedIn(now.revisions, keys[|applied|]) ==> r.Rejected?
    ensures Leads(pre, now, writes, seen, dests, applied) && |keys| == |writes| == |seen|
    ensures SameRules(pre.revisions, now.revisions) && StillBlocked(pre.revisions, now.revisions)
    ensures forall i :: |applied| <= i < |keys| ==> Same(pre, now, keys[i])
    ensures
      var all := applied + [r];
      && (forall j :: 0 <= j < |all| - 1 ==> all[j].Accepted?)
      && (forall i :: 0 <= i < |all| && BlockedIn(pre.revisions, keys[i]) ==> i == |all| - 1 && all[i].Rejected?)
  {
    hide Leads, SameRules, StillBlocked, Same, BlockedIn;
    LeadsIsShort(pre, now, writes, seen, dests, applied);
    StaysBlocked(pre.revisions, now.revisions, keys[|applied|]);
  }

  /** The next write, one that is no retry. */
  method ApplyNext(store: Store, w: Writes.Write, env: Environment, ghost k: Key) returns (r: Applied)
    requires store.Valid() && ClockOK(env.nowMS) && k == Key(w.ruleID, w.version) && k in store.State().revisions
    requires !IsRetry(store.State().cursors, w, store.State().revisions[k].spec.scope)
    modifies store
    ensures store.Valid() && store.current == old(store.current) && store.destinations == old(store.destinations)
    ensures Applies(old(store.State()), store.State(), w, env, store.destinations, r)
    ensures StillBlocked(old(store.State()).revisions, store.State().revisions)
    ensures BlockedIn(old(store.State()).revisions, k) ==> r.Rejected?
  {
    hide *;
    StateIs(store);
    BlockedInMeans(store.revisions, k);
    r := store.ApplyAlertEvaluation(w, env);
    AppliesWhen(old(store.State()), store.State(), w, env, store.destinations, r);
    StateIs(store);
  }

  lemma BlockedInMeans(revisions: map<Key, Revision>, k: Key)
    ensures BlockedIn(revisions, k) ==> k in revisions && Blocked(revisions, k)
  {
    hide Blocked;
  }

  lemma StateIs(store: Store)
    ensures store.State().revisions == store.revisions && store.State().cursors == store.cursors
  {
  }

  /** Apply the writes of a pass one by one, up to the first refusal. */
  method ApplyInOrder(store: Store, writes: seq<Writes.Write>, seen: seq<Seen>, ghost keys: seq<Key>, ghost cycle: Writes.Cycle)
    returns (ok: bool, applied: seq<Applied>)
    requires store.Valid() && Ready(store.State(), keys, writes, seen, cycle)
    modifies store
    ensures store.Valid() && store.current == old(store.current) && store.destinations == old(store.destinations)
    ensures Applying(old(store.State()), store.State(), keys, writes, seen, store.destinations, applied)
    ensures if ok then AllAccepted(applied) && |applied| == |writes| else applied != [] && applied[|applied| - 1].Rejected?
  {
    ApplyingStarts(store.State(), keys, writes, seen, cycle, store.destinations);
    assert |writes| == |seen| == |keys|;
    ok, applied := true, [];
    ghost var pre := store.State();
    assert AllAccepted(applied);
    hide *;
    while |applied| < |writes|
      invariant store.Valid() && store.current == old(store.current) && store.destinations == old(store.destinations)
      invariant Applying(pre, store.State(), keys, writes, seen, store.destinations, applied)
      invariant ok && AllAccepted(applied) && |applied| <= |writes|
    {
      var n := |applied|;
      ghost var now := store.State();
      NextIsReady(pre, now, keys, writes, seen, cycle, store.destinations, applied);
      var r := ApplyNext(store, writes[n], seen[n].env, keys[n]);
      ApplyingGoesOn(pre, now, store.State(), keys, writes, seen, cycle, store.destinations, applied, r);
      OneMore(applied, r);
      applied := applied + [r];
      if r.Rejected? {
        ok := false;
        return;
      }
    }
  }

  lemma OneMore(applied: seq<Applied>, r: Applied)
    requires AllAccepted(applied)
    ensures r.Accepted? ==> AllAccepted(applied + [r])
  {
  }

  lemma KeyOfIs(current: map<string, int>, id: string)
    requires id in current
    ensures CurrentKey(current, id).ruleID == id && CurrentKey(current, id).version == current[id]
  {
  }

  lemma KeysAreThere(current: map<string, int>, revisions: map<Key, Revision>, ids: seq<string>)
    requires IsPlan(current, revisions, ids)
    ensures forall i :: 0 <= i < |ids| ==> ids[i] in current && CurrentKey(current, ids[i]) in revisions
  {
  }

  /** The rules of the plan with what is seen of each. */
  method ReadPlan(store: Store, ids: seq<string>, seen: seq<Seen>) returns (rules: seq<Writes.RuleFacts>)
    requires store.Valid() && IsPlan(store.current, store.revisions, ids) && |seen| == |ids|
    ensures |rules| == |ids|
    ensures forall i :: 0 <= i < |ids| ==>
      && rules[i] == Writes.RuleFacts(PlannedOf(store.revisions, store.cursors, CurrentKey(store.current, ids[i])),
                                      seen[i].facts, seen[i].hash)
      && Writes.ValidPlan(rules[i].planned)
    ensures forall i :: 0 <= i < |ids| ==>
      var k := CurrentKey(store.current, ids[i]);
      k in store.log && IsEntry(rules[i].planned, k, store.revisions[k], store.log[k])
  {
    hide *;
    store.Parts();
    KeysAreThere(store.current, store.revisions, ids);
    rules := [];
    for i := 0 to |ids|
      invariant |rules| == i
      invariant forall j :: 0 <= j < i ==>
        && rules[j] == Writes.RuleFacts(PlannedOf(store.revisions, store.cursors, CurrentKey(store.current, ids[j])),
                                        seen[j].facts, seen[j].hash)
        && Writes.ValidPlan(rules[j].planned)
      invariant forall j :: 0 <= j < i ==>
        var k := CurrentKey(store.current, ids[j]);
        k in store.log && IsEntry(rules[j].planned, k, store.revisions[k], store.log[k])
    {
      var k := CurrentKey(store.current, ids[i]);
      PlanIsValid(store.current, store.revisions, store.cursors, store.log, k);
      KeyOfIs(store.current, ids[i]);
      EntryIsOwn(store.current, store.revisions, store.cursors, store.log, k);
      rules := rules + [Writes.RuleFacts(PlannedOf(store.revisions, store.cursors, k), seen[i].facts, seen[i].hash)];
    }
  }

  lemma BuiltIsReady(pre: Tables, current: map<string, int>, ids: seq<string>, rules: seq<Writes.RuleFacts>,
                     writes: seq<Writes.Write>, seen: seq<Seen>, cycle: Writes.Cycle)
    requires IsPlan(current, pre.revisions, ids) && Writes.ValidCycle(cycle)
    requires |writes| == |rules| == |ids| && SeenAll(ids, seen)
    requires forall i :: 0 <= i < |ids| ==>
      && rules[i] == Writes.RuleFacts(PlannedOf(pre.revisions, pre.cursors, CurrentKey(current, ids[i])), seen[i].facts, seen[i].hash)
      && Writes.ValidPlan(rules[i].planned)
      && Writes.Built(rules[i], cycle).Some? && Writes.SameButEpisode(writes[i], Writes.Built(rules[i], cycle).value)
    ensures Ready(pre, KeysOf(current, ids), writes, seen, cycle)
  {
    hide Writes.ValidCycle, Writes.ValidPlan, Writes.BuildAlertWrite, PlannedOf, ClockOK;
    var keys := KeysOf(current, ids);
    forall i | 0 <= i < |ids| ensures IsBuilt(writes[i], pre, keys[i], seen[i], cycle) {
      assert rules[i].planned == PlannedOf(pre.revisions, pre.cursors, keys[i]);
    }
  }

  /** The writes of a pass, from the plan read in one transaction and what is seen of each rule. */
  method BuildPass(store: Store, ids: seq<string>, seen: seq<Seen>, cycle: Writes.Cycle) returns (writes: Option<seq<Writes.Write>>)
    requires store.Valid() && IsPlan(store.current, store.State().revisions, ids)
    requires SeenAll(ids, seen)
    ensures writes.Some? ==> Ready(store.State(), KeysOf(store.current, ids), writes.value, seen, cycle)
  {
    StateIs(store);
    ghost var pre := store.State();
    hide *;
    var rules := ReadPlan(store, ids, seen);
    writes := Writes.BuildAlertWrites(rules, cycle);
    if writes.Some? {
      BuiltIsReady(pre, store.current, ids, rules, writes.value, seen, cycle);
    }
  }

  /** What a pass leaves. Nothing planned is a success; a rule that cannot be built fails the pass before any
      write; otherwise the writes are committed one by one up to the first refusal, and the pass succeeds exactly
      when all are. A blocked revision fails the pass, and nothing planned after it is written. */
  ghost predicate Passed(pre: Tables, now: Tables, current: map<string, int>, ids: seq<string>, seen: seq<Seen>, cycle: Writes.Cycle,
                         dests: seq<Outbox.Destination>, ok: bool, writes: seq<Writes.Write>, applied: seq<Applied>)
    requires IsPlan(current, pre.revisions, ids)
  {
    && IsPlan(current, now.revisions, ids) && StillBlocked(pre.revisions, now.revisions)
    && (if applied == [] then now == pre && (ok <==> ids == [])
        else
          && Ready(pre, KeysOf(current, ids), writes, seen, cycle)
          && Applying(pre, now, KeysOf(current, ids), writes, seen, dests, applied)
          && if ok then AllAccepted(applied) && |applied| == |ids| else applied[|applied| - 1].Rejected?)
    && (forall i :: 0 <= i < |ids| && BlockedIn(pre.revisions, CurrentKey(current, ids[i])) ==> !ok && |applied| <= i + 1)
  }

  lemma PassWithoutWrites(pre: Tables, current: map<string, int>, ids: seq<string>, seen: seq<Seen>, cycle: Writes.Cycle,
                          dests: seq<Outbox.Destination>)
    requires IsPlan(current, pre.revisions, ids)
    ensures Passed(pre, pre, current, ids, seen, cycle, dests, ids == [], [], [])
  {
    hide IsPlan, BlockedIn, Ready, Applying;
  }

  lemma PassEnds(pre: Tables, now: Tables, current: map<string, int>, ids: seq<string>, seen: seq<Seen>, cycle: Writes.Cycle,
                 dests: seq<Outbox.Destination>, ok: bool, writes: seq<Writes.Write>, applied: seq<Applied>)
    requires IsPlan(current, pre.revisions, ids) && ids != []
    requires Ready(pre, KeysOf(current, ids), writes, seen, cycle)
    requires Applying(pre, now, KeysOf(current, ids), writes, seen, dests, applied)
    requires if ok then AllAccepted(applied) && |applied| == |writes| else applied != [] && applied[|applied| - 1].Rejected?
    ensures Passed(pre, now, current, ids, seen, cycle, dests, ok, writes, applied)
  {
    assert IsPlan(current, now.revisions, ids) by {
      PlanStays(current, pre.revisions, now.revisions, ids);
    }
    hide IsPlan, SameRules, StillBlocked, BlockedIn, Leads, Same, Ready;
  }

  /** EvaluateCurrent of the query service. */
  method EvaluateCurrent(store: Store, ids: seq<string>, seen: seq<Seen>, cycle: Writes.Cycle)
    returns (ok: bool, writes: seq<Writes.Write>, applied: seq<Applied>)
    requires store.Valid() && IsPlan(store.current, store.State().revisions, ids)
    requires SeenAll(ids, seen)
    modifies store
    ensures store.Valid() && store.current == old(store.current) && store.destinations == old(store.destinations)
    ensures Passed(old(store.State()), store.State(), store.current, ids, seen, cycle, store.destinations, ok, writes, applied)
  {
    hide *;
    ghost var current, pre := store.current, store.State();
    KeysAreThere(current, pre.revisions, ids);
    ok, writes, applied := ids == [], [], [];
    PassWithoutWrites(pre, current, ids, seen, cycle, store.destinations);
    if ids == [] {
      return;
    }
    var built := BuildPass(store, ids, seen, cycle);
    if built.None? {
      return;
    }
    writes := built.value;
    ok, applied := ApplyInOrder(store, writes, seen, KeysOf(current, ids), cycle);
    PassEnds(pre, store.State(), current, ids, seen, cycle, store.destinations, ok, writes, applied);
  }

  /** Some planned revision is blocked. */
  ghost predicate SomeBlocked(revisions: map<Key, Revision>, current: map<string, int>, ids: seq<string>)
    requires forall i :: 0 <= i < |ids| ==> ids[i] in current
  {
    exists i :: 0 <= i < |ids| && BlockedIn(revisions, CurrentKey(current, ids[i]))
  }

  lemma BlockedPassFails(pre: Tables, now: Tables, current: map<string, int>, ids: seq<string>, seen: seq<Seen>, cycle: Writes.Cycle,
                         dests: seq<Outbox.Destination>, ok: bool, writes: seq<Writes.Write>, applied: seq<Applied>)
    requires IsPlan(current, pre.revisions, ids) && Passed(pre, now, current, ids, seen, cycle, dests, ok, writes, applied)
    ensures IsPlan(current, now.revisions, ids)
    ensures SomeBlocked(pre.revisions, current, ids) ==> !ok && SomeBlocked(now.revisions, current, ids)
  {
    hide BlockedIn, Ready, Applying;
  }

  /** The cycles are those of the passes done, which differ from the ticks in their results only. */
  predicate CyclesOf(start: int, ticks: seq<Tick>, done: seq<Tick>, cycles: seq<Writes.Cycle>) {
    && |done| == |cycles| <= |ticks|
    && forall n :: 0 <= n < |done| ==> done[n] == ticks[n].(ok := done[n].ok) && cycles[n] == CycleAt(start, done, n)
  }

  /** No pass so far has succeeded, and each cycle says so. */
  predicate AllFailed(done: seq<Tick>, cycles: seq<Writes.Cycle>) {
    |done| == |cycles| && forall n :: 0 <= n < |done| ==> !done[n].ok && cycles[n].restarted
  }

  /** Later ticks change no earlier state or cycle. */
  lemma {:induction false} PrefixKeepsStates(start: int, ticks: seq<Tick>, more: seq<Tick>, n: nat)
    requires n <= |ticks| <= |more| && more[..|ticks|] == ticks
    ensures StateAfter(start, more, n) == StateAfter(start, ticks, n)
    ensures forall i :: 0 <= i < n ==> CycleAt(start, more, i) == CycleAt(start, ticks, i)
  {
    hide AfterTick, CycleFor;
    if n > 0 {
      PrefixKeepsStates(start, ticks, more, n - 1);
      assert more[n - 1] == ticks[n - 1];
    }
  }

  lemma CyclesGrow(start: int, ticks: seq<Tick>, done: seq<Tick>, cycles: seq<Writes.Cycle>, ok: bool)
    requires CyclesOf(start, ticks, done, cycles) && |done| < |ticks|
    ensures
      var t := ticks[|done|].(ok := ok);
      CyclesOf(start, ticks, done + [t], cycles + [CycleFor(StateAfter(start, done, |done|), ticks[|done|])])
  {
    var n := |done|;
    var all := done + [ticks[n].(ok := ok)];
    var cycle := CycleFor(StateAfter(start, done, n), ticks[n]);
    PrefixKeepsStates(start, done, all, n);
    assert cycle == CycleAt(start, all, n);
    hide CycleAt, CycleFor, StateAfter;
    forall i | 0 <= i <= n ensures all[i] == ticks[i].(ok := all[i].ok) && (cycles + [cycle])[i] == CycleAt(start, all, i) {
      if i < n {
        assert all[i] == done[i] && CycleAt(start, all, i) == CycleAt(start, done, i);
      }
    }
  }

  lemma StateGrows(start: int, done: seq<Tick>, t: Tick)
    ensures StateAfter(start, done + [t], |done| + 1) == AfterTick(StateAfter(start, done, |done|), t)
  {
    PrefixKeepsStates(start, done, done + [t], |done|);
  }

  lemma FailedGrows(st: RunnerState, t: Tick, done: seq<Tick>, cycles: seq<Writes.Cycle>, ok: bool)
    requires AllFailed(done, cycles) && !st.continuity && !ok
    ensures AllFailed(done + [t.(ok := ok)], cycles + [CycleFor(st, t)]) && !AfterTick(st, t.(ok := ok)).continuity
  {
    assert CycleFor(st, t).restarted;
    hide CycleFor;
  }

  /** Where a run of passes stands: the plan still holds, and if a planned revision was blocked, it is and no
      pass has succeeded. */
  ghost predicate Running(now: Tables, current: map<string, int>, ids: seq<string>, start: int, ticks: seq<Tick>,
                          done: seq<Tick>, cycles: seq<Writes.Cycle>, st: RunnerState, blocked: bool) {
    && IsPlan(current, now.revisions, ids)
    && CyclesOf(start, ticks, done, cycles) && st == StateAfter(start, done, |done|)
    && (blocked ==> SomeBlocked(now.revisions, current, ids) && !st.continuity && AllFailed(done, cycles))
  }

  lemma RunningGoesOn(
    now: Tables, next: Tables, current: map<string, int>, ids: seq<string>, start: int, ticks: seq<Tick>,
    done: seq<Tick>, cycles: seq<Writes.Cycle>, st: RunnerState, blocked: bool, seen: seq<Seen>, dests: seq<Outbox.Destination>,
    ok: bool, writes: seq<Writes.Write>, applied: seq<Applied>)
    requires Running(now, current, ids, start, ticks, done, cycles, st, blocked) && |done| < |ticks|
    requires Passed(now, next, current, ids, seen, CycleFor(st, ticks[|done|]), dests, ok, writes, applied)
    ensures
      var t := ticks[|done|].(ok := ok);
      Running(next, current, ids, start, ticks, done + [t], cycles + [CycleFor(st, ticks[|done|])], AfterTick(st, t), blocked)
  {
    hide Passed, IsPlan, SomeBlocked, CyclesOf, AllFailed, CycleFor, AfterTick, StateAfter;
    var t := ticks[|done|];
    BlockedPassFails(now, next, current, ids, seen, CycleFor(st, t), dests, ok, writes, applied);
    CyclesGrow(start, ticks, done, cycles, ok);
    StateGrows(start, done, t.(ok := ok));
    if blocked {
      FailedGrows(st, t, done, cycles, ok);
    }
  }

  lemma RunningMeans(now: Tables, current: map<string, int>, ids: seq<string>, start: int, ticks: seq<Tick>,
                     done: seq<Tick>, cycles: seq<Writes.Cycle>, st: RunnerState, blocked: bool)
    requires Running(now, current, ids, start, ticks, done, cycles, st, blocked)
    ensures IsPlan(current, now.revisions, ids) && CyclesOf(start, ticks, done, cycles) && (blocked ==> AllFailed(done, cycles))
  {
    hide IsPlan, SomeBlocked, CyclesOf, AllFailed, StateAfter;
  }

  lemma RunningStarts(now: Tables, current: map<string, int>, ids: seq<string>, start: int, ticks: seq<Tick>) returns (blocked: bool)
    requires IsPlan(current, now.revisions, ids)
    ensures Running(now, current, ids, start, ticks, [], [], RunnerState(start, None, None, false), blocked)
    ensures blocked == SomeBlocked(now.revisions, current, ids)
  {
    blocked := SomeBlocked(now.revisions, current, ids);
    hide IsPlan, SomeBlocked;
  }

  /** One tick of the scheduler. */
  method RunPass(store: Store, ids: seq<string>, st: RunnerState, t: Tick, seen: seq<Seen>,
                 ghost start: int, ghost ticks: seq<Tick>, ghost done: seq<Tick>, ghost cycles: seq<Writes.Cycle>, ghost blocked: bool)
    returns (done': Tick, st': RunnerState)
    requires store.Valid() && SeenAll(ids, seen) && |done| < |ticks| && t == ticks[|done|]
    requires Running(store.State(), store.current, ids, start, ticks, done, cycles, st, blocked)
    modifies store
    ensures store.Valid() && store.current == old(store.current)
    ensures Running(store.State(), store.current, ids, start, ticks, done + [done'], cycles + [CycleFor(st, t)], st', blocked)
  {
    hide *;
    ghost var now := store.State();
    RunningMeans(now, store.current, ids, start, ticks, done, cycles, st, blocked);
    var cycle := CycleFor(st, t);
    var ok, writes, applied := EvaluateCurrent(store, ids, seen, cycle);
    RunningGoesOn(now, store.State(), store.current, ids, start, ticks, done, cycles, st, blocked, seen, store.destinations,
                  ok, writes, applied);
    done' := t.(ok := ok);
    st' := AfterTick(st, done');
  }

  /** The scheduler over the store: each tick is one pass over the plan, and its result is the tick's. While a
      planned revision is blocked every pass fails and every cycle is marked restarted. */
  method RunPasses(store: Store, ids: seq<string>, start: int, ticks: seq<Tick>, seen: seq<seq<Seen>>)
    returns (done: seq<Tick>, cycles: seq<Writes.Cycle>)
    requires store.Valid() && IsPlan(store.current, store.State().revisions, ids)
    requires |seen| == |ticks| && forall n :: 0 <= n < |seen| ==> SeenAll(ids, seen[n])
    modifies store
    ensures store.Valid() && |done| == |ticks| && CyclesOf(start, ticks, done, cycles)
    ensures old(SomeBlocked(store.State().revisions, store.current, ids)) ==> AllFailed(done, cycles)
  {
    hide *;
    done, cycles := [], [];
    var st := RunnerState(start, None, None, false);
    ghost var blocked := RunningStarts(store.State(), store.current, ids, start, ticks);
    for n := 0 to |ticks|
      invariant store.Valid() && |done| == n
      invariant Running(store.State(), store.current, ids, start, ticks, done, cycles, st, blocked)
    {
      var tick, next := RunPass(store, ids, st, ticks[n], seen[n], start, ticks, done, cycles, blocked);
      done, cycles, st := done + [tick], cycles + [CycleFor(st, ticks[n])], next;
    }
    RunningMeans(store.State(), store.current, ids, start, ticks, done, cycles, st, blocked);
  }
}
