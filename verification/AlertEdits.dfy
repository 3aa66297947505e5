/** Runs of the store's transactions, and what a rule edit does to the evaluations after it. */
module AlertEdits {
  import opened Wrappers
  import opened AlertTypes
  import opened AlertReducer
  import opened AlertInstances
  import opened AlertTables
  import opened AlertControls
  import opened AlertRules
  import opened AlertStore
  import Rules = AlertEvaluators
  import Writes = AlertWrites
  import Outbox = AlertOutbox
  import Capacity = AlertCapacity

  /** Every way the alert tables change: evaluations, controls, rule changes, deliveries and what surrounds them. */
  datatype Transaction =
    | Evaluate(w: Writes.Write, env: Environment)
    | Operate(c: Control, k: Key, i: nat, request: Request, nowMS: Capacity.int64)
    | Create(id: string, d: Definition, enabled: bool, admin: bool)
    | Update(id: string, expected: int, d: Definition, enabled: bool, admin: bool, hash: string, nowMS: Capacity.int64)
    | Deliver(k: Key, i: nat, outbox: seq<Outbox.Intent>)
    | Surround(destinations: seq<Outbox.Destination>, ledger: Capacity.Ledger)

  predicate OnTime(t: Transaction) {
    match t
    case Evaluate(_, env) => ClockOK(env.nowMS)
    case Operate(_, _, _, _, nowMS) => ClockOK(nowMS)
    case Update(_, _, _, _, _, _, nowMS) => ClockOK(nowMS)
    case _ => true
  }

  predicate Deliverable(revisions: map<Key, Revision>, k: Key, i: nat, outbox: seq<Outbox.Intent>) {
    && k in revisions && i < |revisions[k].insts|
    && |outbox| == |revisions[k].insts[i].outbox| && Outbox.Extends(revisions[k].insts[i].outbox, outbox)
  }

  /** A write is turned away. */
  predicate TurnedAway(t: Transaction, revisions: map<Key, Revision>, r: Option<Applied>) {
    t.Evaluate? && BlockedIn(revisions, Key(t.w.ruleID, t.w.version)) ==> r.Some? && r.value.Rejected?
  }

  lemma BlockedKey(revisions: map<Key, Revision>, w: Writes.Write)
    ensures BlockedIn(revisions, Key(w.ruleID, w.version)) ==>
      Key(w.ruleID, w.version) in revisions && Blocked(revisions, Key(w.ruleID, w.version))
  {
    hide Blocked;
  }

  /** One transaction; a delivery or surrounding change that makes no sense is skipped. */
  method ServeOne(store: Store, t: Transaction) returns (r: Option<Applied>)
    requires store.Valid() && OnTime(t)
    modifies store
    ensures store.Valid() && StillBlocked(old(store.revisions), store.revisions)
    ensures TurnedAway(t, old(store.revisions), r)
  {
    hide StillBlocked, BlockedIn, Blocked, Store.Valid, Commits, Admissible, Committed, ControlCommitted, Addressed, IsRetry, InOrder,
         IsStoredResult, ClockOK, Outbox.UniqueIDs, Outbox.Extends, Capacity.Stored, IsEnded, Rules.ValidSpec, Rules.Evaluate;
    NothingChanges(store.revisions);
    r := None;
    match t {
      case Evaluate(w, env) =>
        BlockedKey(store.revisions, w);
        var applied := store.ApplyAlertEvaluation(w, env);
        r := Some(applied);
      case Operate(c, k, i, request, nowMS) =>
        var _ := store.MutateControl(c, k, i, request, nowMS);
      case Create(id, d, enabled, admin) =>
        var _ := store.CreateRule(id, d, enabled, admin);
      case Update(id, expected, d, enabled, admin, hash, nowMS) =>
        var _ := store.UpdateRule(id, expected, d, enabled, admin, hash, nowMS);
      case Deliver(k, i, outbox) =>
        if Deliverable(store.revisions, k, i, outbox) {
          store.Dispatch(k, i, outbox);
        }
      case Surround(destinations, ledger) =>
        if Outbox.UniqueIDs(destinations) && Capacity.Stored(ledger) {
          store.Surroundings(destinations, ledger);
        }
    }
  }

  /** Blocked for good: over any run of any transactions a revision that is blocked stays so, and every
      evaluation of it in the run is turned away. */
  method Serve(store: Store, ts: seq<Transaction>) returns (rs: seq<Option<Applied>>)
    requires store.Valid() && forall j :: 0 <= j < |ts| ==> OnTime(ts[j])
    modifies store
    ensures store.Valid() && StillBlocked(old(store.revisions), store.revisions)
    ensures |rs| == |ts| && forall j :: 0 <= j < |ts| ==> TurnedAway(ts[j], old(store.revisions), rs[j])
  {
    hide *;
    NothingChanges(store.revisions);
    rs := [];
    for n := 0 to |ts|
      invariant store.Valid() && StillBlocked(old(store.revisions), store.revisions)
      invariant |rs| == n && forall j :: 0 <= j < n ==> TurnedAway(ts[j], old(store.revisions), rs[j])
    {
      ghost var before := store.revisions;
      var r := ServeOne(store, ts[n]);
      BlockedThrough(old(store.revisions), before, store.revisions);
      TurnedAwayBefore(ts[n], old(store.revisions), before, r);
      rs := rs + [r];
    }
  }

  lemma TurnedAwayBefore(t: Transaction, a: map<Key, Revision>, b: map<Key, Revision>, r: Option<Applied>)
    requires StillBlocked(a, b) && TurnedAway(t, b, r)
    ensures TurnedAway(t, a, r)
  {
    hide BlockedIn;
  }

  // ----- one concrete run -----

  const ID := "00000000-0000-4000-8000-000000000000"
  const ZEROS := Writes.PLACEHOLDER_SCOPE
  const MONITOR := Definition(DiskMonitorHealth, ZEROS, None)
  const ROOMY := Capacity.Quota(1_000_000, 0, 0)
  const LEDGER := Capacity.Ledger(
    false, 0, 0, 0, Capacity.Pending(0, 0, 0),
    map[Capacity.IncidentLedger := ROOMY, Capacity.Metadata := ROOMY, Capacity.LiveTotal := ROOMY])
  const ENVIRONMENT := Environment(true, true, true, true, true, 0)

  /** An evaluation that could observe nothing, the first input of its revision. */
  function QuietWrite(version: int): Writes.Write {
    Writes.Write(ID, version, 1, 0, ZEROS, 0, 0, false, Rules.EMPTY_INPUT, 0, None, None)
  }

  lemma Constants(version: int)
    requires version >= 1
    ensures IsUUID(ID) && IsHash(ZEROS)
    ensures Capacity.Stored(LEDGER) && ClockOK(0) && OnTime(Evaluate(QuietWrite(version), ENVIRONMENT))
    ensures Rules.ValidSpec(SpecOf(MONITOR, ID, version)) && ValidWrite(QuietWrite(version), ENVIRONMENT)
    ensures Rules.Evaluate(SpecOf(MONITOR, ID, version), Rules.EMPTY_INPUT)
            == Rules.Decided(Rules.Unavailable(DataUnknown, InputNotValid(DataUnknown)))
  {
  }

  predicate HasRoom(l: Capacity.Ledger) {
    && Capacity.Stored(l) && l.(pending := LEDGER.pending) == LEDGER
    && l.pending.incident <= 100_000 && l.pending.metadata <= 100_000 && l.pending.live <= 100_000
  }

  /** What the quiet write is decided to be. */
  const QUIET := Rules.Unavailable(DataUnknown, InputNotValid(DataUnknown))

  lemma QuietReduces(version: int)
    requires version >= 1
    ensures
      var spec := SpecOf(MONITOR, ID, version);
      var s := NewSnapshot(spec, 1);
      var r := Reduce(spec, s, Writes.EvaluationOf(QuietWrite(version), QUIET));
      && CurrentInstance(spec, []) == Instance(Lineage(s, []), [], [])
      && r.Reduced? && InRange(s.dwellMS) && EnvelopeOf(s.state, r.transition) == Capacity.Cursor
  {
    Constants(version);
    LoadCases(SpecOf(MONITOR, ID, version), []);
    hide Rules.ValidSpec;
  }

  lemma RoomAdmits(ledger: Capacity.Ledger)
    requires HasRoom(ledger)
    ensures Capacity.Admitted(ledger, Capacity.Cursor, 0).Some?
  {
  }

  /** On a revision without rows the reducer takes the quiet write, capacity admits it, and only a blocked
      revision or a full table of cursors turns it away. */
  lemma QuietIsAdmissible(revisions: map<Key, Revision>, cursors: map<string, Cursor>, ledger: Capacity.Ledger,
                          dests: seq<Outbox.Destination>, version: int)
    requires version >= 1 && Key(ID, version) in revisions && HasRoom(ledger)
    requires revisions[Key(ID, version)].spec == SpecOf(MONITOR, ID, version) && revisions[Key(ID, version)].insts == []
    ensures Admissible(revisions, ledger, QuietWrite(version), QUIET, ENVIRONMENT)
    ensures Commits(revisions, cursors, ledger, dests, QuietWrite(version), QUIET, ENVIRONMENT)
            <==> !Blocked(revisions, Key(ID, version)) && |cursors.Keys + {ID}| <= 64
  {
    QuietReduces(version);
    RoomAdmits(ledger);
    hide Reduce, CurrentInstance, Rules.DefaultSpec, NewSnapshot, EnvelopeOf, Blocked, HasRoom, Capacity.Admitted;
    assert Capacity.Stored(ledger);
  }

  lemma LedgerHasRoom()
    ensures HasRoom(LEDGER)
    ensures Capacity.Admitted(LEDGER, Capacity.Cursor, 0).Some? && HasRoom(Capacity.Admitted(LEDGER, Capacity.Cursor, 0).value)
  {
  }

  /** The quiet write as the store sees it on an enabled current revision. */
  lemma QuietIsAddressed(current: map<string, int>, revisions: map<Key, Revision>, version: int)
    requires version >= 1 && ID in current && current[ID] == version
    requires Key(ID, version) in revisions && revisions[Key(ID, version)].enabled
    requires revisions[Key(ID, version)].spec == SpecOf(MONITOR, ID, version)
    ensures Addressed(current, revisions, QuietWrite(version), ENVIRONMENT)
    ensures Rules.Evaluate(revisions[Key(ID, version)].spec, QuietWrite(version).input).decision == QUIET
  {
    Constants(version);
    hide Rules.Evaluate, ValidWrite, Rules.ValidSpec;
  }

  lemma NoOtherRevision(revisions: map<Key, Revision>, k: Key)
    requires k in revisions && revisions.Keys == {k}
    ensures !Blocked(revisions, k)
  {
  }

  /** What any committed evaluation leaves of its revision, its cursor and the ledger. */
  lemma CommittedFacts(pre: Tables, post: Tables, w: Writes.Write, env: Environment, dests: seq<Outbox.Destination>, r: Applied)
    requires r.Accepted? && Committed(pre, post, w, env, dests, r)
    ensures
      var k := Key(w.ruleID, w.version);
      && k in pre.revisions && post.revisions.Keys == pre.revisions.Keys && post.revisions[k].spec == pre.revisions[k].spec
      && post.revisions[k].insts != [] && w.ruleID in post.cursors && post.cursors[w.ruleID].version == w.version
      && Rules.Evaluate(pre.revisions[k].spec, w.input).Decided?
      && var before := CurrentInstance(pre.revisions[k].spec, pre.revisions[k].insts);
         var e := Writes.EvaluationOf(w, Rules.Evaluate(pre.revisions[k].spec, w.input).decision);
         && Reduce(pre.revisions[k].spec, before.lineage.snapshot, e).Reduced?
         && r.transition == Reduce(pre.revisions[k].spec, before.lineage.snapshot, e).transition
         && Capacity.Stored(pre.ledger)
         && Some(post.ledger) == Capacity.Admitted(pre.ledger, EnvelopeOf(before.lineage.snapshot.state, r.transition), env.nowMS)
  {
    hide Rules.Evaluate, Reduce, CurrentInstance, EnvelopeOf, Capacity.Admitted, Capacity.Stored, LastOrdinal, Opened, Closed, Extend,
         StoreInstance;
  }

  /** What a first evaluation of the rule leaves. */
  lemma FirstCommitted(pre: Tables, post: Tables, dests: seq<Outbox.Destination>, r: Applied)
    requires r.Accepted? && Committed(pre, post, QuietWrite(1), ENVIRONMENT, dests, r)
    requires pre.revisions == map[Key(ID, 1) := Revision(SpecOf(MONITOR, ID, 1), true, [])] && pre.ledger == LEDGER
    ensures post.revisions.Keys == {Key(ID, 1)} && post.revisions[Key(ID, 1)].insts != []
    ensures post.revisions[Key(ID, 1)].spec == SpecOf(MONITOR, ID, 1)
    ensures ID in post.cursors && post.cursors[ID].version == 1 && HasRoom(post.ledger)
  {
    CommittedFacts(pre, post, QuietWrite(1), ENVIRONMENT, dests, r);
    Constants(1);
    QuietReduces(1);
    LedgerHasRoom();
    hide Committed, Rules.Evaluate, Rules.DefaultSpec, CurrentInstance, NewSnapshot, EnvelopeOf, Capacity.Admitted, HasRoom, Reduce,
         Rules.ValidSpec, Capacity.Stored, ValidWrite, SpecOf;
    assert pre.revisions[Key(ID, 1)].insts == [];
  }

  /** The rule as it is created. */
  method CreateMonitor() returns (store: Store)
    ensures fresh(store) && store.Valid() && store.State().ledger == LEDGER && store.State().cursors == map[]
    ensures store.current == map[ID := 1]
    ensures store.State().revisions == map[Key(ID, 1) := Revision(SpecOf(MONITOR, ID, 1), true, [])]
  {
    Constants(1);
    hide Store.Valid, Rules.ValidSpec, Blocked, StillBlocked, IsUUID, IsHash, SpecOf, Capacity.Stored;
    store := new Store(LEDGER);
    var created := store.CreateRule(ID, MONITOR, true, true);
  }

  lemma NewRuleTakesQuietWrite(t: Tables, current: map<string, int>, dests: seq<Outbox.Destination>)
    requires t.ledger == LEDGER && t.cursors == map[] && current == map[ID := 1]
    requires t.revisions == map[Key(ID, 1) := Revision(SpecOf(MONITOR, ID, 1), true, [])]
    ensures Addressed(current, t.revisions, QuietWrite(1), ENVIRONMENT) && InOrder(t.cursors, QuietWrite(1))
    ensures !IsRetry(t.cursors, QuietWrite(1), t.revisions[Key(ID, 1)].spec.scope)
    ensures Commits(t.revisions, t.cursors, t.ledger, dests, QuietWrite(1),
                    Rules.Evaluate(t.revisions[Key(ID, 1)].spec, QuietWrite(1).input).decision, ENVIRONMENT)
  {
    LedgerHasRoom();
    QuietIsAddressed(current, t.revisions, 1);
    QuietIsAdmissible(t.revisions, t.cursors, t.ledger, dests, 1);
    NoOtherRevision(t.revisions, Key(ID, 1));
    hide Rules.Evaluate, Commits, Addressed, Blocked, HasRoom, SpecOf, LEDGER;
    assert t.cursors.Keys + {ID} == {ID};
  }

  /** Creating the rule and evaluating it once. */
  method CreateAndEvaluate() returns (store: Store, first: Applied)
    ensures fresh(store) && store.Valid() && first.Accepted? && !first.duplicate
    ensures store.current == map[ID := 1] && store.State().revisions.Keys == {Key(ID, 1)}
    ensures store.State().revisions[Key(ID, 1)].spec == SpecOf(MONITOR, ID, 1) && store.State().revisions[Key(ID, 1)].insts != []
    ensures ID in store.State().cursors && store.State().cursors[ID].version == 1 && HasRoom(store.State().ledger)
  {
    hide *;
    Constants(1);
    store := CreateMonitor();
    ghost var pre := store.State();
    StateParts(store);
    NewRuleTakesQuietWrite(pre, store.current, store.destinations);
    QuietNames(1);
    first := store.ApplyAlertEvaluation(QuietWrite(1), ENVIRONMENT);
    FirstCommitted(pre, store.State(), store.destinations, first);
  }

  lemma StateParts(store: Store)
    ensures store.State() == Tables(store.revisions, store.cursors, store.ledger, store.log)
  {
  }

  lemma QuietNames(version: int)
    ensures QuietWrite(version).ruleID == ID && QuietWrite(version).version == version && ENVIRONMENT.fenceHolds && ENVIRONMENT.nowMS == 0
  {
  }

  /** The first revision keeps its rows through an edit. */
  lemma RowsStay(before: map<Key, Revision>, after: map<Key, Revision>, version: int, r: Revision)
    requires version >= 1 && Key(ID, 1) in before && Key(ID, version) in after && Key(ID, 1) in after
    requires after == before[Key(ID, version) := after[Key(ID, version)]][Key(ID, version + 1) := r]
    requires Key(ID, version) in before && |after[Key(ID, version)].insts| == |before[Key(ID, version)].insts|
    requires after[Key(ID, version)].spec == before[Key(ID, version)].spec
    requires before[Key(ID, 1)].spec == SpecOf(MONITOR, ID, 1) && before[Key(ID, 1)].insts != []
    ensures after[Key(ID, 1)].spec == SpecOf(MONITOR, ID, 1) && after[Key(ID, 1)].insts != []
    ensures HasRowsIn(before, ID, MONITOR.scope)
  {
  }

  /** Saving the rule again with only the switch changed. */
  method Switch(store: Store, version: int, enabled: bool)
    requires store.Valid() && version >= 1 && ID in store.current && store.current[ID] == version
    requires Key(ID, 1) in store.revisions && store.revisions[Key(ID, 1)].insts != []
    requires store.revisions[Key(ID, 1)].spec == SpecOf(MONITOR, ID, 1)
    modifies store
    ensures store.Valid() && store.cursors == old(store.cursors) && store.ledger == old(store.ledger)
    ensures ID in store.current && store.current[ID] == version + 1
    ensures Key(ID, 1) in store.revisions && store.revisions[Key(ID, 1)].insts != []
    ensures store.revisions[Key(ID, 1)].spec == SpecOf(MONITOR, ID, 1)
    ensures
      var k := Key(ID, version + 1);
      && k in store.revisions && store.revisions[k] == Revision(SpecOf(MONITOR, ID, version + 1), enabled, [])
      && Blocked(store.revisions, k)
  {
    hide *;
    Constants(version + 1);
    var edited := store.UpdateRule(ID, version, MONITOR, enabled, true, ZEROS, 0);
    RowsStay(old(store.revisions), store.revisions, version, store.revisions[Key(ID, version + 1)]);
  }

  /** The defect shown: a monitor rule that was evaluated once and then switched off and on again, with
      nothing else changed, is refused its next evaluation by the unique index. */
  method EditStopsTheRule() returns (first: Applied, last: Applied)
    ensures first.Accepted? && !first.duplicate && last == Rejected(Constraint)
  {
    hide *;
    Constants(3);
    var store;
    store, first := CreateAndEvaluate();
    StateParts(store);
    Switch(store, 1, false);
    Switch(store, 2, true);
    QuietNames(3);
    BlockedQuietWrite(store.current, store.revisions, store.cursors, store.ledger, store.destinations);
    last := store.ApplyAlertEvaluation(QuietWrite(3), ENVIRONMENT);
  }

  lemma BlockedQuietWrite(current: map<string, int>, revisions: map<Key, Revision>, cursors: map<string, Cursor>,
                          ledger: Capacity.Ledger, dests: seq<Outbox.Destination>)
    requires ID in current && current[ID] == 3 && ID in cursors && cursors[ID].version == 1 && HasRoom(ledger)
    requires Key(ID, 3) in revisions && revisions[Key(ID, 3)] == Revision(SpecOf(MONITOR, ID, 3), true, [])
    ensures Addressed(current, revisions, QuietWrite(3), ENVIRONMENT) && InOrder(cursors, QuietWrite(3))
    ensures Admissible(revisions, ledger, QuietWrite(3), Rules.Evaluate(revisions[Key(ID, 3)].spec, QuietWrite(3).input).decision,
                       ENVIRONMENT)
  {
    QuietIsAddressed(current, revisions, 3);
    QuietIsAdmissible(revisions, cursors, ledger, dests, 3);
    hide Rules.Evaluate, Admissible, Addressed, HasRoom, SpecOf;
  }
}
