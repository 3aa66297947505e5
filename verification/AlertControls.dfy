/** Operator controls on one incident: acknowledge, mute and unmute. */
module AlertControls {
  import opened Wrappers
  import opened AlertTypes
  import opened AlertInstances
  import opened AlertTables
  import Outbox = AlertOutbox

  const MUTE_MAXIMUM_MS := 86_400_000
  const RECEIPT_LIFETIME_MS := 86_400_000

  datatype Control = Acknowledge(observedSeq: int) | Mute(expiresMS: int) | Unmute

  /** The action name kept in a receipt; the digest of the request covers the arguments. */
  datatype Action = AcknowledgeAction | MuteAction | UnmuteAction

  function ActionOf(c: Control): Action {
    match c
    case Acknowledge(_) => AcknowledgeAction
    case Mute(_) => MuteAction
    case Unmute => UnmuteAction
  }

  /** A receipt of one kind of control never answers for another kind. */
  lemma ActionTells(c: Control, d: Control)
    ensures ActionOf(c) == ActionOf(d) <==>
      (c.Acknowledge? && d.Acknowledge?) || (c.Mute? && d.Mute?) || (c.Unmute? && d.Unmute?)
  {
  }

  datatype Request = Request(user: string, idempotencyKey: string, hash: string, admin: bool)

  /** The row after a control, and whether a delivery is under way. */
  datatype ControlResult = ControlResult(snapshot: Snapshot, inFlight: bool)

  datatype Receipt = Receipt(hash: string, action: Action, key: Key, index: nat, result: ControlResult, expiresMS: int)

  datatype Controlled = Done(result: ControlResult, replayed: bool) | Denied(failure: Failure)

  predicate InFlight(rows: seq<Outbox.Intent>) {
    exists i :: 0 <= i < |rows| && rows[i].state == Outbox.Leased
  }

  function ConditionOf(s: State): Outbox.Condition {
    if Terminal(s) then Outbox.TerminalCondition
    else if s == Firing || s == Recovering then Outbox.LiveFiring
    else Outbox.LiveOther
  }

  /** What the operator may ask of a row. */
  predicate Permits(c: Control, s: Snapshot, nowMS: int) {
    match c
    case Acknowledge(observed) => s.transitionSeq == observed && s.ackMS.None?
    case Mute(expires) => nowMS < expires <= nowMS + 86_400_000 && !Terminal(s.state)
    case Unmute => s.mutedUntilMS.Some?
  }

  /** The row a control leaves: one operator column changes and nothing else. */
  function RowAfter(c: Control, s: Snapshot, user: string, nowMS: int): Snapshot {
    match c
    case Acknowledge(_) => s.(ackBy := Some(user), ackMS := Some(nowMS))
    case Mute(expires) => s.(mutedUntilMS := Some(expires))
    case Unmute => s.(mutedUntilMS := None)
  }

  function EventOf(c: Control, index: nat, user: string, nowMS: int): Event {
    match c
    case Acknowledge(_) => Acknowledged(index, user, nowMS)
    case Mute(expires) => MuteChanged(index, Some(expires))
    case Unmute => MuteChanged(index, None)
  }

  /** The outbox after an unmute: nothing is muted, what still belongs to the current sequence and to an
      enabled current destination is pending again, and while the alert fires every enabled destination
      is served for the current sequence. */
  predicate Unmuted(before: seq<Outbox.Intent>, after: seq<Outbox.Intent>, dests: seq<Outbox.Destination>, s: Snapshot, controlKey: string) {
    && Outbox.Extends(before, after)
    && Outbox.NoneIn(after, {Outbox.Muted})
    && (s.state in {Firing, Recovering} ==>
          forall d :: 0 <= d < |dests| && dests[d].enabled ==>
            exists i :: 0 <= i < |after| && after[i].destination == dests[d].id && after[i].revision == dests[d].revision
                        && after[i].sequence == s.transitionSeq && after[i].state in {Outbox.Pending, Outbox.Leased})
    && (forall i :: 0 <= i < |before| && before[i].state != Outbox.Muted ==> after[i] == before[i])
    && (forall i :: 0 <= i < |before| && before[i].state == Outbox.Muted ==>
          after[i].state ==
            if !Terminal(s.state) && before[i].sequence == s.transitionSeq
               && exists d :: 0 <= d < |dests| && dests[d].enabled && dests[d].id == before[i].destination
                              && dests[d].revision == before[i].revision
            then Outbox.Pending else Outbox.Superseded)
    && (s.state !in {Firing, Recovering} ==> |after| == |before|)
    && (forall i :: |before| <= i < |after| ==>
          Outbox.IsSummaryOfSome(before, after[i], dests, |dests|, s.transitionSeq, controlKey))
  }

  /** The outbox after a control. */
  predicate OutboxAfter(c: Control, before: seq<Outbox.Intent>, after: seq<Outbox.Intent>, dests: seq<Outbox.Destination>,
                        s: Snapshot, controlKey: string) {
    match c
    case Acknowledge(_) => after == before
    case Mute(_) => after == Outbox.MuteRows(before)
    case Unmute => Unmuted(before, after, dests, s, controlKey)
  }

  /** After a mute no intent is pending or failed, and what was in flight, sent or ended is untouched. */
  lemma MuteSilences(rows: seq<Outbox.Intent>)
    ensures
      var r := Outbox.MuteRows(rows);
      && Outbox.Extends(rows, r) && Outbox.NoneIn(r, {Outbox.Pending, Outbox.Failed})
      && (forall i :: 0 <= i < |rows| && rows[i].state !in {Outbox.Pending, Outbox.Failed} ==> r[i] == rows[i])
      && (forall i :: 0 <= i < |rows| ==> (r[i].state == Outbox.Muted <==> rows[i].state in {Outbox.Pending, Outbox.Failed, Outbox.Muted}))
  {
  }

  /** A control leaves only the operator's columns, the incident and the intents already sent as they were. */
  ghost predicate Changes(c: Control, before: Instance, next: Instance, user: string, controlKey: string, nowMS: int,
                          dests: seq<Outbox.Destination>) {
    && Permits(c, before.lineage.snapshot, nowMS)
    && next == Instance(before.lineage.(snapshot := RowAfter(c, before.lineage.snapshot, user, nowMS)), before.incidents, next.outbox)
    && OutboxAfter(c, before.outbox, next.outbox, dests, before.lineage.snapshot, controlKey)
  }

  lemma LeasedStay(before: seq<Outbox.Intent>, after: seq<Outbox.Intent>)
    requires |before| <= |after|
    requires forall i :: 0 <= i < |before| ==> (after[i].state == Outbox.Leased <==> before[i].state == Outbox.Leased)
    requires forall i :: |before| <= i < |after| ==> after[i].state != Outbox.Leased
    ensures InFlight(after) == InFlight(before)
  {
    if InFlight(before) {
      var i :| 0 <= i < |before| && before[i].state == Outbox.Leased;
      assert after[i].state == Outbox.Leased;
    }
  }

  /** A control is one event of the fold and keeps everything that holds of a revision. */
  lemma ChangesKeepRevision(c: Control, spec: Spec, insts: seq<Instance>, events: seq<Event>, i: nat, next: Instance,
                            user: string, controlKey: string, nowMS: int, dests: seq<Outbox.Destination>)
    requires RevisionOK(spec, insts, events) && i < |insts| && InRange(nowMS) && InRange(nowMS + MUTE_MAXIMUM_MS)
    requires Changes(c, insts[i], next, user, controlKey, nowMS, dests)
    ensures RevisionOK(spec, insts[i := next], events + [EventOf(c, i, user, nowMS)])
  {
    assert InstanceOK(spec, insts[i]);
    hide RevisionOK;
    forall j | 0 <= j < |next.outbox| && next.outbox[j].key.TransitionKey?
      ensures next.outbox[j].key.sequence <= insts[i].lineage.snapshot.transitionSeq
    {
      if j < |insts[i].outbox| {
        assert next.outbox[j].key == insts[i].outbox[j].key;
      }
    }
    ControlKeepsRevision(spec, insts, events, i, EventOf(c, i, user, nowMS), next.lineage.snapshot, next.outbox);
  }

  /** The three mutations on the rows of one instance. */
  method Mutate(c: Control, before: Instance, user: string, controlKey: string, nowMS: int, dests: seq<Outbox.Destination>)
    returns (next: Option<Instance>, failure: Failure)
    requires Outbox.UniqueIDs(dests)
    ensures next.Some? ==> Changes(c, before, next.value, user, controlKey, nowMS, dests)
    ensures next.Some? ==> InFlight(next.value.outbox) == InFlight(before.outbox)
    ensures !Permits(c, before.lineage.snapshot, nowMS) ==> next.None?
    ensures Permits(c, before.lineage.snapshot, nowMS) && next.None? ==>
      c.Unmute? && before.lineage.snapshot.state in {Firing, Recovering} && failure == DestinationLimit
  {
    var s := before.lineage.snapshot;
    next, failure := None, CursorConflict;
    match c {
      case Acknowledge(observed) =>
        if s.transitionSeq != observed || s.ackMS.Some? {
          return;
        }
        next := Some(before.(lineage := before.lineage.(snapshot := s.(ackBy := Some(user), ackMS := Some(nowMS)))));
      case Mute(expires) =>
        if expires <= nowMS || expires > nowMS + MUTE_MAXIMUM_MS || s.state == Resolved || s.state == Superseded {
          return None, Invalid;
        }
        var outbox := Outbox.MuteRows(before.outbox);
        MuteSilences(before.outbox);
        LeasedStay(before.outbox, outbox);
        next := Some(before.(lineage := before.lineage.(snapshot := s.(mutedUntilMS := Some(expires))), outbox := outbox));
      case Unmute =>
        if s.mutedUntilMS.None? {
          return;
        }
        var outbox := Outbox.UnmuteRows(before.outbox, dests, s.transitionSeq, ConditionOf(s.state), controlKey);
        if outbox.None? {
          return None, DestinationLimit;
        }
        LeasedStay(before.outbox, outbox.value);
        next := Some(before.(lineage := before.lineage.(snapshot := s.(mutedUntilMS := None)), outbox := outbox.value));
    }
  }
}
