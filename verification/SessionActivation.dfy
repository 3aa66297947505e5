/** Activation of the collector session a recovery apply replays under: a durable receipt, the pairing's
    pending request and the hub's session table, with a crash possible before every durable step. */
module SessionActivation {
  import opened Wrappers

  /** The apply's receipt; session 0 means none yet. */
  datatype Receipt = Receipt(bootID: string, previousSession: int, session: int)

  /** The activation request the pairing keeps until it is completed. */
  datatype Activation = Activation(requestID: string, bootID: string, expectedPrevious: int)

  datatype HubSession = HubSession(bootID: string, predecessor: int, generation: int)

  datatype Outcome = Done(session: int) | Cut | Ambiguous | Conflict

  /** The highest generation in the hub's table. */
  ghost predicate IsHighest(sessions: map<string, HubSession>, highest: int) {
    && highest >= 0 && forall id :: id in sessions ==> 0 < sessions[id].generation <= highest
  }

  class Session {
    var receipt: Receipt
    var pending: Option<Activation>
    var previousSession: int
    var sessions: map<string, HubSession>
    var highest: int
    var current: int
    var budget: nat

    /** The hub has carried out the pending request. */
    ghost predicate Carried()
      reads `pending, `sessions, `current
    {
      && pending.Some? && pending.value.requestID in sessions
      && sessions[pending.value.requestID] == HubSession(pending.value.bootID, pending.value.expectedPrevious, current)
      && current > pending.value.expectedPrevious
    }

    ghost predicate Valid()
      reads `receipt, `pending, `previousSession, `sessions, `highest, `current
    {
      && IsHighest(sessions, highest) && 0 <= current <= highest && receipt.previousSession >= 0 && receipt.session >= 0
      && match pending
         case None =>
           current == previousSession && (if receipt.session == 0 then previousSession == receipt.previousSession
                                          else previousSession == receipt.session)
         case Some(p) =>
           && p.expectedPrevious == previousSession == receipt.previousSession
           && (if receipt.session == 0 then Carried() || (current == previousSession && p.requestID !in sessions)
               else Carried() && receipt.session == current)
    }

    /** The pending request was made for another collector boot. */
    predicate Foreign()
      reads `pending, `receipt
    {
      pending.Some? && pending.value.bootID != receipt.bootID
    }

    /** A new receipt beside a pairing and a hub that agree: nothing is pending and the hub is at the pairing's
        session, or a request is pending that the hub has carried out or not seen. */
    constructor (bootID: string, previousSession: int, pending: Option<Activation>, sessions: map<string, HubSession>,
                 highest: int, current: int)
      requires IsHighest(sessions, highest) && 0 <= current <= highest && previousSession >= 0
      requires pending.None? ==> current == previousSession
      requires pending.Some? ==>
        var p := pending.value;
        && p.expectedPrevious == previousSession
        && (if p.requestID in sessions
            then sessions[p.requestID] == HubSession(p.bootID, previousSession, current) && current > previousSession
            else current == previousSession)
      ensures Valid() && receipt == Receipt(bootID, previousSession, 0) && this.pending == pending && this.sessions == sessions
    {
      receipt, this.previousSession, this.pending := Receipt(bootID, previousSession, 0), previousSession, pending;
      this.sessions, this.highest, this.current, budget := sessions, highest, current, 0;
    }

    method Step() returns (alive: bool)
      modifies `budget
      ensures alive <==> old(budget) > 0
      ensures budget == if alive then old(budget) - 1 else 0
    {
      alive := budget > 0;
      if alive {
        budget := budget - 1;
      }
    }

    /** ActivateCollectorSession on the hub: a known request gets its own session again while that is current,
        a new one a fresh generation above every earlier one, if it expects the current session. */
    method HubActivate(a: Activation) returns (session: Option<int>)
      requires IsHighest(sessions, highest) && current <= highest
      modifies `sessions, `highest, `current
      ensures IsHighest(sessions, highest) && current <= highest
      ensures session.None? ==> sessions == old(sessions) && current == old(current) && highest == old(highest)
      ensures a.requestID in old(sessions) ==> sessions == old(sessions) && current == old(current) && highest == old(highest)
      ensures a.requestID in old(sessions) ==>
        session == if old(sessions)[a.requestID] == HubSession(a.bootID, a.expectedPrevious, old(current)) then Some(current) else None
      ensures a.requestID !in old(sessions) ==> (session.Some? <==> old(current) == a.expectedPrevious)
      ensures a.requestID !in old(sessions) && session.Some? ==>
        && session == Some(current) && current == old(highest) + 1
        && sessions == old(sessions)[a.requestID := HubSession(a.bootID, a.expectedPrevious, current)]
    {
      if a.requestID in sessions {
        var existing := sessions[a.requestID];
        if existing.bootID != a.bootID || existing.predecessor != a.expectedPrevious || existing.generation != current {
          return None;
        }
        return Some(existing.generation);
      }
      if current != a.expectedPrevious {
        return None;
      }
      var next := highest + 1;
      sessions := sessions[a.requestID := HubSession(a.bootID, current, next)];
      highest, current := next, next;
      return Some(next);
    }

    /** The session has been allocated, whether or not the receipt knows it yet. */
    ghost predicate Allocated()
      reads `receipt, `pending, `sessions, `current
    {
      receipt.session > 0 || Carried()
    }

    /** The request the pairing already keeps, or a new one for the receipt's boot. */
    method PrepareActivation(freshID: string) returns (alive: bool)
      requires Valid() && freshID !in sessions && receipt.session == 0
      modifies `pending, `budget
      ensures Valid() && Foreign() == old(Foreign()) && Allocated() == old(Allocated())
      ensures old(pending).Some? ==> alive && pending == old(pending) && budget == old(budget)
      ensures old(pending).None? ==>
        && alive == (old(budget) > 0) && budget == (if alive then old(budget) - 1 else 0)
        && pending == if alive then Some(Activation(freshID, receipt.bootID, previousSession)) else None
    {
      if pending.Some? {
        return true;
      }
      alive := Step();
      if alive {
        pending := Some(Activation(freshID, receipt.bootID, previousSession));
      }
    }

    /** Have the hub activate the pending request, and keep its session in the receipt. */
    method Allocate() returns (o: Outcome)
      requires Valid() && receipt.session == 0 && pending.Some?
      modifies `receipt, `sessions, `highest, `current, `budget
      ensures Valid() && Foreign() == old(Foreign()) && budget <= old(budget)
      ensures receipt == old(receipt).(session := receipt.session)
      ensures o.Done? || o.Cut?
      ensures o.Cut? ==> budget == 0 && old(budget) < 2 && receipt == old(receipt)
      ensures o.Done? ==> receipt.session > 0 && old(budget) == budget + 2
      ensures sessions.Keys <= old(sessions.Keys) + {pending.value.requestID}
      ensures if old(Allocated()) then sessions == old(sessions) && Allocated()
              else sessions == old(sessions) || (|sessions| == |old(sessions)| + 1 && Allocated())
    {
      var alive := Step();
      if !alive {
        return Cut;
      }
      var result := HubActivate(pending.value);
      if result.None? {
        return Conflict;
      }
      alive := Step();
      if !alive {
        return Cut;
      }
      receipt := receipt.(session := result.value);
      return Done(receipt.session);
    }

    /** Clear the pairing's pending request with the receipt's session. */
    method Complete() returns (o: Outcome)
      requires Valid() && receipt.session > 0
      modifies `pending, `previousSession, `budget
      ensures Valid() && Foreign() == old(Foreign()) && budget <= old(budget)
      ensures o.Done? ==> pending.None? && o.session == receipt.session == previousSession == current
      ensures o.Done? ==> !Foreign() && old(budget) <= budget + 1
      ensures o.Cut? ==> budget == 0 && old(budget) < 1 && pending == old(pending)
      ensures if old(Foreign()) then o == Ambiguous && pending == old(pending) && previousSession == old(previousSession)
              else o.Done? || o.Cut?
      ensures old(pending).None? ==> o.Done? && budget == old(budget)
      ensures o.Done? && old(pending).Some? ==>
        old(sessions[pending.value.requestID]) == HubSession(receipt.bootID, receipt.previousSession, o.session)
    {
      if pending.Some? {
        if pending.value.bootID != receipt.bootID || receipt.session <= pending.value.expectedPrevious {
          return Ambiguous;
        }
        var alive := Step();
        if !alive {
          return Cut;
        }
        pending, previousSession := None, receipt.session;
      } else if previousSession != receipt.session {
        return Ambiguous;
      }
      return Done(receipt.session);
    }

    /** Allocation, for a receipt that has no session yet. */
    method Obtain(freshID: string) returns (o: Outcome)
      requires Valid() && freshID !in sessions && receipt.session == 0
      modifies `receipt, `pending, `sessions, `highest, `current, `budget
      ensures Valid() && Foreign() == old(Foreign()) && budget <= old(budget)
      ensures receipt == old(receipt).(session := receipt.session) && (o.Done? || o.Cut?)
      ensures o.Cut? ==> budget == 0 && old(budget) < 3 && receipt == old(receipt)
      ensures o.Done? ==>
        receipt.session > 0 && old(budget) <= budget + 3 && pending.Some? && pending.value.requestID in sessions
      ensures if old(Allocated()) then sessions == old(sessions) && Allocated()
              else sessions == old(sessions) || (|sessions| == |old(sessions)| + 1 && Allocated())
      ensures pending.Some? ==> pending == old(pending) || pending.value.requestID == freshID
      ensures forall id :: id in sessions ==>
        id in old(sessions) || id == freshID || (old(pending).Some? && id == old(pending).value.requestID)
    {
      hide Valid, Carried, IsHighest, Foreign, Allocated;
      if pending.None? && previousSession != receipt.previousSession {
        NotAmbiguous();
        return Ambiguous;
      }
      var alive := PrepareActivation(freshID);
      if !alive {
        return Cut;
      }
      o := Allocate();
      if o.Done? {
        CarriedOut();
      }
    }

    /** The activation part of the apply command. Without a foreign pending request it is never refused, needs
        four durable steps at most and allocates one session, under the receipt's boot; with one it never ends
        well, however often it is repeated. */
    method Activate(freshID: string) returns (o: Outcome)
      requires Valid() && freshID !in sessions
      modifies `receipt, `pending, `previousSession, `sessions, `highest, `current, `budget
      ensures Valid() && budget <= old(budget)
      ensures receipt == old(receipt).(session := receipt.session) && receipt.session >= old(receipt).session
      ensures o.Cut? ==> budget == 0 && old(budget) < 4
      ensures Foreign() == old(Foreign())
      // exactly when it can end well
      ensures if old(Foreign()) then o == Ambiguous || o.Cut? else o.Done? || o.Cut?
      // one session, whatever is repeated
      ensures if old(Allocated()) then sessions == old(sessions) && Allocated()
              else sessions == old(sessions) || (|sessions| == |old(sessions)| + 1 && Allocated())
      ensures o.Done? ==> pending.None? && receipt.session == o.session == previousSession == current > 0
      ensures o.Done? && old(receipt).session == 0 ==>
        exists id :: id in sessions && sessions[id] == HubSession(receipt.bootID, receipt.previousSession, o.session)
      // later runs only ever reuse the request
      ensures old(receipt.session > 0 && pending.None?) ==> o.Done?
      ensures pending.Some? ==> pending == old(pending) || pending.value.requestID == freshID
      ensures forall id :: id in sessions ==>
        id in old(sessions) || id == freshID || (old(pending).Some? && id == old(pending).value.requestID)
    {
      assert receipt.session >= 0;
      hide Valid, Carried, IsHighest;
      if receipt.session == 0 {
        o := Obtain(freshID);
        if !o.Done? {
          return;
        }
      }
      o := Complete();
    }

    lemma NotAmbiguous()
      requires Valid() && receipt.session == 0 && pending.None?
      ensures previousSession == receipt.previousSession
    {
    }

    lemma CarriedOut()
      requires Valid() && receipt.session > 0 && pending.Some?
      ensures pending.value.requestID in sessions
    {
    }

    /** Any crashes and retries: the session is allocated once, and the apply goes on as soon as one run has
        four steps, exactly if no request for another boot was pending when the receipt was made. */
    method ActivateRepeatedly(freshIDs: seq<string>, budgets: seq<nat>) returns (done: bool)
      requires Valid() && receipt.session == 0 && |freshIDs| == |budgets|
      requires forall i :: 0 <= i < |freshIDs| ==> freshIDs[i] !in sessions
      requires forall i, j :: 0 <= i < j < |freshIDs| ==> freshIDs[i] != freshIDs[j]
      requires pending.Some? ==> pending.value.requestID !in freshIDs
      modifies `receipt, `pending, `previousSession, `sessions, `highest, `current, `budget
      ensures Valid() && |sessions| <= |old(sessions)| + 1
      ensures done ==> pending.None? && receipt.session == previousSession == current > 0
      ensures old(Foreign()) ==> !done
      ensures !old(Foreign()) && (exists i :: 0 <= i < |budgets| && budgets[i] >= 4) ==> done
    {
      hide Valid, Carried, Allocated, IsHighest;
      done := false;
      for i := 0 to |freshIDs|
        invariant Valid() && Foreign() == old(Foreign())
        invariant sessions == old(sessions) || (|sessions| == |old(sessions)| + 1 && Allocated())
        invariant forall k :: i <= k < |freshIDs| ==> freshIDs[k] !in sessions
        invariant pending.Some? ==> forall k :: i <= k < |freshIDs| ==> freshIDs[k] != pending.value.requestID
        invariant done ==> pending.None? && receipt.session == previousSession == current > 0
        invariant done ==> !old(Foreign())
        invariant !done && !old(Foreign()) ==> forall k :: 0 <= k < i ==> budgets[k] < 4
      {
        budget := budgets[i];
        var o := Activate(freshIDs[i]);
        if o.Done? {
          done := true;
        }
      }
    }
  }
}
