/** Notification intents of one alert instance. Each SQL update is a function on the instance's rows. */
module AlertOutbox {
  import opened Wrappers

  const DESTINATION_LIMIT := 16

  datatype IntentState = Pending | Leased | Sent | Failed | Expired | Superseded | Muted

  /** The hashed idempotency keys, taken as injective in what they are computed from. */
  datatype Key =
    | TransitionKey(sequence: int, destination: string, revision: int)
    | SummaryKey(controlKey: string, destination: string)

  datatype Intent = Intent(sequence: int, destination: string, revision: int, key: Key, state: IntentState)

  datatype Destination = Destination(id: string, revision: int, enabled: bool)

  /** The SQL "update ... set state" over every row in one of the given states. */
  function MoveAll(rows: seq<Intent>, from: set<IntentState>, to: IntentState): (r: seq<Intent>)
    ensures |r| == |rows|
    ensures forall i :: 0 <= i < |rows| ==> r[i] == if rows[i].state in from then rows[i].(state := to) else rows[i]
  {
    if rows == [] then []
    else [if rows[0].state in from then rows[0].(state := to) else rows[0]] + MoveAll(rows[1..], from, to)
  }

  predicate NoneIn(rows: seq<Intent>, states: set<IntentState>) {
    forall i :: 0 <= i < |rows| ==> rows[i].state !in states
  }

  predicate IsCurrent(dests: seq<Destination>, id: string, revision: int) {
    exists d :: 0 <= d < |dests| && dests[d].id == id && dests[d].revision == revision && dests[d].enabled
  }

  /** Destination identifiers are the primary key. */
  predicate UniqueIDs(dests: seq<Destination>) {
    forall i, j :: 0 <= i < j < |dests| ==> dests[i].id != dests[j].id
  }

  function EnabledCount(dests: seq<Destination>): nat {
    if dests == [] then 0 else (if dests[0].enabled then 1 else 0) + EnabledCount(dests[1..])
  }

  predicate HasKey(rows: seq<Intent>, key: Key) {
    exists i :: 0 <= i < |rows| && rows[i].key == key
  }

  /** The rows differ at most in state, and more may follow. */
  predicate Extends(before: seq<Intent>, after: seq<Intent>) {
    |before| <= |after|
    && forall i :: 0 <= i < |before| ==> after[i].(state := before[i].state) == before[i]
  }

  /** One intent of the sequence for every enabled destination, appended in order. */
  function NewIntents(dests: seq<Destination>, sequence: int, state: IntentState): seq<Intent> {
    if dests == [] then []
    else
      (if dests[0].enabled
       then [Intent(sequence, dests[0].id, dests[0].revision, TransitionKey(sequence, dests[0].id, dests[0].revision), state)]
       else [])
      + NewIntents(dests[1..], sequence, state)
  }

  predicate HasIntent(rows: seq<Intent>, d: Destination, sequence: int, states: set<IntentState>) {
    exists i :: 0 <= i < |rows| && rows[i].sequence == sequence && rows[i].destination == d.id
      && rows[i].revision == d.revision && rows[i].state in states
  }

  /** createAlertOutboxTx: refused over the destination limit or on a key already used. */
  function CreateIntents(rows: seq<Intent>, dests: seq<Destination>, sequence: int, muted: bool): Option<seq<Intent>> {
    if EnabledCount(dests) > DESTINATION_LIMIT then None
    else if exists i :: 0 <= i < |rows| && rows[i].key.TransitionKey? && rows[i].key.sequence == sequence then None
    else Some(rows + NewIntents(dests, sequence, if muted then Muted else Pending))
  }

  lemma HasIntentOfAppend(a: seq<Intent>, b: seq<Intent>, d: Destination, sequence: int, states: set<IntentState>)
    ensures HasIntent(a + b, d, sequence, states) <==>
            HasIntent(a, d, sequence, states) || HasIntent(b, d, sequence, states)
  {
    var ab := a + b;
    assert forall i :: 0 <= i < |a| ==> ab[i] == a[i];
    assert forall i :: 0 <= i < |b| ==> ab[i + |a|] == b[i];
    if HasIntent(ab, d, sequence, states) {
      var i :| 0 <= i < |ab| && ab[i].sequence == sequence && ab[i].destination == d.id
               && ab[i].revision == d.revision && ab[i].state in states;
      assert if i < |a| then ab[i] == a[i] else ab[i] == b[i - |a|];
    }
  }

  lemma {:induction false} NewIntentsSound(dests: seq<Destination>, sequence: int, state: IntentState)
    ensures |NewIntents(dests, sequence, state)| == EnabledCount(dests)
    ensures forall i :: 0 <= i < |NewIntents(dests, sequence, state)| ==>
      var r := NewIntents(dests, sequence, state)[i];
      && r == Intent(sequence, r.destination, r.revision, TransitionKey(sequence, r.destination, r.revision), state)
      && IsCurrent(dests, r.destination, r.revision)
  {
    if dests != [] {
      var rest := NewIntents(dests[1..], sequence, state);
      var all := NewIntents(dests, sequence, state);
      NewIntentsSound(dests[1..], sequence, state);
      forall i | 0 <= i < |all| ensures IsCurrent(dests, all[i].destination, all[i].revision) {
        if i >= |all| - |rest| {
          var r := rest[i - (|all| - |rest|)];
          assert all[i] == r && IsCurrent(dests[1..], r.destination, r.revision);
          var d :| 0 <= d < |dests[1..]| && dests[1..][d].id == r.destination
                   && dests[1..][d].revision == r.revision && dests[1..][d].enabled;
          assert dests[d + 1] == dests[1..][d];
        }
      }
    }
  }

  lemma {:induction false} NewIntentsComplete(dests: seq<Destination>, sequence: int, state: IntentState, d: nat)
    requires d < |dests| && dests[d].enabled
    ensures HasIntent(NewIntents(dests, sequence, state), dests[d], sequence, {state})
  {
    var rest := NewIntents(dests[1..], sequence, state);
    var head := if dests[0].enabled
                then [Intent(sequence, dests[0].id, dests[0].revision,
                             TransitionKey(sequence, dests[0].id, dests[0].revision), state)] else [];
    HasIntentOfAppend(head, rest, dests[d], sequence, {state});
    if d == 0 {
      assert head[0].destination == dests[0].id;
    } else {
      NewIntentsComplete(dests[1..], sequence, state, d - 1);
    }
  }

  lemma {:induction false} NewIntentsDistinct(dests: seq<Destination>, sequence: int, state: IntentState)
    requires UniqueIDs(dests)
    ensures forall i, j :: 0 <= i < j < |NewIntents(dests, sequence, state)| ==>
      NewIntents(dests, sequence, state)[i].destination != NewIntents(dests, sequence, state)[j].destination
  {
    if dests != [] {
      var rest := NewIntents(dests[1..], sequence, state);
      var all := NewIntents(dests, sequence, state);
      NewIntentsDistinct(dests[1..], sequence, state);
      NewIntentsSound(dests[1..], sequence, state);
      if dests[0].enabled {
        assert all[1..] == rest;
        forall j | 0 <= j < |rest| ensures rest[j].destination != dests[0].id {
          assert IsCurrent(dests[1..], rest[j].destination, rest[j].revision);
        }
        assert forall j :: 1 <= j < |all| ==> all[j] == rest[j - 1];
      }
    }
  }

  // ----- resolve -----

  /** The outbox part of a resolution: earlier open intents are superseded, then the new ones added. */
  function ResolveRows(rows: seq<Intent>, dests: seq<Destination>, sequence: int, muted: bool): Option<seq<Intent>> {
    CreateIntents(MoveAll(rows, {Pending, Failed, Muted}, Superseded), dests, sequence, muted)
  }

  /** After a resolution no earlier intent is pending, failed or muted, and every enabled
      destination has exactly one new intent. */
  lemma ResolveLeavesOneNewIntentEach(rows: seq<Intent>, dests: seq<Destination>, sequence: int, muted: bool)
    requires UniqueIDs(dests) && ResolveRows(rows, dests, sequence, muted).Some?
    ensures
      var r := ResolveRows(rows, dests, sequence, muted).value;
      && Extends(rows, r)
      && NoneIn(r[..|rows|], {Pending, Failed, Muted})
      && |r| - |rows| == EnabledCount(dests)
      && (forall d :: 0 <= d < |dests| && dests[d].enabled ==>
            HasIntent(r[|rows|..], dests[d], sequence, {if muted then Muted else Pending}))
      && (forall i, j :: |rows| <= i < j < |r| ==> r[i].destination != r[j].destination)
  {
    var state := if muted then Muted else Pending;
    NewIntentsSound(dests, sequence, state);
    NewIntentsDistinct(dests, sequence, state);
    forall d | 0 <= d < |dests| && dests[d].enabled
      ensures HasIntent(NewIntents(dests, sequence, state), dests[d], sequence, {state})
    {
      NewIntentsComplete(dests, sequence, state, d);
    }
    var moved := MoveAll(rows, {Pending, Failed, Muted}, Superseded);
    var r := ResolveRows(rows, dests, sequence, muted).value;
    assert r[..|rows|] == moved;
    assert r[|rows|..] == NewIntents(dests, sequence, state);
  }

  // ----- mute and unmute -----

  function MuteRows(rows: seq<Intent>): seq<Intent> {
    MoveAll(rows, {Pending, Failed}, Muted)
  }

  /** On a terminal instance nothing may be delivered any more. */
  function UnmuteTerminalRows(rows: seq<Intent>): seq<Intent> {
    MoveAll(rows, {Muted}, Superseded)
  }

  /** Muted intents of an older sequence or of a stale destination are superseded. */
  function DropStale(rows: seq<Intent>, dests: seq<Destination>, sequence: int): (r: seq<Intent>)
    ensures |r| == |rows|
    ensures forall i :: 0 <= i < |rows| ==>
      r[i] == if rows[i].state == Muted
                 && (rows[i].sequence != sequence || !IsCurrent(dests, rows[i].destination, rows[i].revision))
              then rows[i].(state := Superseded) else rows[i]
  {
    if rows == [] then []
    else
      var row := rows[0];
      [if row.state == Muted && (row.sequence != sequence || !IsCurrent(dests, row.destination, row.revision))
       then row.(state := Superseded) else row]
      + DropStale(rows[1..], dests, sequence)
  }

  /** The muted intents that are left become pending when they belong to the current sequence. */
  function Revive(rows: seq<Intent>, sequence: int): (r: seq<Intent>)
    ensures |r| == |rows|
    ensures forall i :: 0 <= i < |rows| ==>
      r[i] == if rows[i].state == Muted && rows[i].sequence == sequence then rows[i].(state := Pending) else rows[i]
  {
    if rows == [] then []
    else
      [if rows[0].state == Muted && rows[0].sequence == sequence then rows[0].(state := Pending) else rows[0]]
      + Revive(rows[1..], sequence)
  }

  /** The row a summary adds for an enabled destination that had no open intent. */
  predicate IsSummary(rows: seq<Intent>, row: Intent, d: Destination, sequence: int, controlKey: string) {
    && d.enabled && !HasIntent(rows, d, sequence, {Pending, Leased, Muted})
    && row == Intent(sequence, d.id, d.revision, SummaryKey(controlKey, d.id), Pending)
  }

  /** The row is the summary of one of the first n destinations. */
  predicate IsSummaryOfSome(rows: seq<Intent>, row: Intent, dests: seq<Destination>, n: nat, sequence: int, controlKey: string)
    requires n <= |dests|
  {
    exists d :: 0 <= d < n && IsSummary(rows, row, dests[d], sequence, controlKey)
  }

  /** createAlertCurrentSummaryTx: a pending intent for every enabled destination that has none
      pending, leased or muted; refused over the limit or when a summary key is already used. */
  method CurrentSummary(rows: seq<Intent>, dests: seq<Destination>, sequence: int, controlKey: string)
    returns (r: Option<seq<Intent>>)
    requires UniqueIDs(dests)
    ensures r.Some? ==> Extends(rows, r.value) && r.value[..|rows|] == rows
    ensures r.Some? ==> NoneIn(r.value[|rows|..], {Leased, Sent, Failed, Expired, Superseded, Muted})
    ensures r.Some? ==> forall i :: |rows| <= i < |r.value| ==>
      IsSummaryOfSome(rows, r.value[i], dests, |dests|, sequence, controlKey)
    ensures r.Some? ==>
      forall d :: 0 <= d < |dests| && dests[d].enabled ==> HasIntent(r.value, dests[d], sequence, {Pending, Leased, Muted})
    ensures r.None? <==>
      || EnabledCount(dests) > 16
      || exists d :: 0 <= d < |dests| && dests[d].enabled
           && !HasIntent(rows, dests[d], sequence, {Pending, Leased, Muted})
           && HasKey(rows, SummaryKey(controlKey, dests[d].id))
  {
    if EnabledCount(dests) > DESTINATION_LIMIT {
      return None;
    }
    var out := rows;
    for n := 0 to |dests|
      invariant |rows| <= |out| && out[..|rows|] == rows
      invariant AddedSoFar(rows, out, dests, n, sequence, controlKey)
      invariant forall d :: 0 <= d < n && dests[d].enabled ==>
        HasIntent(rows, dests[d], sequence, {Pending, Leased, Muted}) || !HasKey(rows, SummaryKey(controlKey, dests[d].id))
    {
      hide AddedSoFar, HasIntent, HasKey, UniqueIDs;
      var d := dests[n];
      SummaryIsOwn(rows, out, dests, n, sequence, controlKey);
      if d.enabled && !HasIntent(out, d, sequence, {Pending, Leased, Muted}) {
        var key := SummaryKey(controlKey, d.id);
        if HasKey(out, key) {
          return None;
        }
        AddingIsSummary(rows, out, dests, n, sequence, controlKey);
        out := out + [Intent(sequence, d.id, d.revision, key, Pending)];
      } else {
        ServedAlready(rows, out, dests, n, sequence, controlKey);
      }
    }
    return Some(out);
  }

  /** After the first n destinations: what was added is their summaries, and each of them is served. */
  ghost predicate AddedSoFar(rows: seq<Intent>, out: seq<Intent>, dests: seq<Destination>, n: nat, sequence: int, controlKey: string)
    requires n <= |dests|
  {
    && (forall i :: |rows| <= i < |out| ==> out[i].state == Pending && IsSummaryOfSome(rows, out[i], dests, n, sequence, controlKey))
    && (forall d :: 0 <= d < n && dests[d].enabled ==> HasIntent(out, dests[d], sequence, {Pending, Leased, Muted}))
  }

  lemma ServedAlready(rows: seq<Intent>, out: seq<Intent>, dests: seq<Destination>, n: nat, sequence: int, controlKey: string)
    requires n < |dests| && AddedSoFar(rows, out, dests, n, sequence, controlKey)
    requires dests[n].enabled ==> HasIntent(out, dests[n], sequence, {Pending, Leased, Muted})
    ensures AddedSoFar(rows, out, dests, n + 1, sequence, controlKey)
  {
    hide HasIntent;
  }

  lemma AddingIsSummary(rows: seq<Intent>, out: seq<Intent>, dests: seq<Destination>, n: nat, sequence: int, controlKey: string)
    requires n < |dests| && dests[n].enabled && |rows| <= |out| && AddedSoFar(rows, out, dests, n, sequence, controlKey)
    requires !HasIntent(rows, dests[n], sequence, {Pending, Leased, Muted})
    ensures
      var d := dests[n];
      AddedSoFar(rows, out + [Intent(sequence, d.id, d.revision, SummaryKey(controlKey, d.id), Pending)], dests, n + 1, sequence, controlKey)
  {
    var d := dests[n];
    var added := [Intent(sequence, d.id, d.revision, SummaryKey(controlKey, d.id), Pending)];
    assert added[0].destination == d.id && HasIntent(added, d, sequence, {Pending, Leased, Muted});
    hide HasIntent;
    forall e | 0 <= e <= n && dests[e].enabled ensures HasIntent(out + added, dests[e], sequence, {Pending, Leased, Muted}) {
      HasIntentOfAppend(out, added, dests[e], sequence, {Pending, Leased, Muted});
    }
    assert IsSummary(rows, added[0], dests[n], sequence, controlKey);
  }

  /** Rows added for other destinations neither serve nor block this one. */
  lemma SummaryIsOwn(rows: seq<Intent>, out: seq<Intent>, dests: seq<Destination>, n: nat, sequence: int, controlKey: string)
    requires UniqueIDs(dests) && n < |dests| && |rows| <= |out| && out[..|rows|] == rows
    requires AddedSoFar(rows, out, dests, n, sequence, controlKey)
    ensures forall states: set<IntentState> :: HasIntent(out, dests[n], sequence, states) <==> HasIntent(rows, dests[n], sequence, states)
    ensures HasKey(out, SummaryKey(controlKey, dests[n].id)) <==> HasKey(rows, SummaryKey(controlKey, dests[n].id))
  {
    assert forall i :: 0 <= i < |rows| ==> out[i] == rows[i];
  }

  datatype Condition = LiveFiring | LiveOther | TerminalCondition

  /** The outbox part of an unmute: afterwards nothing is muted, and while the alert fires every
      enabled destination has a pending or leased intent of the current sequence and revision. */
  method UnmuteRows(rows: seq<Intent>, dests: seq<Destination>, sequence: int, condition: Condition, controlKey: string)
    returns (r: Option<seq<Intent>>)
    requires UniqueIDs(dests)
    ensures r.Some? ==> Extends(rows, r.value) && NoneIn(r.value, {Muted})
    ensures r.Some? && condition == LiveFiring ==>
      forall d :: 0 <= d < |dests| && dests[d].enabled ==> HasIntent(r.value, dests[d], sequence, {Pending, Leased})
    ensures r.Some? ==>
      forall i :: 0 <= i < |rows| && rows[i].state != Muted ==> r.value[i] == rows[i]
    ensures r.Some? ==>
      forall i :: 0 <= i < |rows| && rows[i].state == Muted ==>
        r.value[i].state ==
          if condition != TerminalCondition && rows[i].sequence == sequence
             && IsCurrent(dests, rows[i].destination, rows[i].revision)
          then Pending else Superseded
    ensures condition != LiveFiring ==> r.Some? && |r.value| == |rows|
    ensures r.Some? ==> forall i :: |rows| <= i < |r.value| ==>
      IsSummaryOfSome(rows, r.value[i], dests, |dests|, sequence, controlKey)
  {
    hide HasIntent, IsCurrent, EnabledCount, HasKey, IsSummaryOfSome;
    TerminalRowsAre(rows);
    RevivedRowsAre(rows, dests, sequence);
    hide UnmuteTerminalRows, Revive, DropStale, NoneIn;
    if condition == TerminalCondition {
      return Some(UnmuteTerminalRows(rows));
    }
    var revived := Revive(DropStale(rows, dests, sequence), sequence);
    if condition != LiveFiring {
      return Some(revived);
    }
    r := CurrentSummary(revived, dests, sequence, controlKey);
    if r.Some? {
      UnmutedCovers(revived, r.value, dests, sequence);
      assert forall i :: 0 <= i < |rows| ==> r.value[i] == r.value[..|rows|][i];
      SummariesCarryOver(rows, revived, r.value, dests, sequence, controlKey);
    }
  }

  lemma TerminalRowsAre(rows: seq<Intent>)
    ensures
      var r := UnmuteTerminalRows(rows);
      && |r| == |rows| && Extends(rows, r) && NoneIn(r, {Muted})
      && forall i :: 0 <= i < |rows| ==> r[i] == if rows[i].state == Muted then rows[i].(state := Superseded) else rows[i]
  {
  }

  lemma RevivedRowsAre(rows: seq<Intent>, dests: seq<Destination>, sequence: int)
    ensures
      var r := Revive(DropStale(rows, dests, sequence), sequence);
      && |r| == |rows| && Extends(rows, r) && NoneIn(r, {Muted})
      && forall i :: 0 <= i < |rows| ==>
           r[i] == if rows[i].state != Muted then rows[i]
                   else if rows[i].sequence == sequence && IsCurrent(dests, rows[i].destination, rows[i].revision)
                   then rows[i].(state := Pending) else rows[i].(state := Superseded)
  {
    hide IsCurrent;
  }

  lemma SummariesCarryOver(
    rows: seq<Intent>, revived: seq<Intent>, out: seq<Intent>, dests: seq<Destination>, sequence: int, controlKey: string)
    requires revived == Revive(DropStale(rows, dests, sequence), sequence)
    requires forall i :: |revived| <= i < |out| ==>
      IsSummaryOfSome(revived, out[i], dests, |dests|, sequence, controlKey)
    ensures forall i :: |rows| <= i < |out| ==>
      IsSummaryOfSome(rows, out[i], dests, |dests|, sequence, controlKey)
  {
    forall i | |rows| <= i < |out|
      ensures IsSummaryOfSome(rows, out[i], dests, |dests|, sequence, controlKey)
    {
      var d :| 0 <= d < |dests| && IsSummary(revived, out[i], dests[d], sequence, controlKey);
      RevivedServesTheSame(rows, dests, d, sequence);
      assert IsSummary(rows, out[i], dests[d], sequence, controlKey);
    }
  }

  /** Reviving and dropping muted intents changes nothing for a destination of the current revision. */
  lemma RevivedServesTheSame(rows: seq<Intent>, dests: seq<Destination>, d: nat, sequence: int)
    requires d < |dests| && dests[d].enabled
    ensures
      var revived := Revive(DropStale(rows, dests, sequence), sequence);
      HasIntent(rows, dests[d], sequence, {Pending, Leased, Muted}) ==>
      HasIntent(revived, dests[d], sequence, {Pending, Leased, Muted})
  {
    var revived := Revive(DropStale(rows, dests, sequence), sequence);
    if HasIntent(rows, dests[d], sequence, {Pending, Leased, Muted}) {
      var i :| 0 <= i < |rows| && rows[i].sequence == sequence && rows[i].destination == dests[d].id
               && rows[i].revision == dests[d].revision && rows[i].state in {Pending, Leased, Muted};
      assert IsCurrent(dests, rows[i].destination, rows[i].revision);
      assert revived[i].sequence == sequence && revived[i].destination == dests[d].id;
    }
  }

  lemma UnmutedCovers(revived: seq<Intent>, out: seq<Intent>, dests: seq<Destination>, sequence: int)
    requires |revived| <= |out| && out[..|revived|] == revived && NoneIn(revived, {Muted})
    requires NoneIn(out[|revived|..], {Leased, Sent, Failed, Expired, Superseded, Muted})
    requires forall d :: 0 <= d < |dests| && dests[d].enabled ==>
               HasIntent(out, dests[d], sequence, {Pending, Leased, Muted})
    ensures NoneIn(out, {Muted})
    ensures forall d :: 0 <= d < |dests| && dests[d].enabled ==> HasIntent(out, dests[d], sequence, {Pending, Leased})
  {
    assert out == revived + out[|revived|..];
    forall i | 0 <= i < |out| ensures out[i].state != Muted {
      assert out[i] == if i < |revived| then revived[i] else out[|revived|..][i - |revived|];
    }
  }
}
