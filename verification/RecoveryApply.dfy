/** Recovery of retained frames: replay from the spool with a durable receipt, a pending acknowledgement
    and a cursor, where the process may be cut off before any durable step. */
module RecoveryApply {
  import opened Wrappers
  import opened RecoveryMessages

  /** What the hub's tables are keyed by. */
  datatype FrameKey = FrameKey(boot: string, source: string, sequence: int)

  datatype Stored = Stored(payload: string, disposition: string)

  datatype ApplyReceipt = ApplyReceipt(recovered: int, duplicate: int, pending: Option<ACK>, complete: bool, reported: bool)

  datatype Round = Again | Empty | Cut | Refused

  function FrameKeyOf(id: Identity): FrameKey {
    FrameKey(id.boot, id.source, id.sequence)
  }

  /** The frames of the first n batches, in spool order. */
  function Flat(batches: seq<seq<Identity>>, n: nat): seq<Identity>
    requires n <= |batches|
  {
    if n == 0 then [] else Flat(batches, n - 1) + batches[n - 1]
  }

  /** How many of the frames the hub did not have before the recovery. */
  function NewCount(ids: seq<Identity>, already: set<FrameKey>): nat {
    if ids == [] then 0
    else NewCount(ids[..|ids| - 1], already) + (if FrameKeyOf(ids[|ids| - 1]) !in already then 1 else 0)
  }

  lemma {:induction false} NewCountOfConcat(a: seq<Identity>, b: seq<Identity>, already: set<FrameKey>)
    ensures NewCount(a + b, already) == NewCount(a, already) + NewCount(b, already)
  {
    if b == [] {
      assert a + b == a;
    } else {
      assert (a + b)[..|a + b| - 1] == a + b[..|b| - 1];
      NewCountOfConcat(a, b[..|b| - 1], already);
    }
  }

  /** The pending acknowledgement covers exactly these records, in order. */
  method PendingMatches(records: seq<Identity>, ack: ACK) returns (same: bool)
    ensures same <==> ReceiptIDs(ack.receipts) == records
  {
    if |records| != |ack.receipts| {
      return false;
    }
    for i := 0 to |records|
      invariant forall k :: 0 <= k < i ==> ReceiptID(ack.receipts[k]) == records[k]
    {
      if ReceiptID(ack.receipts[i]) != records[i] {
        return false;
      }
    }
    return true;
  }

  /** What ValidateACK asks of an acknowledgement of these frames beside the envelope. */
  predicate Accepts(ack: ACK, records: seq<Identity>) {
    && |ack.receipts| == |records| && multiset(ReceiptIDs(ack.receipts)) == multiset(records) && CountsAgree(ack)
    && ack.accepted + ack.duplicate + ack.rejected == |ack.receipts|
  }

  predicate AllTerminal(ack: ACK) {
    forall i :: 0 <= i < |ack.receipts| ==> ack.receipts[i].disposition in {"recovered", "duplicate"}
  }

  /** The receipt with an acknowledgement counted. */
  function Settled(r: ApplyReceipt, ack: ACK): ApplyReceipt {
    r.(recovered := r.recovered + ack.accepted, duplicate := r.duplicate + ack.duplicate, pending := None)
  }

  /** The receipt when a run has read the next records: a pending acknowledgement that does not match them is
      counted as one for a batch the cursor has passed. */
  function Resumed(r: ApplyReceipt, records: seq<Identity>): ApplyReceipt {
    if r.pending.Some? && ReceiptIDs(r.pending.value.receipts) != records then Settled(r, r.pending.value) else r
  }

  /** The receipt after an uninterrupted round on these records; answer is what the hub says if it is asked. */
  function RoundAfter(r: ApplyReceipt, records: seq<Identity>, answer: ACK): ApplyReceipt {
    var s := Resumed(r, records);
    Settled(s, if s.pending.Some? then s.pending.value else answer)
  }

  /** The number of frames a receipt counts. */
  function Total(r: ApplyReceipt): int {
    r.recovered + r.duplicate
  }

  /** The receipts are in the order of the frames. */
  predicate InFrameOrder(ack: ACK, records: seq<Identity>) {
    |ack.receipts| == |records| && forall i :: 0 <= i < |records| ==> ReceiptID(ack.receipts[i]) == records[i]
  }

  /** An accepted acknowledgement whose receipts are all terminal counts one for each frame. */
  lemma {:induction false} TerminalReceiptsAreCounted(receipts: seq<Receipt>)
    requires forall i :: 0 <= i < |receipts| ==> receipts[i].disposition in {"recovered", "duplicate"}
    ensures WithDisposition(receipts, "recovered") + WithDisposition(receipts, "duplicate") == |receipts|
  {
    if receipts != [] {
      TerminalReceiptsAreCounted(receipts[..|receipts| - 1]);
    }
  }

  /** A round counts the batch once when nothing is pending. When an acknowledgement of this very batch is
      pending, as after a crash before the cursor moved, the batch is counted once exactly if its receipts are
      in the order of the frames, and twice otherwise: once on resuming and again when it is answered anew.
      Acceptance does not ask for that order. */
  lemma OrderDecides(r: ApplyReceipt, records: seq<Identity>, answer: ACK)
    requires Accepts(answer, records) && AllTerminal(answer) && records != []
    requires r.pending.Some? ==> Accepts(r.pending.value, records) && AllTerminal(r.pending.value)
    ensures RoundAfter(r, records, answer).pending == None
    ensures r.pending.None? ==> Total(RoundAfter(r, records, answer)) == Total(r) + |records|
    ensures r.pending.Some? ==>
      && (Total(Resumed(r, records)) == Total(r) <==> InFrameOrder(r.pending.value, records))
      && Total(RoundAfter(r, records, answer))
         == Total(r) + |records| * (if InFrameOrder(r.pending.value, records) then 1 else 2)
  {
    TerminalReceiptsAreCounted(answer.receipts);
    if r.pending.Some? {
      TerminalReceiptsAreCounted(r.pending.value.receipts);
      SameListWhenInOrder(r.pending.value, records);
    }
  }

  lemma SameListWhenInOrder(ack: ACK, records: seq<Identity>)
    ensures ReceiptIDs(ack.receipts) == records <==> InFrameOrder(ack, records)
  {
    var ids := ReceiptIDs(ack.receipts);
    assert forall i :: 0 <= i < |ids| ==> ids[i] == ReceiptID(ack.receipts[i]);
  }

  /** Two frames acknowledged in the other order: accepted by the protocol, saved as pending, and after a
      crash before the cursor moves counted, then sent, answered and counted again. */
  lemma SwappedReceiptsCountTwice(a: Identity, b: Identity, ack: ACK, answer: ACK)
    requires a != b
    requires ack.receipts == [Receipt(b.boot, b.source, b.sequence, b.payload, "recovered"),
                              Receipt(a.boot, a.source, a.sequence, a.payload, "recovered")]
    requires ack.accepted == 2 && ack.duplicate == 0 && ack.rejected == 0
    requires Accepts(answer, [a, b]) && AllTerminal(answer)
    ensures Accepts(ack, [a, b]) && AllTerminal(ack)
    ensures Total(Resumed(ApplyReceipt(0, 0, Some(ack), false, false), [a, b])) == 2
    ensures Total(RoundAfter(ApplyReceipt(0, 0, Some(ack), false, false), [a, b], answer)) == 4
  {
    var ids := ReceiptIDs(ack.receipts);
    assert ids == [b, a];
    assert multiset([b, a]) == multiset([a, b]);
    assert ack.receipts[..1] == [ack.receipts[0]] && ack.receipts[..1][..0] == [];
    assert WithDisposition(ack.receipts[..1], "recovered") == 1 && WithDisposition(ack.receipts[..1], "duplicate") == 0;
    assert WithDisposition(ack.receipts, "recovered") == 2 && WithDisposition(ack.receipts, "duplicate") == 0;
    assert !InFrameOrder(ack, [a, b]) by {
      assert ReceiptID(ack.receipts[0]) != [a, b][0];
    }
    OrderDecides(ApplyReceipt(0, 0, Some(ack), false, false), [a, b], answer);
  }

  /** Every frame of the spool is there once and every batch holds at least one. */
  ghost predicate Sound(batches: seq<seq<Identity>>) {
    && (forall b :: 0 <= b < |batches| ==> batches[b] != [])
    && (forall b, i, c, j :: 0 <= b < |batches| && 0 <= i < |batches[b]| && 0 <= c < |batches| && 0 <= j < |batches[c]| && (b != c || i != j) ==>
          FrameKeyOf(batches[b][i]) != FrameKeyOf(batches[c][j]))
  }

  /** The acknowledgement the hub gives for a batch, whenever it is asked. */
  ghost predicate Answers(ack: ACK, batch: seq<Identity>, already: set<FrameKey>) {
    && ReceiptIDs(ack.receipts) == batch && CountsAgree(ack) && AllTerminal(ack)
    && ack.rejected == 0
    && ack.accepted == NewCount(batch, already) && ack.duplicate == |batch| - NewCount(batch, already)
  }

  /** The counts are those of the first n batches. */
  predicate Counts(r: ApplyReceipt, batches: seq<seq<Identity>>, n: nat, already: set<FrameKey>)
    requires n <= |batches|
  {
    && r.recovered == NewCount(Flat(batches, n), already)
    && r.duplicate == |Flat(batches, n)| - NewCount(Flat(batches, n), already)
  }

  /** The receipt and the spool cursor agree: all counted, or one batch acknowledged but not yet counted,
      with the cursor before it or just past it. */
  ghost predicate Agrees(r: ApplyReceipt, cursor: nat, batches: seq<seq<Identity>>, already: set<FrameKey>) {
    && cursor <= |batches|
    && match r.pending
       case None => Counts(r, batches, cursor, already)
       case Some(ack) =>
         || (cursor < |batches| && Answers(ack, batches[cursor], already) && Counts(r, batches, cursor, already))
         || (cursor > 0 && Answers(ack, batches[cursor - 1], already) && Counts(r, batches, cursor - 1, already))
  }

  /** The hub's rows for the grant, and the frames it holds. */
  ghost predicate HubAgrees(receipts: map<FrameKey, Stored>, frames: map<FrameKey, string>, already: set<FrameKey>) {
    && frames.Keys == already + receipts.Keys
    && forall key :: key in receipts ==>
         && frames[key] == receipts[key].payload
         && receipts[key].disposition == if key in already then "duplicate" else "recovered"
  }

  lemma OneMoreBatch(r: ApplyReceipt, batches: seq<seq<Identity>>, n: nat, already: set<FrameKey>, ack: ACK, r': ApplyReceipt)
    requires n < |batches| && Counts(r, batches, n, already) && Answers(ack, batches[n], already)
    requires r'.recovered == r.recovered + ack.accepted && r'.duplicate == r.duplicate + ack.duplicate
    ensures Counts(r', batches, n + 1, already)
  {
    NewCountOfConcat(Flat(batches, n), batches[n], already);
  }

  /** Which of the two places the cursor is in shows from the next records: batches do not repeat. */
  lemma NextTells(batches: seq<seq<Identity>>, cursor: nat, ack: ACK, already: set<FrameKey>)
    requires Sound(batches) && cursor <= |batches|
    ensures cursor > 0 && Answers(ack, batches[cursor - 1], already) ==>
      ReceiptIDs(ack.receipts) != if cursor < |batches| then batches[cursor] else []
  {
    if cursor > 0 && cursor < |batches| {
      assert FrameKeyOf(batches[cursor - 1][0]) != FrameKeyOf(batches[cursor][0]);
    }
  }

  lemma AnswerIsAccepted(ack: ACK, batch: seq<Identity>, already: set<FrameKey>)
    requires Answers(ack, batch, already)
    ensures Accepts(ack, batch) && AllTerminal(ack)
  {
  }

  /** The receipt the hub gives for a frame: the one it gave before, or else by what it holds. */
  function Disposition(receipts: map<FrameKey, Stored>, frames: map<FrameKey, string>, id: Identity): Option<string> {
    var key := FrameKeyOf(id);
    if key in receipts then
      if receipts[key].payload != id.payload then None else Some(receipts[key].disposition)
    else if key in frames then
      if frames[key] != id.payload then None else Some("duplicate")
    else Some("recovered")
  }

  lemma DispositionTells(receipts: map<FrameKey, Stored>, frames: map<FrameKey, string>, already: set<FrameKey>, id: Identity)
    requires HubAgrees(receipts, frames, already) && Disposition(receipts, frames, id).Some?
    ensures Disposition(receipts, frames, id).value == if FrameKeyOf(id) in already then "duplicate" else "recovered"
  {
  }

  /** The receipts of an answer, as far as they have been worked out. */
  ghost predicate Answering(receipts: seq<Receipt>, recovered: nat, duplicate: nat, ids: seq<Identity>, already: set<FrameKey>) {
    && ReceiptIDs(receipts) == ids
    && (forall i :: 0 <= i < |receipts| ==> receipts[i].disposition in {"recovered", "duplicate"})
    && recovered == WithDisposition(receipts, "recovered") == NewCount(ids, already)
    && duplicate == WithDisposition(receipts, "duplicate") == |ids| - NewCount(ids, already)
  }

  lemma AnsweringOneMore(receipts: seq<Receipt>, recovered: nat, duplicate: nat, ids: seq<Identity>, already: set<FrameKey>, id: Identity)
    requires Answering(receipts, recovered, duplicate, ids, already)
    ensures
      var isNew := FrameKeyOf(id) !in already;
      Answering(receipts + [Receipt(id.boot, id.source, id.sequence, id.payload, if isNew then "recovered" else "duplicate")],
                recovered + (if isNew then 1 else 0), duplicate + (if isNew then 0 else 1), ids + [id], already)
  {
    var isNew := FrameKeyOf(id) !in already;
    var r := Receipt(id.boot, id.source, id.sequence, id.payload, if isNew then "recovered" else "duplicate");
    DispositionsOneMore(receipts, r, "recovered");
    DispositionsOneMore(receipts, r, "duplicate");
    NewCountOneMore(ids, id, already);
    hide WithDisposition, NewCount;
    assert ReceiptIDs(receipts + [r]) == ids + [id];
  }

  lemma DispositionsOneMore(receipts: seq<Receipt>, r: Receipt, disposition: string)
    ensures WithDisposition(receipts + [r], disposition)
            == WithDisposition(receipts, disposition) + (if r.disposition == disposition then 1 else 0)
  {
    assert (receipts + [r])[..|receipts|] == receipts;
  }

  lemma NewCountOneMore(ids: seq<Identity>, id: Identity, already: set<FrameKey>)
    ensures NewCount(ids + [id], already) == NewCount(ids, already) + (if FrameKeyOf(id) !in already then 1 else 0)
  {
    assert (ids + [id])[..|ids|] == ids;
  }

  lemma NothingAnswered(already: set<FrameKey>)
    ensures Answering([], 0, 0, [], already)
  {
    assert ReceiptIDs([]) == [];
  }

  lemma AnsweredIs(ack: ACK, batch: seq<Identity>, already: set<FrameKey>)
    requires ack.accepted >= 0 && ack.duplicate >= 0 && ack.rejected == 0
    requires Answering(ack.receipts, ack.accepted, ack.duplicate, batch, already)
    ensures Answers(ack, batch, already)
  {
  }

  predicate DistinctKeys(batch: seq<Identity>) {
    forall i, j :: 0 <= i < j < |batch| ==> FrameKeyOf(batch[i]) != FrameKeyOf(batch[j])
  }

  /** The hub has a receipt for every one of the frames. */
  predicate Holds(rows: map<FrameKey, Stored>, batch: seq<Identity>) {
    forall i :: 0 <= i < |batch| ==> FrameKeyOf(batch[i]) in rows && rows[FrameKeyOf(batch[i])].payload == batch[i].payload
  }

  predicate Grows(before: map<FrameKey, Stored>, after: map<FrameKey, Stored>) {
    forall key :: key in before ==> key in after && after[key] == before[key]
  }

  /** Frames are added under the batch's keys only, with the batch's payloads. */
  predicate OnlyAdds(before: map<FrameKey, string>, after: map<FrameKey, string>, batch: seq<Identity>) {
    forall key :: key in after ==>
      || (key in before && after[key] == before[key])
      || exists i :: 0 <= i < |batch| && FrameKeyOf(batch[i]) == key && after[key] == batch[i].payload
  }

  /** Every held frame is still there with its own payload. */
  predicate Keeps(before: map<FrameKey, string>, after: map<FrameKey, string>) {
    forall key :: key in before ==> key in after && after[key] == before[key]
  }

  /** The frame is known at the hub with another payload, by its receipt or by the frame itself. */
  predicate Conflicts(receipts: map<FrameKey, Stored>, held: map<FrameKey, string>, id: Identity) {
    var key := FrameKey(id.boot, id.source, id.sequence);
    (key in receipts && receipts[key].payload != id.payload) || (key in held && held[key] != id.payload)
  }

  predicate HasConflict(receipts: map<FrameKey, Stored>, held: map<FrameKey, string>, batch: seq<Identity>) {
    exists i :: 0 <= i < |batch| && Conflicts(receipts, held, batch[i])
  }

  lemma UndecidedIsConflict(receipts: map<FrameKey, Stored>, held: map<FrameKey, string>, already: set<FrameKey>, id: Identity)
    requires HubAgrees(receipts, held, already)
    ensures Disposition(receipts, held, id).None? <==> Conflicts(receipts, held, id)
  {
  }

  /** IngestRecoveryReplay on the hub's rows: refused exactly on a conflicting payload, else every frame gets the
      receipt it already has, or one that says whether the hub held it. No held frame is ever changed. */
  method Answer(receipts: map<FrameKey, Stored>, held: map<FrameKey, string>, batch: seq<Identity>, ghost already: set<FrameKey>)
    returns (ack: Option<ACK>, rows: map<FrameKey, Stored>, frames: map<FrameKey, string>)
    requires HubAgrees(receipts, held, already) && DistinctKeys(batch)
    ensures ack.None? <==> exists i :: 0 <= i < |batch| && Conflicts(receipts, held, batch[i])
    ensures forall key :: key in held ==> key in frames && frames[key] == held[key]
    ensures forall key :: key in receipts ==> key in rows && rows[key] == receipts[key]
    ensures ack.Some? ==> Answers(ack.value, batch, already) && HubAgrees(rows, frames, already) && Holds(rows, batch)
    ensures ack.Some? ==> Grows(receipts, rows) && OnlyAdds(held, frames, batch)
  {
    hide Answering, HubAgrees, Disposition, DistinctKeys, Added, Holds, OnlyAdds, Answers, Conflicts;
    var list: seq<Receipt>, recovered: nat, duplicate: nat := [], 0, 0;
    NothingAnswered(already);
    rows, frames := receipts, held;
    NothingAdded(receipts, held, batch);
    for i := 0 to |batch|
      invariant Answering(list, recovered, duplicate, batch[..i], already) && HubAgrees(rows, frames, already)
      invariant forall k :: 0 <= k < i ==> !Conflicts(receipts, held, batch[k])
      invariant Added(receipts, held, rows, frames, batch, i) && Grows(receipts, rows) && Keeps(held, frames)
    {
      var id := batch[i];
      var disposition := Disposition(receipts, held, id);
      UndecidedIsConflict(receipts, held, already, id);
      if disposition.None? {
        return None, rows, frames;
      }
      DispositionTells(receipts, held, already, id);
      AnsweringOneMore(list, recovered, duplicate, batch[..i], already, id);
      AddedOneMore(receipts, held, rows, frames, batch, i, already);
      KeptOneMore(receipts, held, rows, frames, batch, i, already);
      assert batch[..i + 1] == batch[..i] + [id];
      if disposition.value == "recovered" {
        recovered := recovered + 1;
      } else {
        duplicate := duplicate + 1;
      }
      list := list + [Receipt(id.boot, id.source, id.sequence, id.payload, disposition.value)];
      if FrameKeyOf(id) !in rows {
        rows := rows[FrameKeyOf(id) := Stored(id.payload, disposition.value)];
        frames := frames[FrameKeyOf(id) := id.payload];
      }
    }
    assert batch[..|batch|] == batch;
    AllAdded(receipts, held, rows, frames, batch);
    ack := Some(ACK("", "", "", "", true, recovered, duplicate, 0, list, false, 0));
    AnsweredIs(ack.value, batch, already);
  }

  /** The hub's rows after the first n frames of a batch. */
  ghost predicate Added(receipts: map<FrameKey, Stored>, held: map<FrameKey, string>, rows: map<FrameKey, Stored>,
                        frames: map<FrameKey, string>, batch: seq<Identity>, n: nat)
    requires n <= |batch|
  {
    && Holds(rows, batch[..n]) && Grows(receipts, rows) && OnlyAdds(held, frames, batch)
    && forall k :: n <= k < |batch| && FrameKeyOf(batch[k]) in rows ==> FrameKeyOf(batch[k]) in receipts
  }

  lemma AllAdded(receipts: map<FrameKey, Stored>, held: map<FrameKey, string>, rows: map<FrameKey, Stored>,
                 frames: map<FrameKey, string>, batch: seq<Identity>)
    requires Added(receipts, held, rows, frames, batch, |batch|)
    ensures Holds(rows, batch) && Grows(receipts, rows) && OnlyAdds(held, frames, batch)
  {
    assert batch[..|batch|] == batch;
  }

  lemma NothingAdded(receipts: map<FrameKey, Stored>, held: map<FrameKey, string>, batch: seq<Identity>)
    ensures Added(receipts, held, receipts, held, batch, 0)
  {
  }

  lemma AddedOneMore(receipts: map<FrameKey, Stored>, held: map<FrameKey, string>, rows: map<FrameKey, Stored>,
                     frames: map<FrameKey, string>, batch: seq<Identity>, i: nat, already: set<FrameKey>)
    requires i < |batch| && DistinctKeys(batch) && Added(receipts, held, rows, frames, batch, i)
    requires HubAgrees(rows, frames, already) && HubAgrees(receipts, held, already)
    requires Disposition(receipts, held, batch[i]).Some?
    ensures
      var id := batch[i];
      var key := FrameKeyOf(id);
      var rows', frames' :=
        if key in rows then rows else rows[key := Stored(id.payload, Disposition(receipts, held, id).value)],
        if key in rows then frames else frames[key := id.payload];
      Added(receipts, held, rows', frames', batch, i + 1) && HubAgrees(rows', frames', already)
  {
    DispositionTells(receipts, held, already, batch[i]);
    HubStillAgrees(rows, frames, already, batch[i], Disposition(receipts, held, batch[i]).value);
    PayloadIsHeld(receipts, held, rows, batch, i, already);
    var stored := Stored(batch[i].payload, Disposition(receipts, held, batch[i]).value);
    hide Disposition, HubAgrees;
    assert batch[..i + 1] == batch[..i] + [batch[i]];
    HoldsOneMore(rows, batch[..i], batch[i], stored);
    GrowsOneMore(receipts, rows, FrameKeyOf(batch[i]), stored);
    OnlyAddsOneMore(held, frames, batch, i);
    hide Holds, Grows, OnlyAdds;
  }

  /** A frame the hub holds without a receipt is acknowledged with the payload it is held with. */
  lemma KeptOneMore(receipts: map<FrameKey, Stored>, held: map<FrameKey, string>, rows: map<FrameKey, Stored>,
                    frames: map<FrameKey, string>, batch: seq<Identity>, i: nat, already: set<FrameKey>)
    requires i < |batch| && Grows(receipts, rows) && Keeps(held, frames) && Disposition(receipts, held, batch[i]).Some?
    requires HubAgrees(rows, frames, already) && HubAgrees(receipts, held, already)
    ensures
      var id := batch[i];
      var key := FrameKeyOf(id);
      && Grows(receipts, if key in rows then rows else rows[key := Stored(id.payload, Disposition(receipts, held, id).value)])
      && Keeps(held, if key in rows then frames else frames[key := id.payload])
  {
  }

  lemma HoldsOneMore(rows: map<FrameKey, Stored>, batch: seq<Identity>, id: Identity, stored: Stored)
    requires Holds(rows, batch) && stored.payload == id.payload
    requires FrameKeyOf(id) in rows ==> rows[FrameKeyOf(id)].payload == id.payload
    ensures Holds(if FrameKeyOf(id) in rows then rows else rows[FrameKeyOf(id) := stored], batch + [id])
  {
  }

  lemma GrowsOneMore(before: map<FrameKey, Stored>, rows: map<FrameKey, Stored>, key: FrameKey, stored: Stored)
    requires Grows(before, rows)
    ensures Grows(before, if key in rows then rows else rows[key := stored])
  {
  }

  lemma OnlyAddsOneMore(before: map<FrameKey, string>, frames: map<FrameKey, string>, batch: seq<Identity>, i: nat)
    requires OnlyAdds(before, frames, batch) && i < |batch|
    ensures OnlyAdds(before, frames[FrameKeyOf(batch[i]) := batch[i].payload], batch)
  {
  }

  /** A frame that already has a row has it from before, with its own payload. */
  lemma PayloadIsHeld(receipts: map<FrameKey, Stored>, held: map<FrameKey, string>, rows: map<FrameKey, Stored>, batch: seq<Identity>,
                      i: nat, already: set<FrameKey>)
    requires i < |batch| && Grows(receipts, rows) && Disposition(receipts, held, batch[i]).Some?
    requires FrameKeyOf(batch[i]) in rows ==> FrameKeyOf(batch[i]) in receipts
    ensures FrameKeyOf(batch[i]) in rows ==> rows[FrameKeyOf(batch[i])].payload == batch[i].payload
  {
  }

  lemma HubStillAgrees(rows: map<FrameKey, Stored>, frames: map<FrameKey, string>, already: set<FrameKey>, id: Identity, disposition: string)
    requires HubAgrees(rows, frames, already) && disposition == if FrameKeyOf(id) in already then "duplicate" else "recovered"
    ensures
      var key := FrameKeyOf(id);
      HubAgrees(if key in rows then rows else rows[key := Stored(id.payload, disposition)],
                if key in rows then frames else frames[key := id.payload], already)
  {
  }

  /** No retained frame conflicts with one the hub holds under the same identity. */
  ghost predicate NoConflict(frames: map<FrameKey, string>, batches: seq<seq<Identity>>) {
    forall b, i :: 0 <= b < |batches| && 0 <= i < |batches[b]| && FrameKeyOf(batches[b][i]) in frames ==>
      frames[FrameKeyOf(batches[b][i])] == batches[b][i].payload
  }

  lemma AddingKeepsNoConflict(before: map<FrameKey, string>, after: map<FrameKey, string>, batches: seq<seq<Identity>>, c: nat)
    requires Sound(batches) && NoConflict(before, batches) && c < |batches| && OnlyAdds(before, after, batches[c])
    ensures NoConflict(after, batches)
  {
    forall b, i | 0 <= b < |batches| && 0 <= i < |batches[b]| && FrameKeyOf(batches[b][i]) in after
      ensures after[FrameKeyOf(batches[b][i])] == batches[b][i].payload
    {
      var key := FrameKeyOf(batches[b][i]);
      if !(key in before && after[key] == before[key]) {
        var j :| 0 <= j < |batches[c]| && FrameKeyOf(batches[c][j]) == key && after[key] == batches[c][j].payload;
        assert b == c && i == j;
      }
    }
  }

  lemma NoConflictAnswers(receipts: map<FrameKey, Stored>, frames: map<FrameKey, string>, already: set<FrameKey>,
                          batches: seq<seq<Identity>>, c: nat)
    requires HubAgrees(receipts, frames, already) && c < |batches|
    ensures NoConflict(frames, batches) ==> !HasConflict(receipts, frames, batches[c])
  {
  }

  /** A conflict with a held frame stays one. */
  lemma ConflictStays(before: map<FrameKey, string>, after: map<FrameKey, string>, batches: seq<seq<Identity>>)
    requires Keeps(before, after) && NoConflict(after, batches)
    ensures NoConflict(before, batches)
  {
  }

  /** Batches the cursor has passed are at the hub with their own payloads. */
  lemma PassedHaveNoConflict(r: ApplyReceipt, batches: seq<seq<Identity>>, rows: map<FrameKey, Stored>,
                             frames: map<FrameKey, string>, already: set<FrameKey>)
    requires Durable(r, |batches|, batches, rows) && HubAgrees(rows, frames, already)
    ensures NoConflict(frames, batches)
  {
    forall b, i | 0 <= b < |batches| && 0 <= i < |batches[b]| && FrameKeyOf(batches[b][i]) in frames
      ensures frames[FrameKeyOf(batches[b][i])] == batches[b][i].payload
    {
      assert Holds(rows, batches[b]);
    }
  }

  lemma BatchIsDistinct(batches: seq<seq<Identity>>, c: nat)
    requires Sound(batches) && c < |batches|
    ensures DistinctKeys(batches[c])
  {
  }

  /** Whatever the cursor has passed, and whatever a pending acknowledgement covers, is durable at the hub. */
  ghost predicate Durable(r: ApplyReceipt, cursor: nat, batches: seq<seq<Identity>>, rows: map<FrameKey, Stored>)
    requires cursor <= |batches|
  {
    && (forall b :: 0 <= b < cursor ==> Holds(rows, batches[b]))
    && (r.pending.Some? && cursor < |batches| && ReceiptIDs(r.pending.value.receipts) == batches[cursor] ==> Holds(rows, batches[cursor]))
  }

  lemma DurableStays(r: ApplyReceipt, cursor: nat, batches: seq<seq<Identity>>, before: map<FrameKey, Stored>, after: map<FrameKey, Stored>)
    requires cursor <= |batches| && Durable(r, cursor, batches, before) && Grows(before, after)
    ensures Durable(r, cursor, batches, after)
  {
    forall b | 0 <= b < |batches| && Holds(before, batches[b]) ensures Holds(after, batches[b]) {
      forall i | 0 <= i < |batches[b]|
        ensures FrameKeyOf(batches[b][i]) in after && after[FrameKeyOf(batches[b][i])].payload == batches[b][i].payload
      {
        assert FrameKeyOf(batches[b][i]) in before;
      }
    }
  }

  function Next(batches: seq<seq<Identity>>, cursor: nat): seq<Identity> {
    if cursor < |batches| then batches[cursor] else []
  }

  /** Receipt, cursor and hub together. */
  ghost predicate Coherent(r: ApplyReceipt, cursor: nat, batches: seq<seq<Identity>>, rows: map<FrameKey, Stored>, already: set<FrameKey>) {
    Agrees(r, cursor, batches, already) && Durable(r, cursor, batches, rows)
  }

  lemma CoherentIsDurable(r: ApplyReceipt, cursor: nat, batches: seq<seq<Identity>>, rows: map<FrameKey, Stored>, already: set<FrameKey>)
    requires Coherent(r, cursor, batches, rows, already)
    ensures cursor <= |batches| && Durable(r, cursor, batches, rows)
  {
    hide Durable, Answers, Counts;
  }

  /** An acknowledgement that does not cover the next records is for the batch just passed, and is counted now. */
  lemma SettlingIsCoherent(r: ApplyReceipt, cursor: nat, batches: seq<seq<Identity>>, rows: map<FrameKey, Stored>, already: set<FrameKey>)
    requires Sound(batches) && Coherent(r, cursor, batches, rows, already) && r.pending.Some?
    requires ReceiptIDs(r.pending.value.receipts) != Next(batches, cursor)
    ensures Coherent(Settled(r, r.pending.value), cursor, batches, rows, already)
  {
    hide Flat, NewCount, Holds;
    var ack := r.pending.value;
    assert cursor > 0 && Answers(ack, batches[cursor - 1], already) && Counts(r, batches, cursor - 1, already);
    OneMoreBatch(r, batches, cursor - 1, already, ack, Settled(r, ack));
  }

  /** One that does cover them leaves the cursor before its batch. */
  lemma MatchingIsNext(r: ApplyReceipt, cursor: nat, batches: seq<seq<Identity>>, rows: map<FrameKey, Stored>, already: set<FrameKey>)
    requires Sound(batches) && Coherent(r, cursor, batches, rows, already) && r.pending.Some?
    requires ReceiptIDs(r.pending.value.receipts) == Next(batches, cursor)
    ensures cursor < |batches| && Answers(r.pending.value, batches[cursor], already) && Holds(rows, batches[cursor])
    ensures Counts(r, batches, cursor, already)
  {
    NextTells(batches, cursor, r.pending.value, already);
  }

  lemma RecordingIsCoherent(r: ApplyReceipt, cursor: nat, batches: seq<seq<Identity>>, rows: map<FrameKey, Stored>, already: set<FrameKey>, ack: ACK)
    requires Coherent(r, cursor, batches, rows, already) && r.pending.None?
    requires cursor < |batches| && Answers(ack, batches[cursor], already) && Holds(rows, batches[cursor])
    ensures Coherent(r.(pending := Some(ack)), cursor, batches, rows, already)
    ensures Counts(r.(pending := Some(ack)), batches, cursor, already)
  {
  }

  lemma PassingIsCoherent(r: ApplyReceipt, cursor: nat, batches: seq<seq<Identity>>, rows: map<FrameKey, Stored>, already: set<FrameKey>)
    requires Sound(batches) && Coherent(r, cursor, batches, rows, already) && r.pending.Some?
    requires cursor < |batches| && Answers(r.pending.value, batches[cursor], already) && Holds(rows, batches[cursor])
    requires Counts(r, batches, cursor, already)
    ensures Coherent(r, cursor + 1, batches, rows, already)
  {
    NextTells(batches, cursor + 1, r.pending.value, already);
  }

  lemma NextIsNotPassed(r: ApplyReceipt, cursor: nat, batches: seq<seq<Identity>>, already: set<FrameKey>)
    requires Sound(batches) && cursor < |batches| && r.pending.Some? && Answers(r.pending.value, batches[cursor], already)
    ensures ReceiptIDs(r.pending.value.receipts) != Next(batches, cursor + 1)
  {
    NextTells(batches, cursor + 1, r.pending.value, already);
  }

  lemma EmptyIsTheEnd(batches: seq<seq<Identity>>, cursor: nat, r: ApplyReceipt, rows: map<FrameKey, Stored>, already: set<FrameKey>)
    requires Sound(batches) && Coherent(r, cursor, batches, rows, already) && Next(batches, cursor) == []
    ensures cursor == |batches|
  {
  }

  lemma {:induction false} FlatGrows(batches: seq<seq<Identity>>, m: nat, n: nat)
    requires m < n <= |batches| && forall b :: 0 <= b < |batches| ==> batches[b] != []
    ensures |Flat(batches, m)| < |Flat(batches, n)|
  {
    if m < n - 1 {
      FlatGrows(batches, m, n - 1);
    }
  }

  /** All frames are counted only when the cursor is at the end and nothing is pending. */
  lemma FullIsTheEnd(r: ApplyReceipt, cursor: nat, batches: seq<seq<Identity>>, rows: map<FrameKey, Stored>, already: set<FrameKey>)
    requires Sound(batches) && Coherent(r, cursor, batches, rows, already)
    requires r.recovered + r.duplicate >= |Flat(batches, |batches|)|
    ensures r.pending.None? && cursor == |batches|
  {
    if r.pending.None? {
      SumBeforeTheEnd(r, batches, cursor, already);
    } else if cursor < |batches| && Counts(r, batches, cursor, already) {
      SumBeforeTheEnd(r, batches, cursor, already);
    } else {
      SumBeforeTheEnd(r, batches, cursor - 1, already);
    }
  }

  lemma SumBeforeTheEnd(r: ApplyReceipt, batches: seq<seq<Identity>>, n: nat, already: set<FrameKey>)
    requires Sound(batches) && n <= |batches| && Counts(r, batches, n, already)
    ensures r.recovered + r.duplicate == |Flat(batches, n)|
    ensures n < |batches| ==> r.recovered + r.duplicate < |Flat(batches, |batches|)|
  {
    if n < |batches| {
      FlatGrows(batches, n, |batches|);
    }
  }

  lemma AllAreCounted(r: ApplyReceipt, batches: seq<seq<Identity>>, rows: map<FrameKey, Stored>, already: set<FrameKey>)
    requires Coherent(r, |batches|, batches, rows, already) && r.pending.None?
    ensures r.recovered == NewCount(Flat(batches, |batches|), already)
    ensures r.recovered + r.duplicate == |Flat(batches, |batches|)|
  {
  }

  lemma ReportingIsCoherent(r: ApplyReceipt, r': ApplyReceipt, cursor: nat, batches: seq<seq<Identity>>, rows: map<FrameKey, Stored>,
                            already: set<FrameKey>)
    requires Coherent(r, cursor, batches, rows, already)
    requires r'.recovered == r.recovered && r'.duplicate == r.duplicate && r'.pending == r.pending
    ensures Coherent(r', cursor, batches, rows, already)
  {
  }

  datatype Applied = Reported(complete: bool) | Interrupted | Declined

  class Recovery {
    // the retained batches the grant approves, as the spool hands them out
    const batches: seq<seq<Identity>>
    const maxFrames: nat
    // what the hub held before
    ghost const already: set<FrameKey>
    var receipt: ApplyReceipt
    var cursor: nat
    var hubReceipts: map<FrameKey, Stored>
    var hubFrames: map<FrameKey, string>
    var budget: nat

    ghost predicate Valid()
      reads `receipt, `cursor, `hubReceipts, `hubFrames
    {
      && Sound(batches) && |Flat(batches, |batches|)| <= maxFrames && cursor <= |batches|
      && HubAgrees(hubReceipts, hubFrames, already) && Coherent(receipt, cursor, batches, hubReceipts, already)
      && (receipt.reported ==> receipt.pending.None? && (receipt.complete <==> receipt.recovered + receipt.duplicate == maxFrames))
      && (!receipt.reported ==> !receipt.complete)
    }

    constructor (batches: seq<seq<Identity>>, maxFrames: nat, frames: map<FrameKey, string>)
      requires Sound(batches) && |Flat(batches, |batches|)| <= maxFrames
      ensures Valid() && cursor == 0 && !receipt.reported && already == frames.Keys
      ensures this.batches == batches && this.maxFrames == maxFrames
    {
      this.batches, this.maxFrames, this.already := batches, maxFrames, frames.Keys;
      receipt, cursor := ApplyReceipt(0, 0, None, false, false), 0;
      hubReceipts, hubFrames, budget := map[], frames, 0;
    }

    method Step() returns (alive: bool)
      modifies this`budget
      ensures alive <==> old(budget) > 0
      ensures budget == if alive then old(budget) - 1 else 0
    {
      alive := budget > 0;
      if alive {
        budget := budget - 1;
      }
    }

    /** The hub's transaction, committed or refused as a whole. */
    method Ingest(c: nat) returns (ack: Option<ACK>)
      requires Valid() && c < |batches|
      modifies this`hubReceipts, this`hubFrames
      ensures Valid()
      ensures ack.None? ==> hubReceipts == old(hubReceipts) && hubFrames == old(hubFrames) && !NoConflict(hubFrames, batches)
      ensures ack.None? <==> HasConflict(old(hubReceipts), old(hubFrames), batches[c])
      ensures forall key :: key in old(hubFrames) ==> key in hubFrames && hubFrames[key] == old(hubFrames)[key]
      ensures ack.Some? ==> Answers(ack.value, batches[c], already) && Holds(hubReceipts, batches[c])
      ensures old(NoConflict(hubFrames, batches)) ==> NoConflict(hubFrames, batches)
    {
      hide Agrees, Sound, Flat, HubAgrees, Answers, Holds, Grows, Durable, NoConflict, OnlyAdds, DistinctKeys, Disposition, Counts, Conflicts;
      BatchIsDistinct(batches, c);
      NoConflictAnswers(hubReceipts, hubFrames, already, batches, c);
      var rows, frames;
      ack, rows, frames := Answer(hubReceipts, hubFrames, batches[c], already);
      if ack.Some? {
        DurableStays(receipt, cursor, batches, hubReceipts, rows);
        if NoConflict(hubFrames, batches) {
          AddingKeepsNoConflict(hubFrames, frames, batches, c);
        }
        hubReceipts, hubFrames := rows, frames;
      }
    }

    /** Have the next batch answered and record the answer as pending. */
    method Obtain() returns (o: Round)
      requires Valid() && !receipt.reported && receipt.pending.None? && cursor < |batches|
      modifies this`receipt, this`hubReceipts, this`hubFrames, this`budget
      ensures Valid() && budget <= old(budget) <= budget + 2 && (o.Again? || o.Cut? || o.Refused?)
      ensures o.Cut? ==> budget == 0 && old(budget) < 2
      ensures o.Refused? ==> HasConflict(hubReceipts, hubFrames, batches[cursor])
      ensures Keeps(old(hubFrames), hubFrames)
      ensures NoConflict(hubFrames, batches) <==> old(NoConflict(hubFrames, batches))
      ensures o.Refused? ==> !NoConflict(hubFrames, batches)
      ensures !o.Again? ==> receipt == old(receipt)
      ensures o.Again? ==>
        && receipt.pending.Some? && receipt == old(receipt).(pending := receipt.pending)
        && Answers(receipt.pending.value, batches[cursor], already) && Holds(hubReceipts, batches[cursor])
        && Counts(receipt, batches, cursor, already)
    {
      hide Coherent, Sound, Flat, HubAgrees, Answers, Holds, NoConflict, Counts, HasConflict;
      var alive := Step();
      if !alive {
        return Cut;
      }
      var answered := Ingest(cursor);
      if NoConflict(hubFrames, batches) {
        ConflictStays(old(hubFrames), hubFrames, batches);
      }
      if answered.None? {
        return Refused;
      }
      RecordingIsCoherent(receipt, cursor, batches, hubReceipts, already, answered.value);
      alive := Step();
      if !alive {
        return Cut;
      }
      receipt := receipt.(pending := answered);
      return Again;
    }

    /** One round of the loop: settle a pending acknowledgement the cursor is already past, read the next
        records, have them answered, record the answer, advance the cursor, count. */
    method Advance() returns (o: Round, ghost answer: ACK)
      requires Valid() && !receipt.reported
      modifies this`receipt, this`cursor, this`hubReceipts, this`hubFrames, this`budget
      ensures Valid() && !receipt.reported && budget <= old(budget)
      ensures o.Cut? ==> budget == 0 && old(budget) < 5
      ensures o.Again? ==> receipt.pending.None? && cursor == old(cursor) + 1 && old(budget) <= budget + 5
      ensures o.Again? ==>
        && old(cursor) < |batches| && Answers(answer, batches[old(cursor)], already)
        && receipt == RoundAfter(old(receipt), batches[old(cursor)], answer)
      ensures o.Empty? ==> receipt.pending.None? && cursor == old(cursor) == |batches| && old(budget) <= budget + 5
      ensures o.Refused? ==> cursor < |batches| && HasConflict(hubReceipts, hubFrames, batches[cursor])
      ensures Keeps(old(hubFrames), hubFrames)
      ensures NoConflict(hubFrames, batches) <==> old(NoConflict(hubFrames, batches))
      ensures o.Refused? ==> !NoConflict(hubFrames, batches)
    {
      hide Coherent, Sound, Flat, HubAgrees, Answers, Holds, NoConflict, Counts, Agrees, Durable, Accepts, AllTerminal, ReceiptIDs, HasConflict;
      answer := ACK("", "", "", "", true, 0, 0, 0, [], false, 0);
      var r := receipt;
      var records := Next(batches, cursor);
      if r.pending.Some? {
        var same := PendingMatches(records, r.pending.value);
        if !same {
          SettlingIsCoherent(r, cursor, batches, hubReceipts, already);
          r := Settled(r, r.pending.value);
          var alive := Step();
          if !alive {
            o := Cut;
            return;
          }
          receipt := r;
        } else {
          MatchingIsNext(r, cursor, batches, hubReceipts, already);
        }
      }
      if |records| == 0 {
        EmptyIsTheEnd(batches, cursor, receipt, hubReceipts, already);
        o := Empty;
        return;
      }
      if r.pending.None? {
        var obtained := Obtain();
        if !obtained.Again? {
          o := obtained;
          return;
        }
        r := receipt;
      }
      var ack := r.pending.value;
      answer := ack;
      AnswerIsAccepted(ack, records, already);
      assert Accepts(ack, records) && AllTerminal(ack);
      PassingIsCoherent(r, cursor, batches, hubReceipts, already);
      NextIsNotPassed(r, cursor, batches, already);
      var alive := Step();
      if !alive {
        o := Cut;
        return;
      }
      cursor := cursor + 1;
      SettlingIsCoherent(r, cursor, batches, hubReceipts, already);
      alive := Step();
      if !alive {
        o := Cut;
        return;
      }
      receipt := Settled(r, ack);
      o := Again;
    }

    /** The apply command: answer a reported apply, else run the loop and report. */
    method Apply() returns (o: Applied)
      requires Valid()
      modifies this`receipt, this`cursor, this`hubReceipts, this`hubFrames, this`budget
      ensures Valid() && budget <= old(budget)
      ensures o.Interrupted? ==> !receipt.reported && budget == 0 && old(budget) < 5 * (|batches| + 2)
      // declined exactly on a frame that the hub holds with another payload, and no held frame is ever changed
      ensures o.Declined? ==> !receipt.reported && cursor < |batches| && HasConflict(hubReceipts, hubFrames, batches[cursor])
      ensures forall key :: key in old(hubFrames) ==> key in hubFrames && hubFrames[key] == old(hubFrames)[key]
      ensures NoConflict(hubFrames, batches) <==> old(NoConflict(hubFrames, batches))
      ensures o.Declined? ==> !old(NoConflict(hubFrames, batches))
      ensures o.Reported? && !old(receipt.reported) ==> old(NoConflict(hubFrames, batches))
      ensures !old(receipt.reported) && old(budget) >= 5 * (|batches| + 2) ==> (o.Declined? <==> !old(NoConflict(hubFrames, batches)))
      ensures o.Reported? ==> receipt.reported && (o.complete <==> receipt.complete)
      ensures old(receipt.reported) ==> o.Reported? && receipt == old(receipt) && cursor == old(cursor)
      // a report counts every frame the spool handed out, and is complete exactly when that is all of the grant's
      ensures o.Reported? && !old(receipt.reported) ==>
        && receipt.recovered + receipt.duplicate == |Flat(batches, |batches|)|
        && receipt.recovered == NewCount(Flat(batches, |batches|), already)
        && (o.complete <==> |Flat(batches, |batches|)| == maxFrames)
    {
      hide Coherent, Sound, HubAgrees, NoConflict, Flat, NewCount, HasConflict;
      if receipt.reported {
        return Reported(receipt.complete);
      }
      var more := receipt.recovered + receipt.duplicate < maxFrames;
      if !more {
        FullIsTheEnd(receipt, cursor, batches, hubReceipts, already);
      }
      while more
        invariant Valid() && !receipt.reported && budget <= old(budget) && cursor <= |batches|
        invariant more ==> old(budget) <= budget + 5 * (cursor - old(cursor))
        invariant old(cursor) <= cursor && old(budget) <= budget + 5 * (cursor - old(cursor) + 1)
        invariant Keeps(old(hubFrames), hubFrames)
        invariant NoConflict(hubFrames, batches) <==> old(NoConflict(hubFrames, batches))
        invariant !more ==> receipt.pending.None? && cursor == |batches|
        decreases more, |batches| - cursor
      {
        var o', answer := Advance();
        match o' {
          case Cut => return Interrupted;
          case Refused => return Declined;
          case Empty => more := false;
          case Again =>
            more := receipt.recovered + receipt.duplicate < maxFrames;
            if !more {
              FullIsTheEnd(receipt, cursor, batches, hubReceipts, already);
            }
        }
      }
      AllAreCounted(receipt, batches, hubReceipts, already);
      CoherentIsDurable(receipt, cursor, batches, hubReceipts, already);
      PassedHaveNoConflict(receipt, batches, hubReceipts, hubFrames, already);
      var alive := Step();
      if !alive {
        return Interrupted;
      }
      ReportingIsCoherent(receipt, receipt.(complete := receipt.recovered + receipt.duplicate == maxFrames, reported := true),
                          cursor, batches, hubReceipts, already);
      receipt := receipt.(complete := receipt.recovered + receipt.duplicate == maxFrames, reported := true);
      return Reported(receipt.complete);
    }

    /** However often the apply is cut off, one run with steps enough reports, and reports each frame once. */
    method ApplyRepeatedly(budgets: seq<nat>) returns (done: bool)
      requires Valid() && NoConflict(hubFrames, batches)
      modifies this`receipt, this`cursor, this`hubReceipts, this`hubFrames, this`budget
      ensures Valid() && NoConflict(hubFrames, batches) && (done ==> receipt.reported)
      ensures (exists i :: 0 <= i < |budgets| && budgets[i] >= 5 * (|batches| + 2)) ==> done
      ensures done && !old(receipt.reported) ==>
        && receipt.recovered == NewCount(Flat(batches, |batches|), already)
        && receipt.recovered + receipt.duplicate == |Flat(batches, |batches|)|
        && (receipt.complete <==> |Flat(batches, |batches|)| == maxFrames)
    {
      hide *;
      done := false;
      for i := 0 to |budgets|
        invariant Valid() && NoConflict(hubFrames, batches) && (done ==> receipt.reported)
        invariant !done ==> forall k :: 0 <= k < i ==> budgets[k] < 5 * (|batches| + 2)
        invariant !done ==> receipt.reported == old(receipt.reported)
        invariant done && !old(receipt.reported) ==>
          && receipt.recovered == NewCount(Flat(batches, |batches|), already)
          && receipt.recovered + receipt.duplicate == |Flat(batches, |batches|)|
          && (receipt.complete <==> |Flat(batches, |batches|)| == maxFrames)
      {
        budget := budgets[i];
        var o := Apply();
        if o.Reported? {
          done := true;
        }
      }
    }

    /** At every point of every run the counts follow the cursor, and a pending acknowledgement is read
        right: it covers the next records exactly when its batch has not been passed yet. */
    lemma CountsFollowTheCursor()
      requires Valid()
      ensures cursor <= |batches|
      ensures receipt.pending.None? ==> receipt.recovered + receipt.duplicate == |Flat(batches, cursor)|
      ensures receipt.pending.Some? && ReceiptIDs(receipt.pending.value.receipts) == Next(batches, cursor) ==>
        receipt.recovered + receipt.duplicate == |Flat(batches, cursor)|
      ensures receipt.pending.Some? && ReceiptIDs(receipt.pending.value.receipts) != Next(batches, cursor) ==>
        && cursor > 0 && receipt.recovered + receipt.duplicate == |Flat(batches, cursor - 1)|
        && receipt.recovered + receipt.duplicate + |receipt.pending.value.receipts| == |Flat(batches, cursor)|
      ensures forall b :: 0 <= b < cursor ==> Holds(hubReceipts, batches[b])
    {
      if receipt.pending.Some? {
        if ReceiptIDs(receipt.pending.value.receipts) == Next(batches, cursor) {
          MatchingIsNext(receipt, cursor, batches, hubReceipts, already);
        } else {
          SettlingIsCoherent(receipt, cursor, batches, hubReceipts, already);
        }
      }
    }
  }
}
