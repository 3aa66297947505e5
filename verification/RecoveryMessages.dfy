/** Replay requests of retained frames and their acknowledgements. */
module RecoveryMessages {
  import opened Decimal
  import opened Identifiers

  const MAX_REPLAY_FRAMES := 4

  /** The identity fields a frame repeats, and whether its own validation accepts it. */
  datatype CollectorFrame = CollectorFrame(sourceID: string, sequence: int, observedWallMS: int, valid: bool)

  datatype RecoveryFrame = RecoveryFrame(
    originalSourceID: string, originalSequence: int, originalObservedMS: int, originalPayload: string, frame: CollectorFrame)

  datatype Replay = Replay(
    protocolOK: bool, grantID: string, grantSHA256: string, requestID: string, scopeSHA256: string,
    admittingSecurity: string, admittingSession: int, admittingBoot: string,
    deploymentID: string, hostID: string, originalSecurity: string, originalBoot: string,
    frames: seq<RecoveryFrame>)

  datatype Receipt = Receipt(originalBoot: string, originalSourceID: string, originalSequence: int, originalPayload: string, disposition: string)

  datatype ACK = ACK(
    grantID: string, grantSHA256: string, requestID: string, scopeSHA256: string, durable: bool,
    accepted: int, duplicate: int, rejected: int, receipts: seq<Receipt>, complete: bool, hubTimeMS: int)

  /** What a frame and its receipt must agree on. */
  datatype Identity = Identity(boot: string, source: string, sequence: int, payload: string)

  function KeyOf(id: Identity): string {
    Joined(id.boot, id.source, id.sequence)
  }

  function FrameID(boot: string, f: RecoveryFrame): Identity {
    Identity(boot, f.originalSourceID, f.originalSequence, f.originalPayload)
  }

  function ReceiptID(r: Receipt): Identity {
    Identity(r.originalBoot, r.originalSourceID, r.originalSequence, r.originalPayload)
  }

  function FrameIDs(replay: Replay): (ids: seq<Identity>)
    ensures |ids| == |replay.frames| && forall i :: 0 <= i < |ids| ==>
      ids[i] == Identity(replay.originalBoot, replay.frames[i].originalSourceID, replay.frames[i].originalSequence,
                         replay.frames[i].originalPayload)
  {
    seq(|replay.frames|, i requires 0 <= i < |replay.frames| => FrameID(replay.originalBoot, replay.frames[i]))
  }

  function ReceiptIDs(receipts: seq<Receipt>): (ids: seq<Identity>)
    ensures |ids| == |receipts| && forall i :: 0 <= i < |ids| ==>
      ids[i] == Identity(receipts[i].originalBoot, receipts[i].originalSourceID, receipts[i].originalSequence,
                         receipts[i].originalPayload)
  {
    seq(|receipts|, i requires 0 <= i < |receipts| => ReceiptID(receipts[i]))
  }

  predicate ValidFrame(f: RecoveryFrame) {
    && IsUUID(f.originalSourceID) && IsUint53(f.originalSequence) && IsUint53(f.originalObservedMS) && IsDigest(f.originalPayload)
    && f.frame.sourceID == f.originalSourceID && f.frame.sequence == f.originalSequence
    && f.frame.observedWallMS == f.originalObservedMS && f.frame.valid
  }

  predicate DistinctFrames(frames: seq<RecoveryFrame>) {
    forall i, j :: 0 <= i < j < |frames| ==>
      frames[i].originalSourceID != frames[j].originalSourceID || frames[i].originalSequence != frames[j].originalSequence
  }

  /** A replay names every retained frame at most once. */
  predicate ValidReplay(r: Replay, scopeHash: string) {
    && r.protocolOK
    && IsUUID(r.grantID) && IsUUID(r.requestID) && IsUUID(r.admittingSecurity) && IsUUID(r.admittingBoot)
    && IsUUID(r.deploymentID) && IsUUID(r.hostID) && IsUUID(r.originalSecurity) && IsUUID(r.originalBoot)
    && IsDigest(r.grantSHA256) && IsDigest(r.scopeSHA256)
    && 1 <= r.admittingSession <= MAX_UINT53 && 1 <= |r.frames| <= 4
    && (forall i :: 0 <= i < |r.frames| ==> ValidFrame(r.frames[i])) && DistinctFrames(r.frames)
    && scopeHash == r.scopeSHA256
  }

  lemma ShortKeyIsInjective(a: string, m: int, b: string, n: int)
    requires '/' !in a && '/' !in b && a + "/" + Text(m) == b + "/" + Text(n)
    ensures a == b && m == n
  {
    SplitsOnce(a, Text(m), b, Text(n), '/');
    TextIsInjective(m, n);
  }

  /** The field checks of one frame. */
  method CheckFrame(f: RecoveryFrame) returns (ok: bool)
    ensures ok <==> ValidFrame(f)
  {
    hide IsUUID, IsDigest;
    if !IsUUID(f.originalSourceID) || f.originalSequence < 0 || f.originalSequence > MAX_UINT53
       || f.originalObservedMS < 0 || f.originalObservedMS > MAX_UINT53 || !IsDigest(f.originalPayload) {
      return false;
    }
    if f.frame.sourceID != f.originalSourceID || f.frame.sequence != f.originalSequence
       || f.frame.observedWallMS != f.originalObservedMS {
      return false;
    }
    return f.frame.valid;
  }

  /** The frame loop of RecoveryReplay.Validate. */
  method ValidateFrames(frames: seq<RecoveryFrame>) returns (ok: bool)
    ensures ok <==> (forall i :: 0 <= i < |frames| ==> ValidFrame(frames[i])) && DistinctFrames(frames)
  {
    hide ValidFrame, ShortKey;
    var seen: set<string> := {};
    for i := 0 to |frames|
      invariant forall k :: 0 <= k < i ==> ValidFrame(frames[k]) && ShortKey(frames[k]) in seen
      invariant forall key :: key in seen ==> exists k :: 0 <= k < i && ShortKey(frames[k]) == key
      invariant forall j, k :: 0 <= j < k < i ==> ShortKey(frames[j]) != ShortKey(frames[k])
    {
      ok := CheckFrame(frames[i]);
      if !ok {
        return;
      }
      if ShortKey(frames[i]) in seen {
        var k :| 0 <= k < i && ShortKey(frames[k]) == ShortKey(frames[i]);
        SameShortKey(frames[k], frames[i]);
        return false;
      }
      seen := seen + {ShortKey(frames[i])};
    }
    forall j, k | 0 <= j < k < |frames|
      ensures frames[j].originalSourceID != frames[k].originalSourceID || frames[j].originalSequence != frames[k].originalSequence
    {
      SameShortKey(frames[j], frames[k]);
    }
    return true;
  }

  /** RecoveryReplay.Validate; scopeHash is the digest of the canonical scope. */
  method ValidateReplay(r: Replay, scopeHash: string) returns (ok: bool)
    ensures ok <==> ValidReplay(r, scopeHash)
  {
    hide IsUUID, IsDigest, ValidFrame, DistinctFrames;
    if !r.protocolOK
       || !(IsUUID(r.grantID) && IsUUID(r.requestID) && IsUUID(r.admittingSecurity) && IsUUID(r.admittingBoot)
            && IsUUID(r.deploymentID) && IsUUID(r.hostID) && IsUUID(r.originalSecurity) && IsUUID(r.originalBoot))
       || !IsDigest(r.grantSHA256) || !IsDigest(r.scopeSHA256)
       || r.admittingSession < 1 || r.admittingSession > MAX_UINT53
       || |r.frames| < 1 || |r.frames| > MAX_REPLAY_FRAMES {
      return false;
    }
    ok := ValidateFrames(r.frames);
    ok := ok && scopeHash == r.scopeSHA256;
  }

  function ShortKey(f: RecoveryFrame): string {
    f.originalSourceID + "/" + Text(f.originalSequence)
  }

  lemma SameShortKey(a: RecoveryFrame, b: RecoveryFrame)
    requires ValidFrame(a) && ValidFrame(b)
    ensures ShortKey(a) == ShortKey(b) <==> a.originalSourceID == b.originalSourceID && a.originalSequence == b.originalSequence
  {
    UUIDHasNoSlash(a.originalSourceID);
    UUIDHasNoSlash(b.originalSourceID);
    hide IsUUID, IsDigest;
    if ShortKey(a) == ShortKey(b) {
      ShortKeyIsInjective(a.originalSourceID, a.originalSequence, b.originalSourceID, b.originalSequence);
    }
  }

  // ----- acknowledgements -----

  function WithDisposition(receipts: seq<Receipt>, disposition: string): nat {
    if receipts == [] then 0
    else WithDisposition(receipts[..|receipts| - 1], disposition)
         + (if receipts[|receipts| - 1].disposition == disposition then 1 else 0)
  }

  /** The part of an acknowledgement that is compared with the request as a whole. */
  predicate SameEnvelope(a: ACK, r: Replay) {
    && a.grantID == r.grantID && a.grantSHA256 == r.grantSHA256 && a.requestID == r.requestID && a.scopeSHA256 == r.scopeSHA256
    && a.durable && IsUint53(a.hubTimeMS)
    && |a.receipts| == |r.frames| && a.accepted + a.duplicate + a.rejected == |a.receipts|
  }

  /** The counts are those of the dispositions. */
  predicate CountsAgree(a: ACK) {
    && a.accepted == WithDisposition(a.receipts, "recovered")
    && a.duplicate == WithDisposition(a.receipts, "duplicate")
    && a.rejected == |a.receipts| - a.accepted - a.duplicate
  }

  ghost function Range(ids: seq<Identity>): set<Identity> {
    set i | 0 <= i < |ids| :: ids[i]
  }

  /** No two identities share a key, and no key of theirs can be made from another identity. */
  ghost predicate KeysAreOwn(ids: seq<Identity>) {
    && (forall i, j :: 0 <= i < j < |ids| ==> KeyOf(ids[i]) != KeyOf(ids[j]))
    && (forall i, id: Identity :: 0 <= i < |ids| && KeyOf(id) == KeyOf(ids[i]) ==>
          id.boot == ids[i].boot && id.source == ids[i].source && id.sequence == ids[i].sequence)
  }

  lemma ReplayKeysAreOwn(r: Replay, scopeHash: string)
    requires ValidReplay(r, scopeHash)
    ensures KeysAreOwn(FrameIDs(r))
  {
    var ids := FrameIDs(r);
    UUIDHasNoSlash(r.originalBoot);
    forall i, id: Identity | 0 <= i < |ids| && KeyOf(id) == KeyOf(ids[i])
      ensures id.boot == ids[i].boot && id.source == ids[i].source && id.sequence == ids[i].sequence
    {
      assert ValidFrame(r.frames[i]);
      UUIDHasNoSlash(ids[i].source);
      hide IsUUID, IsDigest;
      JoinedIsInjective(ids[i].boot, ids[i].source, ids[i].sequence, id.boot, id.source, id.sequence);
    }
    hide IsUUID, IsDigest, Joined;
    forall i, j | 0 <= i < j < |ids| ensures KeyOf(ids[i]) != KeyOf(ids[j]) {
      assert r.frames[i].originalSourceID != r.frames[j].originalSourceID || r.frames[i].originalSequence != r.frames[j].originalSequence;
    }
  }

  /** The map of what is still wanted holds exactly the keys of the given identities. */
  ghost predicate Wants(want: map<string, string>, rest: set<Identity>) {
    && (forall id :: id in rest ==> KeyOf(id) in want && want[KeyOf(id)] == id.payload)
    && (forall key :: key in want ==> exists id :: id in rest && KeyOf(id) == key)
  }

  predicate Distinct(ids: seq<Identity>) {
    forall i, j :: 0 <= i < j < |ids| ==> ids[i] != ids[j]
  }

  lemma {:induction false} DistinctAreASet(ids: seq<Identity>)
    requires Distinct(ids)
    ensures multiset(ids) == multiset(Range(ids)) && |Range(ids)| == |ids|
  {
    if ids == [] {
      assert Range(ids) == {};
    } else {
      var front, last := ids[..|ids| - 1], ids[|ids| - 1];
      DistinctAreASet(front);
      assert ids == front + [last];
      assert Range(ids) == Range(front) + {last};
      assert last !in Range(front);
    }
  }

  lemma RepeatedDiffers(ids: seq<Identity>, all: seq<Identity>, i: nat)
    requires Distinct(ids) && i < |all| && (all[i] in Range(ids) ==> all[i] in all[..i])
    ensures multiset(all) != multiset(ids)
  {
    assert all == all[..i] + [all[i]] + all[i + 1..];
    assert multiset(all)[all[i]] >= multiset(all[..i])[all[i]] + 1;
    DistinctAreASet(ids);
    if all[i] in Range(ids) {
      assert multiset(all[..i])[all[i]] >= 1;
      assert multiset(ids)[all[i]] == 1;
    } else {
      assert multiset(ids)[all[i]] == 0;
    }
  }

  /** After some receipts: the identities no longer wanted are among them, each once, and any further
      receipt had an unknown key and an empty digest. */
  ghost predicate Matched(ids: seq<Identity>, before: seq<Identity>, rest: set<Identity>, unknown: nat) {
    && rest <= Range(ids) && |Range(ids) - rest| + unknown == |before|
    && (forall id :: id in Range(ids) - rest ==> id in before)
    && (unknown == 0 ==> multiset(before) == multiset(Range(ids) - rest))
    && (unknown > 0 ==> exists k :: 0 <= k < |before| && before[k].payload == "")
  }

  lemma KnownMatches(ids: seq<Identity>, before: seq<Identity>, rest: set<Identity>, unknown: nat, id: Identity)
    requires Matched(ids, before, rest, unknown) && id in rest
    ensures Matched(ids, before + [id], rest - {id}, unknown)
  {
    var done := Range(ids) - rest;
    assert Range(ids) - (rest - {id}) == done + {id};
    assert |done + {id}| == |done| + 1;
    assert multiset(done + {id}) == multiset(done) + multiset{id};
    if unknown > 0 {
      var k :| 0 <= k < |before| && before[k].payload == "";
      assert (before + [id])[k].payload == "";
    }
  }

  lemma UnknownMatches(ids: seq<Identity>, before: seq<Identity>, rest: set<Identity>, unknown: nat, id: Identity)
    requires Matched(ids, before, rest, unknown) && id.payload == ""
    ensures Matched(ids, before + [id], rest, unknown + 1)
  {
    assert (before + [id])[|before|].payload == "";
  }

  /** By counting, nothing is left over exactly when the receipts are the identities one for one. */
  lemma NothingLeft(ids: seq<Identity>, all: seq<Identity>, rest: set<Identity>, unknown: nat)
    requires Matched(ids, all, rest, unknown) && Distinct(ids) && |all| == |ids|
    requires forall i :: 0 <= i < |ids| ==> ids[i].payload != ""
    ensures rest == {} <==> multiset(all) == multiset(ids)
  {
    DistinctAreASet(ids);
    assert |Range(ids)| == |Range(ids) - rest| + |rest|;
    if rest == {} {
      assert Range(ids) - rest == Range(ids);
    } else {
      assert |rest| > 0;
      var k :| 0 <= k < |all| && all[k].payload == "";
      RepeatedDiffers(ids, all, k);
    }
  }

  lemma MismatchDiffers(ids: seq<Identity>, all: seq<Identity>, i: nat, rest: set<Identity>, unknown: nat, want: map<string, string>)
    requires Distinct(ids) && i < |all| && Matched(ids, all[..i], rest, unknown) && Wants(want, rest)
    requires (if KeyOf(all[i]) in want then want[KeyOf(all[i])] else "") != all[i].payload
    ensures multiset(all) != multiset(ids)
  {
    hide KeyOf;
    RepeatedDiffers(ids, all, i);
  }

  lemma NothingWanted(want: map<string, string>, rest: set<Identity>)
    requires Wants(want, rest)
    ensures want == map[] <==> rest == {}
  {
    hide KeyOf;
    if rest != {} {
      var id :| id in rest;
      assert KeyOf(id) in want;
    } else {
      assert want.Keys == {};
    }
  }

  lemma NothingMatched(ids: seq<Identity>)
    ensures Matched(ids, [], Range(ids), 0)
  {
    assert Range(ids) - Range(ids) == {};
  }

  lemma MatchedIsWithin(ids: seq<Identity>, before: seq<Identity>, rest: set<Identity>, unknown: nat)
    requires Matched(ids, before, rest, unknown)
    ensures rest <= Range(ids)
  {
  }

  lemma ReceiptParts(r: Receipt)
    ensures ReceiptID(r) == Identity(r.originalBoot, r.originalSourceID, r.originalSequence, r.originalPayload)
  {
  }

  /** The receipt loop: per-receipt comparison with what is wanted under its key, where an unknown key
      reads as the empty digest. Only the keys left over at the end expose such a receipt. */
  method MatchReceipts(wanted: map<string, string>, ghost ids: seq<Identity>, receipts: seq<Receipt>) returns (ok: bool)
    requires KeysAreOwn(ids) && Distinct(ids) && Wants(wanted, Range(ids)) && |receipts| == |ids|
    requires forall i :: 0 <= i < |ids| ==> ids[i].payload != ""
    ensures ok <==> multiset(ReceiptIDs(receipts)) == multiset(ids)
  {
    hide *;
    var want := wanted;
    ghost var all := ReceiptIDs(receipts);
    ghost var rest, unknown: nat := Range(ids), 0;
    NothingMatched(ids);
    assert all[..0] == [];
    for i := 0 to |receipts|
      invariant Wants(want, rest) && Matched(ids, all[..i], rest, unknown)
    {
      var key := KeyOf(ReceiptID(receipts[i]));
      ReceiptParts(receipts[i]);
      MatchedIsWithin(ids, all[..i], rest, unknown);
      assert all[..i + 1] == all[..i] + [all[i]];
      if (if key in want then want[key] else "") != receipts[i].originalPayload {
        MismatchDiffers(ids, all, i, rest, unknown, want);
        return false;
      }
      if key in want {
        WantedIsTheReceipt(ids, want, rest, all[i]);
        DroppingKeepsWants(ids, want, rest, all[i]);
        KnownMatches(ids, all[..i], rest, unknown, all[i]);
        rest := rest - {all[i]};
        want := want - {key};
      } else {
        UnknownMatches(ids, all[..i], rest, unknown, all[i]);
        unknown := unknown + 1;
        assert want - {key} == want;
        want := want - {key};
      }
    }
    assert all[..|receipts|] == all;
    NothingWanted(want, rest);
    NothingLeft(ids, all, rest, unknown);
    return want == map[];
  }

  lemma WantedIsTheReceipt(ids: seq<Identity>, want: map<string, string>, rest: set<Identity>, id: Identity)
    requires KeysAreOwn(ids) && Wants(want, rest) && rest <= Range(ids)
    requires KeyOf(id) in want && want[KeyOf(id)] == id.payload
    ensures id in rest
  {
    hide KeyOf;
    var other :| other in rest && KeyOf(other) == KeyOf(id);
    assert other == id;
  }

  lemma DroppingKeepsWants(ids: seq<Identity>, want: map<string, string>, rest: set<Identity>, id: Identity)
    requires KeysAreOwn(ids) && Wants(want, rest) && rest <= Range(ids) && id in rest
    ensures Wants(want - {KeyOf(id)}, rest - {id})
  {
    hide KeyOf;
  }

  /** What every frame of the request is wanted under. */
  method WantedBy(ids: seq<Identity>) returns (want: map<string, string>)
    requires KeysAreOwn(ids)
    ensures Wants(want, Range(ids))
  {
    hide KeyOf;
    want := map[];
    for i := 0 to |ids|
      invariant Wants(want, Range(ids[..i]))
    {
      assert Range(ids[..i + 1]) == Range(ids[..i]) + {ids[i]};
      want := want[KeyOf(ids[i]) := ids[i].payload];
    }
    assert ids[..|ids|] == ids;
  }

  /** An acknowledgement is accepted exactly when its envelope is the request's, its receipts are the
      frames of the request one for one with equal payload digests, and its counts are those of the
      dispositions. */
  method ValidateACK(a: ACK, r: Replay, ghost scopeHash: string) returns (ok: bool)
    requires ValidReplay(r, scopeHash)
    ensures ok <==> SameEnvelope(a, r) && multiset(ReceiptIDs(a.receipts)) == multiset(FrameIDs(r)) && CountsAgree(a)
  {
    hide *;
    ReplayKeysAreOwn(r, scopeHash);
    PayloadsAreDigests(r, scopeHash);
    EnvelopeParts(a, r);
    if a.grantID != r.grantID || a.grantSHA256 != r.grantSHA256 || a.requestID != r.requestID || a.scopeSHA256 != r.scopeSHA256
       || !a.durable || a.hubTimeMS < 0 || a.hubTimeMS > MAX_UINT53 || |a.receipts| != |r.frames|
       || a.accepted + a.duplicate + a.rejected != |a.receipts| {
      return false;
    }
    var ids := FrameIDs(r);
    var want := WantedBy(ids);
    var matched := MatchReceipts(want, ids, a.receipts);
    var recovered, duplicate := CountDispositions(a.receipts);
    return matched && recovered == a.accepted && duplicate == a.duplicate && |a.receipts| - recovered - duplicate == a.rejected;
  }

  lemma EnvelopeParts(a: ACK, r: Replay)
    ensures SameEnvelope(a, r) <==>
      !(a.grantID != r.grantID || a.grantSHA256 != r.grantSHA256 || a.requestID != r.requestID || a.scopeSHA256 != r.scopeSHA256
        || !a.durable || a.hubTimeMS < 0 || a.hubTimeMS > MAX_UINT53 || |a.receipts| != |r.frames|
        || a.accepted + a.duplicate + a.rejected != |a.receipts|)
    ensures CountsAgree(a) <==>
      && WithDisposition(a.receipts, "recovered") == a.accepted && WithDisposition(a.receipts, "duplicate") == a.duplicate
      && |a.receipts| - WithDisposition(a.receipts, "recovered") - WithDisposition(a.receipts, "duplicate") == a.rejected
  {
  }

  lemma PayloadsAreDigests(r: Replay, scopeHash: string)
    requires ValidReplay(r, scopeHash)
    ensures forall i :: 0 <= i < |FrameIDs(r)| ==> FrameIDs(r)[i].payload != ""
    ensures Distinct(FrameIDs(r))
  {
    hide IsUUID;
    forall i | 0 <= i < |FrameIDs(r)| ensures FrameIDs(r)[i].payload != "" {
      assert ValidFrame(r.frames[i]);
    }
    forall i, j | 0 <= i < j < |FrameIDs(r)| ensures FrameIDs(r)[i] != FrameIDs(r)[j] {
      assert r.frames[i].originalSourceID != r.frames[j].originalSourceID || r.frames[i].originalSequence != r.frames[j].originalSequence;
    }
  }

  method CountDispositions(receipts: seq<Receipt>) returns (recovered: nat, duplicate: nat)
    ensures recovered == WithDisposition(receipts, "recovered") && duplicate == WithDisposition(receipts, "duplicate")
  {
    recovered, duplicate := 0, 0;
    for i := 0 to |receipts|
      invariant recovered == WithDisposition(receipts[..i], "recovered")
      invariant duplicate == WithDisposition(receipts[..i], "duplicate")
    {
      assert receipts[..i + 1][..i] == receipts[..i];
      if receipts[i].disposition == "recovered" {
        recovered := recovered + 1;
      }
      if receipts[i].disposition == "duplicate" {
        duplicate := duplicate + 1;
      }
    }
    assert receipts[..|receipts|] == receipts;
  }
}
