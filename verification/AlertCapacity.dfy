/** Durable-capacity admission of alert writes, in the source's 64-bit arithmetic. */
module AlertCapacity {
  import opened Wrappers

  newtype int64 = x: int | -0x8000_0000_0000_0000 <= x <= 0x7FFF_FFFF_FFFF_FFFF

  const MAX: int64 := 0x7FFF_FFFF_FFFF_FFFF
  const CLOCK_SKEW_MS: int64 := 5000
  const MEASUREMENT_MAX_AGE_MS: int64 := 30_000

  datatype Envelope = Cursor | TransitionOnly | Firing | Resolution

  datatype Class = IncidentLedger | Metadata | LiveTotal

  datatype Reservation = Reservation(incident: int64, metadata: int64, live: int64)

  datatype Quota = Quota(limit: int64, current: int64, reserved: int64)

  datatype Pending = Pending(incident: int64, metadata: int64, live: int64)

  /** The maintenance row and the three quota rows an admission reads. */
  datatype Ledger = Ledger(
    readOnly: bool, observedMS: int64, bulk: int64, recovery: int64, pending: Pending,
    quotas: map<Class, Quota>)

  function ReservationFor(e: Envelope): Reservation {
    match e
    case Cursor => Reservation(4096, 24576, 28672)
    case TransitionOnly => Reservation(4096, 24576, 28672)
    case Firing => Reservation(69632, 1064960 + 24576, 1179648 + 24576)
    case Resolution => Reservation(4096, 1064960 + 24576, 1069056 + 24576)
  }

  function Requested(r: Reservation, c: Class): int64 {
    match c
    case IncidentLedger => r.incident
    case Metadata => r.metadata
    case LiveTotal => r.live
  }

  /** Rows as the schema's checks and the cursor readers leave them. */
  predicate Stored(l: Ledger) {
    && l.observedMS >= 0 && l.bulk >= 0 && l.recovery >= 0
    && l.pending.incident >= 0 && l.pending.metadata >= 0 && l.pending.live >= 0
    && forall c :: c in l.quotas ==> l.quotas[c].limit >= 0 && l.quotas[c].current >= 0 && l.quotas[c].reserved >= 0
  }

  /** The bytes charged to a class beside its own pending alerts, as a true sum. */
  function PendingTotal(l: Ledger, c: Class): int {
    match c
    case IncidentLedger => l.pending.incident as int
    case Metadata => l.pending.metadata as int + l.recovery as int
    case LiveTotal => l.bulk as int + l.recovery as int + l.pending.live as int
  }

  function Charged(l: Ledger, c: Class): int
    requires c in l.quotas
  {
    l.quotas[c].current as int + l.quotas[c].reserved as int + PendingTotal(l, c)
  }

  /** Every class is configured and within its limit. */
  predicate Within(l: Ledger) {
    forall c: Class :: c in l.quotas && Charged(l, c) <= l.quotas[c].limit as int
  }

  function Charge(p: Pending, r: Reservation): Pending
    requires p.incident as int + r.incident as int <= MAX as int && 0 <= p.incident && 0 <= r.incident
    requires p.metadata as int + r.metadata as int <= MAX as int && 0 <= p.metadata && 0 <= r.metadata
    requires p.live as int + r.live as int <= MAX as int && 0 <= p.live && 0 <= r.live
  {
    Pending(p.incident + r.incident, p.metadata + r.metadata, p.live + r.live)
  }

  /** The measurement may be used at this time. */
  predicate Fresh(l: Ledger, now: int64) {
    && !l.readOnly
    && l.observedMS as int <= now as int + 5_000
    && now as int - l.observedMS as int <= 30_000
  }

  predicate FitsClass(l: Ledger, c: Class, requested: int64) {
    c in l.quotas && Charged(l, c) + requested as int <= l.quotas[c].limit as int
  }

  /** The exact condition, in unbounded integers, under which the envelope fits every class. */
  predicate Fits(l: Ledger, e: Envelope) {
    forall c: Class :: FitsClass(l, c, Requested(ReservationFor(e), c))
  }

  /** One class: the guarded sums decide exactly whether the true sum fits. */
  method AdmitClass(l: Ledger, c: Class, requested: int64) returns (ok: bool)
    requires Stored(l) && requested >= 0
    ensures ok <==> FitsClass(l, c, requested)
  {
    if c !in l.quotas {
      return false;
    }
    var quota := l.quotas[c];
    var pending: int64 := 0;
    match c {
      case IncidentLedger =>
        pending := l.pending.incident;
      case Metadata =>
        if l.recovery > MAX - l.pending.metadata {
          return false;
        }
        pending := l.pending.metadata + l.recovery;
      case LiveTotal =>
        if l.bulk > MAX - pending {
          return false;
        }
        pending := pending + l.bulk;
        if l.recovery > MAX - pending {
          return false;
        }
        pending := pending + l.recovery;
        if l.pending.live > MAX - pending {
          return false;
        }
        pending := pending + l.pending.live;
    }
    if requested > quota.limit || quota.current > MAX - quota.reserved
       || quota.current + quota.reserved > MAX - pending
       || quota.current + quota.reserved + pending > quota.limit - requested {
      return false;
    }
    return true;
  }

  /** Admits exactly when the measurement is fresh and the true sums fit, whatever order the
      classes are checked in; no intermediate 64-bit sum overflows. */
  method Admit(l: Ledger, e: Envelope, now: int64) returns (r: Option<Ledger>)
    requires Stored(l) && 0 <= now <= MAX - 5_000
    ensures r.Some? <==> Fresh(l, now) && Fits(l, e)
    ensures r.Some? ==>
      && r.value.pending.incident as int == l.pending.incident as int + ReservationFor(e).incident as int
      && r.value.pending.metadata as int == l.pending.metadata as int + ReservationFor(e).metadata as int
      && r.value.pending.live as int == l.pending.live as int + ReservationFor(e).live as int
      && r.value.(pending := l.pending) == l
    ensures r == Admitted(l, e, now)
  {
    var requests := ReservationFor(e);
    if l.readOnly {
      return None;
    }
    if l.observedMS > now + CLOCK_SKEW_MS || now - l.observedMS > MEASUREMENT_MAX_AGE_MS {
      return None;
    }
    if requests.incident > MAX - l.pending.incident || requests.metadata > MAX - l.pending.metadata
       || requests.live > MAX - l.pending.live {
      OverflowMeansNoFit(l, e);
      return None;
    }
    var todo := {IncidentLedger, Metadata, LiveTotal};
    forall c: Class ensures c in todo {
      match c { case IncidentLedger => case Metadata => case LiveTotal => }
    }
    while todo != {}
      invariant forall c: Class :: c in todo || FitsClass(l, c, Requested(requests, c))
      decreases |todo|
    {
      var c :| c in todo;
      var ok := AdmitClass(l, c, Requested(requests, c));
      if !ok {
        return None;
      }
      todo := todo - {c};
    }
    assert Fits(l, e);
    return Some(l.(pending := Charge(l.pending, requests)));
  }

  lemma OverflowMeansNoFit(l: Ledger, e: Envelope)
    requires Stored(l)
    requires
      var r := ReservationFor(e);
      r.incident > MAX - l.pending.incident || r.metadata > MAX - l.pending.metadata || r.live > MAX - l.pending.live
    ensures !Fits(l, e)
  {
    var r := ReservationFor(e);
    var c := if r.incident > MAX - l.pending.incident then IncidentLedger
             else if r.metadata > MAX - l.pending.metadata then Metadata else LiveTotal;
    assert !FitsClass(l, c, Requested(r, c));
  }

  // ----- runs of admissions between two measurements -----

  /** The row an admission leaves, or None when it is refused. */
  function Admitted(l: Ledger, e: Envelope, now: int64): Option<Ledger>
    requires Stored(l)
  {
    if Fresh(l, now) && Fits(l, e) then
      FitsLeavesRoom(l, e);
      Some(l.(pending := Charge(l.pending, ReservationFor(e))))
    else None
  }

  lemma FitsLeavesRoom(l: Ledger, e: Envelope)
    requires Stored(l) && Fits(l, e)
    ensures
      var r := ReservationFor(e);
      && l.pending.incident as int + r.incident as int <= MAX as int
      && l.pending.metadata as int + r.metadata as int <= MAX as int
      && l.pending.live as int + r.live as int <= MAX as int
  {
    var r := ReservationFor(e);
    assert FitsClass(l, IncidentLedger, Requested(r, IncidentLedger));
    assert FitsClass(l, Metadata, Requested(r, Metadata));
    assert FitsClass(l, LiveTotal, Requested(r, LiveTotal));
  }

  datatype Attempt = Attempt(envelope: Envelope, now: int64)

  /** Refused attempts roll back and leave the row as it was. */
  function After(l: Ledger, attempts: seq<Attempt>): (r: Ledger)
    requires Stored(l)
    ensures Stored(r)
  {
    if attempts == [] then l
    else
      var before := After(l, attempts[..|attempts| - 1]);
      var last := attempts[|attempts| - 1];
      var next := Admitted(before, last.envelope, last.now);
      if next.Some? then next.value else before
  }

  /** Bytes reserved in a class by the attempts that were admitted. */
  function AdmittedBytes(l: Ledger, attempts: seq<Attempt>, c: Class): int
    requires Stored(l)
  {
    if attempts == [] then 0
    else
      var before := attempts[..|attempts| - 1];
      var last := attempts[|attempts| - 1];
      AdmittedBytes(l, before, c)
      + if Admitted(After(l, before), last.envelope, last.now).Some?
        then Requested(ReservationFor(last.envelope), c) as int else 0
  }

  /** Along any run of attempts the pending ledger is exactly the sum of the admitted
      reservations, and no class ever exceeds its limit. */
  lemma {:induction false} LedgerIsTheSum(l: Ledger, attempts: seq<Attempt>)
    requires Stored(l) && Within(l)
    ensures
      var r := After(l, attempts);
      && Within(r)
      && r.(pending := l.pending) == l
      && r.pending.incident as int == l.pending.incident as int + AdmittedBytes(l, attempts, IncidentLedger)
      && r.pending.metadata as int == l.pending.metadata as int + AdmittedBytes(l, attempts, Metadata)
      && r.pending.live as int == l.pending.live as int + AdmittedBytes(l, attempts, LiveTotal)
  {
    if attempts != [] {
      LedgerIsTheSum(l, attempts[..|attempts| - 1]);
      var before := After(l, attempts[..|attempts| - 1]);
      var last := attempts[|attempts| - 1];
      var r := After(l, attempts);
      if Fresh(before, last.now) && Fits(before, last.envelope) {
        forall c: Class ensures c in r.quotas && Charged(r, c) <= r.quotas[c].limit as int {
          assert FitsClass(before, c, Requested(ReservationFor(last.envelope), c));
        }
      }
    }
  }
}
