/** The byte budget in front of the collector endpoints: a refilling total, a slower refilling share for
    replays, and a slot for small control requests. Amounts are reals, times are seconds. */
module ByteBudget {
  import opened Wrappers

  const CAPACITY := 262_144.0
  const TOTAL_RATE := 262_144.0
  const REPLAY_RATE := 131_072.0
  const CONTROL_BYTES := 4096
  const CONTROL_INTERVAL := 5.0

  datatype State = State(updated: real, total: real, replay: real, controlAt: Option<real>)

  /** A call with the clock readings made while it holds the lock. */
  datatype Call =
    | Take(bytes: int, control: bool, now: real, since: real, stamp: real)
    | TakeReplay(bytes: int, now: real)

  function Initial(start: real): State {
    State(start, 262_144.0, 131_072.0, None)
  }

  function Min(a: real, b: real): real {
    if a <= b then a else b
  }

  function Refilled(s: State, now: real): State {
    s.(updated := now,
       total := Min(CAPACITY, s.total + (now - s.updated) * TOTAL_RATE),
       replay := Min(CAPACITY, s.replay + (now - s.updated) * REPLAY_RATE))
  }

  predicate Allowed(s: State, c: Call) {
    var r := Refilled(s, c.now);
    match c
    case Take(bytes, control, _, since, _) =>
      if control then bytes <= CONTROL_BYTES && (r.controlAt.Some? ==> since - r.controlAt.value >= CONTROL_INTERVAL)
      else bytes as real <= r.total
    case TakeReplay(bytes, _) => bytes as real <= r.replay
  }

  function Next(s: State, c: Call): State {
    var r := Refilled(s, c.now);
    if !Allowed(s, c) then r
    else
      match c
      case Take(bytes, control, _, _, stamp) =>
        if control then r.(controlAt := Some(stamp)) else r.(total := r.total - bytes as real)
      case TakeReplay(bytes, _) => r.(replay := r.replay - bytes as real)
  }

  function StateAfter(start: real, calls: seq<Call>, n: nat): State
    requires n <= |calls|
  {
    if n == 0 then Initial(start) else Next(StateAfter(start, calls, n - 1), calls[n - 1])
  }

  predicate Admits(start: real, calls: seq<Call>, n: nat)
    requires n < |calls|
  {
    Allowed(StateAfter(start, calls, n), calls[n])
  }

  class Budget {
    var updated: real
    var total: real
    var replay: real
    var controlAt: Option<real>

    function Now(): State
      reads this
    {
      State(updated, total, replay, controlAt)
    }

    constructor (start: real)
      ensures Now() == Initial(start)
    {
      updated, total, replay, controlAt := start, 262_144.0, 131_072.0, None;
    }

    method Refill(now: real)
      modifies this
      ensures Now() == Refilled(old(Now()), now)
    {
      var elapsed := now - updated;
      updated := now;
      total := Min(CAPACITY, total + elapsed * TOTAL_RATE);
      replay := Min(CAPACITY, replay + elapsed * REPLAY_RATE);
    }

    method TakeBytes(bytes: int, control: bool, now: real, since: real, stamp: real) returns (ok: bool)
      modifies this
      ensures ok <==> Allowed(old(Now()), Take(bytes, control, now, since, stamp))
      ensures Now() == Next(old(Now()), Take(bytes, control, now, since, stamp))
    {
      Refill(now);
      if control {
        if bytes > CONTROL_BYTES || (controlAt.Some? && since - controlAt.value < CONTROL_INTERVAL) {
          return false;
        }
        controlAt := Some(stamp);
        return true;
      }
      if bytes as real > total {
        return false;
      }
      total := total - bytes as real;
      return true;
    }

    method TakeReplayBytes(bytes: int, now: real) returns (ok: bool)
      modifies this
      ensures ok <==> Allowed(old(Now()), TakeReplay(bytes, now))
      ensures Now() == Next(old(Now()), TakeReplay(bytes, now))
    {
      Refill(now);
      if bytes as real > replay {
        return false;
      }
      replay := replay - bytes as real;
      return true;
    }

    /** Any run of calls, and which of them were admitted. */
    method Serve(start: real, calls: seq<Call>) returns (admitted: seq<bool>)
      requires Now() == Initial(start)
      modifies this
      ensures |admitted| == |calls| && Now() == StateAfter(start, calls, |calls|)
      ensures forall i :: 0 <= i < |calls| ==> (admitted[i] <==> Admits(start, calls, i))
    {
      admitted := [];
      for n := 0 to |calls|
        invariant |admitted| == n && Now() == StateAfter(start, calls, n)
        invariant forall i :: 0 <= i < n ==> (admitted[i] <==> Admits(start, calls, i))
      {
        var ok;
        match calls[n] {
          case Take(bytes, control, now, since, stamp) => ok := TakeBytes(bytes, control, now, since, stamp);
          case TakeReplay(bytes, now) => ok := TakeReplayBytes(bytes, now);
        }
        admitted := admitted + [ok];
      }
    }
  }

  // ----- windows -----

  function EndOf(c: Call): real {
    match c
    case Take(_, _, _, _, stamp) => stamp
    case TakeReplay(_, now) => now
  }

  /** The clock does not go back, in a call or between calls, and bodies have a length. */
  predicate Timely(start: real, calls: seq<Call>) {
    && (forall i :: 0 <= i < |calls| ==> start <= calls[i].now && calls[i].now <= EndOf(calls[i]) && calls[i].bytes >= 0)
    && (forall i :: 0 <= i < |calls| && calls[i].Take? ==> calls[i].now <= calls[i].since <= calls[i].stamp)
    && (forall i, j :: 0 <= i < j < |calls| ==> EndOf(calls[i]) <= calls[j].now)
  }

  datatype Lane = General | Control | Replay

  predicate InLane(c: Call, lane: Lane) {
    match c
    case Take(_, control, _, _, _) => lane == if control then Control else General
    case TakeReplay(_, _) => lane == Replay
  }

  /** Bytes admitted in a lane by calls i to j-1. */
  function BytesIn(start: real, calls: seq<Call>, lane: Lane, i: nat, j: nat): int
    requires i <= j <= |calls|
  {
    if i == j then 0
    else BytesIn(start, calls, lane, i, j - 1)
         + if InLane(calls[j - 1], lane) && Admits(start, calls, j - 1) then calls[j - 1].bytes else 0
  }

  function AdmittedIn(start: real, calls: seq<Call>, lane: Lane, i: nat, j: nat): nat
    requires i <= j <= |calls|
  {
    if i == j then 0
    else AdmittedIn(start, calls, lane, i, j - 1)
         + if InLane(calls[j - 1], lane) && Admits(start, calls, j - 1) then 1 else 0
  }

  lemma {:induction false} Amounts(start: real, calls: seq<Call>, n: nat)
    requires n <= |calls| && Timely(start, calls)
    ensures
      var s := StateAfter(start, calls, n);
      && 0.0 <= s.total <= CAPACITY && 0.0 <= s.replay <= CAPACITY
      && s.updated == if n == 0 then start else calls[n - 1].now
  {
    if n > 0 {
      Amounts(start, calls, n - 1);
      var s := StateAfter(start, calls, n - 1);
      assert s.updated <= calls[n - 1].now;
      RefillAdds(s, calls[n - 1].now);
    }
  }

  lemma RefillAdds(s: State, now: real)
    requires s.updated <= now && s.total <= CAPACITY && s.replay <= CAPACITY
    ensures s.total <= Refilled(s, now).total <= CAPACITY && s.replay <= Refilled(s, now).replay <= CAPACITY
    ensures Refilled(s, now).total <= s.total + (now - s.updated) * TOTAL_RATE
    ensures Refilled(s, now).replay <= s.replay + (now - s.updated) * REPLAY_RATE
  {
    assert (now - s.updated) * TOTAL_RATE >= 0.0 && (now - s.updated) * REPLAY_RATE >= 0.0;
  }

  /** What was admitted in a window and what is left never exceed a full bucket and the refill since. */
  lemma {:induction false} WindowLedger(start: real, calls: seq<Call>, i: nat, j: nat)
    requires i < j <= |calls| && Timely(start, calls)
    ensures
      var s := StateAfter(start, calls, j);
      var seconds := calls[j - 1].now - calls[i].now;
      && BytesIn(start, calls, General, i, j) as real + s.total <= CAPACITY + seconds * TOTAL_RATE
      && BytesIn(start, calls, Replay, i, j) as real + s.replay <= CAPACITY + seconds * REPLAY_RATE
  {
    Amounts(start, calls, j - 1);
    var s := StateAfter(start, calls, j - 1);
    var c := calls[j - 1];
    RefillAdds(s, c.now);
    if j - 1 > i {
      WindowLedger(start, calls, i, j - 1);
      var before := calls[j - 2].now - calls[i].now;
      assert s.updated == calls[j - 2].now;
      assert (before + (c.now - s.updated)) * TOTAL_RATE == before * TOTAL_RATE + (c.now - s.updated) * TOTAL_RATE;
      assert (before + (c.now - s.updated)) * REPLAY_RATE == before * REPLAY_RATE + (c.now - s.updated) * REPLAY_RATE;
    }
  }

  /** In any window of T seconds of any run at most 262144 + 262144 T ordinary bytes and at most
      262144 + 131072 T replay bytes are admitted. */
  lemma WindowBound(start: real, calls: seq<Call>, i: nat, j: nat, seconds: real)
    requires i < j <= |calls| && Timely(start, calls) && calls[j - 1].now - calls[i].now <= seconds
    ensures BytesIn(start, calls, General, i, j) as real <= 262_144.0 + 262_144.0 * seconds
    ensures BytesIn(start, calls, Replay, i, j) as real <= 262_144.0 + 131_072.0 * seconds
  {
    WindowLedger(start, calls, i, j);
    Amounts(start, calls, j);
    var exact := calls[j - 1].now - calls[i].now;
    assert exact * TOTAL_RATE <= seconds * TOTAL_RATE && exact * REPLAY_RATE <= seconds * REPLAY_RATE;
  }

  /** A body over the capacity is never admitted, however long the wait. */
  lemma LargeBodiesNever(start: real, calls: seq<Call>, n: nat)
    requires n < |calls| && Timely(start, calls) && Admits(start, calls, n)
    ensures calls[n].bytes <= if InLane(calls[n], Control) then 4_096 else 262_144
  {
    Amounts(start, calls, n);
    RefillAdds(StateAfter(start, calls, n), calls[n].now);
  }

  /** After k admitted control requests in a window, the last of them is five seconds per earlier one after
      the window's start. */
  lemma {:induction false} ControlSpacing(start: real, calls: seq<Call>, i: nat, j: nat)
    requires i < j <= |calls| && Timely(start, calls)
    ensures
      var k := AdmittedIn(start, calls, Control, i, j);
      var at := StateAfter(start, calls, j).controlAt;
      && (at.Some? ==> at.value <= EndOf(calls[j - 1]))
      && (k > 0 ==> at.Some? && calls[i].now + (k - 1) as real * CONTROL_INTERVAL <= at.value)
  {
    ControlStampIsPast(start, calls, j);
    if j - 1 > i {
      ControlSpacing(start, calls, i, j - 1);
    }
    var k := AdmittedIn(start, calls, Control, i, j - 1);
    if InLane(calls[j - 1], Control) && Admits(start, calls, j - 1) && k > 0 {
      assert k as real * CONTROL_INTERVAL == (k - 1) as real * CONTROL_INTERVAL + CONTROL_INTERVAL;
    }
  }

  lemma {:induction false} ControlStampIsPast(start: real, calls: seq<Call>, n: nat)
    requires n <= |calls| && Timely(start, calls)
    ensures StateAfter(start, calls, n).controlAt.Some? ==> n > 0 && StateAfter(start, calls, n).controlAt.value <= EndOf(calls[n - 1])
  {
    if n > 0 {
      ControlStampIsPast(start, calls, n - 1);
    }
  }

  /** In any window of T seconds at most floor(T / 5) + 1 control requests are admitted. */
  lemma ControlBound(start: real, calls: seq<Call>, i: nat, j: nat, seconds: real)
    requires i < j <= |calls| && Timely(start, calls) && EndOf(calls[j - 1]) - calls[i].now <= seconds
    ensures AdmittedIn(start, calls, Control, i, j) <= (seconds / 5.0).Floor + 1
  {
    ControlSpacing(start, calls, i, j);
    var k := AdmittedIn(start, calls, Control, i, j);
    assert EndOf(calls[j - 1]) >= calls[i].now;
    if k > 0 {
      assert (k - 1) as real * 5.0 <= seconds;
      assert (k - 1) as real <= seconds / 5.0;
    }
    assert seconds / 5.0 >= 0.0;
  }

  // ----- exactly what is admitted -----

  /** The bytes a lane has at a call, after the refill. */
  function RoomAt(start: real, calls: seq<Call>, lane: Lane, n: nat): real
    requires n < |calls|
  {
    var r := Refilled(StateAfter(start, calls, n), calls[n].now);
    if lane == Replay then r.replay else r.total
  }

  function RateOf(lane: Lane): real {
    if lane == Replay then 131_072.0 else 262_144.0
  }

  /** What a lane has when the budget is made. */
  function StockOf(lane: Lane): real {
    if lane == Replay then 131_072.0 else 262_144.0
  }

  /** What the window from call i, or with None from the start, still leaves for call n. */
  function LeftIn(start: real, calls: seq<Call>, lane: Lane, i: Option<nat>, n: nat): real
    requires n < |calls| && (i.Some? ==> i.value <= n)
  {
    match i
    case None => StockOf(lane) + (calls[n].now - start) * RateOf(lane) - BytesIn(start, calls, lane, 0, n) as real
    case Some(k) => 262_144.0 + (calls[n].now - calls[k].now) * RateOf(lane) - BytesIn(start, calls, lane, k, n) as real
  }

  lemma {:induction false} RoomIsTheLeast(start: real, calls: seq<Call>, lane: Lane, n: nat) returns (i: Option<nat>)
    requires n < |calls| && lane != Control && Timely(start, calls)
    ensures i.Some? ==> i.value <= n
    ensures RoomAt(start, calls, lane, n) == LeftIn(start, calls, lane, i, n)
    ensures RoomAt(start, calls, lane, n) <= LeftIn(start, calls, lane, None, n)
    ensures forall k: nat :: k <= n ==> RoomAt(start, calls, lane, n) <= LeftIn(start, calls, lane, Some(k), n)
  {
    EmptyWindow(start, calls, lane, n);
    hide RoomAt, LeftIn, RateOf, StockOf, Taken, Timely;
    if n == 0 {
      FirstRoom(start, calls, lane);
      i := if RoomAt(start, calls, lane, 0) == CAPACITY then Some(0) else None;
    } else {
      var before := RoomIsTheLeast(start, calls, lane, n - 1);
      RoomStep(start, calls, lane, n);
      WindowStep(start, calls, lane, before, n);
      WindowStep(start, calls, lane, None, n);
      forall k: nat | k <= n ensures RoomAt(start, calls, lane, n) <= LeftIn(start, calls, lane, Some(k), n) {
        if k < n {
          WindowStep(start, calls, lane, Some(k), n);
        }
      }
      i := if RoomAt(start, calls, lane, n) == CAPACITY then Some(n) else before;
    }
  }

  lemma EmptyWindow(start: real, calls: seq<Call>, lane: Lane, n: nat)
    requires n < |calls|
    ensures LeftIn(start, calls, lane, Some(n), n) == CAPACITY && RoomAt(start, calls, lane, n) <= CAPACITY
  {
  }

  lemma FirstRoom(start: real, calls: seq<Call>, lane: Lane)
    requires |calls| > 0 && Timely(start, calls)
    ensures RoomAt(start, calls, lane, 0) == Min(CAPACITY, LeftIn(start, calls, lane, None, 0))
  {
  }

  /** Bytes a call takes from its lane. */
  function Taken(start: real, calls: seq<Call>, lane: Lane, n: nat): int
    requires n < |calls|
  {
    if InLane(calls[n], lane) && Admits(start, calls, n) then calls[n].bytes else 0
  }

  lemma RoomStep(start: real, calls: seq<Call>, lane: Lane, n: nat)
    requires 0 < n < |calls| && lane != Control && Timely(start, calls)
    ensures RoomAt(start, calls, lane, n) ==
      Min(CAPACITY, RoomAt(start, calls, lane, n - 1) - Taken(start, calls, lane, n - 1) as real
                    + (calls[n].now - calls[n - 1].now) * RateOf(lane))
  {
    Amounts(start, calls, n);
  }

  lemma WindowStep(start: real, calls: seq<Call>, lane: Lane, i: Option<nat>, n: nat)
    requires 0 < n < |calls| && (i.Some? ==> i.value < n)
    ensures LeftIn(start, calls, lane, i, n) ==
      LeftIn(start, calls, lane, i, n - 1) - Taken(start, calls, lane, n - 1) as real
      + (calls[n].now - calls[n - 1].now) * RateOf(lane)
  {
    var from := if i.Some? then calls[i.value].now else start;
    assert (calls[n].now - from) * RateOf(lane)
           == (calls[n - 1].now - from) * RateOf(lane) + (calls[n].now - calls[n - 1].now) * RateOf(lane);
  }

  /** The body fits what every window that ends with it leaves: a full bucket and the refill since the window's
      first call, and the first stock and the refill since the start. */
  ghost predicate FitsEveryWindow(start: real, calls: seq<Call>, lane: Lane, n: nat)
    requires n < |calls|
  {
    && FitsIn(BytesIn(start, calls, lane, 0, n) + calls[n].bytes, StockOf(lane), calls[n].now - start, lane)
    && forall i: nat :: i <= n ==>
         FitsIn(BytesIn(start, calls, lane, i, n) + calls[n].bytes, 262_144.0, calls[n].now - calls[i].now, lane)
  }

  /** The bytes fit a stock and its refill over some seconds. */
  predicate FitsIn(bytes: int, stock: real, seconds: real, lane: Lane) {
    bytes as real <= stock + seconds * RateOf(lane)
  }

  /** A body is admitted exactly when it fits every window. */
  lemma AdmittedExactly(start: real, calls: seq<Call>, n: nat)
    requires n < |calls| && Timely(start, calls) && !InLane(calls[n], Control)
    ensures Admits(start, calls, n) <==> FitsEveryWindow(start, calls, if calls[n].TakeReplay? then Replay else General, n)
  {
    hide *;
    RoomDecides(start, calls, n);
    FitsIsRoom(start, calls, if calls[n].TakeReplay? then Replay else General, n);
  }

  lemma FitsIsRoom(start: real, calls: seq<Call>, lane: Lane, n: nat)
    requires n < |calls| && Timely(start, calls) && lane != Control
    ensures FitsEveryWindow(start, calls, lane, n) <==> calls[n].bytes as real <= RoomAt(start, calls, lane, n)
  {
    hide RoomAt, BytesIn, StateAfter, Timely, FitsIn, LeftIn, StockOf, RateOf;
    var i := RoomIsTheLeast(start, calls, lane, n);
    WindowFits(start, calls, lane, None, n);
    WindowFits(start, calls, lane, i, n);
    forall k: nat | k <= n ensures RoomAt(start, calls, lane, n) <= LeftIn(start, calls, lane, Some(k), n)
      ensures FitsIn(BytesIn(start, calls, lane, k, n) + calls[n].bytes, 262_144.0, calls[n].now - calls[k].now, lane)
              <==> calls[n].bytes as real <= LeftIn(start, calls, lane, Some(k), n)
    {
      WindowFits(start, calls, lane, Some(k), n);
    }
  }

  lemma WindowFits(start: real, calls: seq<Call>, lane: Lane, i: Option<nat>, n: nat)
    requires n < |calls| && (i.Some? ==> i.value <= n)
    ensures i.None? ==>
      (FitsIn(BytesIn(start, calls, lane, 0, n) + calls[n].bytes, StockOf(lane), calls[n].now - start, lane)
       <==> calls[n].bytes as real <= LeftIn(start, calls, lane, i, n))
    ensures i.Some? ==>
      (FitsIn(BytesIn(start, calls, lane, i.value, n) + calls[n].bytes, 262_144.0, calls[n].now - calls[i.value].now, lane)
       <==> calls[n].bytes as real <= LeftIn(start, calls, lane, i, n))
  {
    hide BytesIn;
  }

  lemma RoomDecides(start: real, calls: seq<Call>, n: nat)
    requires n < |calls| && !InLane(calls[n], Control)
    ensures
      var lane := if calls[n].TakeReplay? then Replay else General;
      Admits(start, calls, n) <==> calls[n].bytes as real <= RoomAt(start, calls, lane, n)
  {
    hide StateAfter;
  }

  lemma {:induction false} LastStamp(start: real, calls: seq<Call>, n: nat)
    requires n <= |calls| && Timely(start, calls)
    ensures
      var at := StateAfter(start, calls, n).controlAt;
      && (forall i :: 0 <= i < n && InLane(calls[i], Control) && Admits(start, calls, i) ==>
            at.Some? && EndOf(calls[i]) <= at.value)
      && (at.Some? ==> exists i :: 0 <= i < n && InLane(calls[i], Control) && Admits(start, calls, i) && EndOf(calls[i]) == at.value)
  {
    if n > 0 {
      LastStamp(start, calls, n - 1);
      if InLane(calls[n - 1], Control) && Admits(start, calls, n - 1) {
        assert StateAfter(start, calls, n).controlAt == Some(EndOf(calls[n - 1]));
      } else {
        assert StateAfter(start, calls, n).controlAt == StateAfter(start, calls, n - 1).controlAt;
      }
    }
  }

  /** A control request is admitted exactly when it is small and none was admitted in the five seconds before. */
  lemma ControlExactly(start: real, calls: seq<Call>, n: nat)
    requires n < |calls| && Timely(start, calls) && InLane(calls[n], Control)
    ensures Admits(start, calls, n) <==>
      && calls[n].bytes <= 4_096
      && forall i :: 0 <= i < n && InLane(calls[i], Control) && Admits(start, calls, i) ==>
           calls[n].since - EndOf(calls[i]) >= 5.0
  {
    LastStamp(start, calls, n);
  }
}
