/** The query side: one bounded current-state input per rule and pass, with its evidence. */
module AlertWrites {
  import opened Wrappers
  import opened AlertTypes
  import opened AlertReducer
  import opened AlertEvaluators
  import opened AlertInstances
  import Int64

  const MAX_UINT53 := 0x1F_FFFF_FFFF_FFFF
  const NANOS_PER_MS := 1_000_000

  /** One scheduled pass: a wall time, and monotonic durations in nanoseconds. */
  datatype Cycle = Cycle(eventMS: int, elapsedNS: int, lagNS: int, restarted: bool)

  /** The freshness class of a source named in the collector's status. */
  datatype SourceHealth = Fresh | Stale | Incompatible | Unavailable | Other

  datatype Status = Status(admittedMS: int, runtimeSource: Option<SourceHealth>, metricSource: Option<SourceHealth>)

  datatype HostFence = HostFence(
    hostID: string, createdMS: int, sessionGeneration: int, bootID: Option<string>, status: Option<Status>)

  datatype TargetFence = TargetFence(targetID: string, hostID: string, createdMS: int)

  datatype Episode = Episode(startupDeadlineMS: int, everReachable: bool)

  datatype EpisodeWrite = EpisodeWrite(
    targetID: string, expected: Option<Episode>, observedMS: int, reachable: Option<bool>)

  datatype MetricValue = NumberValue(number: real) | TextValue(text: string) | FlagValue(flag: bool)

  /** The newest current frame that carries the metric; value is absent when it does not decode. */
  datatype Sample = Sample(observedMS: int, state: DataState, value: Option<MetricValue>, certified: bool)

  datatype MonitorFacts = MonitorFacts(storageNormal: bool, capacityObservedMS: Option<int>, finalDeliveryFailed: bool)

  /** What a plan and live snapshot say about one rule. */
  datatype Facts = Facts(
    host: Option<HostFence>,
    target: Option<TargetFence>,
    sourceKnown: bool,
    sample: Option<Sample>,
    episode: Option<Episode>,
    monitor: MonitorFacts)

  datatype Metric =
    | HeartbeatAge | SourceAvailability | CPUBusyRatio | PressureLevel | Reachable
    | MonitorStorage | MonitorLag | MonitorDelivery

  datatype Evidence = Evidence(
    metric: Metric, windowStartMS: int, windowEndMS: int, observedMS: int,
    value: MetricValue, fromStatus: bool)

  datatype Planned = Planned(
    ruleID: string, version: int, ruleType: RuleType, scope: string,
    cursor: Option<int>, newest: Option<Snapshot>)

  datatype Write = Write(
    ruleID: string, version: int, ordinal: int, observedThroughMS: int, hash: string,
    eventMS: int, elapsedMS: int, hubRestarted: bool,
    input: Input, observedDwellMS: int, evidence: Option<Evidence>, episode: Option<EpisodeWrite>)

  function Millis(ns: int): (ms: int)
    requires ns >= 0
    ensures ms * 1_000_000 <= ns < (ms + 1) * 1_000_000
  {
    ns / NANOS_PER_MS
  }

  function BaseEvidence(metric: Metric, nowMS: int, observedMS: int, value: MetricValue, fromStatus: bool): Evidence {
    Evidence(metric, nowMS, nowMS + 1, observedMS, value, fromStatus)
  }

  function Rank(s: DataState): nat {
    match s
    case DataValid => 0
    case DataUnknown => 1
    case DataStale => 2
    case DataIncompatible => 3
  }

  function WorseDataState(left: DataState, right: DataState): DataState {
    if Rank(right) > Rank(left) then right else left
  }

  function StatusDataState(host: Option<HostFence>, sourceKnown: bool, nowMS: int): DataState {
    if host.None? || host.value.status.None? || !sourceKnown || host.value.status.value.admittedMS > nowMS then DataUnknown
    else if nowMS - host.value.status.value.admittedMS > 60_000 then DataStale
    else
      match host.value.status.value.metricSource
      case None => DataUnknown
      case Some(Fresh) => DataValid
      case Some(Stale) => DataStale
      case Some(Incompatible) => DataIncompatible
      case Some(_) => DataUnknown
  }

  /** The worse of two qualities: incompatible before stale before unknown before valid. */
  lemma WorseIs(left: DataState, right: DataState)
    ensures
      WorseDataState(left, right) ==
        if DataIncompatible in {left, right} then DataIncompatible
        else if DataStale in {left, right} then DataStale
        else if DataUnknown in {left, right} then DataUnknown
        else DataValid
  {
  }

  /** What the collector's last report says of the source of a sample. */
  lemma StatusIs(host: Option<HostFence>, sourceKnown: bool, nowMS: int)
    ensures
      var state := StatusDataState(host, sourceKnown, nowMS);
      var reported := sourceKnown && host.Some? && host.value.status.Some? && host.value.status.value.admittedMS <= nowMS;
      && (state == DataStale <==>
            reported && (nowMS - host.value.status.value.admittedMS > 60_000 || host.value.status.value.metricSource == Some(Stale)))
      && (state == DataValid <==>
            reported && nowMS - host.value.status.value.admittedMS <= 60_000 && host.value.status.value.metricSource == Some(Fresh))
      && (state == DataIncompatible <==>
            && reported && nowMS - host.value.status.value.admittedMS <= 60_000
            && host.value.status.value.metricSource == Some(Incompatible))
  {
  }

  function HeartbeatInput(host: Option<HostFence>, nowMS: int): (Input, Option<Evidence>) {
    var unknown := (EMPTY_INPUT, None);
    if host.None? then unknown
    else
      var h := host.value;
      match h.status
      case None =>
        if h.createdMS < 0 || h.createdMS > nowMS || h.bootID.None? != (h.sessionGeneration == 0) then unknown
        else
          var age := nowMS - h.createdMS;
          (EMPTY_INPUT.(dataState := DataValid, heartbeatAgeMS := Some(age)),
           Some(BaseEvidence(HeartbeatAge, nowMS, nowMS, NumberValue(age as real), true)))
      case Some(status) =>
        if h.bootID.None? || status.admittedMS > nowMS then unknown
        else
          var age := nowMS - status.admittedMS;
          (EMPTY_INPUT.(dataState := DataValid, heartbeatAgeMS := Some(age)),
           Some(BaseEvidence(HeartbeatAge, nowMS, status.admittedMS, NumberValue(age as real), true)))
  }

  function SourceAlertInput(f: Facts, nowMS: int): (Input, Option<Evidence>) {
    var blank := SourceInput(false, None, false);
    if f.host.None? || f.target.None? || f.host.value.status.None? || f.host.value.bootID.None?
       || f.host.value.status.value.admittedMS > nowMS then
      (EMPTY_INPUT.(source := Some(blank)), None)
    else
      var status := f.host.value.status.value;
      if nowMS - status.admittedMS > 60_000 then
        (EMPTY_INPUT.(dataState := DataStale, source := Some(blank)), None)
      else
        var health := status.runtimeSource;
        var available := health == Some(Fresh);
        var state :=
          match health
          case None => DataValid
          case Some(Fresh) => DataValid
          case Some(Stale) => DataStale
          case Some(Incompatible) => DataIncompatible
          case Some(Unavailable) => DataValid
          case Some(Other) => DataUnknown;
        var input := EMPTY_INPUT.(
          dataState := state,
          source := Some(SourceInput(true, Some(available), health == Some(Incompatible))));
        if state != DataValid && state != DataIncompatible then (input, None)
        else (input, Some(BaseEvidence(SourceAvailability, nowMS, status.admittedMS, FlagValue(available), true)))
  }

  function CPUInput(f: Facts, nowMS: int): (Input, Option<Evidence>) {
    if f.host.None? || f.sample.None? then (EMPTY_INPUT, None)
    else
      var sample := f.sample.value;
      var state := WorseDataState(sample.state, StatusDataState(f.host, f.sourceKnown, nowMS));
      if sample.state != DataValid then (EMPTY_INPUT.(dataState := state), None)
      else
        match sample.value
        case Some(NumberValue(ratio)) =>
          if ratio < 0.0 || ratio > 1.0 then (EMPTY_INPUT, None)
          else
            (EMPTY_INPUT.(dataState := state, cpuBusyRatio := Some(ratio)),
             Some(BaseEvidence(CPUBusyRatio, nowMS, sample.observedMS, NumberValue(ratio), false)))
        case _ => (EMPTY_INPUT, None)
  }

  function PressureAlertInput(f: Facts, nowMS: int): (Input, Option<Evidence>) {
    if f.host.None? || f.sample.None? then (EMPTY_INPUT, None)
    else
      var sample := f.sample.value;
      var state := WorseDataState(sample.state, StatusDataState(f.host, f.sourceKnown, nowMS));
      if sample.state != DataValid then (EMPTY_INPUT.(dataState := state), None)
      else
        match sample.value
        case Some(TextValue(level)) =>
          var pressure := Some(PressureInput(level, sample.certified));
          if !sample.certified then (EMPTY_INPUT.(pressure := pressure), None)
          else
            (EMPTY_INPUT.(dataState := state, pressure := pressure),
             Some(BaseEvidence(PressureLevel, nowMS, sample.observedMS, TextValue(level), false)))
        case _ => (EMPTY_INPUT, None)
  }

  const STARTUP_GRACE_MS := 300_000

  function ReachabilityAlertInput(f: Facts, nowMS: int): (Input, Option<Evidence>) {
    if f.host.None? || f.target.None? then
      (EMPTY_INPUT.(reachability := Some(ReachabilityInput(false, None, false, false))), None)
    else
      var status := f.host.value.status;
      var recent := status.Some? && status.value.admittedMS <= nowMS && nowMS - status.value.admittedMS <= 60_000;
      var state := if f.sample.None? then DataUnknown
                   else WorseDataState(f.sample.value.state, StatusDataState(f.host, f.sourceKnown, nowMS));
      if f.sample.Some? && f.sample.value.state == DataValid && f.sample.value.value.Some?
         && f.sample.value.value.value.FlagValue? then
        var reachable := f.sample.value.value.value.flag;
        var deadline := if f.episode.Some? then f.episode.value.startupDeadlineMS
                        else f.target.value.createdMS + STARTUP_GRACE_MS;
        var ever := f.episode.Some? && f.episode.value.everReachable;
        (EMPTY_INPUT.(dataState := state,
                      reachability := Some(ReachabilityInput(recent, Some(reachable),
                                                            !reachable && !ever && nowMS < deadline, false))),
         Some(BaseEvidence(Reachable, nowMS, f.sample.value.observedMS, FlagValue(reachable), false)))
      else if f.sourceKnown && status.Some? && status.value.metricSource == Some(Incompatible) then
        (EMPTY_INPUT.(dataState := DataIncompatible,
                      reachability := Some(ReachabilityInput(recent, None, false, true))), None)
      else
        (EMPTY_INPUT.(dataState := state, reachability := Some(ReachabilityInput(recent, None, false, false))), None)
  }

  function MonitorAlertInput(m: MonitorFacts, cycle: Cycle, nowMS: int): (Input, Option<Evidence>)
    requires cycle.lagNS >= 0
  {
    var lagMS := Millis(cycle.lagNS);
    var pressure :=
      if m.capacityObservedMS.Some? && m.capacityObservedMS.value <= nowMS
         && nowMS - m.capacityObservedMS.value <= 30_000
      then Some(!m.storageNormal) else None;
    var input := EMPTY_INPUT.(
      dataState := DataValid,
      monitor := Some(MonitorInput(pressure, Some(lagMS), Some(m.finalDeliveryFailed))));
    if pressure.None? && !m.finalDeliveryFailed && lagMS <= 15_000 then (input.(dataState := DataUnknown), None)
    else if m.finalDeliveryFailed then
      (input, Some(BaseEvidence(MonitorDelivery, nowMS, nowMS, FlagValue(true), false)))
    else if pressure == Some(true) then
      (input, Some(BaseEvidence(MonitorStorage, nowMS, nowMS, FlagValue(true), false)))
    else (input, Some(BaseEvidence(MonitorLag, nowMS, nowMS, NumberValue(lagMS as real), false)))
  }

  function InputFor(p: Planned, f: Facts, cycle: Cycle): (Input, Option<Evidence>)
    requires cycle.lagNS >= 0
  {
    match p.ruleType
    case HostNotReporting => HeartbeatInput(f.host, cycle.eventMS)
    case SourceMissing => SourceAlertInput(f, cycle.eventMS)
    case HeavyCPU => CPUInput(f, cycle.eventMS)
    case MemoryPressure => PressureAlertInput(f, cycle.eventMS)
    case OllamaUnreachable => ReachabilityAlertInput(f, cycle.eventMS)
    case DiskMonitorHealth => MonitorAlertInput(f.monitor, cycle, cycle.eventMS)
    case ObservedRequestDuration => (EMPTY_INPUT, None)
  }

  function Zeros(n: nat): (s: string)
    ensures |s| == n && forall i :: 0 <= i < n ==> s[i] == '0'
  {
    if n == 0 then "" else Zeros(n - 1) + "0"
  }

  const PLACEHOLDER_SCOPE := Zeros(64)

  /** The planning side decides under a placeholder scope, and not at all for request populations. */
  function EvaluatePlanned(p: Planned, input: Input): Evaluated {
    if p.ruleType == ObservedRequestDuration then Failed(InvalidInput)
    else Evaluate(DefaultSpec(p.ruleID, p.version, p.ruleType, PLACEHOLDER_SCOPE), input)
  }

  function ObservedDwell(p: Planned, input: Input, cycle: Cycle): int
    requires 0 <= cycle.elapsedNS <= Int64.MAX
    requires p.newest.Some? ==> InRange(p.newest.value.dwellMS)
  {
    if p.ruleType == HostNotReporting && input.heartbeatAgeMS.Some? then input.heartbeatAgeMS.value
    else
      var value := if p.newest.Some? && !cycle.restarted
                   then Int64.AddSaturating(p.newest.value.dwellMS, Millis(cycle.elapsedNS)) else 0;
      var d := EvaluatePlanned(p, input);
      if d.Decided? && d.decision.immediate then 0 else value
  }

  /** The capsule window reaches back over the dwell and never past the observation. */
  function Windowed(e: Evidence, dwellMS: int, nowMS: int): Evidence {
    var back := if nowMS - dwellMS < 0 then 0 else nowMS - dwellMS;
    e.(windowStartMS := if e.observedMS < back then e.observedMS else back, windowEndMS := nowMS + 1)
  }

  predicate ValidCycle(c: Cycle) {
    0 <= c.eventMS < Int64.MAX && 0 <= c.elapsedNS <= Int64.MAX && 0 <= c.lagNS <= Int64.MAX
  }

  predicate ValidPlan(p: Planned) {
    p.newest.Some? ==> InRange(p.newest.value.dwellMS)
  }

  /** The rule's scope is resolved to a current host, and to a target where the rule needs one. */
  predicate Fenced(p: Planned, f: Facts) {
    p.ruleType == DiskMonitorHealth
    || (f.host.Some?
        && (p.ruleType in {OllamaUnreachable, SourceMissing, ObservedRequestDuration} ==> f.target.Some?))
  }

  /** None when the ordinal space is used up or the scope is gone. The hash stands for the digest of the whole write. */
  function BuildAlertWrite(p: Planned, f: Facts, cycle: Cycle, hash: string): Option<Write>
    requires ValidCycle(cycle) && ValidPlan(p)
  {
    if p.cursor.Some? && p.cursor.value >= MAX_UINT53 then None
    else if !Fenced(p, f) then None
    else
      var (input, evidence) := InputFor(p, f, cycle);
      var dwell := ObservedDwell(p, input, cycle);
      Some(Write(
        p.ruleID, p.version, if p.cursor.Some? then p.cursor.value + 1 else 1, cycle.eventMS, hash,
        cycle.eventMS, Millis(cycle.elapsedNS), cycle.restarted,
        input, dwell,
        if evidence.Some? then Some(Windowed(evidence.value, dwell, cycle.eventMS)) else None,
        if p.ruleType == OllamaUnreachable
        then Some(EpisodeWrite(f.target.value.targetID, f.episode, cycle.eventMS,
                               if input.reachability.Some? then input.reachability.value.reachable else None))
        else None))
  }

  /** A write cannot be built exactly when the ordinals are used up, or when the host of a rule about a host is gone,
      or the target of a rule about a target. */
  lemma NotBuiltExactly(p: Planned, f: Facts, cycle: Cycle, hash: string)
    requires ValidCycle(cycle) && ValidPlan(p)
    ensures BuildAlertWrite(p, f, cycle, hash).None? <==>
      || (p.cursor.Some? && p.cursor.value >= 9_007_199_254_740_991)
      || (p.ruleType != DiskMonitorHealth && f.host.None?)
      || (p.ruleType in {OllamaUnreachable, SourceMissing, ObservedRequestDuration} && f.target.None?)
  {
    hide InputFor, ObservedDwell;
  }

  // ----- the store's checks on an opening write -----

  function EvaluationOf(w: Write, d: Decision): Evaluation {
    Evaluation(w.eventMS, w.elapsedMS, w.hubRestarted, d, w.hash)
  }

  predicate ValidObservedDwell(spec: Spec, w: Write, previous: Snapshot, d: Decision)
    requires InRange(previous.dwellMS) && InRange(w.elapsedMS)
  {
    if spec.ruleType == HostNotReporting then
      w.input.heartbeatAgeMS.Some? && w.observedDwellMS == w.input.heartbeatAgeMS.value
    else if d.immediate then w.observedDwellMS == 0
    else
      var expected := if w.hubRestarted then previous.dwellMS
                      else Int64.AddSaturating(previous.dwellMS, w.elapsedMS);
      w.observedDwellMS == expected && expected >= spec.triggerDwellMS
  }

  /** Both dwell checks of createAlertIncidentTx. */
  predicate DwellAccepted(spec: Spec, w: Write, previous: Snapshot, d: Decision)
    requires InRange(previous.dwellMS) && InRange(w.elapsedMS)
  {
    && (d.immediate || w.observedDwellMS >= spec.triggerDwellMS)
    && ValidObservedDwell(spec, w, previous, d)
  }

  /** The value and window part of the capsule check for the rule's own metric. */
  predicate CapsuleMatches(ruleType: RuleType, input: Input, e: Evidence) {
    && 0 <= e.windowStartMS <= e.observedMS < e.windowEndMS
    && (e.fromStatus <==> ruleType == HostNotReporting || ruleType == SourceMissing)
    && match ruleType
       case HeavyCPU => e.metric == CPUBusyRatio && input.cpuBusyRatio.Some?
                        && e.value == NumberValue(input.cpuBusyRatio.value)
       case MemoryPressure => e.metric == PressureLevel && input.pressure.Some?
                              && e.value == TextValue(input.pressure.value.level)
       case HostNotReporting => e.metric == HeartbeatAge && input.heartbeatAgeMS.Some?
                                && e.value == NumberValue(input.heartbeatAgeMS.value as real)
       case OllamaUnreachable => e.metric == Reachable && input.reachability.Some?
                                 && input.reachability.value.reachable.Some?
                                 && e.value == FlagValue(input.reachability.value.reachable.value)
       case SourceMissing => e.metric == SourceAvailability && input.source.Some?
                             && input.source.value.available.Some?
                             && e.value == FlagValue(input.source.value.available.value)
       case ObservedRequestDuration => false
       case DiskMonitorHealth =>
         input.monitor.Some?
         && match e.metric
            case MonitorStorage => input.monitor.value.storagePressure.Some?
                                   && e.value == FlagValue(input.monitor.value.storagePressure.value)
            case MonitorLag => input.monitor.value.evaluatorLagMS.Some?
                               && e.value == NumberValue(input.monitor.value.evaluatorLagMS.value as real)
            case MonitorDelivery => input.monitor.value.finalDeliveryFailed.Some?
                                    && e.value == FlagValue(input.monitor.value.finalDeliveryFailed.value)
            case _ => false
  }

  /** Stored times are not negative and a valid sample is not from the future. */
  predicate SoundFacts(f: Facts, nowMS: int) {
    && (f.host.Some? && f.host.value.status.Some? ==> f.host.value.status.value.admittedMS >= 0)
    && (f.sample.Some? ==> f.sample.value.observedMS >= 0)
    && (f.sample.Some? && f.sample.value.state == DataValid ==> f.sample.value.observedMS <= nowMS)
  }

  // ----- from facts to decisions -----

  /** The collector reported at most a minute ago. */
  predicate Reported(f: Facts, nowMS: int) {
    f.host.Some? && f.host.value.status.Some? && 0 <= nowMS - f.host.value.status.value.admittedMS <= 60_000
  }

  /** A valid current sample of a source that a recent report calls fresh. */
  predicate Backed(f: Facts, nowMS: int) {
    && Reported(f, nowMS) && f.sourceKnown && f.host.value.status.value.metricSource == Some(Fresh)
    && f.sample.Some? && f.sample.value.state == DataValid && f.sample.value.value.Some?
  }

  /** When a host was last heard of: its report, or its creation before the first one. */
  function LastSeen(h: HostFence, nowMS: int): Option<int> {
    var at := if h.status.Some? then h.status.value.admittedMS else h.createdMS;
    var known := if h.status.Some? then h.bootID.Some?
                 else h.createdMS >= 0 && (h.bootID.None? <==> h.sessionGeneration == 0);
    if known && at <= nowMS then Some(at) else None
  }

  /** The monitor's own storage is known to be under pressure. */
  predicate UnderPressure(m: MonitorFacts, nowMS: int) {
    RecentMeasurement(m, nowMS) && !m.storageNormal
  }

  predicate RecentMeasurement(m: MonitorFacts, nowMS: int) {
    m.capacityObservedMS.Some? && 0 <= nowMS - m.capacityObservedMS.value <= 30_000
  }

  /** The condition of each rule, told from the facts the pass read. */
  predicate Bad(p: Planned, f: Facts, c: Cycle)
    requires c.lagNS >= 0
  {
    match p.ruleType
    case HostNotReporting =>
      f.host.Some? && LastSeen(f.host.value, c.eventMS).Some? && c.eventMS - LastSeen(f.host.value, c.eventMS).value >= 60_000
    case SourceMissing =>
      && Reported(f, c.eventMS) && f.host.value.bootID.Some? && f.target.Some?
      && f.host.value.status.value.runtimeSource in {None, Some(Unavailable), Some(Incompatible)}
    case HeavyCPU =>
      Backed(f, c.eventMS) && f.sample.value.value.value.NumberValue? && 0.90 <= f.sample.value.value.value.number <= 1.0
    case MemoryPressure =>
      && Backed(f, c.eventMS) && f.sample.value.certified && f.sample.value.value.value.TextValue?
      && f.sample.value.value.value.text in {"warning", "critical"}
    case OllamaUnreachable =>
      && Backed(f, c.eventMS) && f.target.Some? && f.sample.value.value.value == FlagValue(false)
      && (if f.episode.Some? then f.episode.value.everReachable || c.eventMS >= f.episode.value.startupDeadlineMS
          else c.eventMS >= f.target.value.createdMS + 300_000)
    case DiskMonitorHealth =>
      f.monitor.finalDeliveryFailed || UnderPressure(f.monitor, c.eventMS) || Millis(c.lagNS) > 15_000
    case ObservedRequestDuration => false
  }

  predicate Good(p: Planned, f: Facts, c: Cycle)
    requires c.lagNS >= 0
  {
    match p.ruleType
    case HostNotReporting =>
      f.host.Some? && LastSeen(f.host.value, c.eventMS).Some? && c.eventMS - LastSeen(f.host.value, c.eventMS).value < 60_000
    case SourceMissing =>
      && Reported(f, c.eventMS) && f.host.value.bootID.Some? && f.target.Some?
      && f.host.value.status.value.runtimeSource == Some(Fresh)
    case HeavyCPU =>
      Backed(f, c.eventMS) && f.sample.value.value.value.NumberValue? && 0.0 <= f.sample.value.value.value.number < 0.80
    case MemoryPressure =>
      Backed(f, c.eventMS) && f.sample.value.certified && f.sample.value.value.value == TextValue("normal")
    case OllamaUnreachable =>
      Backed(f, c.eventMS) && f.target.Some? && f.sample.value.value.value == FlagValue(true)
    case DiskMonitorHealth =>
      && !f.monitor.finalDeliveryFailed && RecentMeasurement(f.monitor, c.eventMS) && f.monitor.storageNormal
      && Millis(c.lagNS) <= 15_000
    case ObservedRequestDuration => false
  }

  /** Planning and evaluating together decide exactly the rule's condition on the facts: a match is a bad
      condition, a clear a good one, and nothing else is ever either. */
  lemma DecidesExactly(spec: Spec, p: Planned, f: Facts, c: Cycle)
    requires ValidSpec(spec) && p.ruleType == spec.ruleType && c.lagNS >= 0 && c.eventMS >= 0
    ensures
      var r := Evaluate(spec, InputFor(p, f, c).0);
      && r.Decided?
      && (r.decision.predicate_ == Match <==> Bad(p, f, c))
      && (r.decision.predicate_ == Clear <==> Good(p, f, c))
  {
    hide ValidSpec;
    match p.ruleType {
      case HostNotReporting =>
      case SourceMissing =>
      case HeavyCPU =>
      case MemoryPressure =>
      case OllamaUnreachable =>
      case DiskMonitorHealth =>
      case ObservedRequestDuration =>
    }
  }

  lemma PlaceholderIsAHash()
    ensures IsHash(PLACEHOLDER_SCOPE)
  {
  }

  /** Planning and storing reach the same decision although they use different scopes. */
  lemma PlannedDecisionAgrees(spec: Spec, p: Planned, input: Input)
    requires ValidSpec(spec) && p.ruleType == spec.ruleType && p.ruleID == spec.ruleID && p.version == spec.version
    ensures p.ruleType != ObservedRequestDuration ==> EvaluatePlanned(p, input) == Evaluate(spec, input)
  {
    PlaceholderIsAHash();
  }

  /** A matching decision always comes with evidence, and the evidence carries the very value
      that matched, in a window that contains its observation. */
  lemma MatchHasEvidence(spec: Spec, p: Planned, f: Facts, cycle: Cycle, hash: string)
    requires ValidSpec(spec) && p.ruleType == spec.ruleType
    requires ValidCycle(cycle) && ValidPlan(p) && SoundFacts(f, cycle.eventMS)
    requires BuildAlertWrite(p, f, cycle, hash).Some?
    requires var w := BuildAlertWrite(p, f, cycle, hash).value;
             Evaluate(spec, w.input).Decided? && Evaluate(spec, w.input).decision.predicate_ == Match
    ensures
      var w := BuildAlertWrite(p, f, cycle, hash).value;
      w.evidence.Some? && CapsuleMatches(spec.ruleType, w.input, w.evidence.value)
  {
    hide ValidSpec, ObservedDwell, IsHash, IsUUID;
    var (input, evidence) := InputFor(p, f, cycle);
    match p.ruleType {
      case HostNotReporting =>
      case SourceMissing =>
      case HeavyCPU =>
      case MemoryPressure =>
      case OllamaUnreachable =>
      case DiskMonitorHealth =>
      case ObservedRequestDuration =>
    }
  }

  /** The two dwell accounts agree: a write built on the newest row that makes the reducer open
      FIRING passes both dwell checks of the store and its evidence check, although planning
      forgets the held dwell on a restart and the store's check keeps it. */
  lemma DwellAccountsAgree(spec: Spec, p: Planned, f: Facts, cycle: Cycle, hash: string)
    requires ValidSpec(spec) && p.ruleType == spec.ruleType && p.ruleID == spec.ruleID && p.version == spec.version
    requires p.newest.Some? ==> ValidSnapshot(spec, p.newest.value)
    requires ValidCycle(cycle) && SoundFacts(f, cycle.eventMS)
    requires BuildAlertWrite(p, f, cycle, hash).Some?
    requires Evaluate(spec, BuildAlertWrite(p, f, cycle, hash).value.input).Decided?
    requires
      var w := BuildAlertWrite(p, f, cycle, hash).value;
      var r := Reduce(spec, Load(spec, p.newest), EvaluationOf(w, Evaluate(spec, w.input).decision));
      && r.Reduced? && r.transition.Some? && r.transition.value.next == Firing
      && Load(spec, p.newest).state != Recovering
    ensures
      var w := BuildAlertWrite(p, f, cycle, hash).value;
      && w.evidence.Some? && CapsuleMatches(spec.ruleType, w.input, w.evidence.value)
      && DwellAccepted(spec, w, Load(spec, p.newest), Evaluate(spec, w.input).decision)
  {
    var w := BuildAlertWrite(p, f, cycle, hash).value;
    var d := Evaluate(spec, w.input).decision;
    var current := Load(spec, p.newest);
    LoadIsLive(spec, p.newest);
    StepTable(spec, current, EvaluationOf(w, d));
    PlannedDecisionAgrees(spec, p, w.input);
    MatchHasEvidence(spec, p, f, cycle, hash);
    ShippedRules(spec);
    MatchesExactly(spec, w.input);
    assert InRange(current.dwellMS);
    hide Reduce, Evaluate, InputFor, ValidSpec, CapsuleMatches, ValidSnapshot, IsUUID, IsHash, SoundFacts, StatisticOf;
    if current.state == OK && !d.immediate {
      assert spec.ruleType == HostNotReporting;
    }
  }

  /** The columns of a write besides its input: the next ordinal of the revision, the pass's own times and mark,
      evidence over the dwell that was observed, and for reachability what the newest valid sample says. */
  lemma BuiltColumns(p: Planned, f: Facts, cycle: Cycle, hash: string)
    requires ValidCycle(cycle) && ValidPlan(p) && BuildAlertWrite(p, f, cycle, hash).Some?
    ensures
      var w := BuildAlertWrite(p, f, cycle, hash).value;
      && w.ruleID == p.ruleID && w.version == p.version && w.hash == hash
      && w.ordinal == (if p.cursor.Some? then p.cursor.value + 1 else 1) <= 9_007_199_254_740_992
      && w.eventMS == w.observedThroughMS == cycle.eventMS && w.hubRestarted == cycle.restarted
      && w.elapsedMS * 1_000_000 <= cycle.elapsedNS < (w.elapsedMS + 1) * 1_000_000
    ensures
      var w := BuildAlertWrite(p, f, cycle, hash).value;
      w.evidence.Some? ==>
        var e := w.evidence.value;
        && e.windowEndMS == cycle.eventMS + 1
        && e.windowStartMS <= e.observedMS && e.windowStartMS <= Positive(cycle.eventMS - w.observedDwellMS)
        && e.windowStartMS in {e.observedMS, Positive(cycle.eventMS - w.observedDwellMS)}
    ensures
      var w := BuildAlertWrite(p, f, cycle, hash).value;
      && (w.episode.Some? <==> p.ruleType == OllamaUnreachable)
      && (w.episode.Some? ==>
            && f.target.Some? && w.episode.value.targetID == f.target.value.targetID
            && w.episode.value.expected == f.episode && w.episode.value.observedMS == cycle.eventMS
            && forall b :: w.episode.value.reachable == Some(b) <==>
                 f.sample.Some? && f.sample.value.state == DataValid && f.sample.value.value == Some(FlagValue(b)))
  {
    hide ObservedDwell;
    if p.ruleType != OllamaUnreachable {
      hide InputFor;
    }
  }

  /** Evidence is what the pass read: the number, level or flag of the sample at the sample's own time, the report's
      time for what a report says, and the pass's own time for the monitor and for a host never heard of. */
  lemma EvidenceIsRead(p: Planned, f: Facts, cycle: Cycle)
    requires ValidCycle(cycle) && InputFor(p, f, cycle).1.Some?
    ensures
      var e := InputFor(p, f, cycle).1.value;
      match p.ruleType
      case HeavyCPU => f.sample.Some? && e.observedMS == f.sample.value.observedMS && f.sample.value.value == Some(e.value) && !e.fromStatus
      case MemoryPressure =>
        f.sample.Some? && e.observedMS == f.sample.value.observedMS && f.sample.value.value == Some(e.value) && !e.fromStatus
      case OllamaUnreachable =>
        f.sample.Some? && e.observedMS == f.sample.value.observedMS && f.sample.value.value == Some(e.value) && !e.fromStatus
      case HostNotReporting =>
        && f.host.Some? && LastSeen(f.host.value, cycle.eventMS).Some? && e.fromStatus
        && e.observedMS == (if f.host.value.status.Some? then f.host.value.status.value.admittedMS else cycle.eventMS)
        && e.value == NumberValue((cycle.eventMS - LastSeen(f.host.value, cycle.eventMS).value) as real)
      case SourceMissing =>
        && f.host.Some? && f.host.value.status.Some? && e.observedMS == f.host.value.status.value.admittedMS && e.fromStatus
        && e.value == FlagValue(f.host.value.status.value.runtimeSource == Some(Fresh))
      case DiskMonitorHealth =>
        && e.observedMS == cycle.eventMS && !e.fromStatus
        && (if f.monitor.finalDeliveryFailed then e.metric == MonitorDelivery && e.value == FlagValue(true)
            else if UnderPressure(f.monitor, cycle.eventMS) then e.metric == MonitorStorage && e.value == FlagValue(true)
            else e.metric == MonitorLag && e.value == NumberValue(Millis(cycle.lagNS) as real))
      case ObservedRequestDuration => false
  {
  }

  function Positive(n: int): nat {
    if n < 0 then 0 else n
  }

  /** One planned rule, what the snapshot says about it, and the digest of its input. */
  datatype RuleFacts = RuleFacts(planned: Planned, facts: Facts, hash: string)

  function Built(r: RuleFacts, cycle: Cycle): Option<Write>
    requires ValidCycle(cycle) && ValidPlan(r.planned)
  {
    BuildAlertWrite(r.planned, r.facts, cycle, r.hash)
  }

  /** One pass: a cycle out of range or any rule that cannot be built fails it, and of several rules on one
      target only the first keeps its episode. */
  method BuildAlertWrites(rules: seq<RuleFacts>, cycle: Cycle) returns (writes: Option<seq<Write>>)
    requires forall i :: 0 <= i < |rules| ==> ValidPlan(rules[i].planned)
    ensures writes.None? <==> !ValidCycle(cycle) || exists i :: 0 <= i < |rules| && Built(rules[i], cycle).None?
    ensures writes.Some? ==> |writes.value| == |rules|
    ensures writes.Some? ==>
      forall i :: 0 <= i < |rules| ==>
        && Built(rules[i], cycle).Some? && SameButEpisode(writes.value[i], Built(rules[i], cycle).value)
        && (Built(rules[i], cycle).value.episode.Some? ==>
              (writes.value[i].episode.None? <==>
                 HasEpisode(writes.value[..i], Built(rules[i], cycle).value.episode.value.targetID)))
  {
    if !ValidCycle(cycle) {
      return None;
    }
    hide ValidCycle, ValidPlan, BuildAlertWrite;
    var result: seq<Write> := [];
    var episodeTargets: set<string> := {};
    for n := 0 to |rules|
      invariant |result| == n
      invariant forall i :: 0 <= i < n ==>
        Built(rules[i], cycle).Some? && SameButEpisode(result[i], Built(rules[i], cycle).value)
      invariant forall t :: t in episodeTargets <==> HasEpisode(result, t)
      invariant forall i :: 0 <= i < n && Built(rules[i], cycle).value.episode.Some? ==>
        (result[i].episode.None? <==> HasEpisode(result[..i], Built(rules[i], cycle).value.episode.value.targetID))
    {
      var built := Built(rules[n], cycle);
      if built.None? {
        return None;
      }
      var write := built.value;
      if write.episode.Some? {
        if write.episode.value.targetID in episodeTargets {
          write := write.(episode := None);
        } else {
          episodeTargets := episodeTargets + {write.episode.value.targetID};
        }
      }
      ghost var before := result;
      result := result + [write];
      assert result[..n] == before;
      assert forall i :: 0 <= i < n ==> result[..i] == before[..i];
      forall t ensures HasEpisode(result, t) <==> HasEpisode(before, t) || (write.episode.Some? && write.episode.value.targetID == t) {
        HasEpisodeOfAppend(before, write, t);
      }
    }
    return Some(result);
  }

  predicate HasEpisode(writes: seq<Write>, target: string) {
    exists j :: 0 <= j < |writes| && writes[j].episode.Some? && writes[j].episode.value.targetID == target
  }

  lemma HasEpisodeOfAppend(writes: seq<Write>, w: Write, target: string)
    ensures HasEpisode(writes + [w], target) <==>
            HasEpisode(writes, target) || (w.episode.Some? && w.episode.value.targetID == target)
  {
    var all := writes + [w];
    if w.episode.Some? && w.episode.value.targetID == target {
      assert all[|writes|] == w;
    }
    if HasEpisode(writes, target) {
      var j :| 0 <= j < |writes| && writes[j].episode.Some? && writes[j].episode.value.targetID == target;
      assert all[j] == writes[j];
    }
  }

  predicate SameButEpisode(a: Write, b: Write) {
    a.(episode := None) == b.(episode := None) && (a.episode == b.episode || a.episode.None?)
  }
}
