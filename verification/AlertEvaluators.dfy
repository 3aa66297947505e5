/** The shipped rule evaluators: quality-gated inputs become reducer decisions. */
module AlertEvaluators {
  import opened Wrappers
  import opened AlertTypes

  datatype ReachabilityInput = ReachabilityInput(
    collectorFresh: bool, reachable: Option<bool>, startupGraceOpen: bool, incompatible: bool)

  datatype SourceInput = SourceInput(hostFresh: bool, available: Option<bool>, incompatible: bool)

  datatype PressureInput = PressureInput(level: string, certified: bool)

  datatype RequestInput = RequestInput(
    metricID: string, exactPopulation: bool, completedN: int, validN: int,
    medianMS: Option<real>, p95MS: Option<real>)

  datatype MonitorInput = MonitorInput(
    storagePressure: Option<bool>, evaluatorLagMS: Option<int>, finalDeliveryFailed: Option<bool>)

  /** A missing data state in the source reads as unknown. */
  datatype Input = Input(
    dataState: DataState,
    reachability: Option<ReachabilityInput>,
    heartbeatAgeMS: Option<int>,
    source: Option<SourceInput>,
    pressure: Option<PressureInput>,
    cpuBusyRatio: Option<real>,
    request: Option<RequestInput>,
    monitor: Option<MonitorInput>)

  const EMPTY_INPUT := Input(DataUnknown, None, None, None, None, None, None, None)

  const REQUEST_METRICS := {
    "request.client.first_byte_ms",
    "request.client.first_content_ms",
    "request.client.total_ms",
    "request.runtime.eval_duration_ms",
    "request.runtime.load_duration_ms",
    "request.runtime.prompt_eval_duration_ms",
    "request.runtime.total_duration_ms"
  }

  datatype Evaluated = Decided(decision: Decision) | Failed(error: Error)

  function DefaultSpec(ruleID: string, version: int, ruleType: RuleType, scope: string): Spec {
    var (policy, trigger, recovery) :=
      match ruleType
      case OllamaUnreachable => (TargetEpisode, 30_000, 30_000)
      case HostNotReporting => (StableScope, 0, 30_000)
      case SourceMissing => (SourceIncarnation, 30_000, 30_000)
      case MemoryPressure => (StableScope, 30_000, 60_000)
      case HeavyCPU => (StableScope, 60_000, 60_000)
      case ObservedRequestDuration => (Population, 0, 0)
      case DiskMonitorHealth => (StableScope, 30_000, 30_000);
    Spec(ruleID, version, ruleType, scope, policy, trigger, recovery, None)
  }

  predicate ValidSpec(s: Spec) {
    && IsUUID(s.ruleID) && s.version >= 1 && IsHash(s.scope)
    && s.(request := None) == DefaultSpec(s.ruleID, s.version, s.ruleType, s.scope)
    && (s.ruleType == ObservedRequestDuration <==> s.request.Some?)
    && (s.request.Some? ==>
          && s.request.value.metricID in REQUEST_METRICS
          && 0.0 <= s.request.value.thresholdMS <= 120_000.0)
  }

  /** The shipped rules: what each follows from one incarnation to the next, and what it waits before it opens and
      before it resolves. */
  lemma ShippedRules(s: Spec)
    ensures ValidSpec(s) <==>
      && IsUUID(s.ruleID) && s.version >= 1 && IsHash(s.scope)
      && s.policy == (match s.ruleType
                      case OllamaUnreachable => TargetEpisode
                      case SourceMissing => SourceIncarnation
                      case ObservedRequestDuration => Population
                      case _ => StableScope)
      && s.triggerDwellMS == (if s.ruleType in {HostNotReporting, ObservedRequestDuration} then 0
                              else if s.ruleType == HeavyCPU then 60_000 else 30_000)
      && s.recoveryDwellMS == (if s.ruleType == ObservedRequestDuration then 0
                               else if s.ruleType in {HeavyCPU, MemoryPressure} then 60_000 else 30_000)
      && (s.request.Some? <==> s.ruleType == ObservedRequestDuration)
      && (s.request.Some? ==>
            s.request.value.metricID in REQUEST_METRICS && 0.0 <= s.request.value.thresholdMS <= 120_000.0)
  {
    hide IsUUID, IsHash;
  }

  predicate ValidDecision(d: Decision) {
    && (!d.evaluable ==> d.predicate_ == Hold)
    && (d.evaluable ==> d.dataState == DataValid || d.dataState == DataIncompatible)
  }

  function Unavailable(state: DataState, reason: Reason): Decision {
    Decision(Hold, false, state, reason, false)
  }

  function Known(p: Predicate, state: DataState, reason: Reason, immediate: bool): Decision {
    Decision(p, true, state, reason, immediate)
  }

  function Evaluate(spec: Spec, input: Input): Evaluated {
    if !ValidSpec(spec) then Failed(InvalidSpec)
    else if input.dataState != DataValid && spec.ruleType != SourceMissing then
      Decided(Unavailable(input.dataState, InputNotValid(input.dataState)))
    else
      match spec.ruleType
      case OllamaUnreachable => Decided(EvaluateReachability(input.reachability, input.dataState))
      case HostNotReporting => EvaluateHeartbeat(input.heartbeatAgeMS, input.dataState)
      case SourceMissing => Decided(EvaluateSource(input.source, input.dataState))
      case MemoryPressure => Decided(EvaluatePressure(input.pressure, input.dataState))
      case HeavyCPU => EvaluateCPU(input.cpuBusyRatio, input.dataState)
      case ObservedRequestDuration => EvaluateRequest(spec.request.value, input.request, input.dataState)
      case DiskMonitorHealth => EvaluateMonitor(input.monitor, input.dataState)
  }

  function EvaluateReachability(input: Option<ReachabilityInput>, quality: DataState): Decision {
    if input.None? || !input.value.collectorFresh || input.value.reachable.None? then
      Unavailable(DataUnknown, ReachabilityNotObserved)
    else if input.value.incompatible then Unavailable(DataIncompatible, RuntimeIncompatible)
    else if input.value.reachable.value then Known(Clear, quality, RuntimeReachable, false)
    else if input.value.startupGraceOpen then Known(Hold, quality, StartupGraceOpen, false)
    else Known(Match, quality, RuntimeUnreachable, false)
  }

  function EvaluateHeartbeat(ageMS: Option<int>, quality: DataState): Evaluated {
    if ageMS.None? then Decided(Unavailable(DataUnknown, HeartbeatNotObserved))
    else if ageMS.value < 0 then Failed(InvalidInput)
    else if ageMS.value >= 60_000 then Decided(Known(Match, quality, HeartbeatAge60s, false))
    else Decided(Known(Clear, quality, HeartbeatFresh, false))
  }

  function EvaluateSource(input: Option<SourceInput>, quality: DataState): Decision {
    if input.None? || !input.value.hostFresh || input.value.available.None? then
      Unavailable(DataUnknown, SourceNotObserved)
    else if input.value.incompatible || quality == DataIncompatible then
      Known(Match, DataIncompatible, SourceIncompatible, false)
    else if quality != DataValid then Unavailable(quality, SourceNotValid(quality))
    else if input.value.available.value then Known(Clear, quality, SourceAvailable, false)
    else Known(Match, quality, SourceIsMissing, false)
  }

  function EvaluatePressure(input: Option<PressureInput>, quality: DataState): Decision {
    if input.None? || !input.value.certified then Unavailable(DataUnknown, PressureUncertified)
    else if input.value.level == "normal" then Known(Clear, quality, PressureNormal, false)
    else if input.value.level == "warning" then Known(Match, quality, PressureWarning, false)
    else if input.value.level == "critical" then Known(Match, quality, PressureCritical, true)
    else Unavailable(DataUnknown, PressureNotObserved)
  }

  function EvaluateCPU(ratio: Option<real>, quality: DataState): Evaluated {
    if ratio.None? then Decided(Unavailable(DataUnknown, CPUNotObserved))
    else if ratio.value < 0.0 || ratio.value > 1.0 then Failed(InvalidInput)
    else if ratio.value >= 0.90 then Decided(Known(Match, quality, CPUAtLeast90, false))
    else if ratio.value < 0.80 then Decided(Known(Clear, quality, CPUBelow80, false))
    else Decided(Known(Hold, quality, CPUHysteresis, false))
  }

  function EvaluateRequest(spec: RequestDurationSpec, input: Option<RequestInput>, quality: DataState): Evaluated {
    if input.None? || input.value.metricID != spec.metricID || !input.value.exactPopulation
       || input.value.completedN < 0 || input.value.validN < 0 || input.value.validN > input.value.completedN then
      Decided(Unavailable(DataUnknown, RequestPopulationUnavailable))
    else if spec.statistic == P95 && input.value.validN < 100 then
      Decided(Unavailable(DataUnknown, RequestP95Below100))
    else if spec.statistic == Median && input.value.validN < 1 then
      Decided(Unavailable(DataUnknown, RequestValidNZero))
    else
      var value := if spec.statistic == P95 then input.value.p95MS else input.value.medianMS;
      if value.None? then Decided(Unavailable(DataUnknown, RequestStatisticUnavailable))
      else if value.value < 0.0 || value.value > 120_000.0 then Failed(InvalidInput)
      else if value.value >= spec.thresholdMS then Decided(Known(Match, quality, RequestThresholdMet, true))
      else Decided(Known(Clear, quality, RequestThresholdClear, true))
  }

  function EvaluateMonitor(input: Option<MonitorInput>, quality: DataState): Evaluated {
    if input.None? then Decided(Unavailable(DataUnknown, MonitorHealthNotObserved))
    else
      var m := input.value;
      if m.evaluatorLagMS.Some? && m.evaluatorLagMS.value < 0 then Failed(InvalidInput)
      else if m.finalDeliveryFailed == Some(true) then Decided(Known(Match, quality, FinalDeliveryFailed, true))
      else if m.storagePressure == Some(true) then Decided(Known(Match, quality, StoragePressure, true))
      else if m.evaluatorLagMS.Some? && m.evaluatorLagMS.value > 15_000 then
        Decided(Known(Match, quality, EvaluatorLagOver15s, false))
      else if m.storagePressure.None? || m.evaluatorLagMS.None? || m.finalDeliveryFailed.None? then
        Decided(Unavailable(DataUnknown, MonitorHealthPartial))
      else Decided(Known(Clear, quality, MonitorHealthClear, false))
  }

  /** No rule fabricates a clear: unqualified evidence is never evaluable, only a source can
      match on incompatible data, and whatever is decided is acceptable to the reducer. */
  lemma EvaluateNeverFabricates(spec: Spec, input: Input)
    requires Evaluate(spec, input).Decided?
    ensures
      var d := Evaluate(spec, input).decision;
      && ValidDecision(d)
      && (d.predicate_ == Clear ==> input.dataState == DataValid && d.dataState == DataValid)
      && (d.predicate_ == Match && d.dataState != DataValid ==>
            spec.ruleType == SourceMissing && d.dataState == DataIncompatible)
      && (d.immediate ==> spec.ruleType in {MemoryPressure, ObservedRequestDuration, DiskMonitorHealth})
      && (d.immediate && d.predicate_ == Clear ==> spec.ruleType == ObservedRequestDuration)
  {
  }

  /** What opens without a dwell: critical memory pressure, a failed delivery or storage pressure of the monitor,
      and a request statistic at its threshold; a request statistic below it also clears at once. */
  lemma ImmediateExactly(spec: Spec, input: Input)
    requires Evaluate(spec, input).Decided?
    ensures
      Evaluate(spec, input).decision.immediate <==>
        && input.dataState == DataValid
        && match spec.ruleType
           case MemoryPressure => input.pressure.Some? && input.pressure.value.certified && input.pressure.value.level == "critical"
           case DiskMonitorHealth =>
             input.monitor.Some?
             && (input.monitor.value.finalDeliveryFailed == Some(true) || input.monitor.value.storagePressure == Some(true))
           case ObservedRequestDuration => StatisticOf(spec, input).Some?
           case _ => false
  {
  }

  /** The rule's statistic of the exact population, if enough valid requests back it. */
  function StatisticOf(spec: Spec, input: Input): Option<real>
    requires spec.ruleType == ObservedRequestDuration ==> spec.request.Some?
  {
    if spec.ruleType == ObservedRequestDuration && input.request.Some?
       && input.request.value.metricID == spec.request.value.metricID && input.request.value.exactPopulation
       && 0 <= input.request.value.validN <= input.request.value.completedN
       && input.request.value.validN >= (if spec.request.value.statistic == P95 then 100 else 1)
    then if spec.request.value.statistic == P95 then input.request.value.p95MS else input.request.value.medianMS
    else None
  }

  /** What each rule calls bad and good of any input, wherever it comes from. */
  lemma MatchesExactly(spec: Spec, input: Input)
    requires Evaluate(spec, input).Decided?
    ensures Evaluate(spec, input).decision.predicate_ == Match <==> IsBad(spec, input)
    ensures Evaluate(spec, input).decision.predicate_ == Clear <==> IsGood(spec, input)
  {
    hide IsUUID, IsHash;
  }

  predicate IsBad(spec: Spec, input: Input)
    requires spec.ruleType == ObservedRequestDuration ==> spec.request.Some?
  {
    match spec.ruleType
    case SourceMissing =>
      && input.source.Some? && input.source.value.hostFresh && input.source.value.available.Some?
      && (input.source.value.incompatible || input.dataState == DataIncompatible
          || (input.dataState == DataValid && input.source.value.available == Some(false)))
    case OllamaUnreachable =>
      && input.dataState == DataValid && input.reachability.Some? && input.reachability.value.collectorFresh
      && input.reachability.value.reachable == Some(false)
      && !input.reachability.value.incompatible && !input.reachability.value.startupGraceOpen
    case HostNotReporting => input.dataState == DataValid && input.heartbeatAgeMS.Some? && input.heartbeatAgeMS.value >= 60_000
    case MemoryPressure =>
      && input.dataState == DataValid && input.pressure.Some? && input.pressure.value.certified
      && input.pressure.value.level in {"warning", "critical"}
    case HeavyCPU => input.dataState == DataValid && input.cpuBusyRatio.Some? && 0.90 <= input.cpuBusyRatio.value <= 1.0
    case ObservedRequestDuration =>
      && input.dataState == DataValid && StatisticOf(spec, input).Some?
      && spec.request.value.thresholdMS <= StatisticOf(spec, input).value <= 120_000.0
    case DiskMonitorHealth =>
      && input.dataState == DataValid && input.monitor.Some?
      && (input.monitor.value.finalDeliveryFailed == Some(true) || input.monitor.value.storagePressure == Some(true)
          || (input.monitor.value.evaluatorLagMS.Some? && input.monitor.value.evaluatorLagMS.value > 15_000))
  }

  predicate IsGood(spec: Spec, input: Input)
    requires spec.ruleType == ObservedRequestDuration ==> spec.request.Some?
  {
    && input.dataState == DataValid
    && match spec.ruleType
       case SourceMissing =>
         && input.source.Some? && input.source.value.hostFresh && input.source.value.available == Some(true)
         && !input.source.value.incompatible
       case OllamaUnreachable =>
         && input.reachability.Some? && input.reachability.value.collectorFresh && !input.reachability.value.incompatible
         && input.reachability.value.reachable == Some(true)
       case HostNotReporting => input.heartbeatAgeMS.Some? && 0 <= input.heartbeatAgeMS.value < 60_000
       case MemoryPressure => input.pressure.Some? && input.pressure.value.certified && input.pressure.value.level == "normal"
       case HeavyCPU => input.cpuBusyRatio.Some? && 0.0 <= input.cpuBusyRatio.value < 0.80
       case ObservedRequestDuration =>
         StatisticOf(spec, input).Some? && 0.0 <= StatisticOf(spec, input).value < spec.request.value.thresholdMS
       case DiskMonitorHealth =>
         && input.monitor.Some? && input.monitor.value.finalDeliveryFailed.Some? && !input.monitor.value.finalDeliveryFailed.value
         && input.monitor.value.storagePressure.Some? && !input.monitor.value.storagePressure.value
         && input.monitor.value.evaluatorLagMS.Some? && 0 <= input.monitor.value.evaluatorLagMS.value <= 15_000
  }

  /** An input is refused exactly for a number that cannot be: a negative age or lag, a ratio outside 0 and 1, or a
      statistic that is negative or over two minutes. */
  lemma FailsExactly(spec: Spec, input: Input)
    requires ValidSpec(spec)
    ensures
      Evaluate(spec, input).Failed? <==>
        && input.dataState == DataValid
        && match spec.ruleType
           case HostNotReporting => input.heartbeatAgeMS.Some? && input.heartbeatAgeMS.value < 0
           case HeavyCPU => input.cpuBusyRatio.Some? && !(0.0 <= input.cpuBusyRatio.value <= 1.0)
           case DiskMonitorHealth =>
             input.monitor.Some? && input.monitor.value.evaluatorLagMS.Some? && input.monitor.value.evaluatorLagMS.value < 0
           case ObservedRequestDuration => StatisticOf(spec, input).Some? && !(0.0 <= StatisticOf(spec, input).value <= 120_000.0)
           case _ => false
  {
    hide IsUUID, IsHash;
  }

  /** The data quality a decision shows. An evaluable one shows that of its input, or incompatible for a source that
      says so; any other shows why nothing was decided. */
  lemma QualityShown(spec: Spec, input: Input)
    requires Evaluate(spec, input).Decided?
    ensures
      var d := Evaluate(spec, input).decision;
      var sourceSeen := input.source.Some? && input.source.value.hostFresh && input.source.value.available.Some?;
      var runtimeSeen :=
        input.reachability.Some? && input.reachability.value.collectorFresh && input.reachability.value.reachable.Some?;
      d.dataState ==
        if spec.ruleType == SourceMissing then
          (if !sourceSeen then DataUnknown else if input.source.value.incompatible then DataIncompatible else input.dataState)
        else if input.dataState != DataValid then input.dataState
        else if d.evaluable then DataValid
        else if spec.ruleType == OllamaUnreachable && runtimeSeen then DataIncompatible
        else DataUnknown
  {
    hide IsUUID, IsHash, ValidSpec;
  }

  /** What is evaluable without matching or clearing: the start-up grace of a runtime, and a busy ratio from
      0.80 up to 0.90. */
  lemma HeldExactly(spec: Spec, input: Input)
    requires Evaluate(spec, input).Decided? && Evaluate(spec, input).decision.predicate_ == Hold
    ensures
      Evaluate(spec, input).decision.evaluable <==>
        && input.dataState == DataValid
        && match spec.ruleType
           case OllamaUnreachable =>
             && input.reachability.Some? && input.reachability.value.collectorFresh && !input.reachability.value.incompatible
             && input.reachability.value.reachable == Some(false) && input.reachability.value.startupGraceOpen
           case HeavyCPU => input.cpuBusyRatio.Some? && 0.80 <= input.cpuBusyRatio.value < 0.90
           case _ => false
  {
  }
}
