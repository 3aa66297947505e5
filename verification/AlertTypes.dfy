/** Alert specifications, snapshots, decisions and evaluations. */
module AlertTypes {
  import opened Wrappers
  import Int64

  datatype State = OK | Pending | Firing | Recovering | Resolved | Superseded

  datatype DataState = DataValid | DataUnknown | DataStale | DataIncompatible

  datatype Predicate = Match | Clear | Hold

  datatype RuleType =
    | OllamaUnreachable
    | HostNotReporting
    | SourceMissing
    | MemoryPressure
    | HeavyCPU
    | ObservedRequestDuration
    | DiskMonitorHealth

  datatype IncarnationPolicy = StableScope | TargetEpisode | SourceIncarnation | Population

  datatype Statistic = Median | P95

  datatype RequestDurationSpec = RequestDurationSpec(metricID: string, statistic: Statistic, thresholdMS: real)

  datatype Spec = Spec(
    ruleID: string,
    version: int,
    ruleType: RuleType,
    scope: string,
    policy: IncarnationPolicy,
    triggerDwellMS: int,
    recoveryDwellMS: int,
    request: Option<RequestDurationSpec>)

  /** One alert_instances row. */
  datatype Snapshot = Snapshot(
    ruleID: string,
    version: int,
    scope: string,
    policy: IncarnationPolicy,
    generation: int,
    state: State,
    dataState: DataState,
    dwellMS: int,
    lastEvalMS: int,
    lastValidMS: Option<int>,
    openedMS: Option<int>,
    resolvedMS: Option<int>,
    ackBy: Option<string>,
    ackMS: Option<int>,
    mutedUntilMS: Option<int>,
    transitionSeq: int)

  /** The reason codes of the shipped evaluators. */
  datatype Reason =
    | InputNotValid(state: DataState)
    | ReachabilityNotObserved | RuntimeIncompatible | RuntimeReachable | StartupGraceOpen | RuntimeUnreachable
    | HeartbeatNotObserved | HeartbeatAge60s | HeartbeatFresh
    | SourceNotObserved | SourceIncompatible | SourceNotValid(state: DataState) | SourceAvailable | SourceIsMissing
    | PressureUncertified | PressureNormal | PressureWarning | PressureCritical | PressureNotObserved
    | CPUNotObserved | CPUAtLeast90 | CPUBelow80 | CPUHysteresis
    | RequestPopulationUnavailable | RequestP95Below100 | RequestValidNZero | RequestStatisticUnavailable
    | RequestThresholdMet | RequestThresholdClear
    | MonitorHealthNotObserved | FinalDeliveryFailed | StoragePressure | EvaluatorLagOver15s
    | MonitorHealthPartial | MonitorHealthClear
    | RuleSuperseded

  datatype Decision = Decision(
    predicate_: Predicate,
    evaluable: bool,
    dataState: DataState,
    reason: Reason,
    immediate: bool)

  /** eventMS is a wall time for persisted fields; dwell advances only by elapsedMS. */
  datatype Evaluation = Evaluation(
    eventMS: int,
    elapsedMS: int,
    hubRestarted: bool,
    decision: Decision,
    evidenceHash: string)

  datatype Transition = Transition(
    sequence: int,
    previous: State,
    next: State,
    eventMS: int,
    evidenceHash: string)

  datatype Error =
    | InvalidSpec
    | InvalidSnapshot
    | InvalidInput
    | TerminalState

  predicate IsHexDigit(c: char) {
    '0' <= c <= '9' || 'a' <= c <= 'f'
  }

  /** Sixty-four lower-case hexadecimal digits. */
  predicate IsHash(s: string) {
    |s| == 64 && forall i :: 0 <= i < |s| ==> IsHexDigit(s[i])
  }

  /** The canonical UUID text of versions 1 to 5. */
  predicate IsUUID(s: string) {
    && |s| == 36
    && s[8] == '-' && s[13] == '-' && s[18] == '-' && s[23] == '-'
    && '1' <= s[14] <= '5' && s[19] in "89ab"
    && forall i :: 0 <= i < |s| && i != 8 && i != 13 && i != 18 && i != 23 ==> IsHexDigit(s[i])
  }

  /** A value the store can keep in a signed 64-bit column and that is not negative. */
  predicate InRange(n: int) {
    0 <= n <= Int64.MAX
  }

  predicate Terminal(s: State) {
    s == Resolved || s == Superseded
  }

  /** True for a missing time and for a representable, non-negative one. */
  predicate ValidTime(t: Option<int>) {
    t.Some? ==> InRange(t.value)
  }
}
