/** The entities of `internal/consensus`: what the derivation reads and what it answers. */
module ConsensusTypes {
  import opened Core

  /** ULIDs compare as 128-bit numbers, so an id is its number. */
  type Id = nat

  datatype Source = LogLine | Manual | Api | Import

  datatype ReportKind = Kill | Retraction

  datatype WindowKind = Fixed | Variance | Unknown

  datatype Status = StatusUnknown | NoTimer | PreWindow | InWindow | Overdue | Up

  datatype Confidence = ConfidenceUnknown | Low | Medium | High

  datatype ContestReason = ThinSupersede | ImplausibleOrdering | WideSpread | PendingSupersede

  datatype Report = Report(
    id: Id,
    kind: ReportKind,
    diedAt: Micros,
    reportedAt: Micros,
    reporter: Id,
    revoked: bool,
    source: Source,
    retracts: Option<Id>)

  datatype Quake = Quake(id: Id, occurredAt: Micros)

  datatype Timer = Timer(
    kind: WindowKind,
    openOffset: Option<int>,
    closeOffset: Option<int>,
    fixedGrace: int,
    epsilon: Option<int>,
    isQuakeTarget: bool)

  datatype CircleConfig = CircleConfig(minReportersToSupersede: int)

  datatype Window = Window(
    kind: WindowKind,
    openAt: Option<Micros>,
    closeAt: Option<Micros>,
    spawnAt: Option<Micros>,
    progressBP: Option<int>,
    secondsUntilOpen: Option<int>,
    secondsUntilClose: Option<int>)

  datatype Evidence = Evidence(
    reportCount: nat,
    distinctReporterCount: nat,
    logLineCount: nat,
    spreadSeconds: int,
    revokedReporterCount: nat,
    reportIds: seq<Id>)

  datatype Alternative = Alternative(
    diedAt: Micros,
    reportCount: nat,
    distinctReporterCount: nat,
    confidence: Confidence,
    window: Window,
    reportIds: seq<Id>)

  datatype State = State(
    status: Status,
    diedAt: Option<Micros>,
    upSince: Option<Micros>,
    window: Window,
    confidence: Confidence,
    contestReason: Option<ContestReason>,
    alternatives: seq<Alternative>,
    alternativesTotal: nat,
    evidence: Evidence,
    implausibleReportIds: seq<Id>,
    asOf: Micros)
}
