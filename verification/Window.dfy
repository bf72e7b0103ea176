/** Where a target respawns and where `now` sits in that band. */
module Windows {
  import opened Core
  import opened ConsensusTypes

  const BASIS_POINTS: int := 10000

  const INT64_MAX: int := 0x7fff_ffff_ffff_ffff

  datatype Bounds = Bounds(open: Micros, close: Micros)

  /** None when there is no window to compute: an unknown timer, or missing offsets. */
  function ResolveBounds(t: Timer, died: Micros): Option<Bounds> {
    if t.kind == Unknown || t.openOffset.None? then None
    else
      var open := died + t.openOffset.value * MICROS_PER_SECOND;
      if t.kind == Fixed then Some(Bounds(open, open + t.fixedGrace * MICROS_PER_SECOND))
      else if t.closeOffset.None? then None
      else Some(Bounds(open, died + t.closeOffset.value * MICROS_PER_SECOND))
  }

  /** The clamp precedes the multiplication, so the product is only formed inside the window. */
  function ProgressBP(b: Bounds, now: Micros): (bp: int)
    ensures 0 <= bp <= BASIS_POINTS
  {
    if now <= b.open then 0
    else if now >= b.close then BASIS_POINTS
    else
      QuotientBound(now - b.open, b.close - b.open);
      TruncDiv(ScaledProgress(b, now), b.close - b.open)
  }

  /** The intermediate product, which tod-serve forms in an int64. */
  function ScaledProgress(b: Bounds, now: Micros): int { (now - b.open) * BASIS_POINTS }

  lemma QuotientBound(part: int, whole: int)
    requires 0 < part < whole
    ensures 0 <= TruncDiv(part * BASIS_POINTS, whole) < BASIS_POINTS
  {
    var q := TruncDiv(part * BASIS_POINTS, whole);
    CancelFactor(q, BASIS_POINTS, whole);
    CancelFactor(-1, q, whole);
  }

  function SecondsUntil(at: Micros, now: Micros): int {
    TruncDiv(at - now, MICROS_PER_SECOND)
  }

  function DeriveWindow(t: Timer, died: Option<Micros>, now: Micros): Window {
    var bounds := if died.None? then None else ResolveBounds(t, died.value);
    if bounds.None? then Window(t.kind, None, None, None, None, None, None)
    else
      var b := bounds.value;
      Window(
        t.kind,
        Some(b.open),
        Some(b.close),
        if t.kind == Fixed then Some(b.open) else None,
        if t.kind == Fixed then None else Some(ProgressBP(b, now)),
        Some(SecondsUntil(b.open, now)),
        Some(SecondsUntil(b.close, now)))
  }

  function DeriveStatus(t: Timer, died: Option<Micros>, now: Micros, upSince: Option<Micros>): Status {
    if upSince.Some? then Up
    else if died.None? then StatusUnknown
    else
      match ResolveBounds(t, died.value)
      case None => NoTimer
      case Some(b) => if now < b.open then PreWindow else if now <= b.close then InWindow else Overdue
  }

  predicate WindowStillOpen(t: Timer, died: Micros, now: Micros) {
    var b := ResolveBounds(t, died);
    b.None? || now <= b.value.close
  }

  /** The cached re-rendering: everything it reads is in its arguments. */
  function Project(t: Timer, died: Option<Micros>, upSince: Option<Micros>, now: Micros): (Status, Window) {
    (DeriveStatus(t, died, now, upSince), DeriveWindow(t, died, now))
  }

  // ---------------------------------------------------------------- stored windows

  const DEFAULT_FIXED_GRACE_SECONDS: int := 900

  datatype WindowRequest = WindowRequest(
    kind: string,
    openOffset: Option<int>,
    closeOffset: Option<int>,
    fixedGrace: Option<int>,
    epsilon: Option<int>)

  datatype Stored = Stored(
    kind: WindowKind,
    openOffset: Option<int>,
    closeOffset: Option<int>,
    grace: int,
    epsilon: Option<int>)

  datatype Refusal =
    | OffsetsOnUnknown
    | MissingOffset
    | CloseBeforeOpen
    | PointOrBand
    | BadKind
    | NegativeGrace
    | NegativeEpsilon

  function ParseKind(kind: string): Option<WindowKind> {
    if kind == "unknown" then Some(Unknown)
    else if kind == "variance" then Some(Variance)
    else if kind == "fixed" then Some(Fixed)
    else None
  }

  /** The CHECK constraints both window tables put on their window columns, one line each. None mentions epsilon. */
  predicate Checks(s: Stored) {
    && (s.kind == Unknown <==> s.openOffset.None?)
    && (s.openOffset.None? <==> s.closeOffset.None?)
    && (s.kind == Fixed <==> s.openOffset.Some? && s.closeOffset.Some? && s.openOffset.value == s.closeOffset.value)
    && (s.openOffset.None? || s.closeOffset.None? || s.closeOffset.value >= s.openOffset.value)
    && s.grace >= 0
  }

  /** The one rule that is not in the schema. */
  predicate NonNegativeEpsilon(s: Stored) {
    s.epsilon.Some? ==> s.epsilon.value >= 0
  }

  /** The row a request asks for, before anything has been checked. */
  function Requested(w: WindowRequest, kind: WindowKind): Stored {
    var grace := if w.fixedGrace.Some? then w.fixedGrace.value else DEFAULT_FIXED_GRACE_SECONDS;
    Stored(kind, w.openOffset, w.closeOffset, grace, w.epsilon)
  }

  /** Refuses what the constraints refuse and a negative epsilon, and otherwise writes what was asked for. */
  function Validate(w: WindowRequest): (r: Result<Stored, Refusal>)
    ensures r.Ok? <==>
            && ParseKind(w.kind).Some?
            && Checks(Requested(w, ParseKind(w.kind).value))
            && NonNegativeEpsilon(Requested(w, ParseKind(w.kind).value))
    ensures r.Ok? ==> r.value == Requested(w, ParseKind(w.kind).value)
    ensures r == Err(BadKind) <==> ParseKind(w.kind).None?
  {
    var grace := if w.fixedGrace.Some? then w.fixedGrace.value else DEFAULT_FIXED_GRACE_SECONDS;
    match ParseKind(w.kind)
    case None => Err(BadKind)
    case Some(kind) =>
      if kind == Unknown && (w.openOffset.Some? || w.closeOffset.Some?) then Err(OffsetsOnUnknown)
      else if kind != Unknown && (w.openOffset.None? || w.closeOffset.None?) then Err(MissingOffset)
      else if kind != Unknown && w.closeOffset.value < w.openOffset.value then Err(CloseBeforeOpen)
      else if kind != Unknown && (kind == Fixed) != (w.openOffset.value == w.closeOffset.value) then Err(PointOrBand)
      else if grace < 0 then Err(NegativeGrace)
      else if w.epsilon.Some? && w.epsilon.value < 0 then Err(NegativeEpsilon)
      else Ok(Stored(kind, w.openOffset, w.closeOffset, grace, w.epsilon))
  }

  function TimerOf(s: Stored, isQuakeTarget: bool): Timer {
    Timer(s.kind, s.openOffset, s.closeOffset, s.grace, s.epsilon, isQuakeTarget)
  }
}
