/** What a window, its progress, its countdowns and its status promise each other. */
module WindowProperties {
  import opened Core
  import opened ConsensusTypes
  import opened Windows

  // ---------------------------------------------------------------- from the timer's own fields

  /** A timer that says when: a kind, an open offset, and for a band a close offset. */
  predicate HasWindow(t: Timer) {
    t.kind != Unknown && t.openOffset.Some? && (t.kind == Fixed || t.closeOffset.Some?)
  }

  /** Opening: the death plus the open offset. */
  function OpensAt(t: Timer, died: Micros): Micros
    requires HasWindow(t)
  {
    died + t.openOffset.value * 1_000_000
  }

  /** Closing: for a point its grace after it, for a band the death plus the close offset. */
  function ClosesAt(t: Timer, died: Micros): Micros
    requires HasWindow(t)
  {
    died + (if t.kind == Fixed then t.openOffset.value + t.fixedGrace else t.closeOffset.value) * 1_000_000
  }

  /** `seconds` is the whole seconds of `left`, rounded toward zero. */
  ghost predicate WholeSeconds(seconds: int, left: Micros) {
    if left >= 0 then 0 <= seconds * 1_000_000 <= left < (seconds + 1) * 1_000_000
    else (seconds - 1) * 1_000_000 < left <= seconds * 1_000_000 <= 0
  }

  /** Status and window of a death whose timer says when, every field of them. */
  lemma WindowExactly(t: Timer, died: Micros, now: Micros)
    requires HasWindow(t)
    ensures
      var open, close := OpensAt(t, died), ClosesAt(t, died);
      var (status, w) := Project(t, Some(died), None, now);
      && status == (if now < open then PreWindow else if now <= close then InWindow else Overdue)
      && w.kind == t.kind && w.openAt == Some(open) && w.closeAt == Some(close)
      && w.spawnAt == (if t.kind == Fixed then Some(open) else None)
      && w.secondsUntilOpen.Some? && WholeSeconds(w.secondsUntilOpen.value, open - now)
      && w.secondsUntilClose.Some? && WholeSeconds(w.secondsUntilClose.value, close - now)
      && (w.progressBP.Some? <==> t.kind != Fixed)
  {
  }

  /** A band's progress: nothing until it opens, all of it once closed, in between the share gone, rounded down. */
  lemma ProgressExactly(t: Timer, died: Micros, now: Micros)
    requires HasWindow(t) && t.kind != Fixed
    ensures
      var open, close := OpensAt(t, died), ClosesAt(t, died);
      var bp := DeriveWindow(t, Some(died), now).progressBP.value;
      && (now <= open ==> bp == 0)
      && (open < now && close <= now ==> bp == 10_000)
      && (open < now < close ==> bp * (close - open) <= (now - open) * 10_000 < (bp + 1) * (close - open))
  {
    if OpensAt(t, died) < now < ClosesAt(t, died) {
      ProgressInside(Bounds(OpensAt(t, died), ClosesAt(t, died)), now);
    }
  }

  /** Without a window there is nothing to place: only the kind is said. A quake outranks everything. */
  lemma NoWindowExactly(t: Timer, died: Option<Micros>, upSince: Option<Micros>, now: Micros)
    requires upSince.Some? || died.None? || !HasWindow(t)
    ensures
      var (status, w) := Project(t, died, upSince, now);
      && status == (if upSince.Some? then Up else if died.None? then StatusUnknown else NoTimer)
      && (died.None? || !HasWindow(t) ==> w == Window(t.kind, None, None, None, None, None, None))
      && (upSince.Some? ==> w == Project(t, died, None, now).1)
  {
  }

  /** What keeps a cluster a rival: no window to close, or one not closed yet. */
  lemma OpenExactly(t: Timer, died: Micros, now: Micros)
    ensures WindowStillOpen(t, died, now) <==> !HasWindow(t) || now <= ClosesAt(t, died)
  {
  }

  /** What a stored window puts on the board: a point stays open for the grace stored with it. */
  lemma StoredWindowExactly(s: Stored, isQuakeTarget: bool, died: Micros, now: Micros)
    requires Checks(s) && s.kind != Unknown
    ensures
      var open := died + s.openOffset.value * 1_000_000;
      var close := if s.kind == Fixed then open + s.grace * 1_000_000 else died + s.closeOffset.value * 1_000_000;
      var t := TimerOf(s, isQuakeTarget);
      var (status, w) := Project(t, Some(died), None, now);
      && status == (if now < open then PreWindow else if now <= close then InWindow else Overdue)
      && w.kind == s.kind && w.openAt == Some(open) && w.closeAt == Some(close) && t.isQuakeTarget == isQuakeTarget
  {
    WindowExactly(TimerOf(s, isQuakeTarget), died, now);
  }

  /** A request is stored as sent; only a grace not sent is filled in, with fifteen minutes. */
  lemma StoredAsSent(w: WindowRequest)
    requires Validate(w).Ok?
    ensures
      var s := Validate(w).value;
      && (w.kind == "fixed" <==> s.kind == Fixed) && (w.kind == "variance" <==> s.kind == Variance)
      && (w.kind == "unknown" <==> s.kind == Unknown)
      && s.openOffset == w.openOffset && s.closeOffset == w.closeOffset && s.epsilon == w.epsilon
      && s.grace == if w.fixedGrace.Some? then w.fixedGrace.value else 900
  {
  }

  // ---------------------------------------------------------------- what validation buys

  /** A validated timer always yields a window with its ends in order, unless it says it has none. */
  lemma ValidatedWindow(w: WindowRequest, quakeTarget: bool, died: Micros, now: Micros)
    requires Validate(w).Ok?
    ensures
      var t := TimerOf(Validate(w).value, quakeTarget);
      var b := ResolveBounds(t, died);
      && b == (if t.kind == Unknown then None else Some(Bounds(OpensAt(t, died), ClosesAt(t, died))))
      && (b.Some? ==> b.value.open <= b.value.close)
      && (t.kind == Unknown <==> DeriveStatus(t, Some(died), now, None) == NoTimer)
      && (DeriveWindow(t, Some(died), now).spawnAt.Some? <==> t.kind == Fixed)
      && (DeriveWindow(t, Some(died), now).progressBP.Some? <==> t.kind == Variance)
  {
    var s := Validate(w).value;
    if s.kind == Variance {
      CancelFactor(s.openOffset.value, s.closeOffset.value, MICROS_PER_SECOND);
    }
  }

  /** Of the rows the schema would take, the service refuses exactly those with a negative epsilon. */
  lemma RefusedDespiteTheChecks(w: WindowRequest)
    requires ParseKind(w.kind).Some? && Checks(Requested(w, ParseKind(w.kind).value))
    ensures Validate(w).Err? <==> w.epsilon.Some? && w.epsilon.value < 0
    ensures Validate(w).Err? ==> Validate(w) == Err(NegativeEpsilon)
  {
  }

  /** One it refuses although no constraint would: an unknown window with an epsilon of minus one. */
  lemma ServiceStricterThanSchema(w: WindowRequest)
    requires w == WindowRequest("unknown", None, None, None, Some(-1))
    ensures Checks(Requested(w, Unknown)) && Validate(w) == Err(NegativeEpsilon)
  {
    RefusedDespiteTheChecks(w);
  }

  lemma ProgressInside(b: Bounds, now: Micros)
    requires b.open < now < b.close
    ensures
      var bp, width := ProgressBP(b, now), b.close - b.open;
      0 <= bp < BASIS_POINTS && bp * width <= (now - b.open) * BASIS_POINTS < (bp + 1) * width
  {
    QuotientBound(now - b.open, b.close - b.open);
  }

  lemma ProgressMonotone(b: Bounds, now: Micros, later: Micros)
    requires now <= later
    ensures ProgressBP(b, now) <= ProgressBP(b, later)
  {
    if b.open < now && later < b.close {
      TruncDivMonotone(ScaledProgress(b, now), ScaledProgress(b, later), b.close - b.open);
    }
  }

  /** The exact widest window whose progress never leaves an int64. */
  const WIDEST_SAFE_WINDOW: int := 922_337_203_685_478

  lemma ProgressFitsInt64(b: Bounds)
    ensures (forall now :: b.open < now < b.close ==> ScaledProgress(b, now) <= INT64_MAX)
            <==> b.close - b.open <= WIDEST_SAFE_WINDOW
  {
    if b.close - b.open > WIDEST_SAFE_WINDOW {
      var last := b.close - 1;
      assert b.open < last < b.close && ScaledProgress(b, last) > INT64_MAX;
    }
  }

  function Rank(s: Status): nat {
    match s
    case PreWindow => 0
    case InWindow => 1
    case Overdue => 2
    case _ => 3
  }

  /** For one estimate the status only ever moves pre_window, in_window, overdue. */
  lemma StatusOnlyAdvances(t: Timer, died: Option<Micros>, upSince: Option<Micros>, now: Micros, later: Micros)
    requires now <= later
    ensures
      var s, s' := DeriveStatus(t, died, now, upSince), DeriveStatus(t, died, later, upSince);
      Rank(s) <= Rank(s') && (Rank(s) == 3 <==> s' == s && Rank(s') == 3)
  {
  }

  /** Status, countdowns and progress never contradict each other on screen. */
  lemma RenderingAgrees(t: Timer, died: Micros, now: Micros)
    requires ResolveBounds(t, died).Some?
    requires ResolveBounds(t, died).value.open <= ResolveBounds(t, died).value.close
    ensures
      var (status, w) := Project(t, Some(died), None, now);
      && (w.secondsUntilOpen.value > 0 ==> status == PreWindow)
      && (status == PreWindow ==> w.secondsUntilOpen.value >= 0 && w.secondsUntilClose.value >= 0)
      && (status == InWindow ==> w.secondsUntilOpen.value <= 0 <= w.secondsUntilClose.value)
      && (w.secondsUntilClose.value < 0 ==> status == Overdue)
      && (status == Overdue ==> w.secondsUntilOpen.value <= 0 && w.secondsUntilClose.value <= 0)
      && (w.progressBP.Some? && 0 < w.progressBP.value < BASIS_POINTS ==> status == InWindow)
      && (w.progressBP.Some? && status == PreWindow ==> w.progressBP.value == 0)
      && (w.progressBP.Some? && status == Overdue ==> w.progressBP.value == BASIS_POINTS)
  {
    var b := ResolveBounds(t, died).value;
    TruncDivMonotone(b.open - now, b.close - now, MICROS_PER_SECOND);
  }
}
