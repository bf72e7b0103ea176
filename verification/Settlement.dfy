/** What one request comes to, said of its outcome alone: which answers are kept, which run again, which are refused. */
module Settlement {
  import opened Core
  import opened Idempotency
  import opened IdempotencyProperties

  /** The answer of this outcome is one to replay, and what to replay. */
  ghost predicate Keeps(variant: Variant, outcome: Outcome, response: Response) {
    match variant
    case Middleware => outcome.response.status < 500 && response == outcome.response
    case OwnReplay => !outcome.erred && response == Response(200, outcome.response.body)
  }

  /** The request has run its handler and is about to record what came of it, in the slot it took. */
  ghost predicate AboutToRecord(s: State, r: RequestId, id: RecordId, outcome: Outcome) {
    && r in s.clients && s.clients[r].stage.Recording?
    && s.clients[r].stage.id == id && s.clients[r].stage.outcome == outcome
    && s.clients[r].request.slot in s.table && s.table[s.clients[r].request.slot].id == id
  }

  /** The other slots are as they were. */
  ghost predicate OnlyTouches(before: Table, after: Table, slot: Slot) {
    forall other :: other != slot ==>
      && (other in after <==> other in before)
      && (other in after ==> after[other] == before[other])
  }

  /** An id names one slot. */
  lemma OneSlotAnId(s: State, a: Slot, b: Slot)
    requires Inv(s) && a in s.table && b in s.table && s.table[a].id == s.table[b].id
    ensures a == b
  {
    assert RecordIsARun(s, a) && RecordIsARun(s, b);
  }

  /**
   * The middleware keeps every answer below 500 as it was given, client errors included, and of one from 500 on
   * leaves no record.
   */
  lemma MiddlewareSettles(
    init: State, actions: seq<Action>, s: State, r: RequestId, id: RecordId, outcome: Outcome, input: Input
  )
    requires Initial(init) && s == Execute(init, actions) && AboutToRecord(s, r, id, outcome)
    requires s.clients[r].request.variant == Middleware && !input.fault
    ensures
      var slot, s' := s.clients[r].request.slot, Next(s, Advance(r, input));
      && s'.clients[r].stage == Done(Answered(outcome))
      && OnlyTouches(s.table, s'.table, slot)
      && (outcome.response.status < 500 ==>
            slot in s'.table && s'.table[slot] == s.table[slot].(response := Some(outcome.response)))
      && (outcome.response.status >= 500 ==> slot !in s'.table)
  {
    RecordIsOpen(init, actions, s, r, id, outcome);
  }

  /**
   * A handler that owns its replay keeps what it answered as a 200 when it returned no error, and leaves no record
   * when it did; an answer it cannot write down is an internal error and leaves the record as it was.
   */
  lemma HandlerSettles(
    init: State, actions: seq<Action>, s: State, r: RequestId, id: RecordId, outcome: Outcome, input: Input
  )
    requires Initial(init) && s == Execute(init, actions) && AboutToRecord(s, r, id, outcome)
    requires s.clients[r].request.variant == OwnReplay && !input.fault
    ensures
      var slot, s' := s.clients[r].request.slot, Next(s, Advance(r, input));
      && OnlyTouches(s.table, s'.table, slot)
      && (outcome.erred ==> slot !in s'.table && s'.clients[r].stage == Done(Answered(outcome)))
      && (!outcome.erred && input.broken ==> s'.table == s.table && s'.clients[r].stage == Done(InternalError))
      && (!outcome.erred && !input.broken ==>
            && s'.clients[r].stage == Done(Answered(outcome)) && slot in s'.table
            && s'.table[slot] == s.table[slot].(response := Some(Response(200, outcome.response.body))))
  {
    RecordIsOpen(init, actions, s, r, id, outcome);
  }

  /** Until then the record has no response, and no other slot holds its id. */
  lemma RecordIsOpen(init: State, actions: seq<Action>, s: State, r: RequestId, id: RecordId, outcome: Outcome)
    requires Initial(init) && s == Execute(init, actions) && AboutToRecord(s, r, id, outcome)
    ensures
      var slot := s.clients[r].request.slot;
      && s.table[slot].response.None?
      && forall other :: other in s.table && s.table[other].id == id ==> other == slot
  {
    ExecuteKeeps(init, actions);
    OwnersAreKnown(init, actions, s);
    assert ClientConsistent(s, r);
    assert NothingYet(s, id) && InFlight(s, id);
    forall other | other in s.table && s.table[other].id == id ensures other == s.clients[r].request.slot {
      OneSlotAnId(s, other, s.clients[r].request.slot);
    }
  }

  /** A store call that fails leaves the record as it was: the answer is given and lost. */
  lemma FailedSettleForgets(s: State, r: RequestId, id: RecordId, outcome: Outcome, input: Input)
    requires AboutToRecord(s, r, id, outcome) && input.fault
    ensures Next(s, Advance(r, input)).table == s.table
  {
  }

  /** And a kept answer is what every retry of the same request gets, whatever happens until its day is over. */
  lemma KeptIsReplayed(
    init: State, actions: seq<Action>, r: RequestId, id: RecordId, outcome: Outcome, response: Response, input: Input,
    more: seq<Action>, q: RequestId
  )
    requires Initial(init) && AboutToRecord(Execute(init, actions), r, id, outcome)
    requires !input.fault && !input.broken
    requires Keeps(Execute(init, actions).clients[r].request.variant, outcome, response)
    requires
      var s := Execute(Execute(init, actions + [Advance(r, input)]), more);
      && !Expired(s, id) && q in s.clients && s.clients[q].stage.Looking?
      && s.clients[q].request.slot == Execute(init, actions).clients[r].request.slot
    ensures
      var was, s := Execute(init, actions), Execute(Execute(init, actions + [Advance(r, input)]), more);
      Look(s, q, s.clients[q].stage.now, false, false).clients[q].stage
      == if s.clients[q].request.hash == was.clients[r].request.hash
         then Done(Replayed(response)) else Done(KeyReused)
  {
    var was, a := Execute(init, actions), Advance(r, input);
    var slot := was.clients[r].request.slot;
    assert (actions + [a])[..|actions|] == actions;
    var settled := Execute(init, actions + [a]);
    assert settled == Next(was, a);
    ExecuteKeeps(init, actions);
    assert ClientConsistent(was, r);
    if was.clients[r].request.variant == Middleware {
      MiddlewareSettles(init, actions, was, r, id, outcome, input);
    } else {
      HandlerSettles(init, actions, was, r, id, outcome, input);
    }
    assert settled.runs == was.runs;
    assert Completed(settled, slot, id, response);
    RetriesReplay(init, actions + [a], more, slot, id, response, q);
  }

  // ---------------------------------------------------------------- who runs at all

  /** The first thing a request does, and the one key it refuses outright. */
  lemma EmptyKeyIsRefused(s: State, r: RequestId, input: Input)
    requires r in s.clients && s.clients[r].stage == Arrived
    ensures
      var request, stage := s.clients[r].request, Next(s, Advance(r, input)).clients[r].stage;
      stage == if request.variant == OwnReplay && request.slot.key == "" then Done(KeyRequired) else Looking(s.clock)
  {
  }

  /** A stored answer that cannot be read is an error of the handler's own replay, and nobody else's. */
  lemma UnreadableAnswer(s: State, r: RequestId, now: Micros, response: Response)
    requires r in s.clients && s.clients[r].stage == Looking(now) && s.clients[r].request.slot in s.table
    requires
      var record := s.table[s.clients[r].request.slot];
      record.expiresAt >= now && record.hash == s.clients[r].request.hash && record.response == Some(response)
    ensures Look(s, r, now, false, true).clients[r].stage
            == if s.clients[r].request.variant == OwnReplay then Done(InternalError) else Done(Replayed(response))
  {
  }

  /** The next step, with the store answering and nothing broken. */
  function Smoothly(s: State, r: RequestId, id: RecordId, outcome: Outcome): State {
    Next(s, Advance(r, Input(false, false, id, outcome)))
  }

  /**
   * A key that is free, or whose record is past its day, is taken for a whole new day and its handler runs: two
   * steps after looking, or three with the old record to clear. What the handler answers is what is then recorded.
   */
  lemma FreeKeyRuns(s: State, r: RequestId, now: Micros, id: RecordId, outcome: Outcome)
    requires r in s.clients && s.clients[r].stage == Looking(now) && id !in s.runs
    requires
      var slot := s.clients[r].request.slot;
      slot in s.table ==> s.table[slot].expiresAt < now
    ensures
      var request := s.clients[r].request;
      var first := Smoothly(s, r, id, outcome);
      var free := if request.slot in s.table then Smoothly(first, r, id, outcome) else first;
      var taken := Smoothly(free, r, id, outcome);
      && taken.clients[r].stage == Running(now, id)
      && request.slot in taken.table
      && taken.table[request.slot] == Record(id, request.hash, now + 86_400_000_000, None)
      && Smoothly(taken, r, id, outcome).clients[r].stage == Recording(now, id, outcome)
      && Smoothly(taken, r, id, outcome).table == taken.table
  {
    var request := s.clients[r].request;
    var first := Smoothly(s, r, id, outcome);
    if request.slot in s.table {
      assert first.clients[r].stage == Clearing(now, s.table[request.slot].id);
      assert Smoothly(first, r, id, outcome).clients[r].stage == Inserting(now);
    } else {
      assert first.clients[r].stage == Inserting(now);
    }
  }

  /**
   * A store that fails before the handler runs stops the request: a failed look or clearing is an internal error, a
   * failed insert a conflict. No record is touched.
   */
  lemma FailedStoreAnswers(s: State, r: RequestId, input: Input)
    requires r in s.clients && input.fault && !input.broken && input.id !in s.runs
    requires var stage := s.clients[r].stage; stage.Looking? || stage.Clearing? || stage.Inserting?
    ensures
      var s' := Next(s, Advance(r, input));
      && s'.table == s.table && s'.runs == s.runs
      && s'.clients[r].stage == Done(if s.clients[r].stage.Inserting? then KeyConflict else InternalError)
  {
  }

  /** So does the loss of a race for the slot; an id that cannot be minted is an internal error. */
  lemma LostRaceAnswers(s: State, r: RequestId, input: Input)
    requires r in s.clients && s.clients[r].stage.Inserting? && input.id !in s.runs
    requires s.clients[r].request.slot in s.table || input.broken
    ensures
      var s' := Next(s, Advance(r, input));
      && s'.table == s.table && s'.runs == s.runs
      && s'.clients[r].stage == Done(if input.broken then InternalError else KeyConflict)
  {
  }

  /** The sweep removes exactly the records whose day was over by then. */
  lemma SweepExactly(s: State, before: Micros, slot: Slot)
    requires before <= s.clock
    ensures
      var t := Next(s, Sweep(before)).table;
      && (slot in t <==> slot in s.table && s.table[slot].expiresAt >= before)
      && (slot in t ==> t[slot] == s.table[slot])
  {
  }
}
