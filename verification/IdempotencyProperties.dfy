/** What every interleaving of requests, clock and sweep keeps true. */
module IdempotencyProperties {
  import opened Core
  import opened Idempotency

  /** Is run `id`'s record the one stored in its slot? */
  predicate Stored(s: State, id: RecordId) {
    id in s.runs && s.runs[id].slot in s.table && s.table[s.runs[id].slot].id == id
  }

  /** Past its day. */
  predicate Expired(s: State, id: RecordId) {
    id in s.runs && s.runs[id].expiresAt < s.clock
  }

  /** A stored record is the one some run created, completed only with what that run succeeded with. */
  ghost predicate RecordIsARun(s: State, slot: Slot)
    requires slot in s.table
  {
    var record := s.table[slot];
    && record.id in s.runs
    && var run := s.runs[record.id];
       && run.slot == slot && run.hash == record.hash && run.expiresAt == record.expiresAt
       && (record.response.Some? ==> run.verdict == Succeeded(record.response.value))
  }

  /** A record leaves the table only when its run failed or its day is over. */
  ghost predicate RunAccountedFor(s: State, id: RecordId)
    requires id in s.runs
  {
    Stored(s, id) || s.runs[id].verdict == Failed || Expired(s, id)
  }

  ghost predicate RunRecorded(s: State, slot: Slot, hash: Hash, response: Response) {
    exists id :: id in s.runs && s.runs[id].slot == slot && s.runs[id].hash == hash
      && s.runs[id].verdict == Succeeded(response)
  }

  ghost predicate ClientConsistent(s: State, r: RequestId)
    requires r in s.clients
  {
    var Client(request, stage) := s.clients[r];
    match stage
    case Arrived => true
    case Looking(now) => now <= s.clock
    case Inserting(now) => now <= s.clock
    case Clearing(now, expired) => now <= s.clock && Expired(s, expired)
    case Running(now, id) => Owns(s, r, id) && s.runs[id].verdict == Pending
    case Recording(now, id, outcome) => Owns(s, r, id) && s.runs[id].verdict == VerdictOf(request.variant, outcome)
    case Done(reply) => reply.Replayed? ==> RunRecorded(s, request.slot, request.hash, reply.response)
  }

  ghost predicate Owns(s: State, r: RequestId, id: RecordId)
    requires r in s.clients
  {
    && id in s.runs
    && var request := s.clients[r].request;
       s.runs[id].owner == r && s.runs[id].slot == request.slot && s.runs[id].hash == request.hash
  }

  ghost predicate Inv(s: State) {
    && (forall slot :: slot in s.table ==> RecordIsARun(s, slot))
    && (forall id :: id in s.runs ==> RunAccountedFor(s, id))
    && (forall r :: r in s.clients ==> ClientConsistent(s, r))
  }

  // ---------------------------------------------------------------- every step keeps it

  /** Rows may vanish from the table when their run failed or expired; nothing else about it changes. */
  lemma ShrinkKeeps(s: State, t: Table)
    requires Inv(s)
    requires forall slot :: slot in t ==> slot in s.table && t[slot] == s.table[slot]
    requires forall slot :: slot in s.table && slot !in t ==>
               Expired(s, s.table[slot].id) || s.runs[s.table[slot].id].verdict == Failed
    ensures Inv(s.(table := t))
  {
    var s' := s.(table := t);
    forall slot | slot in t ensures RecordIsARun(s', slot) {
      assert RecordIsARun(s, slot);
    }
    forall id | id in s.runs ensures RunAccountedFor(s', id) {
      assert RunAccountedFor(s, id);
      if Stored(s, id) && s.runs[id].slot !in t {
        assert RecordIsARun(s, s.runs[id].slot);
      }
    }
    forall r | r in s.clients ensures ClientConsistent(s', r) {
      assert ClientConsistent(s, r);
    }
  }

  /** Moving one request along, given that its new stage is consistent. */
  lemma MoveKeeps(s: State, r: RequestId, stage: Stage)
    requires Inv(s) && r in s.clients && ClientConsistent(Move(s, r, stage), r)
    ensures Inv(Move(s, r, stage))
  {
    var s' := Move(s, r, stage);
    forall slot | slot in s'.table ensures RecordIsARun(s', slot) {
      assert RecordIsARun(s, slot);
    }
    forall id | id in s'.runs ensures RunAccountedFor(s', id) {
      assert RunAccountedFor(s, id);
    }
    forall q | q in s'.clients ensures ClientConsistent(s', q) {
      assert ClientConsistent(s, q);
    }
  }

  lemma TickKeeps(s: State, clock: Micros)
    requires Inv(s) && clock >= s.clock
    ensures Inv(s.(clock := clock))
  {
    var s' := s.(clock := clock);
    forall slot | slot in s.table ensures RecordIsARun(s', slot) {
      assert RecordIsARun(s, slot);
    }
    forall id | id in s.runs ensures RunAccountedFor(s', id) {
      assert RunAccountedFor(s, id);
    }
    forall r | r in s.clients ensures ClientConsistent(s', r) {
      assert ClientConsistent(s, r);
    }
  }

  lemma LookKeeps(s: State, r: RequestId, now: Micros, fault: bool, broken: bool)
    requires Inv(s) && r in s.clients && s.clients[r].stage == Looking(now)
    ensures Inv(Look(s, r, now, fault, broken))
  {
    var slot := s.clients[r].request.slot;
    assert ClientConsistent(s, r);
    if slot in s.table {
      assert RecordIsARun(s, slot);
      var id := s.table[slot].id;
      assert s.runs[id].slot == slot;
    }
    MoveKeeps(s, r, Look(s, r, now, fault, broken).clients[r].stage);
  }

  lemma ClearKeeps(s: State, r: RequestId, now: Micros, expired: RecordId, fault: bool)
    requires Inv(s) && r in s.clients && s.clients[r].stage == Clearing(now, expired)
    ensures Inv(Clear(s, r, now, expired, fault))
  {
    assert ClientConsistent(s, r);
    if fault {
      MoveKeeps(s, r, Done(InternalError));
    } else {
      MoveKeeps(s, r, Inserting(now));
      ShrinkKeeps(Move(s, r, Inserting(now)), DeleteById(s.table, expired));
    }
  }

  lemma InsertKeeps(s: State, r: RequestId, now: Micros, id: RecordId, fault: bool, broken: bool)
    requires Inv(s) && r in s.clients && s.clients[r].stage == Inserting(now) && id !in s.runs
    ensures Inv(Insert(s, r, now, id, fault, broken))
  {
    var request, s' := s.clients[r].request, Insert(s, r, now, id, fault, broken);
    if broken {
      MoveKeeps(s, r, Done(InternalError));
    } else if fault || request.slot in s.table {
      MoveKeeps(s, r, Done(KeyConflict));
    } else {
      forall slot | slot in s'.table ensures RecordIsARun(s', slot) {
        if slot != request.slot {
          assert RecordIsARun(s, slot);
        }
      }
      forall i | i in s'.runs ensures RunAccountedFor(s', i) {
        if i != id {
          assert RunAccountedFor(s, i);
        }
      }
      forall q | q in s'.clients ensures ClientConsistent(s', q) {
        assert ClientConsistent(s, q);
        RecordedStays(s, s', q);
      }
    }
  }

  /** Runs are never forgotten, and a success is never revised. */
  ghost predicate RunsGrow(s: State, s': State) {
    forall id :: id in s.runs ==>
      && id in s'.runs
      && s'.runs[id].owner == s.runs[id].owner && s'.runs[id].slot == s.runs[id].slot
      && s'.runs[id].hash == s.runs[id].hash && s'.runs[id].expiresAt == s.runs[id].expiresAt
      && (s.runs[id].verdict != Pending ==> s'.runs[id].verdict == s.runs[id].verdict)
  }

  lemma RecordedStays(s: State, s': State, q: RequestId)
    requires RunsGrow(s, s') && q in s.clients
    ensures
      var Client(request, stage) := s.clients[q];
      stage.Done? && stage.reply.Replayed? && RunRecorded(s, request.slot, request.hash, stage.reply.response)
      ==> RunRecorded(s', request.slot, request.hash, stage.reply.response)
  {
    var Client(request, stage) := s.clients[q];
    if stage.Done? && stage.reply.Replayed? && RunRecorded(s, request.slot, request.hash, stage.reply.response) {
      var id :| id in s.runs && s.runs[id].slot == request.slot && s.runs[id].hash == request.hash
                && s.runs[id].verdict == Succeeded(stage.reply.response);
      assert id in s'.runs && s'.runs[id].slot == request.slot
        && s'.runs[id].verdict == Succeeded(stage.reply.response);
    }
  }

  lemma FinishKeeps(s: State, r: RequestId, now: Micros, id: RecordId, outcome: Outcome)
    requires Inv(s) && r in s.clients && s.clients[r].stage == Running(now, id)
    ensures id in s.runs && Inv(Finish(s, r, now, id, outcome))
  {
    assert ClientConsistent(s, r);
    var s' := Finish(s, r, now, id, outcome);
    forall slot | slot in s'.table ensures RecordIsARun(s', slot) {
      assert RecordIsARun(s, slot);
    }
    forall i | i in s'.runs ensures RunAccountedFor(s', i) {
      assert RunAccountedFor(s, i);
    }
    forall q | q in s'.clients ensures ClientConsistent(s', q) {
      assert ClientConsistent(s, q);
      RecordedStays(s, s', q);
    }
  }

  lemma CompleteKeeps(s: State, id: RecordId, response: Response)
    requires Inv(s) && id in s.runs && s.runs[id].verdict == Succeeded(response)
    ensures Inv(s.(table := CompleteById(s.table, id, response)))
  {
    var s' := s.(table := CompleteById(s.table, id, response));
    forall slot | slot in s'.table ensures RecordIsARun(s', slot) {
      assert RecordIsARun(s, slot);
    }
    forall i | i in s'.runs ensures RunAccountedFor(s', i) {
      assert RunAccountedFor(s, i);
    }
    forall q | q in s'.clients ensures ClientConsistent(s', q) {
      assert ClientConsistent(s, q);
    }
  }

  lemma SettleKeeps(s: State, r: RequestId, now: Micros, id: RecordId, outcome: Outcome, fault: bool, broken: bool)
    requires Inv(s) && r in s.clients && s.clients[r].stage == Recording(now, id, outcome)
    ensures Inv(Settle(s, r, id, outcome, fault, broken))
  {
    assert ClientConsistent(s, r);
    if Unwritable(s.clients[r].request.variant, outcome, broken) {
      MoveKeeps(s, r, Done(InternalError));
    } else {
      var moved := Move(s, r, Done(Answered(outcome)));
      MoveKeeps(s, r, Done(Answered(outcome)));
      if !fault {
        match Storable(s.clients[r].request.variant, outcome)
        case None => ShrinkKeeps(moved, DeleteById(s.table, id));
        case Some(response) => CompleteKeeps(moved, id, response);
      }
    }
  }

  lemma StepKeeps(s: State, r: RequestId, input: Input)
    requires Inv(s) && r in s.clients
    ensures Inv(Step(s, r, input))
  {
    match s.clients[r].stage
    case Arrived => MoveKeeps(s, r, Begin(s.clients[r].request, s.clock));
    case Looking(now) => LookKeeps(s, r, now, input.fault, input.broken);
    case Clearing(now, expired) => ClearKeeps(s, r, now, expired, input.fault);
    case Inserting(now) =>
      if input.id !in s.runs {
        InsertKeeps(s, r, now, input.id, input.fault, input.broken);
      }
    case Running(now, id) => FinishKeeps(s, r, now, id, input.outcome);
    case Recording(now, id, outcome) => SettleKeeps(s, r, now, id, outcome, input.fault, input.broken);
    case Done(_) =>
  }

  lemma NextKeeps(s: State, a: Action)
    requires Inv(s)
    ensures Inv(Next(s, a))
  {
    match a
    case Tick(clock) =>
      if clock >= s.clock {
        TickKeeps(s, clock);
      }
    case Sweep(before) =>
      if before <= s.clock {
        forall slot | slot in s.table ensures RecordIsARun(s, slot) {
        }
        ShrinkKeeps(s, DeleteExpired(s.table, before));
      }
    case Advance(r, input) =>
      if r in s.clients {
        StepKeeps(s, r, input);
      }
    case Vanish(r) =>
      if r in s.clients && !s.clients[r].stage.Done? {
        MoveKeeps(s, r, Done(Lost));
      }
  }

  lemma {:induction false} ExecuteKeeps(s: State, actions: seq<Action>)
    requires Initial(s)
    ensures Inv(Execute(s, actions))
  {
    if actions == [] {
    } else {
      ExecuteKeeps(s, actions[..|actions| - 1]);
      NextKeeps(Execute(s, actions[..|actions| - 1]), actions[|actions| - 1]);
    }
  }

  // ---------------------------------------------------------------- what follows, in every reachable state

  /**
   * Of any two runs of one (principal, key), one failed or is past its day. So within a day of each
   * other two handlers never run at once, and never both succeed, however requests interleave.
   */
  lemma OneRunPerKeyAndDay(init: State, actions: seq<Action>, s: State, a: RecordId, b: RecordId)
    requires Initial(init) && s == Execute(init, actions)
    requires a in s.runs && b in s.runs && a != b && s.runs[a].slot == s.runs[b].slot
    ensures
      s.runs[a].verdict == Failed || s.runs[b].verdict == Failed || Expired(s, a) || Expired(s, b)
  {
    ExecuteKeeps(init, actions);
    assert RunAccountedFor(s, a) && RunAccountedFor(s, b);
  }

  /** Two requests running the same key at once: one has outlived its record's day. */
  lemma HandlersDoNotOverlap(init: State, actions: seq<Action>, s: State, r: RequestId, q: RequestId)
    requires Initial(init) && s == Execute(init, actions) && r != q
    requires
      && r in s.clients && q in s.clients && s.clients[r].stage.Running? && s.clients[q].stage.Running?
      && s.clients[r].request.slot == s.clients[q].request.slot
    ensures
      && s.clients[r].stage.id != s.clients[q].stage.id
      && (Expired(s, s.clients[r].stage.id) || Expired(s, s.clients[q].stage.id))
  {
    ExecuteKeeps(init, actions);
    assert ClientConsistent(s, r) && ClientConsistent(s, q);
    OneRunPerKeyAndDay(init, actions, s, s.clients[r].stage.id, s.clients[q].stage.id);
  }

  /** An insert succeeds only when every earlier run of the key failed or is past its day. */
  lemma ProceedsOnlyPastExpiry(init: State, actions: seq<Action>, s: State, r: RequestId, input: Input, id: RecordId)
    requires Initial(init) && s == Execute(init, actions)
    requires
      && r in s.clients && s.clients[r].stage.Inserting? && Step(s, r, input).clients[r].stage.Running?
      && id in s.runs && s.runs[id].slot == s.clients[r].request.slot
    ensures s.runs[id].verdict == Failed || Expired(s, id)
  {
    ExecuteKeeps(init, actions);
    assert RunAccountedFor(s, id);
  }

  /** A record is cleared from under its running handler only after its day. */
  lemma ClearedOnlyAfterExpiry(
    init: State, actions: seq<Action>, a: Action, r: RequestId, s: State, s': State
  )
    requires Initial(init) && s == Execute(init, actions) && s' == Next(s, a)
    requires
      && r in s.clients && r in s'.clients && s.clients[r].stage.Running? && s'.clients[r] == s.clients[r]
      && Stored(s, s.clients[r].stage.id) && !Stored(s', s.clients[r].stage.id)
    ensures Expired(s', s'.clients[r].stage.id)
  {
    ExecuteKeeps(init, actions);
    NextKeeps(s, a);
    assert ClientConsistent(s', r);
    assert RunAccountedFor(s', s'.clients[r].stage.id);
  }

  /** Every replay is exactly the response an earlier run of the same key and request recorded. */
  lemma ReplaysAreRecordedRuns(init: State, actions: seq<Action>, s: State, r: RequestId, response: Response)
    requires Initial(init) && s == Execute(init, actions)
    requires r in s.clients && s.clients[r].stage == Done(Replayed(response))
    ensures
      exists id :: id in s.runs && s.runs[id].slot == s.clients[r].request.slot
                && s.runs[id].hash == s.clients[r].request.hash && s.runs[id].verdict == Succeeded(response)
  {
    ExecuteKeeps(init, actions);
    assert ClientConsistent(s, r);
  }

  // ---------------------------------------------------------------- a recorded success keeps answering

  lemma NextGrows(s: State, a: Action)
    requires Inv(s)
    ensures RunsGrow(s, Next(s, a)) && Next(s, a).clock >= s.clock
  {
    if a.Advance? && a.r in s.clients {
      assert ClientConsistent(s, a.r);
    }
  }

  lemma {:induction false} ExecuteGrows(s: State, actions: seq<Action>)
    requires Inv(s)
    ensures Inv(Execute(s, actions)) && RunsGrow(s, Execute(s, actions)) && Execute(s, actions).clock >= s.clock
  {
    if actions == [] {
    } else {
      var before, a := Execute(s, actions[..|actions| - 1]), actions[|actions| - 1];
      ExecuteGrows(s, actions[..|actions| - 1]);
      NextKeeps(before, a);
      NextGrows(before, a);
    }
  }

  /** `id` is the record in `slot`, complete with this response. */
  ghost predicate Completed(s: State, slot: Slot, id: RecordId, response: Response) {
    && slot in s.table && s.table[slot].id == id && s.table[slot].response == Some(response)
    && id in s.runs && s.runs[id].slot == slot
  }

  lemma CompletedStays(s: State, a: Action, slot: Slot, id: RecordId, response: Response)
    requires Inv(s) && Completed(s, slot, id, response) && !Expired(Next(s, a), id)
    ensures Completed(Next(s, a), slot, id, response) && Next(s, a).table[slot] == s.table[slot]
    ensures Next(s, a).clock >= s.clock
  {
    assert RecordIsARun(s, slot);
    if a.Advance? && a.r in s.clients {
      assert ClientConsistent(s, a.r);
    }
  }

  lemma {:induction false} CompletedLasts(s: State, more: seq<Action>, slot: Slot, id: RecordId, response: Response)
    requires Inv(s) && Completed(s, slot, id, response) && !Expired(Execute(s, more), id)
    ensures Inv(Execute(s, more)) && Completed(Execute(s, more), slot, id, response)
  {
    if more == [] {
    } else {
      var before, a := Execute(s, more[..|more| - 1]), more[|more| - 1];
      ExecuteGrows(s, more[..|more| - 1]);
      NextGrows(before, a);
      CompletedLasts(s, more[..|more| - 1], slot, id, response);
      NextKeeps(before, a);
      CompletedStays(before, a, slot, id, response);
    }
  }

  /**
   * Once a response is recorded, and until its day is over, every retry that reaches the table is
   * answered with it, and the same key on a different request is refused.
   */
  lemma RetriesReplay(
    init: State, actions: seq<Action>, more: seq<Action>, slot: Slot, id: RecordId, response: Response, q: RequestId
  )
    requires Initial(init) && Completed(Execute(init, actions), slot, id, response)
    requires
      var s := Execute(Execute(init, actions), more);
      !Expired(s, id) && q in s.clients && s.clients[q].stage.Looking? && s.clients[q].request.slot == slot
    ensures
      var s := Execute(Execute(init, actions), more);
      Look(s, q, s.clients[q].stage.now, false, false).clients[q].stage ==
        if s.clients[q].request.hash == Execute(init, actions).runs[id].hash
        then Done(Replayed(response)) else Done(KeyReused)
  {
    ExecuteKeeps(init, actions);
    CompletedLasts(Execute(init, actions), more, slot, id, response);
    ExecuteGrows(Execute(init, actions), more);
    var s := Execute(Execute(init, actions), more);
    assert ClientConsistent(s, q) && RecordIsARun(s, slot);
  }

  // ---------------------------------------------------------------- what a failed run leaves

  /** No slot holds `id` with a response. */
  ghost predicate HoldsNoResponse(s: State, id: RecordId) {
    forall slot :: slot in s.table && s.table[slot].id == id ==> s.table[slot].response.None?
  }

  /** A failed run has nothing to replay, in that state and in every later one. */
  lemma FailedRunLeavesNothing(init: State, actions: seq<Action>, more: seq<Action>, id: RecordId)
    requires Initial(init)
    requires var s := Execute(init, actions); id in s.runs && s.runs[id].verdict == Failed
    ensures
      var s := Execute(Execute(init, actions), more);
      id in s.runs && s.runs[id].verdict == Failed && HoldsNoResponse(s, id)
  {
    ExecuteKeeps(init, actions);
    ExecuteGrows(Execute(init, actions), more);
    var s := Execute(Execute(init, actions), more);
    forall slot | slot in s.table && s.table[slot].id == id ensures s.table[slot].response.None? {
      assert RecordIsARun(s, slot);
    }
  }

  /** The run's record is in no slot. */
  ghost predicate Gone(s: State, id: RecordId) {
    id in s.runs && forall slot :: slot in s.table ==> s.table[slot].id != id
  }

  /** When its clearing lands a failed run's record is gone, and a record gone never returns. */
  lemma ClearingIsFinal(
    init: State, actions: seq<Action>, more: seq<Action>, r: RequestId, id: RecordId, outcome: Outcome, broken: bool
  )
    requires Initial(init)
    requires
      var s := Execute(init, actions);
      && r in s.clients && s.clients[r].stage.Recording? && s.clients[r].stage.id == id
      && s.clients[r].stage.outcome == outcome && Storable(s.clients[r].request.variant, outcome).None?
    ensures Gone(Execute(Settle(Execute(init, actions), r, id, outcome, false, broken), more), id)
  {
    ExecuteKeeps(init, actions);
    var s := Execute(init, actions);
    assert ClientConsistent(s, r);
    var now := s.clients[r].stage.now;
    SettleKeeps(s, r, now, id, outcome, false, broken);
    GoneLasts(Settle(s, r, id, outcome, false, broken), more, id);
  }

  /** A record in the table was there before, or is of a run just begun. */
  lemma RecordsComeFrom(s: State, a: Action, slot: Slot)
    requires slot in Next(s, a).table
    ensures (slot in s.table && Next(s, a).table[slot].id == s.table[slot].id) || Next(s, a).table[slot].id !in s.runs
  {
  }

  lemma GoneStays(s: State, a: Action, id: RecordId)
    requires Inv(s) && Gone(s, id)
    ensures Gone(Next(s, a), id)
  {
    NextGrows(s, a);
    var s' := Next(s, a);
    forall slot | slot in s'.table ensures s'.table[slot].id != id {
      RecordsComeFrom(s, a, slot);
    }
  }

  lemma {:induction false} GoneLasts(s: State, more: seq<Action>, id: RecordId)
    requires Inv(s) && Gone(s, id)
    ensures Gone(Execute(s, more), id)
  {
    if more == [] {
    } else {
      GoneLasts(s, more[..|more| - 1], id);
      ExecuteGrows(s, more[..|more| - 1]);
      GoneStays(Execute(s, more[..|more| - 1]), more[|more| - 1], id);
    }
  }

  // ---------------------------------------------------------------- what an interrupted run leaves

  /** `id` is the record in `slot`, incomplete, and the request that took it will do no more about it. */
  ghost predicate Orphaned(s: State, slot: Slot, id: RecordId) {
    && slot in s.table && s.table[slot].id == id && s.table[slot].response.None?
    && id in s.runs && s.runs[id].owner in s.clients && s.clients[s.runs[id].owner].stage.Done?
  }

  lemma OrphanStays(s: State, a: Action, slot: Slot, id: RecordId)
    requires Inv(s) && Orphaned(s, slot, id) && !Expired(Next(s, a), id)
    ensures Orphaned(Next(s, a), slot, id) && Next(s, a).table[slot] == s.table[slot]
  {
    assert RecordIsARun(s, slot);
    if a.Advance? && a.r in s.clients {
      OrphanOutlivesStep(s, a.r, a.input, slot, id);
    }
  }

  lemma OrphanOutlivesStep(s: State, r: RequestId, input: Input, slot: Slot, id: RecordId)
    requires Inv(s) && Orphaned(s, slot, id) && r in s.clients && !Expired(Step(s, r, input), id)
    ensures Orphaned(Step(s, r, input), slot, id) && Step(s, r, input).table[slot] == s.table[slot]
  {
    assert RecordIsARun(s, slot) && ClientConsistent(s, r);
  }

  lemma {:induction false} OrphanLasts(s: State, more: seq<Action>, slot: Slot, id: RecordId)
    requires Inv(s) && Orphaned(s, slot, id) && !Expired(Execute(s, more), id)
    ensures Orphaned(Execute(s, more), slot, id)
  {
    if more == [] {
    } else {
      var before, a := Execute(s, more[..|more| - 1]), more[|more| - 1];
      ExecuteGrows(s, more[..|more| - 1]);
      NextGrows(before, a);
      OrphanLasts(s, more[..|more| - 1], slot, id);
      OrphanStays(before, a, slot, id);
    }
  }

  /**
   * A record left incomplete by a request that vanished, or whose answer could not be written down,
   * answers every retry with a conflict until its day is over: the handler is neither replayed nor run.
   */
  lemma OrphansBlock(init: State, actions: seq<Action>, more: seq<Action>, slot: Slot, id: RecordId, q: RequestId)
    requires Initial(init) && Orphaned(Execute(init, actions), slot, id)
    requires
      var s := Execute(Execute(init, actions), more);
      !Expired(s, id) && q in s.clients && s.clients[q].stage.Looking? && s.clients[q].request.slot == slot
    ensures
      var s := Execute(Execute(init, actions), more);
      forall broken ::
        Look(s, q, s.clients[q].stage.now, false, broken).clients[q].stage ==
        if s.clients[q].request.hash == Execute(init, actions).table[slot].hash
        then Done(KeyConflict) else Done(KeyReused)
  {
    ExecuteKeeps(init, actions);
    assert RecordIsARun(Execute(init, actions), slot);
    ExecuteGrows(Execute(init, actions), more);
    OrphanLasts(Execute(init, actions), more, slot, id);
    var s := Execute(Execute(init, actions), more);
    assert ClientConsistent(s, q) && RecordIsARun(s, slot);
  }

  /** An answer that cannot be written down after a run that took effect leaves its key in just that state. */
  lemma UnwrittenAnswerOrphans(s: State, r: RequestId, id: RecordId, outcome: Outcome, fault: bool)
    requires Inv(s) && r in s.clients && s.clients[r].stage.Recording? && s.clients[r].stage.id == id
    requires s.clients[r].stage.outcome == outcome
    requires Unwritable(s.clients[r].request.variant, outcome, true)
    requires Stored(s, id) && s.table[s.runs[id].slot].response.None?
    ensures
      var s' := Settle(s, r, id, outcome, fault, true);
      && s'.clients[r].stage == Done(InternalError) && s'.runs[id].verdict.Succeeded?
      && Orphaned(s', s.runs[id].slot, id)
  {
    assert ClientConsistent(s, r);
  }

  /** The request that took it is still running its handler, or recording what came of it. */
  ghost predicate InFlight(s: State, id: RecordId)
    requires id in s.runs
  {
    && s.runs[id].owner in s.clients
    && var stage := s.clients[s.runs[id].owner].stage;
       (stage.Running? || stage.Recording?) && stage.id == id
  }

  /** A run is in flight, or the request that began it is over. */
  ghost predicate OwnerKnown(s: State, id: RecordId)
    requires id in s.runs
  {
    s.runs[id].owner in s.clients && (s.clients[s.runs[id].owner].stage.Done? || InFlight(s, id))
  }

  /** Nothing is recorded for a run still in flight. */
  ghost predicate NothingYet(s: State, id: RecordId)
    requires id in s.runs
  {
    InFlight(s, id) ==> HoldsNoResponse(s, id)
  }

  ghost predicate OwnersKnown(s: State) {
    forall id :: id in s.runs ==> OwnerKnown(s, id) && NothingYet(s, id)
  }

  lemma StepKnowsOwner(s: State, r: RequestId, input: Input, id: RecordId)
    requires r in s.clients && ClientConsistent(s, r) && id in Step(s, r, input).runs
    requires id in s.runs ==> OwnerKnown(s, id)
    ensures OwnerKnown(Step(s, r, input), id)
  {
  }

  /** A response in the table was there before, or is what this request just recorded for its own run. */
  lemma ResponsesComeFrom(s: State, r: RequestId, input: Input, slot: Slot)
    requires r in s.clients && slot in Step(s, r, input).table
    requires Step(s, r, input).table[slot].response.Some?
    ensures
      var id := Step(s, r, input).table[slot].id;
      || (slot in s.table && s.table[slot].id == id && s.table[slot].response.Some?)
      || (s.clients[r].stage.Recording? && s.clients[r].stage.id == id && Step(s, r, input).clients[r].stage.Done?)
  {
  }

  lemma InFlightBefore(s: State, r: RequestId, input: Input, id: RecordId)
    requires r in s.clients && ClientConsistent(s, r) && id in Step(s, r, input).runs
    requires InFlight(Step(s, r, input), id)
    ensures if id in s.runs then InFlight(s, id) else Step(s, r, input).clients[r].stage.Running?
    ensures s.clients[r].stage.Recording? ==> s.clients[r].stage.id != id
  {
  }

  lemma StepRecordsNothingYet(s: State, r: RequestId, input: Input, id: RecordId)
    requires Inv(s) && OwnersKnown(s) && r in s.clients && id in Step(s, r, input).runs
    ensures NothingYet(Step(s, r, input), id)
  {
    var s' := Step(s, r, input);
    assert ClientConsistent(s, r);
    if InFlight(s', id) {
      InFlightBefore(s, r, input, id);
      forall slot | slot in s'.table && s'.table[slot].id == id ensures s'.table[slot].response.None? {
        if s'.table[slot].response.Some? {
          ResponsesComeFrom(s, r, input, slot);
          assert RecordIsARun(s, slot);
          assert NothingYet(s, id);
        }
      }
    }
  }

  lemma NextKnowsOwners(s: State, a: Action)
    requires Inv(s) && OwnersKnown(s)
    ensures OwnersKnown(Next(s, a))
  {
    forall id | id in Next(s, a).runs ensures OwnerKnown(Next(s, a), id) && NothingYet(Next(s, a), id) {
      if a.Advance? && a.r in s.clients {
        assert ClientConsistent(s, a.r);
        StepKnowsOwner(s, a.r, a.input, id);
        StepRecordsNothingYet(s, a.r, a.input, id);
      } else {
        assert OwnerKnown(s, id) && NothingYet(s, id);
      }
    }
  }

  lemma {:induction false} OwnersAreKnown(init: State, actions: seq<Action>, s: State)
    requires Initial(init) && s == Execute(init, actions)
    ensures OwnersKnown(s)
  {
    if actions == [] {
    } else {
      var before := Execute(init, actions[..|actions| - 1]);
      ExecuteKeeps(init, actions[..|actions| - 1]);
      OwnersAreKnown(init, actions[..|actions| - 1], before);
      NextKnowsOwners(before, actions[|actions| - 1]);
    }
  }

  /**
   * What a conflict means. Before its key's day is over a retry meets one exactly when the key's record has no
   * response; and that is exactly when the run is still in flight, as the error says, or was left behind.
   */
  lemma ConflictExactly(init: State, actions: seq<Action>, s: State, q: RequestId, broken: bool)
    requires Initial(init) && s == Execute(init, actions) && q in s.clients && s.clients[q].stage.Looking?
    requires
      var Client(request, stage) := s.clients[q];
      && request.slot in s.table && s.table[request.slot].hash == request.hash
      && s.table[request.slot].expiresAt >= stage.now
    ensures
      var Client(request, stage) := s.clients[q];
      var record := s.table[request.slot];
      && (Look(s, q, stage.now, false, broken).clients[q].stage == Done(KeyConflict) <==> record.response.None?)
      && record.id in s.runs
      && (record.response.None? <==> InFlight(s, record.id) || Orphaned(s, request.slot, record.id))
  {
    ExecuteKeeps(init, actions);
    OwnersAreKnown(init, actions, s);
    var slot := s.clients[q].request.slot;
    assert RecordIsARun(s, slot);
    assert OwnerKnown(s, s.table[slot].id) && NothingYet(s, s.table[slot].id);
  }

  // ---------------------------------------------------------------- a run that leaves an orphan

  const ABANDONED := Request(Middleware, Slot(1, "key"), [])

  /** The request's next step, with nothing failing. */
  const GO := Advance(0, Input(false, false, 7, Outcome(Response(STATUS_OK, ""), false)))

  /** One request looks, takes its key's record, begins its handler, and vanishes. */
  lemma AbandonedRun(init: State)
    requires init == State(0, map[], map[0 := Client(ABANDONED, Arrived)], map[])
    ensures Initial(init) && Orphaned(Execute(init, [GO, GO, GO, Vanish(0)]), ABANDONED.slot, 7)
  {
    var s1 := Next(init, GO);
    assert s1.clients[0].stage == Looking(0);
    var s2 := Next(s1, GO);
    assert s2.clients[0].stage == Inserting(0);
    var s3 := Next(s2, GO);
    assert s3.clients[0].stage == Running(0, 7);
    FourActions(init, GO, Vanish(0));
  }

  lemma FourActions(s: State, a: Action, b: Action)
    ensures Execute(s, [a, a, a, b]) == Next(Next(Next(Next(s, a), a), a), b)
  {
    assert [a, a, a, b][..3] == [a, a, a] && [a, a, a][..2] == [a, a] && [a, a][..1] == [a] && [a][..0] == [];
    assert Execute(s, [a]) == Next(s, a);
    assert Execute(s, [a, a]) == Next(Next(s, a), a);
    assert Execute(s, [a, a, a]) == Next(Next(Next(s, a), a), a);
  }
}
