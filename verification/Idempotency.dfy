/**
 * The idempotency protocol: requests, a clock and a sweep interleaving over one table. Each step is
 * one statement of tod-serve's code against the store; any store call may fail and any request may vanish.
 */
module Idempotency {
  import opened Core
  import Encoding

  type RecordId = nat
  type RequestId = nat
  type Hash = Encoding.Bytes

  /** How long a stored response may be replayed. */
  const TTL: Micros := 24 * 60 * 60 * MICROS_PER_SECOND

  const STATUS_OK: int := 200
  const STATUS_INTERNAL_SERVER_ERROR: int := 500

  /** The shared middleware, or a handler that owns its replay. */
  datatype Variant = Middleware | OwnReplay

  /** The unique index: one record per membership and key. */
  datatype Slot = Slot(principal: nat, key: string)

  datatype Request = Request(variant: Variant, slot: Slot, hash: Hash)

  datatype Response = Response(status: int, body: string)

  /** What a handler did: the response it wrote, and whether it returned an error. */
  datatype Outcome = Outcome(response: Response, erred: bool)

  /** A record is complete exactly when it holds a response. */
  datatype Record = Record(id: RecordId, hash: Hash, expiresAt: Micros, response: Option<Response>)

  type Table = map<Slot, Record>

  datatype Reply =
    | KeyRequired
    | Replayed(response: Response)
    | KeyReused
    | KeyConflict
    | InternalError
    | Answered(outcome: Outcome)
    | Lost

  /** Where a request stands; `now` is the clock as it read it when it began. */
  datatype Stage =
    | Arrived
    | Looking(now: Micros)
    | Clearing(now: Micros, expired: RecordId)
    | Inserting(now: Micros)
    | Running(now: Micros, id: RecordId)
    | Recording(now: Micros, id: RecordId, outcome: Outcome)
    | Done(reply: Reply)

  datatype Client = Client(request: Request, stage: Stage)

  /** What became of one run of a handler; kept for the statement of properties only. */
  datatype Verdict = Pending | Succeeded(response: Response) | Failed

  datatype Run = Run(owner: RequestId, slot: Slot, hash: Hash, expiresAt: Micros, verdict: Verdict)

  datatype State = State(clock: Micros, table: Table, clients: map<RequestId, Client>, runs: map<RecordId, Run>)

  /**
   * What a step cannot choose: whether the store fails; whether the minting of an id, the reading of a
   * stored answer or the writing of a new one does; the id minted; what the handler does.
   */
  datatype Input = Input(fault: bool, broken: bool, id: RecordId, outcome: Outcome)

  datatype Action =
    | Tick(clock: Micros)
    | Sweep(before: Micros)
    | Advance(r: RequestId, input: Input)
    | Vanish(r: RequestId)

  // ---------------------------------------------------------------- the store

  function DeleteById(t: Table, id: RecordId): Table {
    map slot | slot in t && t[slot].id != id :: t[slot]
  }

  function CompleteById(t: Table, id: RecordId, response: Response): Table {
    map slot | slot in t ::
      if t[slot].id == id && t[slot].response.None? then t[slot].(response := Some(response)) else t[slot]
  }

  function DeleteExpired(t: Table, before: Micros): Table {
    map slot | slot in t && !(t[slot].expiresAt < before) :: t[slot]
  }

  // ---------------------------------------------------------------- one request

  /** The answer to finding `found` in the slot. */
  function Judge(request: Request, now: Micros, found: Option<Record>): Stage {
    if found.None? then Inserting(now)
    else if found.value.expiresAt < now then Clearing(now, found.value.id)
    else if found.value.hash != request.hash then Done(KeyReused)
    else if found.value.response.None? then Done(KeyConflict)
    else Done(Replayed(found.value.response.value))
  }

  /** What is stored for a retry: a 5xx never is, and a handler that owns its replay stores no error at all. */
  function Storable(variant: Variant, outcome: Outcome): Option<Response> {
    match variant
    case Middleware =>
      if outcome.response.status >= STATUS_INTERNAL_SERVER_ERROR then None else Some(outcome.response)
    case OwnReplay =>
      if outcome.erred then None else Some(Response(STATUS_OK, outcome.response.body))
  }

  function Move(s: State, r: RequestId, stage: Stage): State
    requires r in s.clients
  {
    s.(clients := s.clients[r := s.clients[r].(stage := stage)])
  }

  /** A handler that owns its replay checks its key once more, before anything else. */
  function Begin(request: Request, now: Micros): Stage {
    if request.variant.OwnReplay? && request.slot.key == "" then Done(KeyRequired) else Looking(now)
  }

  /** A handler that owns its replay parses what it replays, which can fail; the middleware sends it as stored. */
  function Read(request: Request, stage: Stage, broken: bool): Stage {
    if broken && request.variant.OwnReplay? && stage.Done? && stage.reply.Replayed? then Done(InternalError) else stage
  }

  function Look(s: State, r: RequestId, now: Micros, fault: bool, broken: bool): State
    requires r in s.clients
  {
    var request := s.clients[r].request;
    var found := if request.slot in s.table then Some(s.table[request.slot]) else None;
    Move(s, r, if fault then Done(InternalError) else Read(request, Judge(request, now, found), broken))
  }

  function Clear(s: State, r: RequestId, now: Micros, expired: RecordId, fault: bool): State
    requires r in s.clients
  {
    if fault then Move(s, r, Done(InternalError))
    else Move(s, r, Inserting(now)).(table := DeleteById(s.table, expired))
  }

  /** The insert fails on the unique index when the slot is taken; either failure of it is a conflict. */
  function Insert(s: State, r: RequestId, now: Micros, id: RecordId, fault: bool, broken: bool): State
    requires r in s.clients
  {
    var request := s.clients[r].request;
    if broken then Move(s, r, Done(InternalError))
    else if fault || request.slot in s.table then Move(s, r, Done(KeyConflict))
    else
      Move(s, r, Running(now, id)).(
        table := s.table[request.slot := Record(id, request.hash, now + TTL, None)],
        runs := s.runs[id := Run(r, request.slot, request.hash, now + TTL, Pending)])
  }

  function VerdictOf(variant: Variant, outcome: Outcome): Verdict {
    match Storable(variant, outcome)
    case None => Failed
    case Some(response) => Succeeded(response)
  }

  function Finish(s: State, r: RequestId, now: Micros, id: RecordId, outcome: Outcome): State
    requires r in s.clients && id in s.runs
  {
    var verdict := VerdictOf(s.clients[r].request.variant, outcome);
    Move(s, r, Recording(now, id, outcome)).(runs := s.runs[id := s.runs[id].(verdict := verdict)])
  }

  /** Can the answer of a handler that owns its replay not be written down? */
  predicate Unwritable(variant: Variant, outcome: Outcome, broken: bool) {
    broken && variant.OwnReplay? && !outcome.erred
  }

  /**
   * A failed store call here is logged and otherwise ignored: the client already has its answer. An
   * answer that cannot be written down is an error to the client, and leaves the record as it is.
   */
  function Settle(s: State, r: RequestId, id: RecordId, outcome: Outcome, fault: bool, broken: bool): State
    requires r in s.clients
  {
    var variant := s.clients[r].request.variant;
    if Unwritable(variant, outcome, broken) then Move(s, r, Done(InternalError))
    else
      Move(s, r, Done(Answered(outcome))).(table := if fault then s.table else Settled(s.table, variant, id, outcome))
  }

  /** The record settled by what the handler did. */
  function Settled(t: Table, variant: Variant, id: RecordId, outcome: Outcome): Table {
    match Storable(variant, outcome)
    case None => DeleteById(t, id)
    case Some(response) => CompleteById(t, id, response)
  }

  /** A request takes its next step. */
  function Step(s: State, r: RequestId, input: Input): State
    requires r in s.clients
  {
    match s.clients[r].stage
    case Arrived => Move(s, r, Begin(s.clients[r].request, s.clock))
    case Looking(now) => Look(s, r, now, input.fault, input.broken)
    case Clearing(now, expired) => Clear(s, r, now, expired, input.fault)
    case Inserting(now) => if input.id in s.runs then s else Insert(s, r, now, input.id, input.fault, input.broken)
    case Running(now, id) => if id in s.runs then Finish(s, r, now, id, input.outcome) else s
    case Recording(_, id, outcome) => Settle(s, r, id, outcome, input.fault, input.broken)
    case Done(_) => s
  }

  /** The effect of one action; an action that is not enabled does nothing. */
  function Next(s: State, a: Action): State {
    match a
    case Tick(clock) => if clock >= s.clock then s.(clock := clock) else s
    case Sweep(before) => if before <= s.clock then s.(table := DeleteExpired(s.table, before)) else s
    case Advance(r, input) => if r in s.clients then Step(s, r, input) else s
    case Vanish(r) => if r in s.clients && !s.clients[r].stage.Done? then Move(s, r, Done(Lost)) else s
  }

  function Execute(s: State, actions: seq<Action>): State {
    if actions == [] then s else Next(Execute(s, actions[..|actions| - 1]), actions[|actions| - 1])
  }

  /** Any number of requests, none begun, and an empty table. */
  predicate Initial(s: State) {
    s.table == map[] && s.runs == map[] && forall r :: r in s.clients ==> s.clients[r].stage == Arrived
  }
}
