/** The two code paths as they are written, statement by statement, each one uninterrupted walk of the protocol. */
module IdempotencyStore {
  import opened Core
  import opened Idempotency
  import Encoding

  /** What fails: which of the store calls, reading a stored answer, minting an id, writing an answer. */
  datatype Faults = Faults(get: bool, clear: bool, create: bool, settle: bool, read: bool, mint: bool, write: bool)

  /** The slot taken, the handler run, its outcome settled. */
  function Taken(
    table: Table, request: Request, now: Micros, id: RecordId, outcome: Outcome, faults: Faults
  ): (Table, Reply) {
    if faults.mint then (table, InternalError)
    else if faults.create || request.slot in table then (table, KeyConflict)
    else
      var t := table[request.slot := Record(id, request.hash, now + TTL, None)];
      if Unwritable(request.variant, outcome, faults.write) then (t, InternalError)
      else (if faults.settle then t else Settled(t, request.variant, id, outcome), Answered(outcome))
  }

  /** What finding, or not finding, a record in the slot comes to. */
  function Found(table: Table, request: Request, now: Micros, faults: Faults): Stage {
    var found := if request.slot in table then Some(table[request.slot]) else None;
    if faults.get then Done(InternalError) else Read(request, Judge(request, now, found), faults.read)
  }

  /** What one uninterrupted request does to the table, and what it is told. */
  function Served(
    table: Table, request: Request, now: Micros, id: RecordId, outcome: Outcome, faults: Faults
  ): (Table, Reply) {
    if Begin(request, now).Done? then (table, KeyRequired)
    else
      match Found(table, request, now, faults)
      case Done(reply) => (table, reply)
      case Clearing(_, expired) =>
        if faults.clear then (table, InternalError)
        else Taken(DeleteById(table, expired), request, now, id, outcome, faults)
      case _ => Taken(table, request, now, id, outcome, faults)
  }

  class Store {
    var table: Table

    constructor ()
      ensures table == map[]
    {
      table := map[];
    }

    method Delete(id: RecordId, fault: bool) returns (ok: bool)
      modifies this
      ensures ok == !fault && table == if fault then old(table) else DeleteById(old(table), id)
    {
      if !fault {
        table := DeleteById(table, id);
      }
      return !fault;
    }

    /** Refused by the unique index when the slot is taken. */
    method Create(slot: Slot, record: Record, fault: bool) returns (ok: bool)
      modifies this
      ensures ok == (!fault && slot !in old(table))
      ensures table == if ok then old(table)[slot := record] else old(table)
    {
      ok := !fault && slot !in table;
      if ok {
        table := table[slot := record];
      }
    }

    method Complete(id: RecordId, response: Response, fault: bool)
      modifies this
      ensures table == if fault then old(table) else CompleteById(old(table), id, response)
    {
      if !fault {
        table := CompleteById(table, id, response);
      }
    }

    /** The middleware: the record is taken before the handler runs, and settled by the status it answered with. */
    method ReplayOrRun(
      slot: Slot, hash: Hash, now: Micros, id: RecordId, outcome: Outcome, faults: Faults
    ) returns (reply: Reply)
      modifies this
      ensures (table, reply) == Served(old(table), Request(Middleware, slot, hash), now, id, outcome, faults)
    {
      if faults.get {
        return InternalError;
      }
      if slot in table {
        var existing := table[slot];
        if existing.expiresAt < now {
          var cleared := Delete(existing.id, faults.clear);
          if !cleared {
            return InternalError;
          }
        } else if existing.hash != hash {
          return KeyReused;
        } else if existing.response.None? {
          return KeyConflict;
        } else {
          return Replayed(existing.response.value);
        }
      }
      if faults.mint {
        return InternalError;
      }
      var created := Create(slot, Record(id, hash, now + TTL, None), faults.create);
      if !created {
        return KeyConflict;
      }
      if outcome.response.status >= STATUS_INTERNAL_SERVER_ERROR {
        var _ := Delete(id, faults.settle);
      } else {
        Complete(id, outcome.response, faults.settle);
      }
      return Answered(outcome);
    }

    /** A handler that owns its replay: settled by whether it returned an error, and always stored as a success. */
    method RunIdempotentHandler(
      slot: Slot, hash: Hash, now: Micros, id: RecordId, outcome: Outcome, faults: Faults
    ) returns (reply: Reply)
      modifies this
      ensures (table, reply) == Served(old(table), Request(OwnReplay, slot, hash), now, id, outcome, faults)
    {
      if slot.key == "" {
        return KeyRequired;
      }
      if faults.get {
        return InternalError;
      }
      if slot in table {
        var existing := table[slot];
        if existing.expiresAt < now {
          var cleared := Delete(existing.id, faults.clear);
          if !cleared {
            return InternalError;
          }
        } else {
          var same := Encoding.EqualHash(existing.hash, hash);
          if !same {
            return KeyReused;
          }
          if existing.response.None? {
            return KeyConflict;
          }
          if faults.read {
            return InternalError;
          }
          return Replayed(existing.response.value);
        }
      }
      if faults.mint {
        return InternalError;
      }
      var created := Create(slot, Record(id, hash, now + TTL, None), faults.create);
      if !created {
        return KeyConflict;
      }
      if outcome.erred {
        var _ := Delete(id, faults.settle);
        return Answered(outcome);
      }
      if faults.write {
        return InternalError;
      }
      Complete(id, Response(STATUS_OK, outcome.response.body), faults.settle);
      return Answered(outcome);
    }
  }

  // ---------------------------------------------------------------- one request on its own

  /** What the protocol's steps feed this request, stage by stage. */
  function InputFor(stage: Stage, id: RecordId, outcome: Outcome, faults: Faults): Input {
    match stage
    case Looking(_) => Input(faults.get, faults.read, id, outcome)
    case Clearing(_, _) => Input(faults.clear, false, id, outcome)
    case Inserting(_) => Input(faults.create, faults.mint, id, outcome)
    case Recording(_, _, _) => Input(faults.settle, faults.write, id, outcome)
    case _ => Input(false, false, id, outcome)
  }

  /** This request's next step, whatever its stage. */
  function Turn(s: State, r: RequestId, id: RecordId, outcome: Outcome, faults: Faults): (s': State)
    requires r in s.clients
    ensures r in s'.clients
  {
    Next(s, Advance(r, InputFor(s.clients[r].stage, id, outcome, faults)))
  }

  /** `n` steps of the protocol, all of them this request's. */
  function Drive(s: State, r: RequestId, id: RecordId, outcome: Outcome, faults: Faults, n: nat): (s': State)
    requires r in s.clients
    ensures r in s'.clients
    decreases n
  {
    if n == 0 then s else Drive(Turn(s, r, id, outcome, faults), r, id, outcome, faults, n - 1)
  }

  /** From arriving to answered is at most this many steps. */
  const STEPS: nat := 6

  /** The table and the reply when nothing else moves: the protocol driven from arrival to the end. */
  function Alone(
    table: Table, request: Request, now: Micros, id: RecordId, outcome: Outcome, faults: Faults
  ): (Table, Reply) {
    var s := Drive(Lone(table, request, now, Arrived), 0, id, outcome, faults, STEPS);
    (s.table, if s.clients[0].stage.Done? then s.clients[0].stage.reply else Lost)
  }

  lemma {:induction false} DoneStays(s: State, id: RecordId, outcome: Outcome, faults: Faults, n: nat)
    requires 0 in s.clients && s.clients[0].stage.Done?
    ensures Drive(s, 0, id, outcome, faults, n) == s
  {
    if n == 0 {
    } else {
      assert Turn(s, 0, id, outcome, faults) == s;
      DoneStays(s, id, outcome, faults, n - 1);
    }
  }

  /** The three steps from the insert on, and any more after them. */
  lemma DriveTakes(s: State, request: Request, now: Micros, id: RecordId, outcome: Outcome, faults: Faults, n: nat)
    requires s.clients == map[0 := Client(request, Inserting(now))] && s.runs == map[] && n >= 3
    ensures
      var end := Drive(s, 0, id, outcome, faults, n);
      end.clients[0].stage.Done?
        && (end.table, end.clients[0].stage.reply) == Taken(s.table, request, now, id, outcome, faults)
  {
    var s1 := Turn(s, 0, id, outcome, faults);
    if s1.clients[0].stage.Done? {
      DoneStays(s1, id, outcome, faults, n - 1);
    } else {
      DriveSettles(s1, request, now, id, outcome, faults, n - 1);
    }
  }

  lemma DriveSettles(
    s: State, request: Request, now: Micros, id: RecordId, outcome: Outcome, faults: Faults, n: nat
  )
    requires s.clients == map[0 := Client(request, Running(now, id))] && id in s.runs && n >= 2
    ensures
      var end := Drive(s, 0, id, outcome, faults, n);
      && end.clients[0].stage.Done?
      && (end.table, end.clients[0].stage.reply)
         == if Unwritable(request.variant, outcome, faults.write) then (s.table, InternalError)
            else (if faults.settle then s.table else Settled(s.table, request.variant, id, outcome), Answered(outcome))
  {
    var s1 := Turn(s, 0, id, outcome, faults);
    assert s1.clients[0] == Client(request, Recording(now, id, outcome)) && s1.table == s.table;
    var s2 := Turn(s1, 0, id, outcome, faults);
    DoneStays(s2, id, outcome, faults, n - 2);
  }

  /** One request, at `stage`, with nobody else about. */
  function Lone(table: Table, request: Request, now: Micros, stage: Stage): State {
    State(now, table, map[0 := Client(request, stage)], map[])
  }

  /** The step that finds what is in the slot. */
  lemma DriveLooks(
    table: Table, request: Request, now: Micros, id: RecordId, outcome: Outcome, faults: Faults, n: nat
  )
    requires n >= 1
    ensures Drive(Lone(table, request, now, Looking(now)), 0, id, outcome, faults, n)
            == Drive(Lone(table, request, now, Found(table, request, now, faults)), 0, id, outcome, faults, n - 1)
  {
    assert Turn(Lone(table, request, now, Looking(now)), 0, id, outcome, faults)
           == Lone(table, request, now, Found(table, request, now, faults));
  }

  lemma DriveClears(
    table: Table, request: Request, now: Micros, id: RecordId, outcome: Outcome, faults: Faults, expired: RecordId,
    n: nat
  )
    requires n >= 4
    ensures
      var end := Drive(Lone(table, request, now, Clearing(now, expired)), 0, id, outcome, faults, n);
      && end.clients[0].stage.Done?
      && (end.table, end.clients[0].stage.reply)
         == if faults.clear then (table, InternalError)
            else Taken(DeleteById(table, expired), request, now, id, outcome, faults)
  {
    var cleared := Turn(Lone(table, request, now, Clearing(now, expired)), 0, id, outcome, faults);
    if faults.clear {
      DoneStays(cleared, id, outcome, faults, n - 1);
    } else {
      assert cleared == Lone(DeleteById(table, expired), request, now, Inserting(now));
      DriveTakes(cleared, request, now, id, outcome, faults, n - 1);
    }
  }

  /** The statement-by-statement code is the protocol with nobody else stepping. */
  lemma ServedIsTheProtocolAlone(
    table: Table, request: Request, now: Micros, id: RecordId, outcome: Outcome, faults: Faults
  )
    ensures Served(table, request, now, id, outcome, faults) == Alone(table, request, now, id, outcome, faults)
  {
    var begun := Lone(table, request, now, Begin(request, now));
    assert Turn(Lone(table, request, now, Arrived), 0, id, outcome, faults) == begun;
    if begun.clients[0].stage.Done? {
      DoneStays(begun, id, outcome, faults, STEPS - 1);
    } else {
      DriveLooks(table, request, now, id, outcome, faults, STEPS - 1);
      var stage := Found(table, request, now, faults);
      match stage
      case Done(_) => DoneStays(Lone(table, request, now, stage), id, outcome, faults, STEPS - 2);
      case Inserting(_) => DriveTakes(Lone(table, request, now, stage), request, now, id, outcome, faults, STEPS - 2);
      case Clearing(_, expired) => DriveClears(table, request, now, id, outcome, faults, expired, STEPS - 2);
    }
  }
}
