/** The idempotency record, its store, and Process as one sequential call. */
module Idempotency {
  import opened AppErrors

  type Bytes = seq<bv8>

  /** A handler's result, of which only its identity matters here. */
  datatype Value = Value(repr: string)

  datatype Status = Processing | Succeeded | Failed

  /** A stored record; times are instants in nanoseconds. */
  datatype Row = Row(
    requestHash: string, status: Status, response: Option<Bytes>, error: string,
    createdAt: int, updatedAt: int, expiresAt: int)

  /** Hashing and JSON coding, kept abstract, and the lifetime of a record. */
  datatype Config = Config(
    hash: Bytes -> string, marshal: Value -> Result<Bytes>, unmarshal: Bytes -> Result<Value>, ttl: int)

  type Rows = map<string, Row>

  function FreshRow(cfg: Config, body: Bytes, now: int): Row {
    Row(cfg.hash(body), Processing, None, "", now, now, now + cfg.ttl)
  }

  function CompletedRow(row: Row, response: Bytes, now: int): Row {
    row.(status := Succeeded, response := Some(response), error := "", updatedAt := now)
  }

  function FailedRow(row: Row, err: Error, now: int): Row {
    row.(status := Failed, response := None, error := err.Text(), updatedAt := now)
  }

  class IdempotencyRecord {
    var key: string
    var requestHash: string
    var status: Status
    var response: Option<Bytes>
    var error: string
    var createdAt: int
    var updatedAt: int
    var expiresAt: int

    function Data(): Row
      reads this
    {
      Row(requestHash, status, response, error, createdAt, updatedAt, expiresAt)
    }

    constructor (key: string, row: Row)
      ensures this.key == key && Data() == row
    {
      this.key := key;
      requestHash, status, response, error := row.requestHash, row.status, row.response, row.error;
      createdAt, updatedAt, expiresAt := row.createdAt, row.updatedAt, row.expiresAt;
    }

    method Complete(response: Bytes, now: int)
      modifies this
      ensures Data() == CompletedRow(old(Data()), response, now) && key == old(key)
      ensures status == Succeeded && this.response == Some(response) && error == "" && updatedAt == now
      ensures requestHash == old(requestHash) && createdAt == old(createdAt) && expiresAt == old(expiresAt)
    {
      status := Succeeded;
      this.response := Some(response);
      error := "";
      updatedAt := now;
    }

    method Fail(err: Error, now: int)
      modifies this
      ensures Data() == FailedRow(old(Data()), err, now) && key == old(key)
      ensures status == Failed && response == None && error == err.Text() && updatedAt == now
      ensures requestHash == old(requestHash) && createdAt == old(createdAt) && expiresAt == old(expiresAt)
    {
      status := Failed;
      response := None;
      error := err.Text();
      updatedAt := now;
    }
  }

  method NewIdempotencyRecord(cfg: Config, key: string, body: Bytes, now: int) returns (r: Result<IdempotencyRecord>)
    ensures key == "" ==> r == Err(Plain("idempotency key is required"))
    ensures key != "" && body == [] ==> r == Err(Plain("request body is required"))
    ensures key != "" && body != [] ==>
      && r.Ok? && fresh(r.value) && r.value.key == key && r.value.Data() == FreshRow(cfg, body, now)
      && r.value.requestHash == cfg.hash(body) && r.value.status == Processing && r.value.response == None
      && r.value.error == "" && r.value.createdAt == r.value.updatedAt == now && r.value.expiresAt == now + cfg.ttl
  {
    if key == "" {
      return Err(Plain("idempotency key is required"));
    }
    if |body| == 0 {
      return Err(Plain("request body is required"));
    }
    var record := new IdempotencyRecord(key, Row(cfg.hash(body), Processing, None, "", now, now, now + cfg.ttl));
    r := Ok(record);
  }

  // INSERT ... ON CONFLICT DO UPDATE: an existing row keeps its response, error and creation time.
  function Upsert(rows: Rows, key: string, row: Row): Rows {
    rows[key := if key in rows
                then rows[key].(requestHash := row.requestHash, status := row.status,
                                updatedAt := row.updatedAt, expiresAt := row.expiresAt)
                else row]
  }

  // UPDATE ... WHERE key: the hash, creation time and expiry are not written.
  function UpdateRow(rows: Rows, key: string, row: Row): Rows {
    if key in rows
    then rows[key := rows[key].(status := row.status, response := row.response, error := row.error,
                                updatedAt := row.updatedAt)]
    else rows
  }

  function StoreError(operation: string, write: Write): Option<Error> {
    if write.Done? then None else Some(Wrapped(DatabaseError, operation, write.cause))
  }

  class IdempotencyStore {
    var rows: Rows

    constructor ()
      ensures rows == map[]
    {
      rows := map[];
    }

    method Get(key: string, fault: Option<Error>) returns (r: Result<Row>)
      ensures fault.Some? ==> r == Err(Wrapped(DatabaseError, "get idempotency record", fault.value))
      ensures fault.None? && key in rows ==> r == Ok(rows[key])
      ensures fault.None? && key !in rows ==> r.Err? && r.error.IsCode(IdempotencyNotFound)
    {
      if fault.Some? {
        return Err(Wrapped(DatabaseError, "get idempotency record", fault.value));
      }
      if key !in rows {
        return Err(App(IdempotencyNotFound, "idempotency key not found"));
      }
      r := Ok(rows[key]);
    }

    method Create(record: IdempotencyRecord, write: Write) returns (err: Option<Error>)
      modifies this
      ensures rows == if write.Applied() then Upsert(old(rows), record.key, record.Data()) else old(rows)
      ensures write.Applied() && record.key !in old(rows) ==> rows == old(rows)[record.key := record.Data()]
      ensures write.Applied() && record.key in old(rows) ==>
        var was := old(rows[record.key]);
        rows == old(rows)[record.key := Row(record.requestHash, record.status, was.response, was.error,
                                            was.createdAt, record.updatedAt, record.expiresAt)]
      ensures err == StoreError("create idempotency record", write)
    {
      if write.Applied() {
        rows := Upsert(rows, record.key, record.Data());
      }
      err := StoreError("create idempotency record", write);
    }

    method Update(record: IdempotencyRecord, write: Write) returns (err: Option<Error>)
      modifies this
      ensures rows == if write.Applied() then UpdateRow(old(rows), record.key, record.Data()) else old(rows)
      ensures record.key !in old(rows) ==> rows == old(rows)
      ensures write.Applied() && record.key in old(rows) ==>
        var was := old(rows[record.key]);
        rows == old(rows)[record.key := Row(was.requestHash, record.status, record.response, record.error,
                                            was.createdAt, record.updatedAt, was.expiresAt)]
      ensures err == StoreError("update idempotency record", write)
    {
      if write.Applied() {
        rows := UpdateRow(rows, record.key, record.Data());
      }
      err := StoreError("update idempotency record", write);
    }
  }

  datatype Verdict = Free | Conflicting | InProgress

  function CheckConflict(row: Row, hash: string): Verdict {
    if row.requestHash != hash then Conflicting else if row.status == Processing then InProgress else Free
  }

  // What a call on an existing record is told.
  function Replay(cfg: Config, row: Row, body: Bytes, now: int): Result<Value> {
    if now > row.expiresAt then Err(App(IdempotencyNotFound, "idempotency key expired")) else
    match CheckConflict(row, cfg.hash(body))
    case InProgress => Err(App(IdempotencyProcessing, "request is still processing"))
    case Conflicting => Err(App(IdempotencyConflict, "idempotency key conflict: different payload"))
    case Free =>
      match row.status
      case Succeeded =>
        var decoded := if row.response.Some? then cfg.unmarshal(row.response.value) else Err(Plain("unexpected end of JSON input"));
        if decoded.Ok? then decoded else Err(Wrapped(InternalError, "unmarshal cached response", decoded.error))
      case Failed => Err(App(InternalError, row.error))
      case Processing => Err(App(IdempotencyProcessing, "request is still processing"))
  }

  // The reply is what the stored bytes decode to, or an internal error when they do not decode.
  ghost predicate DecodedReply(cfg: Config, bytes: Bytes, r: Result<Value>) {
    var decoded := cfg.unmarshal(bytes);
    && (decoded.Ok? ==> r == Ok(decoded.value))
    && (decoded.Err? ==> r == Err(Wrapped(InternalError, "unmarshal cached response", decoded.error)))
  }

  /** One call: its arguments, what its handler would return if it ran, the clock at its start and
      when its handler is done, and how the store answers it. */
  datatype Call = Call(
    key: string, body: Bytes, handler: Result<Value>, now: int, later: int,
    getFault: Option<Error>, create: Write, update: Write)

  datatype Served = Served(rows: Rows, result: Result<Value>, ran: bool)

  // The handler has run and the record is in the store.
  function Conclude(cfg: Config, rows: Rows, row: Row, call: Call): Served {
    match call.handler
    case Err(e) =>
      Served(if call.update.Applied() then UpdateRow(rows, call.key, FailedRow(row, e, call.later)) else rows,
             Err(e), true)
    case Ok(v) =>
      var coded := cfg.marshal(v);
      if coded.Err? then Served(rows, Err(Wrapped(InternalError, "marshal response", coded.error)), true) else
        var err := StoreError("update idempotency record", call.update);
        Served(if call.update.Applied() then UpdateRow(rows, call.key, CompletedRow(row, coded.value, call.later)) else rows,
               if err.Some? then Err(Wrapped(DatabaseError, "update idempotency record", err.value)) else Ok(v),
               true)
  }

  function Serve(cfg: Config, rows: Rows, call: Call): Served {
    if call.key == "" then Served(rows, Err(App(InvalidRequest, "idempotency key is required")), false)
    else if call.getFault.Some? then
      Served(rows, Err(Wrapped(DatabaseError, "get idempotency record", call.getFault.value)), false)
    else if call.key in rows then Served(rows, Replay(cfg, rows[call.key], call.body, call.now), false)
    else if call.body == [] then
      Served(rows, Err(Wrapped(ValidationFailed, "create idempotency record", Plain("request body is required"))), false)
    else
      var row := FreshRow(cfg, call.body, call.now);
      var stored := if call.create.Applied() then Upsert(rows, call.key, row) else rows;
      var err := StoreError("create idempotency record", call.create);
      if err.Some? then Served(stored, Err(Wrapped(DatabaseError, "store idempotency record", err.value)), false)
      else Conclude(cfg, stored, row, call)
  }

  class Service {
    const cfg: Config
    const store: IdempotencyStore
    ghost var handlerRuns: seq<string>

    constructor (cfg: Config, store: IdempotencyStore)
      ensures this.cfg == cfg && this.store == store && handlerRuns == []
    {
      this.cfg, this.store := cfg, store;
      handlerRuns := [];
    }

    // The branch of Process for a key without a record.
    method RunFirst(call: Call) returns (r: Result<Value>)
      requires call.key != "" && call.getFault.None? && call.key !in store.rows
      modifies this, store
      ensures var served := Serve(cfg, old(store.rows), call);
              && store.rows == served.rows && r == served.result
              && handlerRuns == old(handlerRuns) + if served.ran then [call.key] else []
    {
      var created := NewIdempotencyRecord(cfg, call.key, call.body, call.now);
      if created.Err? {
        return Err(Wrapped(ValidationFailed, "create idempotency record", created.error));
      }
      var record := created.value;
      var err := store.Create(record, call.create);
      if err.Some? {
        return Err(Wrapped(DatabaseError, "store idempotency record", err.value));
      }

      handlerRuns := handlerRuns + [call.key];
      if call.handler.Err? {
        record.Fail(call.handler.error, call.later);
        var _ := store.Update(record, call.update);
        return Err(call.handler.error);
      }
      var responseBody := cfg.marshal(call.handler.value);
      if responseBody.Err? {
        return Err(Wrapped(InternalError, "marshal response", responseBody.error));
      }
      record.Complete(responseBody.value, call.later);
      err := store.Update(record, call.update);
      if err.Some? {
        return Err(Wrapped(DatabaseError, "update idempotency record", err.value));
      }
      return Ok(call.handler.value);
    }

    method Process(call: Call) returns (r: Result<Value>)
      modifies this, store
      ensures var served := Serve(cfg, old(store.rows), call);
              && store.rows == served.rows && r == served.result
              && handlerRuns == old(handlerRuns) + if served.ran then [call.key] else []
    {
      if call.key == "" {
        return Err(App(InvalidRequest, "idempotency key is required"));
      }
      var found := store.Get(call.key, call.getFault);
      if found.Err? {
        if !found.error.IsCode(IdempotencyNotFound) {
          return Err(found.error);
        }
        r := RunFirst(call);
        return;
      }

      var record := found.value;
      if call.now > record.expiresAt {
        return Err(App(IdempotencyNotFound, "idempotency key expired"));
      }
      var conflict := CheckConflict(record, cfg.hash(call.body));
      if conflict != Free {
        if conflict == InProgress {
          return Err(App(IdempotencyProcessing, "request is still processing"));
        }
        return Err(App(IdempotencyConflict, "idempotency key conflict: different payload"));
      }
      match record.status
      case Succeeded =>
        var decoded := if record.response.Some? then cfg.unmarshal(record.response.value)
                       else Err(Plain("unexpected end of JSON input"));
        if decoded.Err? {
          return Err(Wrapped(InternalError, "unmarshal cached response", decoded.error));
        }
        return decoded;
      case Failed =>
        return Err(App(InternalError, record.error));
      case Processing =>
        return Err(App(IdempotencyProcessing, "request is still processing"));
    }
  }
}
