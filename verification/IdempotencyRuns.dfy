/** Properties of every sequential run of Process from an empty store. */
module IdempotencyRuns {
  import opened AppErrors
  import opened Idempotency

  function Run(cfg: Config, calls: seq<Call>): Rows {
    if calls == [] then map[] else
      var n := |calls| - 1;
      Serve(cfg, Run(cfg, calls[..n]), calls[n]).rows
  }

  function Outcome(cfg: Config, calls: seq<Call>, i: nat): Served
    requires i < |calls|
  {
    Serve(cfg, Run(cfg, calls[..i]), calls[i])
  }

  // ---- The simple specification: the first call that reaches the store decides, and there is no store ----

  predicate CanDecide(call: Call) {
    call.key != "" && call.getFault.None? && call.body != [] && call.create.Applied()
  }

  // What a deciding call fixes for good, from its own arguments and answers.
  function Decision(cfg: Config, call: Call): Row {
    var pending := Row(cfg.hash(call.body), Processing, None, "", call.now, call.now, call.now + cfg.ttl);
    if !call.create.Done? || !call.update.Applied() then pending
    else if call.handler.Err? then
      pending.(status := Failed, error := call.handler.error.Text(), updatedAt := call.later)
    else
      match cfg.marshal(call.handler.value)
      case Err(_) => pending
      case Ok(bytes) => pending.(status := Succeeded, response := Some(bytes), updatedAt := call.later)
  }

  function FirstDecision(cfg: Config, calls: seq<Call>, key: string): Option<Row> {
    if calls == [] then None else
      var n := |calls| - 1;
      var before := FirstDecision(cfg, calls[..n], key);
      if before.Some? then before
      else if calls[n].key == key && CanDecide(calls[n]) then Some(Decision(cfg, calls[n])) else None
  }

  lemma ConcludeMatchesDecision(cfg: Config, rows: Rows, call: Call)
    requires call.key in rows && rows[call.key] == FreshRow(cfg, call.body, call.now) && call.create.Done?
    ensures var served := Conclude(cfg, rows, FreshRow(cfg, call.body, call.now), call);
            served.ran && served.rows == rows[call.key := Decision(cfg, call)]
  {
  }

  // Serve on the key of the call, and on every other key.
  lemma ServeMatchesDecision(cfg: Config, rows: Rows, call: Call)
    ensures var served := Serve(cfg, rows, call);
            && (call.key in rows ==> served.rows == rows && !served.ran)
            && (call.key !in rows && !CanDecide(call) ==> served.rows == rows && !served.ran && served.result.Err?)
            && (call.key !in rows && CanDecide(call) ==>
                  && served.rows == rows[call.key := Decision(cfg, call)]
                  && (served.ran <==> call.create.Done?))
  {
    if call.key !in rows && CanDecide(call) && call.create.Done? {
      var row := FreshRow(cfg, call.body, call.now);
      ConcludeMatchesDecision(cfg, Upsert(rows, call.key, row), call);
      assert Upsert(rows, call.key, row)[call.key := Decision(cfg, call)] == rows[call.key := Decision(cfg, call)];
    }
  }

  /** Over every run the store holds, for each key, exactly what the first deciding call fixed. */
  lemma {:induction false} StoreIsFirstDecision(cfg: Config, calls: seq<Call>, key: string)
    ensures var rows := Run(cfg, calls);
            FirstDecision(cfg, calls, key) == if key in rows then Some(rows[key]) else None
  {
    if calls == [] {
    } else {
      var n := |calls| - 1;
      StoreIsFirstDecision(cfg, calls[..n], key);
      ServeMatchesDecision(cfg, Run(cfg, calls[..n]), calls[n]);
    }
  }

  /** Memo refinement: a call whose key has been decided, and whose read does not fail, is answered
      from that first decision alone and does not run its handler; a call whose key is undecided runs
      its handler exactly when it decides and its record was acknowledged, and otherwise fails. */
  lemma MemoRefinement(cfg: Config, calls: seq<Call>, i: nat)
    requires i < |calls| && calls[i].key != "" && calls[i].getFault.None?
    ensures var first, o := FirstDecision(cfg, calls[..i], calls[i].key), Outcome(cfg, calls, i);
            && (first.Some? ==> !o.ran && o.result == Replay(cfg, first.value, calls[i].body, calls[i].now))
            && (first.None? ==>
                  && (o.ran <==> CanDecide(calls[i]) && calls[i].create.Done?)
                  && (o.ran && calls[i].handler.Err? ==> o.result == calls[i].handler)
                  && (o.result.Ok? ==> o.result == calls[i].handler)
                  && (o.result.Ok? <==>
                        o.ran && calls[i].handler.Ok? && cfg.marshal(calls[i].handler.value).Ok? && calls[i].update.Done?))
  {
    StoreIsFirstDecision(cfg, calls[..i], calls[i].key);
    ServeMatchesDecision(cfg, Run(cfg, calls[..i]), calls[i]);
  }

  lemma {:induction false} DecisionStays(cfg: Config, calls: seq<Call>, i: nat, key: string)
    requires i <= |calls| && FirstDecision(cfg, calls[..i], key).Some?
    ensures FirstDecision(cfg, calls, key) == FirstDecision(cfg, calls[..i], key)
    decreases |calls|
  {
    if i == |calls| {
      assert calls[..i] == calls;
    } else {
      var n := |calls| - 1;
      assert calls[..n][..i] == calls[..i];
      DecisionStays(cfg, calls[..n], i, key);
    }
  }

  /** What a retry is told, by the call that decided its key: expiry comes first, then another body,
      then a record left unfinished, then the first handler's own error text, or exactly what its encoded
      response decodes to, whether or not that encodes back to the same bytes. */
  lemma RetryGetsFirstAnswer(cfg: Config, calls: seq<Call>, i: nat, j: nat)
    requires i < j < |calls| && calls[i].key == calls[j].key
    requires FirstDecision(cfg, calls[..i], calls[i].key).None? && CanDecide(calls[i]) && calls[j].getFault.None?
    ensures var first, retry, o := calls[i], calls[j], Outcome(cfg, calls, j);
            && !o.ran && o.rows == Run(cfg, calls[..j])
            && (if retry.now > first.now + cfg.ttl then o.result == Err(App(IdempotencyNotFound, "idempotency key expired"))
                else if cfg.hash(retry.body) != cfg.hash(first.body) then
                  o.result == Err(App(IdempotencyConflict, "idempotency key conflict: different payload"))
                else if Decision(cfg, first).status == Processing then
                  o.result == Err(App(IdempotencyProcessing, "request is still processing"))
                else if first.handler.Err? then o.result == Err(App(InternalError, first.handler.error.Text()))
                else DecodedReply(cfg, cfg.marshal(first.handler.value).value, o.result))
            && (Decision(cfg, first).status == Processing <==>
                  !first.create.Done? || !first.update.Applied()
                  || (first.handler.Ok? && cfg.marshal(first.handler.value).Err?))
  {
    var key := calls[i].key;
    assert calls[..i+1][..i] == calls[..i] && calls[..j][..i+1] == calls[..i+1];
    assert FirstDecision(cfg, calls[..i+1], key) == Some(Decision(cfg, calls[i]));
    DecisionStays(cfg, calls[..j], i + 1, key);
    MemoRefinement(cfg, calls, j);
    StoreIsFirstDecision(cfg, calls[..j], key);
  }

  /** A retry whose stored response decodes is given that value, and given the handler's own where decoding
      undoes encoding; no retry within the lifetime and with the same body hash is refused once its key succeeded. */
  lemma SucceededRetryIsServed(cfg: Config, calls: seq<Call>, i: nat, j: nat, v: Value, bytes: Bytes, w: Value)
    requires i < j < |calls| && calls[i].key == calls[j].key
    requires FirstDecision(cfg, calls[..i], calls[i].key).None? && CanDecide(calls[i])
    requires calls[i].create.Done? && calls[i].update.Applied() && calls[i].handler == Ok(v) && cfg.marshal(v) == Ok(bytes)
    requires calls[j].getFault.None? && cfg.hash(calls[j].body) == cfg.hash(calls[i].body)
    requires calls[j].now <= calls[i].now + cfg.ttl && cfg.unmarshal(bytes) == Ok(w)
    ensures Outcome(cfg, calls, j).result == Ok(w) && !Outcome(cfg, calls, j).ran
  {
    RetryGetsFirstAnswer(cfg, calls, i, j);
  }

  ghost predicate Fails(served: Served, rows: Rows, c: Code) {
    served.rows == rows && !served.ran && served.result.Err? && served.result.error.IsCode(c)
  }

  // What a stored record answers, by its status and the request.
  ghost predicate Answers(cfg: Config, row: Row, call: Call, r: Result<Value>) {
    if call.now > row.expiresAt then r.Err? && r.error.IsCode(IdempotencyNotFound)
    else if row.requestHash != cfg.hash(call.body) then r.Err? && r.error.IsCode(IdempotencyConflict)
    else match row.status
      case Processing => r.Err? && r.error.IsCode(IdempotencyProcessing)
      case Failed => r == Err(App(InternalError, row.error))
      case Succeeded =>
        if row.response.Some? then DecodedReply(cfg, row.response.value, r) else r.Err? && r.error.IsCode(InternalError)
  }

  /** What every call comes to, guard by guard, with the code of each refusal; the handler runs from the
      Create on, and not before. */
  lemma EachGuard(cfg: Config, rows: Rows, call: Call)
    ensures var o := Serve(cfg, rows, call);
            if call.key == "" then Fails(o, rows, InvalidRequest)
            else if call.getFault.Some? then Fails(o, rows, DatabaseError)
            else if call.key in rows then !o.ran && o.rows == rows && Answers(cfg, rows[call.key], call, o.result)
            else if call.body == [] then Fails(o, rows, ValidationFailed)
            else if !call.create.Done? then !o.ran && o.result.Err? && o.result.error.IsCode(DatabaseError)
            else if call.handler.Err? then o.ran && o.result == call.handler
            else if cfg.marshal(call.handler.value).Err? then o.ran && o.result.Err? && o.result.error.IsCode(InternalError)
            else if !call.update.Done? then o.ran && o.result.Err? && o.result.error.IsCode(DatabaseError)
            else o.ran && o.result == call.handler
  {
  }

  function HandlerRuns(cfg: Config, calls: seq<Call>, key: string): nat {
    if calls == [] then 0 else
      var n := |calls| - 1;
      HandlerRuns(cfg, calls[..n], key)
        + if calls[n].key == key && Outcome(cfg, calls, n).ran then 1 else 0
  }

  /** The handler runs at most once per key, and not at all while the key is undecided. */
  lemma {:induction false} AtMostOnce(cfg: Config, calls: seq<Call>, key: string)
    ensures HandlerRuns(cfg, calls, key) <= 1
    ensures FirstDecision(cfg, calls, key).None? ==> HandlerRuns(cfg, calls, key) == 0
  {
    if calls == [] {
    } else {
      var n := |calls| - 1;
      AtMostOnce(cfg, calls[..n], key);
      StoreIsFirstDecision(cfg, calls[..n], key);
      StoreIsFirstDecision(cfg, calls, key);
      ServeMatchesDecision(cfg, Run(cfg, calls[..n]), calls[n]);
    }
  }

  // ---- Lifecycle ----

  ghost predicate WellFormedRow(cfg: Config, row: Row) {
    && row.expiresAt == row.createdAt + cfg.ttl
    && (row.status == Processing ==> row.response == None && row.error == "")
    && (row.status == Succeeded ==> row.response.Some? && row.error == "")
    && (row.status == Failed ==> row.response == None)
  }

  lemma {:induction false} DecisionWellFormed(cfg: Config, calls: seq<Call>, key: string)
    requires FirstDecision(cfg, calls, key).Some?
    ensures WellFormedRow(cfg, FirstDecision(cfg, calls, key).value)
  {
    var n := |calls| - 1;
    if FirstDecision(cfg, calls[..n], key).Some? { DecisionWellFormed(cfg, calls[..n], key); }
  }

  /** Between calls a record never changes once it exists: hash, expiry, status and outcome are
      settled within the call that created it, and the outcome fits the status. */
  lemma Lifecycle(cfg: Config, calls: seq<Call>, i: nat, key: string)
    requires i <= |calls| && key in Run(cfg, calls[..i])
    ensures key in Run(cfg, calls) && Run(cfg, calls)[key] == Run(cfg, calls[..i])[key]
    ensures WellFormedRow(cfg, Run(cfg, calls)[key])
  {
    StoreIsFirstDecision(cfg, calls[..i], key);
    StoreIsFirstDecision(cfg, calls, key);
    DecisionStays(cfg, calls, i, key);
    DecisionWellFormed(cfg, calls, key);
  }

  ghost predicate ClockMonotone(calls: seq<Call>) {
    forall i, j :: 0 <= i < j < |calls| ==> calls[i].now <= calls[j].now
  }

  /** Once a key's record has expired for one call, with a clock that does not go back, every later
      call on it is told so: the record is neither replaced nor run again. */
  lemma ExpiredForGood(cfg: Config, calls: seq<Call>, i: nat, j: nat)
    requires i < j < |calls| && ClockMonotone(calls) && calls[i].key == calls[j].key != ""
    requires var rows := Run(cfg, calls[..i]); calls[i].key in rows && calls[i].now > rows[calls[i].key].expiresAt
    requires calls[j].getFault.None?
    ensures Outcome(cfg, calls, j).result == Err(App(IdempotencyNotFound, "idempotency key expired"))
    ensures !Outcome(cfg, calls, j).ran && Outcome(cfg, calls, j).rows == Run(cfg, calls[..j])
  {
    assert calls[..j][..i] == calls[..i];
    Lifecycle(cfg, calls[..j], i, calls[j].key);
  }

  // ---- Isolation of keys ----

  function Only(calls: seq<Call>, key: string): seq<Call> {
    if calls == [] then [] else
      var n := |calls| - 1;
      Only(calls[..n], key) + if calls[n].key == key then [calls[n]] else []
  }

  function ResultsFor(cfg: Config, calls: seq<Call>, key: string): seq<Result<Value>> {
    if calls == [] then [] else
      var n := |calls| - 1;
      ResultsFor(cfg, calls[..n], key) + if calls[n].key == key then [Outcome(cfg, calls, n).result] else []
  }

  lemma SameRecordSameResult(cfg: Config, rows: Rows, rows': Rows, call: Call)
    requires call.key in rows <==> call.key in rows'
    requires call.key in rows ==> rows[call.key] == rows'[call.key]
    ensures Serve(cfg, rows, call).result == Serve(cfg, rows', call).result
  {
  }

  lemma Appended(cfg: Config, calls: seq<Call>, call: Call, key: string)
    ensures Run(cfg, calls + [call]) == Serve(cfg, Run(cfg, calls), call).rows
    ensures call.key == key ==>
      ResultsFor(cfg, calls + [call], key) == ResultsFor(cfg, calls, key) + [Serve(cfg, Run(cfg, calls), call).result]
    ensures call.key != key ==> ResultsFor(cfg, calls + [call], key) == ResultsFor(cfg, calls, key)
    ensures FirstDecision(cfg, calls, key).Some? ==>
      FirstDecision(cfg, calls + [call], key) == FirstDecision(cfg, calls, key)
    ensures FirstDecision(cfg, calls, key).None? ==>
      FirstDecision(cfg, calls + [call], key)
        == if call.key == key && CanDecide(call) then Some(Decision(cfg, call)) else None
  {
    assert (calls + [call])[..|calls|] == calls;
  }

  /** Erasing all calls on other keys leaves one key's results and record unchanged. */
  lemma {:induction false} KeyIsolation(cfg: Config, calls: seq<Call>, key: string)
    ensures ResultsFor(cfg, calls, key) == ResultsFor(cfg, Only(calls, key), key)
    ensures FirstDecision(cfg, calls, key) == FirstDecision(cfg, Only(calls, key), key)
  {
    if calls == [] {
    } else {
      var n := |calls| - 1;
      var before, call := Only(calls[..n], key), calls[n];
      assert calls == calls[..n] + [call];
      assert Only(calls, key) == if call.key == key then before + [call] else before;
      KeyIsolation(cfg, calls[..n], key);
      Appended(cfg, calls[..n], call, key);
      if call.key == key {
        Appended(cfg, before, call, key);
        StoreIsFirstDecision(cfg, calls[..n], key);
        StoreIsFirstDecision(cfg, before, key);
        SameRecordSameResult(cfg, Run(cfg, calls[..n]), Run(cfg, before), call);
      }
    }
  }
}
