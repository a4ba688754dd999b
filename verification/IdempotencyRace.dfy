/** Any number of Process calls in flight at once: Get, Create (an upsert), the handler and Update
    are separate steps, interleaved in any order over one store. */
module IdempotencyRace {
  import opened AppErrors
  import opened Idempotency
  import opened Sums

  datatype Request = Request(key: string, body: Bytes)

  type Requests = seq<Request>

  /** Where a call stands; a running call holds its record, a finishing one the record to write. */
  datatype PC =
    | Idle
    | Creating
    | Running(record: Row)
    | Finishing(outcome: Row, reply: Result<Value>)
    | Ended(result: Result<Value>)

  datatype State = State(rows: Rows, pcs: seq<PC>)

  /** One step of call c, with the clock and what the environment answers to it. */
  datatype Step =
    | Get(c: nat, now: int, fault: Option<Error>)
    | Create(c: nat, now: int, write: Write)
    | Handle(c: nat, later: int, handler: Result<Value>)
    | Update(c: nat, write: Write)

  function Start(reqs: Requests): State {
    State(map[], seq(|reqs|, _ => Idle))
  }

  predicate Enabled(s: State, step: Step) {
    step.c < |s.pcs| &&
    match step
    case Get(c, _, _) => s.pcs[c].Idle?
    case Create(c, _, _) => s.pcs[c].Creating?
    case Handle(c, _, _) => s.pcs[c].Running?
    case Update(c, _) => s.pcs[c].Finishing?
  }

  function AfterGet(cfg: Config, rows: Rows, req: Request, now: int, fault: Option<Error>): PC {
    if req.key == "" then Ended(Err(App(InvalidRequest, "idempotency key is required")))
    else if fault.Some? then Ended(Err(Wrapped(DatabaseError, "get idempotency record", fault.value)))
    else if req.key in rows then Ended(Replay(cfg, rows[req.key], req.body, now))
    else if req.body == [] then
      Ended(Err(Wrapped(ValidationFailed, "create idempotency record", Plain("request body is required"))))
    else Creating
  }

  function AfterCreate(cfg: Config, req: Request, now: int, write: Write): PC {
    var err := StoreError("create idempotency record", write);
    if err.Some? then Ended(Err(Wrapped(DatabaseError, "store idempotency record", err.value)))
    else Running(FreshRow(cfg, req.body, now))
  }

  function AfterHandle(cfg: Config, record: Row, later: int, handler: Result<Value>): PC {
    match handler
    case Err(e) => Finishing(FailedRow(record, e, later), Err(e))
    case Ok(v) =>
      var coded := cfg.marshal(v);
      if coded.Err? then Ended(Err(Wrapped(InternalError, "marshal response", coded.error)))
      else Finishing(CompletedRow(record, coded.value, later), Ok(v))
  }

  function AfterUpdate(reply: Result<Value>, write: Write): PC {
    var err := StoreError("update idempotency record", write);
    if reply.Ok? && err.Some? then Ended(Err(Wrapped(DatabaseError, "update idempotency record", err.value)))
    else Ended(reply)
  }

  // A step that its call is not ready for does nothing.
  function Next(cfg: Config, reqs: Requests, s: State, step: Step): State
    requires |s.pcs| == |reqs|
  {
    if !Enabled(s, step) then s else
      var c := step.c;
      var req := reqs[c];
      match step
      case Get(_, now, fault) => s.(pcs := s.pcs[c := AfterGet(cfg, s.rows, req, now, fault)])
      case Create(_, now, write) =>
        State(if write.Applied() then Upsert(s.rows, req.key, FreshRow(cfg, req.body, now)) else s.rows,
              s.pcs[c := AfterCreate(cfg, req, now, write)])
      case Handle(_, later, handler) => s.(pcs := s.pcs[c := AfterHandle(cfg, s.pcs[c].record, later, handler)])
      case Update(_, write) =>
        State(if write.Applied() then UpdateRow(s.rows, req.key, s.pcs[c].outcome) else s.rows,
              s.pcs[c := AfterUpdate(s.pcs[c].reply, write)])
  }

  function Exec(cfg: Config, reqs: Requests, steps: seq<Step>): (s: State)
    ensures |s.pcs| == |reqs|
  {
    if steps == [] then Start(reqs) else
      Next(cfg, reqs, Exec(cfg, reqs, steps[..|steps|-1]), steps[|steps|-1])
  }

  predicate For(reqs: Requests, c: nat, key: string) { c < |reqs| && reqs[c].key == key }

  lemma StepKeepsOthers(cfg: Config, reqs: Requests, s: State, step: Step)
    requires |s.pcs| == |reqs|
    ensures var t := Next(cfg, reqs, s, step);
            forall c :: 0 <= c < |s.pcs| && c != step.c ==> t.pcs[c] == s.pcs[c]
  {
  }

  // Step i was taken, by a call on the key that was ready for it.
  predicate Happened(cfg: Config, reqs: Requests, steps: seq<Step>, i: nat, key: string) {
    i < |steps| && For(reqs, steps[i].c, key) && Enabled(Exec(cfg, reqs, steps[..i]), steps[i])
  }

  lemma StillHappened(cfg: Config, reqs: Requests, steps: seq<Step>, i: nat, key: string)
    requires |steps| > 0 && Happened(cfg, reqs, steps[..|steps|-1], i, key)
    ensures Happened(cfg, reqs, steps, i, key) && steps[i] == steps[..|steps|-1][i]
  {
    assert steps[..|steps|-1][..i] == steps[..i];
  }

  // ---- Late arrivals ----

  // Calls on the key whose Get came before any successful Create for it.
  function Early(cfg: Config, reqs: Requests, steps: seq<Step>, key: string): set<nat> {
    if steps == [] then {} else
      var n, s := |steps| - 1, Exec(cfg, reqs, steps[..|steps|-1]);
      Early(cfg, reqs, steps[..n], key)
        + if steps[n].Get? && Enabled(s, steps[n]) && For(reqs, steps[n].c, key) && key !in s.rows
          then {steps[n].c} else {}
  }

  // Calls on the key whose handler ran, and how many runs there were.
  function Runners(cfg: Config, reqs: Requests, steps: seq<Step>, key: string): set<nat> {
    if steps == [] then {} else
      var n, s := |steps| - 1, Exec(cfg, reqs, steps[..|steps|-1]);
      Runners(cfg, reqs, steps[..n], key)
        + if steps[n].Handle? && Enabled(s, steps[n]) && For(reqs, steps[n].c, key) then {steps[n].c} else {}
  }

  function RunsFor(cfg: Config, reqs: Requests, steps: seq<Step>, key: string): nat {
    if steps == [] then 0 else
      var n, s := |steps| - 1, Exec(cfg, reqs, steps[..|steps|-1]);
      RunsFor(cfg, reqs, steps[..n], key)
        + if steps[n].Handle? && Enabled(s, steps[n]) && For(reqs, steps[n].c, key) then 1 else 0
  }

  ghost predicate Tracked(reqs: Requests, s: State, early: set<nat>, runners: set<nat>, key: string) {
    && runners <= early
    && (forall c :: c in runners ==> c < |s.pcs| && (s.pcs[c].Finishing? || s.pcs[c].Ended?))
    && (forall c :: 0 <= c < |s.pcs| && For(reqs, c, key) && (s.pcs[c].Creating? || s.pcs[c].Running?) ==> c in early)
  }

  lemma StepIsTracked(
    cfg: Config, reqs: Requests, s: State, step: Step, early: set<nat>, runners: set<nat>, key: string)
    requires |s.pcs| == |reqs| && Enabled(s, step) && Tracked(reqs, s, early, runners, key)
    ensures var mine := For(reqs, step.c, key);
            Tracked(reqs, Next(cfg, reqs, s, step),
                    early + (if step.Get? && mine && key !in s.rows then {step.c} else {}),
                    runners + (if step.Handle? && mine then {step.c} else {}), key)
    ensures step.Handle? ==> step.c !in runners
  {
    StepKeepsOthers(cfg, reqs, s, step);
  }

  lemma {:induction false} RunnersAreEarly(cfg: Config, reqs: Requests, steps: seq<Step>, key: string)
    ensures Tracked(reqs, Exec(cfg, reqs, steps), Early(cfg, reqs, steps, key), Runners(cfg, reqs, steps, key), key)
    ensures RunsFor(cfg, reqs, steps, key) == |Runners(cfg, reqs, steps, key)|
  {
    if steps == [] {
    } else {
      var n := |steps| - 1;
      var s := Exec(cfg, reqs, steps[..n]);
      RunnersAreEarly(cfg, reqs, steps[..n], key);
      if Enabled(s, steps[n]) {
        StepIsTracked(cfg, reqs, s, steps[n], Early(cfg, reqs, steps[..n], key), Runners(cfg, reqs, steps[..n], key), key);
      }
    }
  }

  /** Under every interleaving a call whose Get comes after the first successful Create for its key
      never runs its handler, so a key's handler runs never outnumber the calls that read before. */
  lemma LateArrivals(cfg: Config, reqs: Requests, steps: seq<Step>, key: string)
    ensures Runners(cfg, reqs, steps, key) <= Early(cfg, reqs, steps, key)
    ensures RunsFor(cfg, reqs, steps, key) <= |Early(cfg, reqs, steps, key)|
  {
    RunnersAreEarly(cfg, reqs, steps, key);
    SubsetSize(Runners(cfg, reqs, steps, key), Early(cfg, reqs, steps, key));
  }

  // ---- Losses and quiescence ----

  // The step leaves a processing record behind: a Create that takes effect although its call gives up,
  // a response that cannot be marshalled, or an Update that does not reach the store.
  predicate Loses(cfg: Config, step: Step) {
    match step
    case Get(_, _, _) => false
    case Create(_, _, write) => write.DoneUnreported?
    case Handle(_, _, handler) => handler.Ok? && cfg.marshal(handler.value).Err?
    case Update(_, write) => write.NotDone?
  }

  // Call c is between its Create and its Update, or one of its steps lost the record's outcome.
  ghost predicate Unsettled(cfg: Config, reqs: Requests, steps: seq<Step>, c: nat, key: string) {
    var s := Exec(cfg, reqs, steps);
    c < |s.pcs| && (s.pcs[c].Running? || s.pcs[c].Finishing?
                    || exists i: nat :: Happened(cfg, reqs, steps, i, key) && steps[i].c == c && Loses(cfg, steps[i]))
  }

  ghost predicate Explained(cfg: Config, reqs: Requests, steps: seq<Step>, key: string) {
    var s := Exec(cfg, reqs, steps);
    key in s.rows && s.rows[key].status == Processing ==>
      exists c: nat :: For(reqs, c, key) && Unsettled(cfg, reqs, steps, c, key)
  }

  // Only an Update that reaches the store settles a call.
  lemma StaysUnsettled(cfg: Config, reqs: Requests, steps: seq<Step>, c: nat, key: string)
    requires |steps| > 0 && For(reqs, c, key) && Unsettled(cfg, reqs, steps[..|steps|-1], c, key)
    ensures var before, step := Exec(cfg, reqs, steps[..|steps|-1]), steps[|steps|-1];
            || Unsettled(cfg, reqs, steps, c, key)
            || (step.Update? && step.c == c && step.write.Applied() && Enabled(before, step))
  {
    var n := |steps| - 1;
    var before := Exec(cfg, reqs, steps[..n]);
    if i: nat :| Happened(cfg, reqs, steps[..n], i, key) && steps[..n][i].c == c && Loses(cfg, steps[..n][i]) {
      StillHappened(cfg, reqs, steps, i, key);
    } else {
      StepKeepsOthers(cfg, reqs, before, steps[n]);
      if Enabled(before, steps[n]) && steps[n].c == c && Loses(cfg, steps[n]) {
        assert Happened(cfg, reqs, steps, n, key);
      }
    }
  }

  lemma SettlingIsTerminal(cfg: Config, reqs: Requests, s: State, step: Step)
    requires |s.pcs| == |reqs| && Enabled(s, step) && step.Update? && step.write.Applied()
    requires s.pcs[step.c].outcome.status != Processing
    ensures var key, t := reqs[step.c].key, Next(cfg, reqs, s, step);
            key in t.rows ==> t.rows[key].status != Processing
  {
  }

  ghost predicate TerminalOutcomes(s: State) {
    forall c :: 0 <= c < |s.pcs| && s.pcs[c].Finishing? ==> s.pcs[c].outcome.status != Processing
  }

  lemma MovedOutcomeIsTerminal(cfg: Config, reqs: Requests, s: State, step: Step)
    requires |s.pcs| == |reqs| && Enabled(s, step)
    ensures var t := Next(cfg, reqs, s, step);
            t.pcs[step.c].Finishing? ==> t.pcs[step.c].outcome.status != Processing
  {
    match step
    case Get(_, _, _) =>
    case Create(_, _, _) =>
    case Handle(_, _, _) =>
    case Update(_, _) =>
  }

  lemma {:induction false} OutcomesAreTerminal(cfg: Config, reqs: Requests, steps: seq<Step>)
    ensures TerminalOutcomes(Exec(cfg, reqs, steps))
  {
    if steps == [] {
    } else {
      var n := |steps| - 1;
      var before := Exec(cfg, reqs, steps[..n]);
      OutcomesAreTerminal(cfg, reqs, steps[..n]);
      StepKeepsOthers(cfg, reqs, before, steps[n]);
      if Enabled(before, steps[n]) { MovedOutcomeIsTerminal(cfg, reqs, before, steps[n]); }
    }
  }

  // Only a Create turns a key's record to processing.
  lemma PendingBefore(cfg: Config, reqs: Requests, s: State, step: Step, key: string)
    requires |s.pcs| == |reqs|
    requires TerminalOutcomes(s)
    requires !(step.Create? && Enabled(s, step) && For(reqs, step.c, key) && step.write.Applied())
    requires var t := Next(cfg, reqs, s, step); key in t.rows && t.rows[key].status == Processing
    ensures key in s.rows && s.rows[key].status == Processing
  {
    if Enabled(s, step) {
      match step
      case Get(_, _, _) =>
      case Create(_, _, _) =>
      case Handle(_, _, _) =>
      case Update(_, _) =>
    }
  }

  /** In every reachable state a processing record is explained by a call on its key that is between
      its Create and its Update, or one of whose steps was taken and lost: an unacknowledged Create,
      a response that does not marshal, or an Update that did not reach the store. */
  lemma {:induction false} ProcessingIsExplained(cfg: Config, reqs: Requests, steps: seq<Step>, key: string)
    ensures Explained(cfg, reqs, steps, key)
  {
    if steps == [] {
    } else {
      var n := |steps| - 1;
      var before, step, s := Exec(cfg, reqs, steps[..n]), steps[n], Exec(cfg, reqs, steps);
      ProcessingIsExplained(cfg, reqs, steps[..n], key);
      if key in s.rows && s.rows[key].status == Processing {
        if step.Create? && Enabled(before, step) && For(reqs, step.c, key) && step.write.Applied() {
          assert Happened(cfg, reqs, steps, n, key);
          assert Unsettled(cfg, reqs, steps, step.c, key);
        } else {
          OutcomesAreTerminal(cfg, reqs, steps[..n]);
          PendingBefore(cfg, reqs, before, step, key);
          var c: nat :| For(reqs, c, key) && Unsettled(cfg, reqs, steps[..n], c, key);
          StaysUnsettled(cfg, reqs, steps, c, key);
          if step.Update? && step.c == c && step.write.Applied() && Enabled(before, step) {
            SettlingIsTerminal(cfg, reqs, before, step);
          }
        }
      }
    }
  }

  // No call on the key is under way.
  ghost predicate Quiet(reqs: Requests, s: State, key: string) {
    forall c :: 0 <= c < |s.pcs| && For(reqs, c, key) ==> s.pcs[c].Idle? || s.pcs[c].Ended?
  }

  ghost predicate NothingLost(cfg: Config, reqs: Requests, steps: seq<Step>, key: string) {
    forall i: nat :: Happened(cfg, reqs, steps, i, key) ==> !Loses(cfg, steps[i])
  }

  /** With no loss on a key and no call on it under way, its record is terminal, whatever failed before
      its record existed and whatever happens on other keys. */
  lemma Quiescence(cfg: Config, reqs: Requests, steps: seq<Step>, key: string)
    requires NothingLost(cfg, reqs, steps, key) && Quiet(reqs, Exec(cfg, reqs, steps), key)
    ensures var s := Exec(cfg, reqs, steps); key in s.rows ==> s.rows[key].status != Processing
  {
    ProcessingIsExplained(cfg, reqs, steps, key);
  }

  // ---- How often the handler runs, exactly ----

  predicate Stops(s: State, step: Step, key: string) {
    || (step.Get? && key !in s.rows && step.fault.Some?)
    || (step.Create? && !step.write.Done?)
  }

  // Calls on the key that never got to their handler: a failed read before the first Create, or a
  // Create that was refused or not acknowledged.
  function Stopped(cfg: Config, reqs: Requests, steps: seq<Step>, key: string): set<nat> {
    if steps == [] then {} else
      var n, s := |steps| - 1, Exec(cfg, reqs, steps[..|steps|-1]);
      Stopped(cfg, reqs, steps[..n], key)
        + if Enabled(s, steps[n]) && For(reqs, steps[n].c, key)
             && Stops(s, steps[n], key)
          then {steps[n].c} else {}
  }

  function WithBody(reqs: Requests, cs: set<nat>): set<nat> {
    set c | c in cs && c < |reqs| && reqs[c].body != []
  }

  // Where an early call with a body stands.
  ghost predicate Placed(reqs: Requests, s: State, early: set<nat>, runners: set<nat>, stopped: set<nat>, key: string) {
    && (forall c :: c in early ==>
          && c < |s.pcs| && For(reqs, c, key)
          && (reqs[c].body == [] || s.pcs[c].Creating? || s.pcs[c].Running? || c in runners || c in stopped))
    && (forall c :: c in stopped ==> c in early && c < |s.pcs| && s.pcs[c].Ended?)
    && runners !! stopped
  }

  lemma StepIsPlaced(
    cfg: Config, reqs: Requests, s: State, step: Step, early: set<nat>, runners: set<nat>, stopped: set<nat>, key: string)
    requires |s.pcs| == |reqs| && Enabled(s, step) && key != ""
    requires Placed(reqs, s, early, runners, stopped, key) && Tracked(reqs, s, early, runners, key)
    ensures var mine := For(reqs, step.c, key);
            Placed(reqs, Next(cfg, reqs, s, step),
                   early + (if step.Get? && mine && key !in s.rows then {step.c} else {}),
                   runners + (if step.Handle? && mine then {step.c} else {}),
                   stopped + (if mine && Stops(s, step, key) then {step.c} else {}), key)
  {
    StepKeepsOthers(cfg, reqs, s, step);
    match step
    case Get(_, _, _) =>
    case Create(_, _, _) =>
    case Handle(_, _, _) =>
    case Update(_, _) =>
  }

  lemma {:induction false} EarlyIsPlaced(cfg: Config, reqs: Requests, steps: seq<Step>, key: string)
    requires key != ""
    ensures Placed(reqs, Exec(cfg, reqs, steps), Early(cfg, reqs, steps, key), Runners(cfg, reqs, steps, key),
                   Stopped(cfg, reqs, steps, key), key)
  {
    if steps == [] {
    } else {
      var n := |steps| - 1;
      var s := Exec(cfg, reqs, steps[..n]);
      EarlyIsPlaced(cfg, reqs, steps[..n], key);
      RunnersAreEarly(cfg, reqs, steps[..n], key);
      if Enabled(s, steps[n]) {
        StepIsPlaced(cfg, reqs, s, steps[n], Early(cfg, reqs, steps[..n], key), Runners(cfg, reqs, steps[..n], key),
                     Stopped(cfg, reqs, steps[..n], key), key);
      }
    }
  }

  ghost predicate RunningHasBody(reqs: Requests, s: State, runners: set<nat>, key: string) {
    && |s.pcs| == |reqs|
    && (forall c :: c in runners ==> For(reqs, c, key) && reqs[c].body != [])
    && (forall c :: 0 <= c < |reqs| && (s.pcs[c].Creating? || s.pcs[c].Running?) ==> reqs[c].body != [])
  }

  lemma {:induction false} RunnersHaveBodies(cfg: Config, reqs: Requests, steps: seq<Step>, key: string)
    ensures RunningHasBody(reqs, Exec(cfg, reqs, steps), Runners(cfg, reqs, steps, key), key)
  {
    if steps == [] {
    } else {
      var n := |steps| - 1;
      RunnersHaveBodies(cfg, reqs, steps[..n], key);
      StepKeepsOthers(cfg, reqs, Exec(cfg, reqs, steps[..n]), steps[n]);
    }
  }

  lemma EarlyIsSplit(reqs: Requests, s: State, early: set<nat>, runners: set<nat>, stopped: set<nat>, key: string)
    requires |s.pcs| == |reqs| && Quiet(reqs, s, key)
    requires Tracked(reqs, s, early, runners, key) && RunningHasBody(reqs, s, runners, key)
    requires Placed(reqs, s, early, runners, stopped, key)
    ensures WithBody(reqs, early) == runners + WithBody(reqs, stopped) && runners !! WithBody(reqs, stopped)
  {
    forall c: nat ensures c in WithBody(reqs, early) <==> c in runners || c in WithBody(reqs, stopped) {
      if c in WithBody(reqs, early) { assert !s.pcs[c].Creating? && !s.pcs[c].Running?; }
    }
  }

  lemma SizeOfUnion<T>(a: set<T>, b: set<T>)
    requires a !! b
    ensures |a + b| == |a| + |b|
  {
  }

  /** How often a key's handler runs, exactly, under every interleaving that has come to rest on the key:
      once for every call with a body that read before the first Create, less those stopped by a failed
      read or Create of their own. */
  lemma RunsExactly(cfg: Config, reqs: Requests, steps: seq<Step>, key: string)
    requires key != "" && Quiet(reqs, Exec(cfg, reqs, steps), key)
    ensures RunsFor(cfg, reqs, steps, key) + |WithBody(reqs, Stopped(cfg, reqs, steps, key))|
         == |WithBody(reqs, Early(cfg, reqs, steps, key))|
  {
    var s, early := Exec(cfg, reqs, steps), Early(cfg, reqs, steps, key);
    var runners, stopped := Runners(cfg, reqs, steps, key), Stopped(cfg, reqs, steps, key);
    RunnersAreEarly(cfg, reqs, steps, key);
    RunnersHaveBodies(cfg, reqs, steps, key);
    EarlyIsPlaced(cfg, reqs, steps, key);
    EarlyIsSplit(reqs, s, early, runners, stopped, key);
    SizeOfUnion(runners, WithBody(reqs, stopped));
  }

  lemma Extended(cfg: Config, reqs: Requests, steps: seq<Step>, step: Step, key: string)
    requires Enabled(Exec(cfg, reqs, steps), step) && For(reqs, step.c, key)
    ensures Exec(cfg, reqs, steps + [step]) == Next(cfg, reqs, Exec(cfg, reqs, steps), step)
    ensures RunsFor(cfg, reqs, steps + [step], key)
         == RunsFor(cfg, reqs, steps, key) + if step.Handle? then 1 else 0
  {
    assert (steps + [step])[..|steps|] == steps;
  }

  // Two calls that both read first both run.
  lemma TwoRuns(cfg: Config, reqs: Requests, key: string, c: nat, d: nat) returns (steps: seq<Step>)
    requires key != "" && c != d && For(reqs, c, key) && For(reqs, d, key) && reqs[c].body != [] && reqs[d].body != []
    ensures RunsFor(cfg, reqs, steps, key) == 2
  {
    var failed := Err(Plain("failed"));
    steps := [];
    Extended(cfg, reqs, steps, Get(c, 0, None), key);
    steps := steps + [Get(c, 0, None)];
    Extended(cfg, reqs, steps, Get(d, 0, None), key);
    steps := steps + [Get(d, 0, None)];
    Extended(cfg, reqs, steps, Create(c, 0, Done), key);
    steps := steps + [Create(c, 0, Done)];
    Extended(cfg, reqs, steps, Create(d, 0, Done), key);
    steps := steps + [Create(d, 0, Done)];
    Extended(cfg, reqs, steps, Handle(c, 0, failed), key);
    steps := steps + [Handle(c, 0, failed)];
    Extended(cfg, reqs, steps, Handle(d, 0, failed), key);
    steps := steps + [Handle(d, 0, failed)];
  }

  /** The upsert does not make the handler run once: it runs at most once under every interleaving
      if and only if at most one request on the key has a body. */
  lemma OneRunExactly(cfg: Config, reqs: Requests, key: string)
    requires key != ""
    ensures (forall steps :: RunsFor(cfg, reqs, steps, key) <= 1)
       <==> (forall c: nat, d: nat | For(reqs, c, key) && For(reqs, d, key)
               :: reqs[c].body != [] && reqs[d].body != [] ==> c == d)
  {
    if c: nat, d: nat :| For(reqs, c, key) && For(reqs, d, key)
                         && reqs[c].body != [] && reqs[d].body != [] && c != d {
      var steps := TwoRuns(cfg, reqs, key, c, d);
    } else {
      forall steps ensures RunsFor(cfg, reqs, steps, key) <= 1 {
        RunnersAreEarly(cfg, reqs, steps, key);
        RunnersHaveBodies(cfg, reqs, steps, key);
        AtMostOneElement(Runners(cfg, reqs, steps, key));
      }
    }
  }

  // ---- What a settled record says ----

  datatype Content = Content(status: Status, response: Option<Bytes>, error: string)

  function ContentOf(row: Row): Content { Content(row.status, row.response, row.error) }

  // The outcomes of the handlers that ran for a key.
  function Outcomes(cfg: Config, reqs: Requests, steps: seq<Step>, key: string): set<Content> {
    if steps == [] then {} else
      var n, s := |steps| - 1, Exec(cfg, reqs, steps[..|steps|-1]);
      Outcomes(cfg, reqs, steps[..n], key)
        + if steps[n].Handle? && Enabled(s, steps[n]) && For(reqs, steps[n].c, key)
          then match steps[n].handler
               case Err(e) => {Content(Failed, None, e.Text())}
               case Ok(v) => if cfg.marshal(v).Ok? then {Content(Succeeded, Some(cfg.marshal(v).value), "")} else {}
          else {}
  }

  ghost predicate HashOfSome(cfg: Config, reqs: Requests, key: string, hash: string) {
    exists c :: 0 <= c < |reqs| && For(reqs, c, key) && reqs[c].body != [] && cfg.hash(reqs[c].body) == hash
  }

  ghost predicate Sourced(cfg: Config, reqs: Requests, s: State, outcomes: set<Content>, key: string) {
    && |s.pcs| == |reqs|
    && (key in s.rows ==>
          && HashOfSome(cfg, reqs, key, s.rows[key].requestHash)
          && (s.rows[key].status == Processing || ContentOf(s.rows[key]) in outcomes))
    && (forall c :: 0 <= c < |reqs| && For(reqs, c, key) ==>
          && (s.pcs[c].Creating? ==> reqs[c].body != [])
          && (s.pcs[c].Running? ==> s.pcs[c].record.error == "")
          && (s.pcs[c].Finishing? ==> ContentOf(s.pcs[c].outcome) in outcomes))
  }

  lemma NextIsSourced(
    cfg: Config, reqs: Requests, s: State, step: Step, before: set<Content>, after: set<Content>, key: string)
    requires Sourced(cfg, reqs, s, before, key) && before <= after
    requires var t := Next(cfg, reqs, s, step);
             Enabled(s, step) && t.pcs[step.c].Finishing? && For(reqs, step.c, key) ==> ContentOf(t.pcs[step.c].outcome) in after
    ensures Sourced(cfg, reqs, Next(cfg, reqs, s, step), after, key)
  {
    StepKeepsOthers(cfg, reqs, s, step);
    if Enabled(s, step) && For(reqs, step.c, key) && step.Create? {
      assert HashOfSome(cfg, reqs, key, cfg.hash(reqs[step.c].body));
    }
  }

  /** Under every interleaving a settled record holds the outcome of a handler that ran for its key
      and the hash of a non-empty body sent with its key. */
  lemma {:induction false} SettledIsSourced(cfg: Config, reqs: Requests, steps: seq<Step>, key: string)
    ensures Sourced(cfg, reqs, Exec(cfg, reqs, steps), Outcomes(cfg, reqs, steps, key), key)
  {
    if steps == [] {
    } else {
      var n := |steps| - 1;
      var before, step := Exec(cfg, reqs, steps[..n]), steps[n];
      SettledIsSourced(cfg, reqs, steps[..n], key);
      NextIsSourced(cfg, reqs, before, step, Outcomes(cfg, reqs, steps[..n], key), Outcomes(cfg, reqs, steps, key), key);
    }
  }

  // Step i ran, for this key, the handler of a call with that body hash, to that response.
  ghost predicate Produces(cfg: Config, reqs: Requests, steps: seq<Step>, i: nat, key: string, hash: string, response: Option<Bytes>) {
    && Happened(cfg, reqs, steps, i, key) && steps[i].Handle?
    && reqs[steps[i].c].body != [] && cfg.hash(reqs[steps[i].c].body) == hash
    && steps[i].handler.Ok? && cfg.marshal(steps[i].handler.value).Ok?
    && response == Some(cfg.marshal(steps[i].handler.value).value)
  }

  // A succeeded record holds the response to a body with the record's hash.
  ghost predicate Paired(cfg: Config, reqs: Requests, steps: seq<Step>, key: string) {
    var s := Exec(cfg, reqs, steps);
    key in s.rows && s.rows[key].status == Succeeded ==>
      exists i: nat :: Produces(cfg, reqs, steps, i, key, s.rows[key].requestHash, s.rows[key].response)
  }

  ghost predicate SameBodies(cfg: Config, reqs: Requests, key: string) {
    forall c: nat, d: nat | For(reqs, c, key) && For(reqs, d, key) && reqs[c].body != [] && reqs[d].body != [] ::
      cfg.hash(reqs[c].body) == cfg.hash(reqs[d].body)
  }

  lemma {:induction false} OutcomeHasStep(cfg: Config, reqs: Requests, steps: seq<Step>, key: string, content: Content)
    returns (i: nat)
    requires content in Outcomes(cfg, reqs, steps, key) && content.status == Succeeded
    ensures i < |steps| && steps[i].c < |reqs|
    ensures Produces(cfg, reqs, steps, i, key, cfg.hash(reqs[steps[i].c].body), content.response)
  {
    var n := |steps| - 1;
    if content in Outcomes(cfg, reqs, steps[..n], key) {
      i := OutcomeHasStep(cfg, reqs, steps[..n], key, content);
      StillHappened(cfg, reqs, steps, i, key);
    } else {
      RunnersHaveBodies(cfg, reqs, steps[..n], key);
      i := n;
    }
  }

  lemma SameBodiesArePaired(cfg: Config, reqs: Requests, steps: seq<Step>, key: string)
    requires SameBodies(cfg, reqs, key)
    ensures Paired(cfg, reqs, steps, key)
  {
    var s := Exec(cfg, reqs, steps);
    SettledIsSourced(cfg, reqs, steps, key);
    if key in s.rows && s.rows[key].status == Succeeded {
      var row := s.rows[key];
      var i := OutcomeHasStep(cfg, reqs, steps, key, ContentOf(row));
      var c :| 0 <= c < |reqs| && For(reqs, c, key) && reqs[c].body != [] && cfg.hash(reqs[c].body) == row.requestHash;
      assert Produces(cfg, reqs, steps, i, key, row.requestHash, row.response);
    }
  }

  // Call c creates, call d creates over it and fails, and c's response lands under d's hash.
  lemma Mismatch(cfg: Config, reqs: Requests, key: string, c: nat, d: nat, v: Value)
    returns (steps: seq<Step>)
    requires key != "" && For(reqs, c, key) && For(reqs, d, key)
    requires reqs[c].body != [] && reqs[d].body != [] && cfg.hash(reqs[c].body) != cfg.hash(reqs[d].body)
    requires cfg.marshal(v).Ok?
    ensures !Paired(cfg, reqs, steps, key) && RunsFor(cfg, reqs, steps, key) == 2
  {
    var e := Plain("failed");
    steps := [];
    Extended(cfg, reqs, steps, Get(c, 0, None), key);
    steps := steps + [Get(c, 0, None)];
    Extended(cfg, reqs, steps, Get(d, 0, None), key);
    steps := steps + [Get(d, 0, None)];
    Extended(cfg, reqs, steps, Create(c, 0, Done), key);
    steps := steps + [Create(c, 0, Done)];
    Extended(cfg, reqs, steps, Create(d, 0, Done), key);
    steps := steps + [Create(d, 0, Done)];
    Extended(cfg, reqs, steps, Handle(d, 0, Err(e)), key);
    steps := steps + [Handle(d, 0, Err(e))];
    Extended(cfg, reqs, steps, Update(d, Done), key);
    steps := steps + [Update(d, Done)];
    Extended(cfg, reqs, steps, Handle(c, 0, Ok(v)), key);
    steps := steps + [Handle(c, 0, Ok(v))];
    Extended(cfg, reqs, steps, Update(c, Done), key);
    steps := steps + [Update(c, Done)];
    assert Exec(cfg, reqs, steps).rows[key].requestHash == cfg.hash(reqs[d].body);
    assert forall i :: 0 <= i < |steps| && steps[i].Handle? ==> steps[i].c == c || steps[i].handler == Err(e);
  }

  /** What the upsert does not prevent, exactly: a stored response is always the one to the stored
      body hash, under every interleaving, if and only if all non-empty bodies sent with the key hash alike. */
  lemma PairedExactly(cfg: Config, reqs: Requests, key: string, v: Value)
    requires key != "" && cfg.marshal(v).Ok?
    ensures (forall steps :: Paired(cfg, reqs, steps, key)) <==> SameBodies(cfg, reqs, key)
  {
    if SameBodies(cfg, reqs, key) {
      forall steps ensures Paired(cfg, reqs, steps, key) {
        SameBodiesArePaired(cfg, reqs, steps, key);
      }
    } else {
      var c: nat, d: nat :| For(reqs, c, key) && For(reqs, d, key) && reqs[c].body != [] && reqs[d].body != []
                            && cfg.hash(reqs[c].body) != cfg.hash(reqs[d].body);
      var steps := Mismatch(cfg, reqs, key, c, d, v);
    }
  }

  // ---- What a successful caller is given ----

  // The result of the call's own handler.
  ghost predicate OwnResult(cfg: Config, reqs: Requests, steps: seq<Step>, c: nat, v: Value)
    requires c < |reqs|
  {
    exists i: nat :: Happened(cfg, reqs, steps, i, reqs[c].key) && steps[i].c == c && steps[i].Handle? && steps[i].handler == Ok(v)
  }

  // The decoded response of a handler that ran for the key.
  ghost predicate StoredResult(cfg: Config, reqs: Requests, steps: seq<Step>, key: string, v: Value) {
    exists i: nat, hash: string, bytes: Bytes ::
      Produces(cfg, reqs, steps, i, key, hash, Some(bytes)) && cfg.unmarshal(bytes) == Ok(v)
  }

  ghost predicate Replied(cfg: Config, reqs: Requests, steps: seq<Step>, c: nat)
    requires c < |reqs|
  {
    match Exec(cfg, reqs, steps).pcs[c]
    case Finishing(_, Ok(v)) => OwnResult(cfg, reqs, steps, c, v)
    case Ended(Ok(v)) => OwnResult(cfg, reqs, steps, c, v) || StoredResult(cfg, reqs, steps, reqs[c].key, v)
    case _ => true
  }

  lemma ResultsStay(cfg: Config, reqs: Requests, steps: seq<Step>, c: nat, v: Value)
    requires |steps| > 0 && c < |reqs|
    ensures OwnResult(cfg, reqs, steps[..|steps|-1], c, v) ==> OwnResult(cfg, reqs, steps, c, v)
    ensures StoredResult(cfg, reqs, steps[..|steps|-1], reqs[c].key, v) ==> StoredResult(cfg, reqs, steps, reqs[c].key, v)
  {
    var before, key := steps[..|steps|-1], reqs[c].key;
    if OwnResult(cfg, reqs, before, c, v) {
      var i: nat :| Happened(cfg, reqs, before, i, key) && before[i].c == c && before[i].Handle? && before[i].handler == Ok(v);
      StillHappened(cfg, reqs, steps, i, key);
    }
    if StoredResult(cfg, reqs, before, key, v) {
      var i: nat, hash, bytes :| Produces(cfg, reqs, before, i, key, hash, Some(bytes)) && cfg.unmarshal(bytes) == Ok(v);
      StillHappened(cfg, reqs, steps, i, key);
      assert Produces(cfg, reqs, steps, i, key, hash, Some(bytes));
    }
  }

  // A read that answers its call with a value found the stored response of a handler that ran.
  lemma ReadIsStoredResult(cfg: Config, reqs: Requests, steps: seq<Step>, c: nat, now: int, fault: Option<Error>, v: Value)
    requires c < |reqs| && AfterGet(cfg, Exec(cfg, reqs, steps).rows, reqs[c], now, fault) == Ended(Ok(v))
    ensures StoredResult(cfg, reqs, steps, reqs[c].key, v)
  {
    var key := reqs[c].key;
    var row := Exec(cfg, reqs, steps).rows[key];
    assert row.status == Succeeded && row.response.Some? && cfg.unmarshal(row.response.value) == Ok(v);
    SettledIsSourced(cfg, reqs, steps, key);
    var i := OutcomeHasStep(cfg, reqs, steps, key, ContentOf(row));
    assert Produces(cfg, reqs, steps, i, key, cfg.hash(reqs[steps[i].c].body), Some(row.response.value));
  }

  /** Under every interleaving a call that succeeds is given its own handler's result, or the decoded
      response of a handler that ran for its key. */
  lemma {:induction false} RepliesAreSourced(cfg: Config, reqs: Requests, steps: seq<Step>, c: nat)
    requires c < |reqs|
    ensures Replied(cfg, reqs, steps, c)
  {
    if steps == [] {
    } else {
      var n := |steps| - 1;
      var before, step := Exec(cfg, reqs, steps[..n]), steps[n];
      RepliesAreSourced(cfg, reqs, steps[..n], c);
      forall v { ResultsStay(cfg, reqs, steps, c, v); }
      StepKeepsOthers(cfg, reqs, before, step);
      if Enabled(before, step) && step.c == c {
        match step
        case Get(_, now, fault) =>
          var after := AfterGet(cfg, before.rows, reqs[c], now, fault);
          if after.Ended? && after.result.Ok? {
            ReadIsStoredResult(cfg, reqs, steps[..n], c, now, fault, after.result.value);
          }
        case Handle(_, _, _) => assert Happened(cfg, reqs, steps, n, reqs[c].key);
        case Create(_, _, _) =>
        case Update(_, _) =>
      }
    }
  }

  /** Under every interleaving, a call that reads a succeeded record of its own body hash within its lifetime
      ends with exactly what the stored response decodes to, and there always is one. */
  lemma SucceededReadIsServed(cfg: Config, reqs: Requests, steps: seq<Step>, c: nat, now: int)
    requires c < |reqs|
    requires var s := Exec(cfg, reqs, steps);
             && s.pcs[c].Idle? && reqs[c].key != "" && reqs[c].key in s.rows
             && s.rows[reqs[c].key].status == Succeeded && now <= s.rows[reqs[c].key].expiresAt
             && s.rows[reqs[c].key].requestHash == cfg.hash(reqs[c].body)
    ensures var row, t := Exec(cfg, reqs, steps).rows[reqs[c].key], Exec(cfg, reqs, steps + [Get(c, now, None)]);
            && row.response.Some?
            && t.pcs[c].Ended? && DecodedReply(cfg, row.response.value, t.pcs[c].result)
  {
    var key := reqs[c].key;
    SettledIsSourced(cfg, reqs, steps, key);
    var row := Exec(cfg, reqs, steps).rows[key];
    var i := OutcomeHasStep(cfg, reqs, steps, key, ContentOf(row));
    Extended(cfg, reqs, steps, Get(c, now, None), key);
  }

  // ---- The sequential call is one interleaving ----

  function RequestOf(call: Call): Request { Request(call.key, call.body) }

  function Solo(c: nat, call: Call): seq<Step> {
    [Get(c, call.now, call.getFault), Create(c, call.now, call.create),
     Handle(c, call.later, call.handler), Update(c, call.update)]
  }

  function NextAll(cfg: Config, reqs: Requests, s: State, steps: seq<Step>): (t: State)
    requires |s.pcs| == |reqs|
    ensures |t.pcs| == |reqs|
    decreases |steps|
  {
    if steps == [] then s else NextAll(cfg, reqs, Next(cfg, reqs, s, steps[0]), steps[1..])
  }

  /** The steps of one call taken without interruption do exactly what the sequential Process does:
      same store, same result, and no other call moves. */
  lemma SoloIsSequential(cfg: Config, reqs: Requests, s: State, c: nat, call: Call)
    requires |s.pcs| == |reqs| && c < |reqs| && s.pcs[c].Idle? && reqs[c] == RequestOf(call)
    ensures var served := Serve(cfg, s.rows, call);
            NextAll(cfg, reqs, s, Solo(c, call)) == State(served.rows, s.pcs[c := Ended(served.result)])
  {
    var steps := Solo(c, call);
    var s1 := Next(cfg, reqs, s, steps[0]);
    var s2 := Next(cfg, reqs, s1, steps[1]);
    var s3 := Next(cfg, reqs, s2, steps[2]);
    var s4 := Next(cfg, reqs, s3, steps[3]);
    assert steps[1..][1..] == steps[2..] && steps[2..][1..] == steps[3..] && steps[3..][1..] == [];
    assert NextAll(cfg, reqs, s3, steps[3..]) == s4;
    assert NextAll(cfg, reqs, s2, steps[2..]) == s4;
    assert NextAll(cfg, reqs, s1, steps[1..]) == s4;
  }
}
