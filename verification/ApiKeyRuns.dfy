/** Properties of every run of key creation, revocation and validation from an empty store. */
module ApiKeyRuns {
  import opened AppErrors
  import opened ApiKeys

  datatype Op =
    | Create(creation: Creation)
    | Revoke(id: string, at: int, fault: Option<Error>, write: Write)
    | Check(rawKey: string, at: int, fault: Option<Error>)
  {
    function Now(): int { if Create? then creation.now else at }

    predicate Sane() { Create? && creation.random.Ok? ==> |creation.random.value| == KEY_LENGTH }
  }

  datatype Out = Created(result: Result<NewKey>) | Revoked(error: Option<Error>) | Checked(validation: Validation)

  /** The store, and the raw key that each stored row was created with. */
  datatype World = World(rows: Rows, issued: map<string, string>)

  ghost predicate CreateStep(hash: string -> string, w: World, c: Creation, w': World, out: Out)
    requires c.random.Ok? ==> |c.random.value| == KEY_LENGTH
  {
    var made := NewAPIKey(hash, c);
    var stored := made.Ok? && c.freshID !in w.rows && c.write.Applied();
    && out.Created? && MayCreate(hash, w.rows, c, w'.rows, out.result)
    && w'.issued == (if stored then w.issued[c.freshID := made.value.rawKey] else w.issued)
  }

  // One operation, as the methods of the service guarantee it.
  ghost predicate Step(hash: string -> string, w: World, op: Op, w': World, out: Out)
    requires op.Sane()
  {
    match op
    case Create(c) => CreateStep(hash, w, c, w', out)
    case Revoke(id, now, fault, write) =>
      out.Revoked? && w'.issued == w.issued && MayRevoke(w.rows, id, now, fault, write, w'.rows, out.error)
    case Check(rawKey, now, fault) =>
      out.Checked? && w' == w && MayValidate(hash, w.rows, rawKey, now, fault, out.validation)
  }

  ghost predicate IsRun(hash: string -> string, worlds: seq<World>, ops: seq<Op>, outs: seq<Out>) {
    && |worlds| == |ops| + 1 == |outs| + 1 && worlds[0] == World(map[], map[])
    && (forall i :: 0 <= i < |ops| ==> ops[i].Sane())
    && forall i :: 0 <= i < |ops| ==> Step(hash, worlds[i], ops[i], worlds[i+1], outs[i])
  }

  predicate Accepted(out: Out) { out.Checked? && out.validation.Valid? }

  predicate RevocationReported(out: Out) { out.Revoked? && out.error.None? }

  // Every row fits the raw key it was created with.
  ghost predicate Faithful(hash: string -> string, w: World) {
    && w.rows.Keys == w.issued.Keys
    && forall id :: id in w.rows ==> w.rows[id].id == id && Fits(hash, w.rows[id], w.issued[id])
  }

  // A record without its revocation and update times.
  function Lasting(k: KeyData): KeyData { k.(revokedAt := None, updatedAt := 0) }

  // What no operation changes about a stored key, and what none undoes.
  ghost predicate Persists(w: World, w': World, id: string) {
    id in w.rows && id in w.issued ==>
      && id in w'.rows && id in w'.issued && w'.issued[id] == w.issued[id]
      && Lasting(w'.rows[id]) == Lasting(w.rows[id])
      && (w.rows[id].revokedAt.Some? ==> w'.rows[id].revokedAt.Some?)
  }

  lemma CreateIsFaithful(hash: string -> string, w: World, c: Creation, w': World, out: Out)
    requires (c.random.Ok? ==> |c.random.value| == KEY_LENGTH) && CreateStep(hash, w, c, w', out) && Faithful(hash, w)
    ensures Faithful(hash, w')
    ensures forall id :: Persists(w, w', id)
  {
    if NewAPIKey(hash, c).Ok? { NewKeyFits(hash, c); }
  }

  lemma FitCarriesOver(hash: string -> string, k: KeyData, k': KeyData, rawKey: string)
    requires Fits(hash, k, rawKey) && k'.hash == k.hash && k'.prefix == k.prefix && k'.lastFour == k.lastFour
    ensures Fits(hash, k', rawKey)
  {
  }

  // What revoking does to the rows: at most this one changes, and not in what fits it to its raw key.
  lemma RevokedRows(rows: Rows, id: string, now: int, write: Write)
    requires id in rows && rows[id].id == id
    ensures var rows' := UpdateKey(rows, RevokedAtTime(rows[id], now), write);
            && rows'.Keys == rows.Keys
            && (forall k :: k in rows && k != id ==> rows'[k] == rows[k])
            && (rows'[id] == rows[id] || rows'[id] == RevokedAtTime(rows[id], now))
  {
  }

  lemma RevokeIsFaithful(
    hash: string -> string, w: World, id: string, now: int, fault: Option<Error>, write: Write, w': World,
    err: Option<Error>)
    requires MayRevoke(w.rows, id, now, fault, write, w'.rows, err) && w'.issued == w.issued && Faithful(hash, w)
    ensures Faithful(hash, w')
    ensures forall k :: Persists(w, w', k)
  {
    if FindByID(w.rows, id, fault).Ok? {
      RevokedRows(w.rows, id, now, write);
      FitCarriesOver(hash, w.rows[id], w'.rows[id], w.issued[id]);
    }
  }

  lemma StepIsFaithful(hash: string -> string, w: World, op: Op, w': World, out: Out)
    requires op.Sane() && Step(hash, w, op, w', out) && Faithful(hash, w)
    ensures Faithful(hash, w')
    ensures forall id :: Persists(w, w', id)
  {
    match op
    case Create(c) => CreateIsFaithful(hash, w, c, w', out);
    case Revoke(id, now, fault, write) => RevokeIsFaithful(hash, w, id, now, fault, write, w', out.error);
    case Check(_, _, _) =>
  }

  lemma {:induction false} RunIsFaithful(hash: string -> string, worlds: seq<World>, ops: seq<Op>, outs: seq<Out>, i: nat)
    requires IsRun(hash, worlds, ops, outs) && i <= |ops|
    ensures Faithful(hash, worlds[i])
  {
    if i > 0 {
      RunIsFaithful(hash, worlds, ops, outs, i - 1);
      StepIsFaithful(hash, worlds[i-1], ops[i-1], worlds[i], outs[i-1]);
    }
  }

  lemma {:induction false} KeysPersist(
    hash: string -> string, worlds: seq<World>, ops: seq<Op>, outs: seq<Out>, i: nat, j: nat, id: string)
    requires IsRun(hash, worlds, ops, outs) && i <= j <= |ops|
    ensures Persists(worlds[i], worlds[j], id)
    decreases j
  {
    if i < j {
      KeysPersist(hash, worlds, ops, outs, i, j - 1, id);
      RunIsFaithful(hash, worlds, ops, outs, j - 1);
      StepIsFaithful(hash, worlds[j-1], ops[j-1], worlds[j], outs[j-1]);
      assert Persists(worlds[j-1], worlds[j], id);
    }
  }

  // The keyed hash tells a raw key from every issued one.
  ghost predicate CollisionFree(hash: string -> string, w: World, rawKey: string) {
    forall id :: id in w.issued && hash(w.issued[id]) == hash(rawKey) ==> w.issued[id] == rawKey
  }

  // No raw key was issued twice.
  ghost predicate FreshKeys(w: World) {
    forall i, j :: i in w.issued && j in w.issued && w.issued[i] == w.issued[j] ==> i == j
  }

  lemma JudgedValid(hash: string -> string, answer: Result<KeyData>, rawKey: string, now: int, k: KeyData)
    requires Judge(hash, answer, rawKey, now) == Valid(k)
    ensures answer == Ok(k) && k.hash == hash(rawKey)
    ensures k.revokedAt.None? && (k.expiresAt.Some? ==> now <= k.expiresAt.value)
  {
  }

  lemma AnswerIsStored(rows: Rows, prefix: string, lastFour: string, fault: Option<Error>, k: KeyData)
    requires MayAnswer(rows, prefix, lastFour, fault, Ok(k))
    ensures exists id :: id in rows && rows[id] == k
  {
  }

  lemma ValidMeansOwnRow(hash: string -> string, w: World, rawKey: string, now: int, fault: Option<Error>, k: KeyData)
    requires Faithful(hash, w) && CollisionFree(hash, w, rawKey)
    requires MayValidate(hash, w.rows, rawKey, now, fault, Valid(k))
    ensures k.id in w.rows && k == w.rows[k.id] && k.id in w.issued && w.issued[k.id] == rawKey
    ensures k.revokedAt.None? && (k.expiresAt.Some? ==> now <= k.expiresAt.value)
  {
    var parsed := ParseAPIKey(rawKey).value;
    var lastFour := parsed.suffix[|parsed.suffix|-4..];
    var answer :| MayAnswer(w.rows, parsed.prefix, lastFour, fault, answer) && Valid(k) == Judge(hash, answer, rawKey, now);
    JudgedValid(hash, answer, rawKey, now, k);
    AnswerIsStored(w.rows, parsed.prefix, lastFour, fault, k);
    var id :| id in w.rows && w.rows[id] == k;
    assert Fits(hash, w.rows[id], w.issued[id]);
  }

  lemma AcceptedMeansOwnRow(
    hash: string -> string, worlds: seq<World>, ops: seq<Op>, outs: seq<Out>, j: nat)
    requires IsRun(hash, worlds, ops, outs) && j < |ops| && ops[j].Check? && Accepted(outs[j])
    requires CollisionFree(hash, worlds[j], ops[j].rawKey)
    ensures var k := outs[j].validation.key;
            && k.id in worlds[j].rows && k == worlds[j].rows[k.id]
            && k.id in worlds[j].issued && worlds[j].issued[k.id] == ops[j].rawKey
            && k.revokedAt.None? && (k.expiresAt.Some? ==> ops[j].at <= k.expiresAt.value)
  {
    RunIsFaithful(hash, worlds, ops, outs, j);
    assert Step(hash, worlds[j], ops[j], worlds[j+1], outs[j]);
    ValidMeansOwnRow(hash, worlds[j], ops[j].rawKey, ops[j].at, ops[j].fault, outs[j].validation.key);
  }

  /** Every successful validation returns the stored record that was created with that raw key. */
  lemma ValidationIsSound(
    hash: string -> string, worlds: seq<World>, ops: seq<Op>, outs: seq<Out>, j: nat)
    requires IsRun(hash, worlds, ops, outs) && j < |ops| && ops[j].Check? && Accepted(outs[j])
    requires CollisionFree(hash, worlds[j], ops[j].rawKey)
    ensures var k := outs[j].validation.key;
            && k.id in worlds[j].rows && k == worlds[j].rows[k.id]
            && k.id in worlds[j].issued && worlds[j].issued[k.id] == ops[j].rawKey
  {
    AcceptedMeansOwnRow(hash, worlds, ops, outs, j);
  }

  /** Once a revocation was reported done, the raw key never validates again, whatever other keys
      share its last four characters. */
  lemma RevokedForGood(
    hash: string -> string, worlds: seq<World>, ops: seq<Op>, outs: seq<Out>, i: nat, j: nat)
    requires IsRun(hash, worlds, ops, outs) && i < j < |ops|
    requires ops[i].Revoke? && RevocationReported(outs[i])
    requires ops[j].Check? && ops[i].id in worlds[j].issued && worlds[j].issued[ops[i].id] == ops[j].rawKey
    requires FreshKeys(worlds[j]) && CollisionFree(hash, worlds[j], ops[j].rawKey)
    ensures !Accepted(outs[j])
  {
    var id := ops[i].id;
    RunIsFaithful(hash, worlds, ops, outs, i);
    RunIsFaithful(hash, worlds, ops, outs, i + 1);
    assert Step(hash, worlds[i], ops[i], worlds[i+1], outs[i]);
    assert id in worlds[i+1].rows && worlds[i+1].rows[id].revokedAt.Some?;
    KeysPersist(hash, worlds, ops, outs, i + 1, j, id);
    if Accepted(outs[j]) {
      AcceptedMeansOwnRow(hash, worlds, ops, outs, j);
    }
  }

  ghost predicate ClockMonotone(ops: seq<Op>) {
    forall i, j :: 0 <= i <= j < |ops| ==> ops[i].Now() <= ops[j].Now()
  }

  /** Once a key's expiry has passed, with a clock that does not go back, it never validates again. */
  lemma ExpiredForGood(
    hash: string -> string, worlds: seq<World>, ops: seq<Op>, outs: seq<Out>, i: nat, j: nat, id: string)
    requires IsRun(hash, worlds, ops, outs) && i <= j < |ops| && ClockMonotone(ops) && id in worlds[i].rows
    requires worlds[i].rows[id].expiresAt.Some? && ops[i].Now() > worlds[i].rows[id].expiresAt.value
    requires ops[j].Check? && id in worlds[j].issued && worlds[j].issued[id] == ops[j].rawKey
    requires FreshKeys(worlds[j]) && CollisionFree(hash, worlds[j], ops[j].rawKey)
    ensures !Accepted(outs[j])
  {
    RunIsFaithful(hash, worlds, ops, outs, i);
    KeysPersist(hash, worlds, ops, outs, i, j, id);
    assert ops[i].Now() <= ops[j].Now();
    if Accepted(outs[j]) {
      AcceptedMeansOwnRow(hash, worlds, ops, outs, j);
    }
  }

  ghost predicate OnlyOneWithSuffix(rows: Rows, id: string)
    requires id in rows
  {
    forall other :: other in rows && SharesSuffix(rows[other], rows[id].prefix, rows[id].lastFour) ==> other == id
  }

  lemma UniqueAnswer(hash: string -> string, w: World, id: string, now: int, r: Validation)
    requires Faithful(hash, w) && id in w.rows && OnlyOneWithSuffix(w.rows, id)
    requires var k := w.rows[id]; k.revokedAt.None? && (k.expiresAt.Some? ==> now <= k.expiresAt.value)
    requires MayValidate(hash, w.rows, w.issued[id], now, None, r)
    ensures r == Valid(w.rows[id])
  {
    var parsed := ParseAPIKey(w.issued[id]).value;
    var lastFour := parsed.suffix[|parsed.suffix|-4..];
    var answer :| MayAnswer(w.rows, parsed.prefix, lastFour, None, answer) && r == Judge(hash, answer, w.issued[id], now);
    assert SharesSuffix(w.rows[id], parsed.prefix, lastFour);
  }

  lemma AnyAnswer(hash: string -> string, w: World, id: string, other: string, now: int)
    requires Faithful(hash, w) && id in w.rows && other in w.rows
    requires SharesSuffix(w.rows[other], w.rows[id].prefix, w.rows[id].lastFour)
    ensures MayValidate(hash, w.rows, w.issued[id], now, None, Judge(hash, Ok(w.rows[other]), w.issued[id], now))
  {
    var parsed := ParseAPIKey(w.issued[id]).value;
    var lastFour := parsed.suffix[|parsed.suffix|-4..];
    assert MayAnswer(w.rows, parsed.prefix, lastFour, None, Ok(w.rows[other]));
  }

  /** Authentication agrees with issuance, exactly: an issued, unrevoked, unexpired raw key is sure to
      validate to its own record if and only if no other stored key shares its prefix and last four. */
  lemma AuthenticatesExactly(
    hash: string -> string, worlds: seq<World>, ops: seq<Op>, outs: seq<Out>, i: nat, id: string, now: int)
    requires IsRun(hash, worlds, ops, outs) && i <= |ops| && id in worlds[i].rows && id in worlds[i].issued
    requires FreshKeys(worlds[i]) && CollisionFree(hash, worlds[i], worlds[i].issued[id])
    requires var k := worlds[i].rows[id]; k.revokedAt.None? && (k.expiresAt.Some? ==> now <= k.expiresAt.value)
    ensures var w := worlds[i];
            (forall r :: MayValidate(hash, w.rows, w.issued[id], now, None, r) ==> r == Valid(w.rows[id]))
              <==> OnlyOneWithSuffix(w.rows, id)
  {
    var w := worlds[i];
    var raw := w.issued[id];
    RunIsFaithful(hash, worlds, ops, outs, i);
    if OnlyOneWithSuffix(w.rows, id) {
      forall r | MayValidate(hash, w.rows, raw, now, None, r) ensures r == Valid(w.rows[id]) {
        UniqueAnswer(hash, w, id, now, r);
      }
    } else {
      var other :| other in w.rows && SharesSuffix(w.rows[other], w.rows[id].prefix, w.rows[id].lastFour) && other != id;
      AnyAnswer(hash, w, id, other, now);
      var r := Judge(hash, Ok(w.rows[other]), raw, now);
      assert r != Valid(w.rows[id]);
    }
  }

  // ---- From the request for a key to the validation of its raw key ----

  /** A raw key that was handed out belongs, for the rest of the run, to a record with the owner, name, scopes,
      creation time and expiry that its creation asked for. */
  lemma HandedOut(
    hash: string -> string, worlds: seq<World>, ops: seq<Op>, outs: seq<Out>, i: nat, j: nat)
    requires IsRun(hash, worlds, ops, outs) && i < j <= |ops|
    requires ops[i].Create? && outs[i].Created? && outs[i].result.Ok?
    ensures var c, w := ops[i].creation, worlds[j];
            && c.freshID in w.rows && c.freshID in w.issued && w.issued[c.freshID] == outs[i].result.value.rawKey
            && var k := w.rows[c.freshID];
               && k.customerID == c.customerID && k.name == c.name && k.scopes == c.scopes && k.createdAt == c.now
               && (c.expiresAt.None? ==> k.expiresAt.None?)
               && (c.expiresAt.Some? ==> k.expiresAt == Some(c.expiresAt.value * 1_000_000_000))
  {
    var c := ops[i].creation;
    assert Step(hash, worlds[i], ops[i], worlds[i+1], outs[i]);
    MadeAsRequested(hash, c);
    assert worlds[i+1].rows[c.freshID] == NewAPIKey(hash, c).value.data;
    KeysPersist(hash, worlds, ops, outs, i + 1, j, c.freshID);
  }

  /** A raw key handed out with an expiry is never accepted after that second, revoked or not. */
  lemma NeverAfterRequestedExpiry(
    hash: string -> string, worlds: seq<World>, ops: seq<Op>, outs: seq<Out>, i: nat, j: nat)
    requires IsRun(hash, worlds, ops, outs) && i < j < |ops|
    requires ops[i].Create? && outs[i].Created? && outs[i].result.Ok? && ops[i].creation.expiresAt.Some?
    requires ops[j].Check? && ops[j].rawKey == outs[i].result.value.rawKey
    requires ops[j].at > ops[i].creation.expiresAt.value * 1_000_000_000
    requires FreshKeys(worlds[j]) && CollisionFree(hash, worlds[j], ops[j].rawKey)
    ensures !Accepted(outs[j])
  {
    HandedOut(hash, worlds, ops, outs, i, j);
    if Accepted(outs[j]) { AcceptedMeansOwnRow(hash, worlds, ops, outs, j); }
  }

  /** While its record is unrevoked and alone with its prefix and last four characters, a raw key that was handed
      out is accepted, as its own record, exactly up to the requested expiry. */
  lemma AcceptedUpToRequestedExpiry(
    hash: string -> string, worlds: seq<World>, ops: seq<Op>, outs: seq<Out>, i: nat, j: nat)
    requires IsRun(hash, worlds, ops, outs) && i < j < |ops|
    requires ops[i].Create? && outs[i].Created? && outs[i].result.Ok?
    requires ops[j].Check? && ops[j].rawKey == outs[i].result.value.rawKey && ops[j].fault.None?
    requires ops[i].creation.freshID in worlds[j].rows && worlds[j].rows[ops[i].creation.freshID].revokedAt.None?
    requires OnlyOneWithSuffix(worlds[j].rows, ops[i].creation.freshID)
    requires FreshKeys(worlds[j]) && CollisionFree(hash, worlds[j], ops[j].rawKey)
    ensures var c := ops[i].creation;
            && (Accepted(outs[j]) <==> c.expiresAt.None? || ops[j].at <= c.expiresAt.value * 1_000_000_000)
            && (Accepted(outs[j]) ==> outs[j].validation.key == worlds[j].rows[c.freshID])
  {
    var c := ops[i].creation;
    HandedOut(hash, worlds, ops, outs, i, j);
    RunIsFaithful(hash, worlds, ops, outs, j);
    assert Step(hash, worlds[j], ops[j], worlds[j+1], outs[j]);
    if c.expiresAt.None? || ops[j].at <= c.expiresAt.value * 1_000_000_000 {
      UniqueAnswer(hash, worlds[j], c.freshID, ops[j].at, outs[j].validation);
    } else {
      NeverAfterRequestedExpiry(hash, worlds, ops, outs, i, j);
    }
  }
}
