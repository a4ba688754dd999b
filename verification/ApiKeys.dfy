/** API keys: generation, parsing and validation, the key store and the authentication service. */
module ApiKeys {
  import opened AppErrors

  const PREFIX_LIVE := "sk_live_"
  const PREFIX_TEST := "sk_test_"
  const KEY_LENGTH: nat := 32

  type Byte = x: int | 0 <= x < 256

  predicate KnownPrefix(prefix: string) { prefix == PREFIX_LIVE || prefix == PREFIX_TEST }

  function HexDigit(n: int): char
    requires 0 <= n < 16
  {
    "0123456789abcdef"[n]
  }

  function Hex(bytes: seq<Byte>): (s: string)
    ensures |s| == 2 * |bytes|
  {
    if bytes == [] then "" else [HexDigit(bytes[0] / 16), HexDigit(bytes[0] % 16)] + Hex(bytes[1..])
  }

  predicate IsHexDigit(c: char) { '0' <= c <= '9' || 'a' <= c <= 'f' }

  function Nibble(c: char): int {
    if c <= '9' then c as int - '0' as int else c as int - 'a' as int + 10
  }

  function Unhex(s: string): seq<int> {
    if |s| < 2 then [] else [16 * Nibble(s[0]) + Nibble(s[1])] + Unhex(s[2..])
  }

  lemma NibbleOfDigit(n: int)
    requires 0 <= n < 16
    ensures Nibble(HexDigit(n)) == n && IsHexDigit(HexDigit(n))
  {
  }

  lemma UnhexStep(a: char, b: char, s: string)
    ensures Unhex([a, b] + s) == [16 * Nibble(a) + Nibble(b)] + Unhex(s)
  {
    assert ([a, b] + s)[2..] == s;
  }

  /** The text is lower-case hexadecimal and decodes to the bytes. */
  lemma {:induction false} HexDecodes(bytes: seq<Byte>)
    ensures Unhex(Hex(bytes)) == bytes
    ensures forall i :: 0 <= i < |Hex(bytes)| ==> IsHexDigit(Hex(bytes)[i])
  {
    if bytes == [] {
    } else {
      var high, low := bytes[0] / 16, bytes[0] % 16;
      HexDecodes(bytes[1..]);
      NibbleOfDigit(high);
      NibbleOfDigit(low);
      UnhexStep(HexDigit(high), HexDigit(low), Hex(bytes[1..]));
    }
  }

  lemma HexInjective(a: seq<Byte>, b: seq<Byte>)
    requires Hex(a) == Hex(b)
    ensures a == b
  {
    HexDecodes(a);
    HexDecodes(b);
  }

  datatype Generated = Generated(key: string, suffix: string)

  function GenerateAPIKey(prefix: string, random: Result<seq<Byte>>): Result<Generated> {
    if !KnownPrefix(prefix) then Err(Plain("invalid API key prefix"))
    else if random.Err? then Err(random.error)
    else
      var key := prefix + Hex(random.value);
      Ok(Generated(key, key[|prefix|..]))
  }

  datatype Parsed = Parsed(prefix: string, suffix: string)

  function ParseAPIKey(rawKey: string): Result<Parsed> {
    if PREFIX_LIVE <= rawKey then Ok(Parsed(PREFIX_LIVE, rawKey[|PREFIX_LIVE|..]))
    else if PREFIX_TEST <= rawKey then Ok(Parsed(PREFIX_TEST, rawKey[|PREFIX_TEST|..]))
    else Err(Plain("invalid API key format"))
  }

  /** A raw key is parsed exactly when it starts with one of the two prefixes, and splits into that and the rest. */
  lemma ParsesExactly(rawKey: string)
    ensures ParseAPIKey(rawKey).Ok? <==> "sk_live_" <= rawKey || "sk_test_" <= rawKey
    ensures ParseAPIKey(rawKey).Ok? ==>
      var p := ParseAPIKey(rawKey).value; p.prefix in {"sk_live_", "sk_test_"} && p.prefix + p.suffix == rawKey
  {
  }

  /** Parsing undoes generation, and distinct random bytes give distinct keys. */
  lemma ParseAfterGenerate(prefix: string, bytes: seq<Byte>)
    requires KnownPrefix(prefix)
    ensures var g := GenerateAPIKey(prefix, Ok(bytes)).value;
            ParseAPIKey(g.key) == Ok(Parsed(prefix, g.suffix)) && g.suffix == Hex(bytes)
  {
    var key := prefix + Hex(bytes);
    assert key[..8] == prefix;
    assert key[3] == prefix[3];
  }

  lemma GenerateInjective(prefix: string, bytes: seq<Byte>, prefix': string, bytes': seq<Byte>)
    requires KnownPrefix(prefix) && KnownPrefix(prefix')
    requires GenerateAPIKey(prefix, Ok(bytes)).value.key == GenerateAPIKey(prefix', Ok(bytes')).value.key
    ensures prefix == prefix' && bytes == bytes'
  {
    ParseAfterGenerate(prefix, bytes);
    ParseAfterGenerate(prefix', bytes');
    HexInjective(bytes, bytes');
  }

  /** The stored value of a key; times are instants in nanoseconds. */
  datatype KeyData = KeyData(
    id: string, customerID: string, name: string, prefix: string, hash: string, lastFour: string,
    scopes: seq<string>, expiresAt: Option<int>, revokedAt: Option<int>, createdAt: int, updatedAt: int)

  function RevokedAtTime(k: KeyData, now: int): KeyData {
    k.(revokedAt := Some(now), updatedAt := now)
  }

  class APIKey {
    var id: string
    var customerID: string
    var name: string
    var prefix: string
    var keyHash: string
    var lastFour: string
    var scopes: seq<string>
    var expiresAt: Option<int>
    var revokedAt: Option<int>
    var createdAt: int
    var updatedAt: int

    function Data(): KeyData
      reads this
    {
      KeyData(id, customerID, name, prefix, keyHash, lastFour, scopes, expiresAt, revokedAt, createdAt, updatedAt)
    }

    constructor (data: KeyData)
      ensures Data() == data
    {
      id, customerID, name, prefix := data.id, data.customerID, data.name, data.prefix;
      keyHash, lastFour, scopes := data.hash, data.lastFour, data.scopes;
      expiresAt, revokedAt := data.expiresAt, data.revokedAt;
      createdAt, updatedAt := data.createdAt, data.updatedAt;
    }

    method Revoke(now: int)
      modifies this
      ensures Data() == RevokedAtTime(old(Data()), now)
    {
      revokedAt := Some(now);
      updatedAt := now;
    }
  }

  datatype Failure = KeyRevoked | KeyExpired | KeyInvalid

  function Validate(hash: string -> string, k: KeyData, rawKey: string, now: int): Option<Failure> {
    if k.revokedAt.Some? then Some(KeyRevoked)
    else if k.expiresAt.Some? && now > k.expiresAt.value then Some(KeyExpired)
    else if k.hash != hash(rawKey) then Some(KeyInvalid)
    else None
  }

  type Rows = map<string, KeyData>

  predicate SharesSuffix(k: KeyData, prefix: string, lastFour: string) {
    k.prefix == prefix && k.lastFour == lastFour
  }

  // What a lookup by prefix and last four characters may answer: some matching row, if there is one.
  ghost predicate MayAnswer(rows: Rows, prefix: string, lastFour: string, fault: Option<Error>, r: Result<KeyData>) {
    if fault.Some? then r == Err(Wrapped(DatabaseError, "get api key", fault.value))
    else if exists id :: id in rows && SharesSuffix(rows[id], prefix, lastFour) then
      exists id :: id in rows && SharesSuffix(rows[id], prefix, lastFour) && r == Ok(rows[id])
    else r == Err(App(NotFound, "api key not found"))
  }

  function InsertKey(rows: Rows, k: KeyData, write: Write): Rows {
    if k.id !in rows && write.Applied() then rows[k.id := k] else rows
  }

  // The columns that an update writes; the hash and the owner are not among them.
  function UpdateKey(rows: Rows, k: KeyData, write: Write): Rows {
    if k.id in rows && write.Applied()
    then rows[k.id := rows[k.id].(name := k.name, scopes := k.scopes, expiresAt := k.expiresAt,
                                  revokedAt := k.revokedAt, updatedAt := k.updatedAt)]
    else rows
  }

  function InsertKeyError(rows: Rows, k: KeyData, write: Write): Option<Error> {
    if k.id in rows then Some(App(DatabaseError, "create api key"))
    else if write.Done? then None
    else Some(Wrapped(DatabaseError, "create api key", write.cause))
  }

  function UpdateError(write: Write): Option<Error> {
    if write.Done? then None else Some(Wrapped(DatabaseError, "update api key", write.cause))
  }

  function FindByID(rows: Rows, id: string, fault: Option<Error>): Result<KeyData> {
    if fault.Some? then Err(Wrapped(DatabaseError, "get api key by id", fault.value))
    else if id !in rows then Err(App(NotFound, "api key not found"))
    else Ok(rows[id])
  }

  class APIKeyStore {
    var rows: Rows

    constructor ()
      ensures rows == map[]
    {
      rows := map[];
    }

    method GetByPrefixAndSuffix(prefix: string, suffix: string, fault: Option<Error>) returns (r: Result<KeyData>)
      ensures MayAnswer(rows, prefix, suffix, fault, r)
    {
      if fault.Some? {
        return Err(Wrapped(DatabaseError, "get api key", fault.value));
      }
      if id :| id in rows && SharesSuffix(rows[id], prefix, suffix) {
        return Ok(rows[id]);
      }
      r := Err(App(NotFound, "api key not found"));
    }

    method GetByID(id: string, fault: Option<Error>) returns (r: Result<KeyData>)
      ensures r == FindByID(rows, id, fault)
    {
      if fault.Some? {
        return Err(Wrapped(DatabaseError, "get api key by id", fault.value));
      }
      if id !in rows {
        return Err(App(NotFound, "api key not found"));
      }
      r := Ok(rows[id]);
    }

    method Create(key: APIKey, write: Write) returns (err: Option<Error>)
      modifies this
      ensures rows == InsertKey(old(rows), key.Data(), write)
      ensures err == InsertKeyError(old(rows), key.Data(), write)
    {
      if key.id in rows {
        return Some(App(DatabaseError, "create api key"));
      }
      rows := InsertKey(rows, key.Data(), write);
      err := if write.Done? then None else Some(Wrapped(DatabaseError, "create api key", write.cause));
    }

    method Update(key: APIKey, write: Write) returns (err: Option<Error>)
      modifies this
      ensures rows == UpdateKey(old(rows), key.Data(), write)
      ensures err == UpdateError(write)
    {
      rows := UpdateKey(rows, key.Data(), write);
      err := UpdateError(write);
    }
  }

  /** The result of ValidateAPIKey; a suffix shorter than four characters makes its slice panic. */
  datatype Validation = Valid(key: KeyData) | Refused(error: Error) | Panicked

  function Judge(hash: string -> string, answer: Result<KeyData>, rawKey: string, now: int): Validation {
    match answer
    case Err(e) => Refused(if e.IsCode(NotFound) then App(InvalidAPIKey, "invalid api key") else e)
    case Ok(k) =>
      match Validate(hash, k, rawKey, now)
      case None => Valid(k)
      case Some(KeyRevoked) => Refused(App(APIKeyRevoked, "api key has been revoked"))
      case Some(KeyExpired) => Refused(App(APIKeyExpired, "api key has expired"))
      case Some(KeyInvalid) => Refused(App(InvalidAPIKey, "invalid api key"))
  }

  ghost predicate MayValidate(
    hash: string -> string, rows: Rows, rawKey: string, now: int, fault: Option<Error>, r: Validation)
  {
    var parsed := ParseAPIKey(rawKey);
    if parsed.Err? then r == Refused(Wrapped(InvalidAPIKey, "invalid api key format", parsed.error)) else
      var suffix := parsed.value.suffix;
      if |suffix| < 4 then r == Panicked else
        exists answer :: MayAnswer(rows, parsed.value.prefix, suffix[|suffix|-4..], fault, answer)
                      && r == Judge(hash, answer, rawKey, now)
  }

  /** What is needed to create a key: the request, the random source, the clock and the store's answer. */
  datatype Creation = Creation(
    customerID: string, name: string, prefix: string, scopes: seq<string>, expiresAt: Option<int>,
    random: Result<seq<Byte>>, freshID: string, now: int, write: Write)

  datatype NewKey = NewKey(data: KeyData, rawKey: string)

  const NANOSECONDS: int := 1_000_000_000

  // NewAPIKey, with an expiry given in Unix seconds.
  function NewAPIKey(hash: string -> string, c: Creation): (r: Result<NewKey>)
    requires c.random.Ok? ==> |c.random.value| == KEY_LENGTH
  {
    if c.customerID == "" then Err(Plain("invalid API key\ncustomer ID is required"))
    else if c.name == "" then Err(Plain("invalid API key\nname is required"))
    else
      var generated := GenerateAPIKey(c.prefix, c.random);
      if generated.Err? then Err(generated.error) else
        var key, suffix := generated.value.key, generated.value.suffix;
        var expiresAt := if c.expiresAt.Some? then Some(c.expiresAt.value * NANOSECONDS) else None;
        Ok(NewKey(KeyData(c.freshID, c.customerID, c.name, c.prefix, hash(key), suffix[|suffix|-4..], c.scopes,
                          expiresAt, None, c.now, c.now), key))
  }

  // The raw key is handed out exactly when its record was stored and the store said so.
  ghost predicate MayCreate(hash: string -> string, rows: Rows, c: Creation, rows': Rows, r: Result<NewKey>)
    requires c.random.Ok? ==> |c.random.value| == KEY_LENGTH
  {
    var made := NewAPIKey(hash, c);
    && rows' == (if made.Ok? then InsertKey(rows, made.value.data, c.write) else rows)
    && (r.Ok? <==> made.Ok? && c.freshID !in rows && c.write.Done?)
    && (r.Ok? ==> r == made)
  }

  // What the caller of a creation is told.
  function CreateReply(hash: string -> string, rows: Rows, c: Creation): Result<NewKey>
    requires c.random.Ok? ==> |c.random.value| == KEY_LENGTH
  {
    var made := NewAPIKey(hash, c);
    if made.Err? then Err(Wrapped(ValidationFailed, "create api key", made.error)) else
      var err := InsertKeyError(rows, made.value.data, c.write);
      if err.Some? then Err(Wrapped(DatabaseError, "store api key", err.value)) else made
  }

  // What the caller of a revocation is told.
  function RevokeReply(rows: Rows, id: string, fault: Option<Error>, write: Write): Option<Error> {
    var found := FindByID(rows, id, fault);
    if found.Err? then
      Some(Wrapped(if found.error.IsCode(NotFound) then NotFound else DatabaseError, "get api key", found.error))
    else if UpdateError(write).Some? then Some(Wrapped(DatabaseError, "revoke api key", UpdateError(write).value))
    else None
  }

  ghost predicate MayRevoke(
    rows: Rows, id: string, now: int, fault: Option<Error>, write: Write, rows': Rows, err: Option<Error>)
  {
    var found := FindByID(rows, id, fault);
    && rows' == (if found.Ok? then UpdateKey(rows, RevokedAtTime(found.value, now), write) else rows)
    && (err.None? <==> found.Ok? && write.Done?)
  }

  // The row fits the raw key: hash, prefix and last four characters.
  ghost predicate Fits(hash: string -> string, k: KeyData, rawKey: string) {
    var parsed := ParseAPIKey(rawKey);
    && k.hash == hash(rawKey)
    && parsed.Ok? && |parsed.value.suffix| >= 4
    && SharesSuffix(k, parsed.value.prefix, parsed.value.suffix[|parsed.value.suffix|-4..])
  }

  /** A new key's record fits its raw key, so parsing the raw key leads back to it. */
  lemma NewKeyFits(hash: string -> string, c: Creation)
    requires c.random.Ok? ==> |c.random.value| == KEY_LENGTH
    requires NewAPIKey(hash, c).Ok?
    ensures var made := NewAPIKey(hash, c).value;
            Fits(hash, made.data, made.rawKey) && made.data.id == c.freshID && made.data.revokedAt.None?
  {
    ParseAfterGenerate(c.prefix, c.random.value);
  }

  /** A key is made exactly for a named key of a customer with a known prefix, when there is randomness; its
      record holds what the request says, and its expiry is the requested second, or none. */
  lemma MadeAsRequested(hash: string -> string, c: Creation)
    requires c.random.Ok? ==> |c.random.value| == KEY_LENGTH
    ensures NewAPIKey(hash, c).Ok?
       <==> c.customerID != "" && c.name != "" && c.prefix in {"sk_live_", "sk_test_"} && c.random.Ok?
    ensures NewAPIKey(hash, c).Ok? ==>
      var k, rawKey := NewAPIKey(hash, c).value.data, NewAPIKey(hash, c).value.rawKey;
      && rawKey == c.prefix + Hex(c.random.value) && |rawKey| == 72
      && k.id == c.freshID && k.customerID == c.customerID && k.name == c.name && k.scopes == c.scopes
      && k.prefix == c.prefix && k.hash == hash(rawKey) && k.lastFour == rawKey[68..]
      && k.createdAt == k.updatedAt == c.now && k.revokedAt.None?
      && (c.expiresAt.None? ==> k.expiresAt.None?)
      && (c.expiresAt.Some? ==> k.expiresAt == Some(c.expiresAt.value * 1_000_000_000))
  {
  }

  ghost predicate RefusedWith(r: Validation, c: Code) { r.Refused? && r.error.IsCode(c) }

  // What a stored record makes of a raw key: revocation comes before expiry, and expiry before the hash.
  ghost predicate Verdict(hash: string -> string, k: KeyData, rawKey: string, now: int, r: Validation) {
    if k.revokedAt.Some? then RefusedWith(r, APIKeyRevoked)
    else if k.expiresAt.Some? && now > k.expiresAt.value then RefusedWith(r, APIKeyExpired)
    else if k.hash != hash(rawKey) then RefusedWith(r, InvalidAPIKey)
    else r == Valid(k)
  }

  lemma StartsWith(prefix: string, s: string)
    ensures prefix <= s <==> |s| >= |prefix| && s[..|prefix|] == prefix
  {
  }

  // The prefix and the last four characters by which a raw key's record is looked up.
  lemma LookedUpBy(rawKey: string)
    ensures ParseAPIKey(rawKey).Ok? <==> |rawKey| >= 8 && rawKey[..8] in {"sk_live_", "sk_test_"}
    ensures ParseAPIKey(rawKey).Ok? ==>
      var p := ParseAPIKey(rawKey).value;
      && p.prefix == rawKey[..8] && |p.suffix| == |rawKey| - 8
      && (|rawKey| >= 12 ==> p.suffix[|p.suffix|-4..] == rawKey[|rawKey|-4..])
  {
    StartsWith(PREFIX_LIVE, rawKey);
    StartsWith(PREFIX_TEST, rawKey);
  }

  lemma JudgedByRow(hash: string -> string, k: KeyData, rawKey: string, now: int)
    ensures Verdict(hash, k, rawKey, now, Judge(hash, Ok(k), rawKey, now))
  {
  }

  // What a lookup that came to this answer makes of the key.
  lemma EachAnswer(
    hash: string -> string, rows: Rows, prefix: string, lastFour: string, rawKey: string, now: int,
    fault: Option<Error>, answer: Result<KeyData>)
    requires MayAnswer(rows, prefix, lastFour, fault, answer)
    ensures var r := Judge(hash, answer, rawKey, now);
            if fault.Some? then RefusedWith(r, DatabaseError)
            else if forall id :: id in rows ==> !SharesSuffix(rows[id], prefix, lastFour) then RefusedWith(r, InvalidAPIKey)
            else exists id :: id in rows && SharesSuffix(rows[id], prefix, lastFour) && Verdict(hash, rows[id], rawKey, now, r)
  {
    if answer.Ok? {
      JudgedByRow(hash, answer.value, rawKey, now);
      var id :| id in rows && SharesSuffix(rows[id], prefix, lastFour) && answer == Ok(rows[id]);
      assert Verdict(hash, rows[id], rawKey, now, Judge(hash, answer, rawKey, now));
    }
  }

  /** What every validation comes to: an unknown format, a key too short to slice, a failing store, no record with
      that prefix and last four characters, or the verdict of one that has them. */
  lemma EachRefusal(hash: string -> string, rows: Rows, rawKey: string, now: int, fault: Option<Error>, r: Validation)
    requires MayValidate(hash, rows, rawKey, now, fault, r)
    ensures if |rawKey| < 8 || rawKey[..8] !in {"sk_live_", "sk_test_"} then RefusedWith(r, InvalidAPIKey)
            else if |rawKey| < 12 then r == Panicked
            else if fault.Some? then RefusedWith(r, DatabaseError)
            else if forall id :: id in rows ==> !SharesSuffix(rows[id], rawKey[..8], rawKey[|rawKey|-4..]) then
              RefusedWith(r, InvalidAPIKey)
            else exists id :: id in rows && SharesSuffix(rows[id], rawKey[..8], rawKey[|rawKey|-4..])
                   && Verdict(hash, rows[id], rawKey, now, r)
  {
    LookedUpBy(rawKey);
    if ParseAPIKey(rawKey).Ok? && |rawKey| >= 12 {
      var prefix, lastFour := rawKey[..8], rawKey[|rawKey|-4..];
      var answer :| MayAnswer(rows, prefix, lastFour, fault, answer) && r == Judge(hash, answer, rawKey, now);
      EachAnswer(hash, rows, prefix, lastFour, rawKey, now, fault, answer);
    }
  }

  /** What every creation and every revocation is told, with the code of each failure. */
  lemma EachReply(hash: string -> string, rows: Rows, c: Creation, id: string, fault: Option<Error>, write: Write)
    requires c.random.Ok? ==> |c.random.value| == KEY_LENGTH
    ensures var r := CreateReply(hash, rows, c);
            if c.customerID == "" || c.name == "" || c.prefix !in {"sk_live_", "sk_test_"} || c.random.Err? then
              r.Err? && r.error.IsCode(ValidationFailed)
            else if c.freshID in rows || !c.write.Done? then r.Err? && r.error.IsCode(DatabaseError)
            else r == NewAPIKey(hash, c)
    ensures var err := RevokeReply(rows, id, fault, write);
            if fault.Some? then err.Some? && err.value.IsCode(DatabaseError)
            else if id !in rows then err.Some? && err.value.IsCode(NotFound)
            else if !write.Done? then err.Some? && err.value.IsCode(DatabaseError)
            else err.None?
  {
    MadeAsRequested(hash, c);
  }

  class Service {
    const hash: string -> string
    const store: APIKeyStore

    constructor (hash: string -> string, store: APIKeyStore)
      ensures this.hash == hash && this.store == store
    {
      this.hash, this.store := hash, store;
    }

    method ValidateAPIKey(rawKey: string, now: int, fault: Option<Error>) returns (r: Validation)
      ensures MayValidate(hash, store.rows, rawKey, now, fault, r)
    {
      var parsed := ParseAPIKey(rawKey);
      if parsed.Err? {
        return Refused(Wrapped(InvalidAPIKey, "invalid api key format", parsed.error));
      }
      var suffix := parsed.value.suffix;
      if |suffix| < 4 {
        return Panicked;
      }
      var answer := store.GetByPrefixAndSuffix(parsed.value.prefix, suffix[|suffix|-4..], fault);
      assert MayValidate(hash, store.rows, rawKey, now, fault, Judge(hash, answer, rawKey, now));
      if answer.Err? {
        if answer.error.IsCode(NotFound) {
          return Refused(App(InvalidAPIKey, "invalid api key"));
        }
        return Refused(answer.error);
      }
      var failure := Validate(hash, answer.value, rawKey, now);
      if failure == Some(KeyRevoked) {
        return Refused(App(APIKeyRevoked, "api key has been revoked"));
      }
      if failure == Some(KeyExpired) {
        return Refused(App(APIKeyExpired, "api key has expired"));
      }
      if failure.Some? {
        return Refused(App(InvalidAPIKey, "invalid api key"));
      }
      r := Valid(answer.value);
    }

    method CreateAPIKey(c: Creation) returns (r: Result<NewKey>)
      requires c.random.Ok? ==> |c.random.value| == KEY_LENGTH
      modifies store
      ensures MayCreate(hash, old(store.rows), c, store.rows, r)
      ensures r == CreateReply(hash, old(store.rows), c)
    {
      var made := NewAPIKey(hash, c);
      if made.Err? {
        return Err(Wrapped(ValidationFailed, "create api key", made.error));
      }
      var key := new APIKey(made.value.data);
      var err := store.Create(key, c.write);
      if err.Some? {
        return Err(Wrapped(DatabaseError, "store api key", err.value));
      }
      r := Ok(NewKey(key.Data(), made.value.rawKey));
    }

    method RevokeAPIKey(id: string, now: int, fault: Option<Error>, write: Write) returns (err: Option<Error>)
      modifies store
      ensures MayRevoke(old(store.rows), id, now, fault, write, store.rows, err)
      ensures err == RevokeReply(old(store.rows), id, fault, write)
    {
      var found := store.GetByID(id, fault);
      if found.Err? {
        if found.error.IsCode(NotFound) {
          return Some(Wrapped(NotFound, "get api key", found.error));
        }
        return Some(Wrapped(DatabaseError, "get api key", found.error));
      }
      var key := new APIKey(found.value);
      key.Revoke(now);
      err := store.Update(key, write);
      if err.Some? {
        return Some(Wrapped(DatabaseError, "revoke api key", err.value));
      }
      err := None;
    }
  }
}
