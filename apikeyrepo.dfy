/** The API-key repository the authentication middleware uses
    (src/repositories/apiKey/index.ts): lookups, creation, revocation, regeneration,
    last-used stamping and the three ordered checks of key validation. */
module ApiKeyRepository {
  import opened JsSemantics
  import opened Errors
  import opened ApiKeyStore
  import Ordering
  import IpHelpers

  const INVALID_KEY := "Invalid API key"
  const EXPIRED_KEY := "API key has expired"
  const IP_REFUSED := "IP address not allowed for this API key"
  const REVOKE_MISSING := "API key not found or already revoked"
  const REGENERATE_MISSING := "API key not found"

  function NotFoundById(keyId: string): Thrown
  {
    Raise("API key with id " + keyId + " not found", 404)
  }

  /** The result of the three ordered checks of `validateApiKey`, on the row found. */
  datatype Verdict =
    | Unknown
    | Expired(row: ApiKey)
    | IpRefused(row: ApiKey)
    | Accepted(row: ApiKey)

  /** The restriction list consulted at all: present, non-empty, and an IP given. */
  predicate Restricts(restrictions: Option<seq<string>>, ip: Option<string>)
  {
    restrictions.Some? && |restrictions.value| > 0 && ip.Some? && ip.value != ""
  }

  /** An entry admits the IP as an exact string or as a range containing it. */
  predicate ExactOrCidr(entry: string, ip: string)
  {
    entry == ip || IpHelpers.IsIpInCidr(ip, entry)
  }

  /** The restriction check of this repository: exact match or CIDR containment by some entry. */
  predicate IpAllowed(restrictions: Option<seq<string>>, ip: Option<string>)
  {
    !Restricts(restrictions, ip) ||
    exists i :: 0 <= i < |restrictions.value| && ExactOrCidr(restrictions.value[i], ip.value)
  }

  /** The outcome of validating `keyValue` against the table at time `now`: the key is
      looked up among active rows, then the expiry is checked, then the IP. */
  function Check(rows: seq<ApiKey>, keyValue: string, ip: Option<string>, now: int): (v: Verdict)
    ensures v.Unknown? <==> FirstMatch(rows, ActiveKey(keyValue)).None?
    ensures !v.Unknown? ==> v.row == FirstMatch(rows, ActiveKey(keyValue)).value
    ensures v.Expired? <==> !v.Unknown? && now > v.row.expiresAt
    ensures v.IpRefused? <==> !v.Unknown? && now <= v.row.expiresAt && !IpAllowed(v.row.ipRestrictions, ip)
  {
    match FirstMatch(rows, ActiveKey(keyValue))
    case None => Unknown
    case Some(k) =>
      if now > k.expiresAt then Expired(k)
      else if !IpAllowed(k.ipRestrictions, ip) then IpRefused(k)
      else Accepted(k)
  }

  /** An accepted key is an active row holding that key, not past its expiry, whose
      restrictions admit the IP. */
  lemma AcceptedIsLiveAndAllowed(rows: seq<ApiKey>, keyValue: string, ip: Option<string>, now: int)
    requires Check(rows, keyValue, ip, now).Accepted?
    ensures var k := Check(rows, keyValue, ip, now).row;
      k in rows && k.key == keyValue && k.isActive && k.expiresAt >= now && IpAllowed(k.ipRestrictions, ip)
  {
  }

  /** An entry equal to the IP always admits it, whatever the other entries are. */
  lemma ExactEntryAdmits(restrictions: seq<string>, i: nat, ip: string)
    requires i < |restrictions| && restrictions[i] == ip
    ensures IpAllowed(Some(restrictions), Some(ip))
  {
  }

  /** Without an IP, or without restrictions, the IP check passes. */
  lemma UnrestrictedAdmits(restrictions: Option<seq<string>>, ip: Option<string>)
    requires ip.None? || (ip.Some? && ip.value == "") || restrictions.None? || restrictions.value == []
    ensures IpAllowed(restrictions, ip)
  {
  }

  /** `findApiKeyById`: the row, or 404 naming the id. */
  method FindApiKeyById(t: ApiKeyTable, keyId: string) returns (r: Result<ApiKey>)
    ensures !t.readable ==> r == Fail(FindByIdError())
    ensures t.readable && RowById(t.rows, keyId).None? ==> r == Fail(NotFoundById(keyId))
    ensures t.readable && RowById(t.rows, keyId).Some? ==> r == Ok(RowById(t.rows, keyId).value)
  {
    var found := t.FindById(keyId);
    if found.Fail? {
      return Fail(found.error);
    }
    if found.value.None? {
      return Fail(NotFoundById(keyId));
    }
    r := Ok(found.value.value);
  }

  /** `findApiKeyByKey`: only active rows are found. */
  method FindApiKeyByKey(t: ApiKeyTable, key: string) returns (r: Result<Option<ApiKey>>)
    ensures !t.readable ==> r == Fail(FindOneError())
    ensures t.readable ==> r == Ok(FirstMatch(t.rows, ActiveKey(key)))
  {
    r := t.FindOne(ActiveKey(key));
  }

  /** The user's keys that are active and not yet expired, newest first. */
  function UserKeys(rows: seq<ApiKey>, userId: string, now: int): (keys: seq<ApiKey>)
    ensures Ordering.NewestFirstOrder(keys, (k: ApiKey) => k.createdAt)
  {
    Ordering.NewestFirst(MatchingRows(rows, LiveOf(userId, now)), (k: ApiKey) => k.createdAt)
  }

  /** The list holds exactly the user's live keys, each once per row. */
  lemma UserKeysContents(rows: seq<ApiKey>, userId: string, now: int)
    ensures forall k :: k in UserKeys(rows, userId, now) <==>
              k in rows && k.userId == userId && k.isActive && k.expiresAt > now
    ensures |UserKeys(rows, userId, now)| == MatchCount(rows, LiveOf(userId, now))
  {
    var live := MatchingRows(rows, LiveOf(userId, now));
    Ordering.NewestFirstMembers(live, (k: ApiKey) => k.createdAt);
    forall k
      ensures k in live <==> k in rows && k.userId == userId && k.isActive && k.expiresAt > now
    {
      if k in rows && Matches(LiveOf(userId, now), k) {
        var i :| 0 <= i < |rows| && rows[i] == k;
      }
      if k in live {
        var i :| 0 <= i < |live| && live[i] == k;
      }
    }
  }

  /** `findApiKeysByUserId`. */
  method FindApiKeysByUserId(t: ApiKeyTable, userId: string, now: int) returns (r: Result<seq<ApiKey>>)
    ensures !t.readable ==> r == Fail(FindAllError())
    ensures t.readable ==> r == Ok(UserKeys(t.rows, userId, now))
  {
    var found := t.FindAll(LiveOf(userId, now));
    if found.Fail? {
      return Fail(found.error);
    }
    r := Ok(Ordering.NewestFirst(found.value, (k: ApiKey) => k.createdAt));
  }

  /** The attributes `createApiKey` hands to the table: `appName` is no column of
      `api_keys` and is dropped, so the app comes only from `options`. */
  function CreationDraft(userId: string, options: KeyOptions, key: string, expiresAt: int): (d: Draft)
    ensures d.userId == userId && d.appId == options.appId
    ensures d.key == Keep(options.key, key) && d.expiresAt == Keep(options.expiresAt, expiresAt)
    ensures d.isActive == Keep(options.isActive, true)
  {
    Spread(Draft(userId, None, key, expiresAt, true, None), options)
  }

  /** `createApiKey(userId, appName, options)` with the fresh id and key given. */
  method CreateApiKey(t: ApiKeyTable, userId: string, appName: string, options: KeyOptions,
                      freshId: string, freshKey: string, now: int, days: int)
    returns (r: Result<ApiKey>)
    requires t.Valid()
    modifies t
    ensures t.Valid() && t.readable == old(t.readable) && t.writable == old(t.writable)
    ensures var d := CreationDraft(userId, options, freshKey, ExpiryFrom(now, days));
      if old(t.writable) && d.appId.Some? && Insertable(old(t.rows), NewRow(d, freshId, now))
      then r == Ok(NewRow(d, freshId, now)) && t.rows == old(t.rows) + [NewRow(d, freshId, now)]
      else r == Fail(CreateError()) && t.rows == old(t.rows)
    /* Without an app id in the options the NOT NULL constraint refuses every insert. */
    ensures options.appId.None? ==> r == Fail(CreateError()) && t.rows == old(t.rows)
  {
    var d := CreationDraft(userId, options, freshKey, ExpiryFrom(now, days));
    r := t.Create(d, freshId, now);
  }

  /** `revokeApiKey(keyId, userId)`: deactivates the row with that id and owner. */
  method RevokeApiKey(t: ApiKeyTable, keyId: string, userId: string, now: int) returns (r: Outcome)
    requires t.Valid()
    modifies t
    ensures t.Valid() && t.readable == old(t.readable) && t.writable == old(t.writable)
    ensures !old(t.writable) ==> r == Failed(UpdateError()) && t.rows == old(t.rows)
    ensures old(t.writable) ==> t.rows == UpdateRows(old(t.rows), IdAndOwner(keyId, userId), Deactivate, now)
    ensures old(t.writable) ==>
      (r == Failed(Raise(REVOKE_MISSING, 404)) <==> Affected(old(t.rows), IdAndOwner(keyId, userId)) == 0)
    ensures old(t.writable) ==> r.Done? || r == Failed(Raise(REVOKE_MISSING, 404))
  {
    KeyPreservingUpdateConsistent(t.rows, IdAndOwner(keyId, userId), Deactivate, now);
    var n := t.Update(IdAndOwner(keyId, userId), Deactivate, now);
    if n.Fail? {
      return Failed(n.error);
    }
    if n.value == 0 {
      return Failed(Raise(REVOKE_MISSING, 404));
    }
    r := Done;
  }

  /** `regenerateApiKey(keyId, userId)`: a new key and expiry for the owner's row, then
      the row read back. A new key some row already holds breaks the unique index. */
  method RegenerateApiKey(t: ApiKeyTable, keyId: string, userId: string, freshKey: string, now: int, days: int)
    returns (r: Result<ApiKey>)
    requires t.Valid()
    modifies t
    ensures t.Valid() && t.readable == old(t.readable) && t.writable == old(t.writable)
    ensures var f := IdAndOwner(keyId, userId);
      var c := Rekey(freshKey, ExpiryFrom(now, days));
      var updated := UpdateRows(old(t.rows), f, c, now);
      if !old(t.writable) || !Consistent(updated) then
        r == Fail(UpdateError()) && t.rows == old(t.rows)
      else if Affected(old(t.rows), f) == 0 then
        r == Fail(Raise(REGENERATE_MISSING, 404)) && t.rows == updated
      else (t.rows == updated &&
        r == (if t.readable then Ok(RowById(updated, keyId).value) else Fail(FindByIdError())))
  {
    var f := IdAndOwner(keyId, userId);
    var n := t.Update(f, Rekey(freshKey, ExpiryFrom(now, days)), now);
    if n.Fail? {
      return Fail(n.error);
    }
    if n.value == 0 {
      return Fail(Raise(REGENERATE_MISSING, 404));
    }
    assert exists i :: 0 <= i < |old(t.rows)| && Selects(f, old(t.rows)[i]);
    r := FindApiKeyById(t, keyId);
  }

  /** `updateApiKeyLastUsed(keyId)`: stamps `lastUsed`; an error reaches the caller. */
  method UpdateApiKeyLastUsed(t: ApiKeyTable, keyId: string, now: int) returns (r: Outcome)
    requires t.Valid()
    modifies t
    ensures t.Valid() && t.readable == old(t.readable) && t.writable == old(t.writable)
    ensures !old(t.writable) ==> r == Failed(UpdateError()) && t.rows == old(t.rows)
    ensures old(t.writable) ==> r == Done && t.rows == UpdateRows(old(t.rows), IdIs(keyId), Touch, now)
  {
    KeyPreservingUpdateConsistent(t.rows, IdIs(keyId), Touch, now);
    var n := t.Update(IdIs(keyId), Touch, now);
    if n.Fail? {
      return Failed(n.error);
    }
    r := Done;
  }

  /** What `validateApiKey` returns: the read error, the error of the first failing
      check, the write error of its update, or the key as it was read. */
  function Validated(rows: seq<ApiKey>, readable: bool, writable: bool, keyValue: string, ip: Option<string>, now: int)
    : Result<ApiKey>
  {
    if !readable then Fail(FindOneError())
    else match Check(rows, keyValue, ip, now)
      case Unknown => Fail(Raise(INVALID_KEY, 401))
      case IpRefused(_) => Fail(Raise(IP_REFUSED, 403))
      case Expired(_) => if writable then Fail(Raise(EXPIRED_KEY, 401)) else Fail(UpdateError())
      case Accepted(k) => if writable then Ok(k) else Fail(UpdateError())
  }

  /** The table after `validateApiKey`: an expired key deactivated, an accepted key
      stamped, and nothing else changed. */
  function AfterValidation(rows: seq<ApiKey>, readable: bool, writable: bool, keyValue: string, ip: Option<string>, now: int)
    : seq<ApiKey>
  {
    if !readable || !writable then rows
    else match Check(rows, keyValue, ip, now)
      case Expired(k) => UpdateRows(rows, IdIs(k.id), Deactivate, now)
      case Accepted(k) => UpdateRows(rows, IdIs(k.id), Touch, now)
      case _ => rows
  }

  /** Validation succeeds exactly when the database works and all three checks pass;
      a failed validation leaves the table as it was unless the key had expired. */
  lemma ValidatedIff(rows: seq<ApiKey>, readable: bool, writable: bool, keyValue: string, ip: Option<string>, now: int)
    ensures Validated(rows, readable, writable, keyValue, ip, now).Ok? <==>
            readable && writable && Check(rows, keyValue, ip, now).Accepted?
    ensures Validated(rows, readable, writable, keyValue, ip, now).Fail? &&
            !(readable && writable && Check(rows, keyValue, ip, now).Expired?) ==>
            AfterValidation(rows, readable, writable, keyValue, ip, now) == rows
  {
  }

  /** On success only `lastUsed` and `updatedAt` of the key's own row change. */
  lemma SuccessTouchesOnlyLastUsed(rows: seq<ApiKey>, keyValue: string, ip: Option<string>, now: int)
    requires Validated(rows, true, true, keyValue, ip, now).Ok?
    ensures var k := Validated(rows, true, true, keyValue, ip, now).value;
      var out := AfterValidation(rows, true, true, keyValue, ip, now);
      |out| == |rows| &&
      (forall i :: 0 <= i < |rows| && rows[i].id != k.id ==> out[i] == rows[i]) &&
      (forall i :: 0 <= i < |rows| && rows[i].id == k.id ==> out[i] == rows[i].(lastUsed := Some(now), updatedAt := now))
  {
  }

  /** `validateApiKey(keyValue, ipAddress)`: the ordered checks of `Check`, the expired
      key deactivated before its 401, and `lastUsed` stamped on success. The key
      returned is the row as it was read, before the stamp. */
  method ValidateApiKey(t: ApiKeyTable, keyValue: string, ip: Option<string>, now: int)
    returns (r: Result<ApiKey>)
    requires t.Valid()
    modifies t
    ensures t.Valid() && t.readable == old(t.readable) && t.writable == old(t.writable)
    ensures r == Validated(old(t.rows), t.readable, t.writable, keyValue, ip, now)
    ensures t.rows == AfterValidation(old(t.rows), t.readable, t.writable, keyValue, ip, now)
  {
    var found := FindApiKeyByKey(t, keyValue);
    if found.Fail? {
      return Fail(found.error);
    }
    if found.value.None? {
      return Fail(Raise(INVALID_KEY, 401));
    }
    var k := found.value.value;
    assert Check(t.rows, keyValue, ip, now) ==
      if now > k.expiresAt then Expired(k) else if !IpAllowed(k.ipRestrictions, ip) then IpRefused(k) else Accepted(k);
    r := Settle(t, k, ip, now);
  }

  /** The steps after the lookup: expiry, then the IP, then the stamp. */
  method Settle(t: ApiKeyTable, k: ApiKey, ip: Option<string>, now: int) returns (r: Result<ApiKey>)
    requires t.Valid()
    modifies t
    ensures t.Valid() && t.readable == old(t.readable) && t.writable == old(t.writable)
    ensures now > k.expiresAt ==>
      if old(t.writable)
      then r == Fail(Raise(EXPIRED_KEY, 401)) && t.rows == UpdateRows(old(t.rows), IdIs(k.id), Deactivate, now)
      else r == Fail(UpdateError()) && t.rows == old(t.rows)
    ensures now <= k.expiresAt && !IpAllowed(k.ipRestrictions, ip) ==>
      r == Fail(Raise(IP_REFUSED, 403)) && t.rows == old(t.rows)
    ensures now <= k.expiresAt && IpAllowed(k.ipRestrictions, ip) ==>
      if old(t.writable)
      then r == Ok(k) && t.rows == UpdateRows(old(t.rows), IdIs(k.id), Touch, now)
      else r == Fail(UpdateError()) && t.rows == old(t.rows)
  {
    if now > k.expiresAt {
      KeyPreservingUpdateConsistent(t.rows, IdIs(k.id), Deactivate, now);
      var n := t.Update(IdIs(k.id), Deactivate, now);
      if n.Fail? {
        return Fail(n.error);
      }
      return Fail(Raise(EXPIRED_KEY, 401));
    }
    if !IpAllowed(k.ipRestrictions, ip) {
      return Fail(Raise(IP_REFUSED, 403));
    }
    var touched := UpdateApiKeyLastUsed(t, k.id, now);
    if touched.Failed? {
      return Fail(touched.error);
    }
    r := Ok(k);
  }

  /** After revocation by this repository the key no longer validates. */
  lemma RevokedKeyInvalid(rows: seq<ApiKey>, i: nat, ip: Option<string>, revokedAt: int, now: int)
    requires Consistent(rows) && i < |rows|
    ensures Check(UpdateRows(rows, IdAndOwner(rows[i].id, rows[i].userId), Deactivate, revokedAt),
                  rows[i].key, ip, now).Unknown?
  {
    DeactivatedKeyNotFound(rows, IdAndOwner(rows[i].id, rows[i].userId), i, revokedAt);
  }

  /** An expired key, once deactivated by a validation, is unknown to every later one. */
  lemma ExpiredKeyStaysInvalid(rows: seq<ApiKey>, keyValue: string, ip: Option<string>, now: int,
                               ip2: Option<string>, later: int)
    requires Consistent(rows) && Check(rows, keyValue, ip, now).Expired?
    ensures var k := Check(rows, keyValue, ip, now).row;
      Check(UpdateRows(rows, IdIs(k.id), Deactivate, now), keyValue, ip2, later).Unknown?
  {
    var k := Check(rows, keyValue, ip, now).row;
    var i :| 0 <= i < |rows| && rows[i] == k &&
      (forall j :: 0 <= j < i ==> !Matches(ActiveKey(keyValue), rows[j]));
    DeactivatedKeyNotFound(rows, IdIs(k.id), i, now);
  }

  /** Stamping `lastUsed` leaves the verdict: an accepted key is accepted again at the
      same time, as the stamped row. */
  lemma AcceptedAgainAfterTouch(rows: seq<ApiKey>, keyValue: string, ip: Option<string>, now: int)
    requires Consistent(rows) && Check(rows, keyValue, ip, now).Accepted?
    ensures var k := Check(rows, keyValue, ip, now).row;
      Check(UpdateRows(rows, IdIs(k.id), Touch, now), keyValue, ip, now) == Accepted(Changed(k, Touch, now))
  {
    var k := Check(rows, keyValue, ip, now).row;
    var i :| 0 <= i < |rows| && rows[i] == k &&
      (forall j :: 0 <= j < i ==> !Matches(ActiveKey(keyValue), rows[j]));
    var out := UpdateRows(rows, IdIs(k.id), Touch, now);
    KeyPreservingUpdateConsistent(rows, IdIs(k.id), Touch, now);
    assert out[i] == Changed(k, Touch, now);
    ActiveKeyUnique(out, keyValue, i);
    CheckAccepts(out, keyValue, ip, now, Changed(k, Touch, now));
  }

  lemma CheckAccepts(rows: seq<ApiKey>, keyValue: string, ip: Option<string>, now: int, k: ApiKey)
    requires FirstMatch(rows, ActiveKey(keyValue)) == Some(k)
    requires now <= k.expiresAt && IpAllowed(k.ipRestrictions, ip)
    ensures Check(rows, keyValue, ip, now) == Accepted(k)
  {
  }

  /** After regeneration the old key value is unknown and the new one finds the row. */
  lemma RegeneratedKeySwap(rows: seq<ApiKey>, i: nat, freshKey: string, expiresAt: int, now: int, ip: Option<string>)
    requires Consistent(rows) && i < |rows| && rows[i].isActive
    requires forall j :: 0 <= j < |rows| ==> rows[j].key != freshKey
    ensures var out := UpdateRows(rows, IdAndOwner(rows[i].id, rows[i].userId), Rekey(freshKey, expiresAt), now);
      Check(out, rows[i].key, ip, now).Unknown? &&
      FirstMatch(out, ActiveKey(freshKey)) == Some(Changed(rows[i], Rekey(freshKey, expiresAt), now))
  {
    var f := IdAndOwner(rows[i].id, rows[i].userId);
    var out := UpdateRows(rows, f, Rekey(freshKey, expiresAt), now);
    forall j | 0 <= j < |out|
      ensures !Matches(ActiveKey(rows[i].key), out[j])
    {
      if j != i {
        assert rows[j].id != rows[i].id && rows[j].key != rows[i].key;
      }
    }
    forall a, b | 0 <= a < b < |out|
      ensures out[a].id != out[b].id && out[a].key != out[b].key && out[a].appId != out[b].appId
    {
      assert rows[a].id != rows[b].id;
    }
    ActiveKeyUnique(out, freshKey, i);
  }
}
