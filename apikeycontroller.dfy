/** The API-key repository behind the API-key service
    (src/controllers/apiKey/repository/index.ts). Unlike the middleware's repository
    it revokes and regenerates by id alone, forces `isActive` on creation, and adds
    app lookups, expiry listing, bulk revocation and counting. */
module ApiKeyControllerRepository {
  import opened JsSemantics
  import opened Errors
  import opened ApiKeyStore

  const REVOKE_MISSING := "API key not found or already revoked"
  const REGENERATE_MISSING := "API key not found"

  function NotFoundById(keyId: string): Thrown
  {
    Raise("API key with id " + keyId + " not found", 404)
  }

  /** `findApiKeyById`: the row, or 404 naming the id. */
  method FindApiKeyById(t: ApiKeyTable, keyId: string) returns (r: Result<ApiKey>)
    ensures !t.readable ==> r == Fail(FindByIdError())
    ensures t.readable && RowById(t.rows, keyId).None? ==> r == Fail(NotFoundById(keyId))
    ensures t.readable && RowById(t.rows, keyId).Some? ==> r == Ok(RowById(t.rows, keyId).value)
  {
    var found := t.FindById(keyId);
    if found.Fail? {
      return Fail(found.error);
    }
    if found.value.None? {
      return Fail(NotFoundById(keyId));
    }
    r := Ok(found.value.value);
  }

  /** `findApiKeyByAppId`: the app's active key, or null; a failed read is null too. */
  method FindApiKeyByAppId(t: ApiKeyTable, appId: string) returns (r: Option<ApiKey>)
    ensures !t.readable ==> r.None?
    ensures t.readable ==> r == FirstMatch(t.rows, ActiveApp(appId))
  {
    var found := t.FindOne(ActiveApp(appId));
    if found.Fail? {
      return None;
    }
    r := found.value;
  }

  /** Under the one-key-per-app index, the key found for an app is that app's active row. */
  lemma AppKeyUnique(rows: seq<ApiKey>, i: nat)
    requires Consistent(rows) && i < |rows| && rows[i].isActive
    ensures FirstMatch(rows, ActiveApp(rows[i].appId)) == Some(rows[i])
  {
    var r := FirstMatch(rows, ActiveApp(rows[i].appId));
    var k :| 0 <= k < |rows| && rows[k] == r.value &&
      (forall j :: 0 <= j < k ==> !Matches(ActiveApp(rows[i].appId), rows[j]));
  }

  /** `findApiKeyByKey`: only active rows are found. */
  method FindApiKeyByKey(t: ApiKeyTable, key: string) returns (r: Result<Option<ApiKey>>)
    ensures !t.readable ==> r == Fail(FindOneError())
    ensures t.readable ==> r == Ok(FirstMatch(t.rows, ActiveKey(key)))
  {
    r := t.FindOne(ActiveKey(key));
  }

  /** The attributes `createApiKey` hands to the table: the given app, a fresh key, the
      expiry and `isActive: true`, each overridable by `options`. */
  function CreationDraft(userId: string, appId: string, options: KeyOptions, key: string, expiresAt: int): (d: Draft)
    ensures d.userId == userId
    ensures d.appId == Some(Keep(options.appId, appId))
    ensures d.key == Keep(options.key, key) && d.expiresAt == Keep(options.expiresAt, expiresAt)
    ensures d.isActive == Keep(options.isActive, true)
    ensures d.ipRestrictions == options.ipRestrictions
  {
    Spread(Draft(userId, Some(appId), key, expiresAt, true, None), options)
  }

  /** Without options the new key is active, fresh, for the given app, and expires
      `days` days after `now`. */
  lemma DefaultDraft(userId: string, appId: string, key: string, now: int, days: int)
    ensures CreationDraft(userId, appId, NO_OPTIONS, key, ExpiryFrom(now, days)) ==
            Draft(userId, Some(appId), key, now + days * DAY_MS, true, None)
  {
  }

  /** `createApiKey(userId, appId, options)` with the fresh id and key given. */
  method CreateApiKey(t: ApiKeyTable, userId: string, appId: string, options: KeyOptions,
                      freshId: string, freshKey: string, now: int, days: int)
    returns (r: Result<ApiKey>)
    requires t.Valid()
    modifies t
    ensures t.Valid() && t.readable == old(t.readable) && t.writable == old(t.writable)
    ensures var row := NewRow(CreationDraft(userId, appId, options, freshKey, ExpiryFrom(now, days)), freshId, now);
      if old(t.writable) && Insertable(old(t.rows), row)
      then r == Ok(row) && t.rows == old(t.rows) + [row]
      else r == Fail(CreateError()) && t.rows == old(t.rows)
  {
    var d := CreationDraft(userId, appId, options, freshKey, ExpiryFrom(now, days));
    r := t.Create(d, freshId, now);
  }

  /** `revokeApiKey(keyId)`: deactivates the row with that id, whoever owns it. */
  method RevokeApiKey(t: ApiKeyTable, keyId: string, now: int) returns (r: Outcome)
    requires t.Valid()
    modifies t
    ensures t.Valid() && t.readable == old(t.readable) && t.writable == old(t.writable)
    ensures !old(t.writable) ==> r == Failed(UpdateError()) && t.rows == old(t.rows)
    ensures old(t.writable) ==> t.rows == UpdateRows(old(t.rows), IdIs(keyId), Deactivate, now)
    ensures old(t.writable) ==>
      (if Affected(old(t.rows), IdIs(keyId)) == 0 then r == Failed(Raise(REVOKE_MISSING, 404)) else r == Done)
  {
    KeyPreservingUpdateConsistent(t.rows, IdIs(keyId), Deactivate, now);
    var n := t.Update(IdIs(keyId), Deactivate, now);
    if n.Fail? {
      return Failed(n.error);
    }
    if n.value == 0 {
      return Failed(Raise(REVOKE_MISSING, 404));
    }
    r := Done;
  }

  /** `regenerateApiKey(keyId)`: a new key and expiry for the row with that id, then the
      row read back. */
  method RegenerateApiKey(t: ApiKeyTable, keyId: string, freshKey: string, now: int, days: int)
    returns (r: Result<ApiKey>)
    requires t.Valid()
    modifies t
    ensures t.Valid() && t.readable == old(t.readable) && t.writable == old(t.writable)
    ensures var updated := UpdateRows(old(t.rows), IdIs(keyId), Rekey(freshKey, ExpiryFrom(now, days)), now);
      if !old(t.writable) || !Consistent(updated) then
        r == Fail(UpdateError()) && t.rows == old(t.rows)
      else if Affected(old(t.rows), IdIs(keyId)) == 0 then
        r == Fail(Raise(REGENERATE_MISSING, 404)) && t.rows == updated
      else (t.rows == updated &&
        r == (if t.readable then Ok(RowById(updated, keyId).value) else Fail(FindByIdError())))
  {
    var n := t.Update(IdIs(keyId), Rekey(freshKey, ExpiryFrom(now, days)), now);
    if n.Fail? {
      return Fail(n.error);
    }
    if n.value == 0 {
      return Fail(Raise(REGENERATE_MISSING, 404));
    }
    assert exists i :: 0 <= i < |old(t.rows)| && Selects(IdIs(keyId), old(t.rows)[i]);
    r := FindApiKeyById(t, keyId);
  }

  /** The row a successful regeneration returns is the row read before, with the new
      key and expiry: owner, app, restrictions and active flag are kept. */
  lemma RegeneratedRow(rows: seq<ApiKey>, keyId: string, freshKey: string, expiresAt: int, now: int)
    requires Affected(rows, IdIs(keyId)) > 0
    ensures RowById(rows, keyId).Some?
    ensures RowById(UpdateRows(rows, IdIs(keyId), Rekey(freshKey, expiresAt), now), keyId) ==
            Some(RowById(rows, keyId).value.(key := freshKey, expiresAt := expiresAt, updatedAt := now))
  {
    RowByIdAfterUpdate(rows, keyId, Rekey(freshKey, expiresAt), now);
  }

  /** `updateLastUsed(keyId)`: stamps `lastUsed`; an error reaches the caller. */
  method UpdateLastUsed(t: ApiKeyTable, keyId: string, now: int) returns (r: Outcome)
    requires t.Valid()
    modifies t
    ensures t.Valid() && t.readable == old(t.readable) && t.writable == old(t.writable)
    ensures !old(t.writable) ==> r == Failed(UpdateError()) && t.rows == old(t.rows)
    ensures old(t.writable) ==> r == Done && t.rows == UpdateRows(old(t.rows), IdIs(keyId), Touch, now)
  {
    KeyPreservingUpdateConsistent(t.rows, IdIs(keyId), Touch, now);
    var n := t.Update(IdIs(keyId), Touch, now);
    if n.Fail? {
      return Failed(n.error);
    }
    r := Done;
  }

  /** `findExpiredApiKeys`: the active keys whose expiry is before `now`. */
  method FindExpiredApiKeys(t: ApiKeyTable, now: int) returns (r: Result<seq<ApiKey>>)
    ensures !t.readable ==> r == Fail(FindAllError())
    ensures t.readable ==> r.Ok?
    ensures t.readable ==> forall k :: k in r.value <==> k in t.rows && k.isActive && k.expiresAt < now
  {
    r := t.FindAll(ExpiredBy(now));
    if r.Ok? {
      forall k
        ensures k in r.value <==> k in t.rows && k.isActive && k.expiresAt < now
      {
        if k in t.rows && k.isActive && k.expiresAt < now {
          var i :| 0 <= i < |t.rows| && t.rows[i] == k;
          assert Matches(ExpiredBy(now), t.rows[i]);
        }
        if k in r.value {
          var i :| 0 <= i < |r.value| && r.value[i] == k;
        }
      }
    }
  }

  /** `bulkRevokeApiKeys(keyIds)`: an empty list touches nothing, even when the database
      is down; otherwise it deactivates the listed ids and reports how many rows matched. */
  method BulkRevokeApiKeys(t: ApiKeyTable, keyIds: seq<string>, now: int) returns (r: Result<nat>)
    requires t.Valid()
    modifies t
    ensures t.Valid() && t.readable == old(t.readable) && t.writable == old(t.writable)
    ensures keyIds == [] ==> r == Ok(0) && t.rows == old(t.rows)
    ensures keyIds != [] && !old(t.writable) ==> r == Fail(UpdateError()) && t.rows == old(t.rows)
    ensures keyIds != [] && old(t.writable) ==>
      r == Ok(Affected(old(t.rows), IdIn(keyIds))) && t.rows == UpdateRows(old(t.rows), IdIn(keyIds), Deactivate, now)
  {
    if |keyIds| == 0 {
      return Ok(0);
    }
    KeyPreservingUpdateConsistent(t.rows, IdIn(keyIds), Deactivate, now);
    r := t.Update(IdIn(keyIds), Deactivate, now);
  }

  /** `countActiveApiKeysByUser`. */
  method CountActiveApiKeysByUser(t: ApiKeyTable, userId: string, now: int) returns (r: Result<nat>)
    ensures !t.readable ==> r == Fail(CountError())
    ensures t.readable ==> r == Ok(MatchCount(t.rows, LiveOf(userId, now)))
  {
    r := t.Count(LiveOf(userId, now));
  }
}
