/** The API-key service (src/controllers/apiKey/services/index.ts): input and ownership
    guards in front of the controller repository, the `catch` that rewraps foreign
    errors, and a null-returning key validation that accepts CIDR entries only. */
module ApiKeyService {
  import opened JsSemantics
  import opened Errors
  import opened ApiKeyStore
  import Repo = ApiKeyControllerRepository
  import Live = ApiKeyRepository
  import IpHelpers
  import Ordering

  const USER_REQUIRED := "User ID is required"
  const APP_NAME_REQUIRED := "App name is required"
  const IDS_REQUIRED := "API key ID and user ID are required"
  const NOT_OWNER_REVOKE := "You are not authorized to revoke this API key"
  const NOT_OWNER_REGENERATE := "You are not authorized to regenerate this API key"
  const CREATE_FAILED := "Failed to create API key"
  const FETCH_FAILED := "Failed to fetch API keys"
  const REVOKE_FAILED := "Failed to revoke API key"
  const REGENERATE_FAILED := "Failed to regenerate API key"

  /** `createApiKey` with the fresh id and key given: both inputs must be non-empty
      before the repository is called. The app name is handed on as the app id. */
  method CreateApiKey(t: ApiKeyTable, userId: string, appName: string, options: KeyOptions,
                      freshId: string, freshKey: string, now: int, days: int)
    returns (r: Result<ApiKey>)
    requires t.Valid()
    modifies t
    ensures t.Valid() && t.readable == old(t.readable) && t.writable == old(t.writable)
    ensures userId == "" ==> r == Fail(Raise(USER_REQUIRED, 400)) && t.rows == old(t.rows)
    ensures userId != "" && appName == "" ==> r == Fail(Raise(APP_NAME_REQUIRED, 400)) && t.rows == old(t.rows)
    ensures userId != "" && appName != "" ==>
      var row := NewRow(Repo.CreationDraft(userId, appName, options, freshKey, ExpiryFrom(now, days)), freshId, now);
      if old(t.writable) && Insertable(old(t.rows), row)
      then r == Ok(row) && t.rows == old(t.rows) + [row]
      else r == Fail(CreateError()) && t.rows == old(t.rows)
  {
    if userId == "" {
      return Fail(Raise(USER_REQUIRED, 400));
    }
    if appName == "" {
      return Fail(Raise(APP_NAME_REQUIRED, 400));
    }
    var created := Repo.CreateApiKey(t, userId, appName, options, freshId, freshKey, now, days);
    r := RewrapResult(created, CREATE_FAILED);
  }

  /** `getUserApiKeys` as written: the repository it calls has no `findApiKeysByUserId`,
      so every call with a user id fails with the TypeError, which the `catch`
      turns into a 500. */
  method GetUserApiKeys(t: ApiKeyTable, userId: string) returns (r: Result<seq<ApiKey>>)
    ensures userId == "" ==> r == Fail(Raise(USER_REQUIRED, 400))
    ensures userId != "" ==> r == Fail(Raise(FETCH_FAILED, 500))
  {
    if userId == "" {
      return Fail(Raise(USER_REQUIRED, 400));
    }
    var missing: Result<seq<ApiKey>> := Fail(Plain("TypeError", "apiKeyRepository.findApiKeysByUserId is not a function"));
    r := RewrapResult(missing, FETCH_FAILED);
  }

  /** `getUserApiKeys` as intended: the user's live keys, newest first, through the
      listing query the other repository provides. */
  method GetUserApiKeysCorrected(t: ApiKeyTable, userId: string, now: int) returns (r: Result<seq<ApiKey>>)
    ensures userId == "" ==> r == Fail(Raise(USER_REQUIRED, 400))
    ensures userId != "" && !t.readable ==> r == Fail(FindAllError())
    ensures userId != "" && t.readable ==> r == Ok(Live.UserKeys(t.rows, userId, now))
  {
    if userId == "" {
      return Fail(Raise(USER_REQUIRED, 400));
    }
    var listed := Live.FindApiKeysByUserId(t, userId, now);
    r := RewrapResult(listed, FETCH_FAILED);
  }

  /** The corrected listing returns exactly the user's live keys, newest first. */
  lemma CorrectedListsLiveKeys(rows: seq<ApiKey>, userId: string, now: int)
    ensures forall k :: k in Live.UserKeys(rows, userId, now) <==>
              k in rows && k.userId == userId && k.isActive && k.expiresAt > now
    ensures Ordering.NewestFirstOrder(Live.UserKeys(rows, userId, now), (k: ApiKey) => k.createdAt)
  {
    Live.UserKeysContents(rows, userId, now);
  }

  /** The error, if any, that stops `revokeApiKey` or `regenerateApiKey` before the
      write: missing ids (400), then the lookup (its read error or 404), then the
      owner (403). */
  function OwnerGuard(rows: seq<ApiKey>, readable: bool, keyId: string, userId: string, forbidden: string)
    : (g: Option<Thrown>)
    ensures g.None? <==> keyId != "" && userId != "" && readable &&
                         RowById(rows, keyId).Some? && RowById(rows, keyId).value.userId == userId
    ensures keyId == "" || userId == "" ==> g == Some(Raise(IDS_REQUIRED, 400))
    ensures keyId != "" && userId != "" && !readable ==> g == Some(FindByIdError())
    ensures g.Some? && g.value.Custom? && g.value.err.statusCode == 403 ==>
              RowById(rows, keyId).Some? && RowById(rows, keyId).value.userId != userId
  {
    if keyId == "" || userId == "" then Some(Raise(IDS_REQUIRED, 400))
    else if !readable then Some(FindByIdError())
    else if RowById(rows, keyId).None? then Some(Repo.NotFoundById(keyId))
    else if RowById(rows, keyId).value.userId != userId then Some(Raise(forbidden, 403))
    else None
  }

  /** The guard lets a call through exactly when both ids are given and the key exists
      and belongs to the caller. */
  lemma OwnerGuardPasses(rows: seq<ApiKey>, readable: bool, keyId: string, userId: string, forbidden: string)
    requires Consistent(rows)
    ensures OwnerGuard(rows, readable, keyId, userId, forbidden).None? <==>
      keyId != "" && userId != "" && readable &&
      exists i :: 0 <= i < |rows| && rows[i].id == keyId && rows[i].userId == userId
  {
    if keyId != "" && userId != "" && readable {
      if i :| 0 <= i < |rows| && rows[i].id == keyId && rows[i].userId == userId {
        RowByIdUnique(rows, i);
      } else if RowById(rows, keyId).Some? {
        var k := RowById(rows, keyId).value;
        var i :| 0 <= i < |rows| && rows[i] == k;
      }
    }
  }

  /** Someone else's key is refused with 403 and the key is left as it was. */
  lemma OtherOwnerForbidden(rows: seq<ApiKey>, i: nat, userId: string, forbidden: string)
    requires Consistent(rows) && i < |rows| && rows[i].id != "" && userId != "" && rows[i].userId != userId
    ensures OwnerGuard(rows, true, rows[i].id, userId, forbidden) == Some(Raise(forbidden, 403))
  {
    RowByIdUnique(rows, i);
  }

  lemma RowByIdUnique(rows: seq<ApiKey>, i: nat)
    requires Consistent(rows) && i < |rows|
    ensures RowById(rows, rows[i].id) == Some(rows[i])
  {
    var r := RowById(rows, rows[i].id);
    var k :| 0 <= k < |rows| && rows[k] == r.value;
  }

  /** `revokeApiKey(keyId, userId)`: after the guards the key is deactivated by id and
      read back. Nothing changes on a guard path. */
  method RevokeApiKey(t: ApiKeyTable, keyId: string, userId: string, now: int) returns (r: Result<ApiKey>)
    requires t.Valid()
    modifies t
    ensures t.Valid() && t.readable == old(t.readable) && t.writable == old(t.writable)
    ensures OwnerGuard(old(t.rows), t.readable, keyId, userId, NOT_OWNER_REVOKE).Some? ==>
      r == Fail(OwnerGuard(old(t.rows), t.readable, keyId, userId, NOT_OWNER_REVOKE).value) && t.rows == old(t.rows)
    ensures OwnerGuard(old(t.rows), t.readable, keyId, userId, NOT_OWNER_REVOKE).None? ==>
      if old(t.writable)
      then t.rows == UpdateRows(old(t.rows), IdIs(keyId), Deactivate, now) &&
           r == Ok(RowById(old(t.rows), keyId).value.(isActive := false, updatedAt := now))
      else r == Fail(UpdateError()) && t.rows == old(t.rows)
  {
    if keyId == "" || userId == "" {
      return Fail(Raise(IDS_REQUIRED, 400));
    }
    var found := Repo.FindApiKeyById(t, keyId);
    if found.Fail? {
      return RewrapResult(found, REVOKE_FAILED);
    }
    if found.value.userId != userId {
      return Fail(Raise(NOT_OWNER_REVOKE, 403));
    }
    ghost var before := t.rows;
    assert exists i :: 0 <= i < |before| && before[i].id == keyId;
    var revoked := Repo.RevokeApiKey(t, keyId, now);
    if revoked.Failed? {
      return Fail(Rewrap(revoked.error, REVOKE_FAILED));
    }
    RowByIdAfterUpdate(before, keyId, Deactivate, now);
    var reread := Repo.FindApiKeyById(t, keyId);
    r := RewrapResult(reread, REVOKE_FAILED);
  }

  /** `regenerateApiKey(keyId, userId)`: after the guards the key gets the fresh value
      and a new expiry; the row is returned with them. */
  method RegenerateApiKey(t: ApiKeyTable, keyId: string, userId: string, freshKey: string, now: int, days: int)
    returns (r: Result<ApiKey>)
    requires t.Valid()
    modifies t
    ensures t.Valid() && t.readable == old(t.readable) && t.writable == old(t.writable)
    ensures OwnerGuard(old(t.rows), t.readable, keyId, userId, NOT_OWNER_REGENERATE).Some? ==>
      r == Fail(OwnerGuard(old(t.rows), t.readable, keyId, userId, NOT_OWNER_REGENERATE).value) && t.rows == old(t.rows)
    ensures OwnerGuard(old(t.rows), t.readable, keyId, userId, NOT_OWNER_REGENERATE).None? ==>
      var c := Rekey(freshKey, ExpiryFrom(now, days));
      if old(t.writable) && Consistent(UpdateRows(old(t.rows), IdIs(keyId), c, now))
      then t.rows == UpdateRows(old(t.rows), IdIs(keyId), c, now) &&
           r == Ok(RowById(old(t.rows), keyId).value.(key := freshKey, expiresAt := ExpiryFrom(now, days), updatedAt := now))
      else r == Fail(UpdateError()) && t.rows == old(t.rows)
  {
    if keyId == "" || userId == "" {
      return Fail(Raise(IDS_REQUIRED, 400));
    }
    var found := Repo.FindApiKeyById(t, keyId);
    if found.Fail? {
      return RewrapResult(found, REGENERATE_FAILED);
    }
    if found.value.userId != userId {
      return Fail(Raise(NOT_OWNER_REGENERATE, 403));
    }
    ghost var before := t.rows;
    assert exists i :: 0 <= i < |before| && Selects(IdIs(keyId), before[i]);
    Repo.RegeneratedRow(before, keyId, freshKey, ExpiryFrom(now, days), now);
    var regenerated := Repo.RegenerateApiKey(t, keyId, freshKey, now, days);
    r := RewrapResult(regenerated, REGENERATE_FAILED);
  }

  /** The service's restriction check: some entry must contain the IP as a CIDR range. */
  predicate IpAllowed(restrictions: Option<seq<string>>, ip: Option<string>)
  {
    !Live.Restricts(restrictions, ip) ||
    exists i :: 0 <= i < |restrictions.value| && IpHelpers.IsIpInCidr(ip.value, restrictions.value[i])
  }

  /** The outcome of the service's validation: an empty key is unknown, then the same
      order as the middleware's repository, with the CIDR-only IP check. */
  function Check(rows: seq<ApiKey>, key: string, ip: Option<string>, now: int): (v: Live.Verdict)
    ensures key == "" ==> v.Unknown?
    ensures key != "" && FirstMatch(rows, ActiveKey(key)).None? ==> v.Unknown?
    ensures !v.Unknown? ==> key != "" && v.row == FirstMatch(rows, ActiveKey(key)).value
    ensures v.Expired? <==> !v.Unknown? && now > v.row.expiresAt
    ensures v.IpRefused? <==> !v.Unknown? && now <= v.row.expiresAt && !IpAllowed(v.row.ipRestrictions, ip)
  {
    if key == "" then Live.Unknown
    else match FirstMatch(rows, ActiveKey(key))
      case None => Live.Unknown
      case Some(k) =>
        if now > k.expiresAt then Live.Expired(k)
        else if !IpAllowed(k.ipRestrictions, ip) then Live.IpRefused(k)
        else Live.Accepted(k)
  }

  /** `validateApiKey(key, ipAddress)`: the key or null. An expired key is revoked by id
      (a failure to do so is ignored) and gives null; an accepted key gets `lastUsed`
      stamped, and a failure to stamp it is ignored; a failed read gives null. */
  method ValidateApiKey(t: ApiKeyTable, key: string, ip: Option<string>, now: int) returns (r: Option<ApiKey>)
    requires t.Valid()
    modifies t
    ensures t.Valid() && t.readable == old(t.readable) && t.writable == old(t.writable)
    ensures key != "" && !old(t.readable) ==> r.None? && t.rows == old(t.rows)
    ensures key == "" || old(t.readable) ==> match Check(old(t.rows), key, ip, now)
      case Unknown => r.None? && t.rows == old(t.rows)
      case IpRefused(_) => r.None? && t.rows == old(t.rows)
      case Expired(k) => (r.None? &&
        t.rows == (if old(t.writable) then UpdateRows(old(t.rows), IdIs(k.id), Deactivate, now) else old(t.rows)))
      case Accepted(k) => (r == Some(k) &&
        t.rows == (if old(t.writable) then UpdateRows(old(t.rows), IdIs(k.id), Touch, now) else old(t.rows)))
  {
    if key == "" {
      return None;
    }
    var found := Repo.FindApiKeyByKey(t, key);
    if found.Fail? || found.value.None? || !found.value.value.isActive {
      return None;
    }
    r := Settle(t, found.value.value, ip, now);
  }

  /** The steps after the lookup: expiry, then the IP, then the stamp. */
  method Settle(t: ApiKeyTable, k: ApiKey, ip: Option<string>, now: int) returns (r: Option<ApiKey>)
    requires t.Valid()
    modifies t
    ensures t.Valid() && t.readable == old(t.readable) && t.writable == old(t.writable)
    ensures now > k.expiresAt ==> (r.None? &&
      t.rows == (if old(t.writable) then UpdateRows(old(t.rows), IdIs(k.id), Deactivate, now) else old(t.rows)))
    ensures now <= k.expiresAt && !IpAllowed(k.ipRestrictions, ip) ==> r.None? && t.rows == old(t.rows)
    ensures now <= k.expiresAt && IpAllowed(k.ipRestrictions, ip) ==> (r == Some(k) &&
      t.rows == (if old(t.writable) then UpdateRows(old(t.rows), IdIs(k.id), Touch, now) else old(t.rows)))
  {
    if now > k.expiresAt {
      var _ := Repo.RevokeApiKey(t, k.id, now);
      return None;
    }
    if !IpAllowed(k.ipRestrictions, ip) {
      return None;
    }
    var _ := Repo.UpdateLastUsed(t, k.id, now);
    r := Some(k);
  }

  /** A list of plain addresses never admits an IP in the service, although in the
      middleware's repository an entry equal to the IP admits it. */
  lemma PlainEntriesRefused(restrictions: seq<string>, ip: string, i: nat)
    requires ip != "" && i < |restrictions| && restrictions[i] == ip
    requires forall j :: 0 <= j < |restrictions| ==> '/' !in restrictions[j]
    ensures !IpAllowed(Some(restrictions), Some(ip))
    ensures Live.IpAllowed(Some(restrictions), Some(ip))
  {
    Live.ExactEntryAdmits(restrictions, i, ip);
  }

  /** When every entry is a CIDR range and the IP has no '/', the two checks agree. */
  lemma CidrListsAgree(restrictions: seq<string>, ip: string)
    requires '/' !in ip
    requires forall j :: 0 <= j < |restrictions| ==> '/' in restrictions[j]
    ensures IpAllowed(Some(restrictions), Some(ip)) <==> Live.IpAllowed(Some(restrictions), Some(ip))
  {
    forall j | 0 <= j < |restrictions|
      ensures restrictions[j] != ip
    {
      NoSlashDiffers(restrictions[j], ip);
    }
  }

  lemma NoSlashDiffers(entry: string, ip: string)
    requires '/' in entry && '/' !in ip
    ensures entry != ip
  {
  }

  /** The service is the stricter of the two: a key it accepts, the middleware's
      repository accepts too. */
  lemma ServiceAcceptsLess(rows: seq<ApiKey>, key: string, ip: Option<string>, now: int)
    requires Check(rows, key, ip, now).Accepted?
    ensures Live.Check(rows, key, ip, now) == Check(rows, key, ip, now)
  {
    var k := Check(rows, key, ip, now).row;
    if Live.Restricts(k.ipRestrictions, ip) {
      var i :| 0 <= i < |k.ipRestrictions.value| && IpHelpers.IsIpInCidr(ip.value, k.ipRestrictions.value[i]);
      assert Live.ExactOrCidr(k.ipRestrictions.value[i], ip.value);
    }
  }
}
