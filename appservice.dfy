/** The app service (src/controllers/app/service/index.ts): input guards in front of the
    app repository, and the rewrapping of unexpected failures into a 500 that names the
    operation. */
module AppService {
  import opened JsSemantics
  import opened Errors
  import opened AppStore
  import Repo = AppRepository

  const USER_REQUIRED := "User ID is required"
  const NAME_REQUIRED := "App name is required"
  const IDS_REQUIRED := "App ID and User ID are required"
  const APP_ID_REQUIRED := "App ID is required"
  const CREATE_FAILED := "Failed to create app"
  const FETCH_ALL_FAILED := "Failed to fetch apps"
  const UPDATE_FAILED := "Failed to update app"
  const DEACTIVATE_FAILED := "Failed to deactivate app"
  const FETCH_FAILED := "Failed to fetch app"

  /** `CreateAppOptions`. */
  datatype CreateAppOptions = CreateAppOptions(name: string, description: Option<string>, url: Option<string>)

  /** What `createApp` forwards to the repository: name, description and url only. */
  function Forwarded(options: CreateAppOptions): AppPatch
  {
    AppPatch(Some(options.name), options.description, options.url)
  }

  /** `createApp(userId, options)`: 400 for an empty user id or name, before any write. */
  method CreateApp(t: AppTable, userId: string, options: CreateAppOptions, freshId: string, now: int)
    returns (r: Result<App>)
    requires t.Valid()
    modifies t
    ensures t.Valid() && t.readable == old(t.readable) && t.writable == old(t.writable)
    ensures userId == "" ==> r == Fail(Raise(USER_REQUIRED, 400)) && t.rows == old(t.rows)
    ensures userId != "" && options.name == "" ==> r == Fail(Raise(NAME_REQUIRED, 400)) && t.rows == old(t.rows)
    ensures userId != "" && options.name != "" ==>
      var a := NewApp(Repo.CreationDraft(userId, Forwarded(options)), freshId, now);
      if old(t.writable) && forall i :: 0 <= i < |old(t.rows)| ==> old(t.rows)[i].id != freshId
      then r == Ok(a) && t.rows == old(t.rows) + [a]
      else r == Fail(CreateError()) && t.rows == old(t.rows)
  {
    if userId == "" {
      return Fail(Raise(USER_REQUIRED, 400));
    }
    if options.name == "" {
      return Fail(Raise(NAME_REQUIRED, 400));
    }
    var created := Repo.CreateApp(t, userId, Forwarded(options), freshId, now);
    r := RewrapResult(created, CREATE_FAILED);
  }

  /** A created app carries the caller's name, description and url, and is active. */
  lemma CreatedFromOptions(userId: string, options: CreateAppOptions, freshId: string, now: int)
    ensures var a := NewApp(Repo.CreationDraft(userId, Forwarded(options)), freshId, now);
      a.name == options.name && a.description == options.description && a.url == options.url &&
      a.userId == userId && a.isActive
  {
    Repo.CreatedAppActive(userId, Forwarded(options), freshId, now);
  }

  /** `getUserApps(userId)`. */
  method GetUserApps(t: AppTable, userId: string) returns (r: Result<seq<App>>)
    ensures userId == "" ==> r == Fail(Raise(USER_REQUIRED, 400))
    ensures userId != "" && !t.readable ==> r == Fail(FindAllError())
    ensures userId != "" && t.readable ==> r == Ok(Repo.UserApps(t.rows, userId))
  {
    if userId == "" {
      return Fail(Raise(USER_REQUIRED, 400));
    }
    var found := Repo.FindAppsByUserId(t, userId);
    r := RewrapResult(found, FETCH_ALL_FAILED);
  }

  /** `updateApp(appId, userId, options)`: 400 for a missing id; the owner's row is edited
      and read back. Options that give no field reach the repository's 404. */
  method UpdateApp(t: AppTable, appId: string, userId: string, options: AppPatch, now: int)
    returns (r: Result<App>)
    requires t.Valid()
    modifies t
    ensures t.Valid() && t.readable == old(t.readable) && t.writable == old(t.writable)
    ensures appId == "" || userId == "" ==> r == Fail(Raise(IDS_REQUIRED, 400)) && t.rows == old(t.rows)
    ensures appId != "" && userId != "" && WritesNothing(Edit(options)) ==>
      r == Fail(Raise(Repo.UPDATE_MISSING, 404)) && t.rows == old(t.rows)
    ensures appId != "" && userId != "" && !WritesNothing(Edit(options)) && !old(t.writable) ==>
      r == Fail(UpdateError()) && t.rows == old(t.rows)
    ensures appId != "" && userId != "" && !WritesNothing(Edit(options)) && old(t.writable) ==>
      t.rows == UpdateRows(old(t.rows), appId, userId, Edit(options), now) &&
      r == (if Affected(old(t.rows), appId, userId) == 0 then Fail(Raise(Repo.UPDATE_MISSING, 404))
            else if !t.readable then Fail(FindByIdError())
            else Ok(Changed(RowById(old(t.rows), appId).value, Edit(options), now)))
  {
    if appId == "" || userId == "" {
      return Fail(Raise(IDS_REQUIRED, 400));
    }
    ghost var before := t.rows;
    RowByIdAfterUpdate(t.rows, appId, userId, Edit(options), now);
    var n := Repo.UpdateApp(t, appId, userId, options, now);
    if n.Fail? {
      return RewrapResult(Fail(n.error), UPDATE_FAILED);
    }
    OwnedRowIsRowById(before, appId, userId);
    var found := Repo.FindAppById(t, appId);
    r := RewrapResult(found, UPDATE_FAILED);
  }

  /** Under the primary key, a row the user owns with that id is the row `findByPk` finds. */
  lemma OwnedRowIsRowById(rows: seq<App>, appId: string, userId: string)
    requires Consistent(rows) && Affected(rows, appId, userId) > 0
    ensures RowById(rows, appId).Some? && RowById(rows, appId).value.userId == userId
  {
    var i :| 0 <= i < |rows| && Owned(rows[i], appId, userId);
    var r := RowById(rows, appId).value;
    var j :| 0 <= j < |rows| && rows[j] == r;
  }

  /** `deactivateApp(appId, userId)`. */
  method DeactivateApp(t: AppTable, appId: string, userId: string, now: int) returns (r: Outcome)
    requires t.Valid()
    modifies t
    ensures t.Valid() && t.readable == old(t.readable) && t.writable == old(t.writable)
    ensures appId == "" || userId == "" ==> r == Failed(Raise(IDS_REQUIRED, 400)) && t.rows == old(t.rows)
    ensures appId != "" && userId != "" && !old(t.writable) ==> r == Failed(UpdateError()) && t.rows == old(t.rows)
    ensures appId != "" && userId != "" && old(t.writable) ==>
      t.rows == UpdateRows(old(t.rows), appId, userId, Deactivate, now) &&
      r == (if Affected(old(t.rows), appId, userId) == 0 then Failed(Raise(Repo.DEACTIVATE_MISSING, 404)) else Done)
  {
    if appId == "" || userId == "" {
      return Failed(Raise(IDS_REQUIRED, 400));
    }
    var n := Repo.DeactivateApp(t, appId, userId, now);
    if n.Fail? {
      return Failed(Rewrap(n.error, DEACTIVATE_FAILED));
    }
    r := Done;
  }

  /** `getAppById(appId)`. */
  method GetAppById(t: AppTable, appId: string) returns (r: Result<App>)
    ensures appId == "" ==> r == Fail(Raise(APP_ID_REQUIRED, 400))
    ensures appId != "" && !t.readable ==> r == Fail(FindByIdError())
    ensures appId != "" && t.readable ==>
      r == (if RowById(t.rows, appId).Some? then Ok(RowById(t.rows, appId).value) else Fail(Repo.NotFoundById(appId)))
  {
    if appId == "" {
      return Fail(Raise(APP_ID_REQUIRED, 400));
    }
    var found := Repo.FindAppById(t, appId);
    r := RewrapResult(found, FETCH_FAILED);
  }
}
