/** The app repository (src/controllers/app/repository/index.ts): lookups, creation,
    and updates scoped to the owner, where no matching row is a 404. */
module AppRepository {
  import opened JsSemantics
  import opened Errors
  import opened AppStore
  import Ordering

  const UPDATE_MISSING := "App not found or not authorized to update"
  const DEACTIVATE_MISSING := "App not found or not authorized to deactivate"

  function NotFoundById(appId: string): Thrown
  {
    Raise("App with id " + appId + " not found", 404)
  }

  /** `findAppById`: the row, or 404 naming the id. */
  method FindAppById(t: AppTable, appId: string) returns (r: Result<App>)
    ensures !t.readable ==> r == Fail(FindByIdError())
    ensures t.readable && RowById(t.rows, appId).None? ==> r == Fail(NotFoundById(appId))
    ensures t.readable && RowById(t.rows, appId).Some? ==> r == Ok(RowById(t.rows, appId).value)
  {
    var found := t.FindById(appId);
    if found.Fail? {
      return Fail(found.error);
    }
    if found.value.None? {
      return Fail(NotFoundById(appId));
    }
    r := Ok(found.value.value);
  }

  /** The list `findAppsByUserId` returns: the user's active apps, newest `createdAt` first. */
  function UserApps(rows: seq<App>, userId: string): (apps: seq<App>)
    ensures Ordering.NewestFirstOrder(apps, (a: App) => a.createdAt)
  {
    Ordering.NewestFirst(ActiveApps(rows, userId), (a: App) => a.createdAt)
  }

  /** The list holds exactly the user's active apps. */
  lemma UserAppsContents(rows: seq<App>, userId: string)
    ensures forall a :: a in UserApps(rows, userId) <==> a in rows && a.userId == userId && a.isActive
  {
    var active := ActiveApps(rows, userId);
    Ordering.NewestFirstMembers(active, (a: App) => a.createdAt);
    forall a
      ensures a in active <==> a in rows && a.userId == userId && a.isActive
    {
      if a in rows && a.userId == userId && a.isActive {
        var i :| 0 <= i < |rows| && rows[i] == a;
      }
      if a in active {
        var i :| 0 <= i < |active| && active[i] == a;
      }
    }
  }

  /** `findAppsByUserId`. */
  method FindAppsByUserId(t: AppTable, userId: string) returns (r: Result<seq<App>>)
    ensures !t.readable ==> r == Fail(FindAllError())
    ensures t.readable ==> r == Ok(UserApps(t.rows, userId))
  {
    var found := t.FindActive(userId);
    if found.Fail? {
      return Fail(found.error);
    }
    r := Ok(Ordering.NewestFirst(found.value, (a: App) => a.createdAt));
  }

  /** The attributes `createApp` stores: name, description and url from `appData`,
      whatever else it holds, and `isActive: true`. */
  function CreationDraft(userId: string, appData: AppPatch): AppDraft
  {
    AppDraft(userId, appData.name, appData.description, appData.url, true)
  }

  /** `createApp(userId, appData)`. */
  method CreateApp(t: AppTable, userId: string, appData: AppPatch, freshId: string, now: int)
    returns (r: Result<App>)
    requires t.Valid()
    modifies t
    ensures t.Valid() && t.readable == old(t.readable) && t.writable == old(t.writable)
    ensures old(t.writable) && appData.name.Some? && (forall i :: 0 <= i < |old(t.rows)| ==> old(t.rows)[i].id != freshId) ==>
              r == Ok(NewApp(CreationDraft(userId, appData), freshId, now)) &&
              t.rows == old(t.rows) + [NewApp(CreationDraft(userId, appData), freshId, now)]
    ensures !(old(t.writable) && appData.name.Some? && (forall i :: 0 <= i < |old(t.rows)| ==> old(t.rows)[i].id != freshId)) ==>
              r == Fail(CreateError()) && t.rows == old(t.rows)
  {
    r := t.Create(CreationDraft(userId, appData), freshId, now);
  }

  /** A created app is active and belongs to the caller. */
  lemma CreatedAppActive(userId: string, appData: AppPatch, freshId: string, now: int)
    requires appData.name.Some?
    ensures var a := NewApp(CreationDraft(userId, appData), freshId, now);
      a.isActive && a.userId == userId && a.name == appData.name.value &&
      a.description == appData.description && a.url == appData.url
  {
  }

  /** `updateApp(appId, userId, appData)`: edits the owner's row; 404 when the update
      reports 0 rows: there is no such row, or `appData` gives no attribute. */
  method UpdateApp(t: AppTable, appId: string, userId: string, appData: AppPatch, now: int) returns (r: Result<nat>)
    requires t.Valid()
    modifies t
    ensures t.Valid() && t.readable == old(t.readable) && t.writable == old(t.writable)
    ensures WritesNothing(Edit(appData)) ==> r == Fail(Raise(UPDATE_MISSING, 404)) && t.rows == old(t.rows)
    ensures !WritesNothing(Edit(appData)) && !old(t.writable) ==> r == Fail(UpdateError()) && t.rows == old(t.rows)
    ensures !WritesNothing(Edit(appData)) && old(t.writable) ==> t.rows == UpdateRows(old(t.rows), appId, userId, Edit(appData), now)
    ensures !WritesNothing(Edit(appData)) && old(t.writable) ==>
      r == (if Affected(old(t.rows), appId, userId) == 0 then Fail(Raise(UPDATE_MISSING, 404))
            else Ok(Affected(old(t.rows), appId, userId)))
  {
    var n := t.Update(appId, userId, Edit(appData), now);
    if n.Fail? {
      return n;
    }
    if n.value == 0 {
      return Fail(Raise(UPDATE_MISSING, 404));
    }
    r := n;
  }

  /** `deactivateApp(appId, userId)`: deactivates the owner's row; 404 when there is none. */
  method DeactivateApp(t: AppTable, appId: string, userId: string, now: int) returns (r: Result<nat>)
    requires t.Valid()
    modifies t
    ensures t.Valid() && t.readable == old(t.readable) && t.writable == old(t.writable)
    ensures !old(t.writable) ==> r == Fail(UpdateError()) && t.rows == old(t.rows)
    ensures old(t.writable) ==> t.rows == UpdateRows(old(t.rows), appId, userId, Deactivate, now)
    ensures old(t.writable) ==>
      r == (if Affected(old(t.rows), appId, userId) == 0 then Fail(Raise(DEACTIVATE_MISSING, 404))
            else Ok(Affected(old(t.rows), appId, userId)))
  {
    var n := t.Update(appId, userId, Deactivate, now);
    if n.Fail? {
      return n;
    }
    if n.value == 0 {
      return Fail(Raise(DEACTIVATE_MISSING, 404));
    }
    r := n;
  }

  /** A 404 from an owner-scoped update means the table is unchanged: another user's
      app is never touched. */
  lemma NotOwnerChangesNothing(rows: seq<App>, appId: string, userId: string, c: Change, now: int)
    requires Affected(rows, appId, userId) == 0
    ensures UpdateRows(rows, appId, userId, c, now) == rows
  {
  }

  /** A deactivated app drops out of its owner's list. */
  lemma DeactivatedAppNotListed(rows: seq<App>, appId: string, userId: string, now: int)
    ensures forall a :: a in UserApps(UpdateRows(rows, appId, userId, Deactivate, now), userId) ==> a.id != appId
  {
    var out := UpdateRows(rows, appId, userId, Deactivate, now);
    UserAppsContents(out, userId);
    forall a | a in UserApps(out, userId)
      ensures a.id != appId
    {
      var i :| 0 <= i < |out| && out[i] == a;
      assert !Owned(rows[i], appId, userId) ==> out[i] == rows[i];
    }
  }
}
