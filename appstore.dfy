/** The `apps` table (src/shared/models/App.ts) behind the data-access layer
    (src/services/db/databaseService.ts). Times are integer milliseconds. */
module AppStore {
  import opened JsSemantics
  import opened Errors
  import Ordering

  /** `model.name` of the App model: the `modelName` it is initialised with. */
  const MODEL_NAME := "apps"

  datatype App = App(
    id: string,
    userId: string,
    name: string,
    description: Option<string>,
    url: Option<string>,
    isActive: bool,
    createdAt: int,
    updatedAt: int)

  /** The attributes handed to `create`; a missing name is refused by NOT NULL. */
  datatype AppDraft = AppDraft(
    userId: string,
    name: Option<string>,
    description: Option<string>,
    url: Option<string>,
    isActive: bool)

  /** A `Partial<CreateAppOptions>`: each present field is written. */
  datatype AppPatch = AppPatch(name: Option<string>, description: Option<string>, url: Option<string>)

  /** The values the updates write. */
  datatype Change = Edit(patch: AppPatch) | Deactivate

  /** A change that gives no attribute. Sequelize's static `update` drops undefined
      values, and with only `updatedAt` left it sends no query and reports 0 rows. */
  predicate WritesNothing(c: Change)
  {
    c == Edit(AppPatch(None, None, None))
  }

  function FindByIdError(): Thrown { Raise("Failed to find record by ID in " + MODEL_NAME, 500) }
  function FindAllError(): Thrown { Raise("Failed to find records in " + MODEL_NAME, 500) }
  function CreateError(): Thrown { Raise("Failed to create record in " + MODEL_NAME, 500) }
  function UpdateError(): Thrown { Raise("Failed to update records in " + MODEL_NAME, 500) }

  /** A row after an update at `now`. */
  function Changed(a: App, c: Change, now: int): (out: App)
    ensures out.id == a.id && out.userId == a.userId && out.createdAt == a.createdAt && out.updatedAt == now
    ensures c.Deactivate? ==> out == a.(isActive := false, updatedAt := now)
    ensures c.Edit? ==> out.isActive == a.isActive
    ensures c.Edit? ==> out.name == (if c.patch.name.Some? then c.patch.name.value else a.name)
    ensures c.Edit? ==> out.description == (if c.patch.description.Some? then c.patch.description else a.description)
    ensures c.Edit? ==> out.url == (if c.patch.url.Some? then c.patch.url else a.url)
  {
    match c
    case Deactivate => a.(isActive := false, updatedAt := now)
    case Edit(p) =>
      a.(name := if p.name.Some? then p.name.value else a.name,
         description := if p.description.Some? then p.description else a.description,
         url := if p.url.Some? then p.url else a.url,
         updatedAt := now)
  }

  /** `update ... where { id, userId }` selects only the owner's row with that id. */
  predicate Owned(a: App, id: string, userId: string)
  {
    a.id == id && a.userId == userId
  }

  /** The table after `UPDATE apps SET c WHERE id = id AND user_id = userId`. */
  function UpdateRows(rows: seq<App>, id: string, userId: string, c: Change, now: int): (out: seq<App>)
    ensures |out| == |rows|
    ensures forall i :: 0 <= i < |rows| && Owned(rows[i], id, userId) ==> out[i] == Changed(rows[i], c, now)
    ensures forall i :: 0 <= i < |rows| && !Owned(rows[i], id, userId) ==> out[i] == rows[i]
  {
    if rows == [] then []
    else
      var rest := UpdateRows(rows[1..], id, userId, c, now);
      assert forall i :: 1 <= i < |rows| ==> rows[i] == rows[1..][i - 1];
      [if Owned(rows[0], id, userId) then Changed(rows[0], c, now) else rows[0]] + rest
  }

  /** The number of rows such an update reports. */
  function Affected(rows: seq<App>, id: string, userId: string): (n: nat)
    ensures n <= |rows|
    ensures n == 0 <==> forall i :: 0 <= i < |rows| ==> !Owned(rows[i], id, userId)
  {
    Ordering.CountWhere(rows, (a: App) => Owned(a, id, userId))
  }

  /** The row `findByPk` returns. */
  function RowById(rows: seq<App>, id: string): (r: Option<App>)
    ensures r.None? <==> forall i :: 0 <= i < |rows| ==> rows[i].id != id
    ensures r.Some? ==> r.value in rows && r.value.id == id
  {
    if rows == [] then None
    else if rows[0].id == id then Some(rows[0])
    else
      assert forall i :: 1 <= i < |rows| ==> rows[i] == rows[1..][i - 1];
      RowById(rows[1..], id)
  }

  /** The rows `findAll({ where: { userId, isActive: true } })` returns, in table order. */
  function ActiveApps(rows: seq<App>, userId: string): (out: seq<App>)
    ensures forall i :: 0 <= i < |out| ==> out[i] in rows && out[i].userId == userId && out[i].isActive
    ensures forall i :: 0 <= i < |rows| && rows[i].userId == userId && rows[i].isActive ==> rows[i] in out
  {
    Ordering.Where(rows, (a: App) => a.userId == userId && a.isActive)
  }

  /** The primary key: no two rows share an id. */
  predicate Consistent(rows: seq<App>)
  {
    forall i, j :: 0 <= i < j < |rows| ==> rows[i].id != rows[j].id
  }

  /** The row `create` stores. */
  function NewApp(d: AppDraft, id: string, now: int): (a: App)
    requires d.name.Some?
    ensures a.id == id && a.userId == d.userId && a.name == d.name.value
    ensures a.description == d.description && a.url == d.url && a.isActive == d.isActive
    ensures a.createdAt == now && a.updatedAt == now
  {
    App(id, d.userId, d.name.value, d.description, d.url, d.isActive, now, now)
  }

  class AppTable {
    var rows: seq<App>
    var readable: bool
    var writable: bool

    ghost predicate Valid()
      reads this
    {
      Consistent(rows)
    }

    constructor (readable: bool, writable: bool)
      ensures Valid()
      ensures this.rows == [] && this.readable == readable && this.writable == writable
    {
      this.rows := [];
      this.readable := readable;
      this.writable := writable;
    }

    /** `DatabaseService.findById`. */
    method FindById(id: string) returns (r: Result<Option<App>>)
      ensures readable ==> r == Ok(RowById(rows, id))
      ensures !readable ==> r == Fail(FindByIdError())
    {
      if readable {
        r := Ok(RowById(rows, id));
      } else {
        r := Fail(FindByIdError());
      }
    }

    /** `DatabaseService.findAll` of a user's active apps, unordered. */
    method FindActive(userId: string) returns (r: Result<seq<App>>)
      ensures readable ==> r == Ok(ActiveApps(rows, userId))
      ensures !readable ==> r == Fail(FindAllError())
    {
      if readable {
        r := Ok(ActiveApps(rows, userId));
      } else {
        r := Fail(FindAllError());
      }
    }

    /** `DatabaseService.create`: the new row at the end, or the create error when the
        database is down, the name is missing, or the id is taken. */
    method Create(d: AppDraft, id: string, now: int) returns (r: Result<App>)
      requires Valid()
      modifies this
      ensures Valid()
      ensures readable == old(readable) && writable == old(writable)
      ensures old(writable) && d.name.Some? && (forall i :: 0 <= i < |old(rows)| ==> old(rows)[i].id != id) ==>
                r == Ok(NewApp(d, id, now)) && rows == old(rows) + [NewApp(d, id, now)]
      ensures !(old(writable) && d.name.Some? && (forall i :: 0 <= i < |old(rows)| ==> old(rows)[i].id != id)) ==>
                r == Fail(CreateError()) && rows == old(rows)
    {
      if writable && d.name.Some? && forall i :: 0 <= i < |rows| ==> rows[i].id != id {
        var a := NewApp(d, id, now);
        ghost var out := rows + [a];
        assert forall i :: 0 <= i < |rows| ==> out[i] == rows[i];
        rows := rows + [a];
        r := Ok(a);
      } else {
        r := Fail(CreateError());
      }
    }

    /** `DatabaseService.update` on the owner's row: the affected count, or the update
        error when the database is down; a change that gives no attribute reports 0
        without reaching the database. Ids are never rewritten, so the key holds. */
    method Update(id: string, userId: string, c: Change, now: int) returns (r: Result<nat>)
      requires Valid()
      modifies this
      ensures Valid()
      ensures readable == old(readable) && writable == old(writable)
      ensures WritesNothing(c) ==> r == Ok(0) && rows == old(rows)
      ensures !WritesNothing(c) && old(writable) ==>
                r == Ok(Affected(old(rows), id, userId)) && rows == UpdateRows(old(rows), id, userId, c, now)
      ensures !WritesNothing(c) && !old(writable) ==> r == Fail(UpdateError()) && rows == old(rows)
    {
      if WritesNothing(c) {
        r := Ok(0);
      } else if writable {
        var out := UpdateRows(rows, id, userId, c, now);
        assert forall i :: 0 <= i < |rows| ==> out[i].id == rows[i].id;
        r := Ok(Affected(rows, id, userId));
        rows := out;
      } else {
        r := Fail(UpdateError());
      }
    }
  }

  /** An owner-scoped update changes at most the row with that id, and only when the
      given user owns it; every other row is kept. */
  lemma OnlyOwnerRowChanges(rows: seq<App>, id: string, userId: string, c: Change, now: int, i: nat)
    requires i < |rows| && (rows[i].id != id || rows[i].userId != userId)
    ensures UpdateRows(rows, id, userId, c, now)[i] == rows[i]
  {
  }

  /** `findByPk` after an owner-scoped update by that id: the changed row if the user
      owns it, the old row otherwise. */
  lemma {:induction false} RowByIdAfterUpdate(rows: seq<App>, id: string, userId: string, c: Change, now: int)
    ensures RowById(UpdateRows(rows, id, userId, c, now), id) ==
            (if RowById(rows, id).Some? && RowById(rows, id).value.userId == userId
             then Some(Changed(RowById(rows, id).value, c, now)) else RowById(rows, id))
  {
    if rows != [] {
      var out := UpdateRows(rows, id, userId, c, now);
      assert out[1..] == UpdateRows(rows[1..], id, userId, c, now);
      RowByIdAfterUpdate(rows[1..], id, userId, c, now);
    }
  }
}
