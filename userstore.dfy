/** The `users` table (src/shared/models/User.ts) behind the data-access layer
    (src/services/db/databaseService.ts). A row is a value; the table is an object whose
    row list the writes replace. Times are integer milliseconds. */
module UserStore {
  import opened JsSemantics
  import opened Errors

  /** `model.name` of the User model: the `modelName` it is initialised with. */
  const MODEL_NAME := "users"

  /** One row of `users`. The nullable columns are `Option`s. */
  datatype User = User(
    id: string,
    email: string,
    firstName: Option<string>,
    lastName: Option<string>,
    password: Option<string>,
    googleId: Option<string>,
    profileImage: Option<string>,
    isActive: bool,
    isVerified: bool,
    lastLogin: Option<int>,
    createdAt: int,
    updatedAt: int)

  /** A `Partial<User>` handed to `create` or `update`: `None` is an absent attribute,
      `Some(None)` an explicit null. */
  datatype Fields = Fields(
    email: Option<string>,
    firstName: Option<Option<string>>,
    lastName: Option<Option<string>>,
    password: Option<Option<string>>,
    googleId: Option<Option<string>>,
    profileImage: Option<Option<string>>,
    isActive: Option<bool>,
    isVerified: Option<bool>,
    lastLogin: Option<Option<int>>)

  const NO_FIELDS := Fields(None, None, None, None, None, None, None, None, None)

  /** An update that gives no attribute. Sequelize's static `update` drops undefined
      values, and with only `updatedAt` left it sends no query and reports 0 rows. */
  predicate WritesNothing(f: Fields)
  {
    f == NO_FIELDS
  }

  /** A JavaScript value that is a string and not empty: the truthy case of a nullable
      string. */
  predicate Filled(s: Option<string>)
  {
    s.Some? && s.value != ""
  }

  /** A nullable attribute as `create` stores it: absent means null. */
  function OrNull<T>(given: Option<Option<T>>): (v: Option<T>)
    ensures given.Some? ==> v == given.value
    ensures given.None? ==> v.None?
  {
    if given.Some? then given.value else None
  }

  // The data-access layer's errors.
  function FindByIdError(): Thrown { Raise("Failed to find record by ID in " + MODEL_NAME, 500) }
  function FindOneError(): Thrown { Raise("Failed to find record in " + MODEL_NAME, 500) }
  function CreateError(): Thrown { Raise("Failed to create record in " + MODEL_NAME, 500) }
  function UpdateError(): Thrown { Raise("Failed to update records in " + MODEL_NAME, 500) }

  /** The `where` clauses of the `findOne` queries. */
  datatype Query = ByEmail(email: string) | ByGoogleId(googleId: string)

  predicate Matches(q: Query, u: User)
  {
    match q
    case ByEmail(email) => u.email == email
    case ByGoogleId(googleId) => u.googleId == Some(googleId)
  }

  /** A row after `update(f)` at time `now`: the given attributes replace the old
      ones and `updatedAt` is stamped. */
  function Applied(u: User, f: Fields, now: int): (out: User)
    ensures out.id == u.id && out.createdAt == u.createdAt && out.updatedAt == now
    ensures out.email == Keep(f.email, u.email)
    ensures out.firstName == Keep(f.firstName, u.firstName) && out.lastName == Keep(f.lastName, u.lastName)
    ensures out.password == Keep(f.password, u.password) && out.googleId == Keep(f.googleId, u.googleId)
    ensures out.profileImage == Keep(f.profileImage, u.profileImage)
    ensures out.isActive == Keep(f.isActive, u.isActive) && out.isVerified == Keep(f.isVerified, u.isVerified)
    ensures out.lastLogin == Keep(f.lastLogin, u.lastLogin)
  {
    User(u.id, Keep(f.email, u.email), Keep(f.firstName, u.firstName), Keep(f.lastName, u.lastName),
         Keep(f.password, u.password), Keep(f.googleId, u.googleId), Keep(f.profileImage, u.profileImage),
         Keep(f.isActive, u.isActive), Keep(f.isVerified, u.isVerified), Keep(f.lastLogin, u.lastLogin),
         u.createdAt, now)
  }

  /** The row `create(f)` stores: the model's defaults (`isActive` true, `isVerified`
      false, nulls) for every attribute `f` leaves out. The email is required. */
  function NewUser(f: Fields, id: string, now: int): (u: User)
    requires f.email.Some?
    ensures u.id == id && u.email == f.email.value
    ensures u.firstName == OrNull(f.firstName) && u.lastName == OrNull(f.lastName)
    ensures u.password == OrNull(f.password) && u.googleId == OrNull(f.googleId)
    ensures u.profileImage == OrNull(f.profileImage)
    ensures u.isActive == Keep(f.isActive, true) && u.isVerified == Keep(f.isVerified, false)
    ensures u.lastLogin == OrNull(f.lastLogin)
    ensures u.createdAt == now && u.updatedAt == now
  {
    User(id, f.email.value, OrNull(f.firstName), OrNull(f.lastName), OrNull(f.password), OrNull(f.googleId),
         OrNull(f.profileImage), Keep(f.isActive, true), Keep(f.isVerified, false), OrNull(f.lastLogin), now, now)
  }

  /** The table after `UPDATE users SET f WHERE id = id`. */
  function UpdateRows(rows: seq<User>, id: string, f: Fields, now: int): (out: seq<User>)
    ensures |out| == |rows|
    ensures forall i :: 0 <= i < |rows| && rows[i].id == id ==> out[i] == Applied(rows[i], f, now)
    ensures forall i :: 0 <= i < |rows| && rows[i].id != id ==> out[i] == rows[i]
  {
    if rows == [] then []
    else
      var rest := UpdateRows(rows[1..], id, f, now);
      assert forall i :: 1 <= i < |rows| ==> rows[i] == rows[1..][i - 1];
      [if rows[0].id == id then Applied(rows[0], f, now) else rows[0]] + rest
  }

  /** The row `findOne` returns: the first in table order that matches. */
  function FirstMatch(rows: seq<User>, q: Query): (r: Option<User>)
    ensures r.None? <==> forall i :: 0 <= i < |rows| ==> !Matches(q, rows[i])
    ensures r.Some? ==> r.value in rows && Matches(q, r.value)
  {
    if rows == [] then None
    else if Matches(q, rows[0]) then Some(rows[0])
    else
      assert forall i :: 1 <= i < |rows| ==> rows[i] == rows[1..][i - 1];
      FirstMatch(rows[1..], q)
  }

  /** The row `findByPk` returns. */
  function RowById(rows: seq<User>, id: string): (r: Option<User>)
    ensures r.None? <==> forall i :: 0 <= i < |rows| ==> rows[i].id != id
    ensures r.Some? ==> r.value in rows && r.value.id == id
  {
    if rows == [] then None
    else if rows[0].id == id then Some(rows[0])
    else
      assert forall i :: 1 <= i < |rows| ==> rows[i] == rows[1..][i - 1];
      RowById(rows[1..], id)
  }

  /** The number of rows an update by `id` reports. */
  function Affected(rows: seq<User>, id: string): (n: nat)
    ensures n <= |rows|
    ensures n == 0 <==> forall i :: 0 <= i < |rows| ==> rows[i].id != id
  {
    if rows == [] then 0
    else
      assert forall i :: 1 <= i < |rows| ==> rows[i] == rows[1..][i - 1];
      (if rows[0].id == id then 1 else 0) + Affected(rows[1..], id)
  }

  /** The primary key and the unique `email` and `google_id` columns (NULLs never clash). */
  predicate Consistent(rows: seq<User>)
  {
    forall i, j :: 0 <= i < j < |rows| ==>
      rows[i].id != rows[j].id && rows[i].email != rows[j].email &&
      (rows[i].googleId.None? || rows[i].googleId != rows[j].googleId)
  }

  /** The email column's `isEmail` validator passes the email `f` writes, if any.
      `create` and `update` run it before the query; its rule is a parameter. */
  predicate EmailChecked(f: Fields, isEmail: string -> bool)
  {
    f.email.None? || isEmail(f.email.value)
  }

  /** Whether `u` can join `rows` without a constraint violation. */
  predicate Insertable(rows: seq<User>, u: User)
  {
    forall i :: 0 <= i < |rows| ==>
      rows[i].id != u.id && rows[i].email != u.email && (u.googleId.None? || rows[i].googleId != u.googleId)
  }

  lemma AppendKeepsConsistent(rows: seq<User>, u: User)
    requires Consistent(rows) && Insertable(rows, u)
    ensures Consistent(rows + [u])
  {
    var out := rows + [u];
    forall i, j | 0 <= i < j < |out|
      ensures out[i].id != out[j].id && out[i].email != out[j].email &&
              (out[i].googleId.None? || out[i].googleId != out[j].googleId)
    {
      if j == |rows| {
        assert out[j] == u && out[i] == rows[i];
      }
    }
  }

  /** A table of users. `readable` and `writable` stand for the database accepting
      reads and writes; when it does not, the data-access layer reports its error and
      nothing changes. `isEmail` is the email column's validator. */
  class UserTable {
    var rows: seq<User>
    var readable: bool
    var writable: bool
    const isEmail: string -> bool

    ghost predicate Valid()
      reads this
    {
      Consistent(rows)
    }

    constructor (readable: bool, writable: bool, isEmail: string -> bool)
      ensures Valid()
      ensures this.rows == [] && this.readable == readable && this.writable == writable && this.isEmail == isEmail
    {
      this.rows := [];
      this.readable := readable;
      this.writable := writable;
      this.isEmail := isEmail;
    }

    /** `DatabaseService.findById`. */
    method FindById(id: string) returns (r: Result<Option<User>>)
      ensures readable ==> r == Ok(RowById(rows, id))
      ensures !readable ==> r == Fail(FindByIdError())
    {
      if readable {
        r := Ok(RowById(rows, id));
      } else {
        r := Fail(FindByIdError());
      }
    }

    /** `DatabaseService.findOne`. */
    method FindOne(q: Query) returns (r: Result<Option<User>>)
      ensures readable ==> r == Ok(FirstMatch(rows, q))
      ensures !readable ==> r == Fail(FindOneError())
    {
      if readable {
        r := Ok(FirstMatch(rows, q));
      } else {
        r := Fail(FindOneError());
      }
    }

    /** `DatabaseService.create`: one new row at the end, or the create error when the
        database is down, the email is missing or fails `isEmail`, or a unique column
        clashes. */
    method Create(f: Fields, id: string, now: int) returns (r: Result<User>)
      requires Valid()
      modifies this
      ensures Valid()
      ensures readable == old(readable) && writable == old(writable)
      ensures old(writable) && f.email.Some? && EmailChecked(f, isEmail) && Insertable(old(rows), NewUser(f, id, now)) ==>
                r == Ok(NewUser(f, id, now)) && rows == old(rows) + [NewUser(f, id, now)]
      ensures !(old(writable) && f.email.Some? && EmailChecked(f, isEmail) && Insertable(old(rows), NewUser(f, id, now))) ==>
                r == Fail(CreateError()) && rows == old(rows)
    {
      if writable && f.email.Some? && EmailChecked(f, isEmail) && Insertable(rows, NewUser(f, id, now)) {
        var u := NewUser(f, id, now);
        AppendKeepsConsistent(rows, u);
        rows := rows + [u];
        r := Ok(u);
      } else {
        r := Fail(CreateError());
      }
    }

    /** `DatabaseService.update` by id: the affected-row count, or the update error when
        the database is down, a written email fails `isEmail`, or a unique column would
        clash. The static `update` validates only the attributes it is given, and an
        update that gives none reports 0 without reaching the database. */
    method Update(id: string, f: Fields, now: int) returns (r: Result<nat>)
      requires Valid()
      modifies this
      ensures Valid()
      ensures readable == old(readable) && writable == old(writable)
      ensures WritesNothing(f) ==> r == Ok(0) && rows == old(rows)
      ensures !WritesNothing(f) && old(writable) && EmailChecked(f, isEmail) && Consistent(UpdateRows(old(rows), id, f, now)) ==>
                r == Ok(Affected(old(rows), id)) && rows == UpdateRows(old(rows), id, f, now)
      ensures !WritesNothing(f) && !(old(writable) && EmailChecked(f, isEmail) && Consistent(UpdateRows(old(rows), id, f, now))) ==>
                r == Fail(UpdateError()) && rows == old(rows)
    {
      var updated := UpdateRows(rows, id, f, now);
      if WritesNothing(f) {
        r := Ok(0);
      } else if writable && EmailChecked(f, isEmail) && Consistent(updated) {
        r := Ok(Affected(rows, id));
        rows := updated;
      } else {
        r := Fail(UpdateError());
      }
    }
  }

  /** An update that writes neither the email nor the Google id keeps the unique columns. */
  lemma ProfileUpdateConsistent(rows: seq<User>, id: string, f: Fields, now: int)
    requires Consistent(rows) && f.email.None? && f.googleId.None?
    ensures Consistent(UpdateRows(rows, id, f, now))
  {
    var out := UpdateRows(rows, id, f, now);
    assert forall i :: 0 <= i < |rows| ==>
      out[i].id == rows[i].id && out[i].email == rows[i].email && out[i].googleId == rows[i].googleId;
  }

  /** Linking a Google id that no row holds to one row keeps the unique columns. */
  lemma LinkConsistent(rows: seq<User>, id: string, googleId: string, f: Fields, now: int)
    requires Consistent(rows) && f.email.None? && f.googleId == Some(Some(googleId))
    requires forall i :: 0 <= i < |rows| ==> rows[i].googleId != Some(googleId)
    ensures Consistent(UpdateRows(rows, id, f, now))
  {
    var out := UpdateRows(rows, id, f, now);
    forall i, j | 0 <= i < j < |out|
      ensures out[i].id != out[j].id && out[i].email != out[j].email &&
              (out[i].googleId.None? || out[i].googleId != out[j].googleId)
    {
      assert out[i].id == rows[i].id && out[j].id == rows[j].id;
      assert out[i].email == rows[i].email && out[j].email == rows[j].email;
    }
  }

  /** `findByPk` after an update by that id finds the updated row. */
  lemma {:induction false} RowByIdAfterUpdate(rows: seq<User>, id: string, f: Fields, now: int)
    ensures RowById(UpdateRows(rows, id, f, now), id) ==
            (if RowById(rows, id).Some? then Some(Applied(RowById(rows, id).value, f, now)) else None)
  {
    if rows != [] {
      var out := UpdateRows(rows, id, f, now);
      assert out[1..] == UpdateRows(rows[1..], id, f, now);
      RowByIdAfterUpdate(rows[1..], id, f, now);
    }
  }

  /** Under the primary key, the row found by a query is the row `findByPk` finds by
      its id. */
  lemma FoundRowById(rows: seq<User>, q: Query)
    requires Consistent(rows) && FirstMatch(rows, q).Some?
    ensures RowById(rows, FirstMatch(rows, q).value.id) == FirstMatch(rows, q)
  {
    var u := FirstMatch(rows, q).value;
    var r := RowById(rows, u.id);
    var i :| 0 <= i < |rows| && rows[i] == u;
    var j :| 0 <= j < |rows| && rows[j] == r.value;
    assert i == j;
  }
}
