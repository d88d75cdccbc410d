/** The user repository behind sign-in (src/controllers/auth/repository/index.ts): unlike
    the repository of src/repositories/users it does not check emails before creating,
    reports an update of no row as 404, and finds or creates users by email. */
module AuthRepository {
  import opened JsSemantics
  import opened Errors
  import opened UserStore

  function NotFoundById(userId: string): Thrown
  {
    Raise("User with id " + userId + " not found", 404)
  }

  /** `findUserById`: the row, or 404 naming the id. */
  method FindUserById(t: UserTable, userId: string) returns (r: Result<User>)
    ensures !t.readable ==> r == Fail(FindByIdError())
    ensures t.readable && RowById(t.rows, userId).None? ==> r == Fail(NotFoundById(userId))
    ensures t.readable && RowById(t.rows, userId).Some? ==> r == Ok(RowById(t.rows, userId).value)
  {
    var found := t.FindById(userId);
    if found.Fail? {
      return Fail(found.error);
    }
    if found.value.None? {
      return Fail(NotFoundById(userId));
    }
    r := Ok(found.value.value);
  }

  /** `updateUser`: the affected count, or 404 when the update reports 0 rows: no row
      has that id, or the update gives no attribute. */
  method UpdateUser(t: UserTable, userId: string, f: Fields, now: int) returns (r: Result<nat>)
    requires t.Valid()
    modifies t
    ensures t.Valid() && t.readable == old(t.readable) && t.writable == old(t.writable)
    ensures WritesNothing(f) ==> r == Fail(NotFoundById(userId)) && t.rows == old(t.rows)
    ensures !WritesNothing(f) && !(old(t.writable) && EmailChecked(f, t.isEmail) && Consistent(UpdateRows(old(t.rows), userId, f, now))) ==>
              r == Fail(UpdateError()) && t.rows == old(t.rows)
    ensures !WritesNothing(f) && old(t.writable) && EmailChecked(f, t.isEmail) && Consistent(UpdateRows(old(t.rows), userId, f, now)) ==>
              t.rows == UpdateRows(old(t.rows), userId, f, now) &&
              r == (if Affected(old(t.rows), userId) == 0 then Fail(NotFoundById(userId))
                    else Ok(Affected(old(t.rows), userId)))
  {
    var n := t.Update(userId, f, now);
    if n.Fail? {
      return n;
    }
    if n.value == 0 {
      return Fail(NotFoundById(userId));
    }
    r := n;
  }

  /** An update of an id no row holds writes nothing and reports 404. */
  lemma UpdateOfMissingIdChangesNothing(rows: seq<User>, userId: string, f: Fields, now: int)
    requires forall i :: 0 <= i < |rows| ==> rows[i].id != userId
    ensures UpdateRows(rows, userId, f, now) == rows
    ensures Affected(rows, userId) == 0
  {
  }

  /** `findOrCreateUser(email, userData)`: an existing user with that email is updated
      with `userData` and returned as it was before the update, with `false` (an empty
      `userData` updates nothing, and the 0 rows it reports are `updateUser`'s 404);
      otherwise a user is created from `userData` alone and returned with `true`. */
  method FindOrCreateUser(t: UserTable, email: string, userData: Fields, freshId: string, now: int)
    returns (r: Result<(User, bool)>)
    requires t.Valid()
    modifies t
    ensures t.Valid() && t.readable == old(t.readable) && t.writable == old(t.writable)
    ensures !t.readable ==> r == Fail(FindOneError()) && t.rows == old(t.rows)
    ensures t.readable && FirstMatch(old(t.rows), ByEmail(email)).Some? ==>
      var u := FirstMatch(old(t.rows), ByEmail(email)).value;
      if WritesNothing(userData) then r == Fail(NotFoundById(u.id)) && t.rows == old(t.rows)
      else if old(t.writable) && EmailChecked(userData, t.isEmail) && Consistent(UpdateRows(old(t.rows), u.id, userData, now))
      then r == Ok((u, false)) && t.rows == UpdateRows(old(t.rows), u.id, userData, now)
      else r == Fail(UpdateError()) && t.rows == old(t.rows)
    ensures t.readable && FirstMatch(old(t.rows), ByEmail(email)).None? ==>
      if old(t.writable) && userData.email.Some? && EmailChecked(userData, t.isEmail) &&
         Insertable(old(t.rows), NewUser(userData, freshId, now))
      then r == Ok((NewUser(userData, freshId, now), true)) && t.rows == old(t.rows) + [NewUser(userData, freshId, now)]
      else r == Fail(CreateError()) && t.rows == old(t.rows)
  {
    var existing := t.FindOne(ByEmail(email));
    if existing.Fail? {
      return Fail(existing.error);
    }
    if existing.value.Some? {
      var u := existing.value.value;
      assert u in t.rows;
      var n := UpdateUser(t, u.id, userData, now);
      if n.Fail? {
        return Fail(n.error);
      }
      return Ok((u, false));
    }
    var created := t.Create(userData, freshId, now);
    if created.Fail? {
      return Fail(created.error);
    }
    r := Ok((created.value, true));
  }

  /** The user returned for an existing email is the row before the update: whenever
      `userData` sets a different first name, the returned and the stored user differ. */
  lemma ExistingUserReturnedStale(rows: seq<User>, email: string, userData: Fields, now: int)
    requires FirstMatch(rows, ByEmail(email)).Some?
    requires userData.firstName.Some? && userData.firstName.value != FirstMatch(rows, ByEmail(email)).value.firstName
    ensures var u := FirstMatch(rows, ByEmail(email)).value;
      exists i :: 0 <= i < |rows| && rows[i] == u && UpdateRows(rows, u.id, userData, now)[i].firstName != u.firstName
  {
    var u := FirstMatch(rows, ByEmail(email)).value;
    var i :| 0 <= i < |rows| && rows[i] == u;
    assert UpdateRows(rows, u.id, userData, now)[i] == Applied(u, userData, now);
  }
}
